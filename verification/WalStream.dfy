/** A log: encoded records back to back, and the streaming decoder that stops at the first bad one. */
module WalStream {
  import opened Options
  import opened Crc32
  import opened WalHeader
  import opened WalRecordProofs

  datatype Decoded = Decoded(records: seq<WalRecord>, residual: nat)

  /** All records up to the first position where none decodes, and the number of bytes left there. */
  function DecodeAll(s: seq<byte>): (d: Decoded)
    ensures d.residual <= |s|
    decreases |s|
  {
    match ParseHead(s)
    case None => Decoded([], |s|)
    case Some(r) =>
      var rest := DecodeAll(s[HEADER_SIZE + |r.payload|..]);
      Decoded([r] + rest.records, rest.residual)
  }

  function Log(rs: seq<WalRecord>): seq<byte> {
    if rs == [] then [] else Encoded(rs[0]) + Log(rs[1..])
  }

  function NormalisedAll(rs: seq<WalRecord>): (ns: seq<WalRecord>)
    ensures |ns| == |rs| && forall i :: 0 <= i < |rs| ==> ns[i] == Normalised(rs[i])
  {
    seq(|rs|, i requires 0 <= i < |rs| => Normalised(rs[i]))
  }

  ghost predicate Encodable(rs: seq<WalRecord>) {
    forall r :: r in rs ==> |r.payload| < U32_LIMIT
  }

  /** How many records end at or before byte k of the log. */
  function Whole(rs: seq<WalRecord>, k: nat): (m: nat)
    ensures m <= |rs|
  {
    if rs == [] || k < |Encoded(rs[0])| then 0 else 1 + Whole(rs[1..], k - |Encoded(rs[0])|)
  }

  // ---------- Logs and decoding ----------

  lemma {:induction false} LogAppend(a: seq<WalRecord>, b: seq<WalRecord>)
    ensures Log(a + b) == Log(a) + Log(b)
  {
    hide Encoded;
    if a == [] {
      assert a + b == b;
    } else {
      assert (a + b)[1..] == a[1..] + b;
      LogAppend(a[1..], b);
    }
  }

  lemma LogSnoc(a: seq<WalRecord>, r: WalRecord)
    ensures Log(a + [r]) == Log(a) + Encoded(r)
  {
    hide Encoded;
    LogAppend(a, [r]);
    assert Log([r]) == Encoded(r) + Log([]);
  }

  lemma LogSplit(rs: seq<WalRecord>, i: nat)
    requires i < |rs|
    ensures Log(rs) == Log(rs[..i]) + Encoded(rs[i]) + Log(rs[i + 1..])
  {
    hide Encoded;
    assert rs == rs[..i] + rs[i..];
    LogAppend(rs[..i], rs[i..]);
    assert rs[i..][1..] == rs[i + 1..];
  }

  lemma NormalisedAppend(a: seq<WalRecord>, b: seq<WalRecord>)
    ensures NormalisedAll(a + b) == NormalisedAll(a) + NormalisedAll(b)
  {
    hide Normalised;
  }

  lemma ParseWholeRecord(r: WalRecord, rest: seq<byte>)
    requires |r.payload| < U32_LIMIT
    ensures ParseHead(Encoded(r) + rest) == Some(Normalised(r))
    ensures |Encoded(r)| == HEADER_SIZE + |Normalised(r).payload|
  {
    hide ParseHead, Encoded, KeptFlags, KeptProto;
    RoundTrip(r, rest);
  }

  lemma DecodeStep(r: WalRecord, rest: seq<byte>)
    requires |r.payload| < U32_LIMIT
    ensures DecodeAll(Encoded(r) + rest)
         == Decoded([Normalised(r)] + DecodeAll(rest).records, DecodeAll(rest).residual)
  {
    hide ParseHead, Encoded, Normalised;
    ParseWholeRecord(r, rest);
    assert (Encoded(r) + rest)[|Encoded(r)|..] == rest;
  }

  lemma ConsAppend<T>(x: T, xs: seq<T>, ys: seq<T>)
    ensures [x] + xs + ys == [x] + (xs + ys)
  {}

  /** Whole records in front are decoded one by one; what follows is decoded as if it stood alone. */
  lemma {:induction false} DecodeLogThen(rs: seq<WalRecord>, t: seq<byte>)
    requires Encodable(rs)
    ensures DecodeAll(Log(rs) + t)
         == Decoded(NormalisedAll(rs) + DecodeAll(t).records, DecodeAll(t).residual)
  {
    hide ParseHead, Encoded, Normalised, DecodeAll;
    if rs == [] {
      assert Log(rs) + t == t;
      assert NormalisedAll(rs) + DecodeAll(t).records == DecodeAll(t).records;
    } else {
      var r, rest := rs[0], Log(rs[1..]) + t;
      assert Log(rs) + t == Encoded(r) + rest;
      DecodeStep(r, rest);
      DecodeLogThen(rs[1..], t);
      assert rs == [r] + rs[1..];
      NormalisedAppend([r], rs[1..]);
      assert NormalisedAll([r]) == [Normalised(r)];
      hide NormalisedAll;
      ConsAppend(Normalised(r), NormalisedAll(rs[1..]), DecodeAll(t).records);
    }
  }

  /** Decoding inverts encoding on whole logs, and does so exactly when every payload fits its length field. */
  lemma {:induction false} LogRoundTrip(rs: seq<WalRecord>)
    ensures DecodeAll(Log(rs)) == Decoded(NormalisedAll(rs), 0) <==> Encodable(rs)
  {
    hide ParseHead, Encoded, Normalised;
    if Encodable(rs) {
      DecodeLogThen(rs, []);
      assert Log(rs) + [] == Log(rs);
      assert DecodeAll([]) == Decoded([], 0) by { EmptyLog(); }
    } else if DecodeAll(Log(rs)) == Decoded(NormalisedAll(rs), 0) {
      assert Log(rs) + [] == Log(rs);
      DecodedEncodable(rs, []);
    }
  }

  lemma EmptyLog()
    ensures DecodeAll([]) == Decoded([], 0)
  {}

  lemma {:induction false} DecodedEncodable(rs: seq<WalRecord>, t: seq<byte>)
    requires NormalisedAll(rs) <= DecodeAll(Log(rs) + t).records
    ensures Encodable(rs)
  {
    hide ParseHead, Encoded, Normalised;
    if rs != [] {
      var r, rest := rs[0], Log(rs[1..]) + t;
      var s := Log(rs) + t;
      assert s == Encoded(r) + rest;
      assert NormalisedAll(rs)[0] == DecodeAll(s).records[0];
      RoundTrip(r, rest);
      ParseWholeRecord(r, rest);
      assert s[|Encoded(r)|..] == rest;
      assert NormalisedAll(rs)[1..] == NormalisedAll(rs[1..]);
      assert DecodeAll(s).records[1..] == DecodeAll(rest).records;
      DecodedEncodable(rs[1..], t);
    }
  }

  /** On any bytes at all: decoding a prefix gives a prefix of the decoded records, and consumes no more bytes. */
  lemma {:induction false} DecodePrefix(s: seq<byte>, t: seq<byte>)
    ensures DecodeAll(s).records <= DecodeAll(s + t).records
    ensures |s| - DecodeAll(s).residual <= |s + t| - DecodeAll(s + t).residual
    decreases |s|
  {
    hide ParseHead;
    if ParseHead(s).Some? {
      var n := HEADER_SIZE + |ParseHead(s).value.payload|;
      ParseStable(s, t);
      ParseFits(s);
      assert (s + t)[n..] == s[n..] + t;
      DecodePrefix(s[n..], t);
    }
  }

  lemma ParseFits(s: seq<byte>)
    requires ParseHead(s).Some?
    ensures HEADER_SIZE + |ParseHead(s).value.payload| <= |s|
  {
    ParseLength(s);
  }

  // ---------- Crash recovery ----------

  /** Whole counts exactly: its records end by k, and one more would not. */
  lemma {:induction false} WholeExact(rs: seq<WalRecord>, k: nat)
    ensures |Log(rs[..Whole(rs, k)])| <= k
    ensures Whole(rs, k) < |rs| ==> k < |Log(rs[..Whole(rs, k) + 1])|
  {
    hide Encoded;
    if rs != [] {
      var m := Whole(rs, k);
      if k < |Encoded(rs[0])| {
        assert rs[..1] == [rs[0]] && rs[..1][1..] == [];
      } else {
        WholeExact(rs[1..], k - |Encoded(rs[0])|);
        assert rs[..m][1..] == rs[1..][..m - 1];
        if m < |rs| { assert rs[..m + 1][1..] == rs[1..][..m]; }
      }
    }
  }

  lemma CutAfter<T>(p: seq<T>, e: seq<T>, q: seq<T>, k: nat)
    requires |p| <= k < |p| + |e|
    ensures (p + e + q)[..k] == p + e[..k - |p|]
  {}

  /** A log cut at any byte recovers exactly the records that end by then; the rest is reported as residual. */
  lemma CrashRecovery(rs: seq<WalRecord>, k: nat)
    requires Encodable(rs)
    requires k <= |Log(rs)|
    ensures |Log(rs[..Whole(rs, k)])| <= k
    ensures DecodeAll(Log(rs)[..k])
         == Decoded(NormalisedAll(rs[..Whole(rs, k)]), k - |Log(rs[..Whole(rs, k)])|)
  {
    hide ParseHead, Encoded, Normalised, Log, Whole, DecodeAll, NormalisedAll;
    var m := Whole(rs, k);
    WholeExact(rs, k);
    var head := rs[..m];
    if m == |rs| {
      assert head == rs;
      assert Log(rs)[..k] == Log(rs);
      LogRoundTrip(rs);
    } else {
      var r := rs[m];
      LogSplit(rs, m);
      assert rs[..m + 1] == head + [r];
      LogSnoc(head, r);
      var j := k - |Log(head)|;
      CutAfter(Log(head), Encoded(r), Log(rs[m + 1..]), k);
      DecodeLogThen(head, Encoded(r)[..j]);
      TornRecord(r, j);
      DecodeNothing(Encoded(r)[..j]);
      assert NormalisedAll(head) + [] == NormalisedAll(head);
    }
  }

  lemma DecodeNothing(s: seq<byte>)
    requires ParseHead(s) == None
    ensures DecodeAll(s) == Decoded([], |s|)
  {}
}
