/** Damage: exactly which changes to a record or a log the decoder notices. */
module WalDamage {
  import opened Options
  import opened Crc32
  import opened WalHeader
  import opened WalRecordProofs
  import opened WalStream

  // ---------- Damage ----------

  /** d is e with something changed, and nothing changed outside the n bytes from at. */
  ghost predicate Damaged<T>(e: seq<T>, d: seq<T>, at: nat, n: nat) {
    |d| == |e| && d != e && forall i :: 0 <= i < |e| && !(at <= i < at + n) ==> d[i] == e[i]
  }

  /** At most four bytes, all inside the checksum field or all outside it, none of them in payload_len. */
  predicate Covered(at: nat, n: nat) {
    n <= 4 && (at + n <= 4 || (4 <= at && at + n <= 8) || (8 <= at && at + n <= 56) || 60 <= at)
  }

  lemma LengthUntouched(e: seq<byte>, d: seq<byte>, at: nat, n: nat)
    requires HEADER_SIZE <= |e| && Damaged(e, d, at, n) && Covered(at, n)
    ensures Length(d, 56) == Length(e, 56)
  {}

  lemma U32Injective(s: seq<byte>, t: seq<byte>, at: nat)
    requires at + 4 <= |s| && at + 4 <= |t| && U32(s, at) == U32(t, at)
    ensures s[at..at + 4] == t[at..at + 4]
  {
    hide U32, Byte32;
    Back32(s, at);
    Back32(t, at);
  }

  lemma CrcFieldDamaged(e: seq<byte>, d: seq<byte>, at: nat, n: nat)
    requires HEADER_SIZE <= |e| && Damaged(e, d, at, n) && 4 <= at && at + n <= 8
    ensures CrcOf(d) == CrcOf(e) && U32(d, 4) != U32(e, 4)
  {
    hide Crc, U32;
    assert d[..4] == e[..4] && d[8..] == e[8..];
    assert d == d[..4] + d[4..8] + d[8..];
    assert e == e[..4] + e[4..8] + e[8..];
    if U32(d, 4) == U32(e, 4) {
      U32Injective(d, e, 4);
    }
  }

  lemma DamagedParts<T>(e: seq<T>, d: seq<T>, at: nat, n: nat)
    requires Damaged(e, d, at, n) && at + n <= |e|
    ensures d[..at] == e[..at] && d[at + n..] == e[at + n..] && d[at..at + n] != e[at..at + n]
    ensures e == e[..at] + e[at..at + n] + e[at + n..] && d == d[..at] + d[at..at + n] + d[at + n..]
  {
    ThreeParts(e, at, n);
    ThreeParts(d, at, n);
    assert d[..at] == e[..at] && d[at + n..] == e[at + n..];
  }

  lemma ThreeParts<T>(s: seq<T>, at: nat, n: nat)
    requires at + n <= |s|
    ensures s == s[..at] + s[at..at + n] + s[at + n..]
  {}

  lemma RearDamaged(e: seq<byte>, d: seq<byte>, at: nat, n: nat)
    requires HEADER_SIZE <= |e| && Damaged(e, d, at, n) && n <= 4 && 8 <= at && at + n <= |e|
    ensures CrcOf(d) != CrcOf(e)
  {
    hide Crc;
    DamagedParts(e, d, at, n);
    var p, x, y := e[..4] + e[8..at], e[at..at + n], d[at..at + n];
    assert e[..4] + e[8..] == p + x + e[at + n..];
    assert d[..4] + d[8..] == p + y + e[at + n..];
    BurstDetected(p, x, y, e[at + n..]);
  }

  lemma FrontDamaged(e: seq<byte>, d: seq<byte>, at: nat, n: nat)
    requires HEADER_SIZE <= |e| && Damaged(e, d, at, n) && at + n <= 4
    ensures CrcOf(d) != CrcOf(e)
  {
    hide Crc;
    DamagedParts(e, d, at, n);
    var q, x, y := e[at + n..4] + e[8..], e[at..at + n], d[at..at + n];
    assert e[..4] + e[8..] == e[..at] + x + q;
    assert d[..4] + d[8..] == e[..at] + y + q;
    BurstDetected(e[..at], x, y, q);
  }

  lemma CoveredBytesDamaged(e: seq<byte>, d: seq<byte>, at: nat, n: nat)
    requires HEADER_SIZE <= |e| && Damaged(e, d, at, n) && n <= 4 && at + n <= |e|
    requires at + n <= 4 || 8 <= at
    ensures CrcOf(d) != CrcOf(e) && U32(d, 4) == U32(e, 4)
  {
    hide CrcOf, Join32;
    if 8 <= at { RearDamaged(e, d, at, n); } else { FrontDamaged(e, d, at, n); }
  }

  lemma DamagedSize<T>(e: seq<T>, d: seq<T>, at: nat, n: nat)
    requires Damaged(e, d, at, n)
    ensures |d| == |e|
  {}

  lemma CoveredCases(at: nat, n: nat)
    requires Covered(at, n)
    ensures n <= 4 && ((4 <= at && at + n <= 8) || at + n <= 4 || 8 <= at)
  {}

  /** A record with any covered damage does not decode, whatever follows it. */
  lemma DamagedRecord(r: WalRecord, d: seq<byte>, rest: seq<byte>, at: nat, n: nat)
    requires |r.payload| < U32_LIMIT
    requires Damaged(Encoded(r), d, at, n) && Covered(at, n) && at + n <= |d|
    ensures ParseHead(d + rest) == None
  {
    hide Crc, CrcOf, U16, U32, Length, HeaderByte, View, Covered, Damaged;
    var e := Encoded(r);
    DamagedSize(e, d, at, n);
    EncodedCrc(r);
    ImageLengths(r, CrcOf(Image(r, 0)));
    LengthUntouched(e, d, at, n);
    HeaderOnly(d + rest, d, []);
    assert (d + rest)[..|d|] == d;
    CoveredCases(at, n);
    assert CrcOf(d) != U32(d, 4) by {
      if 4 <= at && at + n <= 8 { CrcFieldDamaged(e, d, at, n); } else {  CoveredBytesDamaged(e, d, at, n); }
    }
  }

  // ---------- Damage in a log ----------

  lemma DamagedMiddle<T>(p: seq<T>, e: seq<T>, q: seq<T>, log: seq<T>, at: nat, n: nat)
    requires at + n <= |e|
    requires Damaged(p + e + q, log, |p| + at, n)
    ensures |log| == |p| + |e| + |q|
    ensures log == p + log[|p|..|p| + |e|] + q
    ensures Damaged(e, log[|p|..|p| + |e|], at, n)
  {
    var all := p + e + q;
    var d := log[|p|..|p| + |e|];
    forall k | 0 <= k < |p| ensures log[k] == p[k] { assert log[k] == all[k]; }
    forall k | 0 <= k < |q| ensures log[|p| + |e| + k] == q[k] { assert log[|p| + |e| + k] == all[|p| + |e| + k]; }
    assert log == p + d + q;
    forall k | 0 <= k < |e| && !(at <= k < at + n) ensures d[k] == e[k] {
      assert d[k] == log[|p| + k] == all[|p| + k];
    }
  }

  /**
   Covered damage inside one record of a log of any length: the records before it come back, it and
   everything after it is reported as residual.
   */
  lemma DamageDetected(rs: seq<WalRecord>, i: nat, log: seq<byte>, at: nat, n: nat)
    requires Encodable(rs) && i < |rs|
    requires at + n <= |Encoded(rs[i])| && Covered(at, n)
    requires Damaged(Log(rs), log, |Log(rs[..i])| + at, n)
    ensures |Log(rs[..i])| <= |log|
    ensures DecodeAll(log) == Decoded(NormalisedAll(rs[..i]), |log| - |Log(rs[..i])|)
  {
    hide ParseHead, Encoded, Normalised, Covered, Log, Damaged, DecodeAll, NormalisedAll;
    var p, e, q := Log(rs[..i]), Encoded(rs[i]), Log(rs[i + 1..]);
    LogSplit(rs, i);
    DamagedMiddle(p, e, q, log, at, n);
    var d := log[|p|..|p| + |e|];
    assert log == p + (d + q);
    DamagedRecord(rs[i], d, q, at, n);
    DecodeLogThen(rs[..i], d + q);
    DecodeNothing(d + q);
    assert NormalisedAll(rs[..i]) + [] == NormalisedAll(rs[..i]);
  }

  // ---------- Exactly which changes go unseen, the length field aside ----------

  /** What the checksum is taken over. */
  function Checked(s: seq<byte>): (t: seq<byte>)
    requires HEADER_SIZE <= |s|
    ensures |t| == |s| - 4
  {
    s[..4] + s[8..]
  }

  /**
   The change from e to d leaves magic and version alone, and what it does to the checksum is what it does to the
   checksum field: a condition on the change alone.
   */
  predicate Unseen(e: seq<byte>, d: seq<byte>)
    requires |d| == |e| >= HEADER_SIZE
  {
    d[..3] == e[..3] && Feed(0, Change(Checked(d), Checked(e))) == Xor(U32(d, 4), U32(e, 4))
  }

  lemma ChecksumChange(r: WalRecord, d: seq<byte>)
    requires |d| == |Encoded(r)|
    ensures CrcOf(d) == U32(d, 4)
       <==> Feed(0, Change(Checked(d), Checked(Encoded(r)))) == Xor(U32(d, 4), U32(Encoded(r), 4))
  {
    var e := Encoded(r);
    EncodedCrc(r);
    CrcChange(Checked(d), Checked(e));
    hide Crc, Feed, Change, U32, Xor, Encoded;
    if Xor(CrcOf(d), CrcOf(e)) == Xor(U32(d, 4), U32(e, 4)) { XorCancels(CrcOf(d), U32(d, 4), CrcOf(e)); }
  }

  lemma SameLength(d: seq<byte>, e: seq<byte>)
    requires |d| == |e| >= HEADER_SIZE && d[56..60] == e[56..60]
    ensures Length(d, 56) == Length(e, 56)
  {
    assert d[56] == d[56..60][0] && d[57] == d[56..60][1] && d[58] == d[56..60][2] && d[59] == d[56..60][3];
    assert e[56] == e[56..60][0] && e[57] == e[56..60][1] && e[58] == e[56..60][2] && e[59] == e[56..60][3];
  }

  lemma SameMark(r: WalRecord, d: seq<byte>)
    requires |d| == |Encoded(r)|
    ensures U16(d, 0) == 0x5350 && d[2] == 4 <==> d[..3] == Encoded(r)[..3]
  {
    var e, c := Encoded(r), CrcOf(Image(r, 0));
    Image16(r, c);
    VersionByte(r, c);
    MagicBytes(e);
    if U16(d, 0) == 0x5350 { MagicBytes(d); }
    hide Byte16, Encoded;
    if d[..3] == e[..3] {
      assert d[0] == d[..3][0] && d[1] == d[..3][1] && d[2] == d[..3][2];
      assert e[0] == e[..3][0] && e[1] == e[..3][1] && e[2] == e[..3][2];
    }
  }

  lemma UnseenMeans(r: WalRecord, d: seq<byte>)
    requires |d| == |Encoded(r)|
    ensures Unseen(Encoded(r), d) <==> U16(d, 0) == 0x5350 && d[2] == 4 && CrcOf(d) == U32(d, 4)
  {
    SameMark(r, d);
    ChecksumChange(r, d);
    hide Crc, CrcOf, Feed, Change, U16, U32, Encoded, Checked, Xor;
  }

  /**
   Any change at all to a record that leaves its payload_len alone: what is left decodes, whatever follows, if and only
   if the change is one of the unseen ones.
   */
  lemma DamageExact(r: WalRecord, d: seq<byte>, rest: seq<byte>)
    requires |r.payload| < U32_LIMIT
    requires |d| == |Encoded(r)| && d[56..60] == Encoded(r)[56..60]
    ensures ParseHead(d + rest).Some? <==> Unseen(Encoded(r), d)
  {
    hide Crc, CrcOf, U16, U32, Length, View, Unseen, HeaderByte;
    UnseenMeans(r, d);
    ImageLengths(r, CrcOf(Image(r, 0)));
    SameLength(d, Encoded(r));
    HeaderOnly(d + rest, d, []);
    assert (d + rest)[..|d|] == d;
    assert (d + rest)[2] == d[2];
  }

  /** The same in a log: exactly the records before the changed one come back if and only if the change is seen. */
  lemma LogDamageExact(rs: seq<WalRecord>, i: nat, d: seq<byte>)
    requires Encodable(rs) && i < |rs|
    requires |d| == |Encoded(rs[i])| && d[56..60] == Encoded(rs[i])[56..60]
    ensures var log := Log(rs[..i]) + d + Log(rs[i + 1..]);
      DecodeAll(log) == Decoded(NormalisedAll(rs[..i]), |log| - |Log(rs[..i])|) <==> !Unseen(Encoded(rs[i]), d)
  {
    hide ParseHead, Encoded, Normalised, Log, DecodeAll, NormalisedAll, Unseen;
    var p, q := Log(rs[..i]), Log(rs[i + 1..]);
    assert p + d + q == p + (d + q);
    DamageExact(rs[i], d, q);
    DecodeLogThen(rs[..i], d + q);
    DecodesSomething(d + q);
    assert NormalisedAll(rs[..i]) + [] == NormalisedAll(rs[..i]);
  }

  lemma DecodesSomething(s: seq<byte>)
    ensures if ParseHead(s).Some? then |DecodeAll(s).records| > 0 else DecodeAll(s) == Decoded([], |s|)
  {
    hide ParseHead;
  }

  /**
   A log in which only the payload_len of record i was changed, to claim more bytes than the log has left: exactly the
   records before it come back, it and everything after it is reported as residual.
   */
  lemma LengthOverrun(rs: seq<WalRecord>, i: nat, log: seq<byte>)
    requires Encodable(rs) && i < |rs|
    requires Damaged(Log(rs), log, |Log(rs[..i])| + 56, 4)
    requires |Log(rs[..i])| + HEADER_SIZE <= |log| < |Log(rs[..i])| + HEADER_SIZE + Length(log, |Log(rs[..i])| + 56)
    ensures DecodeAll(log) == Decoded(NormalisedAll(rs[..i]), |log| - |Log(rs[..i])|)
  {
    hide ParseHead, Encoded, Normalised, Log, Damaged, DecodeAll, NormalisedAll, Length;
    var p, e, q := Log(rs[..i]), Encoded(rs[i]), Log(rs[i + 1..]);
    LogSplit(rs, i);
    DamagedMiddle(p, e, q, log, 56, 4);
    var tail := log[|p|..];
    assert log == p + tail;
    LengthInTail(log, |p|);
    TooShort(tail);
    DecodeLogThen(rs[..i], tail);
    DecodeNothing(tail);
    assert NormalisedAll(rs[..i]) + [] == NormalisedAll(rs[..i]);
  }

  lemma LengthInTail(s: seq<byte>, at: nat)
    requires at + HEADER_SIZE <= |s|
    ensures Length(s[at..], 56) == Length(s, at + 56)
  {}

  lemma TooShort(s: seq<byte>)
    requires HEADER_SIZE <= |s| < HEADER_SIZE + Length(s, 56)
    ensures ParseHead(s) == None
  {}

  // ---------- Why payload_len is left out of Covered ----------

  function Longer(r: WalRecord, extra: seq<byte>): WalRecord {
    r.(payload := r.payload + extra)
  }

  /** What the checksum of the longer record covers before its extra bytes. */
  function LongerPrefix(r: WalRecord): seq<byte> {
    var header := Image(Longer(r, [0, 0, 0, 0]), 0)[..HEADER_SIZE];
    header[..4] + header[8..] + r.payload
  }

  lemma SameOutsideLength(r: WalRecord, q: WalRecord, c: bv32, i: nat)
    requires i < HEADER_SIZE && !(56 <= i < 60)
    requires q == r.(payload := q.payload)
    ensures HeaderByte(r, c, i) == HeaderByte(q, c, i)
  {
    hide Byte16, Byte32, Byte64;
  }

  lemma SameLengthSameHeader(r: WalRecord, q: WalRecord, c: bv32)
    requires q == r.(payload := q.payload) && |q.payload| == |r.payload|
    ensures Image(q, c)[..HEADER_SIZE] == Image(r, c)[..HEADER_SIZE]
  {
    ImageBytes(r, c);
    ImageBytes(q, c);
    forall i | 0 <= i < HEADER_SIZE ensures HeaderByte(q, c, i) == HeaderByte(r, c, i) {
      hide Byte16, Byte32, Byte64, LengthByte;
    }
    hide HeaderByte;
  }

  lemma LongerCrc(r: WalRecord, extra: seq<byte>)
    requires |extra| == 4
    ensures CrcOf(Encoded(Longer(r, extra))) == Crc(LongerPrefix(r) + extra)
  {
    hide Crc, HeaderByte;
    var q, z := Longer(r, extra), Longer(r, [0, 0, 0, 0]);
    ImageCrc(q, CrcOf(Image(q, 0)), 0);
    SameLengthSameHeader(z, q, 0);
    var x, h := Image(q, 0), Image(z, 0)[..HEADER_SIZE];
    ImageBytes(q, 0);
    assert x == h + (r.payload + extra);
    assert x[..4] + x[8..] == h[..4] + h[8..] + r.payload + extra;
  }

  lemma TailImage(r: WalRecord, extra: seq<byte>)
    requires extra == TailFor(LongerPrefix(r), CrcOf(Image(r, 0)))
    ensures Encoded(Longer(r, extra)) == Image(Longer(r, extra), CrcOf(Image(r, 0)))
  {
    hide Crc, HeaderByte, U32, CrcOf;
    var c, q := CrcOf(Image(r, 0)), Longer(r, extra);
    TailReaches(LongerPrefix(r), c);
    LongerCrc(r, extra);
    EncodedCrc(q);
    Image32(q, CrcOf(Image(q, 0)));
  }

  lemma LongerImage(r: WalRecord, extra: seq<byte>, c: bv32)
    ensures var q, e := Image(Longer(r, extra), c), Image(r, c) + extra;
      |q| == |e| && forall i :: 0 <= i < |q| && !(56 <= i < 60) ==> q[i] == e[i]
  {
    hide HeaderByte;
    var q, e := Longer(r, extra), Image(r, c) + extra;
    ImageBytes(q, c);
    ImageBytes(r, c);
    assert e[HEADER_SIZE..] == r.payload + extra == Image(q, c)[HEADER_SIZE..];
    forall i | 0 <= i < |e| && !(56 <= i < 60) ensures Image(q, c)[i] == e[i] {
      if i < HEADER_SIZE {
        SameOutsideLength(r, q, c, i);
      } else {
        assert Image(q, c)[i] == Image(q, c)[HEADER_SIZE..][i - HEADER_SIZE];
        assert e[i] == e[HEADER_SIZE..][i - HEADER_SIZE];
      }
    }
  }

  lemma LongerDiffers(r: WalRecord, extra: seq<byte>)
    requires |extra| == 4 && |r.payload| + 4 < U32_LIMIT
    ensures Encoded(Longer(r, extra)) != Encoded(r) + extra
    ensures ParseHead(Encoded(r) + extra) == Some(Normalised(r))
  {
    hide Encoded, ParseHead;
    ParseEncoded(r);
    ParseStable(Encoded(r), extra);
    ParseEncoded(Longer(r, extra));
  }

  /**
   Damage inside payload_len can go unseen: every record r has a record four payload bytes longer whose
   encoding, once its length field alone is overwritten with that of r, decodes as r.
   */
  lemma LengthDamageUnseen(r: WalRecord) returns (extra: seq<byte>)
    requires |r.payload| + 4 < U32_LIMIT
    ensures |extra| == 4
    ensures Damaged(Encoded(Longer(r, extra)), Encoded(r) + extra, 56, 4)
    ensures ParseHead(Encoded(r) + extra) == Some(Normalised(r)) != Some(Normalised(Longer(r, extra)))
  {
    hide Crc, CrcOf, HeaderByte, ParseHead, U32, Length, Image;
    var c := CrcOf(Image(r, 0));
    extra := TailFor(LongerPrefix(r), c);
    TailImage(r, extra);
    LongerImage(r, extra, c);
    LongerDiffers(r, extra);
  }
}
