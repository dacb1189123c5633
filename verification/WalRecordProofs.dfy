/** What one record looks like to the decoder: round trip, re-encoding, truncation, damage. */
module WalRecordProofs {
  import opened Options
  import opened Crc32
  import opened WalHeader

  // ---------- The decoder reads nothing beyond the record ----------

  lemma ReadsSame(s: seq<byte>, t: seq<byte>, at: nat)
    requires at + 4 <= HEADER_SIZE <= |s| && HEADER_SIZE <= |t|
    requires forall i :: 0 <= i < HEADER_SIZE ==> s[i] == t[i]
    ensures U16(s, at) == U16(t, at) && U32(s, at) == U32(t, at) && Length(s, at) == Length(t, at)
  {
    hide Join32;
  }

  lemma HeaderOnly(s: seq<byte>, t: seq<byte>, payload: seq<byte>)
    requires HEADER_SIZE <= |s| && HEADER_SIZE <= |t|
    requires forall i :: 0 <= i < HEADER_SIZE ==> s[i] == t[i]
    ensures U16(s, 0) == U16(t, 0) && U32(s, 4) == U32(t, 4) && Length(s, 56) == Length(t, 56)
    ensures View(s, payload) == View(t, payload)
  {
    hide U16, U32, Length, Join64;
    forall at: nat | at <= 60
      ensures U16(s, at) == U16(t, at) && U32(s, at) == U32(t, at) && Length(s, at) == Length(t, at)
    {
      ReadsSame(s, t, at);
    }
  }

  /** A record that decodes keeps decoding when more bytes follow. */
  lemma ParseStable(s: seq<byte>, t: seq<byte>)
    requires ParseHead(s).Some?
    ensures ParseHead(s + t) == ParseHead(s)
  {
    hide Crc, U16, U32, Length, View;
    var total := HEADER_SIZE + Length(s, 56);
    HeaderOnly(s, s + t, s[HEADER_SIZE..total]);
    assert (s + t)[..total] == s[..total];
    assert (s + t)[HEADER_SIZE..total] == s[HEADER_SIZE..total];
    assert (s + t)[2] == s[2];
  }

  /** What decodes is exactly as long as its header and payload say, and its payload fits a u32. */
  lemma ParseLength(s: seq<byte>)
    requires ParseHead(s).Some?
    ensures HEADER_SIZE + |ParseHead(s).value.payload| <= |s|
    ensures |ParseHead(s).value.payload| == Length(s, 56) < U32_LIMIT
  {
    hide Crc, U16, U32;
  }

  // ---------- Round trip ----------

  lemma ImageCrc(r: WalRecord, c: bv32, d: bv32)
    ensures CrcOf(Image(r, c)) == CrcOf(Image(r, d))
  {
    hide Crc, HeaderByte;
    var x, y := Image(r, c), Image(r, d);
    ImageBytes(r, c);
    ImageBytes(r, d);
    forall i | 0 <= i < HEADER_SIZE && !(4 <= i < 8) ensures x[i] == y[i] {
      SameOutsideCrc(r, c, d, i);
    }
    forall i | 8 <= i < |x| ensures x[i] == y[i] {
      if HEADER_SIZE <= i {
        assert x[i] == x[HEADER_SIZE..][i - HEADER_SIZE];
        assert y[i] == y[HEADER_SIZE..][i - HEADER_SIZE];
      }
    }
    assert x[..4] == y[..4];
    assert x[8..] == y[8..];
  }

  lemma SameOutsideCrc(r: WalRecord, c: bv32, d: bv32, i: nat)
    requires !(4 <= i < 8)
    ensures HeaderByte(r, c, i) == HeaderByte(r, d, i)
  {}

  lemma EncodedCrc(r: WalRecord)
    ensures CrcOf(Encoded(r)) == U32(Encoded(r), 4)
  {
    hide Crc, U32, HeaderByte;
    var c := CrcOf(Image(r, 0));
    ImageCrc(r, 0, c);
    Image32(r, c);
  }

  lemma FlagBits(f: bv64, b: byte, truncated: bool)
    requires b == if f & 1 != 0 then 1 else 0
    ensures KeptFlags(b as bv64, truncated) == KeptFlags(f, truncated)
  {}

  lemma ProtoBits(p: bv16)
    ensures ((p & 0xFF) as byte) as bv16 == KeptProto(p)
  {}

  lemma ImageFlags(r: WalRecord, c: bv32)
    ensures KeptFlags(Image(r, c)[39] as bv64, r.origPayloadLen > |r.payload| % U32_LIMIT) == Normalised(r).flags
    ensures Image(r, c)[28] as bv16 == Normalised(r).proto
  {
    hide KeptFlags, KeptProto;
    ImageBytes(r, c);
    FlagBits(r.flags, Image(r, c)[39], r.origPayloadLen > |r.payload| % U32_LIMIT);
    ProtoBits(r.proto);
  }

  lemma ImageView(r: WalRecord, c: bv32)
    requires |r.payload| < U32_LIMIT
    ensures View(Image(r, c), r.payload) == Normalised(r)
  {
    Image16(r, c);
    Image32(r, c);
    Image64(r, c);
    ImageLengths(r, c);
    ImageBytes(r, c);
    ImageFlags(r, c);
    hide U16, U32, U64, Length, Byte16, Byte32, Byte64, LengthByte, KeptFlags, KeptProto;
  }

  lemma ParseEncoded(r: WalRecord)
    requires |r.payload| < U32_LIMIT
    ensures ParseHead(Encoded(r)) == Some(Normalised(r))
  {
    hide Crc, CrcOf, U16, U32, Length, HeaderByte, View, Normalised;
    var c := CrcOf(Image(r, 0));
    var s := Encoded(r);
    Image16(r, c);
    ImageLengths(r, c);
    VersionByte(r, c);
    EncodedCrc(r);
    ImageView(r, c);
    ImageBytes(r, c);
    assert s[..|s|] == s;
  }

  lemma VersionByte(r: WalRecord, c: bv32)
    ensures Image(r, c)[2] == 4
  {
    ImageBytes(r, c);
  }

  /**
   Encode, then decode, whatever follows: the record comes back, normalised, and exactly its own bytes
   are consumed. It does for every payload whose length fits the u32 length field, and for no other.
   */
  lemma RoundTrip(r: WalRecord, rest: seq<byte>)
    ensures ParseHead(Encoded(r) + rest) == Some(Normalised(r)) <==> |r.payload| < U32_LIMIT
  {
    if |r.payload| < U32_LIMIT {
      ParseEncoded(r);
      ParseStable(Encoded(r), rest);
    } else if ParseHead(Encoded(r) + rest).Some? {
      ParseLength(Encoded(r) + rest);
    }
  }

  predicate CanonicalFlags(flags: bv64, truncated: bool) {
    flags < 4 && (flags & 2 != 0 <==> truncated)
  }

  /** A record that the disk format holds in full. */
  predicate Canonical(r: WalRecord) {
    r.proto < 0x100 && CanonicalFlags(r.flags, r.origPayloadLen > |r.payload| % U32_LIMIT)
  }

  /** Normalising loses exactly the upper byte of proto and the flag bits other than DEGRADED and a right TRUNCATED. */
  lemma NormalisedExact(r: WalRecord)
    ensures Normalised(r) == r <==> Canonical(r)
  {
    hide KeptFlags, KeptProto, CanonicalFlags;
    KeptFlagsExact(r.flags, r.origPayloadLen > |r.payload| % U32_LIMIT);
    KeptProtoExact(r.proto);
  }

  lemma KeptFlagsExact(f: bv64, truncated: bool)
    ensures KeptFlags(f, truncated) == f <==> CanonicalFlags(f, truncated)
  {}

  lemma KeptProtoExact(p: bv16)
    ensures KeptProto(p) == p <==> p < 0x100
  {}

  /** A torn record does not decode: the length check sees that bytes are missing. */
  lemma TornRecord(r: WalRecord, k: nat)
    requires |r.payload| < U32_LIMIT
    requires k < |Encoded(r)|
    ensures ParseHead(Encoded(r)[..k]) == None
  {
    hide Crc, CrcOf, U16, U32, Length, HeaderByte, View;
    var c := CrcOf(Image(r, 0));
    ImageLengths(r, c);
    if HEADER_SIZE <= k {
      HeaderOnly(Encoded(r)[..k], Encoded(r), []);
    }
  }

  /** The checksum field of every record is the CRC-32 of all its other bytes. */
  lemma EncodedChecksum(r: WalRecord)
    ensures U32(Encoded(r), 4) == Crc(Encoded(r)[..4] + Encoded(r)[8..])
  {
    hide Crc, U32, Encoded;
    EncodedCrc(r);
  }

  /** The bytes of an encoded record, by offset. */
  lemma EncodedLayout(r: WalRecord)
    requires |r.payload| < U32_LIMIT
    ensures var s := Encoded(r);
      && U16(s, 0) == 0x5350 && s[2] == 4 && s[3] == r.tcpFlags && U32(s, 4) == Crc(s[..4] + s[8..])
      && U64(s, 8) == r.timestampNs
      && Ipv4(s[16], s[17], s[18], s[19]) == r.srcIp && Ipv4(s[20], s[21], s[22], s[23]) == r.dstIp
      && U16(s, 24) == r.srcPort && U16(s, 26) == r.dstPort && s[28] == (r.proto & 0xFF) as byte
      && U32(s, 29) == r.tcpSeq && U32(s, 33) == r.tcpAck && U16(s, 37) == r.windowSize
      && s[39] == (if Degraded(r) then 1 else 0) && (forall i :: 40 <= i < 56 ==> s[i] == 0)
      && Length(s, 56) == |r.payload| && Length(s, 60) == r.origPayloadLen && s[HEADER_SIZE..] == r.payload
  {
    hide U16, U32, U64, Length, Crc, CrcOf, Degraded, Byte16, Byte32, Byte64, LengthByte;
    var c := CrcOf(Image(r, 0));
    Image16(r, c);
    Image32(r, c);
    Image64(r, c);
    ImageLengths(r, c);
    ImageBytes(r, c);
    EncodedChecksum(r);
  }

  // ---------- Re-encoding ----------

  lemma Unjoin32(a: byte, b: byte, c: byte, d: byte)
    ensures Byte32(Join32(a, b, c, d), 0) == a && Byte32(Join32(a, b, c, d), 1) == b
    ensures Byte32(Join32(a, b, c, d), 2) == c && Byte32(Join32(a, b, c, d), 3) == d
  {}

  lemma Unjoin16(a: byte, b: byte)
    ensures Byte16(((a as bv16) << 8) | (b as bv16), 0) == a
    ensures Byte16(((a as bv16) << 8) | (b as bv16), 1) == b
  {}

  lemma Unjoin64(hi: bv32, lo: bv32)
    ensures Upper32(Join64(hi, lo)) == hi && Lower32(Join64(hi, lo)) == lo
  {}

  lemma Back16(s: seq<byte>, at: nat)
    requires at + 2 <= |s|
    ensures Byte16(U16(s, at), 0) == s[at] && Byte16(U16(s, at), 1) == s[at + 1]
  {
    Unjoin16(s[at], s[at + 1]);
  }

  lemma Back32(s: seq<byte>, at: nat)
    requires at + 4 <= |s|
    ensures Byte32(U32(s, at), 0) == s[at] && Byte32(U32(s, at), 1) == s[at + 1]
    ensures Byte32(U32(s, at), 2) == s[at + 2] && Byte32(U32(s, at), 3) == s[at + 3]
  {
    hide Byte32, Join32;
    Unjoin32(s[at], s[at + 1], s[at + 2], s[at + 3]);
  }

  lemma Back64(s: seq<byte>, at: nat)
    requires at + 8 <= |s|
    ensures forall k :: 0 <= k < 8 ==> Byte64(U64(s, at), k) == s[at + k]
  {
    hide Byte32, U32, Join64, Upper32, Lower32;
    Back32(s, at);
    Back32(s, at + 4);
    Unjoin64(U32(s, at), U32(s, at + 4));
  }

  lemma ByteOfByte(b: byte, n: nat)
    requires n % 0x100 == b as nat
    ensures ByteOf(n) == b
  {
    ByteOfNat(n);
    ByteValues.SameValue(ByteOf(n), b);
  }

  lemma Digit(q: nat, b: nat, n: nat)
    requires b < 0x100 && n == q * 0x100 + b
    ensures n / 0x100 == q && n % 0x100 == b
  {}

  lemma BackLengthBytes(a: byte, b: byte, c: byte, d: byte, q2: nat, q1: nat, n: nat)
    requires q2 == (a as nat) * 0x100 + b as nat
    requires q1 == q2 * 0x100 + c as nat
    requires n == q1 * 0x100 + d as nat
    ensures LengthByte(n, 0) == a && LengthByte(n, 1) == b && LengthByte(n, 2) == c && LengthByte(n, 3) == d
  {
    hide ByteOf;
    Digit(q1, d as nat, n);
    Digit(q2, c as nat, q1);
    Digit(a as nat, b as nat, q2);
    ByteOfByte(d, n);
    ByteOfByte(c, q1);
    ByteOfByte(b, q2);
    ByteOfByte(a, a as nat);
  }

  lemma BackLength(s: seq<byte>, at: nat)
    requires at + 4 <= |s|
    ensures forall k :: 0 <= k < 4 ==> LengthByte(Length(s, at), k) == s[at + k]
  {
    hide LengthByte;
    var a, b, c, d := s[at], s[at + 1], s[at + 2], s[at + 3];
    var q2 := (a as nat) * 0x100 + b as nat;
    var q1 := q2 * 0x100 + c as nat;
    BackLengthBytes(a, b, c, d, q2, q1, Length(s, at));
  }

  ghost predicate ReservedClear(s: seq<byte>)
    requires HEADER_SIZE <= |s|
  {
    s[39] <= 1 && forall i :: 40 <= i < 56 ==> s[i] == 0
  }

  lemma FlagByte(b: byte, truncated: bool)
    ensures KeptFlags(b as bv64, truncated) & 1 != 0 <==> b & 1 != 0
    ensures b <= 1 ==> b == (if b & 1 != 0 then 1 else 0)
  {}

  lemma ProtoByte(b: byte)
    ensures ((b as bv16) & 0xFF) as byte == b
  {}

  lemma MagicBytes(s: seq<byte>)
    requires 2 <= |s| && U16(s, 0) == 0x5350
    ensures s[0] == Byte16(0x5350, 0) && s[1] == Byte16(0x5350, 1)
  {
    Back16(s, 0);
  }

  lemma FlagsBack(s: seq<byte>, payload: seq<byte>)
    requires HEADER_SIZE <= |s| && s[39] <= 1
    ensures s[39] == if Degraded(View(s, payload)) then 1 else 0
  {
    hide U16, U32, U64, Length, KeptFlags;
    FlagByte(s[39], Length(s, 60) > |payload| % U32_LIMIT);
  }

  lemma HeaderBackFront(s: seq<byte>, payload: seq<byte>, i: nat)
    requires i < 16 <= HEADER_SIZE <= |s|
    requires U16(s, 0) == 0x5350 && s[2] == 4 && Length(s, 56) == |payload| < U32_LIMIT
    requires ReservedClear(s)
    ensures HeaderByte(View(s, payload), U32(s, 4), i) == s[i]
  {
    hide U16, U32, U64, Length, Byte16, Byte32, Byte64, LengthByte, Degraded, KeptFlags;
    if i < 2 { MagicBytes(s); }
    else if i < 8 { Back32(s, 4); }
    else { Back64(s, 8); assert s[8 + (i - 8)] == s[i]; }
  }

  lemma HeaderBackMiddle(s: seq<byte>, payload: seq<byte>, i: nat)
    requires 16 <= i < 29 <= HEADER_SIZE <= |s|
    requires U16(s, 0) == 0x5350 && s[2] == 4 && Length(s, 56) == |payload| < U32_LIMIT
    requires ReservedClear(s)
    ensures HeaderByte(View(s, payload), U32(s, 4), i) == s[i]
  {
    hide U16, U32, U64, Length, Byte16, Byte32, Byte64, LengthByte, Degraded, KeptFlags;
    if i < 24 { }
    else if i < 26 { Back16(s, 24); }
    else if i < 28 { Back16(s, 26); }
    else { ProtoByte(s[28]); }
  }

  lemma HeaderBackRear(s: seq<byte>, payload: seq<byte>, i: nat)
    requires 29 <= i < HEADER_SIZE <= |s|
    requires U16(s, 0) == 0x5350 && s[2] == 4 && Length(s, 56) == |payload| < U32_LIMIT
    requires ReservedClear(s)
    ensures HeaderByte(View(s, payload), U32(s, 4), i) == s[i]
  {
    hide U16, U32, U64, Length, Byte16, Byte32, Byte64, LengthByte, Degraded, KeptFlags;
    if i < 33 { Back32(s, 29); }
    else if i < 37 { Back32(s, 33); }
    else if i < 39 { Back16(s, 37); }
    else if i < 56 { FlagsBack(s, payload); }
    else if i < 60 { BackLength(s, 56); assert s[56 + (i - 56)] == s[i]; }
    else { BackLength(s, 60); assert s[60 + (i - 60)] == s[i]; }
  }

  lemma ViewPayload(s: seq<byte>, payload: seq<byte>)
    requires HEADER_SIZE <= |s|
    ensures View(s, payload).payload == payload
  {}

  lemma ImageBack(s: seq<byte>, total: nat)
    requires ParseHead(s).Some? && total == HEADER_SIZE + Length(s, 56)
    requires ReservedClear(s)
    ensures Image(ParseHead(s).value, U32(s, 4)) == s[..total]
  {
    hide U16, U32, Length, HeaderByte, View, CrcOf, ReservedClear;
    var r := ParseHead(s).value;
    ParseLength(s);
    ViewPayload(s, s[HEADER_SIZE..total]);
    ImageBytes(r, U32(s, 4));
    forall i | 0 <= i < HEADER_SIZE ensures Image(r, U32(s, 4))[i] == s[i] {
      if i < 16 { HeaderBackFront(s, r.payload, i); }
      else if i < 29 { HeaderBackMiddle(s, r.payload, i); }
      else { HeaderBackRear(s, r.payload, i); }
    }
    assert r.payload == s[HEADER_SIZE..total];
  }

  /**
   Decode, then encode: the original bytes come back, unless the record carries something that decoding
   ignores, which is a set bit in the reserved pad or a flag bit above DEGRADED.
   */
  lemma ReencodeExact(s: seq<byte>)
    requires ParseHead(s).Some?
    ensures Encoded(ParseHead(s).value) <= s <==> ReservedClear(s)
  {
    hide U16, U32, Length, HeaderByte, View, CrcOf;
    var r := ParseHead(s).value;
    var total := HEADER_SIZE + Length(s, 56);
    ParseLength(s);
    if ReservedClear(s) {
      ImageBack(s, total);
      ImageCrc(r, 0, U32(s, 4));
      ImageChecked(s, total);
    } else if Encoded(r) <= s {
      ReservedPrefix(r, CrcOf(Image(r, 0)), s);
    }
  }

  lemma ImageChecked(s: seq<byte>, total: nat)
    requires ParseHead(s).Some? && total == HEADER_SIZE + Length(s, 56)
    ensures total <= |s| && CrcOf(s[..total]) == U32(s, 4)
  {
    hide U16, U32, Length, View, CrcOf;
  }

  lemma ReservedPrefix(r: WalRecord, c: bv32, s: seq<byte>)
    requires Image(r, c) <= s
    ensures ReservedClear(s)
  {
    ImageBytes(r, c);
    assert forall i :: 0 <= i < HEADER_SIZE ==> s[i] == Image(r, c)[i];
  }
}
