/** The WAL record: a 64-byte big-endian header with a back-filled CRC-32, then the payload. */
module WalHeader {
  import opened Options
  import opened Crc32
  import ByteValues

  datatype Ipv4 = Ipv4(a: byte, b: byte, c: byte, d: byte)

  const U32_LIMIT := 0x1_0000_0000

  type u32 = n: nat | n < U32_LIMIT

  datatype WalRecord = WalRecord(
    timestampNs: bv64, flags: bv64, tcpFlags: byte, tcpSeq: bv32, tcpAck: bv32, windowSize: bv16,
    srcIp: Ipv4, dstIp: Ipv4, srcPort: bv16, dstPort: bv16, proto: bv16, origPayloadLen: u32,
    payload: seq<byte>)

  const HEADER_SIZE := 64

  // ---------- Big-endian integers ----------

  function Byte16(v: bv16, k: nat): byte {
    if k == 0 then (v >> 8) as byte else (v & 0xFF) as byte
  }

  function Byte32(v: bv32, k: nat): byte {
    if k == 0 then (v >> 24) as byte
    else if k == 1 then ((v >> 16) & 0xFF) as byte
    else if k == 2 then ((v >> 8) & 0xFF) as byte
    else (v & 0xFF) as byte
  }

  function Upper32(v: bv64): bv32 { (v >> 32) as bv32 }

  function Lower32(v: bv64): bv32 { (v & 0xFFFF_FFFF) as bv32 }

  function Byte64(v: bv64, k: nat): byte {
    if k < 4 then Byte32(Upper32(v), k) else Byte32(Lower32(v), k - 4)
  }

  function U16(s: seq<byte>, at: nat): bv16
    requires at + 2 <= |s|
  {
    ((s[at] as bv16) << 8) | (s[at + 1] as bv16)
  }

  function U32(s: seq<byte>, at: nat): bv32
    requires at + 4 <= |s|
  {
    Join32(s[at], s[at + 1], s[at + 2], s[at + 3])
  }

  function U64(s: seq<byte>, at: nat): bv64
    requires at + 8 <= |s|
  {
    Join64(U32(s, at), U32(s, at + 4))
  }

  function Join32(a: byte, b: byte, c: byte, d: byte): bv32 {
    ((a as bv32) << 24) | ((b as bv32) << 16) | ((c as bv32) << 8) | (d as bv32)
  }

  function Join64(hi: bv32, lo: bv32): bv64 {
    ((hi as bv64) << 32) | (lo as bv64)
  }

  /** Lengths are used as integers, so their four bytes are taken and joined arithmetically. */
  function ByteOf(n: nat): byte { ByteValues.ByteFrom(n % 0x100) }

  function LengthByte(n: nat, k: nat): byte {
    if k == 0 then ByteOf(n / 0x100 / 0x100 / 0x100)
    else if k == 1 then ByteOf(n / 0x100 / 0x100)
    else if k == 2 then ByteOf(n / 0x100)
    else ByteOf(n)
  }

  function Length(s: seq<byte>, at: nat): (n: nat)
    requires at + 4 <= |s|
  {
    (s[at] as nat) * 0x100_0000 + (s[at + 1] as nat) * 0x1_0000 + (s[at + 2] as nat) * 0x100 + (s[at + 3] as nat)
  }

  // ---------- Encoding ----------

  predicate Degraded(r: WalRecord) { r.flags & 1 != 0 }

  function IpByte(ip: Ipv4, k: nat): byte {
    if k == 0 then ip.a else if k == 1 then ip.b else if k == 2 then ip.c else ip.d
  }

  /** Byte i of the header of r when the checksum field holds crc. */
  function HeaderByte(r: WalRecord, crc: bv32, i: nat): byte {
    if i < 2 then Byte16(0x5350, i)
    else if i == 2 then 4
    else if i == 3 then r.tcpFlags
    else if i < 8 then Byte32(crc, i - 4)
    else if i < 16 then Byte64(r.timestampNs, i - 8)
    else if i < 20 then IpByte(r.srcIp, i - 16)
    else if i < 24 then IpByte(r.dstIp, i - 20)
    else if i < 26 then Byte16(r.srcPort, i - 24)
    else if i < 28 then Byte16(r.dstPort, i - 26)
    else if i == 28 then (r.proto & 0xFF) as byte
    else if i < 33 then Byte32(r.tcpSeq, i - 29)
    else if i < 37 then Byte32(r.tcpAck, i - 33)
    else if i < 39 then Byte16(r.windowSize, i - 37)
    else if i == 39 then (if Degraded(r) then 1 else 0)
    else if i < 56 then 0
    else if i < 60 then LengthByte(|r.payload| % U32_LIMIT, i - 56)
    else LengthByte(r.origPayloadLen, i - 60)
  }

  function Image(r: WalRecord, crc: bv32): (s: seq<byte>)
    ensures |s| == HEADER_SIZE + |r.payload|
  {
    seq(HEADER_SIZE, i requires 0 <= i => HeaderByte(r, crc, i)) + r.payload
  }

  /** The checksum skips its own field, bytes 4 to 7. */
  function CrcOf(s: seq<byte>): bv32
    requires HEADER_SIZE <= |s|
  {
    Crc(s[..4] + s[8..])
  }

  function Encoded(r: WalRecord): (s: seq<byte>)
    ensures |s| == HEADER_SIZE + |r.payload|
  {
    Image(r, CrcOf(Image(r, 0)))
  }

  // ---------- Decoding ----------

  /** Of the flags byte only bit 0, DEGRADED, means anything; bit 1, TRUNCATED, is derived from the lengths. */
  function KeptFlags(flags: bv64, truncated: bool): bv64 {
    (if truncated then 2 else 0) | (flags & 1)
  }

  /** The record a header and payload describe, checks aside. */
  function View(s: seq<byte>, payload: seq<byte>): WalRecord
    requires HEADER_SIZE <= |s|
  {
    WalRecord(U64(s, 8), KeptFlags(s[39] as bv64, Length(s, 60) > |payload| % U32_LIMIT), s[3],
              U32(s, 29), U32(s, 33), U16(s, 37),
              Ipv4(s[16], s[17], s[18], s[19]), Ipv4(s[20], s[21], s[22], s[23]),
              U16(s, 24), U16(s, 26), s[28] as bv16, Length(s, 60), payload)
  }

  /** The four checks on the bytes from the cursor on: magic, version, length, checksum. */
  function ParseHead(s: seq<byte>): (r: Option<WalRecord>) {
    if |s| < HEADER_SIZE then None
    else if U16(s, 0) != 0x5350 then None
    else if s[2] != 4 then None
    else
      var total := HEADER_SIZE + Length(s, 56);
      if |s| < total then None
      else if CrcOf(s[..total]) != U32(s, 4) then None
      else Some(View(s, s[HEADER_SIZE..total]))
  }

  function TryDecode(buf: seq<byte>, pos: nat): Option<(WalRecord, nat)>
    requires pos <= |buf|
  {
    match ParseHead(buf[pos..])
    case None => None
    case Some(r) => Some((r, pos + HEADER_SIZE + |r.payload|))
  }

  // ---------- Round trip ----------

  /** What a record becomes on disk: only DEGRADED is kept of flags, TRUNCATED is derived, proto is one byte. */
  function Normalised(r: WalRecord): WalRecord {
    r.(flags := KeptFlags(r.flags, r.origPayloadLen > |r.payload| % U32_LIMIT), proto := KeptProto(r.proto))
  }

  function KeptProto(proto: bv16): bv16 { proto & 0xFF }

  lemma Bytes16(v: bv16)
    ensures ((Byte16(v, 0) as bv16) << 8) | (Byte16(v, 1) as bv16) == v
  {}

  lemma Bytes32(v: bv32)
    ensures Join32(Byte32(v, 0), Byte32(v, 1), Byte32(v, 2), Byte32(v, 3)) == v
  {}

  lemma Halves64(v: bv64)
    ensures Join64(Upper32(v), Lower32(v)) == v
  {}

  lemma ByteOfNat(n: nat)
    ensures ByteOf(n) as nat == n % 0x100
  {}

  lemma Digits(n: nat, q1: nat, q2: nat, q3: nat)
    requires n < U32_LIMIT
    requires q1 == n / 0x100 && q2 == q1 / 0x100 && q3 == q2 / 0x100
    ensures n == (q3 % 0x100) * 0x100_0000 + (q2 % 0x100) * 0x1_0000 + (q1 % 0x100) * 0x100 + n % 0x100
  {}

  lemma LengthOfBytes(n: u32, s: seq<byte>, at: nat)
    requires at + 4 <= |s|
    requires s[at] == LengthByte(n, 0) && s[at + 1] == LengthByte(n, 1)
    requires s[at + 2] == LengthByte(n, 2) && s[at + 3] == LengthByte(n, 3)
    ensures Length(s, at) == n
  {
    var q1 := n / 0x100;
    var q2 := q1 / 0x100;
    var q3 := q2 / 0x100;
    ByteOfNat(q3);
    ByteOfNat(q2);
    ByteOfNat(q1);
    ByteOfNat(n);
    Digits(n, q1, q2, q3);
  }

  lemma ImageBytes(r: WalRecord, crc: bv32)
    ensures forall i :: 0 <= i < HEADER_SIZE ==> Image(r, crc)[i] == HeaderByte(r, crc, i)
    ensures Image(r, crc)[HEADER_SIZE..] == r.payload
  {}

  lemma Image16(r: WalRecord, crc: bv32)
    ensures U16(Image(r, crc), 0) == 0x5350
    ensures U16(Image(r, crc), 24) == r.srcPort
    ensures U16(Image(r, crc), 26) == r.dstPort
    ensures U16(Image(r, crc), 37) == r.windowSize
  {
    ImageBytes(r, crc);
    Bytes16(0x5350);
    Bytes16(r.srcPort);
    Bytes16(r.dstPort);
    Bytes16(r.windowSize);
  }

  lemma U32OfBytes(v: bv32, s: seq<byte>, at: nat)
    requires at + 4 <= |s|
    requires s[at] == Byte32(v, 0) && s[at + 1] == Byte32(v, 1)
    requires s[at + 2] == Byte32(v, 2) && s[at + 3] == Byte32(v, 3)
    ensures U32(s, at) == v
  {
    hide Byte32;
    Bytes32(v);
  }

  lemma Image32(r: WalRecord, crc: bv32)
    ensures U32(Image(r, crc), 4) == crc
    ensures U32(Image(r, crc), 29) == r.tcpSeq
    ensures U32(Image(r, crc), 33) == r.tcpAck
  {
    hide Byte32, U32;
    var s := Image(r, crc);
    ImageBytes(r, crc);
    U32OfBytes(crc, s, 4);
    U32OfBytes(r.tcpSeq, s, 29);
    U32OfBytes(r.tcpAck, s, 33);
  }

  lemma ImageLengths(r: WalRecord, crc: bv32)
    ensures Length(Image(r, crc), 56) == |r.payload| % U32_LIMIT
    ensures Length(Image(r, crc), 60) == r.origPayloadLen
  {
    var s := Image(r, crc);
    ImageBytes(r, crc);
    LengthOfBytes(|r.payload| % U32_LIMIT, s, 56);
    LengthOfBytes(r.origPayloadLen, s, 60);
  }

  lemma Image64(r: WalRecord, crc: bv32)
    ensures U64(Image(r, crc), 8) == r.timestampNs
  {
    hide Byte32, U32, Upper32, Lower32, Join64;
    var s := Image(r, crc);
    var v := r.timestampNs;
    ImageBytes(r, crc);
    U32OfBytes(Upper32(v), s, 8);
    U32OfBytes(Lower32(v), s, 12);
    Halves64(v);
  }
}
