/** From a parsed frame to a record: only IPv4 with TCP or UDP, payload cut to a maximum. */
module Slicer {
  import opened Options
  import opened Crc32
  import opened WalHeader
  import opened WalRecordProofs

  datatype TcpFlags = TcpFlags(fin: bool, syn: bool, rst: bool, psh: bool, ack: bool, urg: bool)

  datatype Transport =
    | Tcp(srcPort: bv16, dstPort: bv16, flags: TcpFlags, seqNo: bv32, ackNo: bv32, window: bv16)
    | Udp(srcPort: bv16, dstPort: bv16)
    | Other

  /** What parsing made of a frame; the payload is the application's. */
  datatype Packet =
    | Malformed
    | NotIpv4
    | Ip(src: Ipv4, dst: Ipv4, protocol: byte, transport: Transport, app: seq<byte>)

  function Mask(f: TcpFlags): byte {
    (if f.fin then 0x01 else 0) | (if f.syn then 0x02 else 0) | (if f.rst then 0x04 else 0)
    | (if f.psh then 0x08 else 0) | (if f.ack then 0x10 else 0) | (if f.urg then 0x20 else 0)
  }

  function Flags(degraded: bool, truncated: bool): bv64 {
    (if degraded then 1 else 0) | (if truncated then 2 else 0)
  }

  function Sliced(maxPayload: nat, app: seq<byte>): (s: seq<byte>)
    ensures s <= app && |s| == if |app| > maxPayload then maxPayload else |app|
  {
    if |app| > maxPayload then app[..maxPayload] else app
  }

  /** `as u32`. */
  function AsU32(n: nat): (v: u32)
    ensures n < U32_LIMIT ==> v == n
  {
    n % U32_LIMIT
  }

  function Process(maxPayload: nat, packet: Packet, ts: bv64, degraded: bool): Option<WalRecord> {
    match packet
    case Ip(src, dst, protocol, transport, app) =>
      var truncated := |app| > maxPayload;
      var sliced := Sliced(maxPayload, app);
      var flags := Flags(degraded, truncated);
      var orig := AsU32(|app|);
      (match transport
       case Tcp(sp, dp, f, sq, ak, win) =>
         Some(WalRecord(ts, flags, Mask(f), sq, ak, win, src, dst, sp, dp, protocol as bv16, orig, sliced))
       case Udp(sp, dp) =>
         Some(WalRecord(ts, flags, 0, 0, 0, 0, src, dst, sp, dp, protocol as bv16, orig, sliced))
       case Other => None)
    case _ => None
  }

  lemma FlagsCanonical(degraded: bool, truncated: bool)
    ensures CanonicalFlags(Flags(degraded, truncated), truncated)
    ensures Flags(degraded, truncated) & 1 != 0 <==> degraded
  {}

  lemma FlagsBits(degraded: bool, truncated: bool)
    ensures Flags(degraded, truncated) == (if degraded then 1 else 0) + (if truncated then 2 else 0)
  {}

  lemma ProtoSmall(p: byte)
    ensures (p as bv16) < 0x100
  {}

  lemma ProcessedPayload(maxPayload: nat, packet: Packet, ts: bv64, degraded: bool)
    requires packet.Ip? && |packet.app| < U32_LIMIT && !packet.transport.Other?
    ensures Process(maxPayload, packet, ts, degraded).Some?
    ensures var r := Process(maxPayload, packet, ts, degraded).value;
      && r.payload == Sliced(maxPayload, packet.app) && r.origPayloadLen == |packet.app|
      && r.flags == Flags(degraded, |packet.app| > maxPayload) && r.proto == packet.protocol as bv16
  {
    hide Flags, Mask, Sliced, AsU32;
    match packet {
      case Ip(src, dst, protocol, Tcp(sp, dp, f, sq, ak, win), app) =>
      case Ip(src, dst, protocol, Udp(sp, dp), app) =>
    }
  }

  lemma ProcessedCanonical(r: WalRecord, degraded: bool, truncated: bool, protocol: byte)
    requires r.flags == Flags(degraded, truncated) && r.proto == protocol as bv16
    requires |r.payload| < U32_LIMIT && (truncated <==> r.origPayloadLen > |r.payload|)
    ensures Canonical(r) && (Degraded(r) <==> degraded)
  {
    hide Flags, CanonicalFlags;
    FlagsCanonical(degraded, truncated);
    ProtoSmall(protocol);
  }

  /**
   A record is made exactly for IPv4 TCP and UDP, keeps at most maxPayload bytes of the payload, and is held
   in full by the disk format: it decodes to itself, DEGRADED and TRUNCATED included.
   */
  lemma ProcessedRoundTrip(maxPayload: nat, packet: Packet, ts: bv64, degraded: bool)
    requires packet.Ip? ==> |packet.app| < U32_LIMIT
    ensures Process(maxPayload, packet, ts, degraded).Some? <==> packet.Ip? && !packet.transport.Other?
    ensures Process(maxPayload, packet, ts, degraded).Some? ==>
              var r := Process(maxPayload, packet, ts, degraded).value;
              && r.payload <= packet.app
              && |r.payload| == (if |packet.app| > maxPayload then maxPayload else |packet.app|)
              && (Degraded(r) <==> degraded) && Canonical(r)
              && r.flags == (if degraded then 1 else 0) + (if |packet.app| > maxPayload then 2 else 0)
              && ParseHead(Encoded(r)) == Some(r)
  {
    hide Flags, Canonical, Degraded, ParseHead, Encoded, Mask, Normalised;
    if packet.Ip? && !packet.transport.Other? {
      ProcessedPayload(maxPayload, packet, ts, degraded);
      var r := Process(maxPayload, packet, ts, degraded).value;
      FlagsBits(degraded, |packet.app| > maxPayload);
      ProcessedCanonical(r, degraded, |packet.app| > maxPayload, packet.protocol);
      NormalisedExact(r);
      ParseEncoded(r);
    }
  }

  // ---------- Where the packet ends up on disk ----------

  lemma MaskBits(f: TcpFlags)
    ensures Mask(f) & 0x01 != 0 <==> f.fin
    ensures Mask(f) & 0x02 != 0 <==> f.syn
    ensures Mask(f) & 0x04 != 0 <==> f.rst
    ensures Mask(f) & 0x08 != 0 <==> f.psh
    ensures Mask(f) & 0x10 != 0 <==> f.ack
    ensures Mask(f) & 0x20 != 0 <==> f.urg
    ensures Mask(f) & 0xC0 == 0
  {}

  lemma ProtocolByte(p: byte)
    ensures ((p as bv16) & 0xFF) as byte == p
  {}

  /** Every field of the captured packet stands on disk at the offset the format documents for it. */
  lemma PacketOnDisk(maxPayload: nat, packet: Packet, ts: bv64, degraded: bool)
    requires packet.Ip? && !packet.transport.Other? && |packet.app| < U32_LIMIT
    ensures Process(maxPayload, packet, ts, degraded).Some?
    ensures var s := Encoded(Process(maxPayload, packet, ts, degraded).value);
      && U64(s, 8) == ts
      && Ipv4(s[16], s[17], s[18], s[19]) == packet.src && Ipv4(s[20], s[21], s[22], s[23]) == packet.dst
      && U16(s, 24) == packet.transport.srcPort && U16(s, 26) == packet.transport.dstPort
      && s[28] == packet.protocol && (s[39] & 1 != 0 <==> degraded)
      && Length(s, 60) == |packet.app| && s[HEADER_SIZE..] <= packet.app
      && |s| - HEADER_SIZE == (if |packet.app| > maxPayload then maxPayload else |packet.app|)
      && (packet.transport.Tcp? ==>
            && s[3] == Mask(packet.transport.flags) && U32(s, 29) == packet.transport.seqNo
            && U32(s, 33) == packet.transport.ackNo && U16(s, 37) == packet.transport.window)
      && (packet.transport.Udp? ==> s[3] == 0 && U32(s, 29) == 0 && U32(s, 33) == 0 && U16(s, 37) == 0)
  {
    hide Flags, Mask, Canonical, ParseHead, Encoded, Normalised, U16, U32, U64, Length, CrcOf;
    ProcessedRoundTrip(maxPayload, packet, ts, degraded);
    ProcessedPayload(maxPayload, packet, ts, degraded);
    var r := Process(maxPayload, packet, ts, degraded).value;
    EncodedLayout(r);
    ProtocolByte(packet.protocol);
  }
}
