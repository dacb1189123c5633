/** `encode` and `decode_stream` as the code runs them: in place on a growing buffer, and in a loop. */
module WalCodec {
  import opened Crc32
  import opened WalHeader
  import opened WalRecordProofs
  import opened WalStream

  function Be16(v: bv16): seq<byte> { [Byte16(v, 0), Byte16(v, 1)] }

  function Be32(v: bv32): seq<byte> { [Byte32(v, 0), Byte32(v, 1), Byte32(v, 2), Byte32(v, 3)] }

  function Be64(v: bv64): seq<byte> { Be32(Upper32(v)) + Be32(Lower32(v)) }

  function BeLength(n: nat): seq<byte> { [LengthByte(n, 0), LengthByte(n, 1), LengthByte(n, 2), LengthByte(n, 3)] }

  function Octets(ip: Ipv4): seq<byte> { [ip.a, ip.b, ip.c, ip.d] }

  /** `Vec<u8>`: the buffer `encode` appends to. */
  class ByteVec {
    var data: seq<byte>

    constructor ()
      ensures data == []
    {
      data := [];
    }

    /** Overwrite the bytes from position at on. */
    method Put(at: nat, bytes: seq<byte>)
      requires at + |bytes| <= |data|
      modifies this
      ensures |data| == |old(data)|
      ensures forall k :: 0 <= k < |data| ==>
                data[k] == if at <= k < at + |bytes| then bytes[k - at] else old(data)[k]
    {
      data := data[..at] + bytes + data[at + |bytes|..];
    }

    /** The header bytes lo to hi of r have been written at start; nothing else has changed since before. */
    ghost predicate Wrote(r: WalRecord, start: nat, lo: nat, hi: nat, before: seq<byte>)
      reads this
    {
      && |data| == |before|
      && start + HEADER_SIZE <= |data| && lo <= hi <= HEADER_SIZE
      && (forall k :: 0 <= k < |data| && !(start + lo <= k < start + hi) ==> data[k] == before[k])
      && (forall k :: start + lo <= k < start + hi ==> data[k] == HeaderByte(r, 0, k - start))
    }

    method PutMark(r: WalRecord, start: nat)
      requires start + HEADER_SIZE <= |data|
      modifies this
      ensures Wrote(r, start, 0, 4, old(data))
    {
      hide Byte16;
      Put(start, Be16(0x5350));
      Put(start + 2, [4]);
      Put(start + 3, [r.tcpFlags]);
    }

    /** The checksum field stays zero until the rest is written. */
    method PutTime(r: WalRecord, start: nat)
      requires start + HEADER_SIZE <= |data|
      requires forall k :: start + 4 <= k < start + 8 ==> data[k] == 0
      modifies this
      ensures Wrote(r, start, 4, 16, old(data))
    {
      hide Byte32, Upper32, Lower32;
      ZeroCrc();
      Put(start + 8, Be64(r.timestampNs));
    }

    method PutAddresses(r: WalRecord, start: nat)
      requires start + HEADER_SIZE <= |data|
      modifies this
      ensures Wrote(r, start, 16, 28, old(data))
    {
      hide Byte16;
      Put(start + 16, Octets(r.srcIp));
      Put(start + 20, Octets(r.dstIp));
      Put(start + 24, Be16(r.srcPort));
      Put(start + 26, Be16(r.dstPort));
    }

    method PutTransport(r: WalRecord, start: nat)
      requires start + HEADER_SIZE <= |data|
      modifies this
      ensures Wrote(r, start, 28, 37, old(data))
    {
      hide Byte32;
      Put(start + 28, [(r.proto & 0xFF) as byte]);
      Put(start + 29, Be32(r.tcpSeq));
      Put(start + 33, Be32(r.tcpAck));
    }

    method PutFlags(r: WalRecord, at: nat)
      requires at < |data|
      modifies this
      ensures |data| == |old(data)|
      ensures forall k :: 0 <= k < |data| ==>
                data[k] == if k == at then (if Degraded(r) then 1 else 0) else old(data)[k]
    {
      hide Degraded;
      Put(at, [0]);
      if Degraded(r) {
        Put(at, [1]);
      }
    }

    method PutTail(r: WalRecord, start: nat)
      requires start + HEADER_SIZE <= |data|
      requires forall k :: start + 37 <= k < start + HEADER_SIZE ==> data[k] == 0
      modifies this
      ensures Wrote(r, start, 37, HEADER_SIZE, old(data))
    {
      hide Byte16, LengthByte, Degraded;
      Put(start + 37, Be16(r.windowSize));
      PutFlags(r, start + 39);
      Put(start + 56, BeLength(|r.payload| % U32_LIMIT));
      Put(start + 60, BeLength(r.origPayloadLen));
    }

    method PutHeader(r: WalRecord, start: nat)
      requires start + HEADER_SIZE <= |data|
      requires forall k :: start <= k < start + HEADER_SIZE ==> data[k] == 0
      modifies this
      ensures Wrote(r, start, 0, HEADER_SIZE, old(data))
    {
      hide HeaderByte;
      PutMark(r, start);
      PutTime(r, start);
      PutAddresses(r, start);
      PutTransport(r, start);
      PutTail(r, start);
    }

    /** Append the record: a zeroed header, its fields, the payload, and last the checksum over both. */
    method Encode(r: WalRecord)
      modifies this
      ensures data == old(data) + Encoded(r)
    {
      hide HeaderByte, Byte32, Crc;
      ghost var before := data;
      var start := |data|;
      data := data + seq(HEADER_SIZE, _ => 0);
      PutHeader(r, start);
      ImageBytes(r, 0);
      data := data + r.payload;
      assert data == before + Image(r, 0);
      var crc := CrcOf(data[start..]);
      PutCrc(r, start, crc);
    }

    method PutCrc(r: WalRecord, start: nat, crc: bv32)
      requires start <= |data| && data[start..] == Image(r, 0)
      modifies this
      ensures data == old(data)[..start] + Image(r, crc)
    {
      hide HeaderByte, Byte32;
      ghost var before := data;
      assert forall k :: start <= k < |before| ==> before[k] == Image(r, 0)[k - start];
      Put(start + 4, Be32(crc));
      ImageBytes(r, 0);
      ImageBytes(r, crc);
      CrcFieldOnly(r, crc);
      assert data[start..] == Image(r, crc);
    }
  }

  lemma ZeroCrc()
    ensures forall k :: Byte32(0, k) == 0
  {}

  lemma CrcFieldOnly(r: WalRecord, crc: bv32)
    ensures forall i :: 0 <= i < HEADER_SIZE && !(4 <= i < 8) ==> HeaderByte(r, crc, i) == HeaderByte(r, 0, i)
    ensures forall i :: 4 <= i < 8 ==> HeaderByte(r, crc, i) == Be32(crc)[i - 4]
  {
    hide Byte32;
    forall i | 0 <= i < HEADER_SIZE && !(4 <= i < 8) ensures HeaderByte(r, crc, i) == HeaderByte(r, 0, i) {
      SameOutsideCrc(r, crc, 0, i);
    }
  }

  /** Records in order until the first position where none decodes; the rest is the residual. */
  method DecodeStream(buf: seq<byte>) returns (records: seq<WalRecord>, residual: nat)
    ensures Decoded(records, residual) == DecodeAll(buf)
  {
    hide ParseHead;
    records := [];
    var pos := 0;
    var next := TryDecode(buf, pos);
    while next.Some?
      invariant pos <= |buf|
      invariant next == TryDecode(buf, pos)
      invariant DecodeAll(buf) == Decoded(records + DecodeAll(buf[pos..]).records, DecodeAll(buf[pos..]).residual)
      decreases |buf| - pos
    {
      ParseFits(buf[pos..]);
      ghost var rest := buf[pos..];
      records := records + [next.value.0];
      pos := next.value.1;
      assert buf[pos..] == rest[HEADER_SIZE + |next.value.0.payload|..];
      next := TryDecode(buf, pos);
    }
    residual := |buf| - pos;
  }
}
