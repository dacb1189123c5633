/** One segment at the receiver: its file, the watermark, and the chunks that arrived too early. */
module Segments {
  import opened Crc32
  import opened Storage
  import opened WalStream
  import WalCodec

  type Chunks = map<nat, seq<byte>>

  // ---------- Early chunks: an ordered map and its size in bytes ----------

  lemma {:induction false} Least(s: set<nat>) returns (o: nat)
    requires s != {}
    ensures o in s && forall k :: k in s ==> o <= k
    decreases |s|
  {
    o :| o in s;
    var rest := s - {o};
    if rest != {} {
      var p := Least(rest);
      forall k | k in s ensures (if p < o then p else o) <= k {
        if k != o { assert k in rest; }
      }
      o := if p < o then p else o;
    } else {
      assert forall k :: k in s ==> k == o || k in rest;
    }
  }

  lemma LeastExists(s: set<nat>)
    requires s != {}
    ensures exists o :: o in s && forall k :: k in s ==> o <= k
  {
    var o := Least(s);
  }

  /** The first key of the `BTreeMap`. */
  function MinKey(m: Chunks): (o: nat)
    requires m != map[]
    ensures o in m && forall k :: k in m ==> o <= k
  {
    LeastExists(m.Keys);
    var o :| o in m.Keys && forall k :: k in m.Keys ==> o <= k;
    o
  }

  ghost function Total(m: Chunks): nat
    decreases |m|
  {
    if m == map[] then 0 else |m[MinKey(m)]| + Total(m - {MinKey(m)})
  }

  lemma {:induction false} TotalRemove(m: Chunks, k: nat)
    requires k in m
    ensures Total(m) == |m[k]| + Total(m - {k})
    decreases |m|
  {
    var o := MinKey(m);
    if k != o {
      TotalRemove(m - {o}, k);
      var rest := m - {k};
      assert o in rest;
      assert MinKey(rest) == o;
      assert rest - {o} == m - {o} - {k};
    }
  }

  lemma TotalInsert(m: Chunks, k: nat, v: seq<byte>)
    ensures Total(m[k := v]) == |v| + Total(m - {k})
  {
    TotalRemove(m[k := v], k);
    assert m[k := v] - {k} == m - {k};
  }

  // ---------- What a segment is, and what placing a chunk does to it ----------

  datatype Buf = Buf(file: seq<byte>, pending: Chunks)

  /** Move early chunks to the file for as long as the first one starts at the watermark. */
  function Drain(b: Buf): Buf
    decreases |b.pending|
  {
    if b.pending != map[] && MinKey(b.pending) == |b.file| then
      Drain(Buf(b.file + b.pending[|b.file|], b.pending - {|b.file|}))
    else b
  }

  function Placed(b: Buf, offset: nat, bytes: seq<byte>): Buf {
    if bytes == [] || offset < |b.file| then b
    else if offset > |b.file| then b.(pending := b.pending[offset := bytes])
    else Drain(Buf(b.file + bytes, b.pending))
  }

  /** The bytes a placement takes the place of. */
  function Replaced(b: Buf, offset: nat, bytes: seq<byte>): nat {
    if bytes != [] && offset > |b.file| && offset in b.pending then |b.pending[offset]| else 0
  }

  datatype SegView = SegView(next: nat, waiting: Chunks, counted: nat, over: nat)

  /** One segment without its first waiting chunk. */
  ghost predicate CanEvict(s: SegView) {
    s.waiting != map[] && |s.waiting[MinKey(s.waiting)]| <= s.counted
  }

  ghost function Evicted(s: SegView): SegView
    requires CanEvict(s)
  {
    var o := MinKey(s.waiting);
    s.(waiting := s.waiting - {o}, counted := s.counted - |s.waiting[o]|)
  }

  class SegmentBuf {
    const disk: Disk
    const path: string
    /** Which segment this is: (device, segment number). */
    ghost const key: (nat, nat)
    var nextExpected: nat
    var pending: Chunks
    var pendingBytes: nat
    var sealed: bool
    var missingOnSeal: nat
    var records: nat
    var residual: nat
    /** Bytes that were replaced in pending by a later chunk at the same offset. */
    ghost var overwritten: nat

    ghost predicate Valid()
      reads this`nextExpected, this`pending, this`pendingBytes, this`overwritten, disk
    {
      && path in disk.files
      && nextExpected == |disk.files[path]|
      && pendingBytes == Total(pending) + overwritten
    }

    /** What the object itself holds, its file aside. */
    ghost function View(): SegView
      reads this`nextExpected, this`pending, this`pendingBytes, this`overwritten
    {
      SegView(nextExpected, pending, pendingBytes, overwritten)
    }

    ghost function State(): Buf
      reads this`nextExpected, this`pending, this`pendingBytes, this`overwritten, disk
      requires Valid()
    {
      Buf(disk.files[path], pending)
    }

    /** Open for append: an existing file counts as received without a gap. */
    constructor Open(disk: Disk, path: string, ghost key: (nat, nat))
      modifies disk
      ensures Valid() && this.disk == disk && this.path == path && this.key == key
      ensures var before := if path in old(disk.files) then old(disk.files)[path] else [];
        State() == Buf(before, map[]) && disk.files == old(disk.files)[path := before]
      ensures overwritten == 0 && !sealed
    {
      this.disk := disk;
      this.path := path;
      this.key := key;
      nextExpected := if path in disk.files then |disk.files[path]| else 0;
      pending := map[];
      pendingBytes := 0;
      sealed := false;
      missingOnSeal := 0;
      records := 0;
      residual := 0;
      overwritten := 0;
      new;
      if path !in disk.files {
        disk.files := disk.files[path := []];
      }
    }

    method WriteBytes(bytes: seq<byte>)
      requires Valid()
      modifies this`nextExpected, disk
      ensures Valid()
      ensures disk.files == old(disk.files)[path := old(disk.files)[path] + bytes]
    {
      disk.files := disk.files[path := disk.files[path] + bytes];
      nextExpected := nextExpected + |bytes|;
    }

    /** Place one chunk; true unless it is empty or starts below the watermark. */
    method Place(offset: nat, bytes: seq<byte>) returns (accepted: bool)
      requires Valid()
      modifies this`nextExpected, this`pending, this`pendingBytes, this`overwritten, disk
      ensures Valid()
      ensures State() == Placed(old(State()), offset, bytes)
      ensures disk.files == old(disk.files)[path := State().file]
      ensures accepted <==> bytes != [] && old(nextExpected) <= offset
      ensures pendingBytes <= old(pendingBytes) + |bytes|
      ensures overwritten == old(overwritten) + Replaced(old(State()), offset, bytes) <= old(pendingBytes)
    {
      if bytes == [] {
        return false;
      }
      if offset < nextExpected {
        return false;
      }
      if offset > nextExpected {
        ghost var replaced := if offset in pending then |pending[offset]| else 0;
        TotalInsert(pending, offset, bytes);
        if offset in pending { TotalRemove(pending, offset); } else { assert pending - {offset} == pending; }
        pending := pending[offset := bytes];
        pendingBytes := pendingBytes + |bytes|;
        overwritten := overwritten + replaced;
        return true;
      }
      WriteBytes(bytes);
      Backfill();
      return true;
    }

    /** The loop at the end of `place`. */
    method Backfill()
      requires Valid()
      modifies this`nextExpected, this`pending, this`pendingBytes, disk
      ensures Valid() && State() == Drain(old(State())) && pendingBytes <= old(pendingBytes)
      ensures disk.files == old(disk.files)[path := State().file]
    {
      while pending != map[] && MinKey(pending) == nextExpected
        invariant Valid() && pendingBytes <= old(pendingBytes)
        invariant Drain(State()) == Drain(old(State()))
        invariant disk.files == old(disk.files)[path := State().file]
        decreases |pending|
      {
        var b := pending[nextExpected];
        TotalRemove(pending, nextExpected);
        pending := pending - {nextExpected};
        pendingBytes := pendingBytes - |b|;
        WriteBytes(b);
      }
    }

    /** Drop the first early chunk. */
    method PopFirst() returns (bytes: seq<byte>)
      requires Valid() && pending != map[]
      modifies this`pending, this`pendingBytes
      ensures Valid()
      ensures CanEvict(old(View())) && View() == Evicted(old(View()))
      ensures bytes == old(pending)[MinKey(old(pending))]
    {
      var o := MinKey(pending);
      bytes := pending[o];
      TotalRemove(pending, o);
      pending := pending - {o};
      pendingBytes := pendingBytes - |bytes|;
    }

    /** Reconcile with the announced size: bytes missing, records recovered, bytes left undecoded. */
    method OnSeal(sealedSize: nat) returns (missing: nat)
      requires Valid()
      modifies this`sealed, this`missingOnSeal, this`records, this`residual
      ensures Valid() && State() == old(State()) && sealed && missingOnSeal == missing
      ensures missing == if sealedSize > |State().file| then sealedSize - |State().file| else 0
      ensures records == |DecodeAll(State().file).records| && residual == DecodeAll(State().file).residual
    {
      sealed := true;
      missing := if sealedSize > nextExpected then sealedSize - nextExpected else 0;
      missingOnSeal := missing;
      var recs, rest := WalCodec.DecodeStream(disk.files[path]);
      records, residual := |recs|, rest;
    }
  }
}
