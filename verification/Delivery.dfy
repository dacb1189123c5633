/**
 What the network can do to one segment. Safety holds for any slices of the source segment, in any order;
 confluence holds for one fixed chunking of it, which is what the sender uses.
 */
module Delivery {
  import opened Crc32
  import opened Segments

  // ---------- Safety: any slices ----------

  predicate IsSlice(source: seq<byte>, offset: nat, bytes: seq<byte>) {
    offset + |bytes| <= |source| && source[offset..offset + |bytes|] == bytes
  }

  /** The file is a prefix of the source, and what waits is where the source has it. */
  ghost predicate Faithful(b: Buf, source: seq<byte>) {
    b.file <= source && forall o :: o in b.pending ==> IsSlice(source, o, b.pending[o])
  }

  lemma SliceExtends(file: seq<byte>, bytes: seq<byte>, source: seq<byte>)
    requires file <= source && IsSlice(source, |file|, bytes)
    ensures file + bytes <= source
  {
    assert source[..|file| + |bytes|] == file + bytes;
  }

  lemma {:induction false} DrainFaithful(b: Buf, source: seq<byte>)
    requires Faithful(b, source)
    ensures Faithful(Drain(b), source) && b.file <= Drain(b).file
    decreases |b.pending|
  {
    if b.pending != map[] && MinKey(b.pending) == |b.file| {
      var bytes := b.pending[|b.file|];
      SliceExtends(b.file, bytes, source);
      DrainFaithful(Buf(b.file + bytes, b.pending - {|b.file|}), source);
    }
  }

  lemma PlacedFaithful(b: Buf, offset: nat, bytes: seq<byte>, source: seq<byte>)
    requires Faithful(b, source) && IsSlice(source, offset, bytes)
    ensures Faithful(Placed(b, offset, bytes), source) && b.file <= Placed(b, offset, bytes).file
  {
    if offset == |b.file| {
      SliceExtends(b.file, bytes, source);
      DrainFaithful(Buf(b.file + bytes, b.pending), source);
    }
  }

  /** Whatever is placed, honest or not, a file only grows. */
  lemma {:induction false} DrainGrows(b: Buf)
    ensures b.file <= Drain(b).file
    decreases |b.pending|
  {
    if b.pending != map[] && MinKey(b.pending) == |b.file| {
      DrainGrows(Buf(b.file + b.pending[|b.file|], b.pending - {|b.file|}));
    }
  }

  lemma PlacedGrows(b: Buf, offset: nat, bytes: seq<byte>)
    ensures b.file <= Placed(b, offset, bytes).file
  {
    if offset == |b.file| { DrainGrows(Buf(b.file + bytes, b.pending)); }
  }

  // ---------- One fixed chunking ----------

  /** Cut points of the source: from 0 to its end, strictly increasing. Chunk i lies between cuts i and i + 1. */
  ghost predicate Chunking(source: seq<byte>, cuts: seq<nat>) {
    && |cuts| > 0 && cuts[0] == 0 && cuts[|cuts| - 1] == |source|
    && forall i, j :: 0 <= i < j < |cuts| ==> cuts[i] < cuts[j]
  }

  ghost predicate Indices(cuts: seq<nat>, got: set<nat>) {
    forall i :: i in got ==> i + 1 < |cuts|
  }

  /** The first chunk from m on that is not in got. */
  function FirstMissing(got: set<nat>, n: nat, m: nat): (k: nat)
    requires m <= n
    ensures m <= k <= n && (k < n ==> k !in got)
    ensures forall i :: m <= i < k ==> i in got
    decreases n - m
  {
    if m < n && m in got then FirstMissing(got, n, m + 1) else m
  }

  lemma {:induction false} FirstMissingUnique(got: set<nat>, n: nat, m: nat, k: nat)
    requires m <= k <= n && (k < n ==> k !in got)
    requires forall i :: m <= i < k ==> i in got
    ensures FirstMissing(got, n, m) == k
    decreases n - m
  {
    if m < k { FirstMissingUnique(got, n, m + 1, k); }
  }

  function Received(cuts: seq<nat>, got: set<nat>): (k: nat)
    requires |cuts| > 0
    ensures k < |cuts|
  {
    FirstMissing(got, |cuts| - 1, 0)
  }

  lemma CutsOrdered(source: seq<byte>, cuts: seq<nat>, i: nat, j: nat)
    requires Chunking(source, cuts) && i < |cuts| && j < |cuts|
    ensures cuts[i] <= |source|
    ensures i < j <==> cuts[i] < cuts[j]
    ensures i == j <==> cuts[i] == cuts[j]
  {
    assert i < |cuts| - 1 ==> cuts[i] < cuts[|cuts| - 1];
  }

  /** Chunk i of the source, for any i: empty when there is no such chunk. */
  function ChunkAt(source: seq<byte>, cuts: seq<nat>, i: nat): seq<byte> {
    if i + 1 < |cuts| && cuts[i] <= cuts[i + 1] <= |source| then source[cuts[i]..cuts[i + 1]] else []
  }

  function Cut(cuts: seq<nat>, i: nat): nat {
    if i < |cuts| then cuts[i] else 0
  }

  ghost predicate Distinct(cuts: seq<nat>, nums: set<nat>) {
    forall i, j :: i in nums && j in nums && Cut(cuts, i) == Cut(cuts, j) ==> i == j
  }

  lemma AllDistinct(source: seq<byte>, cuts: seq<nat>, nums: set<nat>)
    requires Chunking(source, cuts) && Indices(cuts, nums)
    ensures Distinct(cuts, nums)
  {
    forall i, j | i in nums && j in nums && Cut(cuts, i) == Cut(cuts, j) ensures i == j {
      CutsOrdered(source, cuts, i, j);
    }
  }

  /** The chunks numbered in nums, keyed by offset. */
  ghost function Waiting(source: seq<byte>, cuts: seq<nat>, nums: set<nat>): (m: Chunks)
    requires Distinct(cuts, nums)
  {
    map i | i in nums :: Cut(cuts, i) := ChunkAt(source, cuts, i)
  }

  lemma WaitingHas(source: seq<byte>, cuts: seq<nat>, nums: set<nat>, i: nat)
    requires Distinct(cuts, nums) && i in nums
    ensures Cut(cuts, i) in Waiting(source, cuts, nums)
    ensures Waiting(source, cuts, nums)[Cut(cuts, i)] == ChunkAt(source, cuts, i)
  {
    hide Cut, ChunkAt;
  }

  lemma WaitingNumber(source: seq<byte>, cuts: seq<nat>, nums: set<nat>, o: nat) returns (i: nat)
    requires Distinct(cuts, nums) && o in Waiting(source, cuts, nums)
    ensures i in nums && Cut(cuts, i) == o && Waiting(source, cuts, nums)[o] == ChunkAt(source, cuts, i)
  {
    hide Cut, ChunkAt;
    i :| i in nums && Cut(cuts, i) == o;
  }

  lemma WaitingInsert(source: seq<byte>, cuts: seq<nat>, nums: set<nat>, i: nat)
    requires Distinct(cuts, nums + {i})
    ensures Distinct(cuts, nums)
    ensures Waiting(source, cuts, nums)[Cut(cuts, i) := ChunkAt(source, cuts, i)] == Waiting(source, cuts, nums + {i})
  {
    hide Cut, ChunkAt, Waiting;
    assert forall j :: j in nums ==> j in nums + {i};
    var m := Waiting(source, cuts, nums)[Cut(cuts, i) := ChunkAt(source, cuts, i)];
    var m' := Waiting(source, cuts, nums + {i});
    WaitingHas(source, cuts, nums + {i}, i);
    forall o | o in m ensures o in m' && m'[o] == m[o] {
      if o != Cut(cuts, i) {
        var j := WaitingNumber(source, cuts, nums, o);
        WaitingHas(source, cuts, nums + {i}, j);
      }
    }
    forall o | o in m' ensures o in m {
      var j := WaitingNumber(source, cuts, nums + {i}, o);
      if j != i { WaitingHas(source, cuts, nums, j); }
    }
  }

  lemma WaitingRemove(source: seq<byte>, cuts: seq<nat>, nums: set<nat>, i: nat)
    requires Distinct(cuts, nums) && i in nums
    ensures Distinct(cuts, nums - {i})
    ensures Waiting(source, cuts, nums) - {Cut(cuts, i)} == Waiting(source, cuts, nums - {i})
  {
    hide Cut, ChunkAt;
    var m := Waiting(source, cuts, nums - {i});
    assert nums - {i} + {i} == nums;
    WaitingInsert(source, cuts, nums - {i}, i);
    assert Cut(cuts, i) !in m;
  }

  lemma WaitingMin(source: seq<byte>, cuts: seq<nat>, nums: set<nat>) returns (i: nat)
    requires Chunking(source, cuts) && Indices(cuts, nums) && nums != {}
    ensures Distinct(cuts, nums)
    ensures Waiting(source, cuts, nums) != map[]
    ensures i in nums && (forall j :: j in nums ==> i <= j)
    ensures MinKey(Waiting(source, cuts, nums)) == Cut(cuts, i)
    ensures Waiting(source, cuts, nums)[Cut(cuts, i)] == ChunkAt(source, cuts, i)
  {
    hide ChunkAt;
    AllDistinct(source, cuts, nums);
    i := Least(nums);
    var m := Waiting(source, cuts, nums);
    assert Cut(cuts, i) in m;
    var o := MinKey(m);
    var j :| j in nums && Cut(cuts, j) == o;
    CutsOrdered(source, cuts, i, j);
  }

  // ---------- The state as a function of what was delivered ----------

  function Above(got: set<nat>, k: nat): set<nat> {
    set i | i in got && k <= i
  }

  /** What the receiver holds when exactly the chunks of got count: the contiguous run, and the rest waiting. */
  ghost function Canon(source: seq<byte>, cuts: seq<nat>, got: set<nat>): Buf
    requires Chunking(source, cuts) && Indices(cuts, got)
  {
    var k := Received(cuts, got);
    AllDistinct(source, cuts, Above(got, k));
    CutsOrdered(source, cuts, k, k);
    Buf(source[..cuts[k]], Waiting(source, cuts, Above(got, k)))
  }

  lemma ChunkJoins(source: seq<byte>, cuts: seq<nat>, i: nat)
    requires Chunking(source, cuts) && i + 1 < |cuts|
    ensures cuts[i] < cuts[i + 1] <= |source|
    ensures source[..cuts[i]] + ChunkAt(source, cuts, i) == source[..cuts[i + 1]]
    ensures ChunkAt(source, cuts, i) == source[cuts[i]..cuts[i + 1]]
    ensures |ChunkAt(source, cuts, i)| > 0
  {
    CutsOrdered(source, cuts, i, i + 1);
    CutsOrdered(source, cuts, i + 1, i + 1);
  }

  /** Filling the hole at chunk k releases everything that is contiguous with it. */
  lemma {:induction false} DrainCanon(source: seq<byte>, cuts: seq<nat>, got: set<nat>, k: nat)
    requires Chunking(source, cuts) && Indices(cuts, got)
    requires k <= Received(cuts, got)
    ensures k < |cuts| && cuts[k] <= |source| && Distinct(cuts, Above(got, k))
    ensures Drain(Buf(source[..cuts[k]], Waiting(source, cuts, Above(got, k)))) == Canon(source, cuts, got)
    decreases |cuts| - k
  {
    hide Waiting, Chunking, ChunkAt, Distinct;
    var nums := Above(got, k);
    AllDistinct(source, cuts, nums);
    CutsOrdered(source, cuts, k, k);
    if nums != {} {
      var i := WaitingMin(source, cuts, nums);
      CutsOrdered(source, cuts, k, i);
      if k in got {
        assert k in nums && i == k;
        ChunkJoins(source, cuts, k);
        WaitingRemove(source, cuts, nums, k);
        assert Above(got, k + 1) == nums - {k};
        DrainCanon(source, cuts, got, k + 1);
      } else {
        assert k == Received(cuts, got);
        assert MinKey(Waiting(source, cuts, nums)) == cuts[i] > cuts[k];
      }
    } else {
      NoneWaiting(source, cuts);
      assert k in got ==> k in nums;
      assert k == Received(cuts, got);
    }
  }

  lemma NoneWaiting(source: seq<byte>, cuts: seq<nat>)
    ensures Distinct(cuts, {}) && Waiting(source, cuts, {}) == map[]
  {}

  /** Delivering chunk i to the state for got gives the state for got and i: order and duplicates do not matter. */
  lemma PlacedCanon(source: seq<byte>, cuts: seq<nat>, got: set<nat>, i: nat)
    requires Chunking(source, cuts) && Indices(cuts, got) && i + 1 < |cuts|
    ensures Indices(cuts, got + {i})
    ensures Placed(Canon(source, cuts, got), cuts[i], ChunkAt(source, cuts, i)) == Canon(source, cuts, got + {i})
  {
    hide Waiting, Chunking, ChunkAt, Distinct;
    var n := |cuts| - 1;
    var k := Received(cuts, got);
    CutsOrdered(source, cuts, i, k);
    CutsOrdered(source, cuts, k, k);
    ChunkJoins(source, cuts, i);
    if i < k {
      assert got + {i} == got;
    } else if i == k {
      FirstMissingGrows(got, n, k);
      assert Above(got, k) == Above(got + {i}, k + 1);
      DrainCanon(source, cuts, got + {i}, k + 1);
    } else {
      FirstMissingUnique(got + {i}, n, 0, k);
      assert Above(got + {i}, k) == Above(got, k) + {i};
      AllDistinct(source, cuts, Above(got + {i}, k));
      WaitingInsert(source, cuts, Above(got, k), i);
    }
  }

  lemma FirstMissingGrows(got: set<nat>, n: nat, k: nat)
    requires k < n && k == FirstMissing(got, n, 0)
    ensures k < FirstMissing(got + {k}, n, 0)
  {
    var k' := FirstMissing(got + {k}, n, 0);
    assert forall i :: 0 <= i <= k ==> i in got + {k};
  }

  lemma FirstMissingMonotone(got: set<nat>, got': set<nat>, n: nat)
    requires got <= got'
    ensures FirstMissing(got, n, 0) <= FirstMissing(got', n, 0)
  {
    var k, k' := FirstMissing(got, n, 0), FirstMissing(got', n, 0);
    assert k' < k ==> k' in got;
  }

  // ---------- Confluence ----------

  function InOrder(order: seq<nat>): set<nat> {
    set i | i in order
  }

  /** The state after the chunks of order have been delivered one after the other, to an empty segment. */
  function Delivered(source: seq<byte>, cuts: seq<nat>, order: seq<nat>): Buf {
    if order == [] then Buf([], map[])
    else
      var i := order[|order| - 1];
      Placed(Delivered(source, cuts, order[..|order| - 1]), Cut(cuts, i), ChunkAt(source, cuts, i))
  }

  /** With no eviction, the state depends on the set of delivered chunks and on nothing else. */
  lemma {:induction false} Confluence(source: seq<byte>, cuts: seq<nat>, order: seq<nat>)
    requires Chunking(source, cuts) && forall i :: i in order ==> i + 1 < |cuts|
    ensures Indices(cuts, InOrder(order))
    ensures Delivered(source, cuts, order) == Canon(source, cuts, InOrder(order))
  {
    hide Waiting, Placed, ChunkAt, Distinct;
    if order == [] {
      assert InOrder(order) == {};
      assert Above({}, 0) == {};
      NoneWaiting(source, cuts);
    } else {
      var before, i := order[..|order| - 1], order[|order| - 1];
      assert forall x :: x in before ==> x in order;
      Confluence(source, cuts, before);
      assert InOrder(order) == InOrder(before) + {i};
      PlacedCanon(source, cuts, InOrder(before), i);
    }
  }

  /** The state is complete, nothing waiting, exactly when every chunk has been delivered. */
  lemma CompleteExact(source: seq<byte>, cuts: seq<nat>, got: set<nat>)
    requires Chunking(source, cuts) && Indices(cuts, got)
    ensures Canon(source, cuts, got) == Buf(source, map[]) <==> Received(cuts, got) + 1 == |cuts|
    ensures Canon(source, cuts, got).file == source <==> forall i: nat :: i + 1 < |cuts| ==> i in got
  {
    var k := Received(cuts, got);
    hide Waiting, Distinct, Chunking;
    CutsOrdered(source, cuts, k, |cuts| - 1);
    LastCut(source, cuts);
    if k + 1 == |cuts| {
      assert Above(got, k) == {};
      NoneWaiting(source, cuts);
      assert source[..|source|] == source;
    }
  }

  lemma LastCut(source: seq<byte>, cuts: seq<nat>)
    requires Chunking(source, cuts)
    ensures cuts[|cuts| - 1] == |source|
  {}

  // ---------- What the chunking assumption is for ----------

  /**
   With overlapping slices every byte can arrive and the segment still stay short: a chunk that the
   watermark has passed into is never released, and it blocks every later one.
   */
  lemma OverlapStuck(source: seq<byte>)
    requires |source| > 4
    ensures var b := Placed(Placed(Placed(Placed(Buf([], map[]), 2, source[2..4]), 4, source[4..]),
                                   0, source[..3]), 3, source[3..4]);
      b == Buf(source[..4], map[2 := source[2..4], 4 := source[4..]])
  {
    var p: Chunks := map[2 := source[2..4], 4 := source[4..]];
    assert Placed(Buf([], map[]), 2, source[2..4]) == Buf([], map[2 := source[2..4]]);
    assert Placed(Buf([], map[2 := source[2..4]]), 4, source[4..]) == Buf([], p);
    assert 2 in p && 4 in p && MinKey(p) == 2;
    assert [] + source[..3] == source[..3];
    assert Placed(Buf([], p), 0, source[..3]) == Buf(source[..3], p);
    assert source[..3] + source[3..4] == source[..4];
    assert Placed(Buf(source[..3], p), 3, source[3..4]) == Buf(source[..4], p);
  }
}
