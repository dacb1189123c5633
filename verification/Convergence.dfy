/** Whole receiver runs without budget pressure: every segment is in the state for the set of chunks delivered to it. */
module Convergence {
  import opened Crc32
  import opened Segments
  import opened Delivery
  import opened ReceiverModel
  import opened PendingBudget
  import opened Healing
  import opened Names

  // ---------- What the counters can come to ----------

  lemma {:induction false} DrainTotal(b: Buf)
    ensures Total(Drain(b).pending) <= Total(b.pending)
    decreases |b.pending|
  {
    if b.pending != map[] && MinKey(b.pending) == |b.file| {
      TotalRemove(b.pending, |b.file|);
      DrainTotal(Buf(b.file + b.pending[|b.file|], b.pending - {|b.file|}));
    }
  }

  /** What waits and what was replaced grow together by at most the chunk. */
  lemma PlacedTotal(b: Buf, offset: nat, bytes: seq<byte>)
    ensures Total(Placed(b, offset, bytes).pending) + Replaced(b, offset, bytes) <= Total(b.pending) + |bytes|
  {
    if bytes != [] && offset > |b.file| {
      TotalInsert(b.pending, offset, bytes);
      if offset in b.pending { TotalRemove(b.pending, offset); } else { assert b.pending - {offset} == b.pending; }
    } else if bytes != [] && offset == |b.file| {
      DrainTotal(Buf(b.file + bytes, b.pending));
    }
  }

  lemma PlacedLoad(r: Receiver, key: Key, offset: nat, bytes: seq<byte>)
    ensures var b := BufOf(r, key);
      Load(r.waiting[key := Placed(b, offset, bytes).pending],
           r.over[key := OverAt(r.over, key) + Replaced(b, offset, bytes)])
        <= Load(r.waiting, r.over) + |bytes|
  {
    var b := BufOf(r, key);
    var p := Placed(b, offset, bytes).pending;
    PlacedTotal(b, offset, bytes);
    hide Placed, Replaced, Sum, FileOf;
    OverGrows(r.over, key, Replaced(b, offset, bytes));
    assert TotalsOf(r.waiting[key := p]) == TotalsOf(r.waiting)[key := Total(p)];
    SumUpdate(TotalsOf(r.waiting), key, Total(p));
  }

  lemma EnforcedRoom(p: map<Key, Chunks>, over: map<Key, nat>, q: map<Key, Chunks>, budget: nat)
    requires Enforced(p, over, q, budget) && Load(p, over) <= budget
    ensures q == p
  {
    hide Shed, Needed, Load;
  }

  // ---------- What a frame does when nothing has to go ----------

  function PlacedFreely(r: Receiver, key: Key, offset: nat, bytes: seq<byte>): Receiver {
    var b := BufOf(r, key);
    var b' := Placed(b, offset, bytes);
    Receiver(r.files[PathOf(key) := b'.file], r.waiting[key := b'.pending],
             r.over[key := OverAt(r.over, key) + Replaced(b, offset, bytes)], r.cache)
  }

  function EntriesFreely(r: Receiver, key: Key, es: seq<Entry>): Receiver
    decreases |es|
  {
    if es == [] then r
    else
      var e, before := es[|es| - 1], EntriesFreely(r, key, es[..|es| - 1]);
      if e.plaintext.Some? then PlacedFreely(before, key, e.offset, e.plaintext.value) else before
  }

  ghost predicate Fits(r: Receiver, budget: nat) { Load(r.waiting, r.over) <= budget }

  /** At none of the frame's placements, before any eviction, do the counters pass the budget. */
  ghost predicate RoomFor(r: Receiver, f: Frame, budgets: Budgets) {
    match f
    case Data(key, offset, _, Some(p)) => Fits(PlacedFreely(r, key, offset, p), budgets.pending)
    case Ref(key, offset, Some(id)) =>
      id in r.cache.bytes ==> Fits(PlacedFreely(r, key, offset, r.cache.bytes[id]), budgets.pending)
    case Batch(key, es) => EntriesRoom(r, key, es, budgets.pending)
    case _ => true
  }

  ghost predicate EntriesRoom(r: Receiver, key: Key, es: seq<Entry>, budget: nat) {
    forall n: nat :: PlacesAt(es, n) ==> Fits(EntriesFreely(r, key, es[..n]), budget)
  }

  predicate PlacesAt(es: seq<Entry>, n: nat) { 0 < n <= |es| && es[n - 1].plaintext.Some? }

  /** With room, a placement does what it does and evicts nothing. */
  lemma PlacesFreely(r: Receiver, key: Key, offset: nat, bytes: seq<byte>, r': Receiver, budget: nat)
    requires PlaceStep(r, key, offset, bytes, r', budget) && Fits(PlacedFreely(r, key, offset, bytes), budget)
    ensures r' == PlacedFreely(r, key, offset, bytes)
  {
    hide Placed, Replaced, Load, Enforced;
    EnforcedRoom(r.waiting[key := Placed(BufOf(r, key), offset, bytes).pending], r'.over, r'.waiting, budget);
  }

  /** And it evicts nothing only then. */
  lemma EvictsExactly(r: Receiver, key: Key, offset: nat, bytes: seq<byte>, r': Receiver, budget: nat)
    requires PlaceStep(r, key, offset, bytes, r', budget) && Within(r, budget)
    ensures r' == PlacedFreely(r, key, offset, bytes) <==> Fits(PlacedFreely(r, key, offset, bytes), budget)
  {
    PlaceWithin(r, key, offset, bytes, r', budget);
    hide PlaceStep, Load, NoneEmpty;
    if Fits(PlacedFreely(r, key, offset, bytes), budget) { PlacesFreely(r, key, offset, bytes, r', budget); }
  }

  /** A chunk no larger than what the counters leave has room. */
  lemma RoomKeepsAll(r: Receiver, key: Key, offset: nat, bytes: seq<byte>, r': Receiver, budget: nat)
    requires PlaceStep(r, key, offset, bytes, r', budget) && Load(r.waiting, r.over) + |bytes| <= budget
    ensures r' == PlacedFreely(r, key, offset, bytes) && Fits(r', budget)
  {
    PlacedLoad(r, key, offset, bytes);
    hide Placed, Replaced, Load, Enforced, PlaceStep;
    PlacesFreely(r, key, offset, bytes, r', budget);
  }

  /** An empty chunk, and one that starts below the watermark, changes no file and nothing that waits. */
  lemma LateIgnored(r: Receiver, key: Key, offset: nat, bytes: seq<byte>, r': Receiver, budget: nat)
    requires PlaceStep(r, key, offset, bytes, r', budget) && Load(r.waiting, r.over) <= budget
    requires bytes == [] || offset < |FileOf(r.files, key)|
    ensures r'.waiting == r.waiting[key := if key in r.waiting then r.waiting[key] else map[]]
    ensures forall k :: FileOf(r'.files, k) == FileOf(r.files, k)
  {
    PlacedLoad(r, key, offset, []);
    assert PlacedFreely(r, key, offset, bytes) == PlacedFreely(r, key, offset, []);
    hide Load, PlaceStep;
    PlacesFreely(r, key, offset, bytes, r', budget);
    hide PathOf;
    assert r'.files == r.files[PathOf(key) := FileOf(r.files, key)];
  }

  /** A chunk that comes too early and has room waits, in place of one at its offset, and nothing else changes. */
  lemma EarlyWaits(r: Receiver, key: Key, offset: nat, bytes: seq<byte>, r': Receiver, budget: nat)
    requires PlaceStep(r, key, offset, bytes, r', budget) && Load(r.waiting, r.over) + |bytes| <= budget
    requires bytes != [] && offset > |FileOf(r.files, key)|
    ensures var before := if key in r.waiting then r.waiting[key] else map[];
      r'.waiting == r.waiting[key := before[offset := bytes]]
    ensures forall k :: FileOf(r'.files, k) == FileOf(r.files, k)
  {
    RoomKeepsAll(r, key, offset, bytes, r', budget);
    hide PathOf, Load, PlaceStep;
    assert r'.files == r.files[PathOf(key) := FileOf(r.files, key)];
  }

  // ---------- What a run places ----------

  datatype Placement = Placement(key: Key, offset: nat, bytes: seq<byte>)

  function EntryPlacements(key: Key, es: seq<Entry>): seq<Placement>
    decreases |es|
  {
    if es == [] then []
    else
      var e := es[|es| - 1];
      EntryPlacements(key, es[..|es| - 1])
        + if e.plaintext.Some? then [Placement(key, e.offset, e.plaintext.value)] else []
  }

  /** A reference places what the cache has for it at that moment. */
  function Placements(r: Receiver, f: Frame): seq<Placement> {
    match f
    case Data(key, offset, _, Some(p)) => [Placement(key, offset, p)]
    case Ref(key, offset, Some(id)) =>
      if id in r.cache.bytes then [Placement(key, offset, r.cache.bytes[id])] else []
    case Batch(key, entries) => EntryPlacements(key, entries)
    case _ => []
  }

  function RunPlacements(rs: seq<Receiver>, fs: seq<Frame>, i: nat): seq<Placement>
    requires i <= |fs| && i < |rs|
  {
    if i == 0 then [] else RunPlacements(rs, fs, i - 1) + Placements(rs[i - 1], fs[i - 1])
  }

  function ChunkNumbers(cuts: seq<nat>, offset: nat): set<nat> {
    set i | 0 <= i < |cuts| - 1 && cuts[i] == offset
  }

  /** The chunks of one segment among the placements. */
  function Hits(cuts: seq<nat>, key: Key, ps: seq<Placement>): set<nat>
    decreases |ps|
  {
    if ps == [] then {}
    else
      var p := ps[|ps| - 1];
      Hits(cuts, key, ps[..|ps| - 1]) + if p.key == key then ChunkNumbers(cuts, p.offset) else {}
  }

  lemma {:induction false} HitsAppend(cuts: seq<nat>, key: Key, a: seq<Placement>, b: seq<Placement>)
    ensures Hits(cuts, key, a + b) == Hits(cuts, key, a) + Hits(cuts, key, b)
    decreases |b|
  {
    hide ChunkNumbers;
    if b == [] {
      assert a + b == a;
    } else {
      assert (a + b)[..|a + b| - 1] == a + b[..|b| - 1];
      HitsAppend(cuts, key, a, b[..|b| - 1]);
    }
  }

  lemma OnePlacement(cuts: seq<nat>, key: Key, p: Placement)
    ensures Hits(cuts, key, [p]) == if p.key == key then ChunkNumbers(cuts, p.offset) else {}
  {
    hide ChunkNumbers;
    assert [p][..0] == [];
  }

  lemma NumberOfChunk(source: seq<byte>, cuts: seq<nat>, i: nat)
    requires Chunking(source, cuts) && i + 1 < |cuts|
    ensures ChunkNumbers(cuts, Cut(cuts, i)) == {i}
  {
    forall j | j in ChunkNumbers(cuts, cuts[i]) ensures j == i { CutsOrdered(source, cuts, i, j); }
    assert i in ChunkNumbers(cuts, cuts[i]);
  }

  // ---------- Runs ----------

  lemma CutIsCut(cuts: seq<nat>, i: nat)
    requires i + 1 < |cuts|
    ensures Cut(cuts, i) == cuts[i]
  {}

  lemma SamePlace(r: Receiver, k: Key, offset: nat, bytes: seq<byte>, key: Key)
    requires k != key
    ensures BufOf(PlacedFreely(r, k, offset, bytes), key) == BufOf(r, key)
  {
    hide Placed, Replaced;
    if PathOf(k) == PathOf(key) { RecvPathInjective(k.0, k.1, key.0, key.1); }
  }

  lemma FreelyAt(r: Receiver, k: Key, offset: nat, bytes: seq<byte>, key: Key, source: seq<byte>, cuts: seq<nat>,
                 named: map<BlindId, seq<byte>>, got: set<nat>)
    requires Chunking(source, cuts) && At(r, key, source, cuts, named, got)
    requires k == key ==> IsChunk(source, cuts, offset, bytes)
    ensures At(PlacedFreely(r, k, offset, bytes), key, source, cuts, named,
               got + if k == key then ChunkNumbers(cuts, offset) else {})
  {
    hide Placed, Replaced, Chunking, Canon, ChunkAt, ChunkNumbers, Cut;
    if k == key {
      var i: nat :| i + 1 < |cuts| && offset == Cut(cuts, i) && bytes == ChunkAt(source, cuts, i);
      NumberOfChunk(source, cuts, i);
      PlacedCanon(source, cuts, got, i);
      CutIsCut(cuts, i);
    } else {
      SamePlace(r, k, offset, bytes, key);
      assert got + {} == got;
    }
  }

  lemma {:induction false} EntriesAt(r: Receiver, k: Key, es: seq<Entry>, r': Receiver, budget: nat, key: Key,
                                     source: seq<byte>, cuts: seq<nat>, named: map<BlindId, seq<byte>>, got: set<nat>)
    requires Chunking(source, cuts) && At(r, key, source, cuts, named, got)
    requires EntriesStep(r, k, es, r', budget) && EntriesRoom(r, k, es, budget)
    requires k == key ==> ChunkedEntries(es, source, cuts)
    ensures r' == EntriesFreely(r, k, es)
    ensures At(r', key, source, cuts, named, got + Hits(cuts, key, EntryPlacements(k, es)))
    decreases |es|
  {
    hide PlaceStep, Chunking, At, IsChunk, ChunkNumbers, Hits, PlacedFreely, Fits;
    if es == [] {
      NoPlacement(cuts, key);
      assert got + {} == got;
    } else {
      var front, e := es[..|es| - 1], es[|es| - 1];
      var mid :| EntriesStep(r, k, front, mid, budget) && EntryStep(mid, k, e, r', budget);
      var ps := EntryPlacements(k, front);
      RoomBefore(r, k, es, budget);
      EntriesAt(r, k, front, mid, budget, key, source, cuts, named, got);
      if e.plaintext.Some? {
        var p := Placement(k, e.offset, e.plaintext.value);
        OnePlacement(cuts, key, p);
        HitsAppend(cuts, key, ps, [p]);
        PlacesFreely(mid, k, e.offset, e.plaintext.value, r', budget);
        FreelyAt(mid, k, e.offset, e.plaintext.value, key, source, cuts, named, got + Hits(cuts, key, ps));
        Union(got, Hits(cuts, key, ps), Hits(cuts, key, [p]));
      } else {
        assert ps + [] == ps;
      }
    }
  }

  lemma RoomBefore(r: Receiver, k: Key, es: seq<Entry>, budget: nat)
    requires es != [] && EntriesRoom(r, k, es, budget)
    ensures EntriesRoom(r, k, es[..|es| - 1], budget)
    ensures es[|es| - 1].plaintext.Some? ==> Fits(EntriesFreely(r, k, es), budget)
  {
    hide Fits, EntriesFreely;
    assert es[..|es|] == es;
    var front := es[..|es| - 1];
    forall n: nat | PlacesAt(front, n) ensures Fits(EntriesFreely(r, k, front[..n]), budget) {
      assert PlacesAt(es, n) && front[..n] == es[..n];
    }
    assert es[|es| - 1].plaintext.Some? ==> PlacesAt(es, |es|);
  }

  lemma NoPlacement(cuts: seq<nat>, key: Key)
    ensures Hits(cuts, key, []) == {}
  {}

  lemma Union(a: set<nat>, b: set<nat>, c: set<nat>)
    ensures a + b + c == a + (b + c)
  {}

  lemma CachedAt(r: Receiver, f: Frame, budgets: Budgets, key: Key, source: seq<byte>, cuts: seq<nat>,
                 named: map<BlindId, seq<byte>>, got: set<nat>) returns (r1: Receiver)
    requires Chunking(source, cuts) && At(r, key, source, cuts, named, got)
    requires ChunkedFrame(f, key, source, cuts, named)
    ensures r1 == r.(cache := Cached(r.cache, f, budgets.cache)) && At(r1, key, source, cuts, named, got)
  {
    hide Chunking, Canon, IsChunk, Cached, ChunkedEntries;
    CachedNamed(r.cache, f, budgets.cache, named);
    r1 := r.(cache := Cached(r.cache, f, budgets.cache));
  }

  lemma SameFit(r: Receiver, cache: Cache, key: Key, offset: nat, bytes: seq<byte>, budget: nat)
    ensures Fits(PlacedFreely(r.(cache := cache), key, offset, bytes), budget)
       <==> Fits(PlacedFreely(r, key, offset, bytes), budget)
  {
    hide Placed, Replaced, Load;
  }

  lemma NextConfluent(r: Receiver, f: Frame, r': Receiver, budgets: Budgets, key: Key, source: seq<byte>,
                      cuts: seq<nat>, named: map<BlindId, seq<byte>>, got: set<nat>)
    requires Chunking(source, cuts) && At(r, key, source, cuts, named, got)
    requires Next(r, f, r', budgets) && RoomFor(r, f, budgets) && ChunkedFrame(f, key, source, cuts, named)
    requires f != Forget(key) && !f.Restart?
    ensures At(r', key, source, cuts, named, got + Hits(cuts, key, Placements(r, f)))
  {
    hide PlaceStep, Chunking, IsChunk, ChunkNumbers, Hits, Cached, Canon, EntriesStep, EntryPlacements, PlacedFreely,
      Fits, ChunkedEntries, EntriesRoom, Indices, FileOf;
    NoPlacement(cuts, key);
    assert got + {} == got;
    match f {
      case Data(k, offset, id, Some(p)) =>
        OnePlacement(cuts, key, Placement(k, offset, p));
        var r1 := CachedAt(r, f, budgets, key, source, cuts, named, got);
        SameFit(r, r1.cache, k, offset, p, budgets.pending);
        PlacesFreely(r1, k, offset, p, r', budgets.pending);
        FreelyAt(r1, k, offset, p, key, source, cuts, named, got);
      case Ref(k, offset, id) =>
        if id.Some? && id.value in r.cache.bytes {
          var p := r.cache.bytes[id.value];
          OnePlacement(cuts, key, Placement(k, offset, p));
          PlacesFreely(r, k, offset, p, r', budgets.pending);
          FreelyAt(r, k, offset, p, key, source, cuts, named, got);
        }
      case Batch(k, entries) => EntriesAt(r, k, entries, r', budgets.pending, key, source, cuts, named, got);
      case Forget(k) =>
      case _ =>
    }
  }

  /**
   Confluence over whole runs. While the counters never pass the pending budget, before any eviction, a segment under
   one chunking is in the state for exactly the chunks it had and those delivered to it, first-hand, in batches or by
   reference: neither order nor repetition matters, and nothing that happens to other segments.
   */
  lemma {:induction false} RunConfluent(rs: seq<Receiver>, fs: seq<Frame>, budgets: Budgets, i: nat, key: Key,
                                        source: seq<byte>, cuts: seq<nat>, named: map<BlindId, seq<byte>>,
                                        got: set<nat>)
    requires Trace(rs, fs, budgets) && i < |rs| && Chunking(source, cuts)
    requires At(rs[0], key, source, cuts, named, got)
    requires forall f :: f in fs ==> ChunkedFrame(f, key, source, cuts, named) && f != Forget(key) && !f.Restart?
    requires forall j :: 0 <= j < i ==> RoomFor(rs[j], fs[j], budgets)
    ensures At(rs[i], key, source, cuts, named, got + Hits(cuts, key, RunPlacements(rs, fs, i)))
  {
    hide Next, Chunking, At, ChunkedFrame, Hits, Placements, RoomFor;
    if i == 0 {
      NoPlacement(cuts, key);
      assert got + {} == got;
    } else {
      var ps, more := RunPlacements(rs, fs, i - 1), Placements(rs[i - 1], fs[i - 1]);
      HitsAppend(cuts, key, ps, more);
      RunConfluent(rs, fs, budgets, i - 1, key, source, cuts, named, got);
      assert fs[i - 1] in fs;
      NextConfluent(rs[i - 1], fs[i - 1], rs[i], budgets, key, source, cuts, named, got + Hits(cuts, key, ps));
      Union(got, Hits(cuts, key, ps), Hits(cuts, key, more));
    }
  }

  /** From an empty receiver: the file is the longest run of delivered chunks, and exactly the others wait. */
  lemma FreshConfluent(rs: seq<Receiver>, fs: seq<Frame>, budgets: Budgets, i: nat, key: Key, source: seq<byte>,
                       cuts: seq<nat>, named: map<BlindId, seq<byte>>)
    requires Trace(rs, fs, budgets) && i < |rs| && Chunking(source, cuts)
    requires rs[0] == Receiver(map[], map[], map[], Cache([], map[]))
    requires forall f :: f in fs ==> ChunkedFrame(f, key, source, cuts, named) && f != Forget(key) && !f.Restart?
    requires forall j :: 0 <= j < i ==> RoomFor(rs[j], fs[j], budgets)
    ensures Indices(cuts, Hits(cuts, key, RunPlacements(rs, fs, i)))
    ensures BufOf(rs[i], key) == Canon(source, cuts, Hits(cuts, key, RunPlacements(rs, fs, i)))
  {
    hide Next, ChunkedFrame, Hits, Placements, RunPlacements, RoomFor;
    var hits := Hits(cuts, key, RunPlacements(rs, fs, i));
    StartAtZero(rs[0], key, source, cuts, named);
    RunConfluent(rs, fs, budgets, i, key, source, cuts, named, {});
    assert {} + hits == hits;
  }

  lemma StartAtZero(r: Receiver, key: Key, source: seq<byte>, cuts: seq<nat>, named: map<BlindId, seq<byte>>)
    requires Chunking(source, cuts) && r == Receiver(map[], map[], map[], Cache([], map[]))
    ensures At(r, key, source, cuts, named, {})
  {
    assert Above({}, 0) == {};
    NoneWaiting(source, cuts);
    hide Waiting;
    assert source[..0] == [];
  }
}
