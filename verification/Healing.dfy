/** Gap healing at the receiver: with one fixed chunking, re-sending from the watermark on completes a segment. */
module Healing {
  import opened Crc32
  import opened Segments
  import opened Delivery
  import opened ReceiverModel

  /** A chunk of the fixed chunking, at its own offset. */
  ghost predicate IsChunk(source: seq<byte>, cuts: seq<nat>, offset: nat, bytes: seq<byte>) {
    exists i: nat :: i + 1 < |cuts| && offset == Cut(cuts, i) && bytes == ChunkAt(source, cuts, i)
  }

  /** For this segment the sender uses the fixed chunking; for all others nothing is assumed. */
  ghost predicate ChunkedFrame(f: Frame, key: Key, source: seq<byte>, cuts: seq<nat>, named: map<BlindId, seq<byte>>) {
    match f
    case Data(k, offset, id, plaintext) =>
      plaintext.Some? ==>
        && (k == key ==> IsChunk(source, cuts, offset, plaintext.value))
        && (id.Some? ==> id.value in named && named[id.value] == plaintext.value)
    case Ref(k, offset, id) =>
      k == key && id.Some? && id.value in named ==> IsChunk(source, cuts, offset, named[id.value])
    case Batch(k, entries) => k == key ==> ChunkedEntries(entries, source, cuts)
    case _ => true
  }

  ghost predicate ChunkedEntries(entries: seq<Entry>, source: seq<byte>, cuts: seq<nat>) {
    forall e :: e in entries && e.plaintext.Some? ==> IsChunk(source, cuts, e.offset, e.plaintext.value)
  }

  /** The segment is in the state for the chunks of got, and the cache holds nothing but what the ids stand for. */
  ghost predicate At(r: Receiver, key: Key, source: seq<byte>, cuts: seq<nat>, named: map<BlindId, seq<byte>>,
                     got: set<nat>)
    requires Chunking(source, cuts)
  {
    Indices(cuts, got) && BufOf(r, key) == Canon(source, cuts, got) && CacheNamed(r, named)
  }

  ghost predicate CacheNamed(r: Receiver, named: map<BlindId, seq<byte>>) {
    forall id :: id in r.cache.bytes ==> id in named && r.cache.bytes[id] == named[id]
  }

  // ---------- How far the re-sent chunks have come ----------

  /** Chunk j delivered by one placement at this offset. */
  function Advanced(key: Key, cuts: seq<nat>, k: Key, offset: nat, j: nat): nat {
    if k == key && j + 1 < |cuts| && offset == Cut(cuts, j) then j + 1 else j
  }

  function EntriesAdvance(key: Key, cuts: seq<nat>, k: Key, entries: seq<Entry>, j: nat): nat
    decreases |entries|
  {
    if entries == [] then j
    else
      var e, before := entries[|entries| - 1], EntriesAdvance(key, cuts, k, entries[..|entries| - 1], j);
      if e.plaintext.Some? then Advanced(key, cuts, k, e.offset, before) else before
  }

  function FrameAdvance(key: Key, cuts: seq<nat>, f: Frame, j: nat): nat {
    match f
    case Data(k, offset, _, Some(_)) => Advanced(key, cuts, k, offset, j)
    case Batch(k, entries) => EntriesAdvance(key, cuts, k, entries, j)
    case _ => j
  }

  /** How far the chunks from number j on have been delivered in increasing order, whatever came between them. */
  function Resent(key: Key, cuts: seq<nat>, fs: seq<Frame>, j: nat): nat
    decreases |fs|
  {
    if fs == [] then j else FrameAdvance(key, cuts, fs[|fs| - 1], Resent(key, cuts, fs[..|fs| - 1], j))
  }

  // ---------- Losing waiting chunks ----------

  lemma WaitingSubset(source: seq<byte>, cuts: seq<nat>, nums: set<nat>, m: Chunks) returns (kept: set<nat>)
    requires Distinct(cuts, nums)
    requires forall o :: o in m ==> o in Waiting(source, cuts, nums) && m[o] == Waiting(source, cuts, nums)[o]
    ensures kept <= nums && Distinct(cuts, kept) && Waiting(source, cuts, kept) == m
  {
    hide ChunkAt, Cut, Waiting;
    kept := set i | i in nums && Cut(cuts, i) in m;
    var w := Waiting(source, cuts, kept);
    forall o | o in w ensures o in m && m[o] == w[o] {
      var i := WaitingNumber(source, cuts, kept, o);
      WaitingHas(source, cuts, nums, i);
    }
    forall o | o in m ensures o in w {
      var i := WaitingNumber(source, cuts, nums, o);
      WaitingHas(source, cuts, kept, i);
    }
  }

  lemma ReceivedSame(cuts: seq<nat>, got: set<nat>, kept: set<nat>)
    requires |cuts| > 0 && kept <= Above(got, Received(cuts, got))
    ensures var k, got' := Received(cuts, got), got - Above(got, Received(cuts, got)) + kept;
      Received(cuts, got') == k && Above(got', k) == kept
  {
    var k := Received(cuts, got);
    FirstMissingUnique(got - Above(got, k) + kept, |cuts| - 1, 0, k);
  }

  /** Whichever waiting chunks are lost, to a budget or with the buffer, the state is again one of the same form. */
  lemma SubCanon(source: seq<byte>, cuts: seq<nat>, got: set<nat>, b: Buf) returns (got': set<nat>)
    requires Chunking(source, cuts) && Indices(cuts, got)
    requires b.file == Canon(source, cuts, got).file
    requires forall o :: o in b.pending ==>
               o in Canon(source, cuts, got).pending && b.pending[o] == Canon(source, cuts, got).pending[o]
    ensures Indices(cuts, got') && Received(cuts, got') == Received(cuts, got)
    ensures b == Canon(source, cuts, got')
  {
    hide Chunking, ChunkAt, Cut, Waiting, Distinct;
    var nums := Above(got, Received(cuts, got));
    AllDistinct(source, cuts, nums);
    var kept := WaitingSubset(source, cuts, nums, b.pending);
    ReceivedSame(cuts, got, kept);
    got' := got - nums + kept;
  }

  // ---------- Placing ----------

  /** One placement in this segment: the state stays in form, never goes back, and moves on if it was the next chunk. */
  lemma PlacedAt(r: Receiver, offset: nat, bytes: seq<byte>, r': Receiver, budget: nat, key: Key, source: seq<byte>,
                 cuts: seq<nat>, named: map<BlindId, seq<byte>>, got: set<nat>) returns (got': set<nat>)
    requires Chunking(source, cuts) && At(r, key, source, cuts, named, got)
    requires PlaceStep(r, key, offset, bytes, r', budget) && IsChunk(source, cuts, offset, bytes)
    ensures At(r', key, source, cuts, named, got')
    ensures Received(cuts, got) <= Received(cuts, got')
    ensures forall j: nat :: j <= Received(cuts, got) ==> Advanced(key, cuts, key, offset, j) <= Received(cuts, got')
  {
    hide Placed, Chunking, Canon, ChunkAt, PlaceStep;
    var i: nat :| i + 1 < |cuts| && offset == Cut(cuts, i) && bytes == ChunkAt(source, cuts, i);
    PlacedCanon(source, cuts, got, i);
    PlaceHere(r, key, offset, bytes, r', budget);
    PlaceKeepsCache(r, key, offset, bytes, r', budget);
    got' := SubCanon(source, cuts, got + {i}, BufOf(r', key));
    Grown(source, cuts, got, i);
  }

  lemma Grown(source: seq<byte>, cuts: seq<nat>, got: set<nat>, i: nat)
    requires Chunking(source, cuts) && i + 1 < |cuts|
    ensures Received(cuts, got) <= Received(cuts, got + {i})
    ensures forall key, j: nat :: j <= Received(cuts, got) ==>
              Advanced(key, cuts, key, Cut(cuts, i), j) <= Received(cuts, got + {i})
  {
    var n := |cuts| - 1;
    FirstMissingMonotone(got, got + {i}, n);
    forall key, j: nat | j <= Received(cuts, got)
      ensures Advanced(key, cuts, key, Cut(cuts, i), j) <= Received(cuts, got + {i})
    {
      if j + 1 < |cuts| && cuts[i] == cuts[j] {
        CutsOrdered(source, cuts, i, j);
        if j == Received(cuts, got) { FirstMissingGrows(got, n, j); }
      }
    }
  }

  /** A placement in another segment can take waiting chunks from this one, and nothing else. */
  lemma PlacedElsewhereAt(r: Receiver, k: Key, offset: nat, bytes: seq<byte>, r': Receiver, budget: nat, key: Key,
                          source: seq<byte>, cuts: seq<nat>, named: map<BlindId, seq<byte>>,
                          got: set<nat>) returns (got': set<nat>)
    requires Chunking(source, cuts) && At(r, key, source, cuts, named, got)
    requires PlaceStep(r, k, offset, bytes, r', budget) && k != key
    ensures At(r', key, source, cuts, named, got') && Received(cuts, got') == Received(cuts, got)
  {
    hide Placed, Chunking, Canon, PlaceStep;
    PlaceElsewhere(r, k, offset, bytes, r', budget, key);
    PlaceKeepsCache(r, k, offset, bytes, r', budget);
    got' := SubCanon(source, cuts, got, BufOf(r', key));
  }

  lemma PlaceStepAt(r: Receiver, k: Key, offset: nat, bytes: seq<byte>, r': Receiver, budget: nat, key: Key,
                    source: seq<byte>, cuts: seq<nat>, named: map<BlindId, seq<byte>>, got: set<nat>,
                    j: nat) returns (got': set<nat>)
    requires Chunking(source, cuts) && At(r, key, source, cuts, named, got) && j <= Received(cuts, got)
    requires PlaceStep(r, k, offset, bytes, r', budget) && (k == key ==> IsChunk(source, cuts, offset, bytes))
    ensures At(r', key, source, cuts, named, got') && Received(cuts, got) <= Received(cuts, got')
    ensures Advanced(key, cuts, k, offset, j) <= Received(cuts, got')
  {
    hide PlaceStep, Chunking, At, IsChunk;
    if k == key {
      got' := PlacedAt(r, offset, bytes, r', budget, key, source, cuts, named, got);
    } else {
      got' := PlacedElsewhereAt(r, k, offset, bytes, r', budget, key, source, cuts, named, got);
    }
  }

  lemma {:induction false} EntriesAt(r: Receiver, k: Key, es: seq<Entry>, r': Receiver, budget: nat, key: Key,
                                     source: seq<byte>, cuts: seq<nat>, named: map<BlindId, seq<byte>>,
                                     got: set<nat>, j: nat)
      returns (got': set<nat>)
    requires Chunking(source, cuts) && At(r, key, source, cuts, named, got) && j <= Received(cuts, got)
    requires EntriesStep(r, k, es, r', budget) && (k == key ==> ChunkedEntries(es, source, cuts))
    ensures At(r', key, source, cuts, named, got') && Received(cuts, got) <= Received(cuts, got')
    ensures EntriesAdvance(key, cuts, k, es, j) <= Received(cuts, got')
    decreases |es|
  {
    hide PlaceStep, Chunking, At, IsChunk, Advanced;
    if es == [] {
      got' := got;
    } else {
      var front, e := es[..|es| - 1], es[|es| - 1];
      var mid :| EntriesStep(r, k, front, mid, budget) && EntryStep(mid, k, e, r', budget);
      got' := EntriesAt(r, k, front, mid, budget, key, source, cuts, named, got, j);
      if e.plaintext.Some? {
        got' := PlaceStepAt(mid, k, e.offset, e.plaintext.value, r', budget, key, source, cuts, named, got',
                            EntriesAdvance(key, cuts, k, front, j));
      }
    }
  }

  lemma SubAt(r: Receiver, r': Receiver, key: Key, source: seq<byte>, cuts: seq<nat>, named: map<BlindId, seq<byte>>,
              got: set<nat>) returns (got': set<nat>)
    requires Chunking(source, cuts) && At(r, key, source, cuts, named, got) && r'.files == r.files
    requires key in r'.waiting ==> key in r.waiting && r'.waiting[key] == r.waiting[key]
    requires forall id :: id in r'.cache.bytes ==> id in named && r'.cache.bytes[id] == named[id]
    ensures At(r', key, source, cuts, named, got') && Received(cuts, got') == Received(cuts, got)
  {
    hide Chunking, Canon;
    got' := SubCanon(source, cuts, got, BufOf(r', key));
  }

  // ---------- Runs ----------

  lemma NextAt(r: Receiver, f: Frame, r': Receiver, budgets: Budgets, key: Key, source: seq<byte>, cuts: seq<nat>,
               named: map<BlindId, seq<byte>>, got: set<nat>, j: nat) returns (got': set<nat>)
    requires Chunking(source, cuts) && At(r, key, source, cuts, named, got) && j <= Received(cuts, got)
    requires Next(r, f, r', budgets) && ChunkedFrame(f, key, source, cuts, named)
    ensures At(r', key, source, cuts, named, got') && Received(cuts, got) <= Received(cuts, got')
    ensures FrameAdvance(key, cuts, f, j) <= Received(cuts, got')
  {
    hide PlaceStep, Chunking, IsChunk, Advanced, Cached, Canon, EntriesStep, EntriesAdvance, ChunkedEntries;
    match f {
      case Data(k, offset, id, Some(p)) =>
        var before := r.(cache := Cached(r.cache, f, budgets.cache));
        CachedNamed(r.cache, f, budgets.cache, named);
        var got0 := SubAt(r, before, key, source, cuts, named, got);
        got' := PlaceStepAt(before, k, offset, p, r', budgets.pending, key, source, cuts, named, got0, j);
      case Ref(k, offset, id) =>
        got' := got;
        if id.Some? && id.value in r.cache.bytes {
          got' := PlaceStepAt(r, k, offset, r.cache.bytes[id.value], r', budgets.pending, key, source, cuts, named,
                              got, j);
        }
      case Batch(k, entries) => got' := EntriesAt(r, k, entries, r', budgets.pending, key, source, cuts, named, got, j);
      case Forget(k) => got' := SubAt(r, r', key, source, cuts, named, got);
      case Restart => got' := SubAt(r, r', key, source, cuts, named, got);
      case _ => got' := got;
    }
  }

  lemma {:induction false} TraceAt(rs: seq<Receiver>, fs: seq<Frame>, budgets: Budgets, i: nat, key: Key,
                                   source: seq<byte>,
                                   cuts: seq<nat>, named: map<BlindId, seq<byte>>, got: set<nat>, j: nat)
      returns (got': set<nat>)
    requires Trace(rs, fs, budgets) && i < |rs| && Chunking(source, cuts)
    requires At(rs[0], key, source, cuts, named, got) && j <= Received(cuts, got)
    requires forall f :: f in fs ==> ChunkedFrame(f, key, source, cuts, named)
    ensures At(rs[i], key, source, cuts, named, got') && Received(cuts, got) <= Received(cuts, got')
    ensures Resent(key, cuts, fs[..i], j) <= Received(cuts, got')
  {
    hide Next, At, Chunking, ChunkedFrame, FrameAdvance;
    if i == 0 {
      got' := got;
    } else {
      got' := TraceAt(rs, fs, budgets, i - 1, key, source, cuts, named, got, j);
      assert fs[i - 1] in fs && fs[..i][..i - 1] == fs[..i - 1];
      got' := NextAt(rs[i - 1], fs[i - 1], rs[i], budgets, key, source, cuts, named, got',
                     Resent(key, cuts, fs[..i - 1], j));
    }
  }

  lemma AtIsCut(r: Receiver, key: Key, source: seq<byte>, cuts: seq<nat>, named: map<BlindId, seq<byte>>, got: set<nat>)
    requires Chunking(source, cuts) && At(r, key, source, cuts, named, got)
    ensures |FileOf(r.files, key)| == cuts[Received(cuts, got)] && AtCut(FileOf(r.files, key), cuts)
    ensures FileOf(r.files, key) <= source
  {
    CutsOrdered(source, cuts, Received(cuts, got), Received(cuts, got));
    hide Chunking, Waiting;
  }

  /**
   The watermark, where a gap query starts, is at every state a cut. Once the chunks from there to the end have been
   delivered in increasing order, the file is the source: whatever waited, arrived, was evicted by this or any
   other segment's traffic, or was lost with a dropped buffer or a restart, before, between and after them.
   */
  lemma GapHealed(rs: seq<Receiver>, fs: seq<Frame>, budgets: Budgets, key: Key, source: seq<byte>, cuts: seq<nat>,
                  named: map<BlindId, seq<byte>>, got: set<nat>)
    requires Trace(rs, fs, budgets) && Chunking(source, cuts)
    requires At(rs[0], key, source, cuts, named, got)
    requires forall f :: f in fs ==> ChunkedFrame(f, key, source, cuts, named)
    ensures |FileOf(rs[0].files, key)| == cuts[Received(cuts, got)]
    ensures forall i :: 0 <= i < |rs| ==> AtCut(FileOf(rs[i].files, key), cuts)
    ensures Resent(key, cuts, fs, Received(cuts, got)) + 1 >= |cuts| ==> FileOf(rs[|rs| - 1].files, key) == source
  {
    var k := Received(cuts, got);
    hide Next, Chunking, ChunkedFrame, Waiting, Resent, FileOf, AtCut, Canon;
    AtIsCut(rs[0], key, source, cuts, named, got);
    forall i | 0 <= i < |rs| ensures AtCut(FileOf(rs[i].files, key), cuts) {
      var got' := TraceAt(rs, fs, budgets, i, key, source, cuts, named, got, k);
      AtIsCut(rs[i], key, source, cuts, named, got');
    }
    var got' := TraceAt(rs, fs, budgets, |rs| - 1, key, source, cuts, named, got, k);
    assert fs[..|fs|] == fs;
    CompleteExact(source, cuts, got');
  }

  // ---------- Where healing starts ----------

  ghost predicate AtCut(file: seq<byte>, cuts: seq<nat>) {
    exists k :: 0 <= k < |cuts| && |file| == cuts[k]
  }

  function FirstN(n: nat): (s: set<nat>)
    ensures forall i: nat :: i in s <==> i < n
  {
    if n == 0 then {} else FirstN(n - 1) + {n - 1}
  }

  /** A file that ends at a cut, with nothing waiting, is the state for the chunks before that cut. */
  lemma StartAt(r: Receiver, key: Key, source: seq<byte>, cuts: seq<nat>, named: map<BlindId, seq<byte>>)
      returns (got: set<nat>)
    requires Chunking(source, cuts) && CacheNamed(r, named)
    requires FileOf(r.files, key) <= source && AtCut(FileOf(r.files, key), cuts)
    requires key !in r.waiting
    ensures At(r, key, source, cuts, named, got)
  {
    var k :| 0 <= k < |cuts| && |FileOf(r.files, key)| == cuts[k];
    CutsOrdered(source, cuts, k, k);
    hide Chunking;
    got := FirstN(k);
    FirstMissingUnique(got, |cuts| - 1, 0, k);
    assert Above(got, k) == {};
    NoneWaiting(source, cuts);
  }

  lemma PlaceOffCut(r: Receiver, k: Key, offset: nat, bytes: seq<byte>, r': Receiver, budget: nat, key: Key,
                    source: seq<byte>, cuts: seq<nat>, named: map<BlindId, seq<byte>>)
    requires PlaceStep(r, k, offset, bytes, r', budget) && (k == key ==> IsChunk(source, cuts, offset, bytes))
    requires !AtCut(FileOf(r.files, key), cuts) && CacheNamed(r, named)
    ensures FileOf(r'.files, key) == FileOf(r.files, key) && CacheNamed(r', named)
  {
    hide Drain, ChunkAt, PlaceStep;
    PlaceKeepsCache(r, k, offset, bytes, r', budget);
    if k == key {
      PlaceHere(r, k, offset, bytes, r', budget);
    } else {
      PlaceElsewhere(r, k, offset, bytes, r', budget, key);
    }
  }

  lemma {:induction false} EntriesOffCut(r: Receiver, k: Key, es: seq<Entry>, r': Receiver, budget: nat, key: Key,
                                         source: seq<byte>, cuts: seq<nat>, named: map<BlindId, seq<byte>>)
    requires EntriesStep(r, k, es, r', budget) && (k == key ==> ChunkedEntries(es, source, cuts))
    requires !AtCut(FileOf(r.files, key), cuts) && CacheNamed(r, named)
    ensures FileOf(r'.files, key) == FileOf(r.files, key) && CacheNamed(r', named)
    decreases |es|
  {
    hide PlaceStep, IsChunk, AtCut, FileOf, CacheNamed;
    if es != [] {
      var front, e := es[..|es| - 1], es[|es| - 1];
      var mid :| EntriesStep(r, k, front, mid, budget) && EntryStep(mid, k, e, r', budget);
      EntriesOffCut(r, k, front, mid, budget, key, source, cuts, named);
      if e.plaintext.Some? { PlaceOffCut(mid, k, e.offset, e.plaintext.value, r', budget, key, source, cuts, named); }
    }
  }

  lemma NextOffCut(r: Receiver, f: Frame, r': Receiver, budgets: Budgets, key: Key, source: seq<byte>, cuts: seq<nat>,
                   named: map<BlindId, seq<byte>>)
    requires Next(r, f, r', budgets) && ChunkedFrame(f, key, source, cuts, named)
    requires !AtCut(FileOf(r.files, key), cuts) && CacheNamed(r, named)
    ensures FileOf(r'.files, key) == FileOf(r.files, key) && CacheNamed(r', named)
  {
    hide PlaceStep, IsChunk, AtCut, FileOf, Cached, EntriesStep;
    match f {
      case Data(k, offset, id, Some(p)) =>
        CachedNamed(r.cache, f, budgets.cache, named);
        PlaceOffCut(r.(cache := Cached(r.cache, f, budgets.cache)), k, offset, p, r', budgets.pending, key,
                    source, cuts, named);
      case Ref(k, offset, id) =>
        if id.Some? && id.value in r.cache.bytes {
          PlaceOffCut(r, k, offset, r.cache.bytes[id.value], r', budgets.pending, key, source, cuts, named);
        }
      case Batch(k, entries) => EntriesOffCut(r, k, entries, r', budgets.pending, key, source, cuts, named);
      case _ =>
    }
  }

  lemma {:induction false} TraceOffCut(rs: seq<Receiver>, fs: seq<Frame>, budgets: Budgets, i: nat, key: Key,
                                       source: seq<byte>, cuts: seq<nat>, named: map<BlindId, seq<byte>>)
    requires Trace(rs, fs, budgets) && i < |rs| && !AtCut(FileOf(rs[0].files, key), cuts) && CacheNamed(rs[0], named)
    requires forall f :: f in fs ==> ChunkedFrame(f, key, source, cuts, named)
    ensures FileOf(rs[i].files, key) == FileOf(rs[0].files, key) && CacheNamed(rs[i], named)
  {
    hide Next, ChunkedFrame, AtCut, FileOf, CacheNamed;
    if i > 0 {
      TraceOffCut(rs, fs, budgets, i - 1, key, source, cuts, named);
      assert fs[i - 1] in fs;
      NextOffCut(rs[i - 1], fs[i - 1], rs[i], budgets, key, source, cuts, named);
    }
  }

  /**
   A segment is opened on a file from before, and then gets all its chunks in increasing order, among whatever
   else. It becomes complete exactly when that file ended at a cut: from inside a chunk it never moves at all.
   */
  lemma HealsExactly(rs: seq<Receiver>, fs: seq<Frame>, budgets: Budgets, key: Key, source: seq<byte>, cuts: seq<nat>,
                     named: map<BlindId, seq<byte>>)
    requires Trace(rs, fs, budgets) && Chunking(source, cuts)
    requires forall f :: f in fs ==> ChunkedFrame(f, key, source, cuts, named)
    requires FileOf(rs[0].files, key) <= source && key !in rs[0].waiting && CacheNamed(rs[0], named)
    requires Resent(key, cuts, fs, 0) + 1 >= |cuts|
    ensures FileOf(rs[|rs| - 1].files, key) == source <==> AtCut(FileOf(rs[0].files, key), cuts)
  {
    hide Next, ChunkedFrame, Waiting, Resent, FileOf;
    if AtCut(FileOf(rs[0].files, key), cuts) {
      var got := StartAt(rs[0], key, source, cuts, named);
      var got' := TraceAt(rs, fs, budgets, |rs| - 1, key, source, cuts, named, got, 0);
      assert fs[..|fs|] == fs;
      CompleteExact(source, cuts, got');
    } else {
      TraceOffCut(rs, fs, budgets, |rs| - 1, key, source, cuts, named);
      LastCut(source, cuts);
    }
  }
}
