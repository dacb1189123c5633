/**
 The dedup cache over runs: what a data frame brought can be referred to for as long as there is room for what came
 since.
 */
module DedupCache {
  import opened Options
  import opened Crc32
  import opened Names
  import opened Segments
  import opened ReceiverModel

  /** Ordered and within its budget, as it always is. */
  ghost predicate CacheSound(c: Cache, budget: nat) {
    CacheOrdered(c.order, c.bytes) && CacheBytes(c.order, c.bytes) <= budget
  }

  lemma StoredSound(c: Cache, id: BlindId, bytes: seq<byte>, budget: nat)
    requires CacheOrdered(c.order, c.bytes)
    ensures CacheSound(Stored(c, id, bytes, budget), budget)
  {
    hide CacheBytes, CacheOrdered, Stored;
    var k := StoredLongest(c, id, bytes, budget);
  }

  // ---------- One store ----------

  /** id is at place pos of the queue, stands for p, and from there on the queue holds at most size bytes. */
  ghost predicate HeldAt(c: Cache, id: BlindId, p: seq<byte>, pos: nat, size: nat) {
    && pos < |c.order| && c.order[pos] == id && id in c.bytes && c.bytes[id] == p
    && CacheBytes(c.order[pos..], c.bytes) <= size
  }

  ghost predicate Held(c: Cache, id: BlindId, p: seq<byte>, size: nat) {
    exists pos: nat :: HeldAt(c, id, p, pos, size)
  }

  /** What storing bytes under another id takes away from the room of id. */
  function Cost(id: BlindId, other: BlindId, bytes: seq<byte>): nat { if other == id then 0 else |bytes| }

  /** Storing one more entry makes the rest of the queue from id on longer by no more than that entry. */
  lemma TailGrows(c: Cache, id: BlindId, p: seq<byte>, pos: nat, size: nat, other: BlindId, bytes: seq<byte>)
    requires CacheOrdered(c.order, c.bytes) && HeldAt(c, id, p, pos, size) && (other == id ==> bytes == p)
    ensures CacheBytes(Arrivals(c, other)[pos..], c.bytes[other := bytes]) <= size + Cost(id, other, bytes)
  {
    var tail, all := c.order[pos..], c.bytes[other := bytes];
    if other == id {
      assert all == c.bytes;
    } else if other !in c.order {
      assert Arrivals(c, other)[pos..] == tail + [other];
      CacheBytesFrame(tail, c.bytes, all);
      CacheBytesAppend(tail, other, all);
    } else if other in tail {
      CacheBytesReplace(tail, c.bytes, other, bytes);
    } else {
      CacheBytesFrame(tail, c.bytes, all);
    }
  }

  /** A part of the queue that fits, with all after it, stays as it is. */
  lemma FittingStays(c: Cache, other: BlindId, bytes: seq<byte>, budget: nat, pos: nat) returns (k: nat)
    requires CacheOrdered(c.order, c.bytes) && pos < |Arrivals(c, other)|
    requires CacheBytes(Arrivals(c, other)[pos..], c.bytes[other := bytes]) <= budget
    ensures k <= pos && Stored(c, other, bytes, budget).order == Arrivals(c, other)[k..]
    ensures HeldAt(Stored(c, other, bytes, budget), Arrivals(c, other)[pos],
                   if Arrivals(c, other)[pos] == other then bytes else c.bytes[Arrivals(c, other)[pos]],
                   pos - k, CacheBytes(Arrivals(c, other)[pos..], c.bytes[other := bytes]))
  {
    hide Stored, CacheBytes;
    k := StoredLongest(c, other, bytes, budget);
    hide Arrivals;
    var s, rest := Stored(c, other, bytes, budget), Arrivals(c, other)[pos..];
    assert k <= pos;
    assert s.order[pos - k..] == rest;
    assert forall i :: i in rest ==> i in s.order;
    CacheBytesFrame(rest, s.bytes, c.bytes[other := bytes]);
  }

  lemma StillHeld(c: Cache, id: BlindId, p: seq<byte>, size: nat, other: BlindId, bytes: seq<byte>, budget: nat)
    requires CacheOrdered(c.order, c.bytes) && Held(c, id, p, size) && (other == id ==> bytes == p)
    requires size + Cost(id, other, bytes) <= budget
    ensures Held(Stored(c, other, bytes, budget), id, p, size + Cost(id, other, bytes))
  {
    hide Stored, CacheBytes, CacheOrdered;
    var pos: nat :| HeldAt(c, id, p, pos, size);
    TailGrows(c, id, p, pos, size, other, bytes);
    var k := FittingStays(c, other, bytes, budget, pos);
    assert HeldAt(Stored(c, other, bytes, budget), id, p, pos - k, size + Cost(id, other, bytes));
  }

  /** A new id comes last: the old queue loses some of its oldest, and the new entry follows the rest. */
  lemma NewComesLast(c: Cache, id: BlindId, bytes: seq<byte>, budget: nat) returns (k: nat)
    requires CacheOrdered(c.order, c.bytes) && id !in c.bytes && |bytes| <= budget
    ensures k <= |c.order| && Stored(c, id, bytes, budget).order == c.order[k..] + [id]
    ensures Held(Stored(c, id, bytes, budget), id, bytes, |bytes|)
  {
    var n := |c.order|;
    assert Arrivals(c, id)[n..] == [id];
    OneEntry(id, bytes, c.bytes[id := bytes]);
    hide Stored, CacheBytes, CacheOrdered;
    k := FittingStays(c, id, bytes, budget, n);
  }

  lemma OneEntry(id: BlindId, bytes: seq<byte>, all: map<BlindId, seq<byte>>)
    requires id in all && all[id] == bytes
    ensures CacheBytes([id], all) == |bytes|
  {
    assert [id][1..] == [];
  }

  /** A known id with the same bytes changes nothing. */
  lemma KnownStays(c: Cache, id: BlindId, budget: nat)
    requires CacheSound(c, budget) && id in c.bytes
    ensures Stored(c, id, c.bytes[id], budget) == c
  {
    assert c.bytes[id := c.bytes[id]] == c.bytes;
  }

  /** A known id keeps its place, whatever its bytes become; some of the oldest may go. */
  lemma KnownKeepsPlace(c: Cache, id: BlindId, bytes: seq<byte>, budget: nat) returns (k: nat)
    requires CacheOrdered(c.order, c.bytes) && id in c.bytes
    ensures k <= |c.order| && Stored(c, id, bytes, budget).order == c.order[k..]
  {
    hide Stored, CacheBytes;
    k := StoredLongest(c, id, bytes, budget);
  }

  /** Both, as the cache's owner sees them. */
  lemma StoreKeeps(c: Cache, id: BlindId, bytes: seq<byte>, budget: nat)
    requires CacheSound(c, budget) && |bytes| <= budget
    ensures var s := Stored(c, id, bytes, budget);
      && (id !in c.bytes || c.bytes[id] == bytes ==> id in s.bytes && s.bytes[id] == bytes)
      && (id !in c.bytes ==> exists k: nat :: k <= |c.order| && s.order == c.order[k..] + [id])
  {
    SoundIs(c, budget);
    hide CacheSound, CacheBytes, Stored;
    if id in c.bytes {
      if c.bytes[id] == bytes { KnownStays(c, id, budget); }
    } else {
      var k := NewComesLast(c, id, bytes, budget);
    }
  }

  lemma SoundIs(c: Cache, budget: nat)
    requires CacheSound(c, budget)
    ensures CacheOrdered(c.order, c.bytes) && CacheBytes(c.order, c.bytes) <= budget
  {}

  // ---------- One frame ----------

  /** The part of a frame that concerns the cache: the id and the bytes it brings. */
  function Brought(f: Frame): Option<(BlindId, seq<byte>)> {
    if f.Data? && f.id.Some? && f.plaintext.Some? then Some((f.id.value, f.plaintext.value)) else None
  }

  /** Only data frames that decrypt and have an id, and a restart, change the cache. */
  lemma CacheAfter(r: Receiver, f: Frame, r': Receiver, budgets: Budgets)
    requires Next(r, f, r', budgets)
    ensures Brought(f).Some? ==> r'.cache == Stored(r.cache, Brought(f).value.0, Brought(f).value.1, budgets.cache)
    ensures f.Restart? ==> r'.cache == Cache([], map[])
    ensures Brought(f).None? && !f.Restart? ==> r'.cache == r.cache
  {
    hide Stored, EntriesStep;
    if f.Batch? { EntriesCache(r, f.key, f.entries, r', budgets.pending); }
  }

  lemma {:induction false} EntriesCache(r: Receiver, key: Key, es: seq<Entry>, r': Receiver, budget: nat)
    requires EntriesStep(r, key, es, r', budget)
    ensures r'.cache == r.cache
    decreases |es|
  {
    if es != [] {
      var front, e := es[..|es| - 1], es[|es| - 1];
      var mid :| EntriesStep(r, key, front, mid, budget) && EntryStep(mid, key, e, r', budget);
      EntriesCache(r, key, front, mid, budget);
    }
  }

  lemma NextSound(r: Receiver, f: Frame, r': Receiver, budgets: Budgets)
    requires Next(r, f, r', budgets) && CacheSound(r.cache, budgets.cache)
    ensures CacheSound(r'.cache, budgets.cache)
  {
    CacheAfter(r, f, r', budgets);
    if Brought(f).Some? { StoredSound(r.cache, Brought(f).value.0, Brought(f).value.1, budgets.cache); }
    hide Next, Stored;
  }

  /** After a data frame its id stands for its bytes, if these fit the budget at all and the id stood for no others. */
  lemma DataIsCached(r: Receiver, key: Key, offset: nat, id: BlindId, p: seq<byte>, r': Receiver, budgets: Budgets)
    requires Next(r, Data(key, offset, Some(id), Some(p)), r', budgets)
    requires CacheSound(r.cache, budgets.cache) && |p| <= budgets.cache
    requires id in r.cache.bytes ==> r.cache.bytes[id] == p
    ensures id in r'.cache.bytes && r'.cache.bytes[id] == p
  {
    CacheAfter(r, Data(key, offset, Some(id), Some(p)), r', budgets);
    hide Next, Stored, CacheSound;
    StoreKeeps(r.cache, id, p, budgets.cache);
  }

  // ---------- Runs ----------

  lemma {:induction false} TraceSound(rs: seq<Receiver>, fs: seq<Frame>, budgets: Budgets, i: nat)
    requires Trace(rs, fs, budgets) && i < |rs| && CacheSound(rs[0].cache, budgets.cache)
    ensures CacheSound(rs[i].cache, budgets.cache)
  {
    hide Next, CacheSound;
    if i > 0 {
      TraceSound(rs, fs, budgets, i - 1);
      NextSound(rs[i - 1], fs[i - 1], rs[i], budgets);
    }
  }

  /** No restart, and whatever comes under this id is p. */
  ghost predicate Steady(f: Frame, id: BlindId, p: seq<byte>) {
    !f.Restart? && (Brought(f).Some? && Brought(f).value.0 == id ==> Brought(f).value.1 == p)
  }

  /** The bytes that the frames from i to j bring under other ids. */
  function Others(fs: seq<Frame>, id: BlindId, i: nat, j: nat): nat
    requires i <= j <= |fs|
    decreases j - i
  {
    if i == j then 0
    else
      Others(fs, id, i, j - 1)
      + match Brought(fs[j - 1]) { case Some((other, bytes)) => Cost(id, other, bytes) case None => 0 }
  }

  lemma {:induction false} RunHolds(rs: seq<Receiver>, fs: seq<Frame>, budgets: Budgets, i: nat, j: nat, id: BlindId,
                                    p: seq<byte>, size: nat)
    requires Trace(rs, fs, budgets) && i <= j < |rs| && CacheSound(rs[0].cache, budgets.cache)
    requires Held(rs[i].cache, id, p, size) && forall t :: i <= t < j ==> Steady(fs[t], id, p)
    requires size + Others(fs, id, i, j) <= budgets.cache
    ensures Held(rs[j].cache, id, p, size + Others(fs, id, i, j))
    decreases j
  {
    hide Next, CacheSound, Held;
    if i < j {
      RunHolds(rs, fs, budgets, i, j - 1, id, p, size);
      TraceSound(rs, fs, budgets, j - 1);
      SoundIs(rs[j - 1].cache, budgets.cache);
      CacheAfter(rs[j - 1], fs[j - 1], rs[j], budgets);
      if Brought(fs[j - 1]).Some? {
        var b := Brought(fs[j - 1]).value;
        StillHeld(rs[j - 1].cache, id, p, size + Others(fs, id, i, j - 1), b.0, b.1, budgets.cache);
      }
    }
  }

  lemma RefPlaces(r: Receiver, key: Key, offset: nat, id: BlindId, p: seq<byte>, size: nat, r': Receiver,
                  budgets: Budgets)
    requires Held(r.cache, id, p, size) && Next(r, Ref(key, offset, Some(id)), r', budgets)
    ensures PlaceStep(r, key, offset, p, r', budgets.pending)
  {
    hide PlaceStep;
  }

  /**
   First in, first out. The id of a data frame, not cached before, can be referred to for as long as the bytes that came
   under other ids since leave room for its own: the reference places exactly the bytes that the data frame brought.
   */
  lemma LateReference(rs: seq<Receiver>, fs: seq<Frame>, budgets: Budgets, i: nat, j: nat, from: Key, at: nat,
                      id: BlindId, p: seq<byte>, to: Key, offset: nat)
    requires Trace(rs, fs, budgets) && CacheSound(rs[0].cache, budgets.cache)
    requires i < j < |fs| && fs[i] == Data(from, at, Some(id), Some(p)) && fs[j] == Ref(to, offset, Some(id))
    requires id !in rs[i].cache.bytes && forall t :: i < t < j ==> Steady(fs[t], id, p)
    requires |p| + Others(fs, id, i + 1, j) <= budgets.cache
    ensures PlaceStep(rs[j], to, offset, p, rs[j + 1], budgets.pending)
  {
    hide Next, CacheSound, Held, PlaceStep, Steady, Others, CacheBytes;
    TraceSound(rs, fs, budgets, i);
    Introduces(rs[i], fs[i], rs[i + 1], budgets, id, p);
    RunHolds(rs, fs, budgets, i + 1, j, id, p, |p|);
    RefPlaces(rs[j], to, offset, id, p, |p| + Others(fs, id, i + 1, j), rs[j + 1], budgets);
  }

  lemma Introduces(r: Receiver, f: Frame, r': Receiver, budgets: Budgets, id: BlindId, p: seq<byte>)
    requires Next(r, f, r', budgets) && CacheSound(r.cache, budgets.cache) && Brought(f) == Some((id, p))
    requires id !in r.cache.bytes && |p| <= budgets.cache
    ensures Held(r'.cache, id, p, |p|)
  {
    hide Next, CacheSound, Held, CacheBytes, Stored;
    SoundIs(r.cache, budgets.cache);
    CacheAfter(r, f, r', budgets);
    var k := NewComesLast(r.cache, id, p, budgets.cache);
  }

  /** With no data frame for another id in between it may have been cached before, at any place in the queue. */
  lemma NextReference(rs: seq<Receiver>, fs: seq<Frame>, budgets: Budgets, i: nat, j: nat, from: Key, at: nat,
                      id: BlindId, p: seq<byte>, to: Key, offset: nat)
    requires Trace(rs, fs, budgets) && CacheSound(rs[0].cache, budgets.cache)
    requires i < j < |fs| && fs[i] == Data(from, at, Some(id), Some(p)) && fs[j] == Ref(to, offset, Some(id))
    requires |p| <= budgets.cache && (id in rs[i].cache.bytes ==> rs[i].cache.bytes[id] == p)
    requires forall t :: i < t < j ==> !fs[t].Restart? && (Brought(fs[t]) == None || Brought(fs[t]) == Some((id, p)))
    ensures PlaceStep(rs[j], to, offset, p, rs[j + 1], budgets.pending)
  {
    hide Next, PlaceStep, CacheSound, Held;
    CachedAtOnce(rs, fs, budgets, i);
    TraceSound(rs, fs, budgets, i + 1);
    CachedHeld(rs[i + 1].cache, id, budgets.cache);
    NoOthers(fs, id, p, i + 1, j);
    RunHolds(rs, fs, budgets, i + 1, j, id, p, budgets.cache);
    RefPlaces(rs[j], to, offset, id, p, budgets.cache, rs[j + 1], budgets);
  }

  lemma CachedHeld(c: Cache, id: BlindId, budget: nat)
    requires CacheSound(c, budget) && id in c.bytes
    ensures Held(c, id, c.bytes[id], budget)
  {
    hide CacheBytes;
    var pos: nat :| pos < |c.order| && c.order[pos] == id;
    TailWithin(c.order, pos, c.bytes);
    assert HeldAt(c, id, c.bytes[id], pos, budget);
  }

  lemma CachedAtOnce(rs: seq<Receiver>, fs: seq<Frame>, budgets: Budgets, i: nat)
    requires Trace(rs, fs, budgets) && CacheSound(rs[0].cache, budgets.cache)
    requires i < |fs| && Brought(fs[i]).Some?
    requires var (id, p) := Brought(fs[i]).value;
      |p| <= budgets.cache && (id in rs[i].cache.bytes ==> rs[i].cache.bytes[id] == p)
    ensures var (id, p) := Brought(fs[i]).value;
      id in rs[i + 1].cache.bytes && rs[i + 1].cache.bytes[id] == p
  {
    var (id, p) := Brought(fs[i]).value;
    hide Next, CacheSound;
    TraceSound(rs, fs, budgets, i);
    DataIsCached(rs[i], fs[i].key, fs[i].offset, id, p, rs[i + 1], budgets);
  }

  lemma {:induction false} TailWithin(order: seq<BlindId>, pos: nat, bytes: map<BlindId, seq<byte>>)
    requires pos <= |order|
    ensures CacheBytes(order[pos..], bytes) <= CacheBytes(order, bytes)
  {
    if pos > 0 {
      assert order[pos..] == order[1..][pos - 1..];
      TailWithin(order[1..], pos - 1, bytes);
    } else {
      assert order[0..] == order;
    }
  }

  lemma {:induction false} NoOthers(fs: seq<Frame>, id: BlindId, p: seq<byte>, i: nat, j: nat)
    requires i <= j <= |fs| && forall t :: i <= t < j ==> Brought(fs[t]) == None || Brought(fs[t]) == Some((id, p))
    ensures Others(fs, id, i, j) == 0
    decreases j
  {
    if i < j { NoOthers(fs, id, p, i, j - 1); }
  }

  /** A first frame and one reference: both segments get the bytes. */
  lemma BothWritten(r: Receiver, a: Key, b: Key, id: BlindId, p: seq<byte>, mid: Receiver, r': Receiver,
                    budgets: Budgets)
    requires r == Receiver(map[], map[], map[], Cache([], map[])) && a != b && p != [] && |p| <= budgets.cache
    requires Next(r, Data(a, 0, Some(id), Some(p)), mid, budgets) && Next(mid, Ref(b, 0, Some(id)), r', budgets)
    ensures FileOf(r'.files, a) == p && FileOf(r'.files, b) == p
  {
    EmptySound(budgets.cache);
    DataIsCached(r, a, 0, id, p, mid, budgets);
    if PathOf(a) == PathOf(b) { RecvPathInjective(a.0, a.1, b.0, b.1); }
    hide PathOf, Stored;
    assert Placed(Buf([], map[]), 0, p) == Buf(p, map[]) by { assert [] + p == p; }
    hide Placed, Enforced;
    assert mid.files == map[PathOf(a) := p];
    assert BufOf(mid, b).file == [];
  }

  // ---------- The order of arrival ----------

  /** Frame t brought this id when it was not cached, and it has been cached ever since, up to state i. */
  ghost predicate Introduced(rs: seq<Receiver>, fs: seq<Frame>, t: nat, i: nat, id: BlindId)
    requires i < |rs| && |rs| == |fs| + 1
  {
    && t < i && Brought(fs[t]).Some? && Brought(fs[t]).value.0 == id && id !in rs[t].cache.bytes
    && forall u :: t < u <= i ==> id in rs[u].cache.bytes
  }

  ghost predicate InOrder(rs: seq<Receiver>, fs: seq<Frame>, at: seq<nat>, i: nat)
    requires i < |rs| && |rs| == |fs| + 1
  {
    && |at| == |rs[i].cache.order|
    && (forall m :: 0 <= m < |at| ==> Introduced(rs, fs, at[m], i, rs[i].cache.order[m]))
    && forall m, n :: 0 <= m < n < |at| ==> at[m] < at[n]
  }

  /** What is left of the queue, and perhaps the id that frame i has just introduced. */
  lemma OrderStep(rs: seq<Receiver>, fs: seq<Frame>, at: seq<nat>, i: nat, k: nat, at': seq<nat>)
    requires |rs| == |fs| + 1 && i < |fs| && InOrder(rs, fs, at, i) && k <= |at|
    requires CacheOrdered(rs[i + 1].cache.order, rs[i + 1].cache.bytes)
    requires || (rs[i + 1].cache.order == rs[i].cache.order[k..] && at' == at[k..])
             || (&& Brought(fs[i]).Some? && Brought(fs[i]).value.0 !in rs[i].cache.bytes && at' == at[k..] + [i]
                 && rs[i + 1].cache.order == rs[i].cache.order[k..] + [Brought(fs[i]).value.0])
    ensures InOrder(rs, fs, at', i + 1)
  {
    var order, order' := rs[i].cache.order, rs[i + 1].cache.order;
    forall m | 0 <= m < |at'| ensures Introduced(rs, fs, at'[m], i + 1, order'[m]) {
      assert order'[m] in order';
      if m < |at| - k { assert at'[m] == at[k + m] && order'[m] == order[k + m]; }
    }
    hide Introduced, CacheOrdered;
    forall m, n | 0 <= m < n < |at'| ensures at'[m] < at'[n] {
      assert at'[m] == at[k + m];
      if n < |at| - k {
        assert at'[n] == at[k + n];
      } else {
        IntroducedBefore(rs, fs, at[k + m], i, order[k + m]);
        assert at'[n] == i;
      }
    }
  }

  lemma IntroducedBefore(rs: seq<Receiver>, fs: seq<Frame>, t: nat, i: nat, id: BlindId)
    requires i < |rs| && |rs| == |fs| + 1 && Introduced(rs, fs, t, i, id)
    ensures t < i
  {}

  /**
   The queue from which the oldest goes first is the order of arrival: over every run its ids stand in the order of the
   frames that introduced them, and each has been cached since.
   */
  lemma {:induction false} OrderOfArrival(rs: seq<Receiver>, fs: seq<Frame>, budgets: Budgets, i: nat)
      returns (at: seq<nat>)
    requires Trace(rs, fs, budgets) && i < |rs| && rs[0].cache == Cache([], map[])
    ensures InOrder(rs, fs, at, i)
  {
    hide Next, InOrder, CacheBytes;
    if i == 0 {
      at := [];
      InOrderNone(rs, fs, 0);
    } else {
      at := OrderOfArrival(rs, fs, budgets, i - 1);
      assert CacheSound(rs[0].cache, budgets.cache) by { EmptySound(budgets.cache); }
      TraceSound(rs, fs, budgets, i - 1);
      TraceSound(rs, fs, budgets, i);
      at := OrderNext(rs, fs, budgets, i - 1, at);
    }
  }

  lemma InOrderNone(rs: seq<Receiver>, fs: seq<Frame>, i: nat)
    requires i < |rs| && |rs| == |fs| + 1 && rs[i].cache.order == []
    ensures InOrder(rs, fs, [], i)
  {}

  lemma EmptySound(budget: nat)
    ensures CacheSound(Cache([], map[]), budget)
  {}

  /** A store takes from the front of the queue, all of it at worst, and puts a new id at the end. */
  lemma StoredOrder(c: Cache, id: BlindId, bytes: seq<byte>, budget: nat) returns (k: nat)
    requires CacheOrdered(c.order, c.bytes)
    ensures k <= |c.order|
    ensures var order := Stored(c, id, bytes, budget).order;
      order == [] || order == c.order[k..] + if id in c.bytes then [] else [id]
  {
    hide Stored, CacheBytes;
    k := StoredLongest(c, id, bytes, budget);
    if k > |c.order| { k := 0; }
  }

  lemma OrderNext(rs: seq<Receiver>, fs: seq<Frame>, budgets: Budgets, i: nat, at: seq<nat>) returns (at': seq<nat>)
    requires |rs| == |fs| + 1 && i < |fs| && Next(rs[i], fs[i], rs[i + 1], budgets) && InOrder(rs, fs, at, i)
    requires CacheSound(rs[i].cache, budgets.cache) && CacheSound(rs[i + 1].cache, budgets.cache)
    ensures InOrder(rs, fs, at', i + 1)
  {
    assert |at| == |rs[i].cache.order|;
    hide Next, Stored, CacheSound, CacheBytes, InOrder, CacheOrdered;
    CacheAfter(rs[i], fs[i], rs[i + 1], budgets);
    SoundIs(rs[i].cache, budgets.cache);
    SoundIs(rs[i + 1].cache, budgets.cache);
    var c, k := rs[i].cache, 0;
    if Brought(fs[i]).Some? {
      k := StoredOrder(c, Brought(fs[i]).value.0, Brought(fs[i]).value.1, budgets.cache);
    }
    if rs[i + 1].cache.order == [] {
      at' := [];
      InOrderNone(rs, fs, i + 1);
    } else {
      at' := at[k..] + if Brought(fs[i]).Some? && Brought(fs[i]).value.0 !in c.bytes then [i] else [];
      OrderStep(rs, fs, at, i, k, at');
    }
  }
}
