/**
 The pending budget over whole runs: the counters never pass it, replaced bytes use it up for good, and exactly
 when a chunk that comes too early can still wait.
 */
module PendingBudget {
  import opened Options
  import opened Crc32
  import opened Segments
  import opened ReceiverModel

  // ---------- Within the budget ----------

  ghost predicate NoneEmpty(w: map<Key, Chunks>) {
    forall k, o :: k in w && o in w[k] ==> w[k][o] != []
  }

  /** The counters fit the budget, and no empty chunk waits. */
  ghost predicate Within(r: Receiver, budget: nat) {
    r.over.Keys == r.waiting.Keys && NoneEmpty(r.waiting) && Load(r.waiting, r.over) <= budget
  }

  lemma {:induction false} DrainPending(b: Buf)
    ensures forall o :: o in Drain(b).pending ==> o in b.pending && Drain(b).pending[o] == b.pending[o]
    decreases |b.pending|
  {
    if b.pending != map[] && MinKey(b.pending) == |b.file| {
      DrainPending(Buf(b.file + b.pending[|b.file|], b.pending - {|b.file|}));
    }
  }

  /** What waits after a placement waited before, or is the chunk itself. */
  lemma PlacedPending(b: Buf, offset: nat, bytes: seq<byte>)
    ensures var p := Placed(b, offset, bytes).pending;
      forall o :: o in p ==> (o in b.pending && p[o] == b.pending[o]) || (o == offset && p[o] == bytes != [])
  {
    if bytes != [] && offset == |b.file| { DrainPending(Buf(b.file + bytes, b.pending)); }
  }

  lemma ReplacedBound(r: Receiver, key: Key, offset: nat, bytes: seq<byte>)
    ensures Replaced(BufOf(r, key), offset, bytes) <= Sum(TotalsOf(r.waiting))
  {
    hide Sum;
    if key in r.waiting && offset in r.waiting[key] {
      TotalRemove(r.waiting[key], offset);
      SumRemove(TotalsOf(r.waiting), key);
    }
  }

  lemma OverGrows(over: map<Key, nat>, key: Key, more: nat)
    ensures Sum(over[key := OverAt(over, key) + more]) == Sum(over) + more
  {
    SumUpdate(over, key, OverAt(over, key) + more);
  }

  lemma IdleLoad(w: map<Key, Chunks>, over: map<Key, nat>)
    requires Idle(w)
    ensures Load(w, over) == Sum(over)
  {
    SumZero(TotalsOf(w));
  }

  lemma PlaceOver(r: Receiver, key: Key, offset: nat, bytes: seq<byte>, r': Receiver, budget: nat)
    requires PlaceStep(r, key, offset, bytes, r', budget)
    ensures Sum(r'.over) == Sum(r.over) + Replaced(BufOf(r, key), offset, bytes)
    ensures r'.over.Keys == r.over.Keys + {key} && r'.waiting.Keys == r.waiting.Keys + {key}
  {
    hide Placed, Sum, Enforced, Replaced;
    OverGrows(r.over, key, Replaced(BufOf(r, key), offset, bytes));
    var p := r.waiting[key := Placed(BufOf(r, key), offset, bytes).pending];
    var cut := EnforcedShed(p, r'.over, r'.waiting, budget);
  }

  lemma PlaceNoneEmpty(r: Receiver, key: Key, offset: nat, bytes: seq<byte>, r': Receiver, budget: nat)
    requires PlaceStep(r, key, offset, bytes, r', budget) && NoneEmpty(r.waiting)
    ensures NoneEmpty(r'.waiting)
  {
    hide Placed, Enforced;
    PlacedPending(BufOf(r, key), offset, bytes);
    var p := r.waiting[key := Placed(BufOf(r, key), offset, bytes).pending];
    var cut := EnforcedShed(p, r'.over, r'.waiting, budget);
    forall k, o | k in r'.waiting && o in r'.waiting[k] ensures r'.waiting[k][o] != [] {
      assert Trimmed(p[k], r'.waiting[k], cut);
    }
  }

  /**
   A placement keeps the counters within the budget: what it replaces was counted already, so replaced bytes alone
   never pass it, and eviction can always get below it.
   */
  lemma PlaceWithin(r: Receiver, key: Key, offset: nat, bytes: seq<byte>, r': Receiver, budget: nat)
    requires PlaceStep(r, key, offset, bytes, r', budget) && Within(r, budget)
    ensures Within(r', budget)
  {
    PlaceOver(r, key, offset, bytes, r', budget);
    PlaceNoneEmpty(r, key, offset, bytes, r', budget);
    ReplacedBound(r, key, offset, bytes);
    EnforcedEnds(r.waiting[key := Placed(BufOf(r, key), offset, bytes).pending], r'.over, r'.waiting, budget);
    hide Placed, Sum, Idle, NoneEmpty, TotalsOf, Enforced;
    if Idle(r'.waiting) { IdleLoad(r'.waiting, r'.over); }
  }

  lemma EnforcedEnds(p: map<Key, Chunks>, over: map<Key, nat>, q: map<Key, Chunks>, budget: nat)
    requires Enforced(p, over, q, budget)
    ensures Load(q, over) <= budget || Idle(q)
  {
    hide Shed, Needed, Load;
  }

  lemma {:induction false} EntriesWithin(r: Receiver, key: Key, es: seq<Entry>, r': Receiver, budget: nat)
    requires EntriesStep(r, key, es, r', budget) && Within(r, budget)
    ensures Within(r', budget)
    decreases |es|
  {
    hide PlaceStep, Within;
    if es != [] {
      var front, e := es[..|es| - 1], es[|es| - 1];
      var mid :| EntriesStep(r, key, front, mid, budget) && EntryStep(mid, key, e, r', budget);
      EntriesWithin(r, key, front, mid, budget);
      if e.plaintext.Some? { PlaceWithin(mid, key, e.offset, e.plaintext.value, r', budget); }
    }
  }

  lemma ForgetWithin(r: Receiver, key: Key, budget: nat)
    requires Within(r, budget)
    ensures Within(r.(waiting := r.waiting - {key}, over := r.over - {key}), budget)
  {
    hide Sum;
    if key in r.waiting {
      SumRemove(r.over, key);
      SumRemove(TotalsOf(r.waiting), key);
      assert TotalsOf(r.waiting - {key}) == TotalsOf(r.waiting) - {key};
    } else {
      assert r.waiting - {key} == r.waiting && r.over - {key} == r.over;
    }
  }

  lemma EmptyWithin(files: map<string, seq<byte>>, cache: Cache, budget: nat)
    ensures Within(Receiver(files, map[], map[], cache), budget)
  {
    IdleLoad(map[], map[]);
  }

  lemma NextWithin(r: Receiver, f: Frame, r': Receiver, budgets: Budgets)
    requires Next(r, f, r', budgets) && Within(r, budgets.pending)
    ensures Within(r', budgets.pending)
  {
    hide PlaceStep, Cached, Load, NoneEmpty;
    match f {
      case Data(key, offset, id, Some(p)) =>
        PlaceWithin(r.(cache := Cached(r.cache, f, budgets.cache)), key, offset, p, r', budgets.pending);
      case Ref(key, offset, id) =>
        if id.Some? && id.value in r.cache.bytes {
          PlaceWithin(r, key, offset, r.cache.bytes[id.value], r', budgets.pending);
        }
      case Batch(key, entries) => EntriesWithin(r, key, entries, r', budgets.pending);
      case Forget(key) => ForgetWithin(r, key, budgets.pending);
      case Restart => EmptyWithin(r'.files, r'.cache, budgets.pending);
      case _ =>
    }
  }

  /** Over every run, whatever arrives, the counters stay within the budget, and so does all that really waits. */
  lemma {:induction false} TraceWithin(rs: seq<Receiver>, fs: seq<Frame>, budgets: Budgets, i: nat)
    requires Trace(rs, fs, budgets) && Within(rs[0], budgets.pending) && i < |rs|
    ensures Within(rs[i], budgets.pending)
    ensures Sum(TotalsOf(rs[i].waiting)) + Sum(rs[i].over) <= budgets.pending
  {
    hide Next;
    if i > 0 {
      TraceWithin(rs, fs, budgets, i - 1);
      NextWithin(rs[i - 1], fs[i - 1], rs[i], budgets);
    }
  }

  // ---------- Room for an early chunk ----------

  lemma EarlyPlaced(r: Receiver, key: Key, offset: nat, bytes: seq<byte>)
    requires Idle(r.waiting) && bytes != [] && offset > |FileOf(r.files, key)|
    ensures Placed(BufOf(r, key), offset, bytes) == Buf(FileOf(r.files, key), map[offset := bytes])
    ensures Replaced(BufOf(r, key), offset, bytes) == 0
    ensures Sum(TotalsOf(r.waiting[key := map[offset := bytes]])) == |bytes|
  {
    var one: Chunks := map[offset := bytes];
    assert BufOf(r, key).pending == map[];
    assert TotalsOf(r.waiting[key := one]) == TotalsOf(r.waiting)[key := Total(one)];
    TotalRemove(one, offset);
    assert one - {offset} == map[];
    SumUpdate(TotalsOf(r.waiting), key, Total(one));
    SumZero(TotalsOf(r.waiting) - {key});
  }

  lemma OnlyChunkShed(p: map<Key, Chunks>, q: map<Key, Chunks>, cut: nat, key: Key, offset: nat)
    requires Shed(p, q, cut) && key in p && p[key].Keys == {offset}
    requires forall k :: k in p && k != key ==> p[k] == map[]
    ensures q == p || Idle(q)
  {
    forall k | k in p ensures forall o :: o in q[k] ==> o in p[k] && q[k][o] == p[k][o] {
      assert Trimmed(p[k], q[k], cut);
    }
    if offset in q[key] {
      forall k | k in p ensures q[k] == p[k] {}
    }
  }

  /** A chunk that comes too early, while nothing else waits, stays if and only if it fits beside the replaced bytes. */
  lemma EarlyStays(r: Receiver, key: Key, offset: nat, bytes: seq<byte>, r': Receiver, budget: nat)
    requires PlaceStep(r, key, offset, bytes, r', budget)
    requires Idle(r.waiting) && bytes != [] && offset > |FileOf(r.files, key)|
    ensures key in r'.waiting && Sum(r'.over) == Sum(r.over)
    ensures r'.waiting[key] == map[offset := bytes] <==> Sum(r.over) + |bytes| <= budget
    ensures Sum(r.over) + |bytes| > budget ==> Idle(r'.waiting)
  {
    hide Sum, Placed, Replaced, TotalsOf, PathOf, FileOf, OverAt, Enforced, Idle;
    PlaceOver(r, key, offset, bytes, r', budget);
    EarlyPlaced(r, key, offset, bytes);
    var p := r.waiting[key := map[offset := bytes]];
    assert Enforced(p, r'.over, r'.waiting, budget);
    IdleBut(r.waiting, key, map[offset := bytes], p);
    EarlyEnforced(p, r'.over, r'.waiting, budget, key, offset);
    if Idle(r'.waiting) { IdleAt(r'.waiting, key); }
  }

  lemma IdleBut(w: map<Key, Chunks>, key: Key, m: Chunks, p: map<Key, Chunks>)
    requires Idle(w) && p == w[key := m]
    ensures forall k :: k in p && k != key ==> p[k] == map[]
  {}

  lemma IdleAt(w: map<Key, Chunks>, key: Key)
    requires Idle(w) && key in w
    ensures w[key] == map[]
  {}

  lemma EarlyEnforced(p: map<Key, Chunks>, over: map<Key, nat>, q: map<Key, Chunks>, budget: nat, key: Key, offset: nat)
    requires Enforced(p, over, q, budget) && key in p && p[key].Keys == {offset}
    requires forall k :: k in p && k != key ==> p[k] == map[]
    ensures Load(p, over) <= budget ==> q == p
    ensures Load(p, over) > budget ==> Idle(q) && key in q
  {
    hide Shed, Needed, Load;
    var cut: nat :| EnforcedTo(p, over, q, budget, cut);
    OnlyChunkShed(p, q, cut, key, offset);
    SameKeys(p, q, cut);
    assert p[key] != map[];
  }

  lemma SameKeys(p: map<Key, Chunks>, q: map<Key, Chunks>, cut: nat)
    requires Shed(p, q, cut)
    ensures q.Keys == p.Keys
  {}

  // ---------- Replaced bytes use the budget up ----------

  /** The receiver after i deliveries of one early chunk, when n of its size fit beside what is replaced already. */
  function Redelivered(r: Receiver, key: Key, offset: nat, bytes: seq<byte>, n: nat, i: nat): Receiver {
    if i == 0 then r
    else
      Receiver(r.files[PathOf(key) := FileOf(r.files, key)],
               r.waiting[key := if i <= n then map[offset := bytes] else map[]],
               r.over[key := OverAt(r.over, key) + (if i <= n then i - 1 else n) * |bytes|],
               r.cache)
  }

  lemma EnforcedSame(p: map<Key, Chunks>, over: map<Key, nat>, budget: nat)
    requires Load(p, over) <= budget
    ensures Enforced(p, over, p, budget)
  {
    hide Load, Needed;
    assert EnforcedTo(p, over, p, budget, 0);
  }

  lemma EnforcedOne(w: map<Key, Chunks>, over: map<Key, nat>, budget: nat, key: Key, offset: nat, bytes: seq<byte>)
    requires Idle(w) && bytes != []
    requires Sum(over) <= budget < Sum(over) + |bytes|
    ensures Enforced(w[key := map[offset := bytes]], over, w[key := map[]], budget)
  {
    var p, q := w[key := map[offset := bytes]], w[key := map[]];
    OneLoad(w, over, key, offset, bytes);
    IdleLoad(q, over);
    hide Load;
    assert Needed(p, q, over, budget, offset) by { assert offset in p[key] && offset !in q[key]; }
    assert EnforcedTo(p, over, q, budget, offset);
  }

  lemma OneLoad(w: map<Key, Chunks>, over: map<Key, nat>, key: Key, offset: nat, bytes: seq<byte>)
    requires Idle(w)
    ensures Load(w[key := map[offset := bytes]], over) == |bytes| + Sum(over)
  {
    var one: Chunks := map[offset := bytes];
    assert TotalsOf(w[key := one]) == TotalsOf(w)[key := Total(one)];
    TotalRemove(one, offset);
    assert one - {offset} == map[];
    SumUpdate(TotalsOf(w), key, Total(one));
    SumZero(TotalsOf(w) - {key});
  }

  lemma MoreThanFits(i: nat, n: nat, size: nat, room: nat)
    requires size > 0 && n == room / size
    ensures i <= n <==> i * size <= room
    ensures room < n * size + size
  {
    if i <= n { assert i * size <= n * size; } else { assert (n + 1) * size <= i * size; }
  }

  lemma Scaled(k: nat, size: nat)
    ensures k > 0 ==> (k - 1) * size + size == k * size
  {}

  /** The budget's verdict on the i-th repetition. */
  lemma RedeliveryEnforced(r: Receiver, key: Key, offset: nat, bytes: seq<byte>, n: nat, i: nat, budget: nat)
    requires Idle(r.waiting) && Sum(r.over) <= budget && bytes != [] && n == (budget - Sum(r.over)) / |bytes|
    ensures var over := r.over[key := OverAt(r.over, key) + (if i < n then i else n) * |bytes|];
      Enforced(r.waiting[key := map[offset := bytes]], over,
               r.waiting[key := if i < n then map[offset := bytes] else map[]], budget)
  {
    var k := if i < n then i else n;
    var over := r.over[key := OverAt(r.over, key) + k * |bytes|];
    OverGrows(r.over, key, k * |bytes|);
    OneLoad(r.waiting, over, key, offset, bytes);
    MoreThanFits(i + 1, n, |bytes|, budget - Sum(r.over));
    MoreThanFits(n, n, |bytes|, budget - Sum(r.over));
    Scaled(i + 1, |bytes|);
    hide Sum, Load, Enforced, TotalsOf;
    if i < n {
      EnforcedSame(r.waiting[key := map[offset := bytes]], over, budget);
    } else {
      EnforcedOne(r.waiting, over, budget, key, offset, bytes);
    }
  }

  lemma RedeliveryPlaced(r: Receiver, key: Key, offset: nat, bytes: seq<byte>, n: nat, i: nat)
    requires Idle(r.waiting) && bytes != [] && offset > |FileOf(r.files, key)|
    ensures var before := Redelivered(r, key, offset, bytes, n, i);
      && Placed(BufOf(before, key), offset, bytes) == Buf(FileOf(r.files, key), map[offset := bytes])
      && Replaced(BufOf(before, key), offset, bytes) == (if 0 < i <= n then |bytes| else 0)
      && before.files[PathOf(key) := FileOf(r.files, key)] == r.files[PathOf(key) := FileOf(r.files, key)]
      && before.waiting[key := map[offset := bytes]] == r.waiting[key := map[offset := bytes]]
  {
    hide PathOf;
    var before := Redelivered(r, key, offset, bytes, n, i);
    var pending: Chunks := if 0 < i <= n then map[offset := bytes] else map[];
    assert BufOf(before, key) == Buf(FileOf(r.files, key), pending);
    assert pending[offset := bytes] == map[offset := bytes];
  }

  lemma RedeliveryOver(r: Receiver, key: Key, offset: nat, bytes: seq<byte>, n: nat, i: nat)
    ensures var over := Redelivered(r, key, offset, bytes, n, i).over;
      over[key := OverAt(over, key) + (if 0 < i <= n then |bytes| else 0)]
        == r.over[key := OverAt(r.over, key) + (if i < n then i else n) * |bytes|]
  {
    Scaled(i, |bytes|);
  }

  /** One more delivery of the same chunk: it takes its own place, and what it replaced stays counted. */
  lemma RedeliveryStep(r: Receiver, key: Key, offset: nat, bytes: seq<byte>, n: nat, i: nat, budget: nat)
    requires Idle(r.waiting) && Sum(r.over) <= budget
    requires bytes != [] && offset > |FileOf(r.files, key)| && n == (budget - Sum(r.over)) / |bytes|
    ensures PlaceStep(Redelivered(r, key, offset, bytes, n, i), key, offset, bytes,
                      Redelivered(r, key, offset, bytes, n, i + 1), budget)
  {
    RedeliveryPlaced(r, key, offset, bytes, n, i);
    RedeliveryOver(r, key, offset, bytes, n, i);
    hide Placed, Replaced, FileOf, PathOf, OverAt, BufOf;
    RedeliveryEnforced(r, key, offset, bytes, n, i, budget);
    hide Sum, Load, Enforced, TotalsOf, Idle;
  }

  /**
   A run of one early chunk delivered m times, nothing else waiting: the first n times it waits, n being how often
   its size fits beside the bytes replaced before; from then on it is evicted at once, and n times its size stays
   counted although nothing waits.
   */
  lemma Redelivery(r: Receiver, key: Key, offset: nat, bytes: seq<byte>, n: nat, m: nat, budgets: Budgets)
      returns (rs: seq<Receiver>, fs: seq<Frame>)
    requires Idle(r.waiting) && Sum(r.over) <= budgets.pending
    requires bytes != [] && offset > |FileOf(r.files, key)| && n == (budgets.pending - Sum(r.over)) / |bytes|
    ensures Trace(rs, fs, budgets) && |fs| == m && rs[0] == r
    ensures forall f :: f in fs ==> f == Data(key, offset, None, Some(bytes))
    ensures forall i :: 0 < i <= m ==>
              key in rs[i].waiting && rs[i].waiting[key] == (if i <= n then map[offset := bytes] else map[])
    ensures m > n ==> Idle(rs[m].waiting) && Sum(rs[m].over) == Sum(r.over) + n * |bytes|
  {
    hide Sum, Next, FileOf, PathOf, OverAt, Redelivered, Idle;
    rs := seq(m + 1, i requires 0 <= i => Redelivered(r, key, offset, bytes, n, i));
    fs := seq(m, i => Data(key, offset, None, Some(bytes)));
    forall i | 0 <= i < m ensures Next(rs[i], fs[i], rs[i + 1], budgets) {
      RedeliveryNext(r, key, offset, bytes, n, i, budgets);
    }
    forall i | 0 <= i <= m
      ensures i > 0 ==> key in rs[i].waiting
      ensures i > 0 ==> rs[i].waiting[key] == if i <= n then map[offset := bytes] else map[]
    {
      RedeliveredState(r, key, offset, bytes, n, i);
    }
    RedeliveredState(r, key, offset, bytes, n, 0);
    RedeliveredState(r, key, offset, bytes, n, m);
  }

  lemma RedeliveredState(r: Receiver, key: Key, offset: nat, bytes: seq<byte>, n: nat, i: nat)
    requires Idle(r.waiting)
    ensures var q := Redelivered(r, key, offset, bytes, n, i);
      && (i == 0 ==> q == r)
      && (i > 0 ==> key in q.waiting && q.waiting[key] == if i <= n then map[offset := bytes] else map[])
      && (i > n ==> Idle(q.waiting) && Sum(q.over) == Sum(r.over) + n * |bytes|)
  {
    OverGrows(r.over, key, n * |bytes|);
  }

  lemma RedeliveryNext(r: Receiver, key: Key, offset: nat, bytes: seq<byte>, n: nat, i: nat, budgets: Budgets)
    requires Idle(r.waiting) && Sum(r.over) <= budgets.pending
    requires bytes != [] && offset > |FileOf(r.files, key)| && n == (budgets.pending - Sum(r.over)) / |bytes|
    ensures Next(Redelivered(r, key, offset, bytes, n, i), Data(key, offset, None, Some(bytes)),
                 Redelivered(r, key, offset, bytes, n, i + 1), budgets)
  {
    RedeliveryStep(r, key, offset, bytes, n, i, budgets.pending);
    hide Sum, PlaceStep, FileOf, PathOf, OverAt, Redelivered;
    var before, f := Redelivered(r, key, offset, bytes, n, i), Data(key, offset, None, Some(bytes));
    assert before.(cache := Cached(before.cache, f, budgets.cache)) == before;
  }

  /**
   A concrete such run: at an empty receiver with the 256 MiB budget, one chunk of 64 KiB that comes early, 4097 times.
   The budget is then used up by replaced bytes to the last one.
   */
  lemma OneChunkExhausts(key: Key, bytes: seq<byte>, budgets: Budgets) returns (rs: seq<Receiver>, fs: seq<Frame>)
    requires |bytes| == 64 * 1024 && budgets.pending == 256 * 1024 * 1024
    ensures Trace(rs, fs, budgets) && |fs| == 4097 && rs[0] == Receiver(map[], map[], map[], Cache([], map[]))
    ensures forall f :: f in fs ==> f == Data(key, 1, None, Some(bytes))
    ensures Within(rs[4097], budgets.pending) && Idle(rs[4097].waiting) && Sum(rs[4097].over) == budgets.pending
  {
    var r := Receiver(map[], map[], map[], Cache([], map[]));
    IdleLoad(map[], map[]);
    EmptyWithin(map[], r.cache, budgets.pending);
    hide Trace, Sum, Within;
    rs, fs := Redelivery(r, key, 1, bytes, 4096, 4097, budgets);
    TraceWithin(rs, fs, budgets, 4097);
  }

  lemma WaitingCounts(w: map<Key, Chunks>, k: Key, o: nat)
    requires k in w && o in w[k]
    ensures |w[k][o]| <= Sum(TotalsOf(w))
  {
    SumRemove(TotalsOf(w), k);
    TotalRemove(w[k], o);
  }

  /** When the counters hold as many replaced bytes as the budget, nothing waits. */
  lemma FullIsIdle(r: Receiver, budget: nat)
    requires Within(r, budget) && Sum(r.over) == budget
    ensures Idle(r.waiting)
  {
    hide Sum, TotalsOf;
    forall k | k in r.waiting ensures r.waiting[k] == map[] {
      if r.waiting[k] != map[] {
        var o :| o in r.waiting[k];
        WaitingCounts(r.waiting, k, o);
      }
    }
  }

  lemma {:induction false} EntriesOver(r: Receiver, key: Key, es: seq<Entry>, r': Receiver, budget: nat)
    requires EntriesStep(r, key, es, r', budget)
    ensures Sum(r.over) <= Sum(r'.over)
    decreases |es|
  {
    hide PlaceStep, Sum;
    if es != [] {
      var front, e := es[..|es| - 1], es[|es| - 1];
      var mid :| EntriesStep(r, key, front, mid, budget) && EntryStep(mid, key, e, r', budget);
      EntriesOver(r, key, front, mid, budget);
      if e.plaintext.Some? { PlaceOver(mid, key, e.offset, e.plaintext.value, r', budget); }
    }
  }

  lemma NextOver(r: Receiver, f: Frame, r': Receiver, budgets: Budgets)
    requires Next(r, f, r', budgets) && !f.Forget? && !f.Restart?
    ensures Sum(r.over) <= Sum(r'.over)
  {
    hide PlaceStep, Cached, Sum;
    match f {
      case Data(key, offset, id, Some(p)) =>
        PlaceOver(r.(cache := Cached(r.cache, f, budgets.cache)), key, offset, p, r', budgets.pending);
      case Ref(key, offset, id) =>
        if id.Some? && id.value in r.cache.bytes {
          PlaceOver(r, key, offset, r.cache.bytes[id.value], r', budgets.pending);
        }
      case Batch(key, entries) => EntriesOver(r, key, entries, r', budgets.pending);
      case _ =>
    }
  }

  /**
   Once replaced bytes have used the budget up, no chunk waits after any frame, until a buffer is dropped or the
   receiver restarts.
   */
  lemma {:induction false} StarvedForGood(rs: seq<Receiver>, fs: seq<Frame>, budgets: Budgets, i: nat)
    requires Trace(rs, fs, budgets) && Within(rs[0], budgets.pending) && i < |rs|
    requires Sum(rs[0].over) == budgets.pending
    requires forall f :: f in fs ==> !f.Forget? && !f.Restart?
    ensures Sum(rs[i].over) == budgets.pending && Idle(rs[i].waiting)
  {
    hide Next, Idle, Sum;
    TraceWithin(rs, fs, budgets, i);
    if i > 0 {
      StarvedForGood(rs, fs, budgets, i - 1);
      assert fs[i - 1] in fs;
      NextOver(rs[i - 1], fs[i - 1], rs[i], budgets);
    }
    FullIsIdle(rs[i], budgets.pending);
  }
}
