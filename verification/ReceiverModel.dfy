/** The receiver's two bounded memories and its steps, on values. */
module ReceiverModel {
  import opened Options
  import opened Crc32
  import opened Segments
  import opened Delivery
  import opened Names

  /** (device, segment number). */
  type Key = (nat, nat)

  type BlindId = seq<byte>

  function PathOf(key: Key): string { RecvPath(key.0, key.1) }

  // ---------- Sums over segments ----------

  ghost function Sum(m: map<Key, nat>): nat
    decreases |m|
  {
    if m == map[] then 0
    else
      var k :| k in m;
      m[k] + Sum(m - {k})
  }

  lemma {:induction false} SumRemove(m: map<Key, nat>, k: Key)
    requires k in m
    ensures Sum(m) == m[k] + Sum(m - {k})
    decreases |m|
  {
    var c :| c in m && Sum(m) == m[c] + Sum(m - {c});
    if c != k {
      SumRemove(m - {c}, k);
      SumRemove(m - {k}, c);
      assert m - {c} - {k} == m - {k} - {c};
    }
  }

  lemma SumUpdate(m: map<Key, nat>, k: Key, v: nat)
    ensures Sum(m[k := v]) == v + Sum(m - {k})
    ensures k in m ==> Sum(m[k := v]) + m[k] == Sum(m) + v
    ensures k !in m ==> Sum(m[k := v]) == Sum(m) + v
  {
    SumRemove(m[k := v], k);
    assert m[k := v] - {k} == m - {k};
    if k in m { SumRemove(m, k); } else { assert m - {k} == m; }
  }

  lemma {:induction false} SumMonotone(m: map<Key, nat>, n: map<Key, nat>)
    requires m.Keys == n.Keys && forall k :: k in m ==> m[k] <= n[k]
    ensures Sum(m) <= Sum(n)
    decreases |m|
  {
    if m != map[] {
      var k :| k in m;
      SumRemove(m, k);
      SumRemove(n, k);
      SumMonotone(m - {k}, n - {k});
    } else {
      assert n == map[];
    }
  }

  lemma {:induction false} SumZero(m: map<Key, nat>)
    requires forall k :: k in m ==> m[k] == 0
    ensures Sum(m) == 0
    decreases |m|
  {
    if m != map[] {
      var k :| k in m;
      SumRemove(m, k);
      SumZero(m - {k});
    }
  }

  lemma {:induction false} SumAdd(m: map<Key, nat>, n: map<Key, nat>, t: map<Key, nat>)
    requires m.Keys == n.Keys == t.Keys && forall k :: k in t ==> t[k] == m[k] + n[k]
    ensures Sum(t) == Sum(m) + Sum(n)
    decreases |t|
  {
    if t != map[] {
      var k :| k in t;
      SumRemove(t, k);
      SumRemove(m, k);
      SumRemove(n, k);
      SumAdd(m - {k}, n - {k}, t - {k});
    } else {
      assert m == map[] && n == map[];
    }
  }

  // ---------- Dedup cache ----------

  function CacheBytes(order: seq<BlindId>, cache: map<BlindId, seq<byte>>): nat {
    if order == [] then 0
    else (if order[0] in cache then |cache[order[0]]| else 0) + CacheBytes(order[1..], cache)
  }

  ghost predicate CacheOrdered(order: seq<BlindId>, cache: map<BlindId, seq<byte>>) {
    && (forall id :: id in cache <==> id in order)
    && (forall i, j :: 0 <= i < j < |order| ==> order[i] != order[j])
  }

  /** How many of the oldest entries have to go for the rest to fit. */
  function Excess(order: seq<BlindId>, cache: map<BlindId, seq<byte>>, budget: nat): (k: nat)
    ensures k <= |order|
  {
    if CacheBytes(order, cache) <= budget then 0
    else 1 + Excess(order[1..], cache, budget)
  }

  /** The survivors are the longest tail of the arrival order that fits. */
  lemma {:induction false} ExcessLongest(order: seq<BlindId>, cache: map<BlindId, seq<byte>>, budget: nat)
    ensures CacheBytes(order[Excess(order, cache, budget)..], cache) <= budget
    ensures forall k :: 0 <= k < Excess(order, cache, budget) ==> CacheBytes(order[k..], cache) > budget
  {
    if CacheBytes(order, cache) > budget {
      var n := Excess(order, cache, budget);
      ExcessLongest(order[1..], cache, budget);
      assert order[1..][n - 1..] == order[n..];
      forall k | 0 <= k < n ensures CacheBytes(order[k..], cache) > budget {
        if k == 0 { assert order[0..] == order; } else { assert order[k..] == order[1..][k - 1..]; }
      }
    } else {
      assert order[0..] == order;
    }
  }

  lemma {:induction false} CacheBytesAppend(order: seq<BlindId>, id: BlindId, cache: map<BlindId, seq<byte>>)
    ensures CacheBytes(order + [id], cache)
         == CacheBytes(order, cache) + if id in cache then |cache[id]| else 0
  {
    if order == [] {
      assert order + [id] == [id];
    } else {
      assert (order + [id])[1..] == order[1..] + [id];
      CacheBytesAppend(order[1..], id, cache);
    }
  }

  /** Only the entries named in order matter. */
  lemma {:induction false} CacheBytesFrame(order: seq<BlindId>, c: map<BlindId, seq<byte>>, d: map<BlindId, seq<byte>>)
    requires forall id :: id in order ==> (id in c <==> id in d) && (id in c ==> c[id] == d[id])
    ensures CacheBytes(order, c) == CacheBytes(order, d)
  {
    if order != [] { CacheBytesFrame(order[1..], c, d); }
  }

  /** Replacing the bytes of one cached id. */
  lemma {:induction false} CacheBytesReplace(order: seq<BlindId>, cache: map<BlindId, seq<byte>>,
                                             id: BlindId, bytes: seq<byte>)
    requires forall i, j :: 0 <= i < j < |order| ==> order[i] != order[j]
    requires id in order && id in cache
    ensures CacheBytes(order, cache[id := bytes]) + |cache[id]| == CacheBytes(order, cache) + |bytes|
  {
    if order[0] == id {
      CacheBytesFrame(order[1..], cache, cache[id := bytes]);
    } else {
      CacheBytesReplace(order[1..], cache, id, bytes);
    }
  }

  datatype Cache = Cache(order: seq<BlindId>, bytes: map<BlindId, seq<byte>>)

  /** The cache with id bound to bytes: a known id keeps its place in the arrival order. */
  function Bound(c: Cache, id: BlindId, bytes: seq<byte>): Cache {
    Cache(if id in c.bytes then c.order else c.order + [id], c.bytes[id := bytes])
  }

  /** Let the oldest entry go until the rest fits. */
  function Trim(c: Cache, budget: nat): Cache
    decreases |c.order|
  {
    if CacheBytes(c.order, c.bytes) <= budget then c
    else Trim(Cache(c.order[1..], c.bytes - {c.order[0]}), budget)
  }

  function Stored(c: Cache, id: BlindId, bytes: seq<byte>, budget: nat): Cache {
    Trim(Bound(c, id, bytes), budget)
  }

  lemma BoundOrdered(c: Cache, id: BlindId, bytes: seq<byte>)
    requires CacheOrdered(c.order, c.bytes)
    ensures CacheOrdered(Bound(c, id, bytes).order, Bound(c, id, bytes).bytes)
    ensures CacheBytes(Bound(c, id, bytes).order, Bound(c, id, bytes).bytes)
         == CacheBytes(c.order, c.bytes) + |bytes| - if id in c.bytes then |c.bytes[id]| else 0
  {
    if id in c.bytes {
      CacheBytesReplace(c.order, c.bytes, id, bytes);
    } else {
      CacheBytesFrame(c.order, c.bytes, c.bytes[id := bytes]);
      CacheBytesAppend(c.order, id, c.bytes[id := bytes]);
    }
  }

  lemma DropOldest(c: Cache)
    requires CacheOrdered(c.order, c.bytes) && c.order != []
    ensures c.order[0] in c.bytes
    ensures CacheOrdered(c.order[1..], c.bytes - {c.order[0]})
    ensures CacheBytes(c.order, c.bytes) == |c.bytes[c.order[0]]| + CacheBytes(c.order[1..], c.bytes - {c.order[0]})
  {
    assert c.order == [c.order[0]] + c.order[1..];
    CacheBytesFrame(c.order[1..], c.bytes, c.bytes - {c.order[0]});
  }

  function Kept(all: map<BlindId, seq<byte>>, order: seq<BlindId>): map<BlindId, seq<byte>> {
    map i | i in all && i in order :: all[i]
  }

  lemma {:induction false} TrimIsTail(c: Cache, budget: nat)
    requires CacheOrdered(c.order, c.bytes)
    ensures var k := Excess(c.order, c.bytes, budget);
      Trim(c, budget) == Cache(c.order[k..], Kept(c.bytes, c.order[k..]))
    decreases |c.order|
  {
    var k := Excess(c.order, c.bytes, budget);
    if k == 0 {
      assert c.order[0..] == c.order;
      assert Kept(c.bytes, c.order) == c.bytes;
    } else {
      DropOldest(c);
      var rest := Cache(c.order[1..], c.bytes - {c.order[0]});
      TrimIsTail(rest, budget);
      ExcessFrame(c.order[1..], c.bytes, rest.bytes, budget);
      hide CacheBytes, CacheOrdered, Kept;
      assert c.order[1..][k - 1..] == c.order[k..];
      KeptTail(c, k);
    }
  }

  /** What a cache holds, in the order of arrival: a known id keeps its place, a new one comes last. */
  function Arrivals(c: Cache, id: BlindId): seq<BlindId> { if id in c.order then c.order else c.order + [id] }

  /**
   After a store exactly the longest tail of the arrivals that fits the budget is left: the oldest are gone, only as
   many as needed, the id has the new bytes if it is among the rest, and no other has changed.
   */
  lemma StoredLongest(c: Cache, id: BlindId, bytes: seq<byte>, budget: nat) returns (k: nat)
    requires CacheOrdered(c.order, c.bytes)
    ensures var s := Stored(c, id, bytes, budget);
      && k <= |Arrivals(c, id)| && s.order == Arrivals(c, id)[k..] && CacheOrdered(s.order, s.bytes)
      && (forall i :: i in s.bytes ==>
            if i == id then s.bytes[i] == bytes else i in c.bytes && s.bytes[i] == c.bytes[i])
      && CacheBytes(s.order, s.bytes) <= budget
      && forall j :: 0 <= j < k ==> CacheBytes(Arrivals(c, id)[j..], c.bytes[id := bytes]) > budget
  {
    hide Trim, CacheBytes;
    var all := Bound(c, id, bytes);
    BoundOrdered(c, id, bytes);
    TrimIsTail(all, budget);
    ExcessLongest(all.order, all.bytes, budget);
    k := Excess(all.order, all.bytes, budget);
    CacheBytesFrame(all.order[k..], all.bytes, Kept(all.bytes, all.order[k..]));
  }

  lemma KeptTail(c: Cache, k: nat)
    requires CacheOrdered(c.order, c.bytes) && 0 < k <= |c.order|
    ensures Kept(c.bytes - {c.order[0]}, c.order[k..]) == Kept(c.bytes, c.order[k..])
  {
    forall i | i in c.order[k..] ensures i != c.order[0] {
      var j :| 0 <= j < |c.order[k..]| && c.order[k..][j] == i;
      assert c.order[k + j] == i;
    }
  }

  lemma {:induction false} ExcessFrame(order: seq<BlindId>, c: map<BlindId, seq<byte>>, d: map<BlindId, seq<byte>>,
                                       budget: nat)
    requires forall id :: id in order ==> (id in c <==> id in d) && (id in c ==> c[id] == d[id])
    ensures Excess(order, c, budget) == Excess(order, d, budget)
  {
    CacheBytesFrame(order, c, d);
    if CacheBytes(order, c) > budget { ExcessFrame(order[1..], c, d, budget); }
  }

  // ---------- The receiver as a state machine ----------

  /** The dedup cache's and the waiting chunks' byte budgets. */
  datatype Budgets = Budgets(cache: nat, pending: nat)

  /** over holds the bytes that were replaced while waiting: the counters never give them back. */
  datatype Receiver = Receiver(
    files: map<string, seq<byte>>, waiting: map<Key, Chunks>, over: map<Key, nat>, cache: Cache)

  datatype Entry = Entry(offset: nat, plaintext: Option<seq<byte>>)

  /** What can happen to the receiver; a plaintext is None when decryption fails. */
  datatype Frame =
    | Unframed
    | Data(key: Key, offset: nat, id: Option<BlindId>, plaintext: Option<seq<byte>>)
    | Ref(key: Key, offset: nat, id: Option<BlindId>)
    | Batch(key: Key, entries: seq<Entry>)
    | Seal(key: Key, size: nat)
    | Forget(key: Key)
    | Restart

  function FileOf(files: map<string, seq<byte>>, key: Key): seq<byte> {
    if PathOf(key) in files then files[PathOf(key)] else []
  }

  function BufOf(r: Receiver, key: Key): Buf {
    Buf(FileOf(r.files, key), if key in r.waiting then r.waiting[key] else map[])
  }

  /** m lost some of its chunks: only at offsets up to cut, and keeps only chunks from cut on if it lost any. */
  ghost predicate Trimmed(m: Chunks, m': Chunks, cut: nat) {
    && (forall o :: o in m' ==> o in m && m'[o] == m[o])
    && (forall o :: o in m && o !in m' ==> o <= cut)
  }

  /** The budget evicted the chunks with the smallest offsets over all segments. */
  ghost predicate Shed(p: map<Key, Chunks>, q: map<Key, Chunks>, cut: nat) {
    && q.Keys == p.Keys
    && (forall k :: k in p ==> Trimmed(p[k], q[k], cut))
    && (q != p ==> forall k, o :: k in q && o in q[k] ==> cut <= o)
  }

  ghost function TotalsOf(w: map<Key, Chunks>): map<Key, nat> { map k | k in w :: Total(w[k]) }

  /** What the counters add up to. */
  ghost function Load(w: map<Key, Chunks>, over: map<Key, nat>): nat { Sum(TotalsOf(w)) + Sum(over) }

  ghost predicate Idle(w: map<Key, Chunks>) { forall k :: k in w ==> w[k] == map[] }

  /** The chunk that went last, at offset cut, was still one too many. */
  ghost predicate Needed(p: map<Key, Chunks>, q: map<Key, Chunks>, over: map<Key, nat>, budget: nat, cut: nat) {
    exists k :: k in p && k in q && cut in p[k] && cut !in q[k] && Load(q, over) + |p[k][cut]| > budget
  }

  ghost predicate EnforcedTo(p: map<Key, Chunks>, over: map<Key, nat>, q: map<Key, Chunks>, budget: nat, cut: nat) {
    && Shed(p, q, cut)
    && (q == p || (Load(p, over) > budget && Needed(p, q, over, budget, cut)))
    && (Load(q, over) <= budget || Idle(q))
  }

  /** q is what the pending budget leaves of p: nothing goes while the counters fit, and no more than it takes. */
  ghost predicate Enforced(p: map<Key, Chunks>, over: map<Key, nat>, q: map<Key, Chunks>, budget: nat) {
    exists cut: nat :: EnforcedTo(p, over, q, budget, cut)
  }

  function OverAt(over: map<Key, nat>, key: Key): nat { if key in over then over[key] else 0 }

  ghost predicate PlaceStep(r: Receiver, key: Key, offset: nat, bytes: seq<byte>, r': Receiver, budget: nat) {
    var b := Placed(BufOf(r, key), offset, bytes);
    && r'.files == r.files[PathOf(key) := b.file]
    && r'.over == r.over[key := OverAt(r.over, key) + Replaced(BufOf(r, key), offset, bytes)]
    && Enforced(r.waiting[key := b.pending], r'.over, r'.waiting, budget)
    && r'.cache == r.cache
  }

  ghost predicate EntryStep(r: Receiver, key: Key, e: Entry, r': Receiver, budget: nat) {
    match e.plaintext
    case None => r' == r
    case Some(p) => PlaceStep(r, key, e.offset, p, r', budget)
  }

  ghost predicate EntriesStep(r: Receiver, key: Key, es: seq<Entry>, r': Receiver, budget: nat)
    decreases |es|
  {
    if es == [] then r' == r
    else exists mid {:trigger EntryStep(mid, key, es[|es| - 1], r', budget)} ::
           EntriesStep(r, key, es[..|es| - 1], mid, budget) && EntryStep(mid, key, es[|es| - 1], r', budget)
  }

  /** The cache after a frame: only data frames with an id are kept. */
  function Cached(c: Cache, f: Frame, budget: nat): Cache {
    match f
    case Data(_, _, Some(id), Some(p)) => Stored(c, id, p, budget)
    case _ => c
  }

  ghost predicate Next(r: Receiver, f: Frame, r': Receiver, budgets: Budgets) {
    match f
    case Unframed => r' == r
    case Data(key, offset, id, plaintext) =>
      (match plaintext
       case None => r' == r
       case Some(p) => PlaceStep(r.(cache := Cached(r.cache, f, budgets.cache)), key, offset, p, r', budgets.pending))
    case Ref(key, offset, id) =>
      if id.Some? && id.value in r.cache.bytes
      then PlaceStep(r, key, offset, r.cache.bytes[id.value], r', budgets.pending)
      else r' == r
    case Batch(key, entries) => EntriesStep(r, key, entries, r', budgets.pending)
    case Seal(_, _) => r' == r
    case Forget(key) => r' == r.(waiting := r.waiting - {key}, over := r.over - {key})
    case Restart => r' == Receiver(r.files, map[], map[], Cache([], map[]))
  }

  // ---------- Safety ----------

  /** source gives the true bytes of some segments, named the bytes each blind id stands for. */
  ghost predicate Honest(r: Receiver, source: map<Key, seq<byte>>, named: map<BlindId, seq<byte>>) {
    && (forall k :: k in source ==> Faithful(BufOf(r, k), source[k]))
    && (forall id :: id in r.cache.bytes ==> id in named && r.cache.bytes[id] == named[id])
  }

  /** The sender cuts slices out of its segments as it likes, and one blind id always names the same bytes. */
  ghost predicate HonestFrame(f: Frame, source: map<Key, seq<byte>>, named: map<BlindId, seq<byte>>) {
    match f
    case Data(key, offset, id, plaintext) =>
      plaintext.Some? ==>
        && (key in source ==> IsSlice(source[key], offset, plaintext.value))
        && (id.Some? ==> id.value in named && named[id.value] == plaintext.value)
    case Ref(key, offset, id) =>
      id.Some? && id.value in named && key in source ==> IsSlice(source[key], offset, named[id.value])
    case Batch(key, entries) =>
      key in source ==>
        forall e :: e in entries && e.plaintext.Some? ==> IsSlice(source[key], e.offset, e.plaintext.value)
    case _ => true
  }

  lemma {:induction false} TrimSubset(c: Cache, budget: nat)
    ensures forall i :: i in Trim(c, budget).bytes ==> i in c.bytes && Trim(c, budget).bytes[i] == c.bytes[i]
    decreases |c.order|
  {
    if CacheBytes(c.order, c.bytes) > budget {
      TrimSubset(Cache(c.order[1..], c.bytes - {c.order[0]}), budget);
    }
  }

  lemma StoredSubset(c: Cache, id: BlindId, bytes: seq<byte>, budget: nat)
    ensures forall i :: i in Stored(c, id, bytes, budget).bytes ==>
              (i == id && Stored(c, id, bytes, budget).bytes[i] == bytes)
              || (i != id && i in c.bytes && Stored(c, id, bytes, budget).bytes[i] == c.bytes[i])
  {
    TrimSubset(Bound(c, id, bytes), budget);
  }

  lemma EnforcedShed(p: map<Key, Chunks>, over: map<Key, nat>, q: map<Key, Chunks>, budget: nat) returns (cut: nat)
    requires Enforced(p, over, q, budget)
    ensures Shed(p, q, cut)
  {
    hide Shed, Needed, Load;
    cut :| EnforcedTo(p, over, q, budget, cut);
  }

  /** Placing into one segment leaves every other segment's file alone, and only shortens what waits for it. */
  lemma PlaceElsewhere(r: Receiver, key: Key, offset: nat, bytes: seq<byte>, r': Receiver, budget: nat, k: Key)
    requires PlaceStep(r, key, offset, bytes, r', budget) && k != key
    ensures PathOf(k) in r'.files <==> PathOf(k) in r.files
    ensures BufOf(r', k).file == BufOf(r, k).file
    ensures forall o :: o in BufOf(r', k).pending ==>
              o in BufOf(r, k).pending && BufOf(r', k).pending[o] == BufOf(r, k).pending[o]
  {
    hide Placed, Enforced;
    if PathOf(k) == PathOf(key) { RecvPathInjective(k.0, k.1, key.0, key.1); }
    var p := r.waiting[key := Placed(BufOf(r, key), offset, bytes).pending];
    var cut := EnforcedShed(p, r'.over, r'.waiting, budget);
    assert k in p ==> Trimmed(p[k], r'.waiting[k], cut);
  }

  lemma PlaceHere(r: Receiver, key: Key, offset: nat, bytes: seq<byte>, r': Receiver, budget: nat)
    requires PlaceStep(r, key, offset, bytes, r', budget)
    ensures BufOf(r', key).file == Placed(BufOf(r, key), offset, bytes).file
    ensures forall o :: o in BufOf(r', key).pending ==>
              var p := Placed(BufOf(r, key), offset, bytes).pending;
              o in p && BufOf(r', key).pending[o] == p[o]
  {
    hide Placed, Enforced;
    var p := r.waiting[key := Placed(BufOf(r, key), offset, bytes).pending];
    var cut := EnforcedShed(p, r'.over, r'.waiting, budget);
    assert Trimmed(p[key], r'.waiting[key], cut);
  }

  lemma FaithfulSubset(b: Buf, b': Buf, source: seq<byte>)
    requires Faithful(b, source) && b'.file == b.file
    requires forall o :: o in b'.pending ==> o in b.pending && b'.pending[o] == b.pending[o]
    ensures Faithful(b', source)
  {}

  lemma PlaceStepHonest(r: Receiver, key: Key, offset: nat, bytes: seq<byte>, r': Receiver, budget: nat,
                        source: map<Key, seq<byte>>, named: map<BlindId, seq<byte>>)
    requires Honest(r, source, named) && PlaceStep(r, key, offset, bytes, r', budget)
    requires key in source ==> IsSlice(source[key], offset, bytes)
    ensures Honest(r', source, named)
  {
    hide Placed, Faithful, PlaceStep;
    forall k | k in source ensures Faithful(BufOf(r', k), source[k]) {
      if k == key {
        PlacedFaithful(BufOf(r, k), offset, bytes, source[k]);
        PlaceHere(r, key, offset, bytes, r', budget);
        FaithfulSubset(Placed(BufOf(r, k), offset, bytes), BufOf(r', k), source[k]);
      } else {
        PlaceElsewhere(r, key, offset, bytes, r', budget, k);
        FaithfulSubset(BufOf(r, k), BufOf(r', k), source[k]);
      }
    }
    PlaceKeepsCache(r, key, offset, bytes, r', budget);
  }

  lemma PlaceKeepsCache(r: Receiver, key: Key, offset: nat, bytes: seq<byte>, r': Receiver, budget: nat)
    requires PlaceStep(r, key, offset, bytes, r', budget)
    ensures r'.cache == r.cache
  {}

  lemma {:induction false} EntriesHonest(r: Receiver, key: Key, es: seq<Entry>, r': Receiver, budget: nat,
                                         source: map<Key, seq<byte>>, named: map<BlindId, seq<byte>>)
    requires Honest(r, source, named) && EntriesStep(r, key, es, r', budget)
    requires key in source ==>
               forall e :: e in es && e.plaintext.Some? ==> IsSlice(source[key], e.offset, e.plaintext.value)
    ensures Honest(r', source, named)
    decreases |es|
  {
    hide Honest, PlaceStep, IsSlice;
    if es != [] {
      var front, e := es[..|es| - 1], es[|es| - 1];
      var mid :| EntriesStep(r, key, front, mid, budget) && EntryStep(mid, key, e, r', budget);
      EntriesHonest(r, key, front, mid, budget, source, named);
      if e.plaintext.Some? {
        PlaceStepHonest(mid, key, e.offset, e.plaintext.value, r', budget, source, named);
      }
    }
  }

  lemma HonestCache(r: Receiver, c: Cache, source: map<Key, seq<byte>>, named: map<BlindId, seq<byte>>)
    requires Honest(r, source, named)
    requires forall id :: id in c.bytes ==> id in named && c.bytes[id] == named[id]
    ensures Honest(r.(cache := c), source, named)
  {
    hide Faithful;
    assert forall k :: BufOf(r.(cache := c), k) == BufOf(r, k);
  }

  lemma HonestWithout(r: Receiver, r': Receiver, source: map<Key, seq<byte>>, named: map<BlindId, seq<byte>>)
    requires Honest(r, source, named) && r'.files == r.files
    requires forall k :: k in r'.waiting ==> k in r.waiting && r'.waiting[k] == r.waiting[k]
    requires forall id :: id in r'.cache.bytes ==> id in r.cache.bytes && r'.cache.bytes[id] == r.cache.bytes[id]
    ensures Honest(r', source, named)
  {
    hide Faithful;
    forall k | k in source ensures Faithful(BufOf(r', k), source[k]) {
      FaithfulSubset(BufOf(r, k), BufOf(r', k), source[k]);
    }
  }

  lemma CachedNamed(c: Cache, f: Frame, budget: nat, named: map<BlindId, seq<byte>>)
    requires forall id :: id in c.bytes ==> id in named && c.bytes[id] == named[id]
    requires f.Data? && f.id.Some? && f.plaintext.Some? ==>
               f.id.value in named && named[f.id.value] == f.plaintext.value
    ensures forall id :: id in Cached(c, f, budget).bytes ==> id in named && Cached(c, f, budget).bytes[id] == named[id]
  {
    hide Stored;
    match f {
      case Data(_, _, Some(id), Some(p)) => StoredSubset(c, id, p, budget);
      case _ =>
    }
  }

  /** No step the network, the cache, the budgets or a restart can take makes a file depart from its source. */
  lemma NextHonest(r: Receiver, f: Frame, r': Receiver, budgets: Budgets,
                   source: map<Key, seq<byte>>, named: map<BlindId, seq<byte>>)
    requires Honest(r, source, named) && HonestFrame(f, source, named) && Next(r, f, r', budgets)
    ensures Honest(r', source, named)
  {
    hide PlaceStep, Faithful, IsSlice, Stored, Cached;
    match f {
      case Data(key, offset, id, Some(p)) =>
        var before := r.(cache := Cached(r.cache, f, budgets.cache));
        CachedNamed(r.cache, f, budgets.cache, named);
        HonestCache(r, before.cache, source, named);
        PlaceStepHonest(before, key, offset, p, r', budgets.pending, source, named);
      case Ref(key, offset, id) =>
        if id.Some? && id.value in r.cache.bytes {
          PlaceStepHonest(r, key, offset, r.cache.bytes[id.value], r', budgets.pending, source, named);
        }
      case Batch(key, entries) => EntriesHonest(r, key, entries, r', budgets.pending, source, named);
      case Forget(key) => HonestWithout(r, r', source, named);
      case Restart => HonestWithout(r, r', source, named);
      case _ =>
    }
  }

  /** A run: each state follows from the one before by one frame. */
  ghost predicate Trace(rs: seq<Receiver>, fs: seq<Frame>, budgets: Budgets) {
    |rs| == |fs| + 1 && forall i :: 0 <= i < |fs| ==> Next(rs[i], fs[i], rs[i + 1], budgets)
  }

  ghost predicate Appended(files: map<string, seq<byte>>, files': map<string, seq<byte>>) {
    forall p :: p in files ==> p in files' && files[p] <= files'[p]
  }

  lemma PlaceAppends(r: Receiver, key: Key, offset: nat, bytes: seq<byte>, r': Receiver, budget: nat)
    requires PlaceStep(r, key, offset, bytes, r', budget)
    ensures Appended(r.files, r'.files)
  {
    hide Placed;
    PlacedGrows(BufOf(r, key), offset, bytes);
  }

  lemma {:induction false} EntriesAppend(r: Receiver, key: Key, es: seq<Entry>, r': Receiver, budget: nat)
    requires EntriesStep(r, key, es, r', budget)
    ensures Appended(r.files, r'.files)
    decreases |es|
  {
    hide PlaceStep;
    if es != [] {
      var front, e := es[..|es| - 1], es[|es| - 1];
      var mid :| EntriesStep(r, key, front, mid, budget) && EntryStep(mid, key, e, r', budget);
      EntriesAppend(r, key, front, mid, budget);
      if e.plaintext.Some? { PlaceAppends(mid, key, e.offset, e.plaintext.value, r', budget); }
    }
  }

  /** Files are append-only under every frame, honest or not. */
  lemma NextAppends(r: Receiver, f: Frame, r': Receiver, budgets: Budgets)
    requires Next(r, f, r', budgets)
    ensures Appended(r.files, r'.files)
  {
    hide PlaceStep, Cached;
    match f {
      case Data(key, offset, id, Some(p)) =>
        PlaceAppends(r.(cache := Cached(r.cache, f, budgets.cache)), key, offset, p, r', budgets.pending);
      case Ref(key, offset, id) =>
        if id.Some? && id.value in r.cache.bytes {
          PlaceAppends(r, key, offset, r.cache.bytes[id.value], r', budgets.pending);
        }
      case Batch(key, entries) => EntriesAppend(r, key, entries, r', budgets.pending);
      case _ =>
    }
  }

  lemma {:induction false} TraceAppends(rs: seq<Receiver>, fs: seq<Frame>, budgets: Budgets, i: nat, j: nat)
    requires Trace(rs, fs, budgets) && i <= j < |rs|
    ensures Appended(rs[i].files, rs[j].files)
    decreases j
  {
    hide Next;
    if i < j {
      TraceAppends(rs, fs, budgets, i, j - 1);
      NextAppends(rs[j - 1], fs[j - 1], rs[j], budgets);
    }
  }

  lemma TraceSnoc(rs: seq<Receiver>, fs: seq<Frame>, budgets: Budgets, f: Frame, r: Receiver)
    requires Trace(rs, fs, budgets) && Next(rs[|rs| - 1], f, r, budgets)
    ensures Trace(rs + [r], fs + [f], budgets)
  {
    hide Next;
  }

  lemma {:induction false} TraceHonest(rs: seq<Receiver>, fs: seq<Frame>, budgets: Budgets, i: nat,
                                       source: map<Key, seq<byte>>, named: map<BlindId, seq<byte>>)
    requires Trace(rs, fs, budgets) && i < |rs|
    requires Honest(rs[0], source, named)
    requires forall f :: f in fs ==> HonestFrame(f, source, named)
    ensures Honest(rs[i], source, named)
  {
    hide Honest, HonestFrame, Next;
    if i > 0 {
      TraceHonest(rs, fs, budgets, i - 1, source, named);
      assert fs[i - 1] in fs;
      NextHonest(rs[i - 1], fs[i - 1], rs[i], budgets, source, named);
    }
  }

  /** Once the file has reached the size of its source it is the source, and stays so to the end of the run. */
  lemma ReachedIsComplete(rs: seq<Receiver>, fs: seq<Frame>, budgets: Budgets, i: nat, key: Key,
                          source: map<Key, seq<byte>>, named: map<BlindId, seq<byte>>)
    requires Trace(rs, fs, budgets) && i < |rs| && key in source
    requires Honest(rs[0], source, named)
    requires forall f :: f in fs ==> HonestFrame(f, source, named)
    requires |FileOf(rs[i].files, key)| >= |source[key]|
    ensures FileOf(rs[|rs| - 1].files, key) == source[key]
  {
    hide Next;
    TraceHonest(rs, fs, budgets, i, source, named);
    TraceHonest(rs, fs, budgets, |rs| - 1, source, named);
    TraceAppends(rs, fs, budgets, i, |rs| - 1);
    hide Trace, HonestFrame;
    assert Faithful(BufOf(rs[i], key), source[key]);
    assert Faithful(BufOf(rs[|rs| - 1], key), source[key]);
  }

  lemma {:induction false} EntriesKeepKeys(r: Receiver, key: Key, es: seq<Entry>, r': Receiver, budget: nat)
    requires EntriesStep(r, key, es, r', budget)
    ensures r.waiting.Keys <= r'.waiting.Keys
    decreases |es|
  {
    hide PlaceStep;
    if es != [] {
      var front, e := es[..|es| - 1], es[|es| - 1];
      var mid :| EntriesStep(r, key, front, mid, budget) && EntryStep(mid, key, e, r', budget);
      EntriesKeepKeys(r, key, front, mid, budget);
      if e.plaintext.Some? { PlaceKeepsKeys(mid, key, e.offset, e.plaintext.value, r', budget); }
    }
  }

  lemma PlaceKeepsKeys(r: Receiver, key: Key, offset: nat, bytes: seq<byte>, r': Receiver, budget: nat)
    requires PlaceStep(r, key, offset, bytes, r', budget)
    ensures r.waiting.Keys <= r'.waiting.Keys
  {
    hide Placed, Enforced;
    var p := r.waiting[key := Placed(BufOf(r, key), offset, bytes).pending];
    var cut := EnforcedShed(p, r'.over, r'.waiting, budget);
  }

  /** Only the end of a refill drops a buffer. */
  lemma NextKeepsKeys(r: Receiver, f: Frame, r': Receiver, budgets: Budgets)
    requires Next(r, f, r', budgets) && !f.Restart?
    ensures forall k :: k in r.waiting && f != Forget(k) ==> k in r'.waiting
  {
    hide PlaceStep, Cached;
    match f {
      case Data(key, offset, id, Some(p)) =>
        PlaceKeepsKeys(r.(cache := Cached(r.cache, f, budgets.cache)), key, offset, p, r', budgets.pending);
      case Ref(key, offset, id) =>
        if id.Some? && id.value in r.cache.bytes {
          PlaceKeepsKeys(r, key, offset, r.cache.bytes[id.value], r', budgets.pending);
        }
      case Batch(key, entries) => EntriesKeepKeys(r, key, entries, r', budgets.pending);
      case _ =>
    }
  }
}
