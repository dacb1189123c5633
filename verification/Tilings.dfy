/** Which sets of slices complete a segment in every order: exactly those that tile it. */
module Tilings {
  import opened Crc32
  import opened Segments
  import opened Delivery

  datatype Slice = Slice(offset: nat, bytes: seq<byte>)

  function EndOf(s: Slice): nat { s.offset + |s.bytes| }

  ghost predicate SlicesOf(all: set<Slice>, source: seq<byte>) {
    forall s :: s in all ==> s.bytes != [] && IsSlice(source, s.offset, s.bytes)
  }

  ghost predicate StartsAt(all: set<Slice>, w: nat) { exists s :: s in all && s.offset == w }

  /** One slice starts at 0, every slice ends where another starts or at the end, and none starts inside another. */
  ghost predicate Tiling(all: set<Slice>, source: seq<byte>) {
    && (source != [] ==> StartsAt(all, 0))
    && (forall s :: s in all ==> EndOf(s) == |source| || StartsAt(all, EndOf(s)))
    && (forall s, t :: s in all && t in all ==> !(s.offset < t.offset < EndOf(s)))
  }

  function Elements<T>(order: seq<T>): set<T> { set x | x in order }

  function AfterAll(order: seq<Slice>): Buf
    decreases |order|
  {
    if order == [] then Buf([], map[])
    else
      var s := order[|order| - 1];
      Placed(AfterAll(order[..|order| - 1]), s.offset, s.bytes)
  }

  // ---------- A tiling completes in every order ----------

  lemma NotShorter(all: set<Slice>, source: seq<byte>, s: Slice, t: Slice)
    requires SlicesOf(all, source) && Tiling(all, source) && s in all && t in all && s.offset == t.offset
    ensures EndOf(s) >= EndOf(t)
  {}

  lemma SameStart(all: set<Slice>, source: seq<byte>, s: Slice, t: Slice)
    requires SlicesOf(all, source) && Tiling(all, source) && s in all && t in all && s.offset == t.offset
    ensures s == t
  {
    NotShorter(all, source, s, t);
    NotShorter(all, source, t, s);
  }

  ghost predicate CutsFrom(all: set<Slice>, source: seq<byte>, w: nat, cuts: seq<nat>) {
    && |cuts| > 0 && cuts[0] == w && cuts[|cuts| - 1] == |source|
    && (forall i, j :: 0 <= i < j < |cuts| ==> cuts[i] < cuts[j])
    && (forall i :: 0 <= i < |cuts| - 1 ==> IsTile(all, source, cuts, i))
    && (forall s :: s in all && s.offset >= w ==> CutAt(cuts, s.offset))
  }

  ghost predicate IsTile(all: set<Slice>, source: seq<byte>, cuts: seq<nat>, i: nat) {
    i + 1 < |cuts| && cuts[i] <= cuts[i + 1] <= |source| && Slice(cuts[i], source[cuts[i]..cuts[i + 1]]) in all
  }

  lemma {:induction false} TilingCuts(all: set<Slice>, source: seq<byte>, w: nat) returns (cuts: seq<nat>)
    requires SlicesOf(all, source) && Tiling(all, source)
    requires w <= |source| && (w == |source| || StartsAt(all, w))
    ensures CutsFrom(all, source, w, cuts)
    decreases |source| - w
  {
    if w == |source| {
      cuts := [w];
      hide Tiling;
    } else {
      var s :| s in all && s.offset == w;
      var rest := TilingCuts(all, source, EndOf(s));
      cuts := [w] + rest;
      CutsJoin(all, source, s, rest);
    }
  }

  lemma IncreasingJoin(w: nat, rest: seq<nat>)
    requires |rest| > 0 && w < rest[0] && forall i, j :: 0 <= i < j < |rest| ==> rest[i] < rest[j]
    ensures var cuts := [w] + rest; forall i, j :: 0 <= i < j < |cuts| ==> cuts[i] < cuts[j]
  {
    var cuts := [w] + rest;
    forall i, j | 0 <= i < j < |cuts| ensures cuts[i] < cuts[j] {
      assert cuts[j] == rest[j - 1] && (j > 1 ==> rest[0] < rest[j - 1]);
    }
  }

  lemma TilesJoin(all: set<Slice>, source: seq<byte>, s: Slice, rest: seq<nat>)
    requires SlicesOf(all, source) && s in all && |rest| > 0 && rest[0] == EndOf(s)
    requires forall i :: 0 <= i < |rest| - 1 ==> IsTile(all, source, rest, i)
    ensures forall i :: 0 <= i < |rest| ==> IsTile(all, source, [s.offset] + rest, i)
  {
    var cuts := [s.offset] + rest;
    forall i | 0 <= i < |rest| ensures IsTile(all, source, cuts, i) {
      if i == 0 {
        assert s == Slice(s.offset, source[s.offset..EndOf(s)]);
      } else {
        assert IsTile(all, source, rest, i - 1);
      }
    }
  }

  ghost predicate CutAt(cuts: seq<nat>, o: nat) { exists i :: 0 <= i < |cuts| - 1 && cuts[i] == o }

  lemma CutJoins(w: nat, rest: seq<nat>, o: nat)
    requires |rest| > 0 && (o == w || CutAt(rest, o))
    ensures CutAt([w] + rest, o)
  {
    var cuts := [w] + rest;
    if o == w {
      assert cuts[0] == o;
    } else {
      var i :| 0 <= i < |rest| - 1 && rest[i] == o;
      assert cuts[i + 1] == o;
    }
  }

  lemma NotInside(all: set<Slice>, source: seq<byte>, s: Slice, t: Slice)
    requires Tiling(all, source) && s in all && t in all && t.offset >= s.offset
    ensures t.offset == s.offset || t.offset >= EndOf(s)
  {}

  lemma NotEmpty(all: set<Slice>, source: seq<byte>, s: Slice)
    requires SlicesOf(all, source) && s in all
    ensures s.offset < EndOf(s)
  {}

  lemma CutsJoin(all: set<Slice>, source: seq<byte>, s: Slice, rest: seq<nat>)
    requires SlicesOf(all, source) && Tiling(all, source) && s in all
    requires CutsFrom(all, source, EndOf(s), rest)
    ensures CutsFrom(all, source, s.offset, [s.offset] + rest)
  {
    hide SlicesOf, Tiling, IsTile, CutAt;
    NotEmpty(all, source, s);
    IncreasingJoin(s.offset, rest);
    TilesJoin(all, source, s, rest);
    forall t | t in all && t.offset >= s.offset ensures CutAt([s.offset] + rest, t.offset) {
      NotInside(all, source, s, t);
      CutJoins(s.offset, rest, t.offset);
    }
  }

  lemma CutsChunking(all: set<Slice>, source: seq<byte>, cuts: seq<nat>)
    requires CutsFrom(all, source, 0, cuts)
    ensures Chunking(source, cuts)
    ensures forall i: nat :: i + 1 < |cuts| ==> Slice(cuts[i], ChunkAt(source, cuts, i)) in all
  {
    forall i: nat | i + 1 < |cuts| ensures Slice(cuts[i], ChunkAt(source, cuts, i)) in all {
      assert IsTile(all, source, cuts, i);
    }
  }

  lemma NumberOf(all: set<Slice>, source: seq<byte>, cuts: seq<nat>, s: Slice) returns (i: nat)
    requires SlicesOf(all, source) && Tiling(all, source) && CutsFrom(all, source, 0, cuts) && s in all
    ensures i + 1 < |cuts| && s == Slice(Cut(cuts, i), ChunkAt(source, cuts, i))
  {
    i :| 0 <= i < |cuts| - 1 && cuts[i] == s.offset;
    CutsChunking(all, source, cuts);
    SameStart(all, source, s, Slice(cuts[i], ChunkAt(source, cuts, i)));
  }

  lemma {:induction false} OrderNumbers(all: set<Slice>, source: seq<byte>, cuts: seq<nat>, order: seq<Slice>)
      returns (ns: seq<nat>)
    requires SlicesOf(all, source) && Tiling(all, source) && CutsFrom(all, source, 0, cuts)
    requires forall s :: s in order ==> s in all
    ensures |ns| == |order| && Delivered(source, cuts, ns) == AfterAll(order)
    ensures forall k :: 0 <= k < |ns| ==>
              ns[k] + 1 < |cuts| && order[k] == Slice(Cut(cuts, ns[k]), ChunkAt(source, cuts, ns[k]))
    decreases |order|
  {
    hide Tiling, SlicesOf, CutsFrom, Placed, Cut, ChunkAt;
    if order == [] {
      ns := [];
    } else {
      var front, s := order[..|order| - 1], order[|order| - 1];
      assert s in order && forall x :: x in front ==> x in order;
      ns := OrderNumbers(all, source, cuts, front);
      var i := NumberOf(all, source, cuts, s);
      ns := ns + [i];
      assert ns[..|ns| - 1] == ns[..|front|];
    }
  }

  lemma EveryNumber(source: seq<byte>, cuts: seq<nat>, order: seq<Slice>, ns: seq<nat>, i: nat)
    requires Chunking(source, cuts) && |ns| == |order| && i + 1 < |cuts|
    requires forall k :: 0 <= k < |ns| ==>
               ns[k] + 1 < |cuts| && order[k] == Slice(Cut(cuts, ns[k]), ChunkAt(source, cuts, ns[k]))
    requires Slice(Cut(cuts, i), ChunkAt(source, cuts, i)) in order
    ensures i in InOrder(ns)
  {
    hide ChunkAt, Chunking;
    var k :| 0 <= k < |order| && order[k] == Slice(Cut(cuts, i), ChunkAt(source, cuts, i));
    CutsOrdered(source, cuts, i, ns[k]);
  }

  /** Whatever the order, and however often each slice is repeated. */
  lemma TilingCompletes(all: set<Slice>, source: seq<byte>, order: seq<Slice>)
    requires SlicesOf(all, source) && Tiling(all, source) && Elements(order) == all
    ensures AfterAll(order) == Buf(source, map[])
  {
    var cuts := TilingCuts(all, source, 0);
    CutsChunking(all, source, cuts);
    forall s | s in order ensures s in all { assert s in Elements(order); }
    var ns := OrderNumbers(all, source, cuts, order);
    hide Tiling, SlicesOf, CutsFrom, Chunking, ChunkAt, Canon;
    forall i: nat | i + 1 < |cuts| ensures i in InOrder(ns) {
      assert Slice(Cut(cuts, i), ChunkAt(source, cuts, i)) in all;
      assert Slice(Cut(cuts, i), ChunkAt(source, cuts, i)) in Elements(order);
      EveryNumber(source, cuts, order, ns, i);
    }
    Confluence(source, cuts, ns);
    CompleteExact(source, cuts, InOrder(ns));
  }

  // ---------- Otherwise some order does not complete it ----------

  /** A chunk below the watermark waits, and always will. */
  ghost predicate Stale(b: Buf) { exists k :: k in b.pending && k < |b.file| }

  lemma DrainStale(b: Buf)
    requires Stale(b)
    ensures Drain(b) == b
  {}

  lemma PlacedStale(b: Buf, offset: nat, bytes: seq<byte>)
    requires Stale(b)
    ensures Stale(Placed(b, offset, bytes))
  {
    var k :| k in b.pending && k < |b.file|;
    if bytes != [] && offset == |b.file| {
      var next := Buf(b.file + bytes, b.pending);
      assert k in next.pending;
      DrainStale(next);
    } else {
      assert k in Placed(b, offset, bytes).pending;
    }
  }

  /** A slice that does not fit: it ends where nothing starts, or another one, which waits, starts inside it. */
  ghost predicate Misfit(all: set<Slice>, source: seq<byte>, s: Slice, inner: set<nat>) {
    if inner == {} then EndOf(s) < |source| && !StartsAt(all, EndOf(s))
    else forall c :: c in inner ==> s.offset < c < EndOf(s)
  }

  /**
   Nothing good can come of it: s waits to be reached, or its end has been and nothing starts there, or b is
   stale.
   */
  ghost predicate Doomed(all: set<Slice>, b: Buf, s: Slice, inner: set<nat>) {
    && (forall o :: o in b.pending ==> StartsAt(all, o))
    && (|| (|b.file| <= s.offset && s.offset in b.pending && b.pending[s.offset] == s.bytes
            && forall c :: c in inner ==> c in b.pending)
        || (inner == {} && |b.file| == EndOf(s))
        || Stale(b))
  }

  lemma {:induction false} DrainDoomed(all: set<Slice>, source: seq<byte>, b: Buf, s: Slice, inner: set<nat>)
    requires Misfit(all, source, s, inner) && s.bytes != [] && Doomed(all, b, s, inner)
    ensures Doomed(all, Drain(b), s, inner)
    decreases |b.pending|
  {
    DrainSubset(b);
    if Stale(b) {
      DrainStale(b);
    } else if b.pending != map[] && MinKey(b.pending) == |b.file| {
      var next := Buf(b.file + b.pending[|b.file|], b.pending - {|b.file|});
      if |b.file| == s.offset && inner != {} {
        var c :| c in inner;
        assert c in next.pending && c < |next.file|;
      } else if |b.file| < s.offset < |next.file| {
        assert s.offset in next.pending;
      }
      DrainDoomed(all, source, next, s, inner);
    }
  }

  lemma {:induction false} DrainSubset(b: Buf)
    ensures forall o :: o in Drain(b).pending ==> o in b.pending
    decreases |b.pending|
  {
    if b.pending != map[] && MinKey(b.pending) == |b.file| {
      DrainSubset(Buf(b.file + b.pending[|b.file|], b.pending - {|b.file|}));
    }
  }

  lemma PlacedDoomed(all: set<Slice>, source: seq<byte>, b: Buf, x: Slice, s: Slice, inner: set<nat>)
    requires Misfit(all, source, s, inner) && s.bytes != [] && Doomed(all, b, s, inner)
    requires x in all && (x.offset != s.offset || |b.file| > s.offset)
    ensures Doomed(all, Placed(b, x.offset, x.bytes), s, inner)
  {
    if Stale(b) {
      PlacedStale(b, x.offset, x.bytes);
    }
    if x.bytes != [] && x.offset == |b.file| {
      var next := Buf(b.file + x.bytes, b.pending);
      if |next.file| > s.offset && |b.file| < s.offset && s.offset in b.pending { assert s.offset in next.pending; }
      if Stale(b) { StaleGrows(b, next); }
      DrainDoomed(all, source, next, s, inner);
    }
  }

  lemma StaleGrows(b: Buf, next: Buf)
    requires Stale(b) && next.pending == b.pending && |next.file| >= |b.file|
    ensures Stale(next)
  {
    var k :| k in b.pending && k < |b.file|;
    assert k in next.pending;
  }

  /** From there on nothing helps. */
  lemma {:induction false} RestDoomed(all: set<Slice>, source: seq<byte>, first: seq<Slice>, rest: seq<Slice>, s: Slice,
                                      inner: set<nat>)
    requires Misfit(all, source, s, inner) && s.bytes != [] && Doomed(all, AfterAll(first), s, inner)
    requires forall x :: x in rest ==> x in all && (x.offset != s.offset || |AfterAll(first).file| > s.offset)
    ensures Doomed(all, AfterAll(first + rest), s, inner) && |AfterAll(first + rest).file| >= |AfterAll(first).file|
    decreases |rest|
  {
    hide Placed, Doomed, Misfit;
    if rest == [] {
      assert first + rest == first;
    } else {
      var front, x := rest[..|rest| - 1], rest[|rest| - 1];
      assert x in rest && forall y :: y in front ==> y in rest;
      RestDoomed(all, source, first, front, s, inner);
      assert (first + rest)[..|first + rest| - 1] == first + front;
      PlacedDoomed(all, source, AfterAll(first + front), x, s, inner);
      PlacedGrows(AfterAll(first + front), x.offset, x.bytes);
    }
  }

  lemma DoomedIncomplete(all: set<Slice>, source: seq<byte>, b: Buf, s: Slice, inner: set<nat>)
    requires Misfit(all, source, s, inner) && Doomed(all, b, s, inner)
    ensures b != Buf(source, map[])
  {}

  lemma {:induction false} Enumerate<T>(s: set<T>) returns (q: seq<T>)
    ensures Elements(q) == s && |q| == |s|
    decreases |s|
  {
    if s == {} {
      q := [];
    } else {
      var x :| x in s;
      q := Enumerate(s - {x});
      ElementsSnoc(q, x);
      q := q + [x];
    }
  }

  lemma ElementsSnoc<T>(q: seq<T>, x: T)
    ensures Elements(q + [x]) == Elements(q) + {x}
  {}

  lemma ElementsAppend<T>(p: seq<T>, q: seq<T>)
    ensures Elements(p + q) == Elements(p) + Elements(q)
  {}

  /** Slices that all start above 0 only wait; the last one at an offset is the one that does. */
  lemma {:induction false} OnlyWaiting(order: seq<Slice>)
    requires forall x :: x in order ==> x.offset > 0 && x.bytes != []
    ensures AfterAll(order).file == []
    ensures forall o :: o in AfterAll(order).pending <==> exists x :: x in order && x.offset == o
    decreases |order|
  {
    if order != [] {
      var front, last := order[..|order| - 1], order[|order| - 1];
      assert last in order && forall y :: y in front ==> y in order;
      OnlyWaiting(front);
      forall x | x in order ensures x in front || x == last {
        var k :| 0 <= k < |order| && order[k] == x;
        if k < |front| { assert front[k] == x; }
      }
    }
  }

  lemma AfterSnoc(order: seq<Slice>, s: Slice)
    ensures AfterAll(order + [s]) == Placed(AfterAll(order), s.offset, s.bytes)
  {
    assert (order + [s])[..|order|] == order;
  }

  lemma InElements<T>(q: seq<T>, x: T)
    ensures x in q <==> x in Elements(q)
  {}

  /** The misfit starts above 0: it waits, last of its offset, with what starts inside it. */
  lemma StartWaiting(all: set<Slice>, source: seq<byte>, s: Slice, inner: set<Slice>, same: set<Slice>)
      returns (first: seq<Slice>)
    requires SlicesOf(all, source) && s in all && s.offset > 0
    requires inner <= all && forall t :: t in inner ==> s.offset < t.offset
    requires forall x :: x in same <==> x in all && x.offset == s.offset && x != s
    ensures Elements(first) == inner + same + {s} && |first| == |inner| + |same| + 1
    ensures Doomed(all, AfterAll(first), s, Offsets(inner))
  {
    var a := Enumerate(inner);
    var b := Enumerate(same);
    var front := a + b;
    first := front + [s];
    ElementsAppend(a, b);
    ElementsSnoc(front, s);
    forall x | x in front ensures x in all && x.offset > 0 && x.bytes != [] { InElements(front, x); }
    OnlyWaiting(front);
    AfterSnoc(front, s);
    var w := AfterAll(front);
    forall o | o in Placed(w, s.offset, s.bytes).pending ensures StartsAt(all, o) {
      if o != s.offset {
        var x :| x in front && x.offset == o;
        assert x in all;
      }
    }
    forall c | c in Offsets(inner) ensures c in w.pending {
      var t :| t in inner && t.offset == c;
      InElements(front, t);
      assert t in front;
    }
  }

  function Offsets(ts: set<Slice>): set<nat> { set t | t in ts :: t.offset }

  /** The misfit starts at 0: it is written at once, and with what waits inside it the state is stale. */
  lemma StartWritten(all: set<Slice>, source: seq<byte>, s: Slice, inner: set<Slice>) returns (first: seq<Slice>)
    requires SlicesOf(all, source) && s in all && s.offset == 0
    requires inner <= all && forall t :: t in inner ==> 0 < t.offset < EndOf(s)
    ensures Elements(first) == inner + {s} && |first| == |inner| + 1
    ensures Doomed(all, AfterAll(first), s, Offsets(inner)) && |AfterAll(first).file| > 0
  {
    var front := Enumerate(inner);
    first := front + [s];
    ElementsSnoc(front, s);
    forall x | x in front ensures x in inner { InElements(front, x); }
    OnlyWaiting(front);
    AfterSnoc(front, s);
    var w := AfterAll(front);
    var next := Buf(w.file + s.bytes, w.pending);
    assert AfterAll(first) == Drain(next);
    forall o | o in next.pending ensures StartsAt(all, o) {
      var x :| x in front && x.offset == o;
      assert x in all;
    }
    if inner == {} {
      assert next.pending == map[];
      assert Offsets(inner) == {};
    } else {
      var t :| t in inner;
      InElements(front, t);
      assert t.offset in next.pending && t.offset < |next.file|;
      DrainStale(next);
    }
  }

  lemma MisfitStart(all: set<Slice>, source: seq<byte>, s: Slice, inner: set<Slice>) returns (first: seq<Slice>)
    requires SlicesOf(all, source) && s in all
    requires inner <= all && forall t :: t in inner ==> s.offset < t.offset < EndOf(s)
    ensures Elements(first) <= all && |first| == |Elements(first)|
    ensures Doomed(all, AfterAll(first), s, Offsets(inner))
    ensures forall x :: x in all - Elements(first) ==> x.offset != s.offset || |AfterAll(first).file| > s.offset
  {
    hide Doomed, AfterAll, SlicesOf;
    if s.offset > 0 {
      var same := set x | x in all && x.offset == s.offset && x != s;
      first := StartWaiting(all, source, s, inner, same);
      assert |inner + same| == |inner| + |same|;
      assert s !in inner + same;
      assert |inner + same + {s}| == |inner + same| + 1;
    } else {
      first := StartWritten(all, source, s, inner);
      assert |inner + {s}| == |inner| + 1;
    }
  }

  lemma MisfitFails(all: set<Slice>, source: seq<byte>, s: Slice, inner: set<Slice>) returns (order: seq<Slice>)
    requires SlicesOf(all, source) && s in all && Misfit(all, source, s, Offsets(inner))
    requires inner <= all && forall t :: t in inner ==> s.offset < t.offset < EndOf(s)
    ensures Elements(order) == all && |order| == |all| && AfterAll(order) != Buf(source, map[])
  {
    var first := MisfitStart(all, source, s, inner);
    var rest := Enumerate(all - Elements(first));
    order := first + rest;
    ElementsAppend(first, rest);
    assert |all| == |Elements(first)| + |all - Elements(first)|;
    forall x | x in rest ensures x in all - Elements(first) { InElements(rest, x); }
    hide Doomed, Misfit, AfterAll;
    RestDoomed(all, source, first, rest, s, Offsets(inner));
    DoomedIncomplete(all, source, AfterAll(order), s, Offsets(inner));
  }

  lemma NoStartFails(all: set<Slice>, source: seq<byte>) returns (order: seq<Slice>)
    requires SlicesOf(all, source) && source != [] && !StartsAt(all, 0)
    ensures Elements(order) == all && |order| == |all| && AfterAll(order) != Buf(source, map[])
  {
    order := Enumerate(all);
    forall x | x in order ensures x.offset > 0 && x.bytes != [] { InElements(order, x); }
    OnlyWaiting(order);
  }

  /**
   Slices that do not tile the source have an order, each delivered once, that leaves it incomplete or chunks
   behind.
   */
  lemma NoTilingFails(all: set<Slice>, source: seq<byte>) returns (order: seq<Slice>)
    requires SlicesOf(all, source) && !Tiling(all, source)
    ensures Elements(order) == all && |order| == |all| && AfterAll(order) != Buf(source, map[])
  {
    hide AfterAll;
    if source != [] && !StartsAt(all, 0) {
      order := NoStartFails(all, source);
    } else if exists s :: s in all && EndOf(s) != |source| && !StartsAt(all, EndOf(s)) {
      var s :| s in all && EndOf(s) != |source| && !StartsAt(all, EndOf(s));
      assert Offsets({}) == {};
      order := MisfitFails(all, source, s, {});
    } else {
      var s, t :| s in all && t in all && s.offset < t.offset < EndOf(s);
      assert Offsets({t}) == {t.offset};
      order := MisfitFails(all, source, s, {t});
    }
  }

  /**
   A set of slices completes the segment, with nothing left waiting, in every order and with any repetition, if and
   only if it tiles the segment.
   */
  lemma TilingExact(all: set<Slice>, source: seq<byte>)
    requires SlicesOf(all, source)
    ensures Tiling(all, source) <==> forall order :: Elements(order) == all ==> AfterAll(order) == Buf(source, map[])
  {
    hide Tiling, SlicesOf, AfterAll;
    if Tiling(all, source) {
      forall order | Elements(order) == all ensures AfterAll(order) == Buf(source, map[]) {
        TilingCompletes(all, source, order);
      }
    } else {
      var order := NoTilingFails(all, source);
    }
  }
}
