/** The pending budget's eviction loop on values: which waiting chunks go, and what the counters come to. */
module Eviction {
  import opened Segments
  import opened ReceiverModel

  type Views = map<Key, SegView>

  ghost function WaitingOf(v: Views): map<Key, Chunks> { map k | k in v :: v[k].waiting }

  ghost function CountedOf(v: Views): map<Key, nat> { map k | k in v :: v[k].counted }

  ghost function RealOf(v: Views): map<Key, nat> { map k | k in v :: Total(v[k].waiting) }

  ghost function OverOf(v: Views): map<Key, nat> { map k | k in v :: v[k].over }

  ghost function SizesOf(v: Views): map<Key, nat> { map k | k in v :: |v[k].waiting| }

  ghost predicate NothingWaits(v: Views) { forall k :: k in v ==> v[k].waiting == map[] }

  /** k's first waiting chunk has the smallest offset of all that wait. */
  ghost predicate IsVictim(v: Views, victim: Key) {
    victim in v && v[victim].waiting != map[]
    && forall k, o :: k in v && o in v[k].waiting ==> MinKey(v[victim].waiting) <= o
  }

  /** The counters are exact but for the bytes replaced while waiting. */
  ghost predicate Counts(v: Views) {
    forall k :: k in v ==> v[k].counted == Total(v[k].waiting) + v[k].over
  }

  /** w follows from v by evicting some first chunks; nothing else differs. */
  ghost predicate EvictedFrom(v: Views, w: Views, cut: nat) {
    && Shed(WaitingOf(v), WaitingOf(w), cut)
    && w.Keys == v.Keys && Counts(w)
    && forall k :: k in v ==> w[k].next == v[k].next && w[k].over == v[k].over
  }

  lemma EvictedNone(v: Views)
    requires Counts(v)
    ensures EvictedFrom(v, v, 0)
  {}

  lemma EvictedOne(v: Views, w: Views, cut: nat, victim: Key)
    requires EvictedFrom(v, w, cut) && IsVictim(w, victim)
    ensures CanEvict(w[victim])
    ensures EvictedFrom(v, w[victim := Evicted(w[victim])], MinKey(w[victim].waiting))
    ensures Sum(SizesOf(w[victim := Evicted(w[victim])])) < Sum(SizesOf(w))
  {
    hide Total, Sum, Shed, IsVictim, Counts;
    EvictedCounts(w, victim);
    EvictedShed(v, w, cut, victim);
    SizesShrink(w, victim);
  }

  /** The chunk evicted last, at offset cut, was still one too many. */
  ghost predicate LastNeeded(v: Views, w: Views, cut: nat, budget: nat) {
    exists k :: k in v && k in w && cut in v[k].waiting && cut !in w[k].waiting
      && Sum(CountedOf(w)) + |v[k].waiting[cut]| > budget
  }

  lemma EvictedLast(v: Views, w: Views, cut: nat, victim: Key, budget: nat)
    requires EvictedFrom(v, w, cut) && IsVictim(w, victim) && CanEvict(w[victim])
    requires Sum(CountedOf(w)) > budget
    ensures LastNeeded(v, w[victim := Evicted(w[victim])], MinKey(w[victim].waiting), budget)
  {
    hide Sum, Total, Counts;
    var w', o := w[victim := Evicted(w[victim])], MinKey(w[victim].waiting);
    assert CountedOf(w') == CountedOf(w)[victim := w'[victim].counted];
    SumUpdate(CountedOf(w), victim, w'[victim].counted);
    assert Trimmed(WaitingOf(v)[victim], WaitingOf(w)[victim], cut);
  }

  lemma EvictedCounts(w: Views, victim: Key)
    requires Counts(w) && IsVictim(w, victim)
    ensures victim in w && CanEvict(w[victim])
    ensures Counts(w[victim := Evicted(w[victim])])
  {
    TotalRemove(w[victim].waiting, MinKey(w[victim].waiting));
  }

  lemma EvictedShed(v: Views, w: Views, cut: nat, victim: Key)
    requires Shed(WaitingOf(v), WaitingOf(w), cut) && IsVictim(w, victim) && CanEvict(w[victim])
    ensures Shed(WaitingOf(v), WaitingOf(w[victim := Evicted(w[victim])]), MinKey(w[victim].waiting))
  {
    hide Shed;
    var s, o := w[victim], MinKey(w[victim].waiting);
    VictimFirst(w, victim);
    ShedStep(WaitingOf(v), WaitingOf(w), cut, victim, o);
    assert WaitingOf(w[victim := Evicted(s)]) == WaitingOf(w)[victim := s.waiting - {o}];
  }

  lemma VictimFirst(w: Views, victim: Key)
    requires IsVictim(w, victim)
    ensures forall k, x :: k in WaitingOf(w) && x in WaitingOf(w)[k] ==> MinKey(w[victim].waiting) <= x
  {}

  lemma SizesShrink(w: Views, victim: Key)
    requires victim in w && CanEvict(w[victim])
    ensures Sum(SizesOf(w[victim := Evicted(w[victim])])) < Sum(SizesOf(w))
  {
    hide Sum;
    var w' := w[victim := Evicted(w[victim])];
    assert SizesOf(w') == SizesOf(w)[victim := |Evicted(w[victim]).waiting|];
    SumUpdate(SizesOf(w), victim, |Evicted(w[victim]).waiting|);
  }

  lemma ShedStep(p: map<Key, Chunks>, q: map<Key, Chunks>, cut: nat, victim: Key, o: nat)
    requires Shed(p, q, cut) && victim in q && o in q[victim]
    requires forall k, x :: k in q && x in q[k] ==> o <= x
    ensures Shed(p, q[victim := q[victim] - {o}], o)
  {
    var q' := q[victim := q[victim] - {o}];
    forall k | k in p ensures Trimmed(p[k], q'[k], o) {
      assert Trimmed(p[k], q[k], cut);
      forall x | x in p[k] && x !in q'[k] ensures x <= o {
        if x !in q[k] { assert q != p; }
      }
    }
  }

  /** The counters hold what really waits and what was replaced. */
  lemma CountedIsLoad(v: Views)
    requires Counts(v)
    ensures Sum(CountedOf(v)) == Load(WaitingOf(v), OverOf(v)) == Sum(RealOf(v)) + Sum(OverOf(v))
  {
    SumAdd(RealOf(v), OverOf(v), CountedOf(v));
    assert TotalsOf(WaitingOf(v)) == RealOf(v);
  }

  /** With nothing left to evict, the counters hold only replaced bytes. */
  lemma IdleCounts(v: Views)
    requires Counts(v) && NothingWaits(v)
    ensures Sum(CountedOf(v)) == Sum(OverOf(v))
  {
    CountedIsLoad(v);
    SumZero(RealOf(v));
  }

  /** The loop's own end is a proper one: replaced bytes alone never pass the budget. */
  lemma EndsWithin(v: Views, w: Views, cut: nat, budget: nat)
    requires EvictedFrom(v, w, cut) && Sum(OverOf(v)) <= budget
    requires Sum(CountedOf(w)) <= budget || NothingWaits(w)
    ensures Sum(CountedOf(w)) <= budget
  {
    hide Shed, Sum, Counts, NothingWaits;
    assert OverOf(w) == OverOf(v);
    if NothingWaits(w) { IdleCounts(w); }
  }

  lemma EvictedEnforced(v: Views, w: Views, cut: nat, budget: nat)
    requires Counts(v) && EvictedFrom(v, w, cut) && Sum(CountedOf(w)) <= budget
    requires w == v || (Sum(CountedOf(v)) > budget && LastNeeded(v, w, cut, budget))
    ensures Enforced(WaitingOf(v), OverOf(w), WaitingOf(w), budget)
  {
    hide Shed, Sum, Counts, Total;
    CountedIsLoad(v);
    CountedIsLoad(w);
    assert OverOf(w) == OverOf(v);
    assert EnforcedTo(WaitingOf(v), OverOf(w), WaitingOf(w), budget, cut) by {
      if w != v {
        var k :| k in v && k in w && cut in v[k].waiting && cut !in w[k].waiting
                 && Sum(CountedOf(w)) + |v[k].waiting[cut]| > budget;
        assert cut in WaitingOf(v)[k] && cut !in WaitingOf(w)[k];
      }
    }
  }

  lemma RemovedWithin(v: Views, key: Key)
    ensures Sum(CountedOf(v - {key})) <= Sum(CountedOf(v))
    ensures WaitingOf(v - {key}) == WaitingOf(v) - {key} && OverOf(v - {key}) == OverOf(v) - {key}
  {
    hide Sum;
    if key in v {
      SumRemove(CountedOf(v), key);
      assert CountedOf(v - {key}) == CountedOf(v) - {key};
    } else {
      assert v - {key} == v;
    }
  }
}
