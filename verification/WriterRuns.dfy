/** Whole runs of the writer loop: segmentation is invisible, and a degraded writer recovers. */
module WriterRuns {
  import opened Options
  import opened WalHeader
  import opened WalStream
  import opened Guard
  import opened WriterModel
  import opened Sequences

  // ---------- Without segments ----------

  /** The loop as it would be with one endless log. */
  datatype Flat = Flat(queue: seq<WalRecord>, degraded: bool, accepted: seq<WalRecord>, dropped: nat)

  function FlatInterfered(s: Flat, i: Interference): Flat {
    s.(queue := s.queue + i.arrivals, degraded := if i.flag.Some? then i.flag.value else s.degraded)
  }

  function FlatReceived(s: Flat): Flat {
    if s.queue == [] then s
    else if s.degraded then s.(queue := s.queue[1..], dropped := s.dropped + 1)
    else s.(queue := s.queue[1..], accepted := s.accepted + [s.queue[0]])
  }

  function FlatTurned(s: Flat, t: Turn, capacity: Option<nat>, watermark: nat): Flat
    requires capacity != Some(0)
  {
    var s1 := FlatInterfered(s, t.before);
    var s2 := s1.(degraded := HotPath(s1.degraded, |s1.queue|, capacity, watermark));
    FlatReceived(FlatInterfered(s2, t.between))
  }

  function RunFlat(s: Flat, ts: seq<Turn>, capacity: Option<nat>, watermark: nat): Flat
    requires capacity != Some(0)
    decreases |ts|
  {
    if ts == [] then s
    else FlatTurned(RunFlat(s, ts[..|ts| - 1], capacity, watermark), ts[|ts| - 1], capacity, watermark)
  }

  function Forget(s: Loop): Flat {
    Flat(s.queue, s.degraded, Flatten(s.history), s.dropped)
  }

  lemma TurnedForget(s: Loop, t: Turn, capacity: Option<nat>, w: nat, size: nat)
    requires capacity != Some(0)
    ensures Forget(Turned(s, t, capacity, w, size)) == FlatTurned(Forget(s), t, capacity, w)
  {
    hide HotPath, Flatten, Accept, Rotate;
    var s1 := Interfered(s, t.before);
    var s2 := Interfered(s1.(degraded := HotPath(s1.degraded, |s1.queue|, capacity, w)), t.between);
    if s2.queue != [] {
      AcceptFlatten(s2.history, s2.queue[0], size);
      RotateFlatten(s2.history, t.due);
      RotateFlatten(Accept(s2.history, s2.queue[0], size), t.due);
    }
  }

  lemma TurnedFits(s: Loop, t: Turn, capacity: Option<nat>, w: nat, size: nat)
    requires capacity != Some(0) && AllFit(s.history, size)
    ensures AllFit(Turned(s, t, capacity, w, size).history, size)
  {
    hide HotPath, AllFit, Accept, Rotate;
    var s1 := Interfered(s, t.before);
    var s2 := Interfered(s1.(degraded := HotPath(s1.degraded, |s1.queue|, capacity, w)), t.between);
    if s2.queue != [] {
      AcceptFits(s2.history, s2.queue[0], size);
      RotateFits(s2.history, t.due, size);
      RotateFits(Accept(s2.history, s2.queue[0], size), t.due, size);
    }
  }

  /**
   Whatever the segment size and whenever the interval ends, the segments cut one and the same log: the bytes
   of all segments ever allocated are the encodings of the records the endless log would hold, in that order,
   and every segment respects the limit.
   */
  lemma {:induction false} SegmentsRefineLog(s: Loop, ts: seq<Turn>, capacity: Option<nat>, w: nat, size: nat)
    requires capacity != Some(0) && AllFit(s.history, size)
    ensures Forget(RunLoop(s, ts, capacity, w, size)) == RunFlat(Forget(s), ts, capacity, w)
    ensures AllBytes(RunLoop(s, ts, capacity, w, size).history) == Log(RunFlat(Forget(s), ts, capacity, w).accepted)
    ensures AllFit(RunLoop(s, ts, capacity, w, size).history, size)
    decreases |ts|
  {
    hide AllFit, Turned, FlatTurned, AllBytes, Log;
    AllBytesIsLog(RunLoop(s, ts, capacity, w, size).history);
    if ts != [] {
      var front, t := ts[..|ts| - 1], ts[|ts| - 1];
      SegmentsRefineLog(s, front, capacity, w, size);
      TurnedForget(RunLoop(s, front, capacity, w, size), t, capacity, w, size);
      TurnedFits(RunLoop(s, front, capacity, w, size), t, capacity, w, size);
    }
  }

  // ---------- Recovery ----------

  /** Nothing is sent and the sampler stays silent. */
  predicate Quiet(t: Turn) {
    t.before == Interference([], None) && t.between == Interference([], None)
  }

  /** The largest fill at which a check clears the flag. */
  function ClearFill(c: nat, w: nat): nat
    requires c > 0 && w >= 2
  {
    assert w / 2 * c > 0;
    (w / 2 * c - 1) / 100
  }

  lemma ClearFillExact(fill: nat, c: nat, w: nat)
    requires c > 0 && w >= 2
    ensures fill * 100 / c < w / 2 <==> fill <= ClearFill(c, w)
  {
    PercentBelow(fill, c, w / 2);
  }

  lemma CheckWhenDegraded(fill: nat, c: nat, w: nat)
    requires c > 0 && w >= 2
    ensures HotPath(true, fill, Some(c), w) <==> fill > ClearFill(c, w)
    ensures fill <= ClearFill(c, w) ==> !HotPath(false, fill, Some(c), w)
  {
    ClearFillExact(fill, c, w);
  }

  lemma QuietTurn(s: Flat, t: Turn, capacity: Option<nat>, w: nat)
    requires capacity != Some(0) && Quiet(t)
    ensures FlatTurned(s, t, capacity, w) == FlatReceived(s.(degraded := HotPath(s.degraded, |s.queue|, capacity, w)))
  {
    assert s.queue + [] == s.queue;
  }

  /** Where a degraded writer with the given queue is after k quiet turns, when it writes the last kept records. */
  function QuietAfter(s: Flat, kept: nat, k: nat): Flat
    requires kept <= |s.queue|
  {
    var n := |s.queue|;
    var lost := n - kept;
    if k <= lost && k <= n then Flat(s.queue[k..], true, s.accepted, s.dropped + k)
    else if k <= n then Flat(s.queue[k..], false, s.accepted + s.queue[lost..k], s.dropped + lost)
    else Flat([], false, s.accepted + s.queue[lost..], s.dropped + lost)
  }

  function Smaller(a: nat, b: nat): nat { if a < b then a else b }

  lemma {:induction false} QuietRun(s: Flat, ts: seq<Turn>, c: nat, w: nat)
    requires c > 0 && w >= 2 && s.degraded
    requires forall t :: t in ts ==> Quiet(t)
    ensures RunFlat(s, ts, Some(c), w) == QuietAfter(s, Smaller(|s.queue|, ClearFill(c, w)), |ts|)
    decreases |ts|
  {
    hide HotPath, FlatTurned, ClearFill;
    var n, k := |s.queue|, |ts|;
    var kept := Smaller(n, ClearFill(c, w));
    if k > 0 {
      var front, t := ts[..k - 1], ts[k - 1];
      assert t in ts && forall x :: x in front ==> x in ts;
      QuietRun(s, front, c, w);
      var s' := QuietAfter(s, kept, k - 1);
      QuietTurn(s', t, Some(c), w);
      CheckWhenDegraded(|s'.queue|, c, w);
      QuietStep(s, kept, k - 1, ClearFill(c, w), HotPath(s'.degraded, |s'.queue|, Some(c), w));
    }
  }

  lemma QuietStep(s: Flat, kept: nat, k: nat, clear: nat, degraded: bool)
    requires kept == Smaller(|s.queue|, clear)
    requires degraded <==> QuietAfter(s, kept, k).degraded && |QuietAfter(s, kept, k).queue| > clear
    ensures FlatReceived(QuietAfter(s, kept, k).(degraded := degraded)) == QuietAfter(s, kept, k + 1)
  {
    var n, lost := |s.queue|, |s.queue| - kept;
    if k < n {
      assert s.queue[k..][1..] == s.queue[k + 1..];
      assert s.queue[k..][0] == s.queue[k];
      if lost <= k {
        assert s.queue[lost..k] + [s.queue[k]] == s.queue[lost..k + 1];
        assert s.queue[lost..lost] == [];
      }
    } else {
      assert s.queue[lost..n] == s.queue[lost..];
      assert s.queue[n..] == [];
    }
  }

  /**
   With a watermark of at least 2, and no new records and no sampler, a degraded writer is healthy again within
   one check more than the queue is long, and stays so; of the queue it writes the last few records, as many as
   the clearing threshold lets stand, and drops exactly the ones before them.
   */
  lemma BoundedRecovery(s: Flat, ts: seq<Turn>, c: nat, w: nat)
    requires c > 0 && w >= 2 && s.degraded
    requires forall t :: t in ts ==> Quiet(t)
    requires |ts| > |s.queue|
    ensures var kept := Smaller(|s.queue|, ClearFill(c, w));
      RunFlat(s, ts, Some(c), w)
        == Flat([], false, s.accepted + s.queue[|s.queue| - kept..], s.dropped + |s.queue| - kept)
  {
    QuietRun(s, ts, c, w);
  }

  /** With a watermark of 0 or 1 it never recovers on its own: the clearing threshold rounds down to nothing. */
  lemma {:induction false} NoRecovery(s: Flat, ts: seq<Turn>, c: nat, w: nat)
    requires c > 0 && w < 2 && s.degraded
    requires forall t :: t in ts ==> t.before.flag != Some(false) && t.between.flag != Some(false)
    ensures RunFlat(s, ts, Some(c), w).degraded
    ensures RunFlat(s, ts, Some(c), w).accepted == s.accepted
    decreases |ts|
  {
    hide FlatTurned, HotPath;
    if |ts| > 0 {
      var front, t := ts[..|ts| - 1], ts[|ts| - 1];
      assert t in ts && forall x :: x in front ==> x in ts;
      NoRecovery(s, front, c, w);
      StuckTurn(RunFlat(s, front, Some(c), w), t, c, w);
    }
  }

  lemma NeverClears(fill: nat, c: nat, w: nat)
    requires c > 0 && w < 2
    ensures HotPath(true, fill, Some(c), w)
  {
    PercentBelow(fill, c, 0);
  }

  lemma StuckTurn(s: Flat, t: Turn, c: nat, w: nat)
    requires c > 0 && w < 2 && s.degraded
    requires t.before.flag != Some(false) && t.between.flag != Some(false)
    ensures FlatTurned(s, t, Some(c), w).degraded && FlatTurned(s, t, Some(c), w).accepted == s.accepted
  {
    hide HotPath;
    NeverClears(|FlatInterfered(s, t.before).queue|, c, w);
  }

  /** Recovery within one check more than the queue is long, exactly for watermarks of at least 2. */
  lemma RecoveryExact(s: Flat, ts: seq<Turn>, c: nat, w: nat)
    requires c > 0 && s.degraded && |ts| > |s.queue| && forall t :: t in ts ==> Quiet(t)
    ensures !RunFlat(s, ts, Some(c), w).degraded <==> w >= 2
  {
    if w >= 2 { BoundedRecovery(s, ts, c, w); } else { NoRecovery(s, ts, c, w); }
  }
}
