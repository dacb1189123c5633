/** Recovery of the whole pipeline, capture and sampler running or not. */
module PipelineRecovery {
  import opened Options
  import opened Guard
  import opened Sequences
  import opened WriterModel
  import opened WriterRuns
  import opened Pipeline
  import opened WriterRefinement

  /** How often the watermark has been judged. */
  function Checks(steps: seq<Step>, lo: nat, i: nat): nat
    requires lo <= i <= |steps|
    decreases i - lo
  {
    if i == lo then 0 else Checks(steps, lo, i - 1) + if steps[i - 1].Judge? then 1 else 0
  }

  function Open(s: System): nat { if s.writer.Checking? || s.writer.Judging? then 0 else 1 }

  lemma NextTurns(c: Config, s: System, step: Step, p: Progress)
    requires c.capacity != Some(0) && Enabled(c, s, step)
    ensures |NextProgress(s, step, p).turns| + Open(Next(c, s, step))
         == |p.turns| + Open(s) + if step.Judge? then 1 else 0
  {
    hide Slicer.Process, Accept, Rotate, HotPath;
  }

  /** One turn per judgement. */
  lemma {:induction false} TurnsAreChecks(c: Config, ss: seq<System>, steps: seq<Step>, lo: nat, i: nat)
    requires Follows(c, ss, steps) && lo <= i < |ss| && ss[lo].writer.Checking?
    ensures |ProgressOf(ss, steps, lo, i).turns| + Open(ss[i]) == Checks(steps, lo, i)
    decreases i
  {
    hide Enabled, Next, NextProgress;
    if i > lo {
      TurnsAreChecks(c, ss, steps, lo, i - 1);
      NextTurns(c, ss[i - 1], steps[i - 1], ProgressOf(ss, steps, lo, i - 1));
    }
  }

  // ---------- Quiet stretches ----------

  /** No record is sent, and the sampler stores nothing; frames may be taken and dropped or sliced. */
  ghost predicate Calm(steps: seq<Step>, lo: nat, i: nat)
    requires lo <= i <= |steps|
  {
    forall t :: lo <= t < i ==> !steps[t].Send? && (steps[t].Sample? ==> steps[t].store.None?)
  }

  lemma NextSent(c: Config, s: System, step: Step)
    requires c.capacity != Some(0) && Enabled(c, s, step) && !step.Send?
    ensures Next(c, s, step).sent == s.sent
  {
    hide Slicer.Process, Accept, Rotate, HotPath;
  }

  lemma {:induction false} SentSame(c: Config, ss: seq<System>, steps: seq<Step>, lo: nat, i: nat)
    requires Follows(c, ss, steps) && lo <= i < |ss| && Calm(steps, lo, i)
    ensures ss[i].sent == ss[lo].sent
    decreases i
  {
    hide Enabled, Next;
    if i > lo {
      SentSame(c, ss, steps, lo, i - 1);
      NextSent(c, ss[i - 1], steps[i - 1]);
    }
  }

  lemma {:induction false} NoneArrives(ts: seq<Turn>)
    requires TurnArrivals(ts) == []
    ensures forall t :: t in ts ==> t.before.arrivals == [] && t.between.arrivals == []
    decreases |ts|
  {
    if ts != [] {
      var front, last := ts[..|ts| - 1], ts[|ts| - 1];
      NoneArrives(front);
      assert ts == front + [last];
    }
  }

  lemma Unstored(i: Option<bool>)
    requires i != Some(true) && i != Some(false)
    ensures i == None
  {
    match i {
      case None =>
      case Some(b) => if b { }
    }
  }

  lemma CalmTurns(c: Config, ss: seq<System>, steps: seq<Step>, lo: nat, i: nat)
    requires Follows(c, ss, steps) && lo <= i < |ss| && ss[lo].writer.Checking? && Calm(steps, lo, i)
    ensures var p := ProgressOf(ss, steps, lo, i);
      p.before == NOTHING && forall t :: t in p.turns ==> Quiet(t)
  {
    hide Enabled, Next, NextProgress, Records;
    var p := ProgressOf(ss, steps, lo, i);
    SentSame(c, ss, steps, lo, i);
    ArrivalsAreSent(c, ss, steps, lo, i);
    assert AllArrivals(p) == [] by { assert Records(ss[lo].sent) + AllArrivals(p) == Records(ss[lo].sent); }
    NoneArrives(p.turns);
    FlagsAreStored(ss, steps, lo, i, true);
    FlagsAreStored(ss, steps, lo, i, false);
    hide ProgressOf;
    Unstored(p.before.flag);
    forall t | t in p.turns ensures Quiet(t) {
      assert !TurnStores(t, true) && !TurnStores(t, false);
      Unstored(t.before.flag);
      Unstored(t.between.flag);
    }
  }

  // ---------- The system ----------

  lemma FlatRefined(c: Config, ss: seq<System>, steps: seq<Step>, lo: nat, i: nat)
    requires Behaviour(c, ss, steps) && lo <= i < |ss| && ss[lo].writer.Checking? && ss[i].writer.Checking?
    ensures Follows(c, ss, steps)
    ensures var p := ProgressOf(ss, steps, lo, i);
      Forget(LoopOf(ss[i]))
        == FlatInterfered(RunFlat(Forget(LoopOf(ss[lo])), p.turns, c.capacity, c.watermark), p.before)
    ensures Forget(LoopOf(ss[lo])).accepted == Records(ss[lo].written)
    ensures Forget(LoopOf(ss[i])).accepted == Records(ss[i].written)
  {
    BehaviourFollows(c, ss, steps);
    BehaviourInvariant(c, ss, steps, lo);
    BehaviourInvariant(c, ss, steps, i);
    var p, start := ProgressOf(ss, steps, lo, i), LoopOf(ss[lo]);
    LoopRefined(c, ss, steps, lo, i);
    hide Follows, Behaviour, Sound, Sized, Genuine, Flatten, RunLoop, RunFlat, ProgressOf, AllFit, Records;
    SegmentsRefineLog(start, p.turns, c.capacity, c.watermark, c.segmentSize);
  }

  /**
   With a watermark of at least 2, from any degraded state at the top of the writer's loop, and while no record is sent
   and the sampler is silent: once the watermark has been judged more often than records were queued, the system is
   healthy and the queue empty. Of the queue exactly the last records, as many as the clearing threshold lets stand,
   have been written, in order, and the ones before them counted as dropped.
   */
  lemma SystemRecovers(c: Config, ss: seq<System>, steps: seq<Step>, lo: nat, i: nat, capacity: nat)
    requires Behaviour(c, ss, steps) && lo <= i < |ss| && ss[lo].writer.Checking? && ss[i].writer.Checking?
    requires c.capacity == Some(capacity) && c.watermark >= 2 && ss[lo].degraded
    requires Calm(steps, lo, i) && Checks(steps, lo, i) > |ss[lo].queue|
    ensures capacity > 0 && !ss[i].degraded && ss[i].queue == []
    ensures var q := Records(ss[lo].queue);
      var kept := Smaller(|q|, ClearFill(capacity, c.watermark));
      && Records(ss[i].written) == Records(ss[lo].written) + q[|q| - kept..]
      && ss[i].droppedRecords == ss[lo].droppedRecords + |q| - kept
  {
    FlatRefined(c, ss, steps, lo, i);
    TurnsAreChecks(c, ss, steps, lo, i);
    CalmTurns(c, ss, steps, lo, i);
    var p, start := ProgressOf(ss, steps, lo, i), Forget(LoopOf(ss[lo]));
    hide Follows, Behaviour, Flatten, RunFlat, ProgressOf, ClearFill, Calm, Checks;
    BoundedRecovery(start, p.turns, capacity, c.watermark);
    NothingFlat(RunFlat(start, p.turns, c.capacity, c.watermark));
  }

  lemma NothingFlat(f: Flat)
    ensures FlatInterfered(f, NOTHING) == f
  {
    assert f.queue + [] == f.queue;
  }

  /**
   With a watermark of 0 or 1 a degraded system stays degraded and writes nothing, whatever is captured and sent, for as
   long as the sampler does not clear the flag.
   */
  lemma SystemStuck(c: Config, ss: seq<System>, steps: seq<Step>, lo: nat, i: nat, capacity: nat)
    requires Behaviour(c, ss, steps) && lo <= i < |ss| && ss[lo].writer.Checking? && ss[i].writer.Checking?
    requires c.capacity == Some(capacity) && c.watermark < 2 && ss[lo].degraded
    requires forall t :: lo <= t < i ==> steps[t] != Sample(Some(false))
    ensures ss[i].degraded && Records(ss[i].written) == Records(ss[lo].written)
  {
    FlatRefined(c, ss, steps, lo, i);
    FlagsAreStored(ss, steps, lo, i, false);
    var p, start := ProgressOf(ss, steps, lo, i), Forget(LoopOf(ss[lo]));
    hide Follows, Behaviour, Flatten, RunFlat, ProgressOf;
    forall t | t in p.turns ensures t.before.flag != Some(false) && t.between.flag != Some(false) {
      assert !TurnStores(t, false);
    }
    NoRecovery(start, p.turns, capacity, c.watermark);
  }

  /** An unbounded queue has no watermark: only the sampler changes the flag, in every interleaving. */
  lemma {:induction false} UnboundedFlag(c: Config, ss: seq<System>, steps: seq<Step>, lo: nat, i: nat)
    requires Follows(c, ss, steps) && lo <= i < |ss| && c.capacity.None?
    requires forall t :: lo <= t < i ==> steps[t] != Sample(Some(!ss[lo].degraded))
    ensures ss[i].degraded == ss[lo].degraded
    decreases i
  {
    hide Enabled, Next;
    if i > lo {
      UnboundedFlag(c, ss, steps, lo, i - 1);
      UnboundedStep(c, ss[i - 1], steps[i - 1]);
    }
  }

  lemma UnboundedStep(c: Config, s: System, step: Step)
    requires c.capacity.None? && Enabled(c, s, step)
    ensures Next(c, s, step).degraded == if step.Sample? && step.store.Some? then step.store.value else s.degraded
  {
    hide Slicer.Process, Accept, Rotate;
  }
}
