/** The writer thread of the pipeline, in every interleaving, runs its own loop on what the other threads really did. */
module WriterRefinement {
  import opened Options
  import opened WalHeader
  import opened Guard
  import opened Slicer
  import opened WriterModel
  import opened Pipeline
  import opened CaptureRefinement

  function LoopOf(s: System): Loop { Loop(Records(s.queue), s.degraded, s.history, s.droppedRecords) }

  /**
   How far the writer is: whole turns, and of the one it is in what the others did before the fill was read, between
   that and the flag's update, from there to the flag's next read, and since then.
   */
  datatype Progress = Progress(
    turns: seq<Turn>, before: Interference, arrivals: seq<WalRecord>, between: Interference, after: Interference)

  const NOTHING := Interference([], None)

  function Then(i: Interference, j: Interference): Interference {
    Interference(i.arrivals + j.arrivals, if j.flag.Some? then j.flag else i.flag)
  }

  lemma InterferedThen(l: Loop, i: Interference, j: Interference)
    ensures Interfered(Interfered(l, i), j) == Interfered(l, Then(i, j))
  {
    assert l.queue + i.arrivals + j.arrivals == l.queue + (i.arrivals + j.arrivals);
  }

  lemma InterferedNothing(l: Loop)
    ensures Interfered(l, NOTHING) == l
  {
    assert l.queue + [] == l.queue;
  }

  function Done(c: Config, start: Loop, p: Progress): Loop
    requires c.capacity != Some(0)
  {
    RunLoop(start, p.turns, c.capacity, c.watermark, c.segmentSize)
  }

  function Judged(c: Config, l: Loop): Loop
    requires c.capacity != Some(0)
  {
    l.(degraded := HotPath(l.degraded, |l.queue|, c.capacity, c.watermark))
  }

  /** The loop just before the receive of the turn it is in. */
  function AtReceive(c: Config, start: Loop, p: Progress): Loop
    requires c.capacity != Some(0)
  {
    Interfered(Judged(c, Interfered(Done(c, start, p), p.before)), p.between)
  }

  /** One record received and handled, the rotation still to come. */
  function HandledOne(c: Config, l: Loop): Loop
    requires l.queue != []
  {
    if l.degraded then l.(queue := l.queue[1..], dropped := l.dropped + 1)
    else l.(queue := l.queue[1..], history := Accept(l.history, l.queue[0], c.segmentSize))
  }

  ghost predicate WriterRuns(c: Config, start: Loop, s: System, p: Progress)
    requires c.capacity != Some(0)
  {
    match s.writer
    case Checking => LoopOf(s) == Interfered(Done(c, start, p), p.before)
    case Judging(fill) =>
      var l := Interfered(Done(c, start, p), p.before);
      fill == |l.queue| && LoopOf(s) == l.(queue := l.queue + p.arrivals)
    case Receiving => LoopOf(s) == AtReceive(c, start, p)
    case Handling(item) =>
      var l := AtReceive(c, start, p);
      l.queue != [] && l.queue[0] == item.record && LoopOf(s) == l.(queue := l.queue[1..])
    case Rotating =>
      var l := AtReceive(c, start, p);
      l.queue != [] && LoopOf(s) == Interfered(HandledOne(c, l), p.after)
  }

  // ---------- What the others really did ----------

  predicate Others(step: Step) { step.Take? || step.Slice? || step.Send? || step.Sample? }

  /** What a step of capture or the sampler is to the writer: the record it sends, the value it stores in the flag. */
  function Effect(s: System, step: Step): Interference {
    match step
    case Send => if s.capture.Sending? then Interference([s.capture.item.record], None) else NOTHING
    case Sample(store) => Interference([], store)
    case _ => NOTHING
  }

  function NextProgress(s: System, step: Step, p: Progress): Progress {
    var i := Effect(s, step);
    match step
    case Look => p
    case Judge => p.(between := Interference(p.arrivals, None), arrivals := [])
    case Receive =>
      if s.queue == [] then Progress(p.turns + [Turn(p.before, p.between, false, 0)], NOTHING, [], NOTHING, NOTHING)
      else p
    case Handle => p
    case EndTurn(due) => Progress(p.turns + [Turn(p.before, p.between, due, 0)], p.after, [], NOTHING, NOTHING)
    case _ =>
      match s.writer
      case Checking => p.(before := Then(p.before, i))
      case Judging(_) =>
        p.(before := Then(p.before, Interference([], i.flag)), arrivals := p.arrivals + i.arrivals)
      case Receiving => p.(between := Then(p.between, i))
      case Handling(_) => p.(between := Then(p.between, i))
      case Rotating => p.(after := Then(p.after, i))
  }

  /** The turns and the part of a turn that the steps from lo to i amount to. */
  function ProgressOf(ss: seq<System>, steps: seq<Step>, lo: nat, i: nat): Progress
    requires lo <= i <= |steps| && i <= |ss|
    decreases i - lo
  {
    if i == lo then Progress([], NOTHING, [], NOTHING, NOTHING)
    else NextProgress(ss[i - 1], steps[i - 1], ProgressOf(ss, steps, lo, i - 1))
  }

  /** Fields of the phases that are not reached are empty. */
  predicate Tidy(s: System, p: Progress) {
    && (!s.writer.Judging? ==> p.arrivals == [])
    && (s.writer.Checking? || s.writer.Judging? ==> p.between == NOTHING)
    && (!s.writer.Rotating? ==> p.after == NOTHING)
  }

  lemma NextTidy(c: Config, s: System, step: Step, p: Progress)
    requires c.capacity != Some(0) && Enabled(c, s, step) && Tidy(s, p)
    ensures Tidy(Next(c, s, step), NextProgress(s, step, p))
  {
    hide Process, Accept, Rotate, HotPath;
  }

  lemma EffectIs(c: Config, s: System, step: Step)
    requires c.capacity != Some(0) && Enabled(c, s, step) && Others(step)
    ensures LoopOf(Next(c, s, step)) == Interfered(LoopOf(s), Effect(s, step))
    ensures Next(c, s, step).writer == s.writer
  {
    hide Process, Accept, Rotate, HotPath;
    InterferedNothing(LoopOf(s));
    match step {
      case Send => RecordsSnoc(s.queue, s.capture.item);
      case _ =>
    }
  }

  /** Between the look and the flag's update: what arrives does not change the fill that was read. */
  lemma OthersJudging(c: Config, start: Loop, s: System, s': System, p: Progress, i: Interference, p': Progress)
    requires c.capacity != Some(0) && WriterRuns(c, start, s, p) && s.writer.Judging? && s'.writer == s.writer
    requires LoopOf(s') == Interfered(LoopOf(s), i)
    requires p' == p.(before := Then(p.before, Interference([], i.flag)), arrivals := p.arrivals + i.arrivals)
    ensures WriterRuns(c, start, s', p')
  {
    hide HotPath, RunLoop, Accept, LoopOf;
  }

  /** After the receive: what arrives goes behind the record in hand. */
  lemma OthersHandling(c: Config, start: Loop, s: System, s': System, p: Progress, i: Interference, p': Progress)
    requires c.capacity != Some(0) && WriterRuns(c, start, s, p) && s.writer.Handling? && s'.writer == s.writer
    requires LoopOf(s') == Interfered(LoopOf(s), i) && p' == p.(between := Then(p.between, i))
    ensures WriterRuns(c, start, s', p')
  {
    InterferedThen(Judged(c, Interfered(Done(c, start, p), p.before)), p.between, i);
    hide HotPath, RunLoop, Accept, LoopOf, Judged, Done, Then;
  }

  lemma OthersElsewhere(c: Config, start: Loop, s: System, s': System, p: Progress, i: Interference, p': Progress)
    requires c.capacity != Some(0) && WriterRuns(c, start, s, p) && s'.writer == s.writer
    requires s.writer.Checking? || s.writer.Receiving? || s.writer.Rotating?
    requires LoopOf(s') == Interfered(LoopOf(s), i)
    requires p' == if s.writer.Checking? then p.(before := Then(p.before, i))
                   else if s.writer.Receiving? then p.(between := Then(p.between, i))
                   else p.(after := Then(p.after, i))
    ensures WriterRuns(c, start, s', p')
  {
    InterferedThen(Done(c, start, p), p.before, i);
    InterferedThen(Judged(c, Interfered(Done(c, start, p), p.before)), p.between, i);
    if s.writer.Rotating? { InterferedThen(HandledOne(c, AtReceive(c, start, p)), p.after, i); }
    hide HotPath, RunLoop, Accept, LoopOf, Judged, Done, Then, Interfered, HandledOne;
  }

  lemma OthersStep(c: Config, start: Loop, s: System, step: Step, p: Progress)
    requires c.capacity != Some(0) && Enabled(c, s, step) && Others(step) && WriterRuns(c, start, s, p)
    ensures WriterRuns(c, start, Next(c, s, step), NextProgress(s, step, p))
  {
    EffectIs(c, s, step);
    var s', i, p' := Next(c, s, step), Effect(s, step), NextProgress(s, step, p);
    hide Next, Enabled, Effect, LoopOf, WriterRuns, Then;
    if s.writer.Judging? {
      OthersJudging(c, start, s, s', p, i, p');
    } else if s.writer.Handling? {
      OthersHandling(c, start, s, s', p, i, p');
    } else {
      OthersElsewhere(c, start, s, s', p, i, p');
    }
  }

  lemma DoneSnoc(c: Config, start: Loop, p: Progress, due: bool, p': Progress)
    requires c.capacity != Some(0) && p'.turns == p.turns + [Turn(p.before, p.between, due, 0)]
    ensures Done(c, start, p') == WriterModel.Received(AtReceive(c, start, p), due, c.segmentSize)
  {
    assert p'.turns[..|p.turns|] == p.turns;
    hide Accept, Rotate, HotPath, Interfered;
  }

  lemma JudgeStep(c: Config, start: Loop, s: System, p: Progress)
    requires c.capacity != Some(0) && s.writer.Judging? && WriterRuns(c, start, s, p)
    ensures WriterRuns(c, start, Next(c, s, Judge), NextProgress(s, Judge, p))
  {
    hide HotPath, RunLoop, Done;
    DoneTurns(c, start, p, NextProgress(s, Judge, p));
  }

  lemma LookStep(c: Config, start: Loop, s: System, p: Progress)
    requires c.capacity != Some(0) && s.writer.Checking? && WriterRuns(c, start, s, p) && Tidy(s, p)
    ensures WriterRuns(c, start, Next(c, s, Look), NextProgress(s, Look, p))
  {
    hide HotPath, RunLoop, Done;
    assert LoopOf(s).queue + [] == LoopOf(s).queue;
  }

  lemma DoneTurns(c: Config, start: Loop, p: Progress, q: Progress)
    requires c.capacity != Some(0) && p.turns == q.turns
    ensures Done(c, start, p) == Done(c, start, q)
  {}

  lemma ReceiveStep(c: Config, start: Loop, s: System, p: Progress)
    requires c.capacity != Some(0) && s.writer.Receiving? && WriterRuns(c, start, s, p)
    ensures WriterRuns(c, start, Next(c, s, Receive), NextProgress(s, Receive, p))
  {
    hide HotPath, RunLoop, Done, AtReceive, Accept, Rotate;
    if s.queue == [] {
      var p' := NextProgress(s, Receive, p);
      DoneSnoc(c, start, p, false, p');
      InterferedNothing(Done(c, start, p'));
    } else {
      assert Records(s.queue)[1..] == Records(s.queue[1..]);
    }
  }

  lemma HandleStep(c: Config, start: Loop, s: System, p: Progress)
    requires c.capacity != Some(0) && s.writer.Handling? && WriterRuns(c, start, s, p) && Tidy(s, p)
    ensures WriterRuns(c, start, Next(c, s, Handle), NextProgress(s, Handle, p))
  {
    hide HotPath, RunLoop, Done, Accept, Rotate;
    InterferedNothing(HandledOne(c, AtReceive(c, start, p)));
    hide Interfered, Judged;
  }

  lemma EndTurnStep(c: Config, start: Loop, s: System, due: bool, p: Progress)
    requires c.capacity != Some(0) && s.writer.Rotating? && WriterRuns(c, start, s, p)
    ensures WriterRuns(c, start, Next(c, s, EndTurn(due)), NextProgress(s, EndTurn(due), p))
  {
    hide HotPath, RunLoop, Done, Accept, Rotate, AtReceive;
    DoneSnoc(c, start, p, due, NextProgress(s, EndTurn(due), p));
  }

  lemma WriterStep(c: Config, start: Loop, s: System, step: Step, p: Progress)
    requires c.capacity != Some(0) && Enabled(c, s, step) && WriterRuns(c, start, s, p) && Tidy(s, p)
    ensures WriterRuns(c, start, Next(c, s, step), NextProgress(s, step, p))
  {
    hide WriterRuns, Next, NextProgress, Tidy;
    match step {
      case Look => LookStep(c, start, s, p);
      case Judge => JudgeStep(c, start, s, p);
      case Receive => ReceiveStep(c, start, s, p);
      case Handle => HandleStep(c, start, s, p);
      case EndTurn(due) => EndTurnStep(c, start, s, due, p);
      case _ => OthersStep(c, start, s, step, p);
    }
  }

  // ---------- Runs ----------

  /** Steps that follow one another, from anywhere. */
  ghost predicate Follows(c: Config, ss: seq<System>, steps: seq<Step>) {
    && c.capacity != Some(0) && |ss| == |steps| + 1
    && forall i :: 0 <= i < |steps| ==> Enabled(c, ss[i], steps[i]) && ss[i + 1] == Next(c, ss[i], steps[i])
  }

  lemma BehaviourFollows(c: Config, ss: seq<System>, steps: seq<Step>)
    requires Behaviour(c, ss, steps)
    ensures Follows(c, ss, steps)
  {
    hide Enabled, Next, Initial;
  }

  lemma WriterStart(c: Config, s: System)
    requires c.capacity != Some(0) && s.writer.Checking?
    ensures WriterRuns(c, LoopOf(s), s, Progress([], NOTHING, [], NOTHING, NOTHING))
  {
    InterferedNothing(LoopOf(s));
  }

  /**
   In every interleaving, with any steps of the others between any two of its own, the writer is where its loop is after
   the turns that the steps amount to, on the records really sent and the values really stored meanwhile.
   */
  lemma {:induction false} WriterRefined(c: Config, ss: seq<System>, steps: seq<Step>, lo: nat, i: nat)
    requires Follows(c, ss, steps) && lo <= i < |ss| && ss[lo].writer.Checking?
    ensures WriterRuns(c, LoopOf(ss[lo]), ss[i], ProgressOf(ss, steps, lo, i))
    ensures Tidy(ss[i], ProgressOf(ss, steps, lo, i))
    decreases i
  {
    hide Enabled, Next, LoopOf, NextProgress, WriterRuns;
    if i == lo {
      WriterStart(c, ss[lo]);
    } else {
      WriterRefined(c, ss, steps, lo, i - 1);
      var q := ProgressOf(ss, steps, lo, i - 1);
      WriterStep(c, LoopOf(ss[lo]), ss[i - 1], steps[i - 1], q);
      NextTidy(c, ss[i - 1], steps[i - 1], q);
    }
  }

  /** At the top of the loop queue, flag, segments and drop counter are those of the loop on values. */
  lemma LoopRefined(c: Config, ss: seq<System>, steps: seq<Step>, lo: nat, i: nat)
    requires Follows(c, ss, steps) && lo <= i < |ss| && ss[lo].writer.Checking? && ss[i].writer.Checking?
    ensures var p := ProgressOf(ss, steps, lo, i);
      LoopOf(ss[i])
        == Interfered(RunLoop(LoopOf(ss[lo]), p.turns, c.capacity, c.watermark, c.segmentSize), p.before)
  {
    hide Enabled, Next, LoopOf, RunLoop, Interfered, NextProgress, WriterRuns;
    WriterRefined(c, ss, steps, lo, i);
    AtTop(c, LoopOf(ss[lo]), ss[i], ProgressOf(ss, steps, lo, i));
  }

  lemma AtTop(c: Config, start: Loop, s: System, p: Progress)
    requires c.capacity != Some(0) && WriterRuns(c, start, s, p) && s.writer.Checking?
    ensures LoopOf(s) == Interfered(RunLoop(start, p.turns, c.capacity, c.watermark, c.segmentSize), p.before)
  {}

  // ---------- The turns carry exactly what the others did ----------

  function TurnArrivals(ts: seq<Turn>): seq<WalRecord>
    decreases |ts|
  {
    if ts == [] then []
    else
      var t := ts[|ts| - 1];
      TurnArrivals(ts[..|ts| - 1]) + t.before.arrivals + t.between.arrivals
  }

  function AllArrivals(p: Progress): seq<WalRecord> {
    TurnArrivals(p.turns) + p.before.arrivals + p.arrivals + p.between.arrivals + p.after.arrivals
  }

  lemma TurnArrivalsSnoc(ts: seq<Turn>, t: Turn)
    ensures TurnArrivals(ts + [t]) == TurnArrivals(ts) + t.before.arrivals + t.between.arrivals
  {
    assert (ts + [t])[..|ts|] == ts;
  }

  lemma EndedArrivals(s: System, p: Progress, due: bool, p': Progress)
    requires Tidy(s, p) && (s.writer.Receiving? || s.writer.Rotating?)
    requires p' == Progress(p.turns + [Turn(p.before, p.between, due, 0)], p.after, [], NOTHING, NOTHING)
    ensures AllArrivals(p') == AllArrivals(p)
  {
    TurnArrivalsSnoc(p.turns, Turn(p.before, p.between, due, 0));
  }

  lemma NextArrivals(s: System, step: Step, p: Progress)
    requires Tidy(s, p) && InPlace(s, step)
    ensures AllArrivals(NextProgress(s, step, p)) == AllArrivals(p) + Effect(s, step).arrivals
  {
    var p' := NextProgress(s, step, p);
    hide TurnArrivals;
    if step.Receive? && s.queue == [] {
      EndedArrivals(s, p, false, p');
    } else if step.EndTurn? {
      EndedArrivals(s, p, step.due, p');
    }
  }

  lemma SentEffect(c: Config, s: System, step: Step)
    requires c.capacity != Some(0) && Enabled(c, s, step)
    ensures Records(Next(c, s, step).sent) == Records(s.sent) + Effect(s, step).arrivals
  {
    hide Process, Accept, Rotate, HotPath;
    if step.Send? { RecordsSnoc(s.sent, s.capture.item); }
  }

  /** The records that arrive in the turns, one after the other, are those capture sent in the meantime. */
  lemma {:induction false} ArrivalsAreSent(c: Config, ss: seq<System>, steps: seq<Step>, lo: nat, i: nat)
    requires Follows(c, ss, steps) && lo <= i < |ss| && ss[lo].writer.Checking?
    ensures Records(ss[i].sent) == Records(ss[lo].sent) + AllArrivals(ProgressOf(ss, steps, lo, i))
    decreases i
  {
    hide Enabled, Next, NextProgress, AllArrivals, Records, Tidy, Effect, WriterRuns;
    if i == lo {
      NoArrivals();
      assert Records(ss[lo].sent) + [] == Records(ss[lo].sent);
    } else {
      ArrivalsAreSent(c, ss, steps, lo, i - 1);
      WriterRefined(c, ss, steps, lo, i - 1);
      assert Enabled(c, ss[i - 1], steps[i - 1]);
      EnabledAt(c, ss[i - 1], steps[i - 1]);
      NextArrivals(ss[i - 1], steps[i - 1], ProgressOf(ss, steps, lo, i - 1));
      SentEffect(c, ss[i - 1], steps[i - 1]);
    }
  }

  /** The writer's own steps come where they belong. */
  predicate InPlace(s: System, step: Step) {
    && (step.Judge? ==> s.writer.Judging?)
    && (step.Receive? ==> s.writer.Receiving?)
    && (step.EndTurn? ==> s.writer.Rotating?)
  }

  lemma EnabledAt(c: Config, s: System, step: Step)
    requires Enabled(c, s, step)
    ensures InPlace(s, step)
  {}

  lemma NoArrivals()
    ensures AllArrivals(Progress([], NOTHING, [], NOTHING, NOTHING)) == []
  {}

  predicate TurnStores(t: Turn, b: bool) { t.before.flag == Some(b) || t.between.flag == Some(b) }

  /** Some interference of p stores b. */
  ghost predicate Stores(p: Progress, b: bool) {
    || (exists t :: t in p.turns && TurnStores(t, b))
    || p.before.flag == Some(b) || p.between.flag == Some(b) || p.after.flag == Some(b)
  }

  lemma NextStores(s: System, step: Step, p: Progress, b: bool)
    requires step != Sample(Some(b)) && !Stores(p, b)
    ensures !Stores(NextProgress(s, step, p), b)
  {
    var p' := NextProgress(s, step, p);
    forall t | t in p'.turns ensures !TurnStores(t, b) {
      if t !in p.turns { assert t.before == p.before && t.between == p.between; }
    }
  }

  /** A value stored in the flag by some turn was stored by the sampler at some step in the meantime. */
  lemma {:induction false} FlagsAreStored(ss: seq<System>, steps: seq<Step>, lo: nat, i: nat, b: bool)
    requires lo <= i <= |steps| && i <= |ss|
    ensures Stores(ProgressOf(ss, steps, lo, i), b) ==> exists t :: lo <= t < i && steps[t] == Sample(Some(b))
    decreases i
  {
    hide NextProgress, Stores;
    if i == lo {
      NoStores(b);
    } else {
      FlagsAreStored(ss, steps, lo, i - 1, b);
      if steps[i - 1] != Sample(Some(b)) && !Stores(ProgressOf(ss, steps, lo, i - 1), b) {
        NextStores(ss[i - 1], steps[i - 1], ProgressOf(ss, steps, lo, i - 1), b);
      }
    }
  }

  lemma NoStores(b: bool)
    ensures !Stores(Progress([], NOTHING, [], NOTHING, NOTHING), b)
  {}
}
