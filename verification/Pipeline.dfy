/** Capture, queue, writer and sampler as interleaved steps: where every captured frame is at every moment. */
module Pipeline {
  import opened Options
  import opened WalHeader
  import opened Guard
  import opened Slicer
  import opened WriterModel
  import opened Sequences

  datatype Config = Config(
    frames: seq<Packet>, maxPayload: nat, capacity: Option<nat>, watermark: nat, segmentSize: nat)

  /** Frame number and the record made of it. */
  datatype Tagged = Tagged(no: nat, record: WalRecord)

  datatype CaptureAt = Polling | Slicing(no: nat, frame: Packet) | Sending(item: Tagged)

  datatype WriterAt = Checking | Judging(fill: nat) | Receiving | Handling(item: Tagged) | Rotating

  datatype System = System(
    consumed: nat, capture: CaptureAt, queue: seq<Tagged>, writer: WriterAt, degraded: bool, history: History,
    // everything capture ever put into the queue, in order
    sent: seq<Tagged>,
    // where frames ended up
    unsliced: set<nat>, rejected: set<nat>, written: seq<Tagged>, discarded: seq<Tagged>,
    // the same as the threads count it
    captureDropped: nat, writtenRecords: nat, droppedRecords: nat)

  datatype Step =
    | Take                 // the next frame from the ring: dropped at once when degraded
    | Slice(ts: bv64)      // parse and cut it; the flag is read again
    | Send                 // into the queue, once there is room
    | Look                 // the writer's watermark check: it reads how full the queue is,
    | Judge                // and then sets, clears or leaves the flag
    | Receive              // out of the queue, or a timeout
    | Handle               // write or drop
    | EndTurn(due: bool)   // time rotation
    | Sample(store: Option<bool>)

  predicate HasRoom(c: Config, s: System) { c.capacity.None? || |s.queue| < c.capacity.value }

  predicate Enabled(c: Config, s: System, step: Step) {
    match step
    case Take => s.capture.Polling? && s.consumed < |c.frames|
    case Slice(_) => s.capture.Slicing?
    case Send => s.capture.Sending? && HasRoom(c, s)
    case Look => s.writer.Checking?
    case Judge => s.writer.Judging?
    case Receive => s.writer.Receiving?
    case Handle => s.writer.Handling?
    case EndTurn(_) => s.writer.Rotating?
    case Sample(_) => true
  }

  function Taken(c: Config, s: System): System
    requires s.consumed < |c.frames|
  {
    if s.degraded then
      s.(consumed := s.consumed + 1, unsliced := s.unsliced + {s.consumed}, captureDropped := s.captureDropped + 1)
    else s.(consumed := s.consumed + 1, capture := Slicing(s.consumed, c.frames[s.consumed]))
  }

  function Sliced(c: Config, s: System, ts: bv64): System
    requires s.capture.Slicing?
  {
    match Process(c.maxPayload, s.capture.frame, ts, s.degraded)
    case None => s.(capture := Polling, rejected := s.rejected + {s.capture.no})
    case Some(r) => s.(capture := Sending(Tagged(s.capture.no, r)))
  }

  function Received(s: System): System {
    if s.queue == [] then s.(writer := Checking)
    else s.(writer := Handling(s.queue[0]), queue := s.queue[1..])
  }

  function Handled(c: Config, s: System): System
    requires s.writer.Handling?
  {
    var item := s.writer.item;
    if s.degraded then
      s.(writer := Rotating, discarded := s.discarded + [item], droppedRecords := s.droppedRecords + 1)
    else
      s.(writer := Rotating, written := s.written + [item], writtenRecords := s.writtenRecords + 1,
         history := Accept(s.history, item.record, c.segmentSize))
  }

  function Next(c: Config, s: System, step: Step): System
    requires c.capacity != Some(0) && Enabled(c, s, step)
  {
    match step
    case Take => Taken(c, s)
    case Slice(ts) => Sliced(c, s, ts)
    case Send => s.(capture := Polling, queue := s.queue + [s.capture.item], sent := s.sent + [s.capture.item])
    case Look => s.(writer := Judging(|s.queue|))
    case Judge => s.(writer := Receiving, degraded := HotPath(s.degraded, s.writer.fill, c.capacity, c.watermark))
    case Receive => Received(s)
    case Handle => Handled(c, s)
    case EndTurn(due) => s.(writer := Checking, history := Rotate(s.history, due))
    case Sample(store) => s.(degraded := if store.Some? then store.value else s.degraded)
  }

  ghost predicate Initial(s: System) {
    && s.consumed == 0 && s.capture.Polling? && s.queue == [] && s.writer.Checking? && s.history == [[]] && s.sent == []
    && s.unsliced == {} && s.rejected == {} && s.written == [] && s.discarded == []
    && s.captureDropped == 0 && s.writtenRecords == 0 && s.droppedRecords == 0
  }

  // ---------- Where the frames are ----------

  /** The places a consumed frame can be in; inFlight is what is in hand or queued, oldest first. */
  datatype Places = Places(consumed: nat, unsliced: set<nat>, rejected: set<nat>, slicing: set<nat>,
                           written: seq<Tagged>, discarded: seq<Tagged>, inFlight: seq<Tagged>)

  function WriterHand(s: System): seq<Tagged> { if s.writer.Handling? then [s.writer.item] else [] }

  function CaptureHand(s: System): seq<Tagged> { if s.capture.Sending? then [s.capture.item] else [] }

  function PlacesOf(s: System): Places {
    Places(s.consumed, s.unsliced, s.rejected, if s.capture.Slicing? then {s.capture.no} else {},
           s.written, s.discarded, WriterHand(s) + s.queue + CaptureHand(s))
  }

  function Numbers(items: seq<Tagged>): set<nat> { set t | t in items :: t.no }

  function One(b: bool): nat { if b then 1 else 0 }

  /** In how many places frame n is. */
  function Count(p: Places, n: nat): nat {
    One(n in p.unsliced) + One(n in p.rejected) + One(n in p.slicing)
    + One(n in Numbers(p.written)) + One(n in Numbers(p.discarded)) + One(n in Numbers(p.inFlight))
  }

  ghost predicate Ascending(items: seq<Tagged>) {
    forall i, j :: 0 <= i < j < |items| ==> items[i].no < items[j].no
  }

  /**
   Every consumed frame is in exactly one place, the records written so far and those on their way are in the
   order of capture, and so are the discarded ones.
   */
  ghost predicate Sound(p: Places) {
    && (forall n: nat :: Count(p, n) == One(n < p.consumed))
    && Ascending(p.written + p.inFlight) && Ascending(p.discarded + p.inFlight)
    && (forall n :: n in p.slicing ==> n + 1 == p.consumed)
  }

  ghost predicate Sized(p: Places) {
    p.consumed == |p.unsliced| + |p.rejected| + |p.slicing| + |p.written| + |p.discarded| + |p.inFlight|
  }

  lemma NumbersAppend(a: seq<Tagged>, b: seq<Tagged>)
    ensures Numbers(a + b) == Numbers(a) + Numbers(b)
  {
    assert forall t :: t in a + b <==> t in a || t in b;
  }

  lemma NumbersSnoc(a: seq<Tagged>, t: Tagged)
    ensures Numbers(a + [t]) == Numbers(a) + {t.no}
  {
    NumbersAppend(a, [t]);
    assert Numbers([t]) == {t.no};
  }

  lemma NumbersCons(t: Tagged, a: seq<Tagged>)
    ensures Numbers([t] + a) == Numbers(a) + {t.no}
  {
    NumbersAppend([t], a);
    assert Numbers([t]) == {t.no};
  }

  lemma NextConsumed(p: Places)
    requires Sound(p)
    ensures p.consumed !in p.unsliced
    ensures forall t :: t in p.written + p.inFlight || t in p.discarded + p.inFlight ==> t.no < p.consumed
  {
    assert Count(p, p.consumed) == 0;
    hide Ascending;
    forall t | t in p.written + p.inFlight || t in p.discarded + p.inFlight ensures t.no < p.consumed {
      assert t in p.written || t in p.discarded || t in p.inFlight;
      assert Count(p, t.no) > 0;
    }
  }

  lemma DropSound(p: Places)
    requires Sound(p) && Sized(p) && p.slicing == {}
    ensures Sound(p.(consumed := p.consumed + 1, unsliced := p.unsliced + {p.consumed}))
    ensures Sized(p.(consumed := p.consumed + 1, unsliced := p.unsliced + {p.consumed}))
  {
    hide Ascending, Numbers;
    var p' := p.(consumed := p.consumed + 1, unsliced := p.unsliced + {p.consumed});
    NextConsumed(p);
    forall n: nat ensures Count(p', n) == One(n < p'.consumed) {
      assert Count(p, n) == One(n < p.consumed);
    }
  }

  lemma StartSound(p: Places)
    requires Sound(p) && Sized(p) && p.slicing == {}
    ensures Sound(p.(consumed := p.consumed + 1, slicing := {p.consumed}))
    ensures Sized(p.(consumed := p.consumed + 1, slicing := {p.consumed}))
  {
    hide Ascending, Numbers;
    var p' := p.(consumed := p.consumed + 1, slicing := {p.consumed});
    forall n: nat ensures Count(p', n) == One(n < p'.consumed) {
      assert Count(p, n) == One(n < p.consumed);
    }
  }

  lemma RejectSound(p: Places, n: nat)
    requires Sound(p) && Sized(p) && p.slicing == {n}
    ensures Sound(p.(rejected := p.rejected + {n}, slicing := {}))
    ensures Sized(p.(rejected := p.rejected + {n}, slicing := {}))
  {
    hide Ascending, Numbers;
    var p' := p.(rejected := p.rejected + {n}, slicing := {});
    assert Count(p, n) == 1;
    forall m: nat ensures Count(p', m) == One(m < p'.consumed) {
      assert Count(p, m) == One(m < p.consumed);
    }
  }

  lemma MakeSound(p: Places, t: Tagged)
    requires Sound(p) && Sized(p) && p.slicing == {t.no}
    ensures Sound(p.(slicing := {}, inFlight := p.inFlight + [t]))
    ensures Sized(p.(slicing := {}, inFlight := p.inFlight + [t]))
  {
    var p' := p.(slicing := {}, inFlight := p.inFlight + [t]);
    NumbersSnoc(p.inFlight, t);
    NextConsumed(p);
    LatestNumber(p, t);
    AscendingSnoc(p.written + p.inFlight, t);
    AscendingSnoc(p.discarded + p.inFlight, t);
    hide Ascending, Numbers;
    assert p'.written + p'.inFlight == p.written + p.inFlight + [t];
    assert p'.discarded + p'.inFlight == p.discarded + p.inFlight + [t];
    forall m: nat ensures Count(p', m) == One(m < p'.consumed) {
      assert Count(p, m) == One(m < p.consumed);
    }
  }

  lemma LatestNumber(p: Places, t: Tagged)
    requires Sound(p) && p.slicing == {t.no}
    ensures forall x :: x in p.written + p.inFlight || x in p.discarded + p.inFlight ==> x.no < t.no
  {
    NextConsumed(p);
    hide Ascending;
    forall x | x in p.written + p.inFlight || x in p.discarded + p.inFlight ensures x.no < t.no {
      assert x in p.written || x in p.discarded || x in p.inFlight;
      assert x.no == t.no ==> Count(p, t.no) >= 2;
    }
  }

  lemma AscendingSnoc(items: seq<Tagged>, t: Tagged)
    requires Ascending(items) && forall x :: x in items ==> x.no < t.no
    ensures Ascending(items + [t])
  {}

  lemma AscendingTail(items: seq<Tagged>, t: Tagged, rest: seq<Tagged>)
    requires Ascending(items + ([t] + rest))
    ensures Ascending(items + rest) && Ascending(items + [t] + rest)
  {
    var all := items + ([t] + rest);
    assert items + [t] + rest == all;
    forall i, j | 0 <= i < j < |items + rest| ensures (items + rest)[i].no < (items + rest)[j].no {
      var i', j' := if i < |items| then i else i + 1, if j < |items| then j else j + 1;
      assert all[i'] == (items + rest)[i] && all[j'] == (items + rest)[j];
    }
  }

  lemma WriteSound(p: Places, t: Tagged, rest: seq<Tagged>)
    requires Sound(p) && Sized(p) && p.inFlight == [t] + rest
    ensures Sound(p.(written := p.written + [t], inFlight := rest))
    ensures Sized(p.(written := p.written + [t], inFlight := rest))
  {
    var p' := p.(written := p.written + [t], inFlight := rest);
    AscendingTail(p.written, t, rest);
    AscendingTail(p.discarded, t, rest);
    NumbersSnoc(p.written, t);
    NumbersCons(t, rest);
    HeadOnce(p, t, rest);
    hide Ascending, Numbers;
    forall m: nat ensures Count(p', m) == One(m < p'.consumed) {
      assert Count(p, m) == One(m < p.consumed);
    }
  }

  lemma DiscardSound(p: Places, t: Tagged, rest: seq<Tagged>)
    requires Sound(p) && Sized(p) && p.inFlight == [t] + rest
    ensures Sound(p.(discarded := p.discarded + [t], inFlight := rest))
    ensures Sized(p.(discarded := p.discarded + [t], inFlight := rest))
  {
    var p' := p.(discarded := p.discarded + [t], inFlight := rest);
    AscendingTail(p.written, t, rest);
    AscendingTail(p.discarded, t, rest);
    NumbersSnoc(p.discarded, t);
    NumbersCons(t, rest);
    HeadOnce(p, t, rest);
    hide Ascending, Numbers;
    forall m: nat ensures Count(p', m) == One(m < p'.consumed) {
      assert Count(p, m) == One(m < p.consumed);
    }
  }

  lemma HeadOnce(p: Places, t: Tagged, rest: seq<Tagged>)
    requires Ascending(p.written + p.inFlight) && p.inFlight == [t] + rest
    ensures t.no !in Numbers(rest)
  {
    forall x | x in rest ensures x.no != t.no {
      var j :| 0 <= j < |rest| && rest[j] == x;
      var all := p.written + p.inFlight;
      assert all[|p.written|] == t && all[|p.written| + 1 + j] == x;
    }
  }

  // ---------- One step ----------

  /** Capture's three ways of moving a frame on, and the writer's two; every other step moves none. */
  lemma StepSound(c: Config, s: System, step: Step)
    requires c.capacity != Some(0) && Enabled(c, s, step)
    requires Sound(PlacesOf(s)) && Sized(PlacesOf(s))
    ensures Sound(PlacesOf(Next(c, s, step))) && Sized(PlacesOf(Next(c, s, step)))
  {
    hide Sound, Sized, Process, Accept, Rotate, HotPath;
    var p := PlacesOf(s);
    match step {
      case Take => if s.degraded { DropSound(p); } else { StartSound(p); }
      case Slice(ts) =>
        match Process(c.maxPayload, s.capture.frame, ts, s.degraded) {
          case None => RejectSound(p, s.capture.no);
          case Some(r) => MadeAt(c, s, ts, r); MakeSound(p, Tagged(s.capture.no, r));
        }
      case Send =>
        assert WriterHand(s) + (s.queue + [s.capture.item]) + [] == WriterHand(s) + s.queue + [s.capture.item];
      case Receive => ReceivedSame(c, s);
      case Handle =>
        var rest := s.queue + CaptureHand(s);
        assert p.inFlight == [s.writer.item] + rest;
        assert [] + s.queue + CaptureHand(s) == rest;
        if s.degraded { DiscardSound(p, s.writer.item, rest); } else { WriteSound(p, s.writer.item, rest); }
      case _ =>
    }
  }

  lemma MadeAt(c: Config, s: System, ts: bv64, r: WalRecord)
    requires s.capture.Slicing? && Process(c.maxPayload, s.capture.frame, ts, s.degraded) == Some(r)
    ensures var p, t := PlacesOf(s), Tagged(s.capture.no, r);
      PlacesOf(Sliced(c, s, ts)) == p.(slicing := {}, inFlight := p.inFlight + [t])
  {
    hide Process;
    assert WriterHand(s) + s.queue + [] == WriterHand(s) + s.queue;
  }

  lemma ReceivedSame(c: Config, s: System)
    requires s.writer.Receiving?
    ensures PlacesOf(Received(s)) == PlacesOf(s)
  {
    if s.queue != [] {
      assert [s.queue[0]] + s.queue[1..] == [] + s.queue;
    }
  }

  // ---------- What else every step keeps ----------

  /** The threads' counters are the sizes of the places they stand for. */
  ghost predicate Tallied(s: System) {
    s.captureDropped == |s.unsliced| && s.writtenRecords == |s.written| && s.droppedRecords == |s.discarded|
  }

  /** What the slicer made of frame no, at some time and with the flag as it then was. */
  ghost predicate MadeFrom(c: Config, item: Tagged) {
    item.no < |c.frames| && exists ts, d :: Process(c.maxPayload, c.frames[item.no], ts, d) == Some(item.record)
  }

  ghost predicate Genuine(c: Config, s: System) {
    && (forall t :: t in s.written + s.discarded ==> MadeFrom(c, t))
    && (forall t :: t in WriterHand(s) + s.queue + CaptureHand(s) ==> MadeFrom(c, t))
    && (s.capture.Slicing? ==> s.capture.no < |c.frames| && c.frames[s.capture.no] == s.capture.frame)
    && (forall n :: n in s.rejected ==> n < |c.frames| && Unsliceable(c.frames[n]))
  }

  predicate Unsliceable(p: Packet) { !p.Ip? || p.transport.Other? }

  function Records(items: seq<Tagged>): (rs: seq<WalRecord>)
    ensures |rs| == |items| && forall i :: 0 <= i < |rs| ==> rs[i] == items[i].record
  {
    seq(|items|, i requires 0 <= i < |items| => items[i].record)
  }

  /** The segments hold the written records, in that order, each within the size limit. */
  ghost predicate Filed(c: Config, s: System) {
    Flatten(s.history) == Records(s.written) && AllFit(s.history, c.segmentSize)
  }

  ghost predicate Bounded(c: Config, s: System) {
    s.consumed <= |c.frames| && (c.capacity.Some? ==> |s.queue| <= c.capacity.value)
  }

  ghost predicate Invariant(c: Config, s: System) {
    Sound(PlacesOf(s)) && Sized(PlacesOf(s)) && Tallied(s) && Genuine(c, s) && Filed(c, s) && Bounded(c, s)
  }

  lemma StepTallied(c: Config, s: System, step: Step)
    requires c.capacity != Some(0) && Enabled(c, s, step)
    requires s.consumed !in s.unsliced && Tallied(s)
    ensures Tallied(Next(c, s, step))
  {
    hide Process, Accept, Rotate, HotPath;
    match step {
      case Take => AddFresh(s.unsliced, s.consumed);
      case Slice(ts) =>
        match Process(c.maxPayload, s.capture.frame, ts, s.degraded) {
          case None =>
          case Some(r) =>
        }
      case _ =>
    }
  }

  lemma AddFresh(s: set<nat>, n: nat)
    requires n !in s
    ensures |s + {n}| == |s| + 1
  {}

  lemma StepGenuine(c: Config, s: System, step: Step)
    requires c.capacity != Some(0) && Enabled(c, s, step)
    requires Genuine(c, s)
    ensures Genuine(c, Next(c, s, step))
  {
    hide Process, Accept, Rotate, HotPath, MadeFrom;
    match step {
      case Slice(ts) =>
        var no := s.capture.no;
        RejectedExactly(c.maxPayload, s.capture.frame, ts, s.degraded);
        match Process(c.maxPayload, s.capture.frame, ts, s.degraded) {
          case None =>
          case Some(r) => MadeNow(c, Tagged(no, r), ts, s.degraded);
        }
      case Receive => ReceivedSame(c, s);
      case _ =>
    }
  }

  lemma MadeNow(c: Config, item: Tagged, ts: bv64, d: bool)
    requires item.no < |c.frames| && Process(c.maxPayload, c.frames[item.no], ts, d) == Some(item.record)
    ensures MadeFrom(c, item)
  {}

  lemma RejectedExactly(maxPayload: nat, p: Packet, ts: bv64, d: bool)
    ensures Process(maxPayload, p, ts, d).None? <==> Unsliceable(p)
  {
    hide Flags, Mask, Slicer.Sliced, AsU32;
  }

  lemma StepFiled(c: Config, s: System, step: Step)
    requires c.capacity != Some(0) && Enabled(c, s, step)
    requires Filed(c, s)
    ensures Filed(c, Next(c, s, step))
  {
    hide Process, Accept, Rotate, HotPath, AllFit, Flatten;
    match step {
      case Handle =>
        var r := s.writer.item.record;
        AcceptFlatten(s.history, r, c.segmentSize);
        AcceptFits(s.history, r, c.segmentSize);
        assert Records(s.written + [s.writer.item]) == Records(s.written) + [r];
      case EndTurn(due) =>
        RotateFlatten(s.history, due);
        RotateFits(s.history, due, c.segmentSize);
      case _ =>
    }
  }

  lemma StepBounded(c: Config, s: System, step: Step)
    requires c.capacity != Some(0) && Enabled(c, s, step)
    requires Bounded(c, s)
    ensures Bounded(c, Next(c, s, step))
  {
    hide Process, Accept, Rotate, HotPath;
  }

  lemma InitialInvariant(c: Config, s: System)
    requires Initial(s)
    ensures Invariant(c, s)
  {
    var p := PlacesOf(s);
    assert forall n: nat :: Count(p, n) == 0;
    FlattenOne<WalRecord>([]);
    EmptyFits(c.segmentSize);
  }

  // ---------- Every run ----------

  ghost predicate Behaviour(c: Config, ss: seq<System>, steps: seq<Step>) {
    && c.capacity != Some(0) && |ss| == |steps| + 1 && Initial(ss[0])
    && forall i :: 0 <= i < |steps| ==> Enabled(c, ss[i], steps[i]) && ss[i + 1] == Next(c, ss[i], steps[i])
  }

  lemma {:induction false} BehaviourInvariant(c: Config, ss: seq<System>, steps: seq<Step>, i: nat)
    requires Behaviour(c, ss, steps) && i < |ss|
    ensures Invariant(c, ss[i])
  {
    hide Enabled, Next, Sound, Sized, Tallied, Genuine, Filed, Bounded;
    if i == 0 {
      InitialInvariant(c, ss[0]);
    } else {
      BehaviourInvariant(c, ss, steps, i - 1);
      StepSound(c, ss[i - 1], steps[i - 1]);
      NextConsumed(PlacesOf(ss[i - 1]));
      StepTallied(c, ss[i - 1], steps[i - 1]);
      StepGenuine(c, ss[i - 1], steps[i - 1]);
      StepFiled(c, ss[i - 1], steps[i - 1]);
      StepBounded(c, ss[i - 1], steps[i - 1]);
    }
  }

  function InHand(s: System): nat {
    (if s.capture.Slicing? then 1 else 0) + |WriterHand(s) + s.queue + CaptureHand(s)|
  }

  /**
   At every moment of every interleaving: each consumed frame is in exactly one place; the counters and the
   frames in hand or queued add up to the frames consumed; the segments hold, in the order of capture and each
   made from its own frame, exactly the written records.
   */
  lemma Conservation(c: Config, ss: seq<System>, steps: seq<Step>, i: nat)
    requires Behaviour(c, ss, steps) && i < |ss|
    ensures var s := ss[i];
      && s.consumed <= |c.frames|
      && (forall n: nat :: Count(PlacesOf(s), n) == if n < s.consumed then 1 else 0)
      && s.consumed == s.captureDropped + |s.rejected| + s.writtenRecords + s.droppedRecords + InHand(s)
      && Flatten(s.history) == Records(s.written) && Ascending(s.written)
      && (forall t :: t in s.written ==> MadeFrom(c, t))
      && (forall n :: n in s.rejected ==> n < |c.frames| && Unsliceable(c.frames[n]))
  {
    BehaviourInvariant(c, ss, steps, i);
    var s := ss[i];
    hide Behaviour, MadeFrom, Flatten, Count, Records;
    AscendingPart(s.written, PlacesOf(s).inFlight);
    assert forall t :: t in s.written ==> t in s.written + s.discarded;
  }

  lemma AscendingPart(a: seq<Tagged>, b: seq<Tagged>)
    requires Ascending(a + b)
    ensures Ascending(a)
  {
    forall i, j | 0 <= i < j < |a| ensures a[i].no < a[j].no {
      assert (a + b)[i] == a[i] && (a + b)[j] == a[j];
    }
  }
}
