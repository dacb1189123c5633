/** The capture thread of the pipeline, in every interleaving, runs its own loop on what it read of the flag. */
module CaptureRefinement {
  import opened Options
  import opened Guard
  import opened Slicer
  import opened WriterModel
  import opened Pipeline
  import opened Capturing

  function Start(): Captured { Captured([], 0, false) }

  /** What capture has dropped and sent is what its loop drops and sends on these items, one per frame, in order. */
  ghost predicate CaptureRuns(c: Config, s: System, items: seq<Item>) {
    var e := CapturedAll(Start(), c.maxPayload, items);
    && e.dropped == s.captureDropped
    && |items| <= |c.frames| && (forall k :: 0 <= k < |items| ==> items[k].frame == c.frames[k])
    && (match s.capture
        case Polling => |items| == s.consumed && e.sent == Records(s.sent)
        case Slicing(no, frame) =>
          |items| == no && no + 1 == s.consumed <= |c.frames| && frame == c.frames[no] && e.sent == Records(s.sent)
        case Sending(item) => |items| == s.consumed && e.sent == Records(s.sent) + [item.record])
  }

  // ---------- What was read of the flag, and when ----------

  /** Frame k was taken at one of the first n steps, and the flag had this value then. */
  ghost predicate TookAt(ss: seq<System>, steps: seq<Step>, n: nat, k: nat, flag: bool)
    requires n <= |steps| && n <= |ss|
  {
    exists t :: 0 <= t < n && steps[t].Take? && ss[t].consumed == k && ss[t].degraded == flag
  }

  /** Frame k was sliced at one of the first n steps, at this time, and the flag had this value then. */
  ghost predicate SlicedAt(ss: seq<System>, steps: seq<Step>, n: nat, k: nat, ts: bv64, flag: bool)
    requires n <= |steps| && n <= |ss|
  {
    exists t :: 0 <= t < n && steps[t] == Slice(ts) && ss[t].capture.Slicing? && ss[t].capture.no == k
                && ss[t].degraded == flag
  }

  /** The item carries the flag as it was at the two reads, the second only if the first let the frame through. */
  ghost predicate ReadAs(ss: seq<System>, steps: seq<Step>, n: nat, k: nat, item: Item)
    requires n <= |steps| && n <= |ss|
  {
    && item.before.Some? && TookAt(ss, steps, n, k, item.before.value)
    && (item.between.Some? <==> item.before == Some(false))
    && (item.between.Some? ==> SlicedAt(ss, steps, n, k, item.ts, item.between.value))
  }

  ghost predicate AllRead(ss: seq<System>, steps: seq<Step>, n: nat, items: seq<Item>)
    requires n <= |steps| && n <= |ss|
  {
    forall k :: 0 <= k < |items| ==> ReadAs(ss, steps, n, k, items[k])
  }

  lemma ReadLater(ss: seq<System>, steps: seq<Step>, n: nat, m: nat, k: nat, item: Item)
    requires n <= m <= |steps| && m <= |ss| && ReadAs(ss, steps, n, k, item)
    ensures ReadAs(ss, steps, m, k, item)
  {}

  lemma AllReadLater(ss: seq<System>, steps: seq<Step>, n: nat, m: nat, items: seq<Item>)
    requires n <= m <= |steps| && m <= |ss| && AllRead(ss, steps, n, items)
    ensures AllRead(ss, steps, m, items)
  {
    hide ReadAs;
    forall k | 0 <= k < |items| ensures ReadAs(ss, steps, m, k, items[k]) { ReadLater(ss, steps, n, m, k, items[k]); }
  }

  // ---------- The loop ----------

  lemma CapturedSnoc(s: Captured, maxPayload: nat, items: seq<Item>, item: Item)
    ensures CapturedAll(s, maxPayload, items + [item])
         == CapturedOne(CapturedAll(s, maxPayload, items), maxPayload, item)
  {
    assert (items + [item])[..|items|] == items;
  }

  lemma RecordsSnoc(items: seq<Tagged>, t: Tagged)
    ensures Records(items + [t]) == Records(items) + [t.record]
  {}

  /** The items after one more step: a frame's item is complete when it is dropped or sliced. */
  function StepItems(s: System, step: Step, frame: Packet, items: seq<Item>): seq<Item> {
    match step
    case Take => if s.degraded then items + [Item(frame, 0, Some(s.degraded), None)] else items
    case Slice(ts) => items + [Item(frame, ts, Some(false), Some(s.degraded))]
    case _ => items
  }

  function FrameAt(c: Config, s: System, step: Step): Packet
    requires Enabled(c, s, step)
  {
    if step.Take? then c.frames[s.consumed] else if step.Slice? then s.capture.frame else Malformed
  }

  lemma CaptureStep(c: Config, s: System, step: Step, items: seq<Item>)
    requires c.capacity != Some(0) && Enabled(c, s, step) && CaptureRuns(c, s, items)
    ensures CaptureRuns(c, Next(c, s, step), StepItems(s, step, FrameAt(c, s, step), items))
  {
    hide Process, Accept, Rotate, HotPath, CapturedAll;
    match step {
      case Take =>
        if s.degraded {
          CapturedSnoc(Start(), c.maxPayload, items, Item(c.frames[s.consumed], 0, Some(s.degraded), None));
        }
      case Slice(ts) =>
        CapturedSnoc(Start(), c.maxPayload, items, Item(s.capture.frame, ts, Some(false), Some(s.degraded)));
      case Send => RecordsSnoc(s.sent, s.capture.item);
      case _ =>
    }
  }

  /** The frame being sliced was taken with the flag clear. */
  ghost predicate TookClear(ss: seq<System>, steps: seq<Step>, n: nat)
    requires n <= |steps| && n < |ss|
  {
    ss[n].capture.Slicing? ==> TookAt(ss, steps, n, ss[n].capture.no, false)
  }

  lemma ReadStep(c: Config, ss: seq<System>, steps: seq<Step>, n: nat, items: seq<Item>)
    requires c.capacity != Some(0) && n < |steps| && n + 1 < |ss|
    requires Enabled(c, ss[n], steps[n]) && ss[n + 1] == Next(c, ss[n], steps[n])
    requires CaptureRuns(c, ss[n], items) && AllRead(ss, steps, n, items) && TookClear(ss, steps, n)
    ensures AllRead(ss, steps, n + 1, StepItems(ss[n], steps[n], FrameAt(c, ss[n], steps[n]), items))
    ensures TookClear(ss, steps, n + 1)
  {
    hide Process, Accept, Rotate, HotPath, CapturedAll, AllRead;
    AllReadLater(ss, steps, n, n + 1, items);
    var s, step := ss[n], steps[n];
    var items' := StepItems(s, step, FrameAt(c, s, step), items);
    if step.Take? {
      assert TookAt(ss, steps, n + 1, s.consumed, s.degraded);
    }
    if items' != items {
      assert ReadAs(ss, steps, n + 1, |items|, items'[|items|]);
      AllReadSnoc(ss, steps, n + 1, items, items'[|items|]);
    }
  }

  lemma AllReadSnoc(ss: seq<System>, steps: seq<Step>, n: nat, items: seq<Item>, item: Item)
    requires n <= |steps| && n <= |ss| && AllRead(ss, steps, n, items) && ReadAs(ss, steps, n, |items|, item)
    ensures AllRead(ss, steps, n, items + [item])
  {
    hide ReadAs;
  }

  /**
   In every interleaving, what capture has dropped and sent is what its loop does with the frames consumed, in order,
   each with the values the flag really had when the frame was taken and when it was sliced.
   */
  lemma {:induction false} CaptureRefined(c: Config, ss: seq<System>, steps: seq<Step>, i: nat)
      returns (items: seq<Item>)
    requires Behaviour(c, ss, steps) && i < |ss|
    ensures CaptureRuns(c, ss[i], items) && AllRead(ss, steps, i, items) && TookClear(ss, steps, i)
  {
    hide Enabled, Next;
    if i == 0 {
      items := [];
    } else {
      items := CaptureRefined(c, ss, steps, i - 1);
      hide CaptureRuns, AllRead, TookClear;
      CaptureStep(c, ss[i - 1], steps[i - 1], items);
      ReadStep(c, ss, steps, i - 1, items);
      items := StepItems(ss[i - 1], steps[i - 1], FrameAt(c, ss[i - 1], steps[i - 1]), items);
    }
  }
}
