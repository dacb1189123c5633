/** What the shared flag decides: which frames and records are dropped, and a bit of each record. */
module FlagReads {
  import opened Options
  import opened WalHeader
  import opened Guard
  import opened Slicer
  import opened WriterModel
  import opened Pipeline
  import opened CaptureRefinement

  // ---------- Capture ----------

  lemma NextUnsliced(c: Config, s: System, step: Step)
    requires c.capacity != Some(0) && Enabled(c, s, step)
    ensures Next(c, s, step).unsliced == if step.Take? && s.degraded then s.unsliced + {s.consumed} else s.unsliced
  {
    hide Process, Accept, Rotate, HotPath;
  }

  lemma TookNext(ss: seq<System>, steps: seq<Step>, n: nat, k: nat, flag: bool)
    requires n < |steps| && n < |ss|
    ensures n + 1 <= |ss| && (TookAt(ss, steps, n + 1, k, flag)
              <==> TookAt(ss, steps, n, k, flag)
                   || (steps[n].Take? && ss[n].consumed == k && ss[n].degraded == flag))
  {}

  /** In every interleaving, a frame is dropped at capture if and only if the flag was set at the step that took it. */
  lemma {:induction false} DroppedWhenTaken(c: Config, ss: seq<System>, steps: seq<Step>, i: nat)
    requires Behaviour(c, ss, steps) && i < |ss|
    ensures forall k: nat :: k in ss[i].unsliced <==> TookAt(ss, steps, i, k, true)
  {
    hide Enabled, Next, TookAt;
    if i == 0 {
      NothingTaken(ss, steps);
    } else {
      DroppedWhenTaken(c, ss, steps, i - 1);
      NextUnsliced(c, ss[i - 1], steps[i - 1]);
      forall k: nat ensures k in ss[i].unsliced <==> TookAt(ss, steps, i, k, true) {
        TookNext(ss, steps, i - 1, k, true);
      }
    }
  }

  lemma NothingTaken(ss: seq<System>, steps: seq<Step>)
    requires |ss| > 0
    ensures forall k: nat, flag :: !TookAt(ss, steps, 0, k, flag)
  {}

  // ---------- The writer ----------

  /** The item was handled at one of the first n steps, and the flag had this value then. */
  ghost predicate HandledAt(ss: seq<System>, steps: seq<Step>, n: nat, item: Tagged, flag: bool)
    requires n <= |steps| && n <= |ss|
  {
    exists t :: 0 <= t < n && steps[t].Handle? && ss[t].writer == Handling(item) && ss[t].degraded == flag
  }

  lemma NextHandled(c: Config, s: System, step: Step)
    requires c.capacity != Some(0) && Enabled(c, s, step)
    ensures var s' := Next(c, s, step);
      && s'.discarded == (if step.Handle? && s.degraded then s.discarded + [s.writer.item] else s.discarded)
      && s'.written == (if step.Handle? && !s.degraded then s.written + [s.writer.item] else s.written)
  {
    hide Process, Accept, Rotate, HotPath;
  }

  lemma HandledNext(ss: seq<System>, steps: seq<Step>, n: nat, item: Tagged, flag: bool)
    requires n < |steps| && n < |ss|
    ensures HandledAt(ss, steps, n + 1, item, flag)
       <==> HandledAt(ss, steps, n, item, flag)
            || (steps[n].Handle? && ss[n].writer == Handling(item) && ss[n].degraded == flag)
  {}

  /** A record is dropped by the writer if and only if the flag was set when it was handled, and written otherwise. */
  lemma {:induction false} DiscardedWhenHandled(c: Config, ss: seq<System>, steps: seq<Step>, i: nat)
    requires Behaviour(c, ss, steps) && i < |ss|
    ensures forall x :: x in ss[i].discarded <==> HandledAt(ss, steps, i, x, true)
    ensures forall x :: x in ss[i].written <==> HandledAt(ss, steps, i, x, false)
  {
    if i > 0 {
      hide Next, HandledAt;
      DiscardedWhenHandled(c, ss, steps, i - 1);
      NextHandled(c, ss[i - 1], steps[i - 1]);
      forall x ensures x in ss[i].discarded <==> HandledAt(ss, steps, i, x, true) {
        HandledNext(ss, steps, i - 1, x, true);
      }
      forall x ensures x in ss[i].written <==> HandledAt(ss, steps, i, x, false) {
        HandledNext(ss, steps, i - 1, x, false);
      }
    }
  }

  // ---------- The record's own bit ----------

  /** Somewhere between the slicer and its end. */
  predicate Made(s: System, x: Tagged) {
    || x in s.written || x in s.discarded || x in s.queue
    || (s.writer.Handling? && s.writer.item == x) || (s.capture.Sending? && s.capture.item == x)
  }

  /** The record's time and its DEGRADED bit are those of the step that sliced its frame. */
  ghost predicate Stamped(ss: seq<System>, steps: seq<Step>, n: nat, x: Tagged)
    requires n <= |steps| && n <= |ss|
  {
    SlicedAt(ss, steps, n, x.no, x.record.timestampNs, Degraded(x.record))
  }

  lemma ProcessStamps(maxPayload: nat, packet: Packet, ts: bv64, degraded: bool)
    ensures var r := Process(maxPayload, packet, ts, degraded);
      r.Some? ==> r.value.timestampNs == ts && (Degraded(r.value) <==> degraded)
  {
    hide Flags, Mask, Slicer.Sliced, AsU32;
    match packet {
      case Ip(_, _, _, Tcp(_, _, _, _, _, _), app) => FlagsCanonical(degraded, |app| > maxPayload);
      case Ip(_, _, _, Udp(_, _), app) => FlagsCanonical(degraded, |app| > maxPayload);
      case _ =>
    }
  }

  /** A step makes a record only by slicing. */
  lemma NextMade(c: Config, s: System, step: Step, x: Tagged)
    requires c.capacity != Some(0) && Enabled(c, s, step) && Made(Next(c, s, step), x) && !Made(s, x)
    ensures step.Slice? && x.no == s.capture.no
    ensures Process(c.maxPayload, s.capture.frame, step.ts, s.degraded) == Some(x.record)
  {
    hide Process, Accept, Rotate, HotPath;
  }

  lemma MadeStamped(c: Config, ss: seq<System>, steps: seq<Step>, n: nat, x: Tagged)
    requires c.capacity != Some(0) && n < |steps| && n + 1 < |ss|
    requires Enabled(c, ss[n], steps[n]) && ss[n + 1] == Next(c, ss[n], steps[n])
    requires Made(ss[n + 1], x) && (Made(ss[n], x) ==> Stamped(ss, steps, n, x))
    ensures Stamped(ss, steps, n + 1, x)
  {
    hide Process, Next, Made, Degraded;
    if !Made(ss[n], x) {
      NextMade(c, ss[n], steps[n], x);
      ProcessStamps(c.maxPayload, ss[n].capture.frame, steps[n].ts, ss[n].degraded);
    }
  }

  /** In every interleaving the DEGRADED bit of every record says what the flag was when its frame was sliced. */
  lemma {:induction false} BitTells(c: Config, ss: seq<System>, steps: seq<Step>, i: nat)
    requires Behaviour(c, ss, steps) && i < |ss|
    ensures forall x :: Made(ss[i], x) ==> Stamped(ss, steps, i, x)
  {
    if i > 0 {
      BitTells(c, ss, steps, i - 1);
      hide Enabled, Next, Stamped, Made;
      forall x | Made(ss[i], x) ensures Stamped(ss, steps, i, x) {
        MadeStamped(c, ss, steps, i - 1, x);
      }
    }
  }
}
