/** The circuit breaker: a queue watermark checked by the writer, and a slow sampler of the host. */
module Guard {
  import opened Options
  import opened WalHeader

  /** The bounded queue between capture and writer; capacity None is an unbounded one. */
  class Channel {
    const capacity: Option<nat>
    var queue: seq<WalRecord>

    constructor (capacity: Option<nat>)
      ensures this.capacity == capacity && queue == []
    {
      this.capacity := capacity;
      queue := [];
    }
  }

  /** What the flag becomes after a check at this fill. Division by a zero capacity is a panic in the code. */
  function HotPath(degraded: bool, fill: nat, capacity: Option<nat>, watermark: nat): bool
    requires capacity != Some(0)
  {
    match capacity
    case None => degraded
    case Some(c) =>
      var pct := fill * 100 / c;
      if pct >= watermark then true
      else if pct < watermark / 2 then false
      else degraded
  }

  /** What one sampler round stores in the flag, if anything; a reading is None when procfs fails. */
  function Sampled(rss: Option<nat>, ramLimit: nat, load: Option<nat>, cpuLimit: nat): Option<bool>
    requires cpuLimit < 0x100
  {
    var over := (rss.Some? && rss.value > ramLimit) || (load.Some? && load.value > cpuLimit);
    var inBand := (rss.Some? && rss.value > ramLimit * 8 / 10) || (load.Some? && load.value > CpuBand(cpuLimit));
    if over then Some(true) else if inBand then None else Some(false)
  }

  /** The recovery threshold for the load: the product is taken in a byte and wraps. */
  function CpuBand(cpuLimit: nat): nat { cpuLimit * 8 % 0x100 / 10 }

  class Breaker {
    var degraded: bool
    var dropped: nat

    constructor ()
      ensures !degraded && dropped == 0
    {
      degraded := false;
      dropped := 0;
    }

    method HotPathCheck(rx: Channel, watermark: nat)
      requires rx.capacity != Some(0)
      modifies this`degraded
      ensures degraded == HotPath(old(degraded), |rx.queue|, rx.capacity, watermark)
    {
      match rx.capacity {
        case None =>
        case Some(capacity) =>
          var pct := |rx.queue| * 100 / capacity;
          if pct >= watermark {
            degraded := true;
            return;
          }
          if pct < watermark / 2 {
            degraded := false;
          }
      }
    }

    /** One round of the sampler thread. */
    method Sample(rss: Option<nat>, ramLimit: nat, load: Option<nat>, cpuLimit: nat)
      requires cpuLimit < 0x100
      modifies this`degraded
      ensures degraded == match Sampled(rss, ramLimit, load, cpuLimit) { case None => old(degraded) case Some(d) => d }
    {
      var shouldRecover := true;
      if rss.Some? {
        if rss.value > ramLimit {
          degraded := true;
          shouldRecover := false;
        } else if rss.value > ramLimit * 8 / 10 {
          shouldRecover := false;
        }
      }
      if load.Some? {
        if load.value > cpuLimit {
          degraded := true;
          shouldRecover := false;
        } else if load.value > cpuLimit * 8 % 0x100 / 10 {
          shouldRecover := false;
        }
      }
      if shouldRecover {
        degraded := false;
      }
    }
  }

  // ---------- Watermark arithmetic ----------

  /** The integer percentage compared without division. */
  lemma PercentBelow(fill: nat, c: nat, w: nat)
    requires c > 0
    ensures fill * 100 / c < w <==> fill * 100 < w * c
  {
    var q := fill * 100 / c;
    assert fill * 100 == q * c + fill * 100 % c;
    if q < w {
      assert (q + 1) * c <= w * c;
    } else {
      assert q * c >= w * c;
    }
  }

  /** A check that sets the flag and a later one that clears it are far apart in fill. */
  lemma NoFlapping(high: nat, low: nat, c: nat, w: nat)
    requires c > 0
    requires HotPath(false, high, Some(c), w) && !HotPath(true, low, Some(c), w)
    ensures low < high && (high - low) * 100 > (w - w / 2) * c
  {
    PercentBelow(high, c, w);
    PercentBelow(low, c, w / 2);
    assert w * c == (w - w / 2) * c + w / 2 * c;
  }

  function Checks(degraded: bool, fills: seq<nat>, capacity: Option<nat>, w: nat): bool
    requires capacity != Some(0)
    decreases |fills|
  {
    if fills == [] then degraded
    else HotPath(Checks(degraded, fills[..|fills| - 1], capacity, w), fills[|fills| - 1], capacity, w)
  }

  /** As long as the fill stays between the two thresholds the flag keeps its value. */
  lemma {:induction false} BandHolds(degraded: bool, fills: seq<nat>, c: nat, w: nat)
    requires c > 0
    requires forall f :: f in fills ==> w / 2 * c <= f * 100 < w * c
    ensures Checks(degraded, fills, Some(c), w) == degraded
    decreases |fills|
  {
    if fills != [] {
      var front, f := fills[..|fills| - 1], fills[|fills| - 1];
      assert f in fills && forall x :: x in front ==> x in fills;
      BandHolds(degraded, front, c, w);
      PercentBelow(f, c, w);
      PercentBelow(f, c, w / 2);
    }
  }

  /** One check keeps the flag, whichever value it has, exactly for the fills in that band. */
  lemma BandExact(fill: nat, c: nat, w: nat)
    requires c > 0
    ensures (forall d :: HotPath(d, fill, Some(c), w) == d) <==> w / 2 * c <= fill * 100 < w * c
  {
    PercentBelow(fill, c, w);
    PercentBelow(fill, c, w / 2);
    assert HotPath(true, fill, Some(c), w) == true || HotPath(true, fill, Some(c), w) == false;
    assert HotPath(false, fill, Some(c), w) == true || HotPath(false, fill, Some(c), w) == false;
  }

  /** The load's recovery threshold is 80% of the limit exactly for limits up to 31 percent: 85 gives 16, not 68. */
  lemma CpuBandExact(cpuLimit: nat)
    requires cpuLimit < 0x100
    ensures CpuBand(cpuLimit) == cpuLimit * 8 / 10 <==> cpuLimit <= 31
    ensures CpuBand(85) == 16
  {}

  // ---------- The sampler ----------

  /** A round that sets the flag because of memory and one that clears it are more than a fifth of the limit apart. */
  lemma SamplerNoFlapping(high: nat, low: nat, ramLimit: nat, load: Option<nat>, load': Option<nat>, cpuLimit: nat)
    requires cpuLimit < 0x100 && high > ramLimit
    requires Sampled(Some(low), ramLimit, load', cpuLimit) == Some(false)
    ensures Sampled(Some(high), ramLimit, load, cpuLimit) == Some(true)
    ensures (high - low) * 10 > ramLimit * 2
  {}

  /** A round sets the flag exactly when a reading that succeeded is above its limit, memory or load. */
  lemma SamplerSets(rss: Option<nat>, ramLimit: nat, load: Option<nat>, cpuLimit: nat)
    requires cpuLimit < 0x100
    ensures Sampled(rss, ramLimit, load, cpuLimit) == Some(true)
       <==> (rss.Some? && rss.value > ramLimit) || (load.Some? && load.value > cpuLimit)
  {}

  /** So are a round that sets it because of the load and one that clears it, however low the wrapped threshold. */
  lemma LoadNoFlapping(high: nat, low: nat, cpuLimit: nat, rss: Option<nat>, rss': Option<nat>, ramLimit: nat)
    requires cpuLimit < 0x100 && high > cpuLimit
    requires Sampled(rss', ramLimit, Some(low), cpuLimit) == Some(false)
    ensures Sampled(rss, ramLimit, Some(high), cpuLimit) == Some(true)
    ensures (high - low) * 10 > cpuLimit * 2
  {}

  /**
   A round clears the flag exactly when every reading that succeeded is low, the load's threshold being taken modulo
   256; with none, it clears it blindly.
   */
  lemma SamplerClears(rss: Option<nat>, ramLimit: nat, load: Option<nat>, cpuLimit: nat)
    requires cpuLimit < 0x100
    ensures Sampled(rss, ramLimit, load, cpuLimit) == Some(false)
       <==> (rss.Some? ==> rss.value * 10 <= ramLimit * 8)
            && (load.Some? ==> load.value * 10 <= cpuLimit * 8 % 0x100 && load.value <= cpuLimit)
    ensures Sampled(None, ramLimit, None, cpuLimit) == Some(false)
  {}
}
