/** The refill of a segment as its task sees it: rounds of seconds, and the watermark looked at after each second. */
module Refill {
  import opened Crc32
  import opened Sequences
  import opened Delivery
  import opened ReceiverModel
  import opened Healing

  /** One refill attempt as the other tasks shape it: the sender's answer, and what arrives in each second's wait. */
  datatype Round = Round(gone: bool, ticks: seq<seq<Frame>>)

  /** The seconds waited at most: those of all rounds up to the first that is told the segment is gone. */
  function Ticks(rounds: seq<Round>): seq<seq<Frame>> {
    if rounds == [] || rounds[0].gone then [] else rounds[0].ticks + Ticks(rounds[1..])
  }

  /** How many frames have arrived at the end of second t. */
  function EndOf(ticks: seq<seq<Frame>>, t: nat): nat
    requires t < |ticks|
  {
    |Flatten(ticks[..t + 1])|
  }

  ghost predicate InRun(rs: seq<Receiver>, base: nat, ticks: seq<seq<Frame>>, t: nat) {
    t < |ticks| && base + EndOf(ticks, t) < |rs|
  }

  /** At the end of second t the file has the size. */
  ghost predicate Full(rs: seq<Receiver>, base: nat, ticks: seq<seq<Frame>>, t: nat, key: Key, size: nat)
    requires InRun(rs, base, ticks, t)
  {
    |FileOf(rs[base + EndOf(ticks, t)].files, key)| >= size
  }

  /**
   The first n seconds have been waited for, in a run whose frames before them are base: at the end of each the file
   was shorter than size, but for the last one if the refill is complete; and it is not given up before all are over.
   */
  ghost predicate Waited(rs: seq<Receiver>, base: nat, ticks: seq<seq<Frame>>, n: nat, key: Key, size: nat,
                         complete: bool)
  {
    && n <= |ticks| && (complete ==> n > 0) && (!complete ==> n == |ticks|)
    && (forall t :: 0 <= t < n ==>
          InRun(rs, base, ticks, t) && (Full(rs, base, ticks, t, key, size) <==> complete && t == n - 1))
  }

  ghost predicate NoneGone(rounds: seq<Round>) { forall r :: r in rounds ==> !r.gone }

  lemma {:induction false} TicksAppend(a: seq<Round>, b: seq<Round>)
    requires NoneGone(a)
    ensures Ticks(a + b) == Ticks(a) + Ticks(b)
  {
    if a == [] {
      assert a + b == b;
    } else {
      assert (a + b)[0] == a[0] && a[0] in a && (a + b)[1..] == a[1..] + b;
      TicksAppend(a[1..], b);
    }
  }

  lemma TicksOne(round: Round)
    ensures Ticks([round]) == if round.gone then [] else round.ticks
  {
    assert [round][1..] == [];
  }

  /** The seconds end where a round is told the segment is gone. */
  lemma TicksEnd(rounds: seq<Round>, k: nat)
    requires k < |rounds| && NoneGone(rounds[..k]) && rounds[k].gone
    ensures Ticks(rounds) == Ticks(rounds[..k])
  {
    SplitAt(rounds, k);
    TicksAppend(rounds[..k], [rounds[k]] + rounds[k + 1..]);
  }

  lemma TicksGoOn(rounds: seq<Round>, k: nat)
    requires k < |rounds| && NoneGone(rounds[..k]) && !rounds[k].gone
    ensures NoneGone(rounds[..k + 1])
    ensures Ticks(rounds[..k + 1]) == Ticks(rounds[..k]) + rounds[k].ticks <= Ticks(rounds)
  {
    SplitAt(rounds, k);
    TicksOne(rounds[k]);
    hide Ticks;
    TicksAppend(rounds[..k], [rounds[k]]);
    TicksAppend(rounds[..k + 1], rounds[k + 1..]);
  }

  /** Round k is the first one that is told the segment is gone; k is their number if none is. */
  predicate GoneFirst(rounds: seq<Round>, k: nat) {
    k <= |rounds| && (forall j :: 0 <= j < k ==> !rounds[j].gone) && (k < |rounds| ==> rounds[k].gone)
  }

  lemma {:induction false} TicksCount(rounds: seq<Round>, k: nat, seconds: nat)
    requires GoneFirst(rounds, k) && forall r :: r in rounds ==> |r.ticks| == seconds
    ensures |Ticks(rounds)| == k * seconds
  {
    if k > 0 {
      TicksCount(rounds[1..], k - 1, seconds);
      assert rounds[0] in rounds;
      assert k * seconds == (k - 1) * seconds + seconds;
    }
  }

  /**
   No refill waits longer than the rounds before the one that is told the segment is gone; one that is given up has
   waited exactly so long, and one told so at once is not complete.
   */
  lemma GoneEnds(rs: seq<Receiver>, rounds: seq<Round>, k: nat, seconds: nat, n: nat, key: Key, size: nat,
                 complete: bool)
    requires GoneFirst(rounds, k) && forall r :: r in rounds ==> |r.ticks| == seconds
    requires Waited(rs, 0, Ticks(rounds), n, key, size, complete)
    ensures n <= k * seconds && (!complete ==> n == k * seconds) && (k == 0 ==> !complete)
  {
    hide Ticks, InRun, Full;
    TicksCount(rounds, k, seconds);
  }

  lemma TicksStart(rounds: seq<Round>)
    ensures Ticks(rounds[..0]) == [] && NoneGone(rounds[..0])
  {}

  // ---------- Waiting, second by second ----------

  lemma WaitedNone(rs: seq<Receiver>, base: nat, key: Key, size: nat)
    ensures Waited(rs, base, [], 0, key, size, false)
  {}

  lemma FlattenTick(ticks: seq<seq<Frame>>, k: nat)
    requires k < |ticks|
    ensures Flatten(ticks[..k + 1]) == Flatten(ticks[..k]) + ticks[k]
  {
    hide Flatten;
    SplitAt(ticks, k);
    FlattenAppend(ticks[..k], [ticks[k]]);
    FlattenOne(ticks[k]);
  }

  lemma TickMoves(rs: seq<Receiver>, base: nat, ticks: seq<seq<Frame>>, t: nat, key: Key, size: nat,
                  rs': seq<Receiver>, base': nat, ticks': seq<seq<Frame>>, t': nat)
    requires InRun(rs, base, ticks, t) && rs <= rs' && t' < |ticks'|
    requires base + EndOf(ticks, t) == base' + EndOf(ticks', t')
    ensures InRun(rs', base', ticks', t')
    ensures Full(rs', base', ticks', t', key, size) <==> Full(rs, base, ticks, t, key, size)
  {
    hide FileOf, EndOf;
    assert rs'[base + EndOf(ticks, t)] == rs[base + EndOf(ticks, t)];
  }

  lemma EndOfPrefix(a: seq<seq<Frame>>, b: seq<seq<Frame>>, t: nat)
    requires a <= b && t < |a|
    ensures EndOf(a, t) == EndOf(b, t)
  {
    hide Flatten;
    assert a[..t + 1] == b[..t + 1];
  }

  lemma EndOfAppend(a: seq<seq<Frame>>, b: seq<seq<Frame>>, t: nat)
    requires t < |b|
    ensures EndOf(a + b, |a| + t) == |Flatten(a)| + EndOf(b, t)
  {
    hide Flatten;
    assert (a + b)[..|a| + t + 1] == a + b[..t + 1];
    FlattenAppend(a, b[..t + 1]);
  }

  /** One more second, and what the watermark says at its end. */
  lemma WaitedTick(rs: seq<Receiver>, rs': seq<Receiver>, base: nat, ticks: seq<seq<Frame>>, n: nat, key: Key,
                   size: nat)
    requires n < |ticks| && Waited(rs, base, ticks[..n], n, key, size, false) && rs <= rs'
    requires base + |Flatten(ticks[..n + 1])| == |rs'| - 1
    ensures var full := |FileOf(rs'[|rs'| - 1].files, key)| >= size;
      && (full ==> Waited(rs', base, ticks, n + 1, key, size, true))
      && (!full ==> Waited(rs', base, ticks[..n + 1], n + 1, key, size, false))
  {
    var full := |FileOf(rs'[|rs'| - 1].files, key)| >= size;
    var longer := if full then ticks else ticks[..n + 1];
    hide Flatten, FileOf;
    assert longer[..n + 1] == ticks[..n + 1];
    assert InRun(rs', base, longer, n) && (Full(rs', base, longer, n, key, size) <==> full);
    hide InRun, Full, EndOf;
    forall t | 0 <= t < n ensures InRun(rs', base, longer, t) && !Full(rs', base, longer, t, key, size) {
      EndOfPrefix(ticks[..n], longer, t);
      TickMoves(rs, base, ticks[..n], t, key, size, rs', base, longer, t);
    }
  }

  /** Rounds put together: what follows a first part that did not complete. */
  lemma WaitedAppend(rs: seq<Receiver>, rs': seq<Receiver>, a: seq<seq<Frame>>, b: seq<seq<Frame>>, n: nat,
                     key: Key, size: nat, complete: bool)
    requires Waited(rs, 0, a, |a|, key, size, false) && rs <= rs'
    requires Waited(rs', |Flatten(a)|, b, n, key, size, complete)
    ensures Waited(rs', 0, a + b, |a| + n, key, size, complete)
  {
    hide Flatten, FileOf, InRun, Full, EndOf;
    forall t | 0 <= t < |a| + n
      ensures InRun(rs', 0, a + b, t)
      ensures Full(rs', 0, a + b, t, key, size) <==> complete && t == |a| + n - 1
    {
      if t < |a| {
        EndOfPrefix(a, a + b, t);
        TickMoves(rs, 0, a, t, key, size, rs', 0, a + b, t);
      } else {
        EndOfAppend(a, b, t - |a|);
        TickMoves(rs', |Flatten(a)|, b, t - |a|, key, size, rs', 0, a + b, t);
      }
    }
  }

  /** A refill that completed stays completed in a longer run, and however many seconds it could still have waited. */
  lemma WaitedExtends(rs: seq<Receiver>, a: seq<seq<Frame>>, n: nat, key: Key, size: nat, complete: bool,
                      rs': seq<Receiver>, ticks: seq<seq<Frame>>)
    requires Waited(rs, 0, a, n, key, size, complete) && rs <= rs' && a <= ticks && (!complete ==> a == ticks)
    ensures Waited(rs', 0, ticks, n, key, size, complete)
  {
    hide Flatten, FileOf, InRun, Full, EndOf;
    forall t | 0 <= t < n
      ensures InRun(rs', 0, ticks, t) && (Full(rs', 0, ticks, t, key, size) <==> complete && t == n - 1)
    {
      EndOfPrefix(a, ticks, t);
      TickMoves(rs, 0, a, t, key, size, rs', 0, ticks, t);
    }
  }

  // ---------- What a refill achieves ----------

  /** On an honest run a complete refill leaves the file equal to its source. */
  lemma CompleteIsSource(rs: seq<Receiver>, fs: seq<Frame>, budgets: Budgets, ticks: seq<seq<Frame>>, n: nat, key: Key,
                         source: map<Key, seq<byte>>, named: map<BlindId, seq<byte>>)
    requires Trace(rs, fs, budgets) && key in source
    requires Honest(rs[0], source, named) && forall f :: f in fs ==> HonestFrame(f, source, named)
    requires Waited(rs, 0, ticks, n, key, |source[key]|, true)
    ensures FileOf(rs[|rs| - 1].files, key) == source[key]
  {
    hide Trace, Flatten, FileOf, Honest, HonestFrame;
    assert InRun(rs, 0, ticks, n - 1) && Full(rs, 0, ticks, n - 1, key, |source[key]|);
    ReachedIsComplete(rs, fs, budgets, EndOf(ticks, n - 1), key, source, named);
  }

  lemma FileAfterForget(rs: seq<Receiver>, fs: seq<Frame>, budgets: Budgets, key: Key)
    requires Trace(rs, fs, budgets) && |fs| > 0 && fs[|fs| - 1] == Forget(key)
    ensures FileOf(rs[|fs|].files, key) == FileOf(rs[|fs| - 1].files, key)
  {
    assert Next(rs[|fs| - 1], fs[|fs| - 1], rs[|fs|], budgets);
  }

  lemma ResentForget(key: Key, cuts: seq<nat>, fs: seq<Frame>, j: nat)
    ensures Resent(key, cuts, fs + [Forget(key)], j) == Resent(key, cuts, fs, j)
  {
    assert (fs + [Forget(key)])[..|fs|] == fs;
  }

  lemma FullFile(rs: seq<Receiver>, fs: seq<Frame>, budgets: Budgets, i: nat, key: Key, source: seq<byte>,
                 cuts: seq<nat>,
                 named: map<BlindId, seq<byte>>, got: set<nat>)
    requires Trace(rs, fs, budgets) && i < |rs| && Chunking(source, cuts)
    requires At(rs[0], key, source, cuts, named, got)
    requires forall f :: f in fs ==> ChunkedFrame(f, key, source, cuts, named)
    requires |FileOf(rs[i].files, key)| >= |source|
    ensures FileOf(rs[|rs| - 1].files, key) == source
  {
    TraceAppends(rs, fs, budgets, i, |rs| - 1);
    hide Next, Chunking, ChunkedFrame, At, Trace;
    var got' := TraceAt(rs, fs, budgets, |rs| - 1, key, source, cuts, named, got, 0);
    AtIsCut(rs[|rs| - 1], key, source, cuts, named, got');
  }

  /**
   A refill whose seconds bring the chunks from the query's offset on in increasing order, among whatever else,
   leaves the file equal to the source, and says so.
   */
  lemma RefillHeals(rs: seq<Receiver>, fs: seq<Frame>, budgets: Budgets, ticks: seq<seq<Frame>>, n: nat, complete: bool,
                    key: Key, source: seq<byte>, cuts: seq<nat>, named: map<BlindId, seq<byte>>, got: set<nat>)
    requires Trace(rs, fs, budgets) && n <= |ticks| && fs == Flatten(ticks[..n]) + [Forget(key)]
    requires Waited(rs, 0, ticks, n, key, |source|, complete)
    requires Chunking(source, cuts) && At(rs[0], key, source, cuts, named, got)
    requires forall f :: f in fs ==> ChunkedFrame(f, key, source, cuts, named)
    requires Resent(key, cuts, Flatten(ticks), Received(cuts, got)) + 1 >= |cuts|
    ensures FileOf(rs[|rs| - 1].files, key) == source && (complete || ticks == [])
  {
    hide Next, Chunking, ChunkedFrame, At, Resent, FileOf, Flatten;
    assert n > 0 ==> InRun(rs, 0, ticks, n - 1) && (Full(rs, 0, ticks, n - 1, key, |source|) <==> complete);
    if complete {
      FullFile(rs, fs, budgets, EndOf(ticks, n - 1), key, source, cuts, named, got);
    } else {
      assert ticks[..n] == ticks && (n > 0 ==> EndOf(ticks, n - 1) == |fs| - 1);
      ResentForget(key, cuts, Flatten(ticks), Received(cuts, got));
      FileAfterForget(rs, fs, budgets, key);
      GapHealed(rs, fs, budgets, key, source, cuts, named, got);
    }
  }
}
