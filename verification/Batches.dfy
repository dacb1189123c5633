/** A batch frame is its entries, one after the other, as data frames without an id. */
module Batches {
  import opened Options
  import opened ReceiverModel

  function AsFrames(key: Key, es: seq<Entry>): (fs: seq<Frame>)
    ensures |fs| == |es|
  {
    seq(|es|, i requires 0 <= i < |es| => Data(key, es[i].offset, None, es[i].plaintext))
  }

  lemma EntryIsFrame(r: Receiver, key: Key, e: Entry, r': Receiver, budgets: Budgets)
    ensures EntryStep(r, key, e, r', budgets.pending) <==> Next(r, Data(key, e.offset, None, e.plaintext), r', budgets)
  {
    hide PlaceStep;
    assert r.(cache := r.cache) == r;
  }

  /** A batch, taken in one step, passes through the states of its entries' frames in order, */
  lemma {:induction false} BatchIsFrames(r: Receiver, key: Key, es: seq<Entry>, r': Receiver, budgets: Budgets)
      returns (rs: seq<Receiver>)
    requires Next(r, Batch(key, es), r', budgets)
    ensures Trace(rs, AsFrames(key, es), budgets) && rs[0] == r && rs[|es|] == r'
    decreases |es|
  {
    hide EntryStep;
    if es == [] {
      rs := [r];
    } else {
      var front, e := es[..|es| - 1], es[|es| - 1];
      var mid :| EntriesStep(r, key, front, mid, budgets.pending) && EntryStep(mid, key, e, r', budgets.pending);
      rs := BatchIsFrames(r, key, front, mid, budgets);
      EntryIsFrame(mid, key, e, r', budgets);
      hide Next;
      rs := rs + [r'];
    }
  }

  /** and a run over these frames is the batch. */
  lemma {:induction false} FramesAreBatch(rs: seq<Receiver>, key: Key, es: seq<Entry>, budgets: Budgets)
    requires Trace(rs, AsFrames(key, es), budgets)
    ensures Next(rs[0], Batch(key, es), rs[|es|], budgets)
    decreases |es|
  {
    hide EntryStep;
    if es != [] {
      var front, e, mid := es[..|es| - 1], es[|es| - 1], rs[|es| - 1];
      assert Next(mid, AsFrames(key, es)[|es| - 1], rs[|es|], budgets);
      EntryIsFrame(mid, key, e, rs[|es|], budgets);
      FrontRun(rs, key, es, budgets);
      FramesAreBatch(rs[..|es|], key, front, budgets);
    }
  }

  lemma FrontRun(rs: seq<Receiver>, key: Key, es: seq<Entry>, budgets: Budgets)
    requires es != [] && Trace(rs, AsFrames(key, es), budgets)
    ensures Trace(rs[..|es|], AsFrames(key, es[..|es| - 1]), budgets)
  {
    hide Next;
    var fs, front := AsFrames(key, es), AsFrames(key, es[..|es| - 1]);
    forall i | 0 <= i < |front| ensures Next(rs[..|es|][i], front[i], rs[..|es|][i + 1], budgets) {
      assert fs[i] == front[i] && Next(rs[i], fs[i], rs[i + 1], budgets);
    }
  }
}
