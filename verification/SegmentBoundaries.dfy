/** Where the writer's segments begin: at an overflow, and when the rotation interval is over. */
module SegmentBoundaries {
  import opened Options
  import opened WalHeader
  import opened WalStream
  import opened Guard
  import opened Sequences
  import opened WriterModel
  import opened Pipeline

  lemma EmptyLog(rs: seq<WalRecord>)
    ensures |Log(rs)| > 0 <==> rs != []
  {
    hide Encoded;
  }

  /** The next segment when this one is closed, none when there is nothing to close. */
  lemma RotatesExactly(h: History, due: bool)
    ensures Rotate(h, due) == if due && Current(h) != [] then h + [[]] else h
  {
    EmptyLog(Current(h));
    hide Log;
  }

  /**
   One receive, exactly: earlier segments stay as they are; the record goes to the end of the current one, or begins the
   next one if it would take the current one past the size; a turn that is due ends with an empty segment, added only if
   there was anything to close; one that is not due adds none but for a record that overflows, and leaves no empty one
   that was not there.
   */
  lemma ReceivedBoundaries(s: Loop, due: bool, size: nat)
    requires s.queue != []
    ensures var h, h', r := s.history, WriterModel.Received(s, due, size).history, s.queue[0];
      var last, over := |h| - 1, !s.degraded && |Log(h[|h| - 1])| + |Encoded(r)| > size;
      && |h'| == |h| + (if over then 1 else 0) + (if due && (!s.degraded || h[last] != []) then 1 else 0)
      && h'[..last] == h[..last]
      && (if s.degraded || over then h'[last] == h[last] else h'[last] == h[last] + [r])
      && (over ==> h'[last + 1] == [r])
      && (due ==> h'[|h'| - 1] == [])
      && (!due && h'[|h'| - 1] == [] ==> h' == h)
  {
    hide Log, Encoded;
    RotatesExactly(s.history, due);
    if !s.degraded { RotatesExactly(Accept(s.history, s.queue[0], size), due); }
    hide Rotate;
  }

  // ---------- Turns and runs ----------

  /** What is in the queue when the turn's receive looks. */
  function Met(s: Loop, t: Turn): seq<WalRecord> { s.queue + t.before.arrivals + t.between.arrivals }

  /** A turn that receives nothing leaves the segments alone, due or not. */
  lemma IdleTurn(s: Loop, t: Turn, capacity: Option<nat>, w: nat, size: nat)
    requires capacity != Some(0) && Met(s, t) == []
    ensures Turned(s, t, capacity, w, size).history == s.history
  {
    hide HotPath, Accept, Rotate;
  }

  /** h' goes on where h ends: closed segments are as they were, the current one may have grown. */
  ghost predicate GoesOn(h: History, h': History) {
    |h| <= |h'| && h'[..|h| - 1] == h[..|h| - 1] && Current(h) <= h'[|h| - 1]
  }

  lemma TurnGoesOn(s: Loop, t: Turn, capacity: Option<nat>, w: nat, size: nat)
    requires capacity != Some(0)
    ensures var h' := Turned(s, t, capacity, w, size).history;
      GoesOn(s.history, h') && (t.due && Met(s, t) != [] ==> Current(h') == [])
  {
    hide HotPath, Accept, Rotate, Log, Encoded;
    var s1 := Interfered(s, t.before);
    var s2 := Interfered(s1.(degraded := HotPath(s1.degraded, |s1.queue|, capacity, w)), t.between);
    if s2.queue != [] { ReceivedBoundaries(s2, t.due, size); }
  }

  lemma GoesOnTrans(a: History, b: History, c: History)
    requires GoesOn(a, b) && GoesOn(b, c)
    ensures GoesOn(a, c)
  {
    forall k | 0 <= k < |a| - 1 ensures c[k] == a[k] {
      assert c[..|b| - 1][k] == b[..|b| - 1][k] && b[..|a| - 1][k] == a[..|a| - 1][k];
    }
    if |a| < |b| { assert c[..|b| - 1][|a| - 1] == b[..|b| - 1][|a| - 1]; }
  }

  lemma {:induction false} RunGoesOn(s: Loop, ts: seq<Turn>, capacity: Option<nat>, w: nat, size: nat, i: nat)
    requires capacity != Some(0) && i <= |ts|
    ensures GoesOn(RunLoop(s, ts[..i], capacity, w, size).history, RunLoop(s, ts, capacity, w, size).history)
    decreases |ts|
  {
    hide Turned;
    if i == |ts| {
      assert ts[..i] == ts;
    } else {
      var n := |ts| - 1;
      assert ts[..n][..i] == ts[..i];
      RunGoesOn(s, ts[..n], capacity, w, size, i);
      TurnGoesOn(RunLoop(s, ts[..n], capacity, w, size), ts[n], capacity, w, size);
      GoesOnTrans(RunLoop(s, ts[..i], capacity, w, size).history, RunLoop(s, ts[..n], capacity, w, size).history,
                  RunLoop(s, ts, capacity, w, size).history);
    }
  }

  lemma RunTo(s: Loop, ts: seq<Turn>, capacity: Option<nat>, w: nat, size: nat, i: nat)
    requires capacity != Some(0) && i < |ts|
    ensures RunLoop(s, ts[..i + 1], capacity, w, size)
         == Turned(RunLoop(s, ts[..i], capacity, w, size), ts[i], capacity, w, size)
  {
    hide Turned;
    assert ts[..i + 1][..i] == ts[..i];
  }

  /**
   Records with a due turn between them never share a segment: whatever the run goes on to do, all records accepted up
   to and in a turn that is due and receives one lie in the segments closed by then, and all later ones in later
   segments.
   */
  lemma DueSeparates(s: Loop, ts: seq<Turn>, capacity: Option<nat>, w: nat, size: nat, i: nat)
    requires capacity != Some(0) && i < |ts|
    requires ts[i].due && Met(RunLoop(s, ts[..i], capacity, w, size), ts[i]) != []
    ensures
      var mid := RunLoop(s, ts[..i + 1], capacity, w, size).history;
      var end := RunLoop(s, ts, capacity, w, size).history;
      var n := |mid| - 1;
      && n < |end| && end[..n] == mid[..n] && Current(mid) == []
      && Flatten(end[..n]) == Flatten(mid) && Flatten(end) == Flatten(mid) + Flatten(end[n..])
  {
    hide Turned, GoesOn, RunLoop, Flatten, Met;
    RunTo(s, ts, capacity, w, size, i);
    TurnGoesOn(RunLoop(s, ts[..i], capacity, w, size), ts[i], capacity, w, size);
    RunGoesOn(s, ts, capacity, w, size, i + 1);
    Separates(RunLoop(s, ts[..i + 1], capacity, w, size).history, RunLoop(s, ts, capacity, w, size).history);
  }

  lemma Separates(mid: History, end: History)
    requires GoesOn(mid, end) && Current(mid) == []
    ensures var n := |mid| - 1;
      && n < |end| && end[..n] == mid[..n]
      && Flatten(end[..n]) == Flatten(mid) && Flatten(end) == Flatten(mid) + Flatten(end[n..])
  {
    var n := |mid| - 1;
    FlattenSplit(mid);
    assert end == end[..n] + end[n..];
    FlattenAppend(end[..n], end[n..]);
  }

  // ---------- The pipeline ----------

  /** In every interleaving the end of a due turn leaves an empty segment behind, adding one only if it closed one. */
  lemma EndTurnBoundaries(c: Config, s: System, due: bool)
    requires c.capacity != Some(0) && Enabled(c, s, EndTurn(due))
    ensures var h := Next(c, s, EndTurn(due)).history;
      && h == (if due && Current(s.history) != [] then s.history + [[]] else s.history)
      && (due ==> Current(h) == [])
  {
    RotatesExactly(s.history, due);
    hide Rotate;
  }
}
