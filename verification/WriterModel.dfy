/** What the writer does to its segments, on values: one list of records per segment ever allocated. */
module WriterModel {
  import opened Options
  import opened Crc32
  import opened WalHeader
  import opened WalStream
  import opened Guard
  import opened Sequences

  type History = h: seq<seq<WalRecord>> | |h| > 0 witness [[]]

  function Current(h: History): seq<WalRecord> { h[|h| - 1] }

  function Extended(h: History, r: WalRecord): History { h[..|h| - 1] + [Current(h) + [r]] }

  /** A record goes to the current segment unless it would overflow it; then it opens the next one. */
  function Accept(h: History, r: WalRecord, segmentSize: nat): History {
    if |Log(Current(h))| + |Encoded(r)| > segmentSize then h + [[r]]
    else Extended(h, r)
  }

  /** When the rotation interval is over, a segment that holds anything is closed. */
  function Rotate(h: History, due: bool): History {
    if due && |Log(Current(h))| > 0 then h + [[]] else h
  }

  /** The contents of all segments, one after the other. */
  function AllBytes(h: seq<seq<WalRecord>>): seq<byte> {
    if h == [] then [] else Log(h[0]) + AllBytes(h[1..])
  }

  /** A segment is within the size limit, or holds nothing but one record that is too large for any. */
  predicate Fits(segment: seq<WalRecord>, segmentSize: nat) {
    |Log(segment)| <= segmentSize || |segment| == 1
  }

  ghost predicate AllFit(h: seq<seq<WalRecord>>, segmentSize: nat) {
    forall s :: s in h ==> Fits(s, segmentSize)
  }

  /** Wherever the segment boundary falls, the record comes last in arrival order and no other moves. */
  lemma AcceptFlatten(h: History, r: WalRecord, segmentSize: nat)
    ensures Flatten(Accept(h, r, segmentSize)) == Flatten(h) + [r]
  {
    hide Log, Encoded;
    FlattenSplit(h);
    if |Log(Current(h))| + |Encoded(r)| > segmentSize {
      FlattenAppend(h, [[r]]);
      FlattenOne([r]);
    } else {
      FlattenAppend(h[..|h| - 1], [Current(h) + [r]]);
      FlattenOne(Current(h) + [r]);
    }
  }

  lemma RotateFlatten(h: History, due: bool)
    ensures Flatten(Rotate(h, due)) == Flatten(h)
  {
    FlattenAppend(h, [[]]);
    FlattenOne<WalRecord>([]);
  }

  /** Cutting into segments loses and reorders no byte: all segments together are the log of all records. */
  lemma {:induction false} AllBytesIsLog(h: seq<seq<WalRecord>>)
    ensures AllBytes(h) == Log(Flatten(h))
  {
    hide Encoded;
    if h != [] {
      AllBytesIsLog(h[1..]);
      LogAppend(h[0], Flatten(h[1..]));
    }
  }

  lemma LogOne(r: WalRecord)
    ensures Log([r]) == Encoded(r)
  {
    hide Encoded;
    assert Log([r]) == Encoded(r) + Log([]);
  }

  lemma AcceptFits(h: History, r: WalRecord, segmentSize: nat)
    requires AllFit(h, segmentSize)
    ensures AllFit(Accept(h, r, segmentSize), segmentSize)
  {
    hide Log, Encoded;
    LogSnoc(Current(h), r);
    forall s | s in Accept(h, r, segmentSize) ensures Fits(s, segmentSize) {
      if s !in h {
        if s != [r] { assert |Log(s)| == |Log(Current(h))| + |Encoded(r)|; }
      }
    }
  }

  /** Accepting is rotating first if need be, then extending the current segment. */
  lemma AcceptExtends(h: History, r: WalRecord, segmentSize: nat, ready: History)
    requires AllFit(h, segmentSize)
    requires ready == if |Log(Current(h))| + |Encoded(r)| > segmentSize then h + [[]] else h
    ensures Extended(ready, r) == Accept(h, r, segmentSize) && Fits(Current(ready) + [r], segmentSize)
  {
    hide Log, Encoded, Fits;
    AcceptFits(h, r, segmentSize);
    assert [] + [r] == [r];
    assert ready == h + [[]] ==> ready[..|ready| - 1] == h;
    assert Current(Accept(h, r, segmentSize)) in Accept(h, r, segmentSize);
  }

  lemma EmptyFits(segmentSize: nat)
    ensures Fits([], segmentSize)
  {}

  lemma RotateFits(h: History, due: bool, segmentSize: nat)
    requires AllFit(h, segmentSize)
    ensures AllFit(Rotate(h, due), segmentSize)
  {
    hide Log;
    EmptyFits(segmentSize);
  }

  /** If every record fits a segment, so does every segment. */
  lemma FitsStrictly(h: seq<seq<WalRecord>>, segmentSize: nat)
    requires AllFit(h, segmentSize)
    requires forall s, r :: s in h && r in s ==> |Encoded(r)| <= segmentSize
    ensures forall s :: s in h ==> |Log(s)| <= segmentSize
  {
    hide Log, Encoded;
    forall s | s in h ensures |Log(s)| <= segmentSize {
      if |s| == 1 {
        assert s == [s[0]];
        LogOne(s[0]);
      }
    }
  }

  // ---------- The writer loop ----------

  /** What other threads do between two points of the loop: send records, and set or clear the flag. */
  datatype Interference = Interference(arrivals: seq<WalRecord>, flag: Option<bool>)

  /**
   One turn of the loop: interference before the check and before the receive (later stores and sends act as if they
   came just before the receive); whether the rotation interval is over; what `BufWriter` hands on.
   */
  datatype Turn = Turn(before: Interference, between: Interference, due: bool, spill: nat)

  datatype Loop = Loop(queue: seq<WalRecord>, degraded: bool, history: History, dropped: nat)

  function Interfered(s: Loop, i: Interference): Loop {
    s.(queue := s.queue + i.arrivals, degraded := if i.flag.Some? then i.flag.value else s.degraded)
  }

  /** Receive one record if there is one: drop it when degraded, write it otherwise, then see about rotating. */
  function Received(s: Loop, due: bool, segmentSize: nat): Loop {
    if s.queue == [] then s
    else
      var s' := s.(queue := s.queue[1..]);
      if s.degraded then s'.(dropped := s.dropped + 1, history := Rotate(s.history, due))
      else s'.(history := Rotate(Accept(s.history, s.queue[0], segmentSize), due))
  }

  function Turned(s: Loop, t: Turn, capacity: Option<nat>, watermark: nat, segmentSize: nat): Loop
    requires capacity != Some(0)
  {
    var s1 := Interfered(s, t.before);
    var s2 := s1.(degraded := HotPath(s1.degraded, |s1.queue|, capacity, watermark));
    Received(Interfered(s2, t.between), t.due, segmentSize)
  }

  function RunLoop(s: Loop, ts: seq<Turn>, capacity: Option<nat>, watermark: nat, segmentSize: nat): Loop
    requires capacity != Some(0)
    decreases |ts|
  {
    if ts == [] then s
    else Turned(RunLoop(s, ts[..|ts| - 1], capacity, watermark, segmentSize), ts[|ts| - 1],
                capacity, watermark, segmentSize)
  }
}
