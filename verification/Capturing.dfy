/** The capture thread: frames from the ring, dropped while degraded, otherwise cut and sent to the queue. */
module Capturing {
  import opened Options
  import opened WalHeader
  import opened Guard
  import opened Slicer

  /** A frame from the ring, its time, and what other threads store in the flag before each of the two reads of it. */
  datatype Item = Item(frame: Packet, ts: bv64, before: Option<bool>, between: Option<bool>)

  datatype Captured = Captured(sent: seq<WalRecord>, dropped: nat, degraded: bool)

  function Stored(flag: bool, other: Option<bool>): bool { if other.Some? then other.value else flag }

  function CapturedOne(s: Captured, maxPayload: nat, item: Item): Captured {
    var flag := Stored(s.degraded, item.before);
    if flag then s.(dropped := s.dropped + 1, degraded := flag)
    else
      var flag' := Stored(flag, item.between);
      match Process(maxPayload, item.frame, item.ts, flag')
      case None => s.(degraded := flag')
      case Some(r) => s.(sent := s.sent + [r], degraded := flag')
  }

  function CapturedAll(s: Captured, maxPayload: nat, items: seq<Item>): Captured
    decreases |items|
  {
    if items == [] then s
    else CapturedOne(CapturedAll(s, maxPayload, items[..|items| - 1]), maxPayload, items[|items| - 1])
  }

  predicate HasRoom(capacity: Option<nat>, queue: nat) { capacity.None? || queue < capacity.value }

  class Capture {
    const maxPayload: nat
    const breaker: Breaker

    constructor (maxPayload: nat, breaker: Breaker)
      ensures this.maxPayload == maxPayload && this.breaker == breaker
    {
      this.maxPayload := maxPayload;
      this.breaker := breaker;
    }

    /** A send to a full queue blocks until the writer has taken the record at its front. */
    method Send(tx: Channel, record: WalRecord)
      requires tx.capacity != Some(0) && (tx.capacity.Some? ==> |tx.queue| <= tx.capacity.value)
      modifies tx`queue
      ensures var k := if HasRoom(tx.capacity, |old(tx.queue)|) then 0 else 1;
        k <= |old(tx.queue)| && tx.queue == old(tx.queue)[k..] + [record]
      ensures tx.capacity.Some? ==> |tx.queue| <= tx.capacity.value
    {
      if !HasRoom(tx.capacity, |tx.queue|) {
        tx.queue := tx.queue[1..];
      }
      tx.queue := tx.queue + [record];
    }

    /** One frame; true if a record was made of it and sent. */
    method ConsumeOne(tx: Channel, item: Item, ghost start: Captured) returns (record: Option<WalRecord>)
      requires tx.capacity != Some(0) && (tx.capacity.Some? ==> |tx.queue| <= tx.capacity.value)
      requires start.degraded == breaker.degraded && start.dropped == breaker.dropped
      modifies breaker, tx`queue
      ensures var s := CapturedOne(start, maxPayload, item);
        && breaker.degraded == s.degraded && breaker.dropped == s.dropped
        && s.sent == start.sent + if record.Some? then [record.value] else []
      ensures tx.capacity.Some? ==> |tx.queue| <= tx.capacity.value
      ensures IsTail(tx.queue, old(tx.queue) + if record.Some? then [record.value] else [])
    {
      hide Process;
      breaker.degraded := Stored(breaker.degraded, item.before);
      if breaker.degraded {
        breaker.dropped := breaker.dropped + 1;
        return None;
      }
      breaker.degraded := Stored(breaker.degraded, item.between);
      record := Process(maxPayload, item.frame, item.ts, breaker.degraded);
      if record.Some? {
        Send(tx, record.value);
      }
    }

    /** What the thread does with a run of frames; sent is all it has sent, the queue what the writer has not taken. */
    method Consume(tx: Channel, items: seq<Item>) returns (sent: seq<WalRecord>)
      requires tx.capacity != Some(0) && (tx.capacity.Some? ==> |tx.queue| <= tx.capacity.value)
      modifies breaker, tx`queue
      ensures Captured(sent, breaker.dropped, breaker.degraded)
           == CapturedAll(Captured([], old(breaker.dropped), old(breaker.degraded)), maxPayload, items)
      ensures tx.capacity.Some? ==> |tx.queue| <= tx.capacity.value
      ensures IsTail(tx.queue, old(tx.queue) + sent)
    {
      hide CapturedOne;
      sent := [];
      ghost var start := Captured([], breaker.dropped, breaker.degraded);
      for i := 0 to |items|
        invariant Captured(sent, breaker.dropped, breaker.degraded) == CapturedAll(start, maxPayload, items[..i])
        invariant tx.capacity.Some? ==> |tx.queue| <= tx.capacity.value
        invariant IsTail(tx.queue, old(tx.queue) + sent)
      {
        assert items[..i + 1][..i] == items[..i];
        ghost var before := tx.queue;
        var record := ConsumeOne(tx, items[i], Captured(sent, breaker.dropped, breaker.degraded));
        ghost var more := if record.Some? then [record.value] else [];
        TailAppend(before, old(tx.queue) + sent, more);
        assert old(tx.queue) + sent + more == old(tx.queue) + (sent + more);
        sent := if record.Some? then sent + [record.value] else sent;
        TailTrans(tx.queue, before + more, old(tx.queue) + sent);
      }
      assert items[..|items|] == items;
    }
  }

  ghost predicate IsTail<T>(t: seq<T>, s: seq<T>) {
    |t| <= |s| && t == s[|s| - |t|..]
  }

  lemma TailAppend<T>(t: seq<T>, s: seq<T>, more: seq<T>)
    requires IsTail(t, s)
    ensures IsTail(t + more, s + more)
  {}

  lemma TailTrans<T>(t: seq<T>, s: seq<T>, u: seq<T>)
    requires IsTail(t, s) && IsTail(s, u)
    ensures IsTail(t, u)
  {}
}
