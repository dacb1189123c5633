/** The WAL writer: records from the queue into size- and time-rotated segments. */
module WriterThread {
  import opened Options
  import opened Crc32
  import opened Storage
  import opened Names
  import opened WalHeader
  import opened WalStream
  import opened WalCodec
  import opened WriterModel
  import opened Guard
  import opened Rotation
  import opened RotationRuns

  // ---------- Segments on disk ----------

  function NameAt(firstNo: nat, i: nat): string { SegName(firstNo + i) }

  /**
   The directory and the writer's buffer hold the history: the last segment is split between the two, and
   every earlier one is on disk in full unless it has been unlinked.
   */
  ghost predicate OnDisk(files: Files, history: seq<seq<WalRecord>>, firstNo: nat, buffer: seq<byte>) {
    && (history != [] ==>
          var name := NameAt(firstNo, |history| - 1);
          name in files && files[name] + buffer == Log(history[|history| - 1]))
    && (forall i :: 0 <= i < |history| - 1 && NameAt(firstNo, i) in files ==>
          files[NameAt(firstNo, i)] == Log(history[i]))
  }

  lemma NamesDiffer(firstNo: nat, i: nat, j: nat)
    requires i != j
    ensures NameAt(firstNo, i) != NameAt(firstNo, j)
  {
    if NameAt(firstNo, i) == NameAt(firstNo, j) { SegNameInjective(firstNo + i, firstNo + j); }
  }

  lemma SpillOnDisk(files: Files, history: seq<seq<WalRecord>>, firstNo: nat, buffer: seq<byte>, n: nat)
    requires OnDisk(files, history, firstNo, buffer) && history != [] && n <= |buffer|
    ensures var name := NameAt(firstNo, |history| - 1);
      name in files && OnDisk(files[name := files[name] + buffer[..n]], history, firstNo, buffer[n..])
  {
    hide Log, NameAt;
    var name := NameAt(firstNo, |history| - 1);
    assert files[name] + buffer[..n] + buffer[n..] == files[name] + buffer;
    forall i | 0 <= i < |history| - 1 ensures NameAt(firstNo, i) != name { NamesDiffer(firstNo, i, |history| - 1); }
  }

  lemma AppendOnDisk(files: Files, history: History, firstNo: nat, buffer: seq<byte>, r: WalRecord)
    requires OnDisk(files, history, firstNo, buffer)
    ensures OnDisk(files, Extended(history, r), firstNo, buffer + Encoded(r))
  {
    hide Log, NameAt, Encoded;
    var name := NameAt(firstNo, |history| - 1);
    LogSnoc(Current(history), r);
    assert files[name] + (buffer + Encoded(r)) == (files[name] + buffer) + Encoded(r);
  }

  /** A new segment, whether it survived its own allocation or the open had to create it again. */
  lemma ReopenedOnDisk(before: Files, history: seq<seq<WalRecord>>, firstNo: nat, mid: Files, cut: nat)
    requires OnDisk(before, history, firstNo, [])
    requires Unlinked(before[NameAt(firstNo, |history|) := []], mid, cut)
    ensures OnDisk(Reopened(mid, firstNo + |history|), history + [[]], firstNo, [])
  {
    EmptyIsEmpty();
    hide Log, NameAt, SegName, IsSegment, ParseName;
    assert NameAt(firstNo, |history|) == SegName(firstNo + |history|) by { NameIs(firstNo, |history|); }
    forall i | 0 <= i < |history| && NameAt(firstNo, i) in Reopened(mid, firstNo + |history|)
      ensures Reopened(mid, firstNo + |history|)[NameAt(firstNo, i)] == Log((history + [[]])[i])
    {
      NamesDiffer(firstNo, i, |history|);
      assert before[NameAt(firstNo, i)] + [] == before[NameAt(firstNo, i)];
    }
  }

  lemma NameIs(firstNo: nat, i: nat)
    ensures NameAt(firstNo, i) == SegName(firstNo + i)
  {}

  lemma EmptyIsEmpty()
    ensures Log([]) == []
  {}

  /** New contents under an old name change nothing the rotator looks at. */
  lemma SameNames(files: Files, name: string, bytes: seq<byte>)
    requires name in files
    ensures Strays(files[name := bytes]) == Strays(files)
    ensures SegmentsIn(files[name := bytes]) == SegmentsIn(files)
    ensures forall lo: nat, hi: nat :: InRange(files, lo, hi) ==> InRange(files[name := bytes], lo, hi)
  {
    hide IsCounted, IsSegment, ParseName;
  }

  /**
   A crash at any moment: every segment on disk decodes to its first records, the closed and flushed ones to all
   of them with nothing left over. No record is split between two segments.
   */
  lemma OnDiskDecodes(files: Files, history: seq<seq<WalRecord>>, firstNo: nat, buffer: seq<byte>, i: nat)
    requires OnDisk(files, history, firstNo, buffer) && i < |history| && NameAt(firstNo, i) in files
    requires Encodable(history[i])
    ensures var file, whole := files[NameAt(firstNo, i)], history[i][..Whole(history[i], |files[NameAt(firstNo, i)]|)];
      |Log(whole)| <= |file| && DecodeAll(file) == Decoded(NormalisedAll(whole), |file| - |Log(whole)|)
    ensures i < |history| - 1 || buffer == [] ==>
              DecodeAll(files[NameAt(firstNo, i)]) == Decoded(NormalisedAll(history[i]), 0)
  {
    hide Log, NameAt, DecodeAll, NormalisedAll, Encodable, Whole;
    var file := files[NameAt(firstNo, i)];
    assert i < |history| - 1 ==> file == Log(history[i]);
    assert i == |history| - 1 ==> file + buffer == Log(history[i]);
    assert file == Log(history[i])[..|file|];
    CrashRecovery(history[i], |file|);
    if file == Log(history[i]) { LogRoundTrip(history[i]); }
  }

  // ---------- What work adds to ----------

  ghost predicate Grown(h: seq<seq<WalRecord>>, h': seq<seq<WalRecord>>) {
    |h| <= |h'| && forall i :: 0 <= i < |h| ==> h[i] <= h'[i]
  }

  /** Segments from before this writer are as they were, or unlinked. */
  ghost predicate OlderKept(files: Files, files': Files, firstNo: nat) {
    forall no: nat :: no < firstNo && SegName(no) in files' ==>
      SegName(no) in files && files'[SegName(no)] == files[SegName(no)]
  }

  ghost predicate Worked(files: Files, h: seq<seq<WalRecord>>, files': Files, h': seq<seq<WalRecord>>, firstNo: nat) {
    Grown(h, h') && OlderKept(files, files', firstNo)
  }

  lemma WorkedNot(files: Files, h: seq<seq<WalRecord>>, firstNo: nat)
    ensures Worked(files, h, files, h, firstNo)
  {
    hide SegName;
  }

  lemma WorkedTrans(f: Files, h: seq<seq<WalRecord>>, f1: Files, h1: seq<seq<WalRecord>>, f2: Files,
                    h2: seq<seq<WalRecord>>, firstNo: nat)
    requires Worked(f, h, f1, h1, firstNo) && Worked(f1, h1, f2, h2, firstNo)
    ensures Worked(f, h, f2, h2, firstNo)
  {
    hide SegName;
  }

  lemma WroteSegment(files: Files, no: nat, bytes: seq<byte>, h: seq<seq<WalRecord>>, h': seq<seq<WalRecord>>,
                     firstNo: nat)
    requires Grown(h, h') && firstNo <= no
    ensures Worked(files, h, files[SegName(no) := bytes], h', firstNo)
  {
    forall n: nat | n < firstNo ensures SegName(n) != SegName(no) {
      if SegName(n) == SegName(no) { SegNameInjective(n, no); }
    }
    hide SegName;
  }

  lemma OpenWorked(before: Files, no: nat, mid: Files, cut: nat, h: seq<seq<WalRecord>>, firstNo: nat)
    requires Unlinked(before[SegName(no) := []], mid, cut) && firstNo <= no
    ensures Worked(before, h, Reopened(mid, no), h + [[]], firstNo)
  {
    forall n: nat | n < firstNo ensures SegName(n) != SegName(no) {
      if SegName(n) == SegName(no) { SegNameInjective(n, no); }
    }
    hide SegName, IsSegment, ParseName;
  }

  lemma ExtendedGrown(h: History, r: WalRecord)
    ensures Grown(h, Extended(h, r))
  {}

  lemma AppendWorked(files: Files, h: History, r: WalRecord, firstNo: nat)
    ensures Worked(files, h, files, Extended(h, r), firstNo)
  {
    ExtendedGrown(h, r);
    hide SegName, Extended;
  }

  // ---------- The size of the directory ----------

  /** Segments from before this writer are within the size limit. */
  ghost predicate OlderWithin(files: Files, firstNo: nat, size: nat) {
    forall s :: s in files && IsSegment(s) && ParseName(s).value < firstNo ==> |files[s]| <= size
  }

  lemma SpillOlder(files: Files, firstNo: nat, no: nat, size: nat, bytes: seq<byte>)
    requires OlderWithin(files, firstNo, size) && firstNo <= no < U64_LIMIT
    ensures OlderWithin(files[SegName(no) := bytes], firstNo, size)
  {
    SegNameIsSegment(no);
    hide ParseName, SegName;
  }

  lemma NextOlder(before: Files, firstNo: nat, no: nat, size: nat, mid: Files, cut: nat)
    requires OlderWithin(before, firstNo, size) && firstNo <= no < U64_LIMIT
    requires Unlinked(before[SegName(no) := []], mid, cut)
    ensures OlderWithin(Reopened(mid, no), firstNo, size)
  {
    SpillOlder(before, firstNo, no, size, []);
    SegNameIsSegment(no);
    hide ParseName, SegName;
  }

  /** Opening a segment keeps both limits of the directory. */
  lemma OpenedWithin(before: Files, no: nat, mid: Files, cut: nat, maxSegments: nat, firstNo: nat, size: nat)
    requires Allocated(before, no, mid, cut, maxSegments) && |Strays(before)| <= maxSegments
    requires firstNo <= no < U64_LIMIT && maxSegments >= 1 && (|Strays(before)| < maxSegments ==> SegName(no) in mid)
    ensures |SegmentsIn(Reopened(mid, no))| <= maxSegments
    ensures OlderWithin(before, firstNo, size) ==> OlderWithin(Reopened(mid, no), firstNo, size)
  {
    if OlderWithin(before, firstNo, size) { NextOlder(before, firstNo, no, size, mid, cut); }
    hide OlderWithin, SegName, SegmentsIn, Strays, Unlinked;
    if |Strays(before)| == maxSegments { OpenedFull(before, no, mid, cut, maxSegments); }
  }

  /** On disk no segment of this writer is larger than its records. */
  lemma DiskBound(files: Files, history: seq<seq<WalRecord>>, firstNo: nat, buffer: seq<byte>, lo: nat,
                  size: nat, maxSegments: nat)
    requires OnDisk(files, history, firstNo, buffer) && OlderWithin(files, firstNo, size)
    requires InRange(files, lo, firstNo + |history|) && |SegmentsIn(files)| <= maxSegments
    requires AllFit(history, size)
    requires forall s, r :: s in history && r in s ==> |Encoded(r)| <= size
    ensures Bytes(files, SegmentsIn(files)) <= maxSegments * size
  {
    hide Log, Encoded, Fits, ParseName, SegName;
    FitsStrictly(history, size);
    forall s | s in SegmentsIn(files) ensures |files[s]| <= size {
      var no := SegmentNumber(s);
      if no >= firstNo {
        var i := no - firstNo;
        assert s == NameAt(firstNo, i);
        assert history[i] in history;
      }
    }
    BytesBound(files, SegmentsIn(files), size);
    Product(|SegmentsIn(files)|, maxSegments, size);
  }

  /** Handing the first n bytes of the buffer to the open segment changes nothing else about the directory. */
  lemma Spilled(files: Files, history: seq<seq<WalRecord>>, firstNo: nat, buffer: seq<byte>, n: nat, lo: nat, size: nat)
    requires OnDisk(files, history, firstNo, buffer) && history != [] && n <= |buffer|
    requires firstNo + |history| <= U64_LIMIT && InRange(files, lo, firstNo + |history|)
    ensures var name := NameAt(firstNo, |history| - 1);
      name in files &&
      var files' := files[name := files[name] + buffer[..n]];
      && OnDisk(files', history, firstNo, buffer[n..])
      && Strays(files') == Strays(files) && SegmentsIn(files') == SegmentsIn(files)
      && InRange(files', lo, firstNo + |history|)
      && (OlderWithin(files, firstNo, size) ==> OlderWithin(files', firstNo, size))
  {
    hide Log, ParseName, IsSegment, IsCounted, SegName, PREFIX;
    SpillOnDisk(files, history, firstNo, buffer, n);
    var no := firstNo + |history| - 1;
    if OlderWithin(files, firstNo, size) { SpillOlder(files, firstNo, no, size, files[SegName(no)] + buffer[..n]); }
    hide Strays, SegmentsIn, InRange, OnDisk, OlderWithin;
    SameNames(files, SegName(no), files[SegName(no)] + buffer[..n]);
  }

  class WalWriter {
    const rotator: Rotator
    const segmentSize: nat
    const breaker: Breaker
    const queueWatermark: nat
    const scratch: ByteVec
    /** The open segment's number, and what of it is still in the `BufWriter`. */
    var file: Option<nat>
    var buffer: seq<byte>
    var written: nat
    var writtenRecords: nat
    var droppedRecords: nat
    /** The records of every segment this writer has allocated, evicted ones included. */
    ghost var history: seq<seq<WalRecord>>
    ghost var firstNo: nat

    /** Stray names leave room for at least one segment: without it a second allocation never ends. */
    ghost predicate Valid()
      reads this, rotator, rotator.disk
    {
      Consistent() && rotator.Valid() && |Strays(rotator.disk.files)| < rotator.maxSegments
    }

    ghost predicate Consistent()
      reads this, rotator, rotator.disk
    {
      && rotator.maxSegments >= 1 && rotator.segNo < U64_LIMIT
      && rotator.segNo == firstNo + |history|
      && file == (if history == [] then None else Some(rotator.segNo - 1))
      && (history == [] ==> buffer == [])
      && (history != [] ==> written == |Log(Current(history))|)
      && OnDisk(rotator.disk.files, history, firstNo, buffer)
      && AllFit(history, segmentSize)
    }

    /** What has become of an earlier directory and history of this writer. */
    ghost predicate Since(files: Files, h: seq<seq<WalRecord>>)
      reads this`history, this`firstNo, rotator.disk
    {
      Worked(files, h, rotator.disk.files, history, firstNo)
    }

    /** What bounds the directory: no more segments than allowed, the older ones within the size limit. */
    ghost predicate Bounded()
      reads this`firstNo, rotator.disk
    {
      |SegmentsIn(rotator.disk.files)| <= rotator.maxSegments && OlderWithin(rotator.disk.files, firstNo, segmentSize)
    }

    /** If every record fits a segment, the directory never holds more than maxSegments * segmentSize bytes of WAL. */
    lemma RamDisk()
      requires Valid() && Bounded()
      requires forall s, r :: s in history && r in s ==> |Encoded(r)| <= segmentSize
      ensures Bytes(rotator.disk.files, SegmentsIn(rotator.disk.files)) <= rotator.maxSegments * segmentSize
    {
      DiskBound(rotator.disk.files, history, firstNo, buffer, rotator.minNo, segmentSize, rotator.maxSegments);
    }

    constructor (disk: Disk, maxSegments: nat, segmentSize: nat, breaker: Breaker, queueWatermark: nat)
      requires maxSegments >= 1
      requires Within(disk.files, 0, U64_LIMIT - 1)
      ensures Consistent() && rotator.Valid() && (|Strays(disk.files)| < maxSegments ==> Valid())
      ensures rotator.disk == disk && rotator.maxSegments == maxSegments
      ensures this.segmentSize == segmentSize && this.breaker == breaker && this.queueWatermark == queueWatermark
      ensures history == [] && fresh(rotator) && fresh(scratch)
      ensures writtenRecords == 0 && droppedRecords == 0 && NextIs(disk.files, firstNo)
    {
      var r := new Rotator(disk, maxSegments);
      rotator := r;
      this.segmentSize := segmentSize;
      this.breaker := breaker;
      this.queueWatermark := queueWatermark;
      scratch := new ByteVec();
      file := None;
      buffer := [];
      written := 0;
      writtenRecords := 0;
      droppedRecords := 0;
      history := [];
      firstNo := r.segNo;
      StartAnchored(r.State(), r.State());
    }

    /**
     Rotate to a fresh segment; what was there has been flushed. The path that the rotator gives is opened for
     appending and created if it is not there, which it is not when stray names fill the limit.
     */
    method OpenSegment()
      requires Consistent() && rotator.Valid() && |Strays(rotator.disk.files)| <= rotator.maxSegments
      requires buffer == [] && rotator.segNo + 1 < U64_LIMIT
      modifies this`file, this`written, this`history, rotator, rotator.disk
      ensures Consistent() && history == old(history) + [[]] && rotator.segNo == old(rotator.segNo) + 1
      ensures Strays(rotator.disk.files) == Strays(old(rotator.disk.files))
      ensures OpenStep(old(rotator.disk.files), old(rotator.segNo), rotator.disk.files, rotator.minNo,
                       rotator.maxSegments)
      ensures old(|Strays(rotator.disk.files)| < rotator.maxSegments) ==>
                && Valid()
                && Allocated(old(rotator.disk.files), old(rotator.segNo), rotator.disk.files, rotator.minNo,
                             rotator.maxSegments)
      ensures old(|Strays(rotator.disk.files)| == rotator.maxSegments) ==>
                SegmentsIn(rotator.disk.files) == {SegName(old(rotator.segNo))} && old(rotator.segNo) < rotator.minNo
      ensures old(Bounded()) ==> Bounded()
      ensures Since(old(rotator.disk.files), old(history))
    {
      hide Log, Strays, SegmentsIn, SegName, InRange, Fits, Unlinked, OnDisk, OlderWithin, Reopened, Limited, Worked;
      ghost var before := rotator.disk.files;
      EmptyFits(segmentSize);
      EmptyIsEmpty();
      var no := rotator.NextSegment();
      ghost var mid := rotator.disk.files;
      NameIs(firstNo, |history|);
      OpenWorked(before, no, mid, rotator.minNo, history, firstNo);
      ReopenedOnDisk(before, history, firstNo, mid, rotator.minNo);
      AllocatedStrays(before, no, mid, rotator.minNo, rotator.maxSegments);
      Open(no, mid);
      OpenedWithin(before, no, mid, rotator.minNo, rotator.maxSegments, firstNo, segmentSize);
      if |Strays(before)| == rotator.maxSegments {
        OpenedFull(before, no, mid, rotator.minNo, rotator.maxSegments);
      }
      file := Some(no);
      written := 0;
      history := history + [[]];
    }

    /** `OpenOptions` with create and append. */
    method Open(no: nat, ghost mid: Files)
      requires mid == rotator.disk.files
      modifies rotator.disk
      ensures rotator.disk.files == Reopened(mid, no)
      ensures SegName(no) in mid ==> rotator.disk.files == mid
    {
      if SegName(no) !in rotator.disk.files {
        rotator.disk.files := rotator.disk.files[SegName(no) := []];
      }
    }

    /** `BufWriter` may hand the first bytes of its buffer to the file at any time. */
    method Spill(n: nat)
      requires Valid() && file.Some? && n <= |buffer|
      modifies this`buffer, rotator.disk
      ensures Valid() && buffer == old(buffer)[n..]
      ensures var name, before := SegName(file.value), old(rotator.disk.files);
        name in before && rotator.disk.files == before[name := before[name] + old(buffer)[..n]]
      ensures old(Bounded()) ==> Bounded()
      ensures Since(old(rotator.disk.files), old(history))
    {
      hide Log, Strays, SegName, InRange, Fits, AllFit, OnDisk, OlderWithin, SegmentsIn, Worked;
      var disk := rotator.disk;
      var name := SegName(file.value);
      Spilled(disk.files, history, firstNo, buffer, n, rotator.minNo, segmentSize);
      WorkedNot(disk.files, history, firstNo);
      WroteSegment(disk.files, file.value, disk.files[name] + buffer[..n], history, history, firstNo);
      disk.files := disk.files[name := disk.files[name] + buffer[..n]];
      buffer := buffer[n..];
    }

    /** `BufWriter` hands everything to the file. */
    method Flush()
      requires Valid()
      modifies this`buffer, rotator.disk
      ensures Valid() && buffer == []
      ensures rotator.disk.files == if file.None? then old(rotator.disk.files)
                else old(rotator.disk.files)[SegName(file.value) := Log(Current(history))]
      ensures old(Bounded()) ==> Bounded()
      ensures Since(old(rotator.disk.files), old(history))
    {
      hide Bounded, Log, Strays, InRange, Fits, SegName, Worked;
      WorkedNot(rotator.disk.files, history, firstNo);
      if file.Some? {
        Spill(|buffer|);
        assert rotator.disk.files[SegName(file.value)] + [] == rotator.disk.files[SegName(file.value)];
      }
    }

    /** Close the current segment and open the next. */
    method NextSegment()
      requires Valid() && rotator.segNo + 1 < U64_LIMIT
      modifies this`file, this`written, this`history, this`buffer, rotator, rotator.disk
      ensures Valid() && history == old(history) + [[]] && buffer == []
      ensures old(Bounded()) ==> Bounded()
      ensures Since(old(rotator.disk.files), old(history))
    {
      hide Bounded, Worked;
      ghost var files, h := rotator.disk.files, history;
      Flush();
      ghost var flushed := rotator.disk.files;
      OpenSegment();
      WorkedTrans(files, h, flushed, h, rotator.disk.files, history, firstNo);
    }

    /** The encoded record in scratch goes to the end of the open segment. */
    method AppendScratch(r: WalRecord, spill: nat)
      requires Valid() && history != [] && scratch.data == Encoded(r)
      requires Fits(Current(history) + [r], segmentSize)
      modifies this`history, this`buffer, this`written, this`writtenRecords, rotator.disk
      ensures Valid() && history == Extended(old(history), r)
      ensures writtenRecords == old(writtenRecords) + 1
      ensures old(Bounded()) ==> Bounded()
      ensures Since(old(rotator.disk.files), old(history))
    {
      hide Bounded, Log, Strays, InRange, Fits, SegName, OnDisk, Encoded, Worked;
      ghost var files, h := rotator.disk.files, history;
      AppendWorked(files, h, r, firstNo);
      LogSnoc(Current(history), r);
      AppendOnDisk(rotator.disk.files, history, firstNo, buffer, r);
      history := Extended(history, r);
      buffer := buffer + scratch.data;
      written := written + |scratch.data|;
      writtenRecords := writtenRecords + 1;
      if spill <= |buffer| {
        Spill(spill);
        WorkedTrans(files, h, files, Extended(h, r), rotator.disk.files, history, firstNo);
      }
    }

    /** One record: dropped when degraded, else encoded and written, in a new segment if it would overflow this one. */
    method HandleRecord(r: WalRecord, spill: nat)
      requires Valid() && history != [] && rotator.segNo + 1 < U64_LIMIT
      modifies this`file, this`history, this`buffer, this`written, this`writtenRecords, this`droppedRecords
      modifies scratch, rotator, rotator.disk
      ensures Valid() && rotator.segNo <= old(rotator.segNo) + 1
      ensures breaker.degraded ==> history == old(history) && droppedRecords == old(droppedRecords) + 1
                                   && writtenRecords == old(writtenRecords)
      ensures !breaker.degraded ==> history == Accept(old(history), r, segmentSize)
                                    && droppedRecords == old(droppedRecords)
                                    && writtenRecords == old(writtenRecords) + 1
      ensures old(Bounded()) ==> Bounded()
      ensures Since(old(rotator.disk.files), old(history))
    {
      hide Bounded, Log, Strays, InRange, Fits, SegName, OnDisk, Encoded, AllFit, Worked;
      ghost var files, h := rotator.disk.files, history;
      WorkedNot(files, h, firstNo);
      if breaker.degraded {
        droppedRecords := droppedRecords + 1;
        return;
      }
      scratch.data := [];
      scratch.Encode(r);
      assert scratch.data == Encoded(r);
      if written + |scratch.data| > segmentSize {
        NextSegment();
      }
      AcceptExtends(old(history), r, segmentSize, history);
      ghost var files1, h1 := rotator.disk.files, history;
      AppendScratch(r, spill);
      WorkedTrans(files, h, files1, h1, rotator.disk.files, history, firstNo);
    }

    method MaybeRotate(due: bool)
      requires Valid() && history != [] && rotator.segNo + 1 < U64_LIMIT
      modifies this`file, this`written, this`history, this`buffer, rotator, rotator.disk
      ensures Valid() && history == Rotate(old(history), due) && rotator.segNo <= old(rotator.segNo) + 1
      ensures due ==> Current(history) == [] && buffer == []
      ensures |history| == |old(history)| + if due && Current(old(history)) != [] then 1 else 0
      ensures old(Bounded()) ==> Bounded()
      ensures Since(old(rotator.disk.files), old(history))
    {
      hide Bounded, Worked;
      WorkedNot(rotator.disk.files, history, firstNo);
      if due && written > 0 {
        NextSegment();
      }
    }

    ghost function State(rx: Channel): Loop
      requires history != []
      reads this, breaker, rx
    {
      Loop(rx.queue, breaker.degraded, history, droppedRecords)
    }

    /** The other threads get to run. */
    method Interfere(rx: Channel, i: Interference)
      requires history != []
      modifies rx, breaker
      ensures State(rx) == Interfered(old(State(rx)), i)
    {
      rx.queue := rx.queue + i.arrivals;
      if i.flag.Some? {
        breaker.degraded := i.flag.value;
      }
    }

    /** Receive, handle, rotate; nothing when the wait times out on an empty queue. */
    method ReceiveOne(rx: Channel, due: bool, spill: nat)
      requires Valid() && history != [] && rotator.segNo + 2 < U64_LIMIT
      modifies this`file, this`history, this`buffer, this`written, this`writtenRecords, this`droppedRecords
      modifies scratch, rotator, rotator.disk, rx`queue
      ensures Valid() && history != [] && State(rx) == Received(old(State(rx)), due, segmentSize)
      ensures rotator.segNo <= old(rotator.segNo) + 2
      ensures writtenRecords + droppedRecords + |rx.queue| == old(writtenRecords + droppedRecords + |rx.queue|)
      ensures old(Bounded()) ==> Bounded()
      ensures Since(old(rotator.disk.files), old(history))
    {
      hide Bounded, Valid, Accept, Rotate, Worked;
      ghost var files, h := rotator.disk.files, history;
      WorkedNot(files, h, firstNo);
      if rx.queue != [] {
        var record := rx.queue[0];
        rx.queue := rx.queue[1..];
        HandleRecord(record, spill);
        ghost var files1, h1 := rotator.disk.files, history;
        MaybeRotate(due);
        WorkedTrans(files, h, files1, h1, rotator.disk.files, history, firstNo);
      }
    }

    /** One turn of the loop in `run`. */
    method OneTurn(rx: Channel, turn: Turn)
      requires Valid() && history != [] && rx.capacity != Some(0) && rotator.segNo + 2 < U64_LIMIT
      modifies this`file, this`history, this`buffer, this`written, this`writtenRecords, this`droppedRecords
      modifies scratch, rotator, rotator.disk, rx, breaker
      ensures Valid() && history != [] && rotator.segNo <= old(rotator.segNo) + 2
      ensures State(rx) == Turned(old(State(rx)), turn, rx.capacity, queueWatermark, segmentSize)
      ensures old(Bounded()) ==> Bounded()
      ensures Since(old(rotator.disk.files), old(history))
    {
      hide Bounded, Valid, Received, HotPath, Worked;
      Interfere(rx, turn.before);
      breaker.HotPathCheck(rx, queueWatermark);
      Interfere(rx, turn.between);
      ReceiveOne(rx, turn.due, turn.spill);
    }

    method RunTurns(rx: Channel, turns: seq<Turn>)
      requires Valid() && history != [] && rx.capacity != Some(0)
      requires rotator.segNo + 2 * |turns| < U64_LIMIT
      modifies this`file, this`history, this`buffer, this`written, this`writtenRecords, this`droppedRecords
      modifies scratch, rotator, rotator.disk, rx, breaker
      ensures Valid() && history != []
      ensures State(rx) == RunLoop(old(State(rx)), turns, rx.capacity, queueWatermark, segmentSize)
      ensures old(Bounded()) ==> Bounded()
      ensures Since(old(rotator.disk.files), old(history))
    {
      hide Bounded, Valid, Turned, HotPath, State, Worked;
      ghost var files, h := rotator.disk.files, history;
      WorkedNot(files, h, firstNo);
      ghost var start := State(rx);
      assert turns[..0] == [];
      for k := 0 to |turns|
        invariant Valid() && history != []
        invariant rotator.segNo + 2 * (|turns| - k) < U64_LIMIT
        invariant State(rx) == RunLoop(start, turns[..k], rx.capacity, queueWatermark, segmentSize)
        invariant old(Bounded()) ==> Bounded()
        invariant Since(files, h)
      {
        assert turns[..k + 1][..k] == turns[..k];
        ghost var files1, h1 := rotator.disk.files, history;
        OneTurn(rx, turns[k]);
        WorkedTrans(files, h, files1, h1, rotator.disk.files, history, firstNo);
      }
      assert turns[..|turns|] == turns;
    }

    /** The thread's loop for the given turns, then the end: all senders are gone, and the file is flushed. */
    method Run(rx: Channel, turns: seq<Turn>)
      requires Valid() && rx.capacity != Some(0)
      requires rotator.segNo + 2 * |turns| + 1 < U64_LIMIT
      modifies this`file, this`history, this`buffer, this`written, this`writtenRecords, this`droppedRecords
      modifies scratch, rotator, rotator.disk, rx, breaker
      ensures Valid() && history != [] && buffer == []
      ensures State(rx) == RunLoop(Loop(old(rx.queue), old(breaker.degraded), Begun(old(history)), old(droppedRecords)),
                                   turns, rx.capacity, queueWatermark, segmentSize)
      ensures old(Bounded()) ==> Bounded()
      ensures Since(old(rotator.disk.files), old(history))
    {
      hide Bounded, Valid, RunLoop, Worked;
      ghost var files, h := rotator.disk.files, history;
      Start();
      ghost var files1, h1 := rotator.disk.files, history;
      RunTurns(rx, turns);
      ghost var files2, h2 := rotator.disk.files, history;
      WorkedTrans(files, h, files1, h1, files2, h2, firstNo);
      Flush();
      WorkedTrans(files, h, files2, h2, rotator.disk.files, history, firstNo);
    }

    method Start()
      requires Valid() && rotator.segNo + 1 < U64_LIMIT
      modifies this`file, this`written, this`history, rotator, rotator.disk
      ensures Valid() && history == Begun(old(history)) && rotator.segNo <= old(rotator.segNo) + 1
      ensures old(Bounded()) ==> Bounded()
      ensures Since(old(rotator.disk.files), old(history))
    {
      hide Bounded, Worked;
      WorkedNot(rotator.disk.files, history, firstNo);
      if file.None? {
        OpenSegment();
      }
    }
  }

  /** The first segment is allocated when the loop starts. */
  function Begun(history: seq<seq<WalRecord>>): History {
    if history == [] then [[]] else history
  }
}
