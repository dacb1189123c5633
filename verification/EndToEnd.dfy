/** From capture to the receiver's file: any run of the probe, then any run of the receiver. */
module EndToEnd {
  import opened Options
  import opened Crc32
  import opened Names
  import opened WalHeader
  import opened WalRecordProofs
  import opened WalStream
  import opened Slicer
  import opened Sequences
  import opened Delivery
  import opened ReceiverModel
  import opened Pipeline
  import opened RotationRuns
  import opened WriterThread
  import opened DirectoryLife

  // ---------- The receiver's file, decoded ----------

  /** A network run: honest frames, from an honest start, in any order and number. */
  ghost predicate Network(rs: seq<Receiver>, fs: seq<Frame>, budgets: Budgets, source: map<Key, seq<byte>>,
                          named: map<BlindId, seq<byte>>)
  {
    && Trace(rs, fs, budgets) && Honest(rs[0], source, named)
    && forall f :: f in fs ==> HonestFrame(f, source, named)
  }

  lemma FileIsPrefix(rs: seq<Receiver>, fs: seq<Frame>, budgets: Budgets, j: nat, key: Key,
                     source: map<Key, seq<byte>>, named: map<BlindId, seq<byte>>)
    requires Network(rs, fs, budgets, source, named) && j < |rs| && key in source
    ensures FileOf(rs[j].files, key) <= source[key]
  {
    hide ReceiverModel.Next, HonestFrame;
    TraceHonest(rs, fs, budgets, j, source, named);
    assert Faithful(BufOf(rs[j], key), source[key]);
  }

  /** At every step of every run, the file decodes to the first records of its segment, and a torn rest. */
  lemma FileDecodes(rs: seq<Receiver>, fs: seq<Frame>, budgets: Budgets, j: nat, key: Key, recs: seq<WalRecord>,
                    source: map<Key, seq<byte>>, named: map<BlindId, seq<byte>>)
    requires Network(rs, fs, budgets, source, named) && j < |rs|
    requires key in source && source[key] == Log(recs) && Encodable(recs)
    ensures var file := FileOf(rs[j].files, key);
      && file <= Log(recs) && |Log(recs[..Whole(recs, |file|)])| <= |file|
      && DecodeAll(file) == Decoded(NormalisedAll(recs[..Whole(recs, |file|)]),
                                    |file| - |Log(recs[..Whole(recs, |file|)])|)
  {
    hide Network, Log, Whole, DecodeAll, NormalisedAll, FileOf;
    FileIsPrefix(rs, fs, budgets, j, key, source, named);
    var file := FileOf(rs[j].files, key);
    assert Log(recs)[..|file|] == file;
    CrashRecovery(recs, |file|);
  }

  /** With the true size announced, nothing is missing at the seal exactly when the file is the source. */
  lemma SealExact(rs: seq<Receiver>, fs: seq<Frame>, budgets: Budgets, j: nat, key: Key,
                  source: map<Key, seq<byte>>, named: map<BlindId, seq<byte>>)
    requires Network(rs, fs, budgets, source, named) && j < |rs| && key in source
    ensures |FileOf(rs[j].files, key)| >= |source[key]| <==> FileOf(rs[j].files, key) == source[key]
  {
    hide Network, FileOf;
    FileIsPrefix(rs, fs, budgets, j, key, source, named);
  }

  // ---------- Segments of the pipeline ----------

  /** Frames come from a 32-bit world: no payload reaches 4 GiB. */
  ghost predicate SmallFrames(c: Config) {
    forall p :: p in c.frames && p.Ip? ==> |p.app| < U32_LIMIT
  }

  lemma MadeCanonical(c: Config, item: Tagged)
    requires SmallFrames(c) && MadeFrom(c, item)
    ensures Canonical(item.record) && |item.record.payload| < U32_LIMIT
  {
    hide Process, Canonical;
    var ts, d :| Process(c.maxPayload, c.frames[item.no], ts, d) == Some(item.record);
    ProcessedRoundTrip(c.maxPayload, c.frames[item.no], ts, d);
  }

  /** A segment holds a run of the written records. */
  lemma SegmentIsRun(h: seq<seq<WalRecord>>, k: nat) returns (at: nat)
    requires k < |h|
    ensures at + |h[k]| <= |Flatten(h)| && Flatten(h)[at..at + |h[k]|] == h[k]
  {
    at := |Flatten(h[..k])|;
    assert h == h[..k] + ([h[k]] + h[k + 1..]);
    FlattenAppend(h[..k], [h[k]] + h[k + 1..]);
    FlattenAppend([h[k]], h[k + 1..]);
    FlattenOne(h[k]);
  }

  lemma CanonicalAll(rs: seq<WalRecord>)
    requires forall r :: r in rs ==> Canonical(r)
    ensures NormalisedAll(rs) == rs
  {
    hide Canonical, Normalised;
    forall i | 0 <= i < |rs| ensures Normalised(rs[i]) == rs[i] { NormalisedExact(rs[i]); }
  }

  lemma RecordsSlice(items: seq<Tagged>, at: nat, n: nat)
    requires at + n <= |items|
    ensures Records(items)[at..at + n] == Records(items[at..at + n])
  {}

  /** Every record of a segment was made from a captured frame; a segment is a run of the written ones. */
  lemma SegmentWritten(c: Config, ss: seq<System>, steps: seq<Step>, i: nat, k: nat) returns (at: nat)
    requires Behaviour(c, ss, steps) && i < |ss| && k < |ss[i].history| && SmallFrames(c)
    ensures at + |ss[i].history[k]| <= |ss[i].written|
    ensures ss[i].history[k] == Records(ss[i].written[at..at + |ss[i].history[k]|])
    ensures Encodable(ss[i].history[k]) && forall r :: r in ss[i].history[k] ==> Canonical(r)
  {
    hide Behaviour, MadeFrom, Canonical, SmallFrames, Flatten, Count;
    Conservation(c, ss, steps, i);
    var s := ss[i];
    var seg := s.history[k];
    at := SegmentIsRun(s.history, k);
    RecordsSlice(s.written, at, |seg|);
    forall r | r in seg ensures Canonical(r) && |r.payload| < U32_LIMIT {
      var x :| 0 <= x < |seg| && seg[x] == r;
      assert seg[x] == s.written[at + x].record;
      MadeCanonical(c, s.written[at + x]);
    }
  }

  /**
   End to end. Take any run of the probe and any segment it has filled; take any run of a receiver whose frames
   for that segment are slices of it, in whatever order, lost, repeated, by reference, evicted, reopened. At
   every step the receiver's file decodes to the first records of the segment exactly as written, each made by
   the slicer from its own captured frame, in the order of capture, with only a torn record left over.
   */
  lemma CapturedToReceived(c: Config, ss: seq<System>, steps: seq<Step>, i: nat, k: nat,
                           rs: seq<Receiver>, fs: seq<Frame>, budgets: Budgets, j: nat, key: Key,
                           source: map<Key, seq<byte>>, named: map<BlindId, seq<byte>>)
      returns (items: seq<Tagged>)
    requires Behaviour(c, ss, steps) && i < |ss| && k < |ss[i].history| && SmallFrames(c)
    requires Network(rs, fs, budgets, source, named) && j < |rs|
    requires key in source && source[key] == Log(ss[i].history[k])
    ensures var file := FileOf(rs[j].files, key);
      && file <= Log(ss[i].history[k])
      && |Log(Records(items))| <= |file|
      && DecodeAll(file) == Decoded(Records(items), |file| - |Log(Records(items))|)
      && Records(items) == ss[i].history[k][..Whole(ss[i].history[k], |file|)]
    ensures Ascending(items) && forall t :: t in items ==> t in ss[i].written && MadeFrom(c, t)
  {
    hide Behaviour, MadeFrom, Canonical, SmallFrames, Flatten, Count, Network, Log, Whole, DecodeAll, NormalisedAll,
      FileOf, Sound, Sized;
    Conservation(c, ss, steps, i);
    var s := ss[i];
    var seg := s.history[k];
    var at := SegmentWritten(c, ss, steps, i, k);
    FileDecodes(rs, fs, budgets, j, key, seg, source, named);
    var m := Whole(seg, |FileOf(rs[j].files, key)|);
    CanonicalAll(seg[..m]);
    RecordsSlice(s.written, at, |seg|);
    RecordsSlice(s.written, at, m);
    items := s.written[at..at + m];
    assert seg[..m] == Records(items);
  }

  // ---------- Segments as the probe's directory held them ----------

  /** The bytes stood at this offset of segment n's file at some moment of the probe's lives. */
  ghost predicate Stood(ms: seq<Moment>, n: nat, offset: nat, bytes: seq<byte>) {
    exists i :: 0 <= i < |ms| && SegName(n) in ms[i].files && IsSlice(ms[i].files[SegName(n)], offset, bytes)
  }

  /** What a sender cuts from the files it finds, whenever it looks, is all that the frames of this device carry. */
  ghost predicate Served(f: Frame, ms: seq<Moment>, device: nat, named: map<BlindId, seq<byte>>) {
    match f
    case Data(key, offset, id, plaintext) =>
      plaintext.Some? ==>
        && (key.0 == device ==> Stood(ms, key.1, offset, plaintext.value))
        && (id.Some? ==> id.value in named && named[id.value] == plaintext.value)
    case Ref(key, offset, id) =>
      id.Some? && id.value in named && key.0 == device ==> Stood(ms, key.1, offset, named[id.value])
    case Batch(key, entries) =>
      key.0 == device ==>
        forall e :: e in entries && e.plaintext.Some? ==> Stood(ms, key.1, e.offset, e.plaintext.value)
    case _ => true
  }

  /** What has been accepted into each of the device's segments by the end. */
  ghost function SourceOf(ms: seq<Moment>, device: nat): map<Key, seq<byte>>
    requires |ms| > 0
  {
    var end := ms[|ms| - 1];
    map n: nat | ms[0].firstNo <= n < NextNo(end) :: (device, n) := Log(RecordsIn(end, n))
  }

  lemma StoodIsSlice(ms: seq<Moment>, device: nat, key: Key, offset: nat, bytes: seq<byte>)
    requires Lives(ms) && key in SourceOf(ms, device) && Stood(ms, key.1, offset, bytes)
    ensures IsSlice(SourceOf(ms, device)[key], offset, bytes)
  {
    hide Lives, Log, RecordsIn, SegName;
    var i :| 0 <= i < |ms| && SegName(key.1) in ms[i].files && IsSlice(ms[i].files[SegName(key.1)], offset, bytes);
    LivesSane(ms, |ms| - 1);
    StoodIsPrefix(ms, i, |ms| - 1, key.1);
    var file, log := ms[i].files[SegName(key.1)], Log(RecordsIn(ms[|ms| - 1], key.1));
    assert log[..|file|] == file;
  }

  /** Slices of files that stood at any time, crashes and restarts between, are honest frames. */
  lemma ServedHonest(f: Frame, ms: seq<Moment>, device: nat, named: map<BlindId, seq<byte>>)
    requires Lives(ms) && Served(f, ms, device, named)
    ensures HonestFrame(f, SourceOf(ms, device), named)
  {
    assert |ms| > 0;
    hide Lives, Stood, IsSlice, Log, RecordsIn, SegName;
    var source := SourceOf(ms, device);
    match f {
      case Data(key, offset, id, Some(p)) => if key in source { StoodIsSlice(ms, device, key, offset, p); }
      case Ref(key, offset, Some(id)) =>
        if id in named && key in source { StoodIsSlice(ms, device, key, offset, named[id]); }
      case Batch(key, entries) =>
        if key in source {
          forall e | e in entries && e.plaintext.Some? ensures IsSlice(source[key], e.offset, e.plaintext.value) {
            StoodIsSlice(ms, device, key, e.offset, e.plaintext.value);
          }
        }
      case _ =>
    }
  }

  /**
   From capture, through the probe's directory, to the receiver. One process of the probe's lives is any run of its
   threads up to where it ends; before and after it others may have run, died and started again on the same directory.
   Frames carry slices of whatever stood under the segments' names at any of these times, torn ends included. Then
   whatever the receiver has of the process's segment k is the first records of it, each made from its own frame.
   */
  lemma DirectoryToReceived(c: Config, ss: seq<System>, steps: seq<Step>, i: nat, k: nat,
                            ms: seq<Moment>, t: nat, device: nat,
                            rs: seq<Receiver>, fs: seq<Frame>, budgets: Budgets, j: nat,
                            named: map<BlindId, seq<byte>>)
      returns (items: seq<Tagged>)
    requires Behaviour(c, ss, steps) && i < |ss| && k < |ss[i].history| && SmallFrames(c)
    requires Lives(ms) && t < |ms| && Last(ms, t) && ms[t].history == ss[i].history
    requires Trace(rs, fs, budgets) && j < |rs| && Honest(rs[0], SourceOf(ms, device), named)
    requires forall f :: f in fs ==> Served(f, ms, device, named)
    ensures var file := FileOf(rs[j].files, (device, ms[t].firstNo + k));
      && file <= Log(ss[i].history[k])
      && |Log(Records(items))| <= |file|
      && DecodeAll(file) == Decoded(Records(items), |file| - |Log(Records(items))|)
      && Records(items) == ss[i].history[k][..Whole(ss[i].history[k], |file|)]
    ensures Ascending(items) && forall x :: x in items ==> x in ss[i].written && MadeFrom(c, x)
  {
    hide Behaviour, MadeFrom, Log, Whole, DecodeAll, Lives, Last, Served, HonestFrame, ReceiverModel.Next, FileOf,
      Honest, SmallFrames, Ascending, RecordsIn, Known;
    var n := ms[t].firstNo + k;
    LastStays(ms, t, k);
    KnownInSource(ms, device, n);
    forall f | f in fs ensures HonestFrame(f, SourceOf(ms, device), named) { ServedHonest(f, ms, device, named); }
    items := CapturedToReceived(c, ss, steps, i, k, rs, fs, budgets, j, (device, n), SourceOf(ms, device), named);
  }

  lemma KnownInSource(ms: seq<Moment>, device: nat, n: nat)
    requires Lives(ms) && Known(ms[|ms| - 1], n)
    ensures (device, n) in SourceOf(ms, device)
    ensures SourceOf(ms, device)[(device, n)] == Log(RecordsIn(ms[|ms| - 1], n))
  {
    assert |ms| > 0;
    hide Lives, Log, RecordsIn, OnDisk, NextIs, SegName;
    LivesSane(ms, |ms| - 1);
  }
}
