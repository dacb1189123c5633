/**
 The probe's directory over the lives of several processes: whatever stood under a segment's name at any time is a
 prefix of the log of the records accepted into that segment.
 */
module DirectoryLife {
  import opened Crc32
  import opened Names
  import opened WalHeader
  import opened WalStream
  import opened Rotation
  import opened RotationRuns
  import opened WriterThread

  /**
   The directory, the running process's segments, and the records of the segments of processes that have died: what they
   had accepted, written out or still in their buffers.
   */
  datatype Moment = Moment(files: Files, firstNo: nat, history: seq<seq<WalRecord>>, buffer: seq<byte>,
                           past: map<nat, seq<WalRecord>>)

  function NextNo(m: Moment): nat { m.firstNo + |m.history| }

  predicate Known(m: Moment, n: nat) { n in m.past || m.firstNo <= n < NextNo(m) }

  /** The records accepted so far into segment n; none for a segment from before. */
  function RecordsIn(m: Moment, n: nat): seq<WalRecord> {
    if n in m.past then m.past[n]
    else if m.firstNo <= n < NextNo(m) then m.history[n - m.firstNo]
    else []
  }

  /** The past is all numbers from base on, and what is on disk of it is the beginning of what was accepted. */
  ghost predicate PastOnDisk(m: Moment, base: nat) {
    && base <= m.firstNo && (forall n: nat :: n in m.past <==> base <= n < m.firstNo)
    && forall n: nat :: n in m.past && SegName(n) in m.files ==> m.files[SegName(n)] <= Log(m.past[n])
  }

  ghost predicate Sane(m: Moment, base: nat) {
    && OnDisk(m.files, m.history, m.firstNo, m.buffer) && PastOnDisk(m, base)
    && NextIs(m.files, NextNo(m)) && NextNo(m) < U64_LIMIT
  }

  /** A stretch of one process's work: its segments have grown, older ones are as they were or unlinked. */
  ghost predicate WorkStep(m: Moment, m': Moment) {
    && m'.firstNo == m.firstNo && m'.past == m.past && Worked(m.files, m.history, m'.files, m'.history, m.firstNo)
    && OnDisk(m'.files, m'.history, m'.firstNo, m'.buffer)
    && NextIs(m'.files, NextNo(m')) && NextNo(m') < U64_LIMIT
  }

  /** The segments of the process that dies join those of the past; what its buffer held is lost. */
  function Buried(m: Moment): map<nat, seq<WalRecord>> {
    m.past + map n: nat | m.firstNo <= n < NextNo(m) :: RecordsIn(m, n)
  }

  ghost predicate Died(m: Moment, m': Moment) { m'.files == m.files && m'.past == Buried(m) }

  /** The segment it was about to open has been created, and some of the oldest perhaps unlinked. */
  ghost predicate DiedAllocating(m: Moment, m': Moment) {
    && CrashStep(Probe(m.files, NextNo(m), 0), NextNo(m), m'.files)
    && m'.past == Buried(m)[NextNo(m) := []]
  }

  /** A new process scans what a dead one left, and goes on after the largest number found. */
  ghost predicate RestartStep(m: Moment, m': Moment) {
    && m'.history == [] && m'.buffer == [] && NextIs(m'.files, m'.firstNo) && m'.firstNo < U64_LIMIT
    && (Died(m, m') || DiedAllocating(m, m'))
  }

  /** From the first process on, which may find segments it knows nothing of. */
  ghost predicate Lives(ms: seq<Moment>) {
    && |ms| > 0 && ms[0].past == map[] && Sane(ms[0], ms[0].firstNo)
    && forall i :: 0 <= i < |ms| - 1 ==> WorkStep(ms[i], ms[i + 1]) || RestartStep(ms[i], ms[i + 1])
  }

  // ---------- Each step ----------

  /** Nothing that was accepted is taken back. */
  ghost predicate Kept(m: Moment, m': Moment) {
    && (forall n: nat :: Known(m, n) ==> Known(m', n) && RecordsIn(m, n) <= RecordsIn(m', n))
    && forall n: nat :: n in m.past ==> n in m'.past && m'.past[n] == m.past[n]
  }

  lemma WorkKeeps(m: Moment, m': Moment, base: nat)
    requires Sane(m, base) && WorkStep(m, m')
    ensures Sane(m', base) && Kept(m, m')
  {
    hide OnDisk, NextIs, SegName, Log;
  }

  /** On disk is the beginning of what was accepted; the rest is in the buffer, or nowhere. */
  lemma FileBegins(m: Moment, base: nat, n: nat)
    requires Sane(m, base) && Known(m, n) && SegName(n) in m.files
    ensures m.files[SegName(n)] <= Log(RecordsIn(m, n))
  {
    hide NextIs, SegName, Log;
    if n !in m.past {
      NameIs(m.firstNo, n - m.firstNo);
    }
  }

  lemma NextUnique(files: Files, n: nat, n': nat)
    requires NextIs(files, n) && NextIs(files, n')
    ensures n == n'
  {
    hide ParseName;
  }

  /** The new process's first number is the next free one; no number is used twice. */
  lemma DiedNext(m: Moment, m': Moment, base: nat)
    requires Sane(m, base) && RestartStep(m, m')
    ensures Died(m, m') ==> m'.firstNo == NextNo(m)
    ensures DiedAllocating(m, m') ==> m'.firstNo == NextNo(m) + 1
  {
    hide OnDisk, PastOnDisk, SegName, ParseName, Buried;
    var no := NextNo(m);
    if Died(m, m') { NextUnique(m.files, no, m'.firstNo); }
    if DiedAllocating(m, m') {
      var p := Probe(m.files, no, 0);
      var cut: nat :| Unlinked(p.files[SegName(no) := []], m'.files, cut);
      CreatedNext(p, no, m'.files, cut);
      NextUnique(m'.files, no + 1, m'.firstNo);
    }
  }

  lemma PastIsBefore(m: Moment, base: nat)
    requires Sane(m, base)
    ensures base <= m.firstNo && forall n :: n in m.past ==> n < m.firstNo
  {
    hide OnDisk, NextIs, SegName, Log;
  }

  lemma NothingNext(m: Moment, base: nat)
    requires Sane(m, base)
    ensures RecordsIn(m, NextNo(m)) == []
  {
    PastIsBefore(m, base);
    hide Sane;
  }

  lemma BuriedAll(m: Moment, base: nat)
    requires Sane(m, base)
    ensures forall n: nat :: n in Buried(m) <==> base <= n < NextNo(m)
    ensures forall n: nat :: n in Buried(m) ==> Known(m, n) && Buried(m)[n] == RecordsIn(m, n)
    ensures forall n: nat :: n in m.past ==> n in Buried(m) && Buried(m)[n] == m.past[n]
    ensures forall n: nat :: Known(m, n) ==> n in Buried(m)
  {
    hide OnDisk, NextIs, SegName, Log;
  }

  /** Files of numbers used before are as they were, or gone. */
  lemma RestartFile(m: Moment, m': Moment, n: nat)
    requires RestartStep(m, m') && n < NextNo(m) && SegName(n) in m'.files
    ensures SegName(n) in m.files && m'.files[SegName(n)] == m.files[SegName(n)]
  {
    if SegName(n) == SegName(NextNo(m)) { SegNameInjective(n, NextNo(m)); }
    hide SegName, ParseName, NextIs, Buried;
  }

  /** The past of the new process is all that came before, with the records as they were. */
  lemma RestartRecords(m: Moment, m': Moment, base: nat)
    requires Sane(m, base) && RestartStep(m, m')
    ensures forall n: nat :: n in m'.past <==> base <= n < m'.firstNo
    ensures forall n: nat :: n in m'.past ==> m'.past[n] == RecordsIn(m, n)
    ensures base <= NextNo(m) <= m'.firstNo
  {
    hide Sane, Buried, CrashStep, NextIs, RecordsIn, Known;
    BuriedAll(m, base);
    DiedNext(m, m', base);
    PastIsBefore(m, base);
    NothingNext(m, base);
  }

  lemma RestartPast(m: Moment, m': Moment, base: nat)
    requires Sane(m, base) && RestartStep(m, m')
    ensures PastOnDisk(m', base)
  {
    hide Sane, RestartStep, OnDisk, NextIs, SegName, Log, RecordsIn;
    RestartRecords(m, m', base);
    forall n: nat | n in m'.past && SegName(n) in m'.files ensures m'.files[SegName(n)] <= Log(m'.past[n]) {
      RestartFileBegins(m, m', base, n);
    }
  }

  lemma CreatedEmpty(m: Moment, m': Moment)
    requires DiedAllocating(m, m')
    ensures m'.files[SegName(NextNo(m))] == []
  {
    hide SegName, ParseName, IsSegment;
  }

  lemma RestartFileBegins(m: Moment, m': Moment, base: nat, n: nat)
    requires Sane(m, base) && RestartStep(m, m') && base <= n < m'.firstNo && SegName(n) in m'.files
    ensures m'.files[SegName(n)] <= Log(RecordsIn(m, n))
  {
    hide Sane, NextIs, SegName, Log, Died, DiedAllocating, Buried, Known, RecordsIn;
    DiedNext(m, m', base);
    if n < NextNo(m) {
      RestartFile(m, m', n);
      BuriedAll(m, base);
      FileBegins(m, base, n);
    } else {
      CreatedEmpty(m, m');
    }
  }

  lemma RestartKept(m: Moment, m': Moment, base: nat)
    requires Sane(m, base) && RestartStep(m, m')
    ensures Kept(m, m')
  {
    hide Sane, RestartStep, Buried;
    RestartRecords(m, m', base);
    BuriedAll(m, base);
  }

  lemma RestartKeeps(m: Moment, m': Moment, base: nat)
    requires Sane(m, base) && RestartStep(m, m')
    ensures Sane(m', base) && Kept(m, m')
  {
    RestartPast(m, m', base);
    RestartKept(m, m', base);
    hide NextIs, SegName, Log, PastOnDisk, CrashStep, Kept;
  }

  lemma StepKeeps(m: Moment, m': Moment, base: nat)
    requires Sane(m, base) && (WorkStep(m, m') || RestartStep(m, m'))
    ensures Sane(m', base) && Kept(m, m')
  {
    hide *;
    if WorkStep(m, m') {
      WorkKeeps(m, m', base);
    } else {
      RestartKeeps(m, m', base);
    }
  }

  // ---------- The whole run ----------

  lemma {:induction false} LivesSane(ms: seq<Moment>, i: nat)
    requires Lives(ms) && i < |ms|
    ensures Sane(ms[i], ms[0].firstNo)
  {
    hide WorkStep, RestartStep, Sane, Kept;
    if i > 0 {
      LivesSane(ms, i - 1);
      StepKeeps(ms[i - 1], ms[i], ms[0].firstNo);
    }
  }

  lemma {:induction false} LivesKeep(ms: seq<Moment>, i: nat, j: nat)
    requires Lives(ms) && i <= j < |ms|
    ensures Kept(ms[i], ms[j])
    decreases j
  {
    hide WorkStep, RestartStep, Sane, RecordsIn, Known;
    if i < j {
      LivesKeep(ms, i, j - 1);
      LivesSane(ms, j - 1);
      StepKeeps(ms[j - 1], ms[j], ms[0].firstNo);
    }
  }

  /** A segment on disk is one of the past or of the running process, unless it is from before all of them. */
  lemma OnDiskIsKnown(m: Moment, base: nat, n: nat)
    requires Sane(m, base) && base <= n < U64_LIMIT && SegName(n) in m.files
    ensures Known(m, n)
  {
    SegNameIsSegment(n);
    hide SegName, ParseName, OnDisk;
  }

  /**
   Whatever stood under a segment's name at any moment, while a process was writing it, after it was closed, after a
   crash lost the end of it, is a prefix of the log of the records that have been accepted into that segment by any
   later moment. No number is taken up again, so this is true across any number of crashes and restarts.
   */
  lemma StoodIsPrefix(ms: seq<Moment>, i: nat, j: nat, n: nat)
    requires Lives(ms) && i <= j < |ms| && ms[0].firstNo <= n < U64_LIMIT && SegName(n) in ms[i].files
    ensures Known(ms[j], n) && ms[i].files[SegName(n)] <= Log(RecordsIn(ms[j], n))
  {
    hide Lives, Sane, Known, RecordsIn, Log, SegName;
    LivesSane(ms, i);
    OnDiskIsKnown(ms[i], ms[0].firstNo, n);
    FileBegins(ms[i], ms[0].firstNo, n);
    LivesKeep(ms, i, j);
    LogPrefix(RecordsIn(ms[i], n), RecordsIn(ms[j], n));
  }

  lemma LogPrefix(a: seq<WalRecord>, b: seq<WalRecord>)
    requires a <= b
    ensures Log(a) <= Log(b)
  {
    assert b == a + b[|a|..];
    LogAppend(a, b[|a|..]);
  }

  /** The last moment of a process, or of the run. */
  ghost predicate Last(ms: seq<Moment>, t: nat)
    requires t < |ms|
  {
    t == |ms| - 1 || RestartStep(ms[t], ms[t + 1])
  }

  /** Once a process has ended, its segments hold what it had accepted into them, to the end of the run. */
  lemma LastStays(ms: seq<Moment>, t: nat, k: nat)
    requires Lives(ms) && t < |ms| && Last(ms, t) && k < |ms[t].history|
    ensures Known(ms[|ms| - 1], ms[t].firstNo + k)
    ensures RecordsIn(ms[|ms| - 1], ms[t].firstNo + k) == ms[t].history[k]
  {
    hide WorkStep, Sane, OnDisk, NextIs, CrashStep, Buried;
    LivesSane(ms, t);
    PastIsBefore(ms[t], ms[0].firstNo);
    if t < |ms| - 1 {
      BuriedAll(ms[t], ms[0].firstNo);
      assert ms[t + 1].past[ms[t].firstNo + k] == ms[t].history[k];
      LivesKeep(ms, t + 1, |ms| - 1);
    }
  }

  // ---------- The writer ----------

  ghost function Now(w: WalWriter, past: map<nat, seq<WalRecord>>): Moment
    reads w, w.rotator.disk
  {
    Moment(w.rotator.disk.files, w.firstNo, w.history, w.buffer, past)
  }

  /** What the writer's operations promise makes any stretch of its work a step of the run. */
  lemma WriterWorks(w: WalWriter, m: Moment)
    requires w.Valid() && w.history != [] && w.firstNo == m.firstNo && w.Since(m.files, m.history)
    ensures WorkStep(m, Now(w, m.past))
  {
    var files, no := w.rotator.disk.files, w.rotator.segNo - 1;
    NameIs(w.firstNo, |w.history| - 1);
    SegNameIsSegment(no);
    hide SegName, ParseName, IsSegment, Log, Worked;
    assert SegName(no) in files;
  }

  /** And a writer on the directory that a dead process left has restarted. */
  lemma WriterRestarts(w: WalWriter, m: Moment)
    requires w.Consistent() && w.history == [] && NextIs(w.rotator.disk.files, w.firstNo)
    requires w.rotator.disk.files == m.files
    ensures RestartStep(m, Now(w, Buried(m)))
  {}
}
