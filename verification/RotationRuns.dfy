/** Segment numbers and disk use over whole runs of allocations, writes and restarts. */
module RotationRuns {
  import opened Options
  import opened Names
  import opened Rotation

  datatype Op =
    | Allocate(no: nat)  // next_segment gives this number
    | Crash(no: nat)     // the process dies inside next_segment, after creating this segment
    | Write              // the writer appends to files that exist
    | Restart            // a new process scans the directory

  predicate Creates(op: Op) { op.Allocate? || op.Crash? }

  ghost predicate OpStep(p: Probe, op: Op, p': Probe) {
    match op
    case Allocate(no) => AllocateStep(p, no, p')
    case Crash(no) => CrashStep(p, no, p'.files)
    case Write => p'.segNo == p.segNo && p'.minNo == p.minNo && p'.files.Keys == p.files.Keys
    case Restart => ScanStep(p, p')
  }

  ghost predicate SomeUnlinked(before: Files, after: Files) {
    exists cut: nat :: Unlinked(before, after, cut)
  }

  /** The new segment has been created and any number of old ones unlinked; what the process knew is lost. */
  ghost predicate CrashStep(p: Probe, no: nat, files: Files) {
    && no == p.segNo && no + 1 < U64_LIMIT && SegName(no) in files
    && SomeUnlinked(p.files[SegName(no) := []], files)
  }

  /** n is the next free number of a directory: larger than all in it, and by no more than one. */
  ghost predicate NextIs(files: Files, n: nat) {
    && (forall s :: s in files && ParseName(s).Some? ==> ParseName(s).value < n)
    && (n > 0 ==> exists s :: s in files && ParseName(s) == Some(n - 1))
  }

  /** What a running process believes about its directory is right. */
  ghost predicate Anchored(p: Probe) {
    InRange(p.files, p.minNo, p.segNo) && NextIs(p.files, p.segNo)
  }

  /** A restart takes up exactly the next free number of the directory, whoever left it and in whatever state. */
  lemma RestartResumes(p: Probe, p': Probe, n: nat)
    requires ScanStep(p, p') && NextIs(p.files, n)
    ensures p'.segNo == n && Anchored(p')
  {
    hide ParseName;
    StartAnchored(p, p');
    if n > 0 {
      var s :| s in p.files && ParseName(s) == Some(n - 1);
      assert p'.minNo <= n - 1 < p'.segNo;
    }
  }

  /** A first start, on any directory. */
  lemma StartAnchored(p: Probe, p': Probe)
    requires ScanStep(p, p')
    ensures Anchored(p')
  {
    hide ParseName;
  }

  lemma CreatedNext(p: Probe, no: nat, files: Files, cut: nat)
    requires Anchored(p) && no == p.segNo && no + 1 < U64_LIMIT
    requires Unlinked(p.files[SegName(no) := []], files, cut) && SegName(no) in files
    ensures NextIs(files, no + 1) && SegName(no) !in p.files
  {
    SegNameIsSegment(no);
    hide ParseName, SegName;
    forall s | s in files && ParseName(s).Some? ensures ParseName(s).value < no + 1 {
      if s != SegName(no) { assert s in p.files; }
    }
  }

  lemma AllocateAnchored(p: Probe, no: nat, p': Probe)
    requires Anchored(p) && AllocateStep(p, no, p')
    ensures Anchored(p') && SegName(no) !in p.files
  {
    CreatedNext(p, no, p'.files, p'.minNo);
    hide ParseName, SegName;
  }

  /** Good to go on from: n is next free, and a process that runs knows it. */
  ghost predicate Ready(p: Probe, alive: bool, n: nat) {
    NextIs(p.files, n) && (alive ==> Anchored(p) && p.segNo == n)
  }

  lemma OpKeeps(p: Probe, op: Op, p': Probe, alive: bool, n: nat) returns (n': nat)
    requires Ready(p, alive, n) && OpStep(p, op, p') && (alive || op.Restart?)
    ensures Ready(p', !op.Crash?, n') && n <= n'
    ensures Creates(op) ==> op.no == n && n' == n + 1 && SegName(op.no) !in p.files
  {
    n' := if Creates(op) then n + 1 else n;
    match op {
      case Allocate(no) => AllocateAnchored(p, no, p');
      case Crash(no) =>
        hide ParseName, SegName, Anchored, NextIs;
        var cut: nat :| Unlinked(p.files[SegName(no) := []], p'.files, cut);
        CreatedNext(p, no, p'.files, cut);
      case Write => hide ParseName, SegName; assert forall s :: s in p'.files <==> s in p.files;
      case Restart => RestartResumes(p, p', n);
    }
  }

  /** A process that has died does nothing more; the next thing to happen is a restart. */
  ghost predicate Ops(ps: seq<Probe>, ops: seq<Op>) {
    && |ps| == |ops| + 1
    && (forall i :: 0 <= i < |ops| ==> OpStep(ps[i], ops[i], ps[i + 1]))
    && (forall i :: 0 < i < |ops| ==> ops[i - 1].Crash? ==> ops[i].Restart?)
  }

  predicate Alive(ops: seq<Op>, i: nat)
    requires i <= |ops|
  {
    i == 0 || !ops[i - 1].Crash?
  }

  lemma {:induction false} OpsReady(ps: seq<Probe>, ops: seq<Op>, i: nat, j: nat, m: nat) returns (n: nat)
    requires Ops(ps, ops) && i <= j <= |ops| && Ready(ps[i], Alive(ops, i), m)
    ensures Ready(ps[j], Alive(ops, j), n) && m <= n
    decreases j
  {
    hide Ready, OpStep;
    if i == j {
      n := m;
    } else {
      n := OpsReady(ps, ops, i, j - 1, m);
      n := OpKeeps(ps[j - 1], ops[j - 1], ps[j], Alive(ops, j - 1), n);
    }
  }

  /**
   Over any run of allocations, writes, restarts and deaths in the middle of an allocation on one directory, every
   allocated number is larger than all allocated before it, and the file it names does not exist when it is created.
   */
  lemma NumbersNeverReused(found: Probe, ps: seq<Probe>, ops: seq<Op>, i: nat, j: nat)
    requires Ops(ps, ops) && ScanStep(found, ps[0])
    requires i < j < |ops| && Creates(ops[i]) && Creates(ops[j])
    ensures ops[i].no < ops[j].no
    ensures SegName(ops[j].no) !in ps[j].files
  {
    hide Anchored, OpStep, NextIs, ScanStep;
    StartAnchored(found, ps[0]);
    assert Ready(ps[0], true, ps[0].segNo) by { AnchoredNext(ps[0]); }
    hide Ready;
    var m := OpsReady(ps, ops, 0, i, ps[0].segNo);
    var m' := OpKeeps(ps[i], ops[i], ps[i + 1], Alive(ops, i), m);
    var n := OpsReady(ps, ops, i + 1, j, m');
    var n' := OpKeeps(ps[j], ops[j], ps[j + 1], Alive(ops, j), n);
  }

  lemma AnchoredNext(p: Probe)
    requires Anchored(p)
    ensures NextIs(p.files, p.segNo)
  {}

  // ---------- Names the rotator counts but cannot unlink ----------

  /**
   With more such names than the limit, no amount of unlinking brings the count within it: the loop would never
   end. With no more than the limit it always ends, as `EnforceBudget` shows.
   */
  lemma NeverWithinBudget(files: Files, unlinked: set<string>, maxSegments: nat)
    requires |Strays(files)| > maxSegments
    requires forall s :: s in unlinked ==> IsSegment(s)
    ensures |Counted(files - unlinked)| > maxSegments
  {
    hide IsSegment, IsCounted;
    CountSplit(files - unlinked);
    assert Strays(files - unlinked) == Strays(files);
  }

  /** Two stray names and a limit of one: unlinking every segment there is leaves the count at two. */
  lemma StrayExample()
    ensures var files: Files := map["segment_a" := [], "segment_b" := []];
      |Strays(files)| == 2 && forall unlinked ::
        (forall s :: s in unlinked ==> IsSegment(s)) ==> |Counted(files - unlinked)| > 1
  {
    var files: Files := map["segment_a" := [], "segment_b" := []];
    StrayName("segment_a", "a");
    StrayName("segment_b", "b");
    assert Strays(files) == {"segment_a", "segment_b"};
    forall unlinked: set<string> | forall s :: s in unlinked ==> IsSegment(s)
      ensures |Counted(files - unlinked)| > 1
    {
      NeverWithinBudget(files, unlinked, 1);
    }
  }

  lemma StrayName(name: string, rest: string)
    requires name == PREFIX + rest && |rest| == 1
    ensures IsCounted(name) && !IsSegment(name)
  {
    assert name[..|PREFIX|] == PREFIX && name[|PREFIX|..] == rest;
  }

  /** Only segments, and only from number cut on: what the loop can unlink once it has come so far. */
  ghost predicate SegmentsFrom(unlinked: set<string>, cut: nat) {
    forall s :: s in unlinked ==> IsSegment(s) && ParseName(s).value >= cut
  }

  /**
   With exactly as many stray names as the limit, the first allocation unlinks its own new segment, the writer's open
   creates it again below the unlinking point, and from then on no unlinking above that point gets within the limit.
   */
  lemma FullOfStrays(files: Files, no: nat, lo: nat, unlinked: set<string>, maxSegments: nat)
    requires |Strays(files)| == maxSegments && SegName(no) in files && no < lo && no < U64_LIMIT
    requires SegmentsFrom(unlinked, lo)
    ensures |Counted(files - unlinked)| > maxSegments
  {
    SegNameIsSegment(no);
    hide IsCounted, SegName, ParseName;
    CountSplit(files - unlinked);
    assert Strays(files - unlinked) == Strays(files);
    assert SegName(no) in SegmentsIn(files - unlinked);
  }

  // ---------- The writer's open, stray names up to the limit ----------

  /** What next_segment leaves: the new segment created, the oldest unlinked, perhaps down to none. */
  ghost predicate Allocated(before: Files, no: nat, mid: Files, cut: nat, maxSegments: nat) {
    Unlinked(before[SegName(no) := []], mid, cut) && Limited(before, mid, maxSegments)
  }

  /** The writer opens the path it was given for appending, and creates it if it is not there. */
  function Reopened(mid: Files, no: nat): Files {
    if SegName(no) in mid then mid else mid[SegName(no) := []]
  }

  ghost predicate OpenStep(before: Files, no: nat, after: Files, cut: nat, maxSegments: nat) {
    exists mid :: Allocated(before, no, mid, cut, maxSegments) && after == Reopened(mid, no)
  }

  lemma AllocatedStrays(before: Files, no: nat, mid: Files, cut: nat, maxSegments: nat)
    requires Allocated(before, no, mid, cut, maxSegments) && no < U64_LIMIT
    ensures Strays(Reopened(mid, no)) == Strays(mid) == Strays(before)
  {
    SegmentsAfterAdd(before, no, []);
    SegmentsAfterAdd(mid, no, []);
    hide IsCounted, IsSegment, SegName, ParseName, SegmentsIn, Limited;
    assert Strays(mid) == Strays(before[SegName(no) := []]);
  }

  /** With as many stray names as the limit the new segment itself is unlinked, and the open creates it again. */
  lemma OpenedFull(before: Files, no: nat, mid: Files, cut: nat, maxSegments: nat)
    requires Allocated(before, no, mid, cut, maxSegments) && no < U64_LIMIT && |Strays(before)| == maxSegments
    ensures SegmentsIn(mid) == {} && SegmentsIn(Reopened(mid, no)) == {SegName(no)} && no < cut
  {
    SegNameIsSegment(no);
    SegmentsAfterAdd(mid, no, []);
    hide SegName, ParseName;
    assert SegmentsIn(mid) == {};
    assert SegName(no) !in SegmentsIn(mid);
  }

  /**
   A process that dies before it opens the segment leaves no number behind, if none can be read from a stray name: the
   next one starts from 0 again. Elsewhere numbers are never reused, because the new segment survives its allocation.
   */
  lemma FullForgets(before: Files, no: nat, mid: Files, cut: nat, maxSegments: nat)
    requires Allocated(before, no, mid, cut, maxSegments) && no < U64_LIMIT && |Strays(before)| == maxSegments
    requires forall s :: s in Strays(before) ==> ParseName(s).None?
    ensures NextIs(mid, 0)
  {
    OpenedFull(before, no, mid, cut, maxSegments);
    AllocatedStrays(before, no, mid, cut, maxSegments);
    forall s | s in mid ensures ParseName(s).None? {
      assert ParseName(s).Some? ==> IsCounted(s);
      hide ParseName, IsCounted, Allocated;
      assert s !in SegmentsIn(mid);
    }
  }

  /** And after that no unlinking above the unlinking point ends the second allocation. */
  lemma SecondNeverEnds(before: Files, no: nat, mid: Files, cut: nat, maxSegments: nat, unlinked: set<string>)
    requires Allocated(before, no, mid, cut, maxSegments) && no + 1 < U64_LIMIT && |Strays(before)| == maxSegments
    requires SegmentsFrom(unlinked, cut)
    ensures |Counted(Reopened(mid, no)[SegName(no + 1) := []] - unlinked)| > maxSegments
  {
    hide IsSegment, SegName, ParseName, Counted, SegmentsIn, Strays, Allocated;
    OpenedFull(before, no, mid, cut, maxSegments);
    AllocatedStrays(before, no, mid, cut, maxSegments);
    SegmentsAfterAdd(Reopened(mid, no), no + 1, []);
    FullOfStrays(Reopened(mid, no)[SegName(no + 1) := []], no, cut, unlinked, maxSegments);
  }

  /** One stray name and a limit of one: the whole story from an otherwise empty directory. */
  lemma FullExample()
    ensures var files: Files := map["segment_a" := []];
      var reopened := files[SegName(0) := []];
      && |Strays(files)| == 1 && Allocated(files, 0, files, 1, 1) && Reopened(files, 0) == reopened
      && forall unlinked :: SegmentsFrom(unlinked, 1) ==>
           |Counted(reopened[SegName(1) := []] - unlinked)| > 1
  {
    var files: Files := map["segment_a" := []];
    StrayName("segment_a", "a");
    SegNameIsSegment(0);
    hide IsCounted, IsSegment, SegName, ParseName;
    assert Strays(files) == {"segment_a"};
    assert SegmentsIn(files) == {};
    assert Allocated(files, 0, files, 1, 1);
    forall unlinked: set<string> | SegmentsFrom(unlinked, 1)
      ensures |Counted(files[SegName(0) := []][SegName(1) := []] - unlinked)| > 1
    {
      SecondNeverEnds(files, 0, files, 1, 1, unlinked);
    }
  }

  // ---------- The RAM disk ----------

  ghost function Bytes(files: Files, names: set<string>): nat
    requires names <= files.Keys
    decreases names
  {
    if names == {} then 0
    else
      var s :| s in names;
      |files[s]| + Bytes(files, names - {s})
  }

  lemma {:induction false} BytesBound(files: Files, names: set<string>, size: nat)
    requires names <= files.Keys && forall s :: s in names ==> |files[s]| <= size
    ensures Bytes(files, names) <= |names| * size
    decreases names
  {
    if names != {} {
      var s :| s in names && Bytes(files, names) == |files[s]| + Bytes(files, names - {s});
      BytesBound(files, names - {s}, size);
      assert |names| * size == (|names| - 1) * size + size;
    }
  }

  /**
   One allocation, as next_segment performs it, on a directory with at most maxSegments segments of at most segmentSize
   bytes: the new segment is still empty while it is one too many, and after unlinking both limits hold again, so that
   the total never passes maxSegments * segmentSize, not even in between.
   */
  lemma RamDiskBound(p: Probe, no: nat, p': Probe, maxSegments: nat, segmentSize: nat)
    requires Anchored(p) && AllocateStep(p, no, p')
    requires |SegmentsIn(p.files)| <= maxSegments
    requires Limited(p.files, p'.files, maxSegments)
    requires forall s :: s in SegmentsIn(p.files) ==> |p.files[s]| <= segmentSize
    ensures var between := p.files[SegName(no) := []];
      && Bytes(between, SegmentsIn(between)) <= maxSegments * segmentSize
      && Bytes(p'.files, SegmentsIn(p'.files)) <= maxSegments * segmentSize
      && |SegmentsIn(p'.files)| <= maxSegments
      && forall s :: s in SegmentsIn(p'.files) ==> |p'.files[s]| <= segmentSize
  {
    AllocateAnchored(p, no, p');
    SegmentsAfterAdd(p.files, no, []);
    SegNameIsSegment(no);
    hide ParseName, SegName, IsSegment;
    var between := p.files[SegName(no) := []];
    var name := SegName(no);
    BytesRemoveEmpty(between, SegmentsIn(between), name);
    BytesSame(p.files, between, SegmentsIn(p.files));
    BytesBound(p.files, SegmentsIn(p.files), segmentSize);
    Product(|SegmentsIn(p.files)|, maxSegments, segmentSize);
    BytesBound(p'.files, SegmentsIn(p'.files), segmentSize);
    Product(|SegmentsIn(p'.files)|, maxSegments, segmentSize);
    assert SegmentsIn(between) - {name} == SegmentsIn(p.files);
  }

  lemma Product(n: nat, m: nat, size: nat)
    requires n <= m
    ensures n * size <= m * size
  {}

  lemma {:induction false} BytesRemove(files: Files, names: set<string>, s: string)
    requires names <= files.Keys && s in names
    ensures Bytes(files, names) == |files[s]| + Bytes(files, names - {s})
    decreases names
  {
    var c :| c in names && Bytes(files, names) == |files[c]| + Bytes(files, names - {c});
    if c != s {
      BytesRemove(files, names - {c}, s);
      BytesRemove(files, names - {s}, c);
      assert names - {c} - {s} == names - {s} - {c};
    }
  }

  lemma BytesRemoveEmpty(files: Files, names: set<string>, s: string)
    requires names <= files.Keys && s in names && files[s] == []
    ensures Bytes(files, names) == Bytes(files, names - {s})
  {
    BytesRemove(files, names, s);
  }

  lemma {:induction false} BytesSame(files: Files, files': Files, names: set<string>)
    requires names <= files.Keys && names <= files'.Keys && forall s :: s in names ==> files[s] == files'[s]
    ensures Bytes(files, names) == Bytes(files', names)
    decreases names
  {
    if names != {} {
      var s :| s in names;
      BytesRemove(files, names, s);
      BytesRemove(files', names, s);
      BytesSame(files, files', names - {s});
    }
  }
}
