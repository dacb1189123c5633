/** Segment allocation at the probe: numbers only go up, and the oldest segments are unlinked first. */
module Rotation {
  import opened Options
  import opened Crc32
  import opened Storage
  import opened Names

  type Files = map<string, seq<byte>>

  // ---------- What a directory holds ----------

  /** What `existing_count` counts. */
  predicate IsCounted(name: string) { |PREFIX| <= |name| && name[..|PREFIX|] == PREFIX }

  /** Exactly a name the rotator makes, and so one it can unlink. */
  predicate IsSegment(name: string) {
    ParseName(name).Some? && SegName(ParseName(name).value) == name
  }

  function Counted(files: Files): set<string> { set s | s in files && IsCounted(s) }

  function SegmentsIn(files: Files): set<string> { set s | s in files && IsSegment(s) }

  /** Counted against the budget, yet never unlinked: `segment_7.wal`, `segment_0001.wal.bak`, ... */
  function Strays(files: Files): set<string> { set s | s in files && IsCounted(s) && !IsSegment(s) }

  lemma SegNameIsSegment(no: nat)
    requires no < U64_LIMIT
    ensures IsCounted(SegName(no)) && IsSegment(SegName(no)) && ParseName(SegName(no)) == Some(no)
  {
    ParseSegName(no);
  }

  lemma SegmentNumber(name: string) returns (no: nat)
    requires IsSegment(name)
    ensures no < U64_LIMIT && name == SegName(no) && ParseName(name) == Some(no)
  {
    no := ParseName(name).value;
    ParseSegName(no);
  }

  lemma CountSplit(files: Files)
    ensures |Counted(files)| == |SegmentsIn(files)| + |Strays(files)|
  {
    forall s | s in SegmentsIn(files) ensures s in Counted(files) {
      var no := SegmentNumber(s);
      SegNameIsSegment(no);
    }
    assert Counted(files) == SegmentsIn(files) + Strays(files);
    assert SegmentsIn(files) !! Strays(files);
  }

  /** All parsed numbers lie in [lo, hi). */
  ghost predicate Within(files: Files, lo: nat, hi: nat) {
    forall s :: s in files && ParseName(s).Some? ==> lo <= ParseName(s).value < hi
  }

  lemma SegmentsAfterRemove(files: Files, no: nat)
    requires no < U64_LIMIT
    ensures SegmentsIn(files - {SegName(no)}) == SegmentsIn(files) - {SegName(no)}
    ensures Strays(files - {SegName(no)}) == Strays(files)
  {
    SegNameIsSegment(no);
  }

  lemma SegmentsAfterAdd(files: Files, no: nat, bytes: seq<byte>)
    requires no < U64_LIMIT
    ensures SegmentsIn(files[SegName(no) := bytes]) == SegmentsIn(files) + {SegName(no)}
    ensures Strays(files[SegName(no) := bytes]) == Strays(files)
  {
    SegNameIsSegment(no);
  }

  /** before with its segments below cut unlinked; everything else as it was. */
  ghost predicate Unlinked(before: Files, after: Files, cut: nat) {
    && (forall s :: s in after ==> s in before && after[s] == before[s])
    && (forall s :: s in before && s !in after ==> IsSegment(s) && ParseName(s).value < cut)
    && (forall s :: s in after && IsSegment(s) ==> ParseName(s).value >= cut)
  }

  /** A probe's directory, and what its rotator believes about it. */
  datatype Probe = Probe(files: Files, segNo: nat, minNo: nat)

  /** One allocation, with room for the new segment. */
  ghost predicate AllocateStep(p: Probe, no: nat, p': Probe) {
    && no == p.segNo && p'.segNo == no + 1 < U64_LIMIT && p'.minNo >= p.minNo
    && Unlinked(p.files[SegName(no) := []], p'.files, p'.minNo)
    && SegName(no) in p'.files
  }

  /** One start: continue after the largest number found, from the smallest. */
  ghost predicate ScanStep(p: Probe, p': Probe) {
    && p'.files == p.files
    && Within(p.files, p'.minNo, p'.segNo)
    && ((p'.segNo, p'.minNo) == (0, 0)
        || exists s, t :: s in p.files && t in p.files
             && ParseName(s) == Some(p'.segNo - 1) && ParseName(t) == Some(p'.minNo))
  }

  function Min(a: int, b: int): int { if a < b then a else b }

  /** One more segment, then as many as the limit leaves room for beside the stray names. */
  ghost predicate Limited(before: Files, after: Files, maxSegments: nat) {
    |SegmentsIn(after)| == Min(|SegmentsIn(before)| + 1, maxSegments - |Strays(before)|)
  }

  class Rotator {
    const disk: Disk
    const maxSegments: nat
    var segNo: nat
    var minNo: nat

    ghost predicate Valid()
      reads this, disk
    {
      && maxSegments >= 1
      && minNo <= segNo < U64_LIMIT
      && InRange(disk.files, minNo, segNo)
    }

    ghost function State(): Probe
      reads this, disk
    {
      Probe(disk.files, segNo, minNo)
    }

    /** Start on a directory: continue after the largest number found there. */
    constructor (disk: Disk, maxSegments: nat)
      requires maxSegments >= 1
      requires Within(disk.files, 0, U64_LIMIT - 1)
      ensures Valid() && this.disk == disk && this.maxSegments == maxSegments
      ensures forall before: Probe :: before.files == disk.files ==> ScanStep(before, State())
    {
      var next, least := ScanExisting(disk);
      this.disk := disk;
      this.maxSegments := maxSegments;
      segNo := next;
      minNo := least;
    }

    method ExistingCount() returns (count: nat)
      ensures count == |Counted(disk.files)|
    {
      count := |set s | s in disk.files && IsCounted(s)|;
    }

    /** The smallest number present, or the next one if there is none below it. */
    method MinExistingNo() returns (min: nat)
      ensures min <= segNo
      ensures forall s :: s in disk.files && ParseName(s).Some? ==> min <= ParseName(s).value
      ensures min == segNo || exists s :: s in disk.files && ParseName(s) == Some(min)
    {
      min := segNo;
      var rest := disk.files.Keys;
      while rest != {}
        invariant rest <= disk.files.Keys && min <= segNo
        invariant forall s :: s in disk.files && s !in rest && ParseName(s).Some? ==> min <= ParseName(s).value
        invariant min == segNo || exists s :: s in disk.files && ParseName(s) == Some(min)
        decreases |rest|
      {
        var name :| name in rest;
        rest := rest - {name};
        match ParseName(name) {
          case None =>
          case Some(no) =>
            if no < min {
              min := no;
            }
        }
      }
    }

    /** Unlink from the oldest number up until the count is within the limit. */
    method EnforceBudget()
      requires Valid() && |Strays(disk.files)| <= maxSegments
      modifies disk, this`minNo
      ensures Valid() && minNo >= old(minNo)
      ensures Unlinked(old(disk.files), disk.files, minNo)
      ensures |SegmentsIn(disk.files)|
           == Min(|SegmentsIn(old(disk.files))|, maxSegments - |Strays(old(disk.files))|)
      ensures Strays(disk.files) == Strays(old(disk.files))
    {
      ghost var before := disk.files;
      ghost var limit := maxSegments - |Strays(before)|;
      TrimmingStarts(before, minNo, segNo, limit);
      var count := ExistingCount();
      hide SegName, ParseName, IsSegment, Counted, SegmentsIn, Strays, Unlinked, Trimming;
      while count > maxSegments
        invariant old(minNo) <= minNo && count == |Counted(disk.files)|
        invariant Trimming(before, disk.files, minNo, segNo, limit)
        decreases segNo - minNo
      {
        TrimStep(before, disk.files, minNo, segNo, limit);
        disk.files := disk.files - {SegName(minNo)};
        minNo := minNo + 1;
        count := ExistingCount();
      }
      TrimmingEnds(before, disk.files, minNo, segNo, limit);
    }

    /** Allocate the next segment: create its empty file, then unlink the oldest ones beyond the limit. */
    method NextSegment() returns (no: nat)
      requires Valid() && |Strays(disk.files)| <= maxSegments && segNo + 1 < U64_LIMIT
      modifies disk, this`segNo, this`minNo
      ensures Valid() && no == old(segNo) && segNo == no + 1 && minNo >= old(minNo)
      ensures SegName(no) !in old(disk.files)
      ensures Unlinked(old(disk.files)[SegName(no) := []], disk.files, minNo)
      ensures Limited(old(disk.files), disk.files, maxSegments)
      ensures Strays(disk.files) == Strays(old(disk.files))
      ensures |Strays(old(disk.files))| < maxSegments ==>
                AllocateStep(old(State()), no, State()) && disk.files[SegName(no)] == []
    {
      hide SegName, ParseName, IsSegment, Strays, SegmentsIn, Counted, InRange, Unlinked;
      no := segNo;
      SegmentsAfterAdd(disk.files, no, []);
      AddedRange(disk.files, minNo, no);
      segNo := segNo + 1;
      disk.files := disk.files[SegName(no) := []];
      ghost var all := disk.files;
      EnforceBudget();
      NewestKept(all, disk.files, minNo, no, old(minNo));
    }
  }

  /** The next number is free, and taken it is the largest. */
  lemma AddedRange(files: Files, lo: nat, no: nat)
    requires InRange(files, lo, no) && lo <= no < U64_LIMIT
    ensures SegName(no) !in files && |SegmentsIn(files) + {SegName(no)}| == |SegmentsIn(files)| + 1
    ensures InRange(files[SegName(no) := []], lo, no + 1)
  {
    SegNameIsSegment(no);
    hide SegName, ParseName;
  }

  /** If any segment survives, the newest does. */
  lemma NewestKept(all: Files, after: Files, cut: nat, no: nat, lo: nat)
    requires Unlinked(all, after, cut) && SegName(no) in all && no < U64_LIMIT && InRange(all, lo, no + 1)
    ensures |SegmentsIn(after)| > 0 ==> SegName(no) in after
    ensures SegName(no) in after ==> after[SegName(no)] == all[SegName(no)]
  {
    SegNameIsSegment(no);
    hide SegName, ParseName;
    if |SegmentsIn(after)| > 0 {
      var s :| s in SegmentsIn(after);
    }
  }

  /** Segment numbers lie in [lo, hi), and every number that parses is below hi. */
  ghost predicate InRange(files: Files, lo: nat, hi: nat) {
    && (forall s :: s in files && IsSegment(s) ==> lo <= ParseName(s).value)
    && (forall s :: s in files && ParseName(s).Some? ==> ParseName(s).value < hi)
  }

  lemma UnlinkedNone(files: Files, lo: nat)
    requires forall s :: s in files && IsSegment(s) ==> lo <= ParseName(s).value
    ensures Unlinked(files, files, lo)
  {}

  lemma InRangeAfter(files: Files, lo: nat, hi: nat)
    requires InRange(files, lo, hi) && lo < U64_LIMIT
    ensures InRange(files - {SegName(lo)}, lo + 1, hi)
  {
    hide SegName, ParseName;
    forall s | s in files - {SegName(lo)} && IsSegment(s) ensures lo + 1 <= ParseName(s).value {
      var no := SegmentNumber(s);
    }
  }

  lemma UnlinkedAfter(before: Files, files: Files, lo: nat, hi: nat)
    requires Unlinked(before, files, lo) && InRange(files - {SegName(lo)}, lo + 1, hi) && lo < U64_LIMIT
    ensures Unlinked(before, files - {SegName(lo)}, lo + 1)
  {
    SegNameIsSegment(lo);
    hide SegName, ParseName, IsSegment;
  }

  /** One turn of the loop: the oldest possible number goes, if it is there at all. */
  lemma UnlinkStep(before: Files, files: Files, lo: nat, hi: nat)
    requires Unlinked(before, files, lo) && InRange(files, lo, hi) && lo < hi < U64_LIMIT
    ensures var after := files - {SegName(lo)};
      Unlinked(before, after, lo + 1) && InRange(after, lo + 1, hi) && Strays(after) == Strays(files)
      && |SegmentsIn(files)| - 1 <= |SegmentsIn(after)| <= |SegmentsIn(files)|
  {
    hide SegName, ParseName, Strays, IsSegment, Unlinked, InRange;
    InRangeAfter(files, lo, hi);
    UnlinkedAfter(before, files, lo, hi);
    SegmentsAfterRemove(files, lo);
  }

  /** Where the loop is: everything below lo is gone, and no more has gone than the limit asks for. */
  ghost predicate Trimming(before: Files, files: Files, lo: nat, hi: nat, limit: nat) {
    && lo <= hi && InRange(files, lo, hi) && Unlinked(before, files, lo) && Strays(files) == Strays(before)
    && Min(|SegmentsIn(before)|, limit) <= |SegmentsIn(files)| <= |SegmentsIn(before)|
  }

  lemma TrimmingStarts(files: Files, lo: nat, hi: nat, limit: nat)
    requires lo <= hi && InRange(files, lo, hi)
    ensures Trimming(files, files, lo, hi, limit)
  {
    hide SegName, ParseName, IsSegment, SegmentsIn, Strays;
    UnlinkedNone(files, lo);
  }

  lemma TrimStep(before: Files, files: Files, lo: nat, hi: nat, limit: nat)
    requires Trimming(before, files, lo, hi, limit) && hi < U64_LIMIT
    requires |Counted(files)| > limit + |Strays(before)|
    ensures lo < hi && Trimming(before, files - {SegName(lo)}, lo + 1, hi, limit)
  {
    hide SegName, ParseName, IsSegment, Counted, SegmentsIn, Strays, Unlinked, InRange;
    CountSplit(files);
    SegmentExists(files, lo, hi);
    UnlinkStep(before, files, lo, hi);
  }

  lemma TrimmingEnds(before: Files, files: Files, lo: nat, hi: nat, limit: nat)
    requires Trimming(before, files, lo, hi, limit)
    requires |Counted(files)| <= limit + |Strays(before)|
    ensures InRange(files, lo, hi) && Unlinked(before, files, lo) && Strays(files) == Strays(before)
    ensures lo <= hi && |SegmentsIn(files)| == Min(|SegmentsIn(before)|, limit)
  {
    hide SegName, ParseName, IsSegment, Counted, SegmentsIn, Strays, Unlinked, InRange;
    CountSplit(files);
  }

  lemma SegmentExists(files: Files, lo: nat, hi: nat)
    requires |SegmentsIn(files)| > 0
    requires InRange(files, lo, hi)
    ensures lo < hi
  {
    var s :| s in SegmentsIn(files);
  }

  /** The next free number and the smallest one present, over every name that parses. */
  method ScanExisting(disk: Disk) returns (next: nat, least: nat)
    ensures Within(disk.files, least, next)
    ensures (next, least) == (0, 0)
         || exists s, t :: s in disk.files && t in disk.files
              && ParseName(s) == Some(next - 1) && ParseName(t) == Some(least)
  {
    var max, min: Option<nat> := None, None;
    var rest := disk.files.Keys;
    while rest != {}
      invariant rest <= disk.files.Keys
      invariant max.Some? <==> min.Some?
      invariant forall s :: s in disk.files && s !in rest && ParseName(s).Some? ==>
                  max.Some? && min.value <= ParseName(s).value <= max.value
      invariant max.Some? ==> exists s, t :: s in disk.files && t in disk.files
                                && ParseName(s) == max && ParseName(t) == min
      decreases |rest|
    {
      var name :| name in rest;
      rest := rest - {name};
      match ParseName(name) {
        case None =>
        case Some(no) =>
          max := Some(if max.Some? && max.value > no then max.value else no);
          min := Some(if min.Some? && min.value < no then min.value else no);
      }
    }
    next := if max.Some? then max.value + 1 else 0;
    least := if min.Some? then min.value else 0;
  }
}
