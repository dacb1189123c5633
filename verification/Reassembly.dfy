/** The receiver: all segments, the dedup cache, and the two budgets, updated in place. */
module Reassembly {
  import opened Options
  import opened Crc32
  import opened Storage
  import opened Segments
  import opened Names
  import opened ReceiverModel
  import opened DedupCache
  import opened Eviction
  import opened Refill
  import opened WalStream
  import opened Sequences

  const BLIND_CACHE_BUDGET := 64 * 1024 * 1024
  const PENDING_BUDGET := 256 * 1024 * 1024

  const BUDGETS := Budgets(BLIND_CACHE_BUDGET, PENDING_BUDGET)

  const MAX_RETRIES := 4
  const VERIFY_TICKS := 4

  datatype GapQuery = GapQuery(key: Key, startOffset: nat)

  class Reassembler {
    const disk: Disk
    var segments: map<Key, SegmentBuf>
    var blindCache: map<BlindId, seq<byte>>
    var blindOrder: seq<BlindId>
    var blindCacheBytes: nat
    var cacheMiss: nat
    var gaps: nat
    /** The bytes of the latest data frame for each blind id. */
    ghost var latest: map<BlindId, seq<byte>>

    ghost predicate Owned(key: Key, buf: SegmentBuf)
      reads buf`nextExpected, buf`pending, buf`pendingBytes, buf`overwritten, buf.disk
    {
      buf.key == key && buf.path == PathOf(key) && buf.disk == disk && buf.Valid()
    }

    ghost predicate ValidSegments()
      reads this`segments, disk
      reads segments.Values`nextExpected, segments.Values`pending
      reads segments.Values`pendingBytes, segments.Values`overwritten
    {
      forall k :: k in segments ==> segments[k].disk == disk && Owned(k, segments[k])
    }

    ghost predicate ValidCache()
      reads this`blindCache, this`blindOrder, this`blindCacheBytes, this`latest
    {
      && CacheOrdered(blindOrder, blindCache)
      && blindCacheBytes == CacheBytes(blindOrder, blindCache) <= BLIND_CACHE_BUDGET
      && forall id :: id in blindCache ==> id in latest && latest[id] == blindCache[id]
    }

    ghost predicate Valid()
      reads this`segments, this`blindCache, this`blindOrder, this`blindCacheBytes, this`latest, disk
      reads segments.Values`nextExpected, segments.Values`pending
      reads segments.Values`pendingBytes, segments.Values`overwritten
    {
      ValidSegments() && ValidCache() && InBudget()
    }

    /** The counters are within the pending budget; replaced bytes are among them. */
    ghost predicate InBudget()
      reads this`segments
      reads segments.Values`nextExpected, segments.Values`pending
      reads segments.Values`pendingBytes, segments.Values`overwritten
    {
      Sum(CountedOf(View())) <= PENDING_BUDGET
    }

    ghost function View(): Views
      reads this`segments
      reads segments.Values`nextExpected, segments.Values`pending
      reads segments.Values`pendingBytes, segments.Values`overwritten
    {
      map k | k in segments :: segments[k].View()
    }

    ghost function State(): Receiver
      reads this`segments, this`blindCache, this`blindOrder, disk
      reads segments.Values`nextExpected, segments.Values`pending
      reads segments.Values`pendingBytes, segments.Values`overwritten
    {
      Receiver(disk.files, WaitingOf(View()), OverOf(View()), Cache(blindOrder, blindCache))
    }

    /** A receiver started on a directory that may hold files from before. */
    constructor (disk: Disk)
      ensures Valid() && this.disk == disk && State() == Receiver(disk.files, map[], map[], Cache([], map[]))
      ensures latest == map[]
    {
      this.disk := disk;
      segments := map[];
      blindCache := map[];
      blindOrder := [];
      blindCacheBytes := 0;
      cacheMiss := 0;
      gaps := 0;
      latest := map[];
      new;
      SumZero(CountedOf(View()));
    }

    method CacheInsert(id: BlindId, bytes: seq<byte>)
      requires ValidCache()
      modifies this`blindCache, this`blindOrder, this`blindCacheBytes, this`latest
      ensures ValidCache()
      ensures Cache(blindOrder, blindCache)
           == Stored(Cache(old(blindOrder), old(blindCache)), id, bytes, BLIND_CACHE_BUDGET)
      ensures latest == old(latest)[id := bytes]
      ensures |bytes| <= 0x400_0000 && (id in old(blindCache) ==> old(blindCache)[id] == bytes) ==>
                id in blindCache && blindCache[id] == bytes
      ensures |bytes| <= 0x400_0000 && id !in old(blindCache) ==>
                exists k: nat :: k <= |old(blindOrder)| && blindOrder == old(blindOrder)[k..] + [id]
    {
      ghost var before := Cache(blindOrder, blindCache);
      if |bytes| <= BLIND_CACHE_BUDGET { StoreKeeps(before, id, bytes, BLIND_CACHE_BUDGET); }
      BoundOrdered(before, id, bytes);
      latest := latest[id := bytes];
      if id in blindCache {
        CacheCounts(blindOrder, id, blindCache);
        blindCacheBytes := blindCacheBytes - |blindCache[id]|;
      } else {
        blindOrder := blindOrder + [id];
      }
      blindCache := blindCache[id := bytes];
      blindCacheBytes := blindCacheBytes + |bytes|;
      while blindCacheBytes > BLIND_CACHE_BUDGET
        invariant CacheOrdered(blindOrder, blindCache)
        invariant blindCacheBytes == CacheBytes(blindOrder, blindCache)
        invariant latest == old(latest)[id := bytes]
        invariant forall i :: i in blindCache ==> i in latest && latest[i] == blindCache[i]
        invariant Trim(Cache(blindOrder, blindCache), BLIND_CACHE_BUDGET)
               == Stored(before, id, bytes, BLIND_CACHE_BUDGET)
        decreases |blindOrder|
      {
        DropOldest(Cache(blindOrder, blindCache));
        var oldest := blindOrder[0];
        blindOrder := blindOrder[1..];
        blindCacheBytes := blindCacheBytes - |blindCache[oldest]|;
        blindCache := blindCache - {oldest};
      }
    }

    /** `pending_total`: the sum of the counters. */
    method PendingTotal() returns (total: nat)
      ensures total == Sum(CountedOf(View()))
    {
      total := 0;
      var rest := segments.Keys;
      ghost var left := CountedOf(View());
      while rest != {}
        invariant rest == left.Keys <= segments.Keys
        invariant forall k :: k in rest ==> left[k] == segments[k].pendingBytes
        invariant Sum(CountedOf(View())) == total + Sum(left)
        decreases |rest|
      {
        var key :| key in rest;
        SumRemove(left, key);
        left := left - {key};
        total := total + segments[key].pendingBytes;
        rest := rest - {key};
      }
      assert left == map[];
    }

    /** A segment whose first waiting chunk has the smallest offset of all; ties go either way. */
    method FindVictim() returns (victim: Option<Key>)
      ensures victim.None? ==> NothingWaits(View())
      ensures victim.Some? ==> IsVictim(View(), victim.value)
    {
      victim := None;
      var rest := segments.Keys;
      while rest != {}
        invariant rest <= segments.Keys
        invariant victim.None? ==> forall k :: k in segments && k !in rest ==> segments[k].pending == map[]
        invariant victim.Some? ==>
                    && victim.value in segments && segments[victim.value].pending != map[]
                    && forall k, o :: k in segments && k !in rest && o in segments[k].pending ==>
                         MinKey(segments[victim.value].pending) <= o
        decreases |rest|
      {
        var key :| key in rest;
        if segments[key].pending != map[]
           && (victim.None? || MinKey(segments[key].pending) < MinKey(segments[victim.value].pending)) {
          victim := Some(key);
        }
        rest := rest - {key};
      }
    }

    lemma ViewCounts()
      requires ValidSegments()
      ensures Counts(View())
    {
      forall k | k in segments ensures View()[k].counted == Total(View()[k].waiting) + View()[k].over {
        assert segments[k].Valid();
      }
    }

    /** Every segment but one is as in views. */
    lemma OneChanged(key: Key, views: Views)
      requires key in segments && segments.Keys == views.Keys + {key}
      requires forall k :: k in segments && k != key ==>
                 segments[k].disk == disk && Owned(k, segments[k]) && segments[k].View() == views[k]
      requires segments[key].disk == disk && Owned(key, segments[key])
      ensures ValidSegments() && View() == views[key := segments[key].View()]
    {
      hide Owned;
    }

    method EvictFirst(key: Key)
      requires ValidSegments() && key in segments && segments[key].pending != map[]
      modifies segments[key]
      ensures ValidSegments()
      ensures CanEvict(old(View())[key])
      ensures View() == old(View())[key := Evicted(old(View())[key])]
    {
      hide Total, MinKey, Evicted, CanEvict, PathOf;
      ghost var before := View();
      assert Owned(key, segments[key]);
      var bytes := segments[key].PopFirst();
      assert Owned(key, segments[key]);
      hide Owned;
      OneChanged(key, before);
    }

    method EvictSmallest(key: Key, ghost start: Views, ghost before: Views, ghost cut: nat)
        returns (ghost after: Views, ghost cut': nat)
      requires ValidSegments() && before == View()
      requires IsVictim(before, key) && EvictedFrom(start, before, cut)
      requires Sum(CountedOf(before)) > PENDING_BUDGET
      modifies segments.Values
      ensures ValidSegments() && after == View()
      ensures EvictedFrom(start, after, cut') && LastNeeded(start, after, cut', PENDING_BUDGET)
      ensures Sum(SizesOf(after)) < Sum(SizesOf(before))
    {
      assert before[key] == segments[key].View();
      EvictedOne(start, before, cut, key);
      EvictedLast(start, before, cut, key, PENDING_BUDGET);
      cut' := MinKey(before[key].waiting);
      hide *;
      EvictFirst(key);
      after := View();
    }

    /** Evict waiting chunks, smallest offset first, until the counters are within budget. */
    method EnforcePendingBudget() returns (ghost cut: nat)
      requires ValidSegments() && Sum(OverOf(View())) <= PENDING_BUDGET
      modifies segments.Values
      ensures ValidSegments()
      ensures EvictedFrom(old(View()), View(), cut)
      ensures View() == old(View()) || (Sum(CountedOf(old(View()))) > PENDING_BUDGET
                                        && LastNeeded(old(View()), View(), cut, PENDING_BUDGET))
      ensures InBudget()
    {
      hide View, Owned, Sum, Counts, EvictedFrom, IsVictim, CountedOf, OverOf, SizesOf, NothingWaits, LastNeeded;
      cut := 0;
      ghost var start := View();
      ghost var view := start;
      ViewCounts();
      EvictedNone(view);
      var total := PendingTotal();
      while total > PENDING_BUDGET
        invariant ValidSegments() && view == View() && total == Sum(CountedOf(view))
        invariant EvictedFrom(start, view, cut)
        invariant view == start || LastNeeded(start, view, cut, PENDING_BUDGET)
        invariant Sum(CountedOf(start)) <= PENDING_BUDGET ==> view == start
        decreases Sum(SizesOf(view))
      {
        var victim := FindVictim();
        match victim {
          case None => break;
          case Some(key) => view, cut := EvictSmallest(key, start, view, cut);
        }
        total := PendingTotal();
      }
      EndsWithin(start, view, cut, PENDING_BUDGET);
    }

    method NewSegment(key: Key, ghost views: Views, ghost files: map<string, seq<byte>>) returns (buf: SegmentBuf)
      requires ValidSegments() && views == View() && files == disk.files
      requires key !in segments
      modifies disk
      ensures fresh(buf) && buf.disk == disk && Owned(key, buf)
      ensures buf.View() == SegView(|FileOf(files, key)|, map[], 0, 0)
      ensures disk.files == files[PathOf(key) := FileOf(files, key)]
      ensures forall k :: k in segments ==> Owned(k, segments[k]) && segments[k].View() == views[k]
    {
      forall k | k in segments ensures PathOf(k) != PathOf(key) { PathsDiffer(k, key); }
      hide PathOf, Total;
      buf := new SegmentBuf.Open(disk, PathOf(key), key);
    }

    method AddSegment(key: Key, ghost views: Views, ghost files: map<string, seq<byte>>)
      requires ValidSegments() && views == View() && files == disk.files
      requires key !in segments
      modifies this`segments, disk
      ensures ValidSegments() && key in segments && fresh(segments[key])
      ensures segments == old(segments)[key := segments[key]]
      ensures disk.files == files[PathOf(key) := FileOf(files, key)]
      ensures View() == views[key := SegView(|FileOf(files, key)|, map[], 0, 0)]
    {
      hide PathOf, Total, Owned, FileOf;
      var buf := NewSegment(key, views, files);
      ghost var before := segments;
      segments := segments[key := buf];
      assert forall k :: k in segments && k != key ==> segments[k] == before[k];
      OneChanged(key, views);
    }

    /** `entry(key).or_insert_with(open)`. */
    method OpenSegment(key: Key, ghost views: Views, ghost files: map<string, seq<byte>>) returns (ghost ready: Views)
      requires ValidSegments() && views == View() && files == disk.files
      modifies this`segments, disk
      ensures ValidSegments() && key in segments && fresh(segments.Values - old(segments.Values))
      ensures disk.files == files[PathOf(key) := FileOf(files, key)]
      ensures ready == View() == views[key := if key in views then views[key]
                                               else SegView(|FileOf(files, key)|, map[], 0, 0)]
    {
      if key !in segments {
        AddSegment(key, views, files);
      } else {
        assert segments[key].Valid();
      }
      hide ValidSegments;
      ready := View();
    }

    /** One segment places the chunk; the others are as they were. */
    method PlaceAt(key: Key, offset: nat, bytes: seq<byte>, ghost views: Views, ghost files: map<string, seq<byte>>)
      requires ValidSegments() && views == View() && files == disk.files
      requires key in segments
      modifies segments[key], disk
      ensures forall k :: k in segments ==> segments[k].disk == disk && Owned(k, segments[k])
      ensures forall k :: k in segments && k != key ==> segments[k].View() == views[k]
      ensures var b := Buf(FileOf(files, key), views[key].waiting);
        && disk.files == files[PathOf(key) := Placed(b, offset, bytes).file]
        && segments[key].pending == Placed(b, offset, bytes).pending
        && segments[key].overwritten == views[key].over + Replaced(b, offset, bytes) <= views[key].counted
    {
      forall k | k in segments && k != key ensures PathOf(k) != PathOf(key) { PathsDiffer(k, key); }
      hide Total, Placed, Replaced, PathOf;
      assert Owned(key, segments[key]);
      ghost var b := Buf(FileOf(files, key), views[key].waiting);
      assert segments[key].State() == b && segments[key].path == PathOf(key);
      var accepted := segments[key].Place(offset, bytes);
      assert segments[key].State() == Placed(b, offset, bytes);
    }

    method PlaceInto(key: Key, offset: nat, bytes: seq<byte>, ghost views: Views, ghost files: map<string, seq<byte>>)
        returns (ghost placed: Views)
      requires ValidSegments() && views == View() && files == disk.files
      requires key in segments
      modifies segments[key], disk
      ensures ValidSegments() && placed == View()
      ensures key in placed && placed == views[key := placed[key]]
      ensures var b := Placed(Buf(FileOf(files, key), views[key].waiting), offset, bytes);
        disk.files == files[PathOf(key) := b.file] && placed[key].waiting == b.pending
      ensures placed[key].over <= views[key].counted
      ensures placed[key].over
           == views[key].over + Replaced(Buf(FileOf(files, key), views[key].waiting), offset, bytes)
    {
      hide Total, Placed, Replaced, PathOf, FileOf, Owned;
      PlaceAt(key, offset, bytes, views, files);
      placed := View();
      OneChanged(key, views);
    }

    /** Open the segment if need be, and place: the budget still to be held. */
    method OpenAndPlace(key: Key, offset: nat, bytes: seq<byte>, ghost views: Views,
                        ghost files: map<string, seq<byte>>)
        returns (ghost placed: Views)
      requires ValidSegments() && views == View() && files == disk.files && Sum(CountedOf(views)) <= PENDING_BUDGET
      modifies this`segments, disk, segments.Values
      ensures ValidSegments() && fresh(segments.Values - old(segments.Values)) && placed == View()
      ensures PlacedFrom(views, files, key, offset, bytes, placed, disk.files)
      ensures Counts(placed) && Sum(OverOf(placed)) <= PENDING_BUDGET
    {
      hide View, FileOf, ValidSegments, Placed, Replaced, Sum, CountedOf, OverOf, PathOf, Counts;
      ViewCounts();
      ghost var ready := OpenSegment(key, views, files);
      placed := PlaceInto(key, offset, bytes, ready, disk.files);
      PlacedOverWithin(views, FileOf(files, key), key, ready, placed, PENDING_BUDGET);
      Reopened(files, key);
      ViewCounts();
    }

    /** Place one chunk in its segment, opening that if need be, then hold the pending budget. */
    method PlaceRaw(key: Key, offset: nat, plaintext: seq<byte>)
      requires ValidSegments() && InBudget()
      modifies this`segments, disk, segments.Values
      ensures ValidSegments() && fresh(segments.Values - old(segments.Values))
      ensures PlaceStep(old(State()), key, offset, plaintext, State(), PENDING_BUDGET)
      ensures InBudget()
    {
      ghost var views, files, cache := View(), disk.files, Cache(blindOrder, blindCache);
      assert Sum(CountedOf(views)) <= PENDING_BUDGET;
      StateIs();
      hide View, State, InBudget, ValidSegments, Sum, CountedOf, OverOf, EvictedFrom, LastNeeded, PlaceStep, WaitingOf,
        Counts, PlacedFrom;
      ghost var placed := OpenAndPlace(key, offset, plaintext, views, files);
      ghost var files' := disk.files;
      ghost var cut := EnforcePendingBudget();
      StateIs();
      PlaceIsStep(views, files, cache, key, offset, plaintext, placed, files', View(), cut);
    }

    lemma StateIs()
      ensures State() == Receiver(disk.files, WaitingOf(View()), OverOf(View()), Cache(blindOrder, blindCache))
      ensures InBudget() <==> Sum(CountedOf(View())) <= PENDING_BUDGET
    {}

    /** In every valid state what really waits, over all segments, fits the pending budget beside what was replaced. */
    lemma PendingBound()
      requires Valid()
      ensures Counts(View())
      ensures Sum(RealOf(View())) + Sum(OverOf(View())) == Sum(CountedOf(View())) <= PENDING_BUDGET
    {
      ViewCounts();
      hide ValidSegments, ValidCache, View, Counts;
      CountedIsLoad(View());
    }

    /** A data frame that has been decrypted: cached if it has an id, and placed. */
    method OnPlaintext(key: Key, offset: nat, id: Option<BlindId>, plaintext: seq<byte>)
      requires Valid()
      modifies this`segments, this`blindCache, this`blindOrder, this`blindCacheBytes, this`latest
      modifies disk, segments.Values
      ensures Valid() && fresh(segments.Values - old(segments.Values))
      ensures Next(old(State()), Data(key, offset, id, Some(plaintext)), State(), BUDGETS)
      ensures latest == if id.Some? then old(latest)[id.value := plaintext] else old(latest)
      ensures id.Some? && |plaintext| <= 0x400_0000
              && (id.value in old(blindCache) ==> old(blindCache)[id.value] == plaintext) ==>
                id.value in blindCache && blindCache[id.value] == plaintext
    {
      hide PlaceStep, Stored, CacheOrdered, CacheBytes, Owned, WaitingOf, View, Sum, NothingWaits;
      if id.Some? {
        CacheInsert(id.value, plaintext);
      }
      PlaceRaw(key, offset, plaintext);
    }

    /** A single frame: data is decrypted and cached, a reference is looked up, and either is placed. */
    method OnChunkFrame(f: Frame)
      requires Valid() && (f.Unframed? || f.Data? || f.Ref?)
      modifies this`segments, this`blindCache, this`blindOrder, this`blindCacheBytes, this`cacheMiss, this`latest
      modifies disk, segments.Values
      ensures Valid() && fresh(segments.Values - old(segments.Values))
      ensures Next(old(State()), f, State(), BUDGETS)
      ensures latest == if f.Data? && f.id.Some? && f.plaintext.Some? then old(latest)[f.id.value := f.plaintext.value]
                        else old(latest)
      ensures f.Data? && f.id.Some? && f.plaintext.Some? && |f.plaintext.value| <= 0x400_0000
              && (f.id.value in old(blindCache) ==> old(blindCache)[f.id.value] == f.plaintext.value) ==>
                f.id.value in blindCache && blindCache[f.id.value] == f.plaintext.value
      ensures cacheMiss == old(cacheMiss)
                         + if f.Ref? && (f.id.None? || f.id.value !in old(blindCache)) then 1 else 0
    {
      hide PlaceStep, Stored, CacheOrdered, CacheBytes, Owned, WaitingOf, View, Sum, NothingWaits;
      match f {
        case Unframed =>
        case Data(key, offset, id, None) =>
        case Data(key, offset, id, Some(plaintext)) =>
          OnPlaintext(key, offset, id, plaintext);
        case Ref(key, offset, id) =>
          if id.Some? && id.value in blindCache {
            PlaceRaw(key, offset, blindCache[id.value]);
          } else {
            cacheMiss := cacheMiss + 1;
          }
      }
    }

    /** A batch: its entries one by one; an entry that does not decrypt is skipped. Batches are not cached. */
    method OnBatchFrame(key: Key, entries: seq<Entry>)
      requires Valid()
      modifies this`segments, disk, segments.Values
      ensures Valid() && fresh(segments.Values - old(segments.Values))
      ensures Next(old(State()), Batch(key, entries), State(), BUDGETS)
    {
      hide PlaceStep, CacheOrdered, CacheBytes, Owned, WaitingOf, View, Sum, NothingWaits;
      ghost var start := State();
      for i := 0 to |entries|
        invariant Valid() && fresh(segments.Values - old(segments.Values))
        invariant EntriesStep(start, key, entries[..i], State(), PENDING_BUDGET)
      {
        ghost var mid := State();
        match entries[i].plaintext {
          case None =>
          case Some(plaintext) => PlaceRaw(key, entries[i].offset, plaintext);
        }
        assert entries[..i + 1][..i] == entries[..i];
        assert EntryStep(mid, key, entries[i], State(), PENDING_BUDGET);
      }
      assert entries[..|entries|] == entries;
    }

    /** The segment's own part of a seal. */
    method SealSegment(key: Key, buf: SegmentBuf, size: nat) returns (missing: nat)
      requires Valid() && key in segments && segments[key] == buf
      modifies buf`sealed, buf`missingOnSeal, buf`records, buf`residual
      ensures Valid() && State() == old(State())
      ensures missing == if size > buf.nextExpected then size - buf.nextExpected else 0
      ensures var d := DecodeAll(FileOf(disk.files, key));
        buf.sealed && buf.missingOnSeal == missing && buf.records == |d.records| && buf.residual == d.residual
    {
      hide DecodeAll, ValidCache, View, Total;
      assert Owned(key, buf);
      missing := buf.OnSeal(size);
    }

    /** A seal: reconcile, and ask for the rest from the watermark on if something but not everything is missing. */
    method OnSealFrame(key: Key, size: nat) returns (query: Option<GapQuery>)
      requires Valid()
      modifies this`gaps, segments.Values`sealed, segments.Values`missingOnSeal,
        segments.Values`records, segments.Values`residual
      ensures Valid() && State() == old(State())
      ensures query == if key in segments && 0 < segments[key].nextExpected < size
                       then Some(GapQuery(key, segments[key].nextExpected)) else None
      ensures gaps == old(gaps) + if key in segments && segments[key].nextExpected < size then 1 else 0
      ensures key in segments ==>
                var buf, d := segments[key], DecodeAll(FileOf(disk.files, key));
                && buf.sealed && buf.missingOnSeal == (if size > buf.nextExpected then size - buf.nextExpected else 0)
                && buf.records == |d.records| && buf.residual == d.residual
    {
      hide DecodeAll, Valid, State, FileOf;
      query := None;
      if key in segments {
        var buf := segments[key];
        var missing := SealSegment(key, buf, size);
        if missing > 0 {
          gaps := gaps + 1;
        }
        if missing > 0 && buf.nextExpected > 0 {
          query := Some(GapQuery(key, buf.nextExpected));
        }
      }
    }

    /** The answer to an EXISTS query. */
    method HasBlind(id: BlindId) returns (yes: bool)
      requires ValidCache()
      ensures yes <==> id in blindCache
      ensures yes ==> id in latest && blindCache[id] == latest[id]
    {
      yes := id in blindCache;
    }

    /** The end of a refill: the buffer goes, its waiting chunks with it; the file stays. */
    method Remove(key: Key)
      requires Valid()
      modifies this`segments
      ensures Valid() && key !in segments && segments == old(segments) - {key}
      ensures Next(old(State()), Forget(key), State(), BUDGETS)
    {
      ghost var views := View();
      RemovedWithin(views, key);
      hide CacheOrdered, CacheBytes, Owned, Sum, WaitingOf, OverOf, CountedOf;
      segments := segments - {key};
      assert View() == views - {key};
    }

    /** Whatever comes in, on whichever subscription. */
    method Handle(f: Frame)
      requires Valid() && !f.Restart?
      modifies this, disk, segments.Values
      ensures Valid() && fresh(segments.Values - old(segments.Values))
      ensures Next(old(State()), f, State(), BUDGETS)
    {
      hide Cached, CacheOrdered, CacheBytes, Owned, WaitingOf, View, PlaceStep;
      if f.Batch? {
        OnBatchFrame(f.key, f.entries);
      } else if f.Seal? {
        var query := OnSealFrame(f.key, f.size);
      } else if f.Forget? {
        Remove(f.key);
      } else {
        OnChunkFrame(f);
      }
    }

    method HandleAll(frames: seq<Frame>, ghost rs: seq<Receiver>, ghost fs: seq<Frame>)
        returns (ghost rs': seq<Receiver>, ghost fs': seq<Frame>)
      requires Valid() && Restart !in frames
      requires Trace(rs, fs, BUDGETS) && |rs| > 0 && rs[|rs| - 1] == State()
      modifies this, disk, segments.Values
      ensures Valid() && fresh(segments.Values - old(segments.Values))
      ensures Trace(rs', fs', BUDGETS) && rs <= rs' && |rs'| > 0 && rs'[|rs'| - 1] == State()
      ensures fs' == fs + frames
      ensures forall k :: k in old(segments) && Forget(k) !in frames ==> k in segments
    {
      hide Next, State, Valid, Trace;
      rs', fs' := rs, fs;
      for i := 0 to |frames|
        invariant Valid() && fresh(segments.Values - old(segments.Values))
        invariant Trace(rs', fs', BUDGETS) && rs <= rs' && |rs'| > 0 && rs'[|rs'| - 1] == State()
        invariant fs' == fs + frames[..i]
        invariant forall k :: k in old(segments) && Forget(k) !in frames ==> k in segments
      {
        assert frames[..i + 1] == frames[..i] + [frames[i]] && frames[i] in frames;
        StateKeys();
        Handle(frames[i]);
        StateKeys();
        NextKeepsKeys(rs'[|rs'| - 1], frames[i], State(), BUDGETS);
        TraceSnoc(rs', fs', BUDGETS, frames[i], State());
        rs', fs' := rs' + [State()], fs' + [frames[i]];
      }
      assert frames[..|frames|] == frames;
    }

    lemma StateKeys()
      ensures State().waiting.Keys == segments.Keys
    {}

    /** The watermark of a segment; the size asked for if there is no buffer. */
    method Watermark(key: Key, size: nat) returns (next: nat)
      requires Valid()
      ensures next == if key in segments then |FileOf(State().files, key)| else size
    {
      next := size;
      if key in segments {
        assert Owned(key, segments[key]);
        next := segments[key].nextExpected;
      }
    }

    /**
     Ask the sender again at most four times, waiting at most four seconds each time for the watermark to
     reach the sealed size; then drop the buffer, complete or not.
     */
    method RefillSegment(key: Key, size: nat, rounds: seq<Round>)
        returns (complete: bool, ghost n: nat, ghost rs: seq<Receiver>, ghost fs: seq<Frame>)
      requires Valid() && key in segments
      requires |rounds| == MAX_RETRIES
      requires forall r :: r in rounds ==> |r.ticks| == VERIFY_TICKS
      requires forall r, t :: r in rounds && t in r.ticks ==> Restart !in t && Forget(key) !in t
      modifies this, disk, segments.Values
      ensures Valid() && key !in segments
      ensures Trace(rs, fs, BUDGETS) && rs[0] == old(State()) && rs[|rs| - 1] == State()
      ensures Waited(rs, 0, Ticks(rounds), n, key, size, complete)
      ensures fs == Flatten(Ticks(rounds)[..n]) + [Forget(key)]
    {
      hide Next, State, Valid, Trace, FileOf, Ticks, NoneGone, Flatten, Waited;
      complete, rs, fs, n := false, [State()], [], 0;
      TraceStart(State(), BUDGETS);
      TicksStart(rounds);
      WaitedNone(rs, 0, key, size);
      FlattenNone<Frame>();
      for attempt := 0 to MAX_RETRIES
        invariant Valid() && fresh(segments.Values - old(segments.Values)) && !complete && key in segments
        invariant Trace(rs, fs, BUDGETS) && |rs| == |fs| + 1 && rs[0] == old(State()) && rs[|rs| - 1] == State()
        invariant NoneGone(rounds[..attempt]) && Ticks(rounds[..attempt]) <= Ticks(rounds)
        invariant n == |Ticks(rounds[..attempt])| && fs == Flatten(Ticks(rounds[..attempt]))
        invariant Waited(rs, 0, Ticks(rounds[..attempt]), n, key, size, false)
      {
        if rounds[attempt].gone {
          TicksEnd(rounds, attempt);
          break;
        }
        TicksGoOn(rounds, attempt);
        ghost var a, before := Ticks(rounds[..attempt]), rs;
        ghost var more: nat;
        complete, more, rs, fs := AwaitRefill(key, size, rounds[attempt].ticks, rs, fs);
        WaitedAppend(before, rs, a, rounds[attempt].ticks, more, key, size, complete);
        n := n + more;
        FlattenMore(a, rounds[attempt].ticks, more);
        if complete {
          WaitedExtends(rs, a + rounds[attempt].ticks, n, key, size, true, rs, Ticks(rounds));
          PrefixOfPrefix(a + rounds[attempt].ticks, Ticks(rounds), n);
          break;
        }
      }
      assert rounds[..MAX_RETRIES] == rounds;
      assert Ticks(rounds)[..|Ticks(rounds)|] == Ticks(rounds);
      Remove(key);
      TraceSnoc(rs, fs, BUDGETS, Forget(key), State());
      WaitedExtends(rs, Ticks(rounds), n, key, size, complete, rs + [State()], Ticks(rounds));
      rs, fs := rs + [State()], fs + [Forget(key)];
    }

    method AwaitRefill(key: Key, size: nat, ticks: seq<seq<Frame>>, ghost rs: seq<Receiver>, ghost fs: seq<Frame>)
        returns (complete: bool, ghost n: nat, ghost rs': seq<Receiver>, ghost fs': seq<Frame>)
      requires Valid() && key in segments && forall t :: t in ticks ==> Restart !in t && Forget(key) !in t
      requires Trace(rs, fs, BUDGETS) && |rs| == |fs| + 1 && rs[|rs| - 1] == State()
      modifies this, disk, segments.Values
      ensures Valid() && fresh(segments.Values - old(segments.Values)) && key in segments
      ensures Trace(rs', fs', BUDGETS) && rs <= rs' && |rs'| == |fs'| + 1 && rs'[|rs'| - 1] == State()
      ensures Waited(rs', |fs|, ticks, n, key, size, complete) && n <= |ticks| && (!complete ==> n == |ticks|)
      ensures fs' == fs + Flatten(ticks[..n])
    {
      hide Next, State, Valid, Trace, FileOf, Flatten, Waited;
      complete, rs', fs', n := false, rs, fs, 0;
      WaitedNone(rs', |fs|, key, size);
      FlattenNone<Frame>();
      assert ticks[..0] == [];
      for tick := 0 to |ticks|
        invariant Valid() && fresh(segments.Values - old(segments.Values)) && !complete && key in segments
        invariant Trace(rs', fs', BUDGETS) && rs <= rs' && |rs'| == |fs'| + 1 && rs'[|rs'| - 1] == State()
        invariant n == tick && fs' == fs + Flatten(ticks[..tick])
        invariant Waited(rs', |fs|, ticks[..tick], tick, key, size, false)
      {
        FlattenTick(ticks, tick);
        ghost var before := rs';
        rs', fs' := HandleAll(ticks[tick], rs', fs');
        TraceLength(rs', fs', BUDGETS);
        n := tick + 1;
        WaitedTick(before, rs', |fs|, ticks, tick, key, size);
        var next := Watermark(key, size);
        if next >= size {
          complete := true;
          break;
        }
      }
      assert ticks[..|ticks|] == ticks;
    }
  }

  lemma FlattenNone<T>()
    ensures Flatten<T>([]) == []
  {}

  lemma FlattenMore(a: seq<seq<Frame>>, b: seq<seq<Frame>>, n: nat)
    requires n <= |b|
    ensures Flatten((a + b)[..|a| + n]) == Flatten(a) + Flatten(b[..n])
    ensures n == |b| ==> Flatten(a + b) == Flatten(a) + Flatten(b[..n])
  {
    hide Flatten;
    assert (a + b)[..|a| + n] == a + b[..n];
    FlattenAppend(a, b[..n]);
    assert n == |b| ==> b[..n] == b;
  }

  lemma PrefixOfPrefix<T>(a: seq<T>, b: seq<T>, n: nat)
    requires a <= b && n <= |a|
    ensures a[..n] == b[..n]
  {}

  lemma TraceLength(rs: seq<Receiver>, fs: seq<Frame>, budgets: Budgets)
    requires Trace(rs, fs, budgets)
    ensures |rs| == |fs| + 1
  {}

  lemma TraceStart(r: Receiver, budgets: Budgets)
    ensures Trace([r], [], budgets)
  {}

  lemma WaitingUpdated(views: Views, ready: Views, placed: Views, key: Key, s: SegView)
    requires ready == views[key := s] && key in placed && placed == ready[key := placed[key]]
    ensures WaitingOf(placed) == WaitingOf(views)[key := placed[key].waiting]
    ensures OverOf(placed) == OverOf(views)[key := placed[key].over]
  {}

  /** What a placement replaces was counted, so replaced bytes stay within what was counted before. */
  lemma PlacedOverWithin(views: Views, file: seq<byte>, key: Key, ready: Views, placed: Views, budget: nat)
    requires Counts(views) && Sum(CountedOf(views)) <= budget
    requires ready == views[key := if key in views then views[key] else SegView(|file|, map[], 0, 0)]
    requires key in placed && placed == ready[key := placed[key]] && placed[key].over <= ready[key].counted
    ensures Sum(OverOf(placed)) <= budget
  {
    hide Sum;
    assert CountedOf(ready) == CountedOf(views)[key := ready[key].counted];
    SumUpdate(CountedOf(views), key, ready[key].counted);
    SumMonotone(OverOf(placed), CountedOf(ready));
  }

  lemma Reopened(files: map<string, seq<byte>>, key: Key)
    ensures FileOf(files[PathOf(key) := FileOf(files, key)], key) == FileOf(files, key)
  {}

  function Opened(views: Views, files: map<string, seq<byte>>, key: Key): Views {
    views[key := if key in views then views[key] else SegView(|FileOf(files, key)|, map[], 0, 0)]
  }

  /** One segment has been opened if need be and placed in; views, files are from before, placed, files' from after. */
  ghost predicate PlacedFrom(views: Views, files: map<string, seq<byte>>, key: Key, offset: nat, bytes: seq<byte>,
                             placed: Views, files': map<string, seq<byte>>)
  {
    var ready := Opened(views, files, key);
    var b := Buf(FileOf(files, key), ready[key].waiting);
    && key in placed && placed == ready[key := placed[key]]
    && placed[key].waiting == Placed(b, offset, bytes).pending
    && placed[key].over == ready[key].over + Replaced(b, offset, bytes)
    && files' == files[PathOf(key) := Placed(b, offset, bytes).file]
  }

  lemma PlaceIsStep(views: Views, files: map<string, seq<byte>>, cache: Cache, key: Key, offset: nat, bytes: seq<byte>,
                    placed: Views, files': map<string, seq<byte>>, after: Views, cut: nat)
    requires PlacedFrom(views, files, key, offset, bytes, placed, files')
    requires Counts(placed) && EvictedFrom(placed, after, cut) && Sum(CountedOf(after)) <= PENDING_BUDGET
    requires after == placed
             || (Sum(CountedOf(placed)) > PENDING_BUDGET && LastNeeded(placed, after, cut, PENDING_BUDGET))
    ensures PlaceStep(Receiver(files, WaitingOf(views), OverOf(views), cache), key, offset, bytes,
                      Receiver(files', WaitingOf(after), OverOf(after), cache), PENDING_BUDGET)
  {
    hide Placed, Replaced, PathOf, FileOf, Enforced, Sum, Counts, LastNeeded, CountedOf;
    EvictedEnforced(placed, after, cut, PENDING_BUDGET);
    SameOver(placed, after, cut);
    hide EvictedFrom;
    var ready := Opened(views, files, key);
    WaitingUpdated(views, ready, placed, key, ready[key]);
    assert BufOf(Receiver(files, WaitingOf(views), OverOf(views), cache), key)
        == Buf(FileOf(files, key), ready[key].waiting);
    assert OverAt(OverOf(views), key) == ready[key].over;
  }

  lemma SameOver(v: Views, w: Views, cut: nat)
    requires EvictedFrom(v, w, cut)
    ensures OverOf(w) == OverOf(v)
  {
    hide Shed, Counts;
  }

  /** A refill ends after sixteen seconds of waiting at the latest; one that is given up has waited them if it could. */
  lemma SixteenSeconds(rs: seq<Receiver>, rounds: seq<Round>, k: nat, n: nat, key: Key, size: nat, complete: bool)
    requires |rounds| == MAX_RETRIES && forall r :: r in rounds ==> |r.ticks| == VERIFY_TICKS
    requires GoneFirst(rounds, k) && Waited(rs, 0, Ticks(rounds), n, key, size, complete)
    ensures n <= 4 * k <= 16 && (!complete ==> n == 4 * k)
  {
    hide Ticks, Waited;
    GoneEnds(rs, rounds, k, VERIFY_TICKS, n, key, size, complete);
  }

  lemma PathsDiffer(j: Key, k: Key)
    requires j != k
    ensures PathOf(j) != PathOf(k)
  {
    if PathOf(j) == PathOf(k) { RecvPathInjective(j.0, j.1, k.0, k.1); }
  }

  lemma {:induction false} CacheCounts(order: seq<BlindId>, id: BlindId, cache: map<BlindId, seq<byte>>)
    requires id in order && id in cache
    ensures |cache[id]| <= CacheBytes(order, cache)
  {
    if order[0] != id { CacheCounts(order[1..], id, cache); }
  }
}
