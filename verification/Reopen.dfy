// Close and open, crash and open: what OpenFS makes of the files a store leaves behind.

module Reopen {
  import opened Wrappers
  import opened Bytes
  import opened Segments
  import opened RegionLog
  import opened Index
  import opened FileNames
  import opened Store
  import opened StoreInvariant
  import opened Recovery

  // Room for the region that opening starts when the highest one is full.
  predicate CanActivate(s: State, threshold: nat) {
    s.offset >= threshold ==> s.regionID + 1 < REGION_LIMIT
  }

  // The highest region becomes active again, with the offset at its end, or a new region if it is full.
  lemma ActivateKeepsFiles(d: Digests, threshold: nat, s: State, recs: Records)
    returns (recs': Records)
    requires DiskOk(d, s, recs) && CanActivate(s, threshold)
    ensures var (s', reply) := ActivateRegions(threshold, s.files);
            && reply == Done && DiskOk(d, s', recs') && s'.index == EMPTY && Log(d, recs') == Log(d, recs)
            && (s.offset < threshold ==> s'.regionID == s.regionID && s'.offset == s.offset && s'.files == s.files)
            && (s.offset >= threshold ==> s'.regionID == s.regionID + 1 && s'.offset == 4)
            && (s.offset < threshold ==> s'.active == s.active && recs' == recs)
            && (s.offset >= threshold ==> recs' == recs[s.regionID + 1 := []])
  {
    hide Log, RegionOk, ActivateRegions, CreateActiveRegion;
    ActivateResult(d, threshold, s, recs);
    if s.offset >= threshold {
      CreateKeepsFiles(d, s.(index := EMPTY), recs);
      CreateResult(s.(index := EMPTY));
      recs' := recs[s.regionID + 1 := []];
    } else {
      recs' := recs;
    }
  }

  lemma ActivateResult(d: Digests, threshold: nat, s: State, recs: Records)
    requires DiskOk(d, s, recs) && CanActivate(s, threshold)
    ensures ActivateRegions(threshold, s.files)
            == if s.offset >= threshold then CreateActiveRegion(s.(index := EMPTY)) else (s.(index := EMPTY), Done)
  {
    hide Log, RegionOk, Sorted, CreateActiveRegion;
    SortedTop(s.files.Keys, s.regionID);
    if s.offset >= threshold {
      CreateResult(s.(index := EMPTY));
      CreateResult(State(s.files, s.regionID, 0, 4, EMPTY));
    }
  }

  // Opening an empty directory.
  lemma OpenEmpty(d: Digests, decode: Decoder, threshold: nat, now: nat)
    ensures var (s, reply) := OpenFS(d, decode, threshold, map[], None, now);
            reply == Done && Rep(d, s, map[1 := []], map[], now) && Log(d, map[1 := []]) == []
  {
    var s := State(map[1 := MAGIC], 1, 1, 4, EMPTY);
    EmptyActivated(threshold);
    EmptyLog(d);
    EmptyRegion(d);
    hide Log, ActivateRegions, CrashRecoveryAllIndex;
    CrashScan(d, decode, s, map[1 := []], now);
    assert Sharded(EMPTY);
    forall h ensures CellOk(d, Lookup(EMPTY, h), Get(map[], h), [], h, now) {
    }
  }

  lemma NoRegions()
    ensures Sorted({}) == []
  {
    SortedIs({}, []);
  }

  lemma EmptyActivated(threshold: nat)
    ensures ActivateRegions(threshold, map[]) == (State(map[1 := MAGIC], 1, 1, 4, EMPTY), Done)
  {
    hide CreateActiveRegion;
    var none: map<uint64, seq<byte>> := map[];
    var s0 := State(none, 0, 0, 4, EMPTY);
    NoRegions();
    assert none.Keys == {};
    CreateResult(s0);
  }

  lemma EmptyLog(d: Digests)
    ensures Log(d, map[1 := []]) == []
  {
    var none: Records := map[];
    NoRegions();
    assert none.Keys == {};
    LogNewRegion(d, none, 1);
    assert none[1 := []] == map[1 := []];
  }

  // ---- After a crash ----

  lemma {:induction false} CrashIndex(d: Digests, log: seq<Entry>, now: nat)
    ensures IndexOk(d, Replay(d, EMPTY, log, now), log, ScanMap(PutsOf(d, log), now), now)
  {
    var ix, m := Replay(d, EMPTY, log, now), ScanMap(PutsOf(d, log), now);
    hide Replay, Gone, Tracks, Recovered, ScanMap, PutsOf;
    ReplaySharded(d, log, now);
    forall h ensures CellOk(d, Lookup(ix, h), Get(m, h), log, h, now) {
      ReplayLookup(d, log, h, now);
      RecoveredTracks(d, log, h, now);
      ScanMapHas(d, log, h, now);
    }
  }

  // Every cell that can be read is kept, at version 0.
  ghost predicate KeepsReadable<K(!new)>(m: map<K, Cell>, m': map<K, Cell>, now: nat) {
    forall h :: h in m && m[h].Cell? && !Expired(m[h].seg.expiredAt, now) ==> h in m' && m'[h] == Cell(m[h].seg, 0)
  }

  lemma {:induction false} ScanKeepsReadable(d: Digests, ix: Shards, log: seq<Entry>, m: TimedMap, now: nat)
    requires IndexOk(d, ix, log, m, now)
    ensures KeepsReadable(m, ScanMap(PutsOf(d, log), now), now)
  {
    var m' := ScanMap(PutsOf(d, log), now);
    hide Tracks, Recovered, Gone, ScanMap, PutsOf;
    forall h | h in m && m[h].Cell? && !Expired(m[h].seg.expiredAt, now) ensures h in m' && m'[h] == Cell(m[h].seg, 0) {
      assert CellOk(d, Lookup(ix, h), Get(m, h), log, h, now);
      VisibleRecovered(d, log, Lookup(ix, h).value, m[h].seg, h, now);
      ScanMapHas(d, log, h, now);
      assert Get(m', h).Some?;
    }
  }

  lemma BoundReopened(d: Digests, threshold: nat, s: State, recs: Records, s': State, recs': Records, ix: Shards)
    requires DiskOk(d, s, recs) && (s.offset < threshold ==> s'.active == s.active && recs' == recs)
    ensures Bounded(d, threshold, s, recs) ==> Bounded(d, threshold, s'.(index := ix), recs')
  {
  }

  lemma FilesOnly(d: Digests, s: State, recs: Records, ix: Shards)
    requires DiskOk(d, s, recs)
    ensures DiskOk(d, s.(index := ix), recs)
  {
  }

  // Crash and reopen without a snapshot: the scan rebuilds an index for which the whole invariant holds again, with
  // the last unexpired put of each key since its last delete.
  lemma CrashReopen(d: Digests, decode: Decoder, threshold: nat, s: State, recs: Records, m: TimedMap, now: nat)
    returns (recs': Records)
    requires Rep(d, s, recs, m, now) && CanActivate(s, threshold) && Decodable(decode, Log(d, recs))
    ensures var (s', reply) := OpenFS(d, decode, threshold, s.files, None, now);
            var m' := ScanMap(PutsOf(d, Log(d, recs)), now);
            && reply == Done && Rep(d, s', recs', m', now) && Log(d, recs') == Log(d, recs)
            && KeepsReadable(m, m', now)
            && (Bounded(d, threshold, s, recs) ==> Bounded(d, threshold, s', recs'))
            && forall h :: Lookup(s'.index, h) == RecoveredNode(d, Log(d, recs), h, now)
  {
    recs' := ActivateKeepsFiles(d, threshold, s, recs);
    var log := Log(d, recs);
    var s1 := ActivateRegions(threshold, s.files).0;
    BoundReopened(d, threshold, s, recs, s1, recs', Replay(d, EMPTY, log, now));
    hide ActivateRegions, Log, KeepsReadable, ScanMap, PutsOf, Replay, CrashRecoveryAllIndex, Decodable, DiskOk,
      IndexOk, RecoveredNode, Lookup, Bounded;
    CrashScan(d, decode, s1, recs', now);
    FilesOnly(d, s1, recs', Replay(d, EMPTY, log, now));
    CrashIndex(d, log, now);
    ScanKeepsReadable(d, s.index, log, m, now);
    forall h ensures Lookup(Replay(d, EMPTY, log, now), h) == RecoveredNode(d, log, h, now) {
      ReplayLookup(d, log, h, now);
    }
  }

  // For a key whose last record is not an expired put, the scan finds exactly the live inode, or its absence. A key
  // without any record is not found; its inode, if one is left, has expired.
  lemma {:induction false} CrashEqualsLive(d: Digests, s: State, recs: Records, m: TimedMap, now: nat, h: uint64)
    requires Rep(d, s, recs, m, now)
    requires var last := Last(d, Log(d, recs), h);
             last.Some? ==> last.value.seg.IsTombstone() || !Expired(last.value.seg.expiredAt, now)
    ensures var found, live := RecoveredNode(d, Log(d, recs), h, now), Lookup(s.index, h);
            if Last(d, Log(d, recs), h).Some? then found == Lookup(ResetVersions(s.index), h)
            else found.None? && (live.Some? ==> Expired(live.value.expiredAt, now))
  {
    var log := Log(d, recs);
    hide Log;
    assert CellOk(d, Lookup(s.index, h), Get(m, h), log, h, now);
    LastDecides(d, log, h, now);
    if Lookup(s.index, h).Some? {
      TrackedLast(d, log, Lookup(s.index, h).value, m[h].seg, h, now);
    }
  }

  lemma {:induction false} LastDecides(d: Digests, log: seq<Entry>, h: uint64, now: nat)
    ensures match Last(d, log, h)
            case None => Recovered(d, log, h, now).None?
            case Some(e) =>
              && (e.seg.IsTombstone() ==> Recovered(d, log, h, now).None?)
              && (!e.seg.IsTombstone() && !Expired(e.seg.expiredAt, now) ==> Recovered(d, log, h, now) == Some(e))
  {
    if log != [] {
      LastDecides(d, log[..|log| - 1], h, now);
    }
  }

  // Fetch answers from the timed map.
  lemma FetchAnswers(d: Digests, decode: Decoder, s: State, recs: Records, m: TimedMap, now: nat, key: seq<byte>)
    requires Rep(d, s, recs, m, now)
    ensures FetchSegment(d, decode, s, key, now).1 == Shown(decode, Get(m, d.inodeNum(key)), now)
  {
    var h, log := d.inodeNum(key), Log(d, recs);
    assert CellOk(d, Lookup(s.index, h), Get(m, h), log, h, now);
    if h in m && !Expired(m[h].seg.expiredAt, now) {
      var node := Lookup(s.index, h).value;
      var e := TrackedEntry(d, log, node, m[h].seg, h, now);
      hide Log, DiskOk, ReadNode, Tracks;
      ReadThroughNode(d, decode, s, recs, e, node.mvcc);
    }
  }

  // Reading a key after a crash without a snapshot gives its last unexpired put since its last delete.
  lemma {:induction false} CrashReads(d: Digests, scan: Decoder, decode: Decoder, threshold: nat, s: State,
                                      recs: Records, m: TimedMap, now: nat, key: seq<byte>)
    requires Rep(d, s, recs, m, now) && CanActivate(s, threshold) && Decodable(scan, Log(d, recs))
    ensures FetchSegment(d, decode, OpenFS(d, scan, threshold, s.files, None, now).0, key, now).1
            == match Recovered(d, Log(d, recs), d.inodeNum(key), now)
               case None => Failed(NotFound)
               case Some(e) => Answer(decode, 0, e.seg)
  {
    var h, log := d.inodeNum(key), Log(d, recs);
    var recs' := CrashReopen(d, scan, threshold, s, recs, m, now);
    var s' := OpenFS(d, scan, threshold, s.files, None, now).0;
    hide OpenFS, Log, ScanMap, PutsOf, Rep, FetchSegment, KeepsReadable, Recovered;
    FetchAnswers(d, decode, s', recs', ScanMap(PutsOf(d, log), now), now, key);
    ScanMapHas(d, log, h, now);
    RecoveredTracks(d, log, h, now);
  }

  // So it reads as it did before, except exactly when it could not be read but an unexpired put of it has only expired
  // puts after it: then that older value comes back.
  lemma CrashReadsIff(d: Digests, scan: Decoder, decode: Decoder, threshold: nat, s: State, recs: Records, m: TimedMap,
                      now: nat, key: seq<byte>)
    requires Rep(d, s, recs, m, now) && CanActivate(s, threshold) && Decodable(scan, Log(d, recs))
    ensures var s' := OpenFS(d, scan, threshold, s.files, None, now).0;
            var h, log := d.inodeNum(key), Log(d, recs);
            var readable := h in m && !Expired(m[h].seg.expiredAt, now);
            var before, after := FetchSegment(d, decode, s, key, now).1, FetchSegment(d, decode, s', key, now).1;
            && (readable ==> before == Answer(decode, m[h].version, m[h].seg) && after == Answer(decode, 0, m[h].seg))
            && (!readable ==> before == Failed(NotFound) || before == Failed(HasExpired))
            && (!readable ==> (after == Failed(NotFound) <==> !exists i :: Wins(d, log, i, h, now)))
            && (forall i :: Wins(d, log, i, h, now) ==> after == Answer(decode, 0, log[i].seg))
  {
    hide OpenFS, Log, Rep, FetchSegment, Recovered, Wins, CanActivate, Decodable, Answer;
    var h, log := d.inodeNum(key), Log(d, recs);
    CellIsThere(d, s, recs, m, now, h);
    FetchAnswers(d, decode, s, recs, m, now, key);
    CrashReads(d, scan, decode, threshold, s, recs, m, now, key);
    RecoveryPicks(d, log, h, now);
    if h in m && !Expired(m[h].seg.expiredAt, now) { ReadableRecovered(d, s, recs, m, now, h); }
    assert forall e: Entry :: Answer(decode, 0, e.seg) != Failed(NotFound) by { AnswersFound(decode); }
  }

  lemma AnswersFound(decode: Decoder)
    ensures forall e: Entry :: Answer(decode, 0, e.seg) != Failed(NotFound)
  {
  }

  lemma {:induction false} ReadableRecovered(d: Digests, s: State, recs: Records, m: TimedMap, now: nat, h: uint64)
    requires Rep(d, s, recs, m, now) && h in m && !Expired(m[h].seg.expiredAt, now)
    ensures Recovered(d, Log(d, recs), h, now).Some? && Recovered(d, Log(d, recs), h, now).value.seg == m[h].seg
  {
    var log := Log(d, recs);
    assert CellOk(d, Lookup(s.index, h), Get(m, h), log, h, now);
    VisibleRecovered(d, log, Lookup(s.index, h).value, m[h].seg, h, now);
  }

  lemma CellIsThere(d: Digests, s: State, recs: Records, m: TimedMap, now: nat, h: uint64)
    requires Rep(d, s, recs, m, now)
    ensures h in m ==> m[h].Cell?
  {
    assert CellOk(d, Lookup(s.index, h), Get(m, h), Log(d, recs), h, now);
  }

  // ---- After a clean close ----

  function ResetMap<K>(m: map<K, Cell>): map<K, Cell> {
    map h | h in m :: m[h].(version := 0)
  }

  // With a snapshot there, the index after opening is the one it holds, whatever the regions hold.
  lemma OpenLoaded(d: Digests, decode: Decoder, threshold: nat, s: State, recs: Records, now: nat, file: seq<byte>,
                   ix: Shards)
    returns (recs': Records)
    requires DiskOk(d, s, recs) && CanActivate(s, threshold) && LoadFrom(d, file, 4, EMPTY) == Some(ix)
    ensures var (s', reply) := OpenFS(d, decode, threshold, s.files, Some(file), now);
            && reply == Done && s'.index == ix && s'.regionID >= s.regionID
            && DiskOk(d, s', recs') && Log(d, recs') == Log(d, recs)
            && (forall r :: r in recs ==> r in recs')
            && (forall r :: r in recs' ==> r in recs || r > s.regionID)
            && (Bounded(d, threshold, s, recs) ==> Bounded(d, threshold, s', recs'))
  {
    recs' := ActivateKeepsFiles(d, threshold, s, recs);
    var s1 := ActivateRegions(threshold, s.files).0;
    BoundReopened(d, threshold, s, recs, s1, recs', ix);
    hide ActivateRegions, Log, LoadFrom, DiskOk, Bounded;
    FilesOnly(d, s1, recs', ix);
  }

  // Opening with a snapshot fails exactly if 48 bytes of it do not end with their checksum, or it ends in the middle.
  lemma DamagedSnapshot(d: Digests, decode: Decoder, threshold: nat, s: State, recs: Records, now: nat, file: seq<byte>)
    requires DiskOk(d, s, recs) && CanActivate(s, threshold)
    ensures OpenFS(d, decode, threshold, s.files, Some(file), now).1
            == if Intact(d, file, 4) then Done else Failed(BadSnapshot)
  {
    hide ActivateRegions, Log, LoadFrom, DiskOk, Intact;
    var recs' := ActivateKeepsFiles(d, threshold, s, recs);
    LoadsIntact(d, file, 4, EMPTY);
  }

  lemma OpenSnapshot(d: Digests, decode: Decoder, threshold: nat, s: State, recs: Records, now: nat, items: seq<Item>,
                     ix: Shards)
    returns (recs': Records)
    requires DiskOk(d, s, recs) && CanActivate(s, threshold) && Sharded(ix) && Enumerates(items, ix)
    ensures var (s', reply) := OpenFS(d, decode, threshold, s.files, Some(SnapshotBytes(d, items)), now);
            && reply == Done && s'.index == ResetVersions(ix) && s'.regionID >= s.regionID
            && DiskOk(d, s', recs') && Log(d, recs') == Log(d, recs)
            && (forall r :: r in recs ==> r in recs')
            && (forall r :: r in recs' ==> r in recs || r > s.regionID)
            && (Bounded(d, threshold, s, recs) ==> Bounded(d, threshold, s', recs'))
  {
    hide *;
    SnapshotRoundTrip(d, items, ix);
    recs' := OpenLoaded(d, decode, threshold, s, recs, now, SnapshotBytes(d, items), ResetVersions(ix));
  }

  // Close and reopen: the snapshot restores the index with versions reset, and the invariant with it.
  lemma CleanReopen(d: Digests, decode: Decoder, threshold: nat, s: State, recs: Records, m: TimedMap, now: nat,
                    items: seq<Item>)
    returns (recs': Records)
    requires Rep(d, s, recs, m, now) && CanActivate(s, threshold) && Enumerates(items, s.index)
    ensures var (s', reply) := OpenFS(d, decode, threshold, s.files, Some(SnapshotBytes(d, items)), now);
            && reply == Done && s'.index == ResetVersions(s.index)
            && Rep(d, s', recs', ResetMap(m), now) && Log(d, recs') == Log(d, recs)
            && (Bounded(d, threshold, s, recs) ==> Bounded(d, threshold, s', recs'))
  {
    assert Sharded(s.index);
    ResetIndex(d, s.index, Log(d, recs), m, now);
    hide OpenFS, Log, Enumerates, DiskOk, IndexOk, ResetVersions, ResetMap, SnapshotBytes, CanActivate, Bounded;
    recs' := OpenSnapshot(d, decode, threshold, s, recs, now, items, s.index);
  }

  lemma ResetIndex(d: Digests, ix: Shards, log: seq<Entry>, m: TimedMap, now: nat)
    requires IndexOk(d, ix, log, m, now)
    ensures IndexOk(d, ResetVersions(ix), log, ResetMap(m), now)
  {
    hide Tracks, Gone;
    forall h ensures CellOk(d, Lookup(ResetVersions(ix), h), Get(ResetMap(m), h), log, h, now) {
      assert CellOk(d, Lookup(ix, h), Get(m, h), log, h, now);
      if Lookup(ix, h).Some? { TracksReset(d, log, Lookup(ix, h).value, m[h].seg, h, now); }
    }
  }

  lemma {:induction false} TracksReset(d: Digests, log: seq<Entry>, node: Node, seg: Segment, h: uint64, now: nat)
    requires Tracks(d, log, node, seg, h, now)
    ensures Tracks(d, log, node.(mvcc := 0), seg, h, now)
  {
    if log != [] {
      var init := log[..|log| - 1];
      if Tracks(d, init, node, seg, h, now) { TracksReset(d, init, node, seg, h, now); }
    }
  }

  function AtVersionZero(reply: Reply): Reply {
    match reply
    case Fetched(_, seg) => Fetched(0, seg)
    case other => other
  }

  // Every read gives the same segment or error after a clean reopen; only the version is reset.
  lemma {:induction false} CleanReopenReads(d: Digests, scan: Decoder, decode: Decoder, threshold: nat, s: State,
                                            recs: Records, m: TimedMap, now: nat, items: seq<Item>, key: seq<byte>)
    requires Rep(d, s, recs, m, now) && CanActivate(s, threshold) && Enumerates(items, s.index)
    ensures var s' := OpenFS(d, scan, threshold, s.files, Some(SnapshotBytes(d, items)), now).0;
            FetchSegment(d, decode, s', key, now).1 == AtVersionZero(FetchSegment(d, decode, s, key, now).1)
  {
    var recs' := CleanReopen(d, scan, threshold, s, recs, m, now, items);
    var s' := OpenFS(d, scan, threshold, s.files, Some(SnapshotBytes(d, items)), now).0;
    hide OpenFS, Rep, FetchSegment, SnapshotBytes, Enumerates, CanActivate, Answer, DiskOk, IndexOk;
    FetchAnswers(d, decode, s, recs, m, now, key);
    FetchAnswers(d, decode, s', recs', ResetMap(m), now, key);
    ShownReset(decode, m, d.inodeNum(key), now);
  }

  lemma ShownReset<K>(decode: Decoder, m: map<K, Cell>, k: K, now: nat)
    ensures Shown(decode, Get(ResetMap(m), k), now) == AtVersionZero(Shown(decode, Get(m, k), now))
  {
  }
}
