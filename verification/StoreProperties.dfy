// More properties of whole runs: region sizes, key counts, and what a crash brings back.

module StoreProperties {
  import opened Wrappers
  import opened Bytes
  import opened Segments
  import opened RegionLog
  import opened Index
  import opened FileNames
  import opened Store
  import opened StoreInvariant
  import opened Recovery
  import opened Reopen
  import opened Snapshots
  import opened Refinement

  // ---- Region sizes ----

  // A closed region is at least the threshold long, and less than the threshold plus its last record.
  lemma {:induction false} ClosedLength(d: Digests, rs: seq<Segment>, threshold: nat)
    requires ClosedAtThreshold(d, rs, threshold)
    ensures threshold <= |Layout(d, rs)| < threshold + |Serialize(d, rs[|rs| - 1])|
  {
  }

  lemma StepBounded(c: Config, w: World, recs: Records, sp: Spec<uint64>, written: set<Segment>, now: nat, ev: Event)
    returns (recs': Records, sp': Spec<uint64>)
    requires Inv(c, w, recs, sp, written, now) && now <= ev.now && Legal(c, w, recs, ev) && !ev.op.Delete?
    requires ev.op.Compact? ==> Distinguished(c.d, written)
    requires Bounded(c.d, c.threshold, w.s, recs)
    ensures Inv(c, Step(c, w, ev).0, recs', sp', written + PutBy(ev), ev.now)
    ensures Bounded(c.d, c.threshold, Step(c, w, ev).0.s, recs')
  {
    hide Inv, Step, SpecStep, Legal, Bounded, Distinguished;
    recs', sp' := StepRefines(c, w, recs, sp, written, now, ev);
  }

  // In runs without deletes the active region stays below the threshold, and every region was closed at it.
  lemma {:induction false} RunBounded(c: Config, w: World, recs: Records, sp: Spec<uint64>, written: set<Segment>,
                                      now: nat, evs: seq<Event>)
    returns (recs': Records)
    requires Inv(c, w, recs, sp, written, now) && LegalRun(c, w, now, evs) && StampsServe(c.d, written, evs)
    requires Bounded(c.d, c.threshold, w.s, recs)
    requires forall i :: 0 <= i < |evs| ==> !evs[i].op.Delete?
    ensures DiskOk(c.d, Run(c, w, evs).0.s, recs') && Bounded(c.d, c.threshold, Run(c, w, evs).0.s, recs')
    decreases |evs|
  {
    hide *;
    InvIsOnDisk(c, w, recs, sp, written, now);
    RunSplit(c, w, evs);
    if evs == [] {
      recs' := recs;
    } else {
      LegalFirst(c, w, recs, now, evs);
      StampsFirst(c.d, written, evs);
      assert !evs[0].op.Delete?;
      var recs1, sp1 := StepBounded(c, w, recs, sp, written, now, evs[0]);
      recs' := RunBounded(c, Step(c, w, evs[0]).0, recs1, sp1, written + PutBy(evs[0]), evs[0].now, evs[1..]);
    }
  }

  // A new store is in bounds when its threshold exceeds the file header.
  lemma EmptyBounded(c: Config, now: nat)
    requires c.threshold > 4
    ensures Bounded(c.d, c.threshold, NewStore(c, now).s, map[1 := []])
  {
    NewStoreInv(c, now);
    hide NewStore, Inv;
    InvIsOnDisk(c, NewStore(c, now), map[1 := []], NOTHING, {}, now);
    assert Layout(c.d, []) == MAGIC;
  }

  // From a new store on, whatever the run, as long as nothing is deleted: the active region file stays below the
  // threshold; every other one reached it with its last record.
  lemma FreshRunBounded(c: Config, now: nat, evs: seq<Event>) returns (recs': Records)
    requires c.threshold > 4 && LegalRun(c, NewStore(c, now), now, evs) && StampsServe(c.d, {}, evs)
    requires forall i :: 0 <= i < |evs| ==> !evs[i].op.Delete?
    ensures var s' := Run(c, NewStore(c, now), evs).0.s;
            && DiskOk(c.d, s', recs') && |s'.files[s'.active]| < c.threshold
            && forall r :: r in s'.files && r != s'.active ==>
                 && recs'[r] != []
                 && c.threshold <= |s'.files[r]| < c.threshold + |Serialize(c.d, recs'[r][|recs'[r]| - 1])|
  {
    hide NewStore, Inv, Run, LegalRun, Serialize, Layout, StampsServe;
    NewStoreInv(c, now);
    EmptyBounded(c, now);
    recs' := RunBounded(c, NewStore(c, now), map[1 := []], NOTHING, {}, now, evs);
    var s' := Run(c, NewStore(c, now), evs).0.s;
    forall r | r in s'.files && r != s'.active
      ensures recs'[r] != []
      ensures c.threshold <= |s'.files[r]| < c.threshold + |Serialize(c.d, recs'[r][|recs'[r]| - 1])|
    {
      ClosedLength(c.d, recs'[r], c.threshold);
    }
  }

  // A delete never rolls: it keeps the bound exactly when its tombstone still fits below the threshold.
  lemma DeleteBounded(d: Digests, threshold: nat, s: State, recs: Records, key: seq<byte>, now: uint64)
    requires DiskOk(d, s, recs) && Bounded(d, threshold, s, recs) && 30 + |key| < U32 && Room(s, 30 + |key|)
    ensures var s' := DeleteSegment(d, s, key, now).0;
            var recs' := recs[s.active := recs[s.active] + [NewTombstoneSegment(key, now)]];
            && DiskOk(d, s', recs')
            && (Bounded(d, threshold, s', recs') <==> s.offset + 30 + |key| < threshold)
  {
    hide Log, Serialize;
    var seg := NewTombstoneSegment(key, now);
    AppendKeepsFiles(d, s, recs, seg);
    EntriesAppend(d, s.active, recs[s.active], seg);
  }

  // ---- Key counts ----

  function KeysUpTo(ix: Shards, n: nat): set<uint64>
    requires n <= INDEX_SHARD
  {
    if n == 0 then {} else KeysUpTo(ix, n - 1) + ix[n - 1].Keys
  }

  lemma {:induction false} KeysUpToAre(ix: Shards, n: nat)
    requires Sharded(ix) && n <= INDEX_SHARD
    ensures forall h: uint64 :: h in KeysUpTo(ix, n) <==> h % INDEX_SHARD < n && h in ix[h % INDEX_SHARD]
  {
    if n > 0 {
      KeysUpToAre(ix, n - 1);
      forall h: uint64 ensures h in ix[n - 1] <==> h % INDEX_SHARD == n - 1 && h in ix[h % INDEX_SHARD] {
      }
    }
  }

  lemma {:induction false} CountIsKeys(ix: Shards, n: nat)
    requires Sharded(ix) && n <= INDEX_SHARD
    ensures CountKeys(ix, n) == |KeysUpTo(ix, n)|
  {
    if n > 0 {
      CountIsKeys(ix, n - 1);
      KeysUpToAre(ix, n - 1);
      var keys := ix[n - 1].Keys;
      assert |ix[n - 1]| == |keys|;
      assert KeysUpTo(ix, n - 1) !! keys;
    }
  }

  // KeysCount is the size of the timed map.
  lemma KeysCounted(c: Config, w: World, recs: Records, sp: Spec<uint64>, written: set<Segment>, now: nat)
    requires Inv(c, w, recs, sp, written, now)
    ensures CountKeys(w.s.index, INDEX_SHARD) == |sp.live|
  {
    hide Inv, KeysUpTo, CountKeys, DiskOk, SaneIndex, Recorded;
    var ix := w.s.index;
    InvIsSane(c, w, recs, sp, written, now);
    CountIsKeys(ix, INDEX_SHARD);
    KeysUpToAre(ix, INDEX_SHARD);
    forall h ensures h in KeysUpTo(ix, INDEX_SHARD) <==> h in sp.live.Keys {
      NodeMatchesCell(c, w, recs, sp, written, now, h);
    }
    assert KeysUpTo(ix, INDEX_SHARD) == sp.live.Keys;
    assert |sp.live| == |sp.live.Keys|;
  }

  // ---- When a key has expired ----

  // A key can be read as long as it has no expiry or its expiry, in nanoseconds, is still to come; from then on a read
  // says so once, and the key is gone.
  lemma ExpiryDecides(c: Config, w: World, recs: Records, sp: Spec<uint64>, written: set<Segment>, now: nat,
                      key: seq<byte>)
    requires Inv(c, w, recs, sp, written, now)
    requires c.d.inodeNum(key) in sp.live && sp.live[c.d.inodeNum(key)].Cell?
    ensures var cell := sp.live[c.d.inodeNum(key)];
            var (s', reply) := FetchSegment(c.d, c.decode, w.s, key, now);
            if cell.seg.expiredAt == 0 || now < cell.seg.expiredAt
            then reply == Answer(c.decode, cell.version, cell.seg) && s' == w.s
            else && reply == Failed(HasExpired) && Lookup(s'.index, c.d.inodeNum(key)).None?
                 && s'.files == w.s.files
                 && forall later :: FetchSegment(c.d, c.decode, s', key, later) == (s', Failed(NotFound))
  {
    FetchShows(c, w, recs, sp, written, now, key);
    InvIsSane(c, w, recs, sp, written, now);
    SaneMatches(c.d, w.s, recs, written, sp.live, now, c.d.inodeNum(key));
    hide Inv, Answer, SaneIndex, DiskOk, Recorded, DeleteNode, ReadNode;
  }

  // A scan after a crash puts the last record of a key into the index exactly if it is no tombstone, that is its flag
  // is not 1, and has no expiry or one still to come.
  lemma {:induction false} ScanRestoresIff(c: Config, w: World, recs: Records, sp: Spec<uint64>, written: set<Segment>,
                                           now: nat, h: uint64)
    requires Inv(c, w, recs, sp, written, now) && w.snapshot.None? && CanActivate(w.s, c.threshold)
    requires Last(c.d, Log(c.d, recs), h).Some?
    ensures var e := Last(c.d, Log(c.d, recs), h).value;
            Lookup(Open(c, w.s.files, None, now).0.s.index, h) == Some(NodeOf(e, 0))
            <==> e.seg.tombstone != 1 && (e.seg.expiredAt == 0 || now < e.seg.expiredAt)
  {
    var log := Log(c.d, recs);
    assert Rep(c.d, w.s, recs, sp.live, now) && sp.backup.Scan?;
    hide Inv, Log, Rep, Last, Recovered, CanActivate, OpenFS, Bounded, PutsOf, ScanMap, KeepsReadable;
    IdentityDecodes(log);
    var _ := CrashReopen(c.d, IDENTITY, c.threshold, w.s, recs, sp.live, now);
    LastDecides(c.d, log, h, now);
    RecoveredTracks(c.d, log, h, now);
  }

  // ---- An update that cannot be written ----

  // If the record of an update does not fit, the version is spent all the same: what the key reads as is left alone but
  // for the version, nothing is written, and the same update again is a conflict.
  lemma SpentVersion(c: Config, w: World, recs: Records, sp: Spec<uint64>, written: set<Segment>, now: nat,
                     key: seq<byte>, seg: Segment)
    requires Inv(c, w, recs, sp, written, now) && !CanAppend(w.s, |Serialize(c.d, seg)|)
    requires c.d.inodeNum(key) in sp.live && sp.live[c.d.inodeNum(key)].Cell?
    requires !Expired(sp.live[c.d.inodeNum(key)].seg.expiredAt, now)
    ensures var cell := sp.live[c.d.inodeNum(key)];
            var (s', reply) := UpdateSegmentWithCAS(c.d, c.threshold, w.s, key, cell.version, seg);
            && reply == Failed(AppendFailed) && s'.(index := w.s.index) == w.s
            && (forall g :: g != c.d.inodeNum(key) ==> Lookup(s'.index, g) == Lookup(w.s.index, g))
            && FetchSegment(c.d, c.decode, s', key, now).1
               == Answer(c.decode, (cell.version + 1) % 0x1_0000_0000_0000_0000, cell.seg)
            && UpdateSegmentWithCAS(c.d, c.threshold, s', key, cell.version, seg) == (s', Failed(VersionConflict))
  {
    var cell := sp.live[c.d.inodeNum(key)];
    var node := ReadableNode(c, w, recs, sp, written, now, key);
    hide *;
    SpentNode(c, w.s, key, seg, node, cell.seg, now);
  }

  lemma SpentNode(c: Config, s: State, key: seq<byte>, seg: Segment, node: Node, stored: Segment, now: nat)
    requires Lookup(s.index, c.d.inodeNum(key)) == Some(node) && !Expired(node.expiredAt, now)
    requires ReadNode(c.d, c.decode, s.files, node) == Answer(c.decode, node.mvcc, stored)
    requires !CanAppend(s, |Serialize(c.d, seg)|)
    ensures var (s', reply) := UpdateSegmentWithCAS(c.d, c.threshold, s, key, node.mvcc, seg);
            && reply == Failed(AppendFailed) && s'.(index := s.index) == s
            && (forall g :: g != c.d.inodeNum(key) ==> Lookup(s'.index, g) == Lookup(s.index, g))
            && FetchSegment(c.d, c.decode, s', key, now).1 == Answer(c.decode, (node.mvcc + 1) % U64, stored)
            && UpdateSegmentWithCAS(c.d, c.threshold, s', key, node.mvcc, seg) == (s', Failed(VersionConflict))
  {
    hide Serialize, UpdateSegmentWithCAS, CanAppend, SetNode, Answer, ReadNode, FetchSegment;
    CasUnwritten(c.d, c.threshold, s, key, node.mvcc, seg);
    var s' := UpdateSegmentWithCAS(c.d, c.threshold, s, key, node.mvcc, seg).0;
    var bumped := node.(mvcc := (node.mvcc + 1) % U64);
    CasRefused(c.d, c.threshold, s', key, node.mvcc, seg);
    ReadBumped(c.d, c.decode, s.files, node, stored, bumped.mvcc);
    FetchesNode(c, s', key, bumped, now);
  }

  lemma ReadableNode(c: Config, w: World, recs: Records, sp: Spec<uint64>, written: set<Segment>, now: nat,
                     key: seq<byte>)
    returns (node: Node)
    requires Inv(c, w, recs, sp, written, now)
    requires c.d.inodeNum(key) in sp.live && sp.live[c.d.inodeNum(key)].Cell?
    requires !Expired(sp.live[c.d.inodeNum(key)].seg.expiredAt, now)
    ensures var cell := sp.live[c.d.inodeNum(key)];
            && Lookup(w.s.index, c.d.inodeNum(key)) == Some(node) && node.mvcc == cell.version
            && !Expired(node.expiredAt, now)
            && ReadNode(c.d, c.decode, w.s.files, node) == Answer(c.decode, cell.version, cell.seg)
  {
    var h := c.d.inodeNum(key);
    FetchShows(c, w, recs, sp, written, now, key);
    InvIsSane(c, w, recs, sp, written, now);
    hide Inv, DiskOk, Recorded, ReadNode, Answer;
    SaneMatches(c.d, w.s, recs, written, sp.live, now, h);
    hide SaneIndex;
    node := Lookup(w.s.index, h).value;
    FetchesNode(c, w.s, key, node, now);
  }

  lemma ReadBumped(d: Digests, decode: Decoder, files: map<uint64, seq<byte>>, node: Node, seg: Segment, v: uint64)
    requires ReadNode(d, decode, files, node) == Answer(decode, node.mvcc, seg)
    ensures ReadNode(d, decode, files, node.(mvcc := v)) == Answer(decode, v, seg)
  {
    hide ReadDecoded;
  }

  // A put or a delete whose record does not fit changes nothing.
  lemma RefusedWrites(c: Config, s: State, key: seq<byte>, seg: Segment, now: uint64)
    ensures !CanAppend(s, |Serialize(c.d, seg)|) ==>
              PutSegment(c.d, c.threshold, s, key, seg) == (s, Failed(AppendFailed))
    ensures !CanAppend(s, 30 + |key|) ==> DeleteSegment(c.d, s, key, now) == (s, Failed(AppendFailed))
  {
    hide Serialize;
  }

  // ---- When the region names run out ----

  // No name is left: the id has moved on, past every region there is, and the active region is full.
  ghost predicate OutOfNames(c: Config, s: State) {
    && s.regionID >= 1_000_000_000 && (forall r :: r in s.files ==> r < 1_000_000_000)
    && s.active in s.files && c.threshold <= s.offset == |s.files[s.active]| <= MAX_FILE
  }

  // The id of the next region is taken before its name is checked. So when the last region fills up, the put reports an
  // error though its record is written and can be read.
  lemma NamesRunOut(c: Config, w: World, recs: Records, sp: Spec<uint64>, written: set<Segment>, now: nat,
                    seg: Segment)
    requires Inv(c, w, recs, sp, written, now) && w.s.regionID == 999_999_999
    requires seg.WellFormed() && CanAppend(w.s, |Serialize(c.d, seg)|) && !Expired(seg.expiredAt, now)
    requires w.s.offset + |Serialize(c.d, seg)| >= c.threshold
    ensures var (s1, reply) := PutSegment(c.d, c.threshold, w.s, seg.key, seg);
            && reply == Failed(NoRegionName) && OutOfNames(c, s1)
            && FetchSegment(c.d, c.decode, s1, seg.key, now).1 == Answer(c.decode, 0, seg)
  {
    InvIsOnDisk(c, w, recs, sp, written, now);
    hide Inv, Serialize, Answer, PutSegment, DiskOk, FetchSegment, CanAppend, OutOfNames;
    LastPut(c, w.s, recs, seg, now);
  }

  // From then on every put that fits is written, reports an error, and cannot be read: its inode names a region that
  // does not exist.
  lemma PutOutOfNames(c: Config, s: State, seg: Segment, now: nat)
    requires OutOfNames(c, s) && s.regionID + 1 < 0x1_0000_0000_0000_0000
    requires CanAppend(s, |Serialize(c.d, seg)|) && seg.WellFormed()
    ensures var (s', reply) := PutSegment(c.d, c.threshold, s, seg.key, seg);
            && reply == Failed(NoRegionName) && OutOfNames(c, s')
            && (!Expired(seg.expiredAt, now) ==>
                  FetchSegment(c.d, c.decode, s', seg.key, now).1 == Failed(RegionMissing))
  {
    NoFile(c, s);
    hide *;
    PutNamesNothing(c, s, seg);
    var node := Node(s.regionID, s.offset, seg.Size(), seg.expiredAt, seg.createdAt, 0);
    var ix := SetNode(s.index, c.d.inodeNum(seg.key), node);
    var s1 := AddOffset(Append(s, Serialize(c.d, seg)).(index := ix), seg.Size()).(regionID := s.regionID + 1);
    StaysThere(s, Serialize(c.d, seg), seg.Size(), ix);
    NowOut(c, s, seg, s1);
    if !Expired(seg.expiredAt, now) {
      FetchesNode(c, s1, seg.key, node, now);
      ReadsNothing(c, s1.files, node);
    }
  }

  lemma NoFile(c: Config, s: State)
    requires OutOfNames(c, s)
    ensures s.regionID !in s.files && s.active in s.files && c.threshold <= s.offset == |s.files[s.active]|
    ensures s.regionID >= 1_000_000_000 && forall r :: r in s.files ==> r < 1_000_000_000
  {
  }

  lemma ReadsNothing(c: Config, files: map<uint64, seq<byte>>, node: Node)
    requires node.regionID !in files
    ensures ReadNode(c.d, c.decode, files, node) == Failed(RegionMissing)
  {
  }

  lemma LastPut(c: Config, s: State, recs: Records, seg: Segment, now: nat)
    requires DiskOk(c.d, s, recs) && s.regionID == 999_999_999 && seg.WellFormed()
    requires CanAppend(s, |Serialize(c.d, seg)|) && s.offset + |Serialize(c.d, seg)| >= c.threshold
    requires !Expired(seg.expiredAt, now)
    ensures var (s1, reply) := PutSegment(c.d, c.threshold, s, seg.key, seg);
            && reply == Failed(NoRegionName) && OutOfNames(c, s1)
            && FetchSegment(c.d, c.decode, s1, seg.key, now).1 == Answer(c.decode, 0, seg)
  {
    hide *;
    TopRegion(c.d, s, recs);
    PutNamesNothing(c, s, seg);
    LastPutReads(c, s, recs, seg);
    var node := Node(s.regionID, s.offset, seg.Size(), seg.expiredAt, seg.createdAt, 0);
    var ix := SetNode(s.index, c.d.inodeNum(seg.key), node);
    var s1 := AddOffset(Append(s, Serialize(c.d, seg)).(index := ix), seg.Size()).(regionID := 1_000_000_000);
    StaysThere(s, Serialize(c.d, seg), seg.Size(), ix);
    FetchesNode(c, s1, seg.key, node, now);
    NowOut(c, s, seg, s1);
  }

  lemma NowOut(c: Config, s: State, seg: Segment, s1: State)
    requires s.active in s.files && s.offset == |s.files[s.active]| && seg.WellFormed()
    requires CanAppend(s, |Serialize(c.d, seg)|) && s.offset + |Serialize(c.d, seg)| >= c.threshold
    requires s1.regionID >= 1_000_000_000 && s1.active == s.active && forall r :: r in s.files ==> r < 1_000_000_000
    requires s1.files == Append(s, Serialize(c.d, seg)).files && s1.offset == (s.offset + seg.Size()) % U64
    ensures OutOfNames(c, s1)
  {
    hide Serialize;
  }

  lemma TopRegion(d: Digests, s: State, recs: Records)
    requires DiskOk(d, s, recs)
    ensures s.active == s.regionID && s.active in s.files && s.offset == |s.files[s.active]|
    ensures forall r :: r in s.files ==> r <= s.regionID
  {
    hide RegionOk;
  }

  lemma StaysThere(s: State, bytes: seq<byte>, n: nat, ix: Shards)
    requires s.active in s.files
    ensures var s1 := AddOffset(Append(s, bytes).(index := ix), n);
            && s1.index == ix && s1.active == s.active && s1.files.Keys == s.files.Keys
            && s1.files == AddOffset(Append(s, bytes), n).files == Append(s, bytes).files
            && s1.offset == (s.offset + n) % U64
  {
  }

  lemma FetchesNode(c: Config, s: State, key: seq<byte>, node: Node, now: nat)
    requires Lookup(s.index, c.d.inodeNum(key)) == Some(node) && !Expired(node.expiredAt, now)
    ensures FetchSegment(c.d, c.decode, s, key, now).1 == ReadNode(c.d, c.decode, s.files, node)
  {
    hide ReadNode;
  }

  lemma LastPutReads(c: Config, s: State, recs: Records, seg: Segment)
    requires DiskOk(c.d, s, recs) && seg.WellFormed() && CanAppend(s, |Serialize(c.d, seg)|)
    ensures var node := Node(s.regionID, s.offset, seg.Size(), seg.expiredAt, seg.createdAt, 0);
            ReadNode(c.d, c.decode, AddOffset(Append(s, Serialize(c.d, seg)), seg.Size()).files, node)
            == Answer(c.decode, 0, seg)
  {
    hide Serialize, Log, RegionOk, ReadNode, Answer;
    var e := Entry(s.active, s.offset, seg);
    AppendKeepsFiles(c.d, s, recs, seg);
    NodeOfNewest(s, seg, 0);
    hide DiskOk;
    ReadThroughNode(c.d, c.decode, AddOffset(Append(s, Serialize(c.d, seg)), seg.Size()),
                    recs[s.active := recs[s.active] + [seg]], e, 0);
  }

  lemma PutNamesNothing(c: Config, s: State, seg: Segment)
    requires s.active in s.files && s.offset == |s.files[s.active]| && s.regionID >= 999_999_999
    requires seg.WellFormed() && s.regionID + 1 < 0x1_0000_0000_0000_0000
    requires CanAppend(s, |Serialize(c.d, seg)|) && s.offset + |Serialize(c.d, seg)| >= c.threshold
    ensures var node := Node(s.regionID, s.offset, seg.Size(), seg.expiredAt, seg.createdAt, 0);
            var s1 := Append(s, Serialize(c.d, seg)).(index := SetNode(s.index, c.d.inodeNum(seg.key), node));
            PutSegment(c.d, c.threshold, s, seg.key, seg)
            == (AddOffset(s1, seg.Size()).(regionID := s.regionID + 1), Failed(NoRegionName))
  {
    hide Serialize, CreateActiveRegion, SetNode;
    var node := Node(s.regionID, s.offset, seg.Size(), seg.expiredAt, seg.createdAt, 0);
    var s1 := Append(s, Serialize(c.d, seg)).(index := SetNode(s.index, c.d.inodeNum(seg.key), node));
    NoNextName(AddOffset(s1, seg.Size()));
  }

  // The next id has no name: nothing but the id changes.
  lemma NoNextName(s: State)
    requires s.regionID >= 999_999_999 && s.regionID + 1 < U64
    ensures CreateActiveRegion(s) == (s.(regionID := s.regionID + 1), Failed(NoRegionName))
  {
    GeneratedNames(s.regionID + 1);
    hide GenerateFileName;
  }

  // ---- A crash before the first clean close ----

  lemma PutStep(c: Config, w: World, recs: Records, sp: Spec<uint64>, written: set<Segment>, now: nat, key: seq<byte>,
                seg: Segment)
    returns (s': State, recs': Records)
    requires Inv(c, w, recs, sp, written, now) && Writable(key, seg) && Room(w.s, |Serialize(c.d, seg)|)
    ensures PutSegment(c.d, c.threshold, w.s, key, seg) == (s', Done)
    ensures Inv(c, World(s', w.snapshot), recs', SpecWrite(sp, c.d.inodeNum(key), seg, 0), written + {seg}, now)
  {
    hide Inv, Log, Serialize, RollIfFull, AddOffset, SetNode, SpecWrite, Bounded;
    s', recs' := WriteStep(c, w, recs, sp, written, now, c.d.inodeNum(key), seg, 0);
  }

  // A put without expiry, then one that expires: once it has, the key cannot be read, and a crash brings back the
  // first.
  lemma ExpiredPutRevives(c: Config, w: World, recs: Records, sp: Spec<uint64>, written: set<Segment>, now: nat,
                          key: seq<byte>, a: Segment, b: Segment, later: nat)
    requires Inv(c, w, recs, sp, written, now) && w.snapshot.None?
    requires Writable(key, a) && Writable(key, b) && a.expiredAt == 0 && Expired(b.expiredAt, later) && now <= later
    requires Room(w.s, |Serialize(c.d, a)|)
    ensures var s1 := PutSegment(c.d, c.threshold, w.s, key, a).0;
            Room(s1, |Serialize(c.d, b)|) ==>
              var s2 := PutSegment(c.d, c.threshold, s1, key, b).0;
              CanActivate(s2, c.threshold) ==>
                var s3 := Open(c, s2.files, None, later).0.s;
                && FetchSegment(c.d, c.decode, s2, key, later).1 == Failed(HasExpired)
                && FetchSegment(c.d, c.decode, s3, key, later).1 == Answer(c.decode, 0, a)
  {
    var h := c.d.inodeNum(key);
    assert sp.backup.Scan?;
    hide Inv, PutSegment, Serialize, Room, CanActivate, Open, FetchSegment, Answer, SpecWrite, SpecCrash, Shown,
      Expired, Writable;
    var s1, recs1 := PutStep(c, w, recs, sp, written, now, key, a);
    if Room(s1, |Serialize(c.d, b)|) {
      var sp1 := SpecWrite(sp, h, a, 0);
      var s2, recs2 := PutStep(c, World(s1, None), recs1, sp1, written + {a}, now, key, b);
      var sp2, w2, written2 := SpecWrite(sp1, h, b, 0), World(s2, None), written + {a} + {b};
      if CanActivate(s2, c.threshold) {
        Later(c, w2, recs2, sp2, written2, now, later);
        FetchShows(c, w2, recs2, sp2, written2, later, key);
        var recs3, sp3 := CrashStep(c, w2, recs2, sp2, written2, later);
        FetchShows(c, Open(c, s2.files, None, later).0, recs3, sp3, written2, later, key);
        RevivedSpec(c.decode, sp, h, a, b, sp3, later);
      }
    }
  }

  lemma RevivedSpec(decode: Decoder, sp: Spec<uint64>, h: uint64, a: Segment, b: Segment, sp3: Spec<uint64>, later: nat)
    requires sp.backup.Scan? && a.expiredAt == 0 && Expired(b.expiredAt, later)
    requires SpecCrash(SpecWrite(SpecWrite(sp, h, a, 0), h, b, 0), sp3, later)
    ensures Shown(decode, Get(SpecWrite(SpecWrite(sp, h, a, 0), h, b, 0).live, h), later) == Failed(HasExpired)
    ensures Shown(decode, Get(sp3.live, h), later) == Answer(decode, 0, a)
  {
    hide Latest, Answer;
    var segs := PutsAt(sp.backup.puts, h);
    LatestAppend(segs, a, later);
    LatestAppend(segs + [a], b, later);
    assert PutsAt(SpecWrite(SpecWrite(sp, h, a, 0), h, b, 0).backup.puts, h) == segs + [a] + [b];
  }

  // ---- A crash after a clean close ----

  // What a reply tells of the key, but for the version.
  function Content(reply: Reply): Option<Segment> {
    match reply
    case Fetched(_, seg) => Some(seg)
    case _ => None
  }

  // With a snapshot there, a read after a crash answers from the cells it holds.
  lemma SnapshotShows(c: Config, w: World, recs: Records, sp: Spec<uint64>, written: set<Segment>, now: nat,
                      key: seq<byte>)
    requires Inv(c, w, recs, sp, written, now) && sp.backup.Snapshot? && CanActivate(w.s, c.threshold)
    ensures var w' := Open(c, w.s.files, w.snapshot, now).0;
            FetchSegment(c.d, c.decode, w'.s, key, now).1
            == Shown(c.decode, Get(sp.backup.cells, c.d.inodeNum(key)), now)
  {
    hide Inv, Open, CanActivate, FetchSegment, Shown;
    var recs', sp' := CrashStep(c, w, recs, sp, written, now);
    FetchShows(c, Open(c, w.s.files, w.snapshot, now).0, recs', sp', written, now, key);
  }

  ghost predicate NoClose(evs: seq<Event>) {
    forall i :: 0 <= i < |evs| ==> !evs[i].op.Reopen?
  }

  // Without another clean close the snapshot stays, and its cells but for those that compaction loses.
  lemma {:induction false} SnapshotKept(c: Config, w: World, recs: Records, sp: Spec<uint64>, written: set<Segment>,
                                        now: nat, evs: seq<Event>)
    returns (recs': Records, sp': Spec<uint64>, written': set<Segment>)
    requires Inv(c, w, recs, sp, written, now) && LegalRun(c, w, now, evs) && StampsServe(c.d, written, evs)
    requires sp.backup.Snapshot? && NoClose(evs)
    ensures Inv(c, Run(c, w, evs).0, recs', sp', written', EndTime(now, evs)) && now <= EndTime(now, evs)
    ensures Run(c, w, evs).0.snapshot == w.snapshot
    ensures sp'.backup.Snapshot? && MayLose(sp.backup.cells, sp'.backup.cells)
    decreases |evs|
  {
    hide Inv, Step, Legal, StampsServe, RemovedBy, MayLose;
    if evs == [] {
      recs', sp', written' := recs, sp, written;
      LosesNothing(sp.backup.cells);
    } else {
      InvIsOnDisk(c, w, recs, sp, written, now);
      LegalFirst(c, w, recs, now, evs);
      StampsFirst(c.d, written, evs);
      hide DiskOk, LegalRun;
      assert !evs[0].op.Reopen?;
      var recs1, sp1 := StepRefines(c, w, recs, sp, written, now, evs[0]);
      BackupStays(c, RemovedBy(w, evs[0]), sp, evs[0], sp1, Step(c, w, evs[0]).1);
      FileStays(c, w, evs[0]);
      hide SpecStep;
      assert NoClose(evs[1..]);
      recs', sp', written' :=
        SnapshotKept(c, Step(c, w, evs[0]).0, recs1, sp1, written + PutBy(evs[0]), evs[0].now, evs[1..]);
      LosesMore(sp.backup.cells, sp1.backup.cells, sp'.backup.cells);
    }
  }

  lemma LosesNothing(m: TimedMap)
    ensures MayLose(m, m)
  {
  }

  lemma LosesMore(a: TimedMap, b: TimedMap, c: TimedMap)
    requires MayLose(a, b) && MayLose(b, c)
    ensures MayLose(a, c)
  {
  }

  lemma BackupStays(c: Config, removed: set<uint64>, sp: Spec<uint64>, ev: Event, sp': Spec<uint64>, reply: Reply)
    requires SpecStep(c, removed, sp, ev, sp', reply) && sp.backup.Snapshot? && !ev.op.Reopen?
    ensures sp'.backup.Snapshot? && MayLose(sp.backup.cells, sp'.backup.cells)
  {
    hide LoseRegions, MayHeal, MayLose;
    LosesNothing(sp.backup.cells);
    LosingMay(sp.backup.cells, sp.backup.homes, removed);
  }

  lemma FileStays(c: Config, w: World, ev: Event)
    requires !ev.op.Reopen?
    ensures Step(c, w, ev).0.snapshot == w.snapshot
  {
    hide PutSegment, DeleteSegment, UpdateSegmentWithCAS, FetchSegment, OpenFS;
  }

  // The index names a region for the key that is not there, and the key has not expired.
  predicate EntryGone(ix: Shards, h: uint64, s: State, now: nat) {
    var entry := Lookup(ix, h);
    entry.Some? && !Expired(entry.value.expiredAt, now) && entry.value.regionID !in s.files
  }

  // Close and open, then any legal run without another clean close, then a crash. Every read then gives what the state
  // at the close would give at that time, at version 0, unless compaction has removed the region the key was in at the
  // close: the log written since is not looked at.
  lemma {:induction false} StaleSnapshotReads(c: Config, w: World, recs: Records, sp: Spec<uint64>,
                                              written: set<Segment>, now: uint64, items: seq<Item>, evs: seq<Event>,
                                              later: nat, key: seq<byte>)
    requires Inv(c, w, recs, sp, written, now) && CanActivate(w.s, c.threshold) && Enumerates(items, w.s.index)
    requires var w1 := Step(c, w, Event(now, Reopen(items))).0;
             LegalRun(c, w1, now, evs) && NoClose(evs) && CanActivate(Run(c, w1, evs).0.s, c.threshold)
    requires StampsServe(c.d, written, evs) && EndTime(now, evs) <= later
    ensures var w2 := Run(c, Step(c, w, Event(now, Reopen(items))).0, evs).0;
            var w3 := Open(c, w2.s.files, w2.snapshot, later).0;
            FetchSegment(c.d, c.decode, w3.s, key, later).1
            == if EntryGone(w.s.index, c.d.inodeNum(key), w2.s, later) then Failed(RegionMissing)
               else AtVersionZero(FetchSegment(c.d, c.decode, w.s, key, later).1)
  {
    var w2, recs2, sp2, written2 := StaleRun(c, w, recs, sp, written, now, items, evs, later);
    hide Inv, Open, CanActivate, FetchSegment, Shown, Run, Step, ResetMap, LegalRun, Enumerates, NoClose, MayLose,
      StampsServe, LoadFrom, ResetVersions, SnapshotBytes;
    var h := c.d.inodeNum(key);
    SnapshotShows(c, w2, recs2, sp2, written2, later, key);
    RemovedRegionForgets(c, w2, recs2, sp2, written2, later, key);
    ResetKeepsPlace(w.s.index, h);
    Later(c, w, recs, sp, written, now, later);
    FetchShows(c, w, recs, sp, written, later, key);
    ShownReset(c.decode, sp.live, h, later);
    ShownLost(c.decode, ResetMap(sp.live), sp2.backup.cells, h, later);
  }

  lemma ResetKeepsPlace(ix: Shards, h: uint64)
    ensures Lookup(ResetVersions(ix), h).Some? <==> Lookup(ix, h).Some?
    ensures Lookup(ix, h).Some? ==>
              var a, b := Lookup(ResetVersions(ix), h).value, Lookup(ix, h).value;
              a.regionID == b.regionID && a.expiredAt == b.expiredAt
  {
  }

  // A saved cell reads the same unless it is lost.
  lemma ShownLost(decode: Decoder, m: TimedMap, m': TimedMap, h: uint64, now: nat)
    requires MayLose(m, m')
    ensures Shown(decode, Get(m', h), now) == Failed(RegionMissing)
            || Shown(decode, Get(m', h), now) == Shown(decode, Get(m, h), now)
  {
  }

  lemma StaleRun(c: Config, w: World, recs: Records, sp: Spec<uint64>, written: set<Segment>, now: uint64,
                 items: seq<Item>, evs: seq<Event>, later: nat)
    returns (w2: World, recs2: Records, sp2: Spec<uint64>, written2: set<Segment>)
    requires Inv(c, w, recs, sp, written, now) && CanActivate(w.s, c.threshold) && Enumerates(items, w.s.index)
    requires LegalRun(c, Step(c, w, Event(now, Reopen(items))).0, now, evs) && NoClose(evs)
    requires StampsServe(c.d, written, evs) && EndTime(now, evs) <= later
    ensures w2 == Run(c, Step(c, w, Event(now, Reopen(items))).0, evs).0
    ensures Inv(c, w2, recs2, sp2, written2, later)
    ensures sp2.backup.Snapshot? && MayLose(ResetMap(sp.live), sp2.backup.cells) && now <= later
    ensures w2.snapshot == Some(SnapshotBytes(c.d, items))
    ensures LoadFrom(c.d, SnapshotBytes(c.d, items), 4, EMPTY) == Some(ResetVersions(w.s.index))
  {
    hide Inv, Open, CanActivate, Run, ResetMap, LegalRun, Enumerates, NoClose, SnapshotBytes, Bounded, EndTime,
      StampsServe, MayLose, HomesOf, LoadFrom, ResetVersions, Sharded;
    var w1 := Step(c, w, Event(now, Reopen(items))).0;
    var recs1 := ReopenStep(c, w, recs, sp, written, now, items);
    InvIsSharded(c, w, recs, sp, written, now);
    SnapshotRoundTrip(c.d, items, w.s.index);
    OpenKeepsFile(c, w, Event(now, Reopen(items)));
    hide Step;
    recs2, sp2, written2 := SnapshotKept(c, w1, recs1, SpecClose(sp, HomesOf(items)), written, now, evs);
    w2 := Run(c, w1, evs).0;
    Later(c, w2, recs2, sp2, written2, EndTime(now, evs), later);
  }

  lemma InvIsSharded(c: Config, w: World, recs: Records, sp: Spec<uint64>, written: set<Segment>, now: nat)
    requires Inv(c, w, recs, sp, written, now)
    ensures Sharded(w.s.index)
  {
    InvIsSane(c, w, recs, sp, written, now);
  }

  lemma OpenKeepsFile(c: Config, w: World, ev: Event)
    requires ev.op.Reopen?
    ensures Step(c, w, ev).0.snapshot == Some(SnapshotBytes(c.d, ev.op.items))
  {
    hide OpenFS, SnapshotBytes;
  }

  // The segment of a key that can be read.
  function Visible(m: TimedMap, h: uint64, now: nat): Option<Segment> {
    if h in m && m[h].Cell? && !Expired(m[h].seg.expiredAt, now) then Some(m[h].seg) else None
  }

  lemma VisibleContent(m: TimedMap, h: uint64, now: nat)
    ensures Content(Shown(IDENTITY, Get(m, h), now)) == Visible(m, h, now)
  {
  }

  // So, reading stored values as they are, a read after the crash equals the read before it exactly when the segment
  // that the key had at the close, none if compaction has removed its region since, is the one it has now, or neither
  // can be read.
  lemma StaleSnapshotIff(c: Config, w: World, recs: Records, sp: Spec<uint64>, written: set<Segment>, now: uint64,
                         items: seq<Item>, evs: seq<Event>, later: nat, key: seq<byte>)
    returns (recs2: Records, sp2: Spec<uint64>, written2: set<Segment>)
    requires c.decode == IDENTITY
    requires Inv(c, w, recs, sp, written, now) && CanActivate(w.s, c.threshold) && Enumerates(items, w.s.index)
    requires var w1 := Step(c, w, Event(now, Reopen(items))).0;
             LegalRun(c, w1, now, evs) && NoClose(evs) && CanActivate(Run(c, w1, evs).0.s, c.threshold)
    requires StampsServe(c.d, written, evs) && EndTime(now, evs) <= later
    ensures var w2 := Run(c, Step(c, w, Event(now, Reopen(items))).0, evs).0;
            var w3 := Open(c, w2.s.files, w2.snapshot, later).0;
            var h := c.d.inodeNum(key);
            var saved := if EntryGone(w.s.index, h, w2.s, later) then None else Visible(sp.live, h, later);
            && Inv(c, w2, recs2, sp2, written2, later)
            && (Content(FetchSegment(c.d, c.decode, w3.s, key, later).1)
                == Content(FetchSegment(c.d, c.decode, w2.s, key, later).1)
                <==> saved == Visible(sp2.live, h, later))
  {
    var h := c.d.inodeNum(key);
    StaleSnapshotReads(c, w, recs, sp, written, now, items, evs, later, key);
    var w2;
    w2, recs2, sp2, written2 := StaleRun(c, w, recs, sp, written, now, items, evs, later);
    hide Inv, Open, CanActivate, FetchSegment, Shown, Run, Step, ResetMap, LegalRun, Enumerates, NoClose, MayLose,
      Visible, Content, StampsServe, EntryGone, AtVersionZero, LoadFrom, SnapshotBytes, ResetVersions;
    Later(c, w, recs, sp, written, now, later);
    FetchShows(c, w, recs, sp, written, later, key);
    FetchShows(c, w2, recs2, sp2, written2, later, key);
    VisibleContent(sp.live, h, later);
    VisibleContent(sp2.live, h, later);
    ContentReset(FetchSegment(c.d, c.decode, w.s, key, later).1);
  }

  lemma ContentReset(reply: Reply)
    ensures Content(AtVersionZero(reply)) == Content(reply)
    ensures Content(Failed(RegionMissing)) == None
  {
  }

  // For instance: a key put for the first time since the close is not found after a crash, though its record is in the
  // log.
  lemma StaleSnapshotForgets(c: Config, w: World, recs: Records, sp: Spec<uint64>, written: set<Segment>, now: uint64,
                             items: seq<Item>, key: seq<byte>, seg: Segment)
    requires Inv(c, w, recs, sp, written, now) && CanActivate(w.s, c.threshold) && Enumerates(items, w.s.index)
    requires c.d.inodeNum(key) !in sp.live && Writable(key, seg) && !Expired(seg.expiredAt, now)
    ensures var w1 := Step(c, w, Event(now, Reopen(items))).0;
            Room(w1.s, |Serialize(c.d, seg)|) ==>
              var w2 := Step(c, w1, Event(now, Put(key, seg))).0;
              CanActivate(w2.s, c.threshold) ==>
                var w3 := Step(c, w2, Event(now, Crash)).0;
                && FetchSegment(c.d, c.decode, w2.s, key, now).1 == Answer(c.decode, 0, seg)
                && FetchSegment(c.d, c.decode, w3.s, key, now).1 == Failed(NotFound)
  {
    var h := c.d.inodeNum(key);
    hide Inv, PutSegment, Serialize, Room, CanActivate, Open, FetchSegment, Answer, Enumerates, SnapshotBytes, Bounded,
      HomesOf;
    var w1 := Step(c, w, Event(now, Reopen(items))).0;
    var recs1 := ReopenStep(c, w, recs, sp, written, now, items);
    var sp1 := SpecClose(sp, HomesOf(items));
    if Room(w1.s, |Serialize(c.d, seg)|) {
      var s2, recs2 := PutStep(c, w1, recs1, sp1, written, now, key, seg);
      var sp2, w2 := SpecWrite(sp1, h, seg, 0), World(s2, w1.snapshot);
      assert w2 == Step(c, w1, Event(now, Put(key, seg))).0;
      FetchShows(c, w2, recs2, sp2, written + {seg}, now, key);
      if CanActivate(s2, c.threshold) {
        SnapshotShows(c, w2, recs2, sp2, written + {seg}, now, key);
      }
    }
  }

  // Compaction removes regions the snapshot still names: after a crash a key fails with a missing region exactly when
  // its unexpired entry in the snapshot names a region that is not there any more.
  lemma RemovedRegionForgets(c: Config, w: World, recs: Records, sp: Spec<uint64>, written: set<Segment>, now: nat,
                             key: seq<byte>)
    requires Inv(c, w, recs, sp, written, now) && sp.backup.Snapshot? && CanActivate(w.s, c.threshold)
    ensures w.snapshot.Some? && LoadFrom(c.d, w.snapshot.value, 4, EMPTY).Some?
    ensures var entry := Lookup(LoadFrom(c.d, w.snapshot.value, 4, EMPTY).value, c.d.inodeNum(key));
            var w' := Open(c, w.s.files, w.snapshot, now).0;
            FetchSegment(c.d, c.decode, w'.s, key, now).1 == Failed(RegionMissing)
            <==> entry.Some? && !Expired(entry.value.expiredAt, now) && entry.value.regionID !in w.s.files
  {
    var h := c.d.inodeNum(key);
    SnapshotShows(c, w, recs, sp, written, now, key);
    SnapshotEntry(c, w, recs, sp, written, now, h);
    hide Inv, Open, FetchSegment, LoadFrom, CanActivate, Shown;
    ShownMissing(c.decode, Get(sp.backup.cells, h), now);
  }

  lemma ShownMissing(decode: Decoder, cell: Option<Cell>, now: nat)
    ensures Shown(decode, cell, now) == Failed(RegionMissing)
            <==> cell.Some? && cell.value.Lost? && !Expired(cell.value.seg.expiredAt, now)
  {
  }

  // An unexpired saved cell is lost exactly when the snapshot names a region for it that is not there.
  lemma SnapshotEntry(c: Config, w: World, recs: Records, sp: Spec<uint64>, written: set<Segment>, now: nat, h: uint64)
    requires Inv(c, w, recs, sp, written, now) && sp.backup.Snapshot?
    ensures w.snapshot.Some? && LoadFrom(c.d, w.snapshot.value, 4, EMPTY).Some?
    ensures var entry := Lookup(LoadFrom(c.d, w.snapshot.value, 4, EMPTY).value, h);
            var cell := Get(sp.backup.cells, h);
            && (cell.Some? <==> entry.Some?)
            && (cell.Some? ==> cell.value.seg.expiredAt == entry.value.expiredAt)
            && (cell.Some? && !Expired(entry.value.expiredAt, now) ==>
                  (cell.value.Lost? <==> entry.value.regionID !in w.s.files))
  {
    var ix, cells := LoadFrom(c.d, w.snapshot.value, 4, EMPTY).value, sp.backup.cells;
    SaneAt(c.d, ix, recs, w.s.regionID, written, cells, now, h);
    assert DiskOk(c.d, w.s, recs) && w.s.files.Keys == recs.Keys;
    hide Inv, Log, LoadFrom, SaneIndex, DiskOk, Recorded;
    if h in cells && cells[h].Cell? && !Expired(cells[h].seg.expiredAt, now) {
      var e :| e in Log(c.d, recs) && Lookup(ix, h).value == NodeOf(e, Lookup(ix, h).value.mvcc)
               && e.seg == cells[h].seg;
      EntryRegion(c.d, w.s, recs, e);
    }
  }
}
