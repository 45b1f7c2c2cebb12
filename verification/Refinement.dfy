// Whole runs of the store against a plain timed map and what a crash would bring back.

module Refinement {
  import opened Wrappers
  import opened Bytes
  import opened Segments
  import opened RegionLog
  import opened Index
  import opened Store
  import opened StoreInvariant
  import opened Compaction
  import opened CompactionMeaning
  import opened Recovery
  import opened Reopen
  import opened Snapshots

  // Reopen: a clean close, which writes the index in the order of items, and an opening. Crash: the process ends
  // without closing and another one opens the store.
  datatype Op =
    | Put(key: seq<byte>, seg: Segment)
    | Delete(key: seq<byte>)
    | Cas(key: seq<byte>, expected: uint64, seg: Segment)
    | Fetch(key: seq<byte>)
    | Compact
    | Reopen(items: seq<Item>)
    | Crash

  datatype Event = Event(now: uint64, op: Op)

  // The digests of a store, the decoder its readers use and its region threshold. Opening decodes with no codec: a
  // process installs its codecs once the store is open (cmd/process.go:132-149).
  datatype Config = Config(d: Digests, decode: Decoder, threshold: nat)

  // ---- The store ----

  // snapshot: the file index.wdb, which nothing ever removes.
  datatype World = World(s: State, snapshot: Option<seq<byte>>)

  function Open(c: Config, files: map<uint64, seq<byte>>, snapshot: Option<seq<byte>>, now: nat): (World, Reply) {
    var (s, reply) := OpenFS(c.d, IDENTITY, c.threshold, files, snapshot, now);
    (World(s, snapshot), reply)
  }

  function Within(w: World, step: (State, Reply)): (World, Reply) {
    (w.(s := step.0), step.1)
  }

  function Step(c: Config, w: World, ev: Event): (World, Reply) {
    match ev.op
    case Put(key, seg) => Within(w, PutSegment(c.d, c.threshold, w.s, key, seg))
    case Delete(key) => Within(w, DeleteSegment(c.d, w.s, key, ev.now))
    case Cas(key, expected, seg) => Within(w, UpdateSegmentWithCAS(c.d, c.threshold, w.s, key, expected, seg))
    case Fetch(key) => Within(w, FetchSegment(c.d, c.decode, w.s, key, ev.now))
    case Compact => Within(w, CleanupDirtyRegion(c.d, c.threshold, w.s, ev.now))
    case Reopen(items) => Open(c, w.s.files, Some(SnapshotBytes(c.d, items)), ev.now)
    case Crash => Open(c, w.s.files, w.snapshot, ev.now)
  }

  function Run(c: Config, w: World, evs: seq<Event>): (r: (World, seq<Reply>))
    ensures |r.1| == |evs|
    decreases |evs|
  {
    if evs == [] then (w, []) else
      var (w1, reply) := Step(c, w, evs[0]);
      var (w2, replies) := Run(c, w1, evs[1..]);
      (w2, [reply] + replies)
  }

  // ---- The plain timed map ----

  // What a crash brings back: until the first clean close the puts of each key since its last delete, from then on the
  // cells of the last clean close. homes has the region each of them was in then.
  datatype Backup<K> = Scan(puts: map<K, seq<Segment>>) | Snapshot(cells: map<K, Cell>, homes: map<K, uint64>)

  datatype Spec<K> = Spec(live: map<K, Cell>, backup: Backup<K>)

  function Noted<K>(b: Backup<K>, k: K, seg: Segment): Backup<K> {
    match b
    case Scan(puts) => Scan(puts[k := PutsAt(puts, k) + [seg]])
    case Snapshot(_, _) => b
  }

  function Erased<K>(b: Backup<K>, k: K): Backup<K> {
    match b
    case Scan(puts) => Scan(puts - {k})
    case Snapshot(_, _) => b
  }

  function SpecWrite<K>(sp: Spec<K>, k: K, seg: Segment, version: uint64): Spec<K> {
    Spec(sp.live[k := Cell(seg, version)], Noted(sp.backup, k, seg))
  }

  function SpecCas<K>(sp: Spec<K>, k: K, expected: uint64, seg: Segment): (Spec<K>, Reply) {
    if k !in sp.live then (sp, Failed(NotFound))
    else if sp.live[k].version != expected then (sp, Failed(VersionConflict))
    else (SpecWrite(sp, k, seg, (expected + 1) % U64), Done)
  }

  // Reading an expired key also forgets it.
  function SpecFetch<K>(decode: Decoder, sp: Spec<K>, k: K, now: nat): (Spec<K>, Reply) {
    (if k in sp.live && Expired(sp.live[k].seg.expiredAt, now) then sp.(live := sp.live - {k}) else sp,
     Shown(decode, Get(sp.live, k), now))
  }

  function SpecClose<K>(sp: Spec<K>, homes: map<K, uint64>): Spec<K> {
    Spec(ResetMap(sp.live), Snapshot(ResetMap(sp.live), homes))
  }

  // removed: the regions that compaction removes.
  ghost predicate SpecCompact<K(!new)>(sp: Spec<K>, sp': Spec<K>, removed: set<uint64>, now: nat) {
    && (removed == {} ==> sp' == sp)
    && match sp.backup
       case Scan(puts) => sp'.live == sp.live && sp'.backup.Scan? && ScanForgets(puts, sp'.backup.puts, now)
       case Snapshot(cells, homes) =>
         MayHeal(sp.live, sp'.live) && sp'.backup == Snapshot(LoseRegions(cells, homes, removed), homes)
  }

  ghost predicate SpecCrash<K(!new)>(sp: Spec<K>, sp': Spec<K>, now: nat) {
    && sp'.backup == sp.backup
    && match sp.backup
       case Scan(puts) => sp'.live == ScanMap(puts, now) && KeepsReadable(sp.live, sp'.live, now)
       case Snapshot(cells, _) => sp'.live == cells
  }

  // The map is indexed by whatever name gives for a key: its inode number, or the key itself. homes: the regions a
  // clean close writes down. removed: the regions a compaction removes.
  ghost predicate SpecStepOn<K(!new)>(name: seq<byte> -> K, decode: Decoder, homes: map<K, uint64>,
                                      removed: set<uint64>, sp: Spec<K>, ev: Event, sp': Spec<K>, reply: Reply)
  {
    match ev.op
    case Put(key, seg) => sp' == SpecWrite(sp, name(key), seg, 0) && reply == Done
    case Delete(key) => sp' == Spec(sp.live - {name(key)}, Erased(sp.backup, name(key))) && reply == Done
    case Cas(key, expected, seg) => (sp', reply) == SpecCas(sp, name(key), expected, seg)
    case Fetch(key) => (sp', reply) == SpecFetch(decode, sp, name(key), ev.now)
    case Compact => SpecCompact(sp, sp', removed, ev.now) && reply == Done
    case Reopen(_) => sp' == SpecClose(sp, homes) && reply == Done
    case Crash => SpecCrash(sp, sp', ev.now) && reply == Done
  }

  function HomesOf(items: seq<Item>): map<uint64, uint64> {
    if items == [] then map[] else
      var item := items[|items| - 1];
      HomesOf(items[..|items| - 1])[item.0 := item.1.regionID]
  }

  function HomesAt(ev: Event): map<uint64, uint64> {
    if ev.op.Reopen? then HomesOf(ev.op.items) else map[]
  }

  // The four lowest regions, if there are five.
  function RemovedBy(w: World, ev: Event): set<uint64> {
    if ev.op.Compact? then VictimSet(w.s.files.Keys) else {}
  }

  ghost predicate SpecStep(c: Config, removed: set<uint64>, sp: Spec<uint64>, ev: Event, sp': Spec<uint64>,
                           reply: Reply)
  {
    SpecStepOn(c.d.inodeNum, c.decode, HomesAt(ev), removed, sp, ev, sp', reply)
  }

  // ---- The invariant ----

  ghost predicate SnapshotOk(d: Digests, snapshot: Option<seq<byte>>, recs: Records, top: uint64, written: set<Segment>,
                             cells: TimedMap, homes: map<uint64, uint64>, now: nat)
  {
    && snapshot.Some? && HasHeader(snapshot.value) && LoadFrom(d, snapshot.value, 4, EMPTY).Some?
    && SaneIndex(d, LoadFrom(d, snapshot.value, 4, EMPTY).value, recs, top, written, cells, now)
    && NamedBy(LoadFrom(d, snapshot.value, 4, EMPTY).value, homes)
  }

  // Without a snapshot the index agrees with the log; with one, index and snapshot are sane.
  ghost predicate Agrees(d: Digests, w: World, recs: Records, sp: Spec<uint64>, written: set<Segment>, now: nat) {
    match sp.backup
    case Scan(puts) =>
      && w.snapshot.None? && IndexOk(d, w.s.index, Log(d, recs), sp.live, now) && puts == PutsOf(d, Log(d, recs))
    case Snapshot(cells, homes) =>
      && SaneIndex(d, w.s.index, recs, w.s.regionID, written, sp.live, now)
      && SnapshotOk(d, w.snapshot, recs, w.s.regionID, written, cells, homes, now)
  }

  ghost predicate Inv(c: Config, w: World, recs: Records, sp: Spec<uint64>, written: set<Segment>, now: nat) {
    && DiskOk(c.d, w.s, recs) && Recorded(Log(c.d, recs), written)
    && Agrees(c.d, w, recs, sp, written, now)
  }

  // ---- Legal events ----

  // What callers and the environment must provide: segments as NewSegment builds them, and room on disk.
  ghost predicate Legal(c: Config, w: World, recs: Records, ev: Event) {
    match ev.op
    case Put(key, seg) => Writable(key, seg) && Room(w.s, |Serialize(c.d, seg)|)
    case Delete(key) => 30 + |key| < U32 && Room(w.s, 30 + |key|)
    case Cas(key, _, seg) => Writable(key, seg) && Room(w.s, |Serialize(c.d, seg)|)
    case Fetch(_) => true
    case Compact => |recs| >= 5 ==> Budget(c.d, w.s, VictimLog(c.d, recs))
    case Reopen(items) => CanActivate(w.s, c.threshold) && Enumerates(items, w.s.index)
    case Crash => CanActivate(w.s, c.threshold)
  }

  // The segments an event may put.
  function PutBy(ev: Event): set<Segment> {
    match ev.op
    case Put(_, seg) => {seg}
    case Cas(_, _, seg) => {seg}
    case _ => {}
  }

  // ---- One event ----

  lemma WriteIndex(d: Digests, ix: Shards, log: seq<Entry>, m: TimedMap, now: nat, e: Entry, v: uint64)
    requires IndexOk(d, ix, log, m, now) && !e.seg.IsTombstone()
    ensures IndexOk(d, SetNode(ix, InumOf(d, e), NodeOf(e, v)), log + [e], m[InumOf(d, e) := Cell(e.seg, v)], now)
  {
    var h := InumOf(d, e);
    var m' := m[h := Cell(e.seg, v)];
    assert Get(m', h) == Some(Cell(e.seg, v));
    IndexAppend(d, ix, log, m, now, e, h, SetNode(ix, h, NodeOf(e, v)), m');
  }

  lemma DeleteIndex(d: Digests, ix: Shards, log: seq<Entry>, m: TimedMap, now: nat, e: Entry)
    requires IndexOk(d, ix, log, m, now) && e.seg.IsTombstone()
    ensures IndexOk(d, DeleteNode(ix, InumOf(d, e)), log + [e], m - {InumOf(d, e)}, now)
  {
    var h := InumOf(d, e);
    IndexAppend(d, ix, log, m, now, e, h, DeleteNode(ix, h), m - {h});
  }

  lemma RecordedAppend(log: seq<Entry>, written: set<Segment>, e: Entry)
    requires Recorded(log, written)
    ensures e.seg.IsTombstone() ==> Recorded(log + [e], written)
    ensures Recorded(log + [e], written + {e.seg})
  {
  }

  // A put record appended for key h, at version v: what the index and the backup say of it.
  lemma WriteAgrees(d: Digests, w: World, recs: Records, sp: Spec<uint64>, written: set<Segment>, now: nat, e: Entry,
                    v: uint64, s': State, recs': Records)
    requires Agrees(d, w, recs, sp, written, now) && !e.seg.IsTombstone()
    requires Log(d, recs') == Log(d, recs) + [e] && s'.index == SetNode(w.s.index, InumOf(d, e), NodeOf(e, v))
    requires w.s.regionID <= s'.regionID && forall r :: r in recs' ==> r in recs || r > w.s.regionID
    ensures Agrees(d, World(s', w.snapshot), recs', SpecWrite(sp, InumOf(d, e), e.seg, v), written + {e.seg}, now)
  {
    hide Log, SetNode, IndexOk, SaneIndex, NodeOf, PutsOf, PutsAt, LoadFrom;
    match sp.backup
    case Scan(_) =>
      WriteIndex(d, w.s.index, Log(d, recs), sp.live, now, e, v);
      PutsOfAppend(d, Log(d, recs), e);
    case Snapshot(cells, _) =>
      var top, top', written' := w.s.regionID, s'.regionID, written + {e.seg};
      SaneGrows(d, w.s.index, recs, recs', top, top', written, written', sp.live, now);
      SaneSet(d, w.s.index, recs', top', written', sp.live, now, e, v);
      SaneGrows(d, LoadFrom(d, w.snapshot.value, 4, EMPTY).value, recs, recs', top, top', written, written', cells,
                now);
  }

  lemma NodeOfNewest(s: State, seg: Segment, v: uint64)
    ensures Node(s.regionID, s.offset, seg.Size(), seg.expiredAt, seg.createdAt, v)
            == NodeOf(Entry(s.regionID, s.offset, seg), v)
  {
  }

  lemma WriteStep(c: Config, w: World, recs: Records, sp: Spec<uint64>, written: set<Segment>, now: nat, h: uint64,
                  seg: Segment, v: uint64)
    returns (s': State, recs': Records)
    requires Inv(c, w, recs, sp, written, now) && Room(w.s, |Serialize(c.d, seg)|)
    requires seg.WellFormed() && !seg.IsTombstone() && c.d.inodeNum(seg.key) == h
    ensures var node := Node(w.s.regionID, w.s.offset, seg.Size(), seg.expiredAt, seg.createdAt, v);
            var appended := Append(w.s, Serialize(c.d, seg)).(index := SetNode(w.s.index, h, node));
            (s', Done) == RollIfFull(AddOffset(appended, seg.Size()), c.threshold)
    ensures Inv(c, World(s', w.snapshot), recs', SpecWrite(sp, h, seg, v), written + {seg}, now)
    ensures Log(c.d, recs') == Log(c.d, recs) + [Entry(w.s.active, w.s.offset, seg)]
    ensures Bounded(c.d, c.threshold, w.s, recs) ==> Bounded(c.d, c.threshold, s', recs')
  {
    var s := w.s;
    var e := Entry(s.active, s.offset, seg);
    var node := Node(s.regionID, s.offset, seg.Size(), seg.expiredAt, seg.createdAt, v);
    assert s.active == s.regionID;
    hide Bounded, Log, RollIfFull, Serialize, Recorded, Agrees, SetNode, AddOffset, Append, DiskOk, Room, NodeOf,
      SpecWrite;
    NodeOfNewest(s, seg, v);
    s', recs' := AppendAndRoll(c.d, c.threshold, s, recs, seg, SetNode(s.index, h, node));
    RecordedAppend(Log(c.d, recs), written, e);
    WriteAgrees(c.d, w, recs, sp, written, now, e, v, s', recs');
  }

  lemma DeleteAgrees(d: Digests, w: World, recs: Records, sp: Spec<uint64>, written: set<Segment>, now: nat, e: Entry,
                     s': State, recs': Records)
    requires Agrees(d, w, recs, sp, written, now) && e.seg.IsTombstone()
    requires Log(d, recs') == Log(d, recs) + [e] && s'.index == DeleteNode(w.s.index, InumOf(d, e))
    requires w.s.regionID == s'.regionID && recs'.Keys == recs.Keys
    ensures var h := InumOf(d, e);
            Agrees(d, World(s', w.snapshot), recs', Spec(sp.live - {h}, Erased(sp.backup, h)), written, now)
  {
    hide Log, DeleteNode, IndexOk, SaneIndex, PutsOf, PutsAt, LoadFrom;
    var h := InumOf(d, e);
    match sp.backup
    case Scan(_) =>
      DeleteIndex(d, w.s.index, Log(d, recs), sp.live, now, e);
      PutsOfAppend(d, Log(d, recs), e);
    case Snapshot(cells, _) =>
      var top := s'.regionID;
      SaneGrows(d, w.s.index, recs, recs', top, top, written, written, sp.live, now);
      SaneDelete(d, w.s.index, recs', top, written, sp.live, now, h);
      SaneGrows(d, LoadFrom(d, w.snapshot.value, 4, EMPTY).value, recs, recs', top, top, written, written, cells, now);
  }

  lemma DeleteLogged(d: Digests, s: State, recs: Records, key: seq<byte>, now: uint64)
    requires DiskOk(d, s, recs) && 30 + |key| < U32 && Room(s, 30 + |key|)
    ensures var (s', reply) := DeleteSegment(d, s, key, now);
            var seg := NewTombstoneSegment(key, now);
            var recs' := recs[s.active := recs[s.active] + [seg]];
            && reply == Done && DiskOk(d, s', recs') && s'.regionID == s.regionID && recs'.Keys == recs.Keys
            && Log(d, recs') == Log(d, recs) + [Entry(s.active, s.offset, seg)]
            && s'.index == DeleteNode(s.index, d.inodeNum(key))
  {
    hide Log, Serialize, RegionOk, DeleteNode;
    AppendKeepsFiles(d, s, recs, NewTombstoneSegment(key, now));
  }

  lemma DeleteStep(c: Config, w: World, recs: Records, sp: Spec<uint64>, written: set<Segment>, now: uint64,
                   key: seq<byte>)
    returns (recs': Records)
    requires Inv(c, w, recs, sp, written, now) && 30 + |key| < U32 && Room(w.s, 30 + |key|)
    ensures var (s', reply) := DeleteSegment(c.d, w.s, key, now);
            var h := c.d.inodeNum(key);
            reply == Done
            && Inv(c, World(s', w.snapshot), recs', Spec(sp.live - {h}, Erased(sp.backup, h)), written, now)
  {
    var s, seg := w.s, NewTombstoneSegment(key, now);
    var e := Entry(s.active, s.offset, seg);
    recs' := recs[s.active := recs[s.active] + [seg]];
    hide Log, DiskOk, Agrees, DeleteNode, DeleteSegment, Recorded, Erased;
    DeleteLogged(c.d, s, recs, key, now);
    RecordedAppend(Log(c.d, recs), written, e);
    DeleteAgrees(c.d, w, recs, sp, written, now, e, DeleteSegment(c.d, s, key, now).0, recs');
  }

  // A read answers from the map, and forgets an expired key.
  lemma FetchStep(c: Config, w: World, recs: Records, sp: Spec<uint64>, written: set<Segment>, now: nat, key: seq<byte>)
    requires Inv(c, w, recs, sp, written, now)
    ensures var (s', reply) := FetchSegment(c.d, c.decode, w.s, key, now);
            var (sp', reply') := SpecFetch(c.decode, sp, c.d.inodeNum(key), now);
            reply == reply' && Inv(c, World(s', w.snapshot), recs, sp', written, now)
            && (Bounded(c.d, c.threshold, w.s, recs) ==> Bounded(c.d, c.threshold, s', recs))
  {
    var h := c.d.inodeNum(key);
    match sp.backup
    case Scan(_) =>
      FetchAnswers(c.d, c.decode, w.s, recs, sp.live, now, key);
      ForgetRight(c.d, w.s, recs, sp.live, now, h);
      hide Log, RegionOk, Recorded, IndexOk, PutsOf, Shown, DeleteNode, ReadNode;
    case Snapshot(_, _) =>
      SaneShown(c.d, c.decode, w.s, recs, written, sp.live, now, key);
      SaneDelete(c.d, w.s.index, recs, w.s.regionID, written, sp.live, now, h);
      SaneMatches(c.d, w.s, recs, written, sp.live, now, h);
      hide Log, RegionOk, Recorded, SaneIndex, LoadFrom, Shown, DeleteNode, ReadNode;
  }

  // Forgetting an expired inode is right.
  lemma ForgetRight(d: Digests, s: State, recs: Records, m: TimedMap, now: nat, h: uint64)
    requires IndexOk(d, s.index, Log(d, recs), m, now)
    ensures Lookup(s.index, h).Some? <==> h in m
    ensures h in m ==> Lookup(s.index, h).value.expiredAt == m[h].seg.expiredAt
    ensures h in m && Expired(m[h].seg.expiredAt, now) ==>
              IndexOk(d, DeleteNode(s.index, h), Log(d, recs), m - {h}, now)
  {
    hide Log, Tracks, Gone;
    var log := Log(d, recs);
    assert CellOk(d, Lookup(s.index, h), Get(m, h), log, h, now);
    if h in m && Expired(m[h].seg.expiredAt, now) {
      ExpiredIsGone(d, log, Lookup(s.index, h).value, m[h].seg, h, now);
      forall g ensures CellOk(d, Lookup(DeleteNode(s.index, h), g), Get(m - {h}, g), log, g, now) {
        assert CellOk(d, Lookup(s.index, g), Get(m, g), log, g, now);
      }
    }
  }

  lemma SaneMatches(d: Digests, s: State, recs: Records, written: set<Segment>, m: TimedMap, now: nat, h: uint64)
    requires SaneIndex(d, s.index, recs, s.regionID, written, m, now)
    ensures Lookup(s.index, h).Some? <==> h in m
    ensures h in m ==> Lookup(s.index, h).value.mvcc == m[h].version
    ensures h in m ==> Lookup(s.index, h).value.expiredAt == m[h].seg.expiredAt
  {
    assert SaneCell(d, recs, s.regionID, written, Lookup(s.index, h), Get(m, h), h, now);
  }

  lemma {:induction false} ExpiredIsGone(d: Digests, log: seq<Entry>, node: Node, seg: Segment, h: uint64, now: nat)
    requires Tracks(d, log, node, seg, h, now) && Expired(node.expiredAt, now)
    ensures Gone(d, log, h, now)
  {
    if log != [] && InumOf(d, log[|log| - 1]) != h {
      ExpiredIsGone(d, log[..|log| - 1], node, seg, h, now);
    }
  }

  lemma NodeMatchesCell(c: Config, w: World, recs: Records, sp: Spec<uint64>, written: set<Segment>, now: nat,
                        h: uint64)
    requires Inv(c, w, recs, sp, written, now)
    ensures Lookup(w.s.index, h).Some? <==> h in sp.live
    ensures h in sp.live ==> Lookup(w.s.index, h).value.mvcc == sp.live[h].version
  {
    match sp.backup
    case Scan(_) => assert CellOk(c.d, Lookup(w.s.index, h), Get(sp.live, h), Log(c.d, recs), h, now);
    case Snapshot(_, _) => SaneMatches(c.d, w.s, recs, written, sp.live, now, h);
  }

  lemma CasStep(c: Config, w: World, recs: Records, sp: Spec<uint64>, written: set<Segment>, now: nat, key: seq<byte>,
                expected: uint64, seg: Segment)
    returns (recs': Records)
    requires Inv(c, w, recs, sp, written, now) && Writable(key, seg) && Room(w.s, |Serialize(c.d, seg)|)
    ensures var (s', reply) := UpdateSegmentWithCAS(c.d, c.threshold, w.s, key, expected, seg);
            var (sp', reply') := SpecCas(sp, c.d.inodeNum(key), expected, seg);
            reply == reply' && Inv(c, World(s', w.snapshot), recs', sp', written + {seg}, now)
            && (Bounded(c.d, c.threshold, w.s, recs) ==> Bounded(c.d, c.threshold, s', recs'))
  {
    hide Bounded, Inv, Log, RollIfFull, Serialize, SetNode, AddOffset, UpdateSegmentWithCAS, CanAppend, SpecWrite;
    var h := c.d.inodeNum(key);
    NodeMatchesCell(c, w, recs, sp, written, now, h);
    recs' := recs;
    if h in sp.live && sp.live[h].version == expected {
      CasResult(c.d, c.threshold, w.s, key, expected, seg);
      var s';
      s', recs' := WriteStep(c, w, recs, sp, written, now, h, seg, (expected + 1) % U64);
    } else {
      CasRefused(c.d, c.threshold, w.s, key, expected, seg);
      MoreWritten(c, w, recs, sp, written, written + {seg}, now);
    }
  }

  lemma MoreWritten(c: Config, w: World, recs: Records, sp: Spec<uint64>, written: set<Segment>, written': set<Segment>,
                    now: nat)
    requires Inv(c, w, recs, sp, written, now) && written <= written'
    ensures Inv(c, w, recs, sp, written', now)
  {
    hide Log, IndexOk, SaneIndex, PutsOf, LoadFrom, DiskOk;
    match sp.backup
    case Scan(_) =>
    case Snapshot(cells, _) =>
      var top := w.s.regionID;
      SaneGrows(c.d, w.s.index, recs, recs, top, top, written, written', sp.live, now);
      SaneGrows(c.d, LoadFrom(c.d, w.snapshot.value, 4, EMPTY).value, recs, recs, top, top, written, written', cells,
                now);
  }

  lemma Later(c: Config, w: World, recs: Records, sp: Spec<uint64>, written: set<Segment>, now: nat, now': nat)
    requires Inv(c, w, recs, sp, written, now) && now <= now'
    ensures Inv(c, w, recs, sp, written, now')
  {
    hide Log, DiskOk, IndexOk, SaneIndex, PutsOf, LoadFrom, Recorded;
    match sp.backup
    case Scan(_) => IndexLater(c.d, w.s.index, Log(c.d, recs), sp.live, now, now');
    case Snapshot(cells, _) =>
      SaneLater(c.d, w.s.index, recs, w.s.regionID, written, sp.live, now, now');
      SaneLater(c.d, LoadFrom(c.d, w.snapshot.value, 4, EMPTY).value, recs, w.s.regionID, written, cells, now, now');
  }

  lemma CompactStep(c: Config, w: World, recs: Records, sp: Spec<uint64>, written: set<Segment>, now: nat)
    returns (recs': Records, sp': Spec<uint64>)
    requires Inv(c, w, recs, sp, written, now) && Distinguished(c.d, written)
    requires |recs| >= 5 ==> Budget(c.d, w.s, VictimLog(c.d, recs))
    ensures var (s', reply) := CleanupDirtyRegion(c.d, c.threshold, w.s, now);
            reply == Done && Inv(c, World(s', w.snapshot), recs', sp', written, now)
            && SpecCompact(sp, sp', VictimSet(w.s.files.Keys), now)
            && (Bounded(c.d, c.threshold, w.s, recs) ==> Bounded(c.d, c.threshold, s', recs'))
  {
    hide Bounded, Log, DiskOk, IndexOk, SaneIndex, PutsOf, LoadFrom, Recorded, Distinguished, CleanupDirtyRegion,
      VictimLog, Budget, ScanForgets, MayHeal, LoseRegions, VictimSet, NamedBy;
    VictimsIfFive(c.d, w.s, recs);
    match sp.backup
    case Scan(_) =>
      DistinguishedStamps(c.d, Log(c.d, recs), written);
      var s';
      s', recs' := CompactionKeepsMeaning(c.d, c.threshold, w.s, recs, sp.live, now);
      RecordedFrom(Log(c.d, recs), Log(c.d, recs'), written);
      sp' := sp.(backup := Scan(PutsOf(c.d, Log(c.d, recs'))));
    case Snapshot(cells, homes) =>
      var ix := LoadFrom(c.d, w.snapshot.value, 4, EMPTY).value;
      var s', m';
      s', recs', m' := CompactionKeepsSane(c.d, c.threshold, w.s, recs, ix, homes, written, sp.live, cells, now);
      LoseNothing(cells, homes);
      sp' := Spec(m', Snapshot(LoseRegions(cells, homes, VictimSet(w.s.files.Keys)), homes));
  }

  lemma VictimsIfFive(d: Digests, s: State, recs: Records)
    requires DiskOk(d, s, recs)
    ensures VictimSet(s.files.Keys) == {} <==> |recs| < 5
  {
    assert |recs| == |recs.Keys|;
    hide Sorted;
    if |recs| >= 5 { assert Victims(recs.Keys)[0] in VictimSet(recs.Keys); }
  }

  lemma InvIsSane(c: Config, w: World, recs: Records, sp: Spec<uint64>, written: set<Segment>, now: nat)
    requires Inv(c, w, recs, sp, written, now)
    ensures SaneIndex(c.d, w.s.index, recs, w.s.regionID, written, sp.live, now) && Sharded(w.s.index)
    ensures DiskOk(c.d, w.s, recs) && Recorded(Log(c.d, recs), written)
  {
    if sp.backup.Scan? { RightIsSane(c.d, w.s.index, recs, w.s.regionID, written, sp.live, now); }
  }

  // Close and open: the snapshot brings back the index with versions reset, and stays behind.
  lemma ReopenStep(c: Config, w: World, recs: Records, sp: Spec<uint64>, written: set<Segment>, now: nat,
                   items: seq<Item>)
    returns (recs': Records)
    requires Inv(c, w, recs, sp, written, now) && CanActivate(w.s, c.threshold) && Enumerates(items, w.s.index)
    ensures var (w', reply) := Open(c, w.s.files, Some(SnapshotBytes(c.d, items)), now);
            reply == Done
            && Inv(c, w', recs', SpecClose(sp, HomesOf(items)), written, now)
            && (Bounded(c.d, c.threshold, w.s, recs) ==> Bounded(c.d, c.threshold, w'.s, recs'))
  {
    hide Inv, Bounded, Log, OpenFS, DiskOk, CanActivate, SaneIndex, ResetMap, ResetVersions, LoadFrom, SnapshotBytes,
      Enumerates, Recorded, NamedBy, HomesOf;
    InvIsSane(c, w, recs, sp, written, now);
    recs' := OpenSnapshot(c.d, IDENTITY, c.threshold, w.s, recs, now, items, w.s.index);
    SnapshotRoundTrip(c.d, items, w.s.index);
    SnapshotHasHeader(c.d, items);
    SaneReset(c.d, w.s.index, recs, w.s.regionID, written, sp.live, now);
    var w' := Open(c, w.s.files, Some(SnapshotBytes(c.d, items)), now).0;
    SaneGrows(c.d, ResetVersions(w.s.index), recs, recs', w.s.regionID, w'.s.regionID, written, written,
              ResetMap(sp.live), now);
    HomesAreNamed(items, w.s.index);
    InvSnapshot(c, w', recs', SpecClose(sp, HomesOf(items)), written, now);
  }

  lemma {:induction false} HomesHave(items: seq<Item>, h: uint64)
    requires forall i, j :: 0 <= i < j < |items| ==> items[i].0 != items[j].0
    ensures h in HomesOf(items) <==> exists i :: 0 <= i < |items| && items[i].0 == h
    ensures forall i :: 0 <= i < |items| && items[i].0 == h ==> HomesOf(items)[h] == items[i].1.regionID
  {
    if items != [] {
      var n := |items| - 1;
      HomesHave(items[..n], h);
      if h in HomesOf(items[..n]) {
        var i :| 0 <= i < n && items[..n][i].0 == h;
        assert items[i].0 == h;
      } else if items[n].0 != h {
        forall i | 0 <= i < |items| ensures items[i].0 != h {
          if i < n { assert items[..n][i].0 != h; }
        }
      }
    }
  }

  lemma {:induction false} HomesAreNamed(items: seq<Item>, ix: Shards)
    requires Enumerates(items, ix)
    ensures NamedBy(ResetVersions(ix), HomesOf(items))
  {
    hide HomesOf;
    forall h
      ensures h in HomesOf(items) <==> Lookup(ResetVersions(ix), h).Some?
      ensures h in HomesOf(items) ==> HomesOf(items)[h] == Lookup(ResetVersions(ix), h).value.regionID
    {
      HomesHave(items, h);
      if h in HomesOf(items) {
        var i :| 0 <= i < |items| && items[i].0 == h;
        assert Lookup(ix, items[i].0) == Some(items[i].1);
      }
    }
  }

  lemma InvSnapshot(c: Config, w: World, recs: Records, sp: Spec<uint64>, written: set<Segment>, now: nat)
    requires DiskOk(c.d, w.s, recs) && Recorded(Log(c.d, recs), written) && sp.backup.Snapshot?
    requires SaneIndex(c.d, w.s.index, recs, w.s.regionID, written, sp.live, now)
    requires SnapshotOk(c.d, w.snapshot, recs, w.s.regionID, written, sp.backup.cells, sp.backup.homes, now)
    ensures Inv(c, w, recs, sp, written, now)
  {
  }

  lemma IdentityDecodes(log: seq<Entry>)
    ensures Decodable(IDENTITY, log)
  {
  }

  // Crash and open: by the snapshot if there is one, by a scan of the log otherwise.
  lemma CrashStep(c: Config, w: World, recs: Records, sp: Spec<uint64>, written: set<Segment>, now: nat)
    returns (recs': Records, sp': Spec<uint64>)
    requires Inv(c, w, recs, sp, written, now) && CanActivate(w.s, c.threshold)
    ensures var (w', reply) := Open(c, w.s.files, w.snapshot, now);
            reply == Done && Inv(c, w', recs', sp', written, now) && SpecCrash(sp, sp', now)
            && (Bounded(c.d, c.threshold, w.s, recs) ==> Bounded(c.d, c.threshold, w'.s, recs'))
  {
    hide Bounded, Log, OpenFS, DiskOk, CanActivate, IndexOk, SaneIndex, LoadFrom, Recorded, ScanMap, PutsOf,
      KeepsReadable, Decodable, NamedBy;
    match sp.backup
    case Scan(puts) =>
      IdentityDecodes(Log(c.d, recs));
      recs' := CrashReopen(c.d, IDENTITY, c.threshold, w.s, recs, sp.live, now);
      sp' := sp.(live := ScanMap(puts, now));
    case Snapshot(cells, _) =>
      var ix := LoadFrom(c.d, w.snapshot.value, 4, EMPTY).value;
      recs' := OpenLoaded(c.d, IDENTITY, c.threshold, w.s, recs, now, w.snapshot.value, ix);
      var w' := Open(c, w.s.files, w.snapshot, now).0;
      SaneGrows(c.d, ix, recs, recs', w.s.regionID, w'.s.regionID, written, written, cells, now);
      sp' := sp.(live := cells);
  }

  // Every event but a delete keeps the region sizes in bounds.
  ghost predicate BoundKept(c: Config, w: World, recs: Records, ev: Event, recs': Records) {
    Bounded(c.d, c.threshold, w.s, recs) && !ev.op.Delete? ==> Bounded(c.d, c.threshold, Step(c, w, ev).0.s, recs')
  }

  lemma WritersRefine(c: Config, w: World, recs: Records, sp: Spec<uint64>, written: set<Segment>, ev: Event)
    returns (recs': Records, sp': Spec<uint64>)
    requires ev.op.Put? || ev.op.Delete? || ev.op.Cas? || ev.op.Fetch?
    requires Inv(c, w, recs, sp, written, ev.now) && Legal(c, w, recs, ev)
    ensures Inv(c, Step(c, w, ev).0, recs', sp', written + PutBy(ev), ev.now)
    ensures SpecStep(c, RemovedBy(w, ev), sp, ev, sp', Step(c, w, ev).1)
    ensures BoundKept(c, w, recs, ev, recs')
  {
    hide Bounded, Inv, Log, Serialize, RollIfFull, AddOffset, SetNode, DeleteSegment, FetchSegment,
      UpdateSegmentWithCAS, SpecCas, SpecFetch, SpecWrite, Erased;
    assert written + {} == written;
    match ev.op
    case Put(key, seg) =>
      var s';
      s', recs' := WriteStep(c, w, recs, sp, written, ev.now, c.d.inodeNum(key), seg, 0);
      sp' := SpecWrite(sp, c.d.inodeNum(key), seg, 0);
    case Delete(key) =>
      recs' := DeleteStep(c, w, recs, sp, written, ev.now, key);
      sp' := Spec(sp.live - {c.d.inodeNum(key)}, Erased(sp.backup, c.d.inodeNum(key)));
    case Cas(key, expected, seg) =>
      recs' := CasStep(c, w, recs, sp, written, ev.now, key, expected, seg);
      sp' := SpecCas(sp, c.d.inodeNum(key), expected, seg).0;
    case Fetch(key) =>
      FetchStep(c, w, recs, sp, written, ev.now, key);
      recs', sp' := recs, SpecFetch(c.decode, sp, c.d.inodeNum(key), ev.now).0;
  }

  lemma MaintenanceRefines(c: Config, w: World, recs: Records, sp: Spec<uint64>, written: set<Segment>, ev: Event)
    returns (recs': Records, sp': Spec<uint64>)
    requires ev.op.Compact? || ev.op.Reopen? || ev.op.Crash?
    requires Inv(c, w, recs, sp, written, ev.now) && Legal(c, w, recs, ev)
    requires ev.op.Compact? ==> Distinguished(c.d, written)
    ensures Inv(c, Step(c, w, ev).0, recs', sp', written + PutBy(ev), ev.now)
    ensures SpecStep(c, RemovedBy(w, ev), sp, ev, sp', Step(c, w, ev).1)
    ensures BoundKept(c, w, recs, ev, recs')
  {
    hide Bounded, Inv, Log, Open, CleanupDirtyRegion, VictimLog, VictimSet, Budget, SpecCompact, SpecCrash, SpecClose,
      CanActivate, Enumerates, SnapshotBytes, Distinguished, HomesOf;
    assert written + {} == written;
    match ev.op
    case Compact => recs', sp' := CompactStep(c, w, recs, sp, written, ev.now);
    case Reopen(items) =>
      recs' := ReopenStep(c, w, recs, sp, written, ev.now, items);
      sp' := SpecClose(sp, HomesOf(items));
    case Crash => recs', sp' := CrashStep(c, w, recs, sp, written, ev.now);
  }

  // Every legal event is a step of the timed map, with the same reply, and keeps the invariant; a compaction needs
  // creation times that identify the puts of a key.
  lemma StepRefines(c: Config, w: World, recs: Records, sp: Spec<uint64>, written: set<Segment>, now: nat, ev: Event)
    returns (recs': Records, sp': Spec<uint64>)
    requires Inv(c, w, recs, sp, written, now) && now <= ev.now && Legal(c, w, recs, ev)
    requires ev.op.Compact? ==> Distinguished(c.d, written)
    ensures Inv(c, Step(c, w, ev).0, recs', sp', written + PutBy(ev), ev.now)
    ensures SpecStep(c, RemovedBy(w, ev), sp, ev, sp', Step(c, w, ev).1)
    ensures BoundKept(c, w, recs, ev, recs')
  {
    hide Inv, Step, SpecStep, Legal, BoundKept, Distinguished, RemovedBy;
    Later(c, w, recs, sp, written, now, ev.now);
    if ev.op.Compact? || ev.op.Reopen? || ev.op.Crash? {
      recs', sp' := MaintenanceRefines(c, w, recs, sp, written, ev);
    } else {
      recs', sp' := WritersRefine(c, w, recs, sp, written, ev);
    }
  }

  lemma RollKeepsRegions(s: State, threshold: nat)
    ensures s.files.Keys <= RollIfFull(s, threshold).0.files.Keys
  {
  }

  lemma WritersKeepRegions(c: Config, w: World, ev: Event)
    requires ev.op.Put? || ev.op.Delete? || ev.op.Cas? || ev.op.Fetch?
    ensures w.s.files.Keys <= Step(c, w, ev).0.s.files.Keys
  {
    hide RollIfFull, Serialize, SetNode, DeleteNode, Lookup, ReadNode;
    forall s: State ensures w.s.files.Keys <= s.files.Keys ==>
                              w.s.files.Keys <= RollIfFull(s, c.threshold).0.files.Keys {
      RollKeepsRegions(s, c.threshold);
    }
  }

  lemma OpeningKeepsRegions(c: Config, w: World, recs: Records, snapshot: Option<seq<byte>>, now: nat)
    requires DiskOk(c.d, w.s, recs) && CanActivate(w.s, c.threshold)
    ensures w.s.files.Keys <= Open(c, w.s.files, snapshot, now).0.s.files.Keys
  {
    hide ActivateRegions, DiskOk, Log, CrashRecoveryAllIndex, LoadFrom;
    ActivateKeepsRegions(c, w.s, recs);
  }

  lemma ActivateKeepsRegions(c: Config, s: State, recs: Records)
    requires DiskOk(c.d, s, recs) && CanActivate(s, c.threshold)
    ensures s.files.Keys <= ActivateRegions(c.threshold, s.files).0.files.Keys
  {
    hide ActivateRegions, Log, RegionOk;
    var recs' := ActivateKeepsFiles(c.d, c.threshold, s, recs);
  }

  lemma MaintenanceRemoves(c: Config, w: World, recs: Records, ev: Event)
    requires ev.op.Compact? || ev.op.Reopen? || ev.op.Crash?
    requires DiskOk(c.d, w.s, recs) && Sharded(w.s.index) && Legal(c, w, recs, ev)
    ensures w.s.files.Keys - Step(c, w, ev).0.s.files.Keys == RemovedBy(w, ev)
  {
    hide DiskOk, Log, CleanupDirtyRegion, VictimSet, VictimLog, Budget, Open, SnapshotBytes, Sharded, CanActivate,
      Enumerates;
    match ev.op
    case Compact => CompactionRemoves(c.d, c.threshold, w.s, recs, ev.now);
    case Reopen(items) => OpeningKeepsRegions(c, w, recs, Some(SnapshotBytes(c.d, items)), ev.now);
    case Crash => OpeningKeepsRegions(c, w, recs, w.snapshot, ev.now);
  }

  // Exactly the regions RemovedBy names go.
  lemma StepRemoves(c: Config, w: World, recs: Records, sp: Spec<uint64>, written: set<Segment>, now: nat, ev: Event)
    requires Inv(c, w, recs, sp, written, now) && Legal(c, w, recs, ev)
    ensures w.s.files.Keys - Step(c, w, ev).0.s.files.Keys == RemovedBy(w, ev)
  {
    InvIsSane(c, w, recs, sp, written, now);
    hide Inv, DiskOk, SaneIndex, Recorded, Log, Legal, Step, VictimSet, Sharded;
    if ev.op.Compact? || ev.op.Reopen? || ev.op.Crash? {
      MaintenanceRemoves(c, w, recs, ev);
    } else {
      WritersKeepRegions(c, w, ev);
    }
  }

  // ---- Whole runs ----

  // The files determine the record history, so legality is a property of the state.
  ghost predicate LegalNow(c: Config, w: World, ev: Event) {
    forall recs :: DiskOk(c.d, w.s, recs) ==> Legal(c, w, recs, ev)
  }

  ghost predicate LegalRun(c: Config, w: World, now: nat, evs: seq<Event>)
    decreases |evs|
  {
    evs == [] || (&& now <= evs[0].now && LegalNow(c, w, evs[0])
                  && LegalRun(c, Step(c, w, evs[0]).0, evs[0].now, evs[1..]))
  }

  lemma {:induction false} LegalFirst(c: Config, w: World, recs: Records, now: nat, evs: seq<Event>)
    requires DiskOk(c.d, w.s, recs) && LegalRun(c, w, now, evs) && evs != []
    ensures now <= evs[0].now && Legal(c, w, recs, evs[0])
    ensures LegalRun(c, Step(c, w, evs[0]).0, evs[0].now, evs[1..])
  {
    hide DiskOk, Legal, Step;
  }

  lemma {:induction false} RunSplit(c: Config, w: World, evs: seq<Event>)
    ensures Run(c, w, evs).0 == if evs == [] then w else Run(c, Step(c, w, evs[0]).0, evs[1..]).0
  {
    hide Step;
  }

  lemma HistoryUnique(d: Digests, s: State, recs: Records, recs': Records)
    requires DiskOk(d, s, recs) && DiskOk(d, s, recs')
    ensures recs == recs'
  {
    hide Layout;
    forall r | r in recs ensures recs[r] == recs'[r] {
      LayoutInjective(d, recs[r], recs'[r]);
    }
  }

  function PutsBy(evs: seq<Event>): set<Segment>
    decreases |evs|
  {
    if evs == [] then {} else PutBy(evs[0]) + PutsBy(evs[1..])
  }

  // If the run compacts, no two writes of it to one key, nor one before it, have the same creation time.
  ghost predicate StampsServe(d: Digests, written: set<Segment>, evs: seq<Event>) {
    (exists i :: 0 <= i < |evs| && evs[i].op.Compact?) ==> Distinguished(d, written + PutsBy(evs))
  }

  lemma StampsFirst(d: Digests, written: set<Segment>, evs: seq<Event>)
    requires StampsServe(d, written, evs) && evs != []
    ensures evs[0].op.Compact? ==> Distinguished(d, written)
    ensures StampsServe(d, written + PutBy(evs[0]), evs[1..])
  {
    assert written + PutBy(evs[0]) + PutsBy(evs[1..]) == written + PutsBy(evs);
    if exists i :: 0 <= i < |evs[1..]| && evs[1..][i].op.Compact? {
      var i :| 0 <= i < |evs[1..]| && evs[1..][i].op.Compact?;
      assert evs[i + 1].op.Compact?;
    }
  }

  // The regions each event of a run removes.
  function Removals(c: Config, w: World, evs: seq<Event>): (r: seq<set<uint64>>)
    ensures |r| == |evs|
    decreases |evs|
  {
    if evs == [] then [] else [RemovedBy(w, evs[0])] + Removals(c, Step(c, w, evs[0]).0, evs[1..])
  }

  ghost predicate SpecRun(c: Config, removals: seq<set<uint64>>, sps: seq<Spec<uint64>>, evs: seq<Event>,
                          replies: seq<Reply>)
  {
    && |sps| == |evs| + 1 && |replies| == |removals| == |evs|
    && forall i :: 0 <= i < |evs| ==> SpecStep(c, removals[i], sps[i], evs[i], sps[i + 1], replies[i])
  }

  function EndTime(now: nat, evs: seq<Event>): nat {
    if evs == [] then now else evs[|evs| - 1].now
  }

  // Every legal run of puts, deletes, updates, reads, compactions, reopenings and crashes gives the replies of the
  // timed map, and ends in a state that represents it.
  lemma {:induction false} RunRefines(c: Config, w: World, recs: Records, sp: Spec<uint64>, written: set<Segment>,
                                      now: nat, evs: seq<Event>)
    returns (recs': Records, sps: seq<Spec<uint64>>)
    requires Inv(c, w, recs, sp, written, now) && LegalRun(c, w, now, evs) && StampsServe(c.d, written, evs)
    ensures SpecRun(c, Removals(c, w, evs), sps, evs, Run(c, w, evs).1) && sps[0] == sp
    ensures Inv(c, Run(c, w, evs).0, recs', sps[|evs|], written + PutsBy(evs), EndTime(now, evs))
    decreases |evs|
  {
    hide Inv, Step, SpecStep, Legal, SpecRun, StampsServe, RemovedBy;
    if evs == [] {
      SpecRunNone(c, sp);
      assert written + {} == written;
      recs', sps := recs, [sp];
    } else {
      InvIsOnDisk(c, w, recs, sp, written, now);
      LegalFirst(c, w, recs, now, evs);
      StampsFirst(c.d, written, evs);
      hide DiskOk, LegalRun;
      var (w1, reply) := Step(c, w, evs[0]);
      var recs1, sp1 := StepRefines(c, w, recs, sp, written, now, evs[0]);
      var sps1;
      recs', sps1 := RunRefines(c, w1, recs1, sp1, written + PutBy(evs[0]), evs[0].now, evs[1..]);
      assert written + PutBy(evs[0]) + PutsBy(evs[1..]) == written + PutsBy(evs);
      sps := [sp] + sps1;
      SpecRunCons(c, sp, sp1, evs[0], RemovedBy(w, evs[0]), reply, sps1, evs[1..], Removals(c, w1, evs[1..]),
                  Run(c, w1, evs[1..]).1);
      assert [evs[0]] + evs[1..] == evs;
    }
  }

  lemma InvIsOnDisk(c: Config, w: World, recs: Records, sp: Spec<uint64>, written: set<Segment>, now: nat)
    requires Inv(c, w, recs, sp, written, now)
    ensures DiskOk(c.d, w.s, recs)
  {
  }

  lemma SpecRunNone(c: Config, sp: Spec<uint64>)
    ensures SpecRun(c, [], [sp], [], [])
  {
  }

  lemma SpecRunCons(c: Config, sp: Spec<uint64>, sp1: Spec<uint64>, ev: Event, removed: set<uint64>, reply: Reply,
                    sps: seq<Spec<uint64>>, evs: seq<Event>, removals: seq<set<uint64>>, replies: seq<Reply>)
    requires SpecStep(c, removed, sp, ev, sp1, reply) && SpecRun(c, removals, sps, evs, replies) && sps[0] == sp1
    ensures SpecRun(c, [removed] + removals, [sp] + sps, [ev] + evs, [reply] + replies)
  {
    hide SpecStep;
    var removals', sps', evs', replies' := [removed] + removals, [sp] + sps, [ev] + evs, [reply] + replies;
    forall i | 0 <= i < |evs'| ensures SpecStep(c, removals'[i], sps'[i], evs'[i], sps'[i + 1], replies'[i]) {
      if i > 0 {
        assert SpecStep(c, removals[i - 1], sps[i - 1], evs[i - 1], sps[i - 1 + 1], replies[i - 1]);
      }
    }
  }

  const NOTHING: Spec<uint64> := Spec(map[], Scan(map[]))

  // The store of an empty directory.
  function NewStore(c: Config, now: nat): World {
    Open(c, map[], None, now).0
  }

  lemma NewStoreInv(c: Config, now: nat)
    ensures Open(c, map[], None, now).1 == Done
    ensures Inv(c, NewStore(c, now), map[1 := []], NOTHING, {}, now)
  {
    hide OpenFS, DiskOk, IndexOk, Log;
    OpenEmpty(c.d, IDENTITY, c.threshold, now);
  }

  // From an empty directory on.
  lemma FreshRunRefines(c: Config, now: nat, evs: seq<Event>) returns (recs': Records, sps: seq<Spec<uint64>>)
    requires LegalRun(c, NewStore(c, now), now, evs) && StampsServe(c.d, {}, evs)
    ensures var w := NewStore(c, now);
            SpecRun(c, Removals(c, w, evs), sps, evs, Run(c, w, evs).1) && sps[0] == NOTHING
    ensures Inv(c, Run(c, NewStore(c, now), evs).0, recs', sps[|evs|], PutsBy(evs), EndTime(now, evs))
  {
    hide NewStore, Inv, LegalRun, SpecRun, StampsServe, Run, PutsBy, Removals;
    NewStoreInv(c, now);
    recs', sps := RunRefines(c, NewStore(c, now), map[1 := []], NOTHING, {}, now, evs);
    assert {} + PutsBy(evs) == PutsBy(evs);
  }

  // A fetch answers from the map.
  lemma FetchShows(c: Config, w: World, recs: Records, sp: Spec<uint64>, written: set<Segment>, now: nat,
                   key: seq<byte>)
    requires Inv(c, w, recs, sp, written, now)
    ensures FetchSegment(c.d, c.decode, w.s, key, now).1 == Shown(c.decode, Get(sp.live, c.d.inodeNum(key)), now)
  {
    hide Inv, FetchSegment, Shown;
    FetchStep(c, w, recs, sp, written, now, key);
  }

  // ---- From inode numbers to keys ----

  ghost predicate NoCollision(d: Digests, keys: set<seq<byte>>) {
    forall j, k :: j in keys && k in keys && d.inodeNum(j) == d.inodeNum(k) ==> j == k
  }

  // The entries of the keys, out of a map by inode number.
  function ByKey<V>(d: Digests, keys: set<seq<byte>>, m: map<uint64, V>): map<seq<byte>, V> {
    map k | k in keys && d.inodeNum(k) in m :: m[d.inodeNum(k)]
  }

  function BackupByKey(d: Digests, keys: set<seq<byte>>, b: Backup<uint64>): Backup<seq<byte>> {
    match b
    case Scan(puts) => Scan(ByKey(d, keys, puts))
    case Snapshot(cells, homes) => Snapshot(ByKey(d, keys, cells), ByKey(d, keys, homes))
  }

  function SpecByKey(d: Digests, keys: set<seq<byte>>, sp: Spec<uint64>): Spec<seq<byte>> {
    Spec(ByKey(d, keys, sp.live), BackupByKey(d, keys, sp.backup))
  }

  predicate Touches(ev: Event, keys: set<seq<byte>>) {
    match ev.op
    case Put(key, _) => key in keys
    case Delete(key) => key in keys
    case Cas(key, _, _) => key in keys
    case Fetch(key) => key in keys
    case _ => true
  }

  lemma Distinct(d: Digests, keys: set<seq<byte>>, j: seq<byte>, k: seq<byte>)
    requires NoCollision(d, keys) && j in keys && k in keys && j != k
    ensures d.inodeNum(j) != d.inodeNum(k)
  {
  }

  lemma ByKeySet<V>(d: Digests, keys: set<seq<byte>>, m: map<uint64, V>, key: seq<byte>, v: V)
    requires NoCollision(d, keys) && key in keys
    ensures ByKey(d, keys, m[d.inodeNum(key) := v]) == ByKey(d, keys, m)[key := v]
  {
    hide NoCollision;
    var a, b := ByKey(d, keys, m[d.inodeNum(key) := v]), ByKey(d, keys, m)[key := v];
    forall k ensures (k in a <==> k in b) && (k in a ==> a[k] == b[k]) {
      if k in keys && k != key { Distinct(d, keys, k, key); }
    }
  }

  lemma ByKeyRemove<V>(d: Digests, keys: set<seq<byte>>, m: map<uint64, V>, key: seq<byte>)
    requires NoCollision(d, keys) && key in keys
    ensures ByKey(d, keys, m - {d.inodeNum(key)}) == ByKey(d, keys, m) - {key}
  {
    hide NoCollision;
    var a, b := ByKey(d, keys, m - {d.inodeNum(key)}), ByKey(d, keys, m) - {key};
    forall k ensures (k in a <==> k in b) && (k in a ==> a[k] == b[k]) {
      if k in keys && k != key { Distinct(d, keys, k, key); }
    }
  }

  lemma ByKeyGet<V>(d: Digests, keys: set<seq<byte>>, m: map<uint64, V>, key: seq<byte>)
    requires key in keys
    ensures key in ByKey(d, keys, m) <==> d.inodeNum(key) in m
    ensures key in ByKey(d, keys, m) ==> ByKey(d, keys, m)[key] == m[d.inodeNum(key)]
  {
  }

  lemma ByKeyReset(d: Digests, keys: set<seq<byte>>, m: TimedMap)
    ensures ByKey(d, keys, ResetMap(m)) == ResetMap(ByKey(d, keys, m))
  {
  }

  lemma ByKeyCrash(d: Digests, keys: set<seq<byte>>, sp: Spec<uint64>, sp': Spec<uint64>, now: nat)
    requires SpecCrash(sp, sp', now)
    ensures SpecCrash(SpecByKey(d, keys, sp), SpecByKey(d, keys, sp'), now)
  {
    if sp.backup.Scan? {
      assert ByKey(d, keys, ScanMap(sp.backup.puts, now)) == ScanMap(ByKey(d, keys, sp.backup.puts), now);
    }
  }

  lemma ByKeyCompact(d: Digests, keys: set<seq<byte>>, sp: Spec<uint64>, sp': Spec<uint64>, removed: set<uint64>,
                     now: nat)
    requires SpecCompact(sp, sp', removed, now)
    ensures SpecCompact(SpecByKey(d, keys, sp), SpecByKey(d, keys, sp'), removed, now)
  {
    hide ScanForgets, MayHeal, LoseRegions, ByKey;
    match sp.backup
    case Scan(puts) => ByKeyForgets(d, keys, puts, sp'.backup.puts, now);
    case Snapshot(cells, homes) =>
      ByKeyHeals(d, keys, sp.live, sp'.live);
      ByKeyLoses(d, keys, cells, homes, removed);
  }

  lemma ByKeyHeals(d: Digests, keys: set<seq<byte>>, m: TimedMap, m': TimedMap)
    requires MayHeal(m, m')
    ensures MayHeal(ByKey(d, keys, m), ByKey(d, keys, m'))
  {
  }

  lemma ByKeyLoses(d: Digests, keys: set<seq<byte>>, m: TimedMap, homes: map<uint64, uint64>, removed: set<uint64>)
    ensures ByKey(d, keys, LoseRegions(m, homes, removed))
            == LoseRegions(ByKey(d, keys, m), ByKey(d, keys, homes), removed)
  {
  }

  lemma ByKeyForgets(d: Digests, keys: set<seq<byte>>, puts: map<uint64, seq<Segment>>, puts': map<uint64,
                     seq<Segment>>,
                     now: nat)
    requires ScanForgets(puts, puts', now)
    ensures ScanForgets(ByKey(d, keys, puts), ByKey(d, keys, puts'), now)
  {
    hide Latest;
    forall k, t: nat | now <= t && Latest(PutsAt(ByKey(d, keys, puts'), k), t).Some?
      ensures Latest(PutsAt(ByKey(d, keys, puts'), k), t) == Latest(PutsAt(ByKey(d, keys, puts), k), t)
    {
      NothingLatest(t);
      assert k in keys;
      assert PutsAt(ByKey(d, keys, puts'), k) == PutsAt(puts', d.inodeNum(k));
      assert PutsAt(ByKey(d, keys, puts), k) == PutsAt(puts, d.inodeNum(k));
    }
  }

  lemma {:induction false} NothingLatest(t: nat)
    ensures Latest([], t).None?
  {
  }

  lemma ByKeyWrite(d: Digests, keys: set<seq<byte>>, sp: Spec<uint64>, key: seq<byte>, seg: Segment, v: uint64)
    requires NoCollision(d, keys) && key in keys
    ensures SpecByKey(d, keys, SpecWrite(sp, d.inodeNum(key), seg, v)) == SpecWrite(SpecByKey(d, keys, sp), key, seg, v)
  {
    hide ByKey, NoCollision;
    var h := d.inodeNum(key);
    ByKeySet(d, keys, sp.live, key, Cell(seg, v));
    if sp.backup.Scan? {
      ByKeySet(d, keys, sp.backup.puts, key, PutsAt(sp.backup.puts, h) + [seg]);
      ByKeyGet(d, keys, sp.backup.puts, key);
    }
  }

  // As long as the keys in use do not collide, the timed map by inode number is a timed map by key.
  lemma StepByKey(c: Config, keys: set<seq<byte>>, removed: set<uint64>, sp: Spec<uint64>, ev: Event,
                  sp': Spec<uint64>, reply: Reply)
    requires NoCollision(c.d, keys) && Touches(ev, keys)
    requires SpecStep(c, removed, sp, ev, sp', reply)
    ensures SpecStepOn(k => k, c.decode, ByKey(c.d, keys, HomesAt(ev)), removed, SpecByKey(c.d, keys, sp), ev,
                       SpecByKey(c.d, keys, sp'), reply)
  {
    hide ByKey, SpecCrash, SpecCompact, ResetMap, NoCollision, Shown, SpecWrite;
    match ev.op
    case Put(key, seg) => ByKeyWrite(c.d, keys, sp, key, seg, 0);
    case Delete(key) =>
      ByKeyRemove(c.d, keys, sp.live, key);
      if sp.backup.Scan? { ByKeyRemove(c.d, keys, sp.backup.puts, key); }
    case Cas(key, expected, seg) =>
      ByKeyGet(c.d, keys, sp.live, key);
      ByKeyWrite(c.d, keys, sp, key, seg, (expected + 1) % U64);
    case Fetch(key) =>
      ByKeyGet(c.d, keys, sp.live, key);
      ByKeyRemove(c.d, keys, sp.live, key);
    case Compact => ByKeyCompact(c.d, keys, sp, sp', removed, ev.now);
    case Reopen(_) => ByKeyReset(c.d, keys, sp.live);
    case Crash => ByKeyCrash(c.d, keys, sp, sp', ev.now);
  }
}
