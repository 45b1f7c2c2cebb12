// What every operation keeps: the region files hold whole records, the index points at them, and both agree with a
// plain map from inode numbers to versioned segments.

module StoreInvariant {
  import opened Wrappers
  import opened Bytes
  import opened Segments
  import opened RegionLog
  import opened Index
  import opened FileNames
  import opened Store

  // ---- The plain timed map ----

  // Lost: the index names a region that is no longer there.
  datatype Cell = Cell(seg: Segment, version: uint64) | Lost(seg: Segment, version: uint64)

  type TimedMap = map<uint64, Cell>

  function Get<K>(m: map<K, Cell>, k: K): Option<Cell> {
    if k in m then Some(m[k]) else None
  }

  // ---- Files ----

  // recs is the history of each region: the records appended to it, in order.
  ghost predicate DiskOk(d: Digests, s: State, recs: Records) {
    && s.files.Keys == recs.Keys
    && (forall r :: r in recs ==> RegionOk(d, s.files[r], recs[r]) && r <= s.regionID)
    && s.regionID < REGION_LIMIT
    && s.active == s.regionID && s.active in recs
    && s.offset == |s.files[s.active]|
  }

  ghost predicate RegionOk(d: Digests, file: seq<byte>, rs: seq<Segment>) {
    file == Layout(d, rs) && AllWellFormed(rs) && |file| <= MAX_FILE
  }

  // ---- Index against log ----

  // A key without inode: its last record, if any, is a tombstone or an expired put.
  ghost predicate Gone(d: Digests, log: seq<Entry>, h: uint64, now: nat) {
    match Last(d, log, h)
    case None => true
    case Some(e) => e.seg.IsTombstone() || Expired(e.seg.expiredAt, now)
  }

  // The inode is that of a put record in the log holding seg, and all later records of the key are expired puts.
  // An expired inode may outlive its record.
  ghost predicate Tracks(d: Digests, log: seq<Entry>, node: Node, seg: Segment, h: uint64, now: nat) {
    if log == [] then Expired(node.expiredAt, now) else
      var e, init := log[|log| - 1], log[..|log| - 1];
      if InumOf(d, e) != h then Tracks(d, init, node, seg, h, now)
      else
        && !e.seg.IsTombstone()
        && (|| (node == NodeOf(e, node.mvcc) && seg == e.seg)
            || (Expired(e.seg.expiredAt, now) && Tracks(d, init, node, seg, h, now)))
  }

  ghost predicate CellOk(d: Digests, node: Option<Node>, cell: Option<Cell>, log: seq<Entry>, h: uint64, now: nat) {
    match (node, cell)
    case (None, None) => Gone(d, log, h, now)
    case (Some(n), Some(c)) =>
      c.Cell? && c.version == n.mvcc && c.seg.expiredAt == n.expiredAt && Tracks(d, log, n, c.seg, h, now)
    case _ => false
  }

  ghost predicate IndexOk(d: Digests, ix: Shards, log: seq<Entry>, m: TimedMap, now: nat) {
    Sharded(ix) && forall h :: CellOk(d, Lookup(ix, h), Get(m, h), log, h, now)
  }

  ghost predicate Rep(d: Digests, s: State, recs: Records, m: TimedMap, now: nat) {
    && DiskOk(d, s, recs)
    && IndexOk(d, s.index, Log(d, recs), m, now)
  }

  // ---- What callers must provide ----

  // Room for n more bytes in the active file, and for one more region name.
  predicate Room(s: State, n: nat) {
    CanAppend(s, n) && s.regionID + 1 < REGION_LIMIT
  }

  // What NewSegment builds for this key.
  predicate Writable(key: seq<byte>, seg: Segment) {
    seg.WellFormed() && seg.key == key && !seg.IsTombstone()
  }

  // ---- Files: appending and rolling ----

  lemma AppendKeepsFiles(d: Digests, s: State, recs: Records, seg: Segment)
    requires DiskOk(d, s, recs) && seg.WellFormed() && CanAppend(s, |Serialize(d, seg)|)
    ensures var s' := AddOffset(Append(s, Serialize(d, seg)), seg.Size());
            var recs' := recs[s.active := recs[s.active] + [seg]];
            && DiskOk(d, s', recs')
            && Log(d, recs') == Log(d, recs) + [Entry(s.active, s.offset, seg)]
  {
    hide Log, Layout, Serialize;
    EntriesAppend(d, s.active, recs[s.active], seg);
    LogAppend(d, recs, s.active, seg);
  }

  lemma EmptyRegion(d: Digests)
    ensures RegionOk(d, MAGIC, [])
  {
  }

  lemma CreateResult(s: State)
    requires s.regionID + 1 < REGION_LIMIT && s.regionID + 1 !in s.files
    ensures var id := s.regionID + 1;
            CreateActiveRegion(s) == (s.(regionID := id, files := s.files[id := MAGIC], active := id, offset := 4),
                Done)
  {
    hide GenerateFileName;
    GeneratedNames(s.regionID + 1);
    assert [] + MAGIC == MAGIC;
  }

  lemma CreateKeepsFiles(d: Digests, s: State, recs: Records)
    requires DiskOk(d, s, recs) && s.regionID + 1 < REGION_LIMIT
    ensures var (s', reply) := CreateActiveRegion(s);
            var recs' := recs[s.regionID + 1 := []];
            && reply == Done && DiskOk(d, s', recs') && s'.index == s.index
            && Log(d, recs') == Log(d, recs)
            && s'.regionID == s.regionID + 1
  {
    hide Log, CreateActiveRegion, RegionOk;
    CreateResult(s);
    EmptyRegion(d);
    LogNewRegion(d, recs, s.regionID + 1);
  }

  // The regions after a roll that happens when the active file is full.
  function Rolled(s: State, threshold: nat, recs: Records): Records
    requires s.regionID + 1 < U64
  {
    if s.offset >= threshold then recs[s.regionID + 1 := []] else recs
  }

  lemma RollKeepsFiles(d: Digests, s: State, threshold: nat, recs: Records)
    requires DiskOk(d, s, recs) && s.regionID + 1 < REGION_LIMIT
    ensures var (s', reply) := RollIfFull(s, threshold);
            && reply == Done && DiskOk(d, s', Rolled(s, threshold, recs)) && s'.index == s.index
            && Log(d, Rolled(s, threshold, recs)) == Log(d, recs)
  {
    if s.offset >= threshold { CreateKeepsFiles(d, s, recs); }
  }

  // ---- Region sizes ----

  // A closed region reached the threshold with its last record, not before.
  ghost predicate ClosedAtThreshold(d: Digests, rs: seq<Segment>, threshold: nat) {
    && rs != []
    && |Layout(d, rs)| >= threshold
    && |Layout(d, rs[..|rs| - 1])| < threshold
  }

  // The active region is below the threshold, every other one was closed at it.
  ghost predicate Bounded(d: Digests, threshold: nat, s: State, recs: Records) {
    && threshold > 4 && s.active in recs && |Layout(d, recs[s.active])| < threshold
    && forall r :: r in recs && r != s.active ==> ClosedAtThreshold(d, recs[r], threshold)
  }

  lemma RollResult(s: State, threshold: nat)
    requires s.regionID + 1 < REGION_LIMIT && s.regionID + 1 !in s.files
    ensures var s' := RollIfFull(s, threshold).0;
            s'.active == if s.offset >= threshold then s.regionID + 1 else s.active
  {
    hide CreateActiveRegion;
    CreateResult(s);
  }

  lemma AppendKeepsBound(d: Digests, threshold: nat, s: State, recs: Records, seg: Segment, s1: State, recs1: Records)
    requires DiskOk(d, s, recs) && Bounded(d, threshold, s, recs) && s.regionID + 1 < REGION_LIMIT
    requires recs1 == recs[s.active := recs[s.active] + [seg]] && DiskOk(d, s1, recs1) && s1.active == s.active
    ensures Bounded(d, threshold, RollIfFull(s1, threshold).0, Rolled(s1, threshold, recs1))
  {
    hide Serialize, RollIfFull;
    RollResult(s1, threshold);
    assert recs1[s.active][..|recs1[s.active]| - 1] == recs[s.active];
  }

  // What a reader gets for a stored segment.
  function Answer(decode: Decoder, version: uint64, seg: Segment): Reply {
    match decode(seg.value)
    case None => Failed(CannotRead(DecodeFailed))
    case Some(v) => Fetched(version, seg.(value := v))
  }

  // What a reader gets for a key with this cell.
  function Shown(decode: Decoder, cell: Option<Cell>, now: nat): Reply {
    match cell
    case None => Failed(NotFound)
    case Some(c) =>
      if Expired(c.seg.expiredAt, now) then Failed(HasExpired)
      else if c.Lost? then Failed(RegionMissing)
      else Answer(decode, c.version, c.seg)
  }

  // An inode's record can be read back through it.
  lemma ReadThroughNode(d: Digests, decode: Decoder, s: State, recs: Records, e: Entry, mvcc: uint64)
    requires DiskOk(d, s, recs) && e in Log(d, recs)
    ensures ReadNode(d, decode, s.files, NodeOf(e, mvcc)) == Answer(decode, mvcc, e.seg)
  {
    hide Layout, ReadRaw, Serialize, Sorted, FlatLog;
    EntryInRegion(d, recs, Sorted(recs.Keys), e);
    assert RegionOk(d, s.files[e.rid], recs[e.rid]);
  }

  // ---- Index ----

  lemma {:induction false} TracksLater(d: Digests, log: seq<Entry>, node: Node, seg: Segment, h: uint64, now: nat,
                                       now': nat)
    requires Tracks(d, log, node, seg, h, now) && now <= now'
    ensures Tracks(d, log, node, seg, h, now')
  {
    if log != [] {
      var init := log[..|log| - 1];
      if Tracks(d, init, node, seg, h, now) {
        TracksLater(d, init, node, seg, h, now, now');
      }
    }
  }

  // Time passing keeps the index right.
  lemma IndexLater(d: Digests, ix: Shards, log: seq<Entry>, m: TimedMap, now: nat, now': nat)
    requires IndexOk(d, ix, log, m, now) && now <= now'
    ensures IndexOk(d, ix, log, m, now')
  {
    forall h ensures CellOk(d, Lookup(ix, h), Get(m, h), log, h, now') {
      assert CellOk(d, Lookup(ix, h), Get(m, h), log, h, now);
      if Lookup(ix, h).Some? {
        TracksLater(d, log, Lookup(ix, h).value, Get(m, h).value.seg, h, now, now');
      }
    }
  }

  // An unexpired inode has its record in the log.
  lemma {:induction false} TrackedEntry(d: Digests, log: seq<Entry>, node: Node, seg: Segment, h: uint64, now: nat)
    returns (e: Entry)
    requires Tracks(d, log, node, seg, h, now) && !Expired(node.expiredAt, now)
    ensures e in log && InumOf(d, e) == h && !e.seg.IsTombstone()
    ensures node == NodeOf(e, node.mvcc) && seg == e.seg
  {
    e := log[|log| - 1];
    if InumOf(d, e) != h || node != NodeOf(e, node.mvcc) || seg != e.seg {
      e := TrackedEntry(d, log[..|log| - 1], node, seg, h, now);
    }
  }

  // The last record of a key with an inode is a put, and the inode's own unless it is expired.
  lemma {:induction false} TrackedLast(d: Digests, log: seq<Entry>, node: Node, seg: Segment, h: uint64, now: nat)
    requires Tracks(d, log, node, seg, h, now)
    ensures match Last(d, log, h)
            case None => Expired(node.expiredAt, now)
            case Some(e) => !e.seg.IsTombstone() && (!Expired(e.seg.expiredAt, now) ==> node == NodeOf(e, node.mvcc))
  {
    if log != [] && InumOf(d, log[|log| - 1]) != h {
      TrackedLast(d, log[..|log| - 1], node, seg, h, now);
    }
  }

  // A new last record of key h, with the index and the map updated for h alone.
  lemma IndexAppend(d: Digests, ix: Shards, log: seq<Entry>, m: TimedMap, now: nat, e: Entry, h: uint64,
                    ix': Shards, m': TimedMap)
    requires IndexOk(d, ix, log, m, now) && InumOf(d, e) == h && Sharded(ix')
    requires forall g :: g != h ==> Lookup(ix', g) == Lookup(ix, g) && Get(m', g) == Get(m, g)
    requires if e.seg.IsTombstone() then Lookup(ix', h).None? && Get(m', h).None?
             else exists v: uint64 :: Lookup(ix', h) == Some(NodeOf(e, v)) && Get(m', h) == Some(Cell(e.seg, v))
    ensures IndexOk(d, ix', log + [e], m', now)
  {
    assert (log + [e])[..|log|] == log;
    forall g ensures CellOk(d, Lookup(ix', g), Get(m', g), log + [e], g, now) {
      assert CellOk(d, Lookup(ix, g), Get(m, g), log, g, now);
    }
  }
}
