// Region compaction as the steps above cleanupDirtyRegion state it (vfs/lfs.go:1062-1072): scan the four lowest
// regions, copy each live record to the end of the log, repoint its inode, and remove a region once it is scanned.

module Compaction {
  import opened Wrappers
  import opened Bytes
  import opened Segments
  import opened RegionLog
  import opened Index
  import opened FileNames
  import opened Store
  import opened StoreInvariant

  const VICTIMS := 4

  // isValid: compares creation times, and takes the expiry for seconds.
  predicate IsValid(seg: Segment, node: Node, now: nat) {
    && !seg.IsTombstone()
    && seg.createdAt == node.createdAt
    && (seg.expiredAt == 0 || now / NANOS_PER_SECOND < seg.expiredAt)
  }

  // One scanned record: copied if its inode says it is live.
  function MigrateSegment(d: Digests, threshold: nat, s: State, seg: Segment, now: nat): (State, Reply) {
    var h := d.inodeNum(seg.key);
    match Lookup(s.index, h)
    case None => (s, Done)
    case Some(node) =>
      if !IsValid(seg, node, now) then (s, Done) else
        var bytes := Serialize(d, seg);
        if !CanAppend(s, |bytes|) then (s, Failed(AppendFailed)) else
          var moved := node.(regionID := s.regionID, position := s.offset);
          var s1 := Append(s, bytes).(index := SetNode(s.index, h, moved));
          RollIfFull(AddOffset(s1, seg.Size()), threshold)
  }

  // The scan of one region file, from an offset on.
  function MigrateFrom(d: Digests, threshold: nat, s: State, file: seq<byte>, offset: nat, now: nat): (State, Reply)
    decreases |file| - offset
  {
    if offset >= |file| then (s, Done) else
      match ReadRaw(d, file, offset)
      case Err(e) => (s, Failed(CannotRead(e)))
      case Ok(seg) =>
        var (s1, reply) := MigrateSegment(d, threshold, s, seg, now);
        if reply != Done then (s1, reply)
        else if seg.Size() == 0 then (s1, Failed(ScanStuck))
        else MigrateFrom(d, threshold, s1, file, offset + seg.Size(), now)
  }

  function RemoveRegion(s: State, rid: uint64): State {
    s.(files := s.files - {rid})
  }

  function FileOf(s: State, rid: uint64): seq<byte> {
    if rid in s.files then s.files[rid] else []
  }

  function CleanRegions(d: Digests, threshold: nat, s: State, ids: seq<uint64>, now: nat): (State, Reply)
    decreases |ids|
  {
    if ids == [] then (s, Done) else
      var (s1, reply) := MigrateFrom(d, threshold, s, FileOf(s, ids[0]), 4, now);
      if reply != Done then (s1, reply)
      else CleanRegions(d, threshold, RemoveRegion(s1, ids[0]), ids[1..], now)
  }

  function Victims(keys: set<uint64>): (ids: seq<uint64>)
    requires |keys| >= 5
    ensures |ids| == VICTIMS && ids <= Sorted(keys) && |Sorted(keys)| == |keys|
  {
    AscendingLength(keys, Sorted(keys));
    Sorted(keys)[..VICTIMS]
  }

  function CleanupDirtyRegion(d: Digests, threshold: nat, s: State, now: nat): (State, Reply) {
    if |s.files| < 5 then (s, Done)
    else CleanRegions(d, threshold, s, Victims(s.files.Keys), now)
  }

  // ---- What compaction does, on the log ----

  // The scanned record e is copied, judged by the index before compaction.
  predicate Passes(d: Digests, ix: Shards, e: Entry, now: nat) {
    var node := Lookup(ix, InumOf(d, e));
    node.Some? && IsValid(e.seg, node.value, now)
  }

  function Kept(d: Digests, ix: Shards, es: seq<Entry>, now: nat): seq<Entry> {
    if es == [] then [] else
      var kept := Kept(d, ix, es[..|es| - 1], now);
      var e := es[|es| - 1];
      if Passes(d, ix, e, now) then kept + [e] else kept
  }

  function Segs(es: seq<Entry>): (segs: seq<Segment>)
    ensures |segs| == |es|
  {
    seq(|es|, i requires 0 <= i < |es| => es[i].seg)
  }

  // An inode after its record was last copied to e.
  function Moved(node: Option<Node>, e: Option<Entry>): Option<Node> {
    if node.None? || e.None? then node
    else Some(node.value.(regionID := e.value.rid, position := e.value.pos % U64))
  }

  ghost predicate Repointed(d: Digests, ix: Shards, ix': Shards, copies: seq<Entry>) {
    Sharded(ix') && forall h :: Lookup(ix', h) == Moved(Lookup(ix, h), Last(d, copies, h))
  }

  // Progress: the records done are scanned, base is what the log held before the copies.
  ghost predicate Migrated(d: Digests, ix: Shards, now: nat, base: seq<Entry>, done: seq<Entry>, copies: seq<Entry>,
                           s: State, recs: Records)
  {
    && DiskOk(d, s, recs)
    && Log(d, recs) == base + copies
    && Segs(copies) == Segs(Kept(d, ix, done, now))
    && Repointed(d, ix, s.index, copies)
  }

  function BytesOf(d: Digests, es: seq<Entry>): nat {
    if es == [] then 0 else |Serialize(d, es[0].seg)| + BytesOf(d, es[1..])
  }

  // Enough room and region names even if every record still to scan were copied.
  predicate Budget(d: Digests, s: State, es: seq<Entry>) {
    s.offset + BytesOf(d, es) <= MAX_FILE && s.regionID + |es| < REGION_LIMIT
  }

  // Other regions are untouched; new ones lie above.
  predicate OnlyAbove(s: State, recs: Records, recs': Records) {
    && recs.Keys <= recs'.Keys
    && (forall r :: r in recs && r < s.regionID ==> recs'[r] == recs[r])
    && (forall r :: r in recs' ==> r in recs || r > s.regionID)
  }

  lemma RepointOne(d: Digests, ix: Shards, ix': Shards, copies: seq<Entry>, c: Entry, node: Node)
    requires Repointed(d, ix, ix', copies) && Lookup(ix', InumOf(d, c)) == Some(node)
    ensures var moved := node.(regionID := c.rid, position := c.pos % U64);
            Repointed(d, ix, SetNode(ix', InumOf(d, c), moved), copies + [c])
  {
    assert (copies + [c])[..|copies|] == copies;
    var moved := node.(regionID := c.rid, position := c.pos % U64);
    forall g ensures Lookup(SetNode(ix', InumOf(d, c), moved), g) == Moved(Lookup(ix, g), Last(d, copies + [c], g)) {
      assert Lookup(ix', g) == Moved(Lookup(ix, g), Last(d, copies, g));
    }
  }

  lemma RollOffset(s: State, threshold: nat)
    requires s.regionID + 1 < REGION_LIMIT && s.offset >= 4
    ensures RollIfFull(s, threshold).0.offset <= s.offset
    ensures s.regionID <= RollIfFull(s, threshold).0.regionID <= s.regionID + 1
  {
  }

  // Appending one record and rolling if that filled the region.
  lemma AppendAndRoll(d: Digests, threshold: nat, s: State, recs: Records, seg: Segment, ix': Shards)
    returns (s': State, recs': Records)
    requires DiskOk(d, s, recs) && seg.WellFormed() && Room(s, |Serialize(d, seg)|)
    ensures (s', Done) == RollIfFull(AddOffset(Append(s, Serialize(d, seg)).(index := ix'), seg.Size()), threshold)
    ensures DiskOk(d, s', recs') && s'.index == ix'
    ensures Log(d, recs') == Log(d, recs) + [Entry(s.active, s.offset, seg)]
    ensures OnlyAbove(s, recs, recs')
    ensures s.regionID <= s'.regionID <= s.regionID + 1
    ensures s'.offset <= s.offset + |Serialize(d, seg)|
    ensures Bounded(d, threshold, s, recs) ==> Bounded(d, threshold, s', recs')
  {
    hide Log, Layout, Serialize, RollIfFull, Bounded;
    AppendKeepsFiles(d, s, recs, seg);
    var recs1 := recs[s.active := recs[s.active] + [seg]];
    var s1 := AddOffset(Append(s, Serialize(d, seg)).(index := ix'), seg.Size());
    if Bounded(d, threshold, s, recs) { AppendKeepsBound(d, threshold, s, recs, seg, s1, recs1); }
    RollKeepsFiles(d, s1, threshold, recs1);
    RollOffset(s1, threshold);
    s', recs' := RollIfFull(s1, threshold).0, Rolled(s1, threshold, recs1);
  }

  lemma MigrateOne(d: Digests, threshold: nat, ix: Shards, now: nat, base: seq<Entry>, done: seq<Entry>,
                   copies: seq<Entry>, s: State, recs: Records, e: Entry, todo: seq<Entry>)
    returns (s': State, recs': Records, copies': seq<Entry>)
    requires Migrated(d, ix, now, base, done, copies, s, recs)
    requires e.seg.WellFormed() && todo != [] && todo[0] == e && Budget(d, s, todo)
    ensures MigrateSegment(d, threshold, s, e.seg, now) == (s', Done)
    ensures Migrated(d, ix, now, base, done + [e], copies', s', recs')
    ensures Budget(d, s', todo[1..]) && OnlyAbove(s, recs, recs') && s'.regionID >= s.regionID
    ensures Bounded(d, threshold, s, recs) ==> Bounded(d, threshold, s', recs')
  {
    hide Log, Layout, Serialize, RollIfFull, Repointed, Kept, Segs, Last, Budget, Room, Bounded;
    var h := InumOf(d, e);
    BudgetRoom(d, s, recs, todo);
    hide RegionOk;
    RepointedAt(d, ix, s.index, copies, h);
    KeptNext(d, ix, done, e, now);
    if !Passes(d, ix, e, now) {
      BudgetNext(d, s, s, todo);
      return s, recs, copies;
    }
    var c := Entry(s.active, s.offset, e.seg);
    var node := Lookup(s.index, h).value;
    var ix' := SetNode(s.index, h, node.(regionID := s.regionID, position := s.offset));
    s', recs' := AppendAndRoll(d, threshold, s, recs, e.seg, ix');
    copies' := copies + [c];
    RepointOne(d, ix, s.index, copies, c, node);
    SegsNext(copies, c);
    BudgetNext(d, s, s', todo);
    assert base + copies' == base + copies + [c];
  }

  lemma BudgetRoom(d: Digests, s: State, recs: Records, todo: seq<Entry>)
    requires DiskOk(d, s, recs) && Budget(d, s, todo) && todo != []
    ensures Room(s, |Serialize(d, todo[0].seg)|) && CanAppend(s, |Serialize(d, todo[0].seg)|)
  {
  }

  lemma BudgetNext(d: Digests, s: State, s': State, todo: seq<Entry>)
    requires Budget(d, s, todo) && todo != []
    requires s'.offset <= s.offset + |Serialize(d, todo[0].seg)| && s'.regionID <= s.regionID + 1
    ensures Budget(d, s', todo[1..])
  {
  }

  lemma SegsNext(es: seq<Entry>, e: Entry)
    ensures Segs(es + [e]) == Segs(es) + [e.seg]
  {
  }

  lemma {:induction false} KeptNext(d: Digests, ix: Shards, done: seq<Entry>, e: Entry, now: nat)
    ensures Segs(Kept(d, ix, done + [e], now))
            == if Passes(d, ix, e, now) then Segs(Kept(d, ix, done, now)) + [e.seg] else Segs(Kept(d, ix, done, now))
  {
    assert (done + [e])[..|done|] == done;
  }

  lemma {:induction false} RepointedAt(d: Digests, ix: Shards, ix': Shards, copies: seq<Entry>, h: uint64)
    requires Repointed(d, ix, ix', copies)
    ensures Lookup(ix', h) == Moved(Lookup(ix, h), Last(d, copies, h))
  {
  }

  // The entries of region rid from record i on.
  function Tail(d: Digests, rid: uint64, rs: seq<Segment>, i: nat): (es: seq<Entry>)
    requires i <= |rs|
    ensures |es| == |rs| - i
  {
    Entries(d, rid, rs)[i..]
  }

  lemma OnlyAboveTrans(s: State, s1: State, recs: Records, recs1: Records, recs2: Records)
    requires OnlyAbove(s, recs, recs1) && OnlyAbove(s1, recs1, recs2) && s.regionID <= s1.regionID
    ensures OnlyAbove(s, recs, recs2)
  {
  }

  // Scanning a region from record i on; later holds what the following regions will need room for.
  lemma {:induction false} MigrateRegion(
    d: Digests, threshold: nat, ix: Shards, now: nat, base: seq<Entry>, done: seq<Entry>, copies: seq<Entry>,
    s: State, recs: Records, rid: uint64, rs: seq<Segment>, i: nat, later: seq<Entry>)
    returns (s': State, recs': Records, copies': seq<Entry>)
    requires Migrated(d, ix, now, base, done, copies, s, recs)
    requires AllWellFormed(rs) && i <= |rs| && Budget(d, s, Tail(d, rid, rs, i) + later)
    ensures MigrateFrom(d, threshold, s, Layout(d, rs), |Layout(d, rs[..i])|, now) == (s', Done)
    ensures Migrated(d, ix, now, base, done + Tail(d, rid, rs, i), copies', s', recs')
    ensures Budget(d, s', later) && OnlyAbove(s, recs, recs') && s'.regionID >= s.regionID
    ensures Bounded(d, threshold, s, recs) ==> Bounded(d, threshold, s', recs')
    decreases |rs| - i
  {
    hide Bounded, Migrated, Budget, Layout, MigrateSegment, Entries, Serialize, ReadRaw, OnlyAbove;
    if i == |rs| {
      assert rs[..i] == rs;
      assert Tail(d, rid, rs, i) == [];
      assert done + [] == done && [] + later == later;
      s', recs', copies' := s, recs, copies;
      assert OnlyAbove(s, recs, recs') by { OnlyAboveRefl(s, recs); }
      return;
    }
    EntryAt(d, rid, rs, i);
    var e := Entries(d, rid, rs)[i];
    var todo := Tail(d, rid, rs, i) + later;
    assert Tail(d, rid, rs, i) == [e] + Tail(d, rid, rs, i + 1);
    assert todo == [e] + (Tail(d, rid, rs, i + 1) + later);
    assert todo[1..] == Tail(d, rid, rs, i + 1) + later;
    var s1, recs1, copies1 := MigrateOne(d, threshold, ix, now, base, done, copies, s, recs, e, todo);
    ReadRecord(d, rs, i);
    Boundary(d, rs, i);
    s', recs', copies' := MigrateRegion(d, threshold, ix, now, base, done + [e], copies1, s1, recs1, rid, rs, i + 1,
        later);
    assert done + [e] + Tail(d, rid, rs, i + 1) == done + Tail(d, rid, rs, i);
    OnlyAboveTrans(s, s1, recs, recs1, recs');
  }

  lemma OnlyAboveRefl(s: State, recs: Records)
    ensures OnlyAbove(s, recs, recs)
  {
  }

  // The scanned regions are gone, the others are there; new ones lie above.
  predicate OnlyOthers(s: State, recs: Records, recs': Records, scanned: seq<uint64>) {
    && (forall r :: r in recs' ==> (r in recs && r !in scanned) || r > s.regionID)
    && (forall r :: r in recs && r !in scanned ==> r in recs')
  }

  // The regions still to scan: the lowest ones, all below the active one.
  ghost predicate Remaining(top: uint64, recs: Records, rest: seq<uint64>) {
    && Covered(rest, recs) && Ascending(rest)
    && (forall v :: v in rest ==> v < top)
    && (forall r, v :: r in recs && v in rest ==> r in rest || v < r)
  }

  lemma RemainingLater(s: State, recs: Records, s': State, recs': Records, rest: seq<uint64>)
    requires Remaining(s.regionID, recs, rest) && OnlyAbove(s, recs, recs') && s.regionID <= s'.regionID && rest != []
    ensures Covered(rest, recs') && recs'[rest[0]] == recs[rest[0]]
    ensures forall r :: r in recs' ==> rest[0] <= r
    ensures Remaining(s'.regionID, recs' - {rest[0]}, rest[1..])
    ensures forall v :: v in rest[1..] ==> v in recs && v in recs' - {rest[0]} && (recs' - {rest[0]})[v] == recs[v]
  {
    var low := rest[0];
    forall i | 0 <= i < |rest| ensures rest[i] in recs' && recs'[rest[i]] == recs[rest[i]] {
      assert rest[i] in rest;
    }
    forall r | r in recs' ensures low <= r {
      assert low in rest;
      if r in rest {
        var i :| 0 <= i < |rest| && rest[i] == r;
      }
    }
    forall v | v in rest[1..] ensures v in rest && low < v {
      var i :| 0 <= i < |rest[1..]| && rest[1..][i] == v;
      assert rest[i + 1] == v;
    }
    forall r | r in rest && r != low ensures r in rest[1..] {
      var i :| 0 <= i < |rest| && rest[i] == r;
      assert rest[1..][i - 1] == r;
    }
  }

  lemma {:induction false} RemoveKeepsProgress(d: Digests, ix: Shards, now: nat, base: seq<Entry>, done: seq<Entry>,
                                               copies: seq<Entry>, s: State, recs: Records, low: uint64)
    requires low in recs && low < s.regionID && forall r :: r in recs ==> low <= r
    requires Migrated(d, ix, now, Entries(d, low, recs[low]) + base, done, copies, s, recs)
    ensures Migrated(d, ix, now, base, done, copies, RemoveRegion(s, low), recs - {low})
  {
    hide Log, Entries, Repointed, RegionOk, Kept, Segs;
    LogDropLowest(d, recs, low);
    var gone := Entries(d, low, recs[low]);
    assert gone + base + copies == gone + (base + copies);
    assert (gone + (base + copies))[|gone|..] == base + copies;
    assert (gone + Log(d, recs - {low}))[|gone|..] == Log(d, recs - {low});
  }

  // One region scanned and removed.
  lemma CleanOne(
    d: Digests, threshold: nat, ix: Shards, now: nat, base: seq<Entry>, done: seq<Entry>, copies: seq<Entry>,
    s: State, recs: Records, rest: seq<uint64>)
    returns (s1: State, recs': Records, copies': seq<Entry>)
    requires Remaining(s.regionID, recs, rest) && rest != []
    requires Migrated(d, ix, now, FlatLog(d, recs, rest) + base, done, copies, s, recs)
    requires Budget(d, s, FlatLog(d, recs, rest))
    ensures MigrateFrom(d, threshold, s, FileOf(s, rest[0]), 4, now) == (s1, Done)
    ensures rest[0] in recs && Covered(rest[1..], recs') && s.regionID <= s1.regionID
    ensures OnlyOthers(s, recs, recs', [rest[0]])
    ensures var s' := RemoveRegion(s1, rest[0]);
            && Remaining(s'.regionID, recs', rest[1..])
            && FlatLog(d, recs, rest) == Entries(d, rest[0], recs[rest[0]]) + FlatLog(d, recs', rest[1..])
            && Migrated(d, ix, now, FlatLog(d, recs', rest[1..]) + base, done + Entries(d, rest[0], recs[rest[0]]),
                        copies', s', recs')
            && Budget(d, s', FlatLog(d, recs', rest[1..]))
            && (Bounded(d, threshold, s, recs) ==> Bounded(d, threshold, s', recs'))
  {
    hide Bounded, Migrated, Budget, Log, Layout, FlatLog, Entries, MigrateFrom, OnlyAbove, Remaining;
    var low, later := rest[0], rest[1..];
    RemainingBelow(s, recs, rest);
    FlatLogFront(d, recs, rest);
    var es, after := Entries(d, low, recs[low]), FlatLog(d, recs, later);
    assert es + after + base == es + (after + base);
    FirstRecord(d, s, recs, low, ix, now, es + (after + base), done, copies);
    assert Tail(d, low, recs[low], 0) == es;
    s1, recs', copies' :=
      MigrateRegion(d, threshold, ix, now, es + (after + base), done, copies, s, recs, low, recs[low], 0, after);
    RemainingLater(s, recs, s1, recs', rest);
    RemoveKeepsProgress(d, ix, now, after + base, done + es, copies', s1, recs', low);
    RemoveKeepsBound(d, threshold, ix, now, es + (after + base), done + es, copies', s1, recs', low);
    OthersLeft(s, recs, recs', low);
    recs' := recs' - {low};
    FlatLogSame(d, recs, recs', later);
    BudgetSame(d, s1, RemoveRegion(s1, low), after);
  }

  lemma OthersLeft(s: State, recs: Records, recs': Records, low: uint64)
    requires OnlyAbove(s, recs, recs')
    ensures OnlyOthers(s, recs, recs' - {low}, [low])
  {
  }

  lemma OthersTrans(s: State, s1: State, recs: Records, recs1: Records, recs2: Records, rest: seq<uint64>)
    requires rest != [] && OnlyOthers(s, recs, recs1, [rest[0]]) && OnlyOthers(s1, recs1, recs2, rest[1..])
    requires s.regionID <= s1.regionID
    ensures OnlyOthers(s, recs, recs2, rest)
  {
    assert rest == [rest[0]] + rest[1..];
    assert forall r :: r in rest <==> r in [rest[0]] || r in rest[1..];
  }

  lemma RemoveKeepsBound(d: Digests, threshold: nat, ix: Shards, now: nat, base: seq<Entry>, done: seq<Entry>,
                         copies: seq<Entry>, s: State, recs: Records, low: uint64)
    requires Migrated(d, ix, now, base, done, copies, s, recs) && low < s.regionID
    ensures Bounded(d, threshold, s, recs) ==> Bounded(d, threshold, RemoveRegion(s, low), recs - {low})
  {
  }

  lemma {:induction false} CleanAll(
    d: Digests, threshold: nat, ix: Shards, now: nat, base: seq<Entry>, done: seq<Entry>, copies: seq<Entry>,
    s: State, recs: Records, rest: seq<uint64>)
    returns (s': State, recs': Records, copies': seq<Entry>)
    requires Remaining(s.regionID, recs, rest)
    requires Migrated(d, ix, now, FlatLog(d, recs, rest) + base, done, copies, s, recs)
    requires Budget(d, s, FlatLog(d, recs, rest))
    ensures CleanRegions(d, threshold, s, rest, now) == (s', Done)
    ensures Migrated(d, ix, now, base, done + FlatLog(d, recs, rest), copies', s', recs')
    ensures Bounded(d, threshold, s, recs) ==> Bounded(d, threshold, s', recs')
    ensures OnlyOthers(s, recs, recs', rest) && s.regionID <= s'.regionID
    decreases |rest|
  {
    hide Bounded, Migrated, Budget, FlatLog, Entries, MigrateFrom, Remaining, OnlyOthers;
    if rest == [] {
      NoRegionLeft(d, recs, rest, base, done);
      assert OnlyOthers(s, recs, recs, []) by { OthersRefl(s, recs); }
      return s, recs, copies;
    }
    var s1, recs1, copies1 := CleanOne(d, threshold, ix, now, base, done, copies, s, recs, rest);
    var es := Entries(d, rest[0], recs[rest[0]]);
    s', recs', copies' :=
      CleanAll(d, threshold, ix, now, base, done + es, copies1, RemoveRegion(s1, rest[0]), recs1, rest[1..]);
    assert done + es + FlatLog(d, recs1, rest[1..]) == done + (es + FlatLog(d, recs1, rest[1..]));
    OthersTrans(s, RemoveRegion(s1, rest[0]), recs, recs1, recs', rest);
  }

  lemma OthersRefl(s: State, recs: Records)
    ensures OnlyOthers(s, recs, recs, [])
  {
  }

  lemma {:induction false} NoRegionLeft(d: Digests, recs: Records, rest: seq<uint64>, base: seq<Entry>,
                                        done: seq<Entry>)
    requires rest == []
    ensures FlatLog(d, recs, rest) + base == base && done + FlatLog(d, recs, rest) == done
  {
  }

  lemma RemainingBelow(s: State, recs: Records, rest: seq<uint64>)
    requires Remaining(s.regionID, recs, rest) && rest != []
    ensures rest[0] < s.regionID && rest[0] in recs && Covered(rest, recs)
  {
    assert rest[0] in rest;
  }

  lemma {:induction false} FirstRecord(d: Digests, s: State, recs: Records, low: uint64, ix: Shards, now: nat,
                                       base: seq<Entry>, done: seq<Entry>, copies: seq<Entry>)
    requires Migrated(d, ix, now, base, done, copies, s, recs) && low in recs
    ensures FileOf(s, low) == Layout(d, recs[low]) && AllWellFormed(recs[low])
    ensures |Layout(d, recs[low][..0])| == 4
  {
    assert recs[low][..0] == [];
  }

  lemma BudgetSame(d: Digests, s: State, s': State, es: seq<Entry>)
    requires Budget(d, s, es) && s.offset == s'.offset && s.regionID == s'.regionID
    ensures Budget(d, s', es)
  {
  }

  // ---- The effect of a whole compaction ----

  // The records of the four lowest regions.
  function VictimLog(d: Digests, recs: Records): seq<Entry>
    requires |recs| >= 5
  {
    assert |recs| == |recs.Keys|;
    var ids := Victims(recs.Keys);
    assert forall i :: 0 <= i < |ids| ==> ids[i] in Sorted(recs.Keys);
    FlatLog(d, recs, ids)
  }

  function SurvivorLog(d: Digests, recs: Records): seq<Entry>
    requires |recs| >= 5
  {
    assert |recs| == |recs.Keys|;
    var ids := Sorted(recs.Keys);
    assert Victims(recs.Keys) <= ids;
    assert forall i :: VICTIMS <= i < |ids| ==> ids[i] in ids;
    FlatLog(d, recs, ids[VICTIMS..])
  }

  lemma VictimsAreLowest(keys: set<uint64>, top: uint64)
    requires |keys| >= 5 && forall r :: r in keys ==> r <= top
    ensures Ascending(Victims(keys))
    ensures forall v :: v in Victims(keys) ==> v < top && v in keys
    ensures forall r, v :: r in keys && v in Victims(keys) ==> r in Victims(keys) || v < r
  {
    hide Sorted;
    var ids, victims := Sorted(keys), Victims(keys);
    forall v | v in victims ensures v < top && v in keys {
      var i :| 0 <= i < |victims| && victims[i] == v;
      assert ids[i] < ids[VICTIMS] && ids[VICTIMS] in ids && ids[i] in ids;
    }
    forall r, v | r in keys && v in victims && r !in victims ensures v < r {
      var i :| 0 <= i < |victims| && victims[i] == v;
      var j :| 0 <= j < |ids| && ids[j] == r;
      assert j >= VICTIMS;
    }
  }

  lemma VictimsRemain(d: Digests, s: State, recs: Records)
    requires DiskOk(d, s, recs) && |recs.Keys| >= 5
    ensures Remaining(s.regionID, recs, Victims(recs.Keys))
  {
    assert forall r :: r in recs.Keys ==> r <= s.regionID;
    hide Victims, DiskOk;
    VictimsAreLowest(recs.Keys, s.regionID);
    RemainingOf(s.regionID, recs);
  }

  lemma RemainingOf(top: uint64, recs: Records)
    requires |recs.Keys| >= 5 && Ascending(Victims(recs.Keys))
    requires forall v :: v in Victims(recs.Keys) ==> v < top && v in recs.Keys
    requires forall r, v :: r in recs.Keys && v in Victims(recs.Keys) ==> r in Victims(recs.Keys) || v < r
    ensures Remaining(top, recs, Victims(recs.Keys))
  {
    hide Victims;
    forall i | 0 <= i < |Victims(recs.Keys)| ensures Victims(recs.Keys)[i] in recs {
      assert Victims(recs.Keys)[i] in Victims(recs.Keys);
    }
  }

  lemma VictimsAreFirst(d: Digests, s: State, recs: Records)
    requires DiskOk(d, s, recs) && |recs| >= 5
    ensures |recs.Keys| >= 5
    ensures Remaining(s.regionID, recs, Victims(recs.Keys))
    ensures Log(d, recs) == VictimLog(d, recs) + SurvivorLog(d, recs)
  {
    hide FlatLog, Sorted, DiskOk, Remaining;
    assert |recs| == |recs.Keys|;
    VictimsRemain(d, s, recs);
    var ids, victims := Sorted(recs.Keys), Victims(recs.Keys);
    var others := ids[VICTIMS..];
    assert ids == victims + others;
    assert Covered(ids, recs);
    FlatLogConcat(d, recs, victims, others);
  }

  // After compaction the log is what the survivors held, followed by copies of the live victim records in their old
  // order, and each inode with a copy points at its last one. Nothing else changes.
  lemma CompactionEffect(d: Digests, threshold: nat, s: State, recs: Records, now: nat)
    returns (s': State, recs': Records, copies: seq<Entry>)
    requires DiskOk(d, s, recs) && Sharded(s.index) && |recs| >= 5 && Budget(d, s, VictimLog(d, recs))
    ensures CleanupDirtyRegion(d, threshold, s, now) == (s', Done)
    ensures DiskOk(d, s', recs')
    ensures Log(d, recs') == SurvivorLog(d, recs) + copies
    ensures Segs(copies) == Segs(Kept(d, s.index, VictimLog(d, recs), now))
    ensures Repointed(d, s.index, s'.index, copies)
    ensures Bounded(d, threshold, s, recs) ==> Bounded(d, threshold, s', recs')
    ensures |recs.Keys| >= 5 && OnlyOthers(s, recs, recs', Victims(recs.Keys)) && s.regionID <= s'.regionID
  {
    hide Bounded, OnlyOthers;
    VictimsAreFirst(d, s, recs);
    assert |s.files| == |s.files.Keys| == |recs.Keys|;
    var victims := VictimLog(d, recs);
    var base := SurvivorLog(d, recs);
    assert Migrated(d, s.index, now, victims + base, [], [], s, recs) by {
      assert victims + base + [] == victims + base;
      assert Segs([]) == Segs(Kept(d, s.index, [], now));
    }
    s', recs', copies := CleanAll(d, threshold, s.index, now, base, [], [], s, recs, Victims(recs.Keys));
    assert [] + victims == victims;
  }

  // The regions compaction removes from a store with regions keys.
  function VictimSet(keys: set<uint64>): set<uint64> {
    if |keys| < 5 then {} else set r | r in Victims(keys)
  }

  // Exactly those region files go.
  lemma CompactionRemoves(d: Digests, threshold: nat, s: State, recs: Records, now: nat)
    requires DiskOk(d, s, recs) && Sharded(s.index) && (|recs| >= 5 ==> Budget(d, s, VictimLog(d, recs)))
    ensures var files := CleanupDirtyRegion(d, threshold, s, now).0.files;
            s.files.Keys - files.Keys == VictimSet(s.files.Keys)
    ensures VictimSet(s.files.Keys) == {} <==> |s.files| < 5
  {
    hide Bounded, Victims, VictimLog, SurvivorLog, Kept, Segs, Repointed, Budget, RegionOk, Log;
    assert |s.files| == |s.files.Keys| == |recs.Keys| == |recs|;
    if |recs| >= 5 {
      VictimsRemain(d, s, recs);
      assert Victims(recs.Keys)[0] in VictimSet(recs.Keys);
      var s', recs', copies := CompactionEffect(d, threshold, s, recs, now);
      forall r ensures r in s.files.Keys - s'.files.Keys <==> r in VictimSet(s.files.Keys) {
        if r in Victims(recs.Keys) { VictimIsThere(s, recs, r); }
      }
    }
  }

  lemma VictimIsThere(s: State, recs: Records, r: uint64)
    requires |recs.Keys| >= 5 && Remaining(s.regionID, recs, Victims(recs.Keys)) && r in Victims(recs.Keys)
    ensures r in recs && r < s.regionID
  {
    hide Victims;
    var ids := Victims(recs.Keys);
    var i :| 0 <= i < |ids| && ids[i] == r;
  }
}
