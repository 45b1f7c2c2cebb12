// What still holds once the store has been opened from a snapshot, which may be older than the log: every unexpired
// inode points at a put record of its key, if not always the latest one, or names a region that compaction has removed.

module Snapshots {
  import opened Wrappers
  import opened Bytes
  import opened Segments
  import opened RegionLog
  import opened Index
  import opened Store
  import opened StoreInvariant
  import opened Compaction
  import opened CompactionMeaning
  import opened Reopen

  // ---- The invariant of one key ----

  ghost predicate StoredAs(d: Digests, log: seq<Entry>, node: Node, seg: Segment, h: uint64) {
    exists e :: e in log && InumOf(d, e) == h && !e.seg.IsTombstone() && node == NodeOf(e, node.mvcc) && e.seg == seg
  }

  // The inode's region is gone for good: new regions lie above top.
  ghost predicate Vanished(d: Digests, recs: Records, top: uint64, written: set<Segment>, node: Node, seg: Segment,
                           h: uint64) {
    && node.regionID !in recs && node.regionID <= top
    && seg in written && d.inodeNum(seg.key) == h && !seg.IsTombstone()
    && node == NodeOf(Entry(node.regionID, node.position, seg), node.mvcc)
  }

  ghost predicate SaneCell(d: Digests, recs: Records, top: uint64, written: set<Segment>, node: Option<Node>,
                           cell: Option<Cell>, h: uint64, now: nat)
  {
    match (node, cell)
    case (None, None) => true
    case (Some(n), Some(c)) =>
      && c.version == n.mvcc && c.seg.expiredAt == n.expiredAt
      && (|| Expired(n.expiredAt, now)
          || if c.Lost? then Vanished(d, recs, top, written, n, c.seg, h) else StoredAs(d, Log(d, recs), n, c.seg, h))
    case _ => false
  }

  // written: every put so far.
  ghost predicate SaneIndex(d: Digests, ix: Shards, recs: Records, top: uint64, written: set<Segment>, m: TimedMap,
                            now: nat)
  {
    Sharded(ix) && forall h :: SaneCell(d, recs, top, written, Lookup(ix, h), Get(m, h), h, now)
  }

  ghost predicate Recorded(log: seq<Entry>, written: set<Segment>) {
    forall e :: e in log && !e.seg.IsTombstone() ==> e.seg in written
  }

  // Creation times identify the puts of a key.
  ghost predicate Distinguished(d: Digests, written: set<Segment>) {
    forall a, b :: a in written && b in written && d.inodeNum(a.key) == d.inodeNum(b.key) && a.createdAt == b.createdAt
                   ==> a == b
  }

  lemma DistinguishedStamps(d: Digests, log: seq<Entry>, written: set<Segment>)
    requires Recorded(log, written) && Distinguished(d, written)
    ensures Stamped(d, log)
  {
    forall i, j | 0 <= i < |log| && 0 <= j < |log| && SameStamp(d, log[i], log[j]) ensures log[i].seg == log[j].seg {
      assert log[i] in log && log[j] in log;
    }
  }

  // ---- Keeping it ----

  lemma SaneLater(d: Digests, ix: Shards, recs: Records, top: uint64, written: set<Segment>, m: TimedMap, now: nat,
                  now': nat)
    requires SaneIndex(d, ix, recs, top, written, m, now) && now <= now'
    ensures SaneIndex(d, ix, recs, top, written, m, now')
  {
    hide Log, StoredAs, Vanished;
    forall h ensures SaneCell(d, recs, top, written, Lookup(ix, h), Get(m, h), h, now') {
      assert SaneCell(d, recs, top, written, Lookup(ix, h), Get(m, h), h, now);
    }
  }

  // An index that agrees with the log is sane.
  lemma RightIsSane(d: Digests, ix: Shards, recs: Records, top: uint64, written: set<Segment>, m: TimedMap, now: nat)
    requires IndexOk(d, ix, Log(d, recs), m, now)
    ensures SaneIndex(d, ix, recs, top, written, m, now)
  {
    hide Log, Tracks, Gone;
    forall h ensures SaneCell(d, recs, top, written, Lookup(ix, h), Get(m, h), h, now) {
      assert CellOk(d, Lookup(ix, h), Get(m, h), Log(d, recs), h, now);
      if h in m && !Expired(m[h].seg.expiredAt, now) {
        var e := TrackedEntry(d, Log(d, recs), Lookup(ix, h).value, m[h].seg, h, now);
      }
    }
  }

  lemma SaneReset(d: Digests, ix: Shards, recs: Records, top: uint64, written: set<Segment>, m: TimedMap, now: nat)
    requires SaneIndex(d, ix, recs, top, written, m, now)
    ensures SaneIndex(d, ResetVersions(ix), recs, top, written, ResetMap(m), now)
  {
    hide Log, ResetVersions;
    forall h ensures SaneCell(d, recs, top, written, Lookup(ResetVersions(ix), h), Get(ResetMap(m), h), h, now) {
      assert SaneCell(d, recs, top, written, Lookup(ix, h), Get(m, h), h, now);
    }
  }

  // The log and the puts grow, new regions lie above.
  ghost predicate Grows(d: Digests, recs: Records, recs': Records, top: uint64, top': uint64, written: set<Segment>,
                        written': set<Segment>)
  {
    && (forall e :: e in Log(d, recs) ==> e in Log(d, recs'))
    && (forall r :: r in recs' ==> r in recs || r > top)
    && top <= top' && written <= written'
  }

  lemma SaneGrows(d: Digests, ix: Shards, recs: Records, recs': Records, top: uint64, top': uint64,
                  written: set<Segment>, written': set<Segment>, m: TimedMap, now: nat)
    requires SaneIndex(d, ix, recs, top, written, m, now) && Grows(d, recs, recs', top, top', written, written')
    ensures SaneIndex(d, ix, recs', top', written', m, now)
  {
    hide Log;
    forall h ensures SaneCell(d, recs', top', written', Lookup(ix, h), Get(m, h), h, now) {
      assert SaneCell(d, recs, top, written, Lookup(ix, h), Get(m, h), h, now);
    }
  }

  lemma SaneSet(d: Digests, ix: Shards, recs: Records, top: uint64, written: set<Segment>, m: TimedMap, now: nat,
                e: Entry, v: uint64)
    requires SaneIndex(d, ix, recs, top, written, m, now) && e in Log(d, recs) && !e.seg.IsTombstone()
    ensures var h := InumOf(d, e);
            SaneIndex(d, SetNode(ix, h, NodeOf(e, v)), recs, top, written, m[h := Cell(e.seg, v)], now)
  {
    hide Log, SetNode, Vanished;
    var h := InumOf(d, e);
    var ix', m' := SetNode(ix, h, NodeOf(e, v)), m[h := Cell(e.seg, v)];
    forall g ensures SaneCell(d, recs, top, written, Lookup(ix', g), Get(m', g), g, now) {
      assert SaneCell(d, recs, top, written, Lookup(ix, g), Get(m, g), g, now);
    }
  }

  lemma SaneDelete(d: Digests, ix: Shards, recs: Records, top: uint64, written: set<Segment>, m: TimedMap, now: nat,
                   h: uint64)
    requires SaneIndex(d, ix, recs, top, written, m, now)
    ensures SaneIndex(d, DeleteNode(ix, h), recs, top, written, m - {h}, now)
  {
    hide Log, DeleteNode, StoredAs, Vanished;
    forall g ensures SaneCell(d, recs, top, written, Lookup(DeleteNode(ix, h), g), Get(m - {h}, g), g, now) {
      assert SaneCell(d, recs, top, written, Lookup(ix, g), Get(m, g), g, now);
    }
  }

  // ---- Reading ----

  // A read answers from the map; an inode whose region is gone gives an error.
  lemma SaneShown(d: Digests, decode: Decoder, s: State, recs: Records, written: set<Segment>, m: TimedMap, now: nat,
                  key: seq<byte>)
    requires DiskOk(d, s, recs) && SaneIndex(d, s.index, recs, s.regionID, written, m, now)
    ensures FetchSegment(d, decode, s, key, now).1 == Shown(decode, Get(m, d.inodeNum(key)), now)
  {
    var h := d.inodeNum(key);
    assert SaneCell(d, recs, s.regionID, written, Lookup(s.index, h), Get(m, h), h, now);
    assert s.files.Keys == recs.Keys;
    hide Log, DiskOk, ReadDecoded, Answer;
    if h in m && m[h].Cell? && !Expired(m[h].seg.expiredAt, now) {
      var node := Lookup(s.index, h).value;
      hide ReadNode;
      assert StoredAs(d, Log(d, recs), node, m[h].seg, h);
      var e :| e in Log(d, recs) && node == NodeOf(e, node.mvcc) && e.seg == m[h].seg;
      ReadThroughNode(d, decode, s, recs, e, node.mvcc);
    }
  }

  // ---- Compaction ----

  // Copying the record of an inode whose region was gone brings it back.
  ghost predicate MayHeal<K(!new)>(m: map<K, Cell>, m': map<K, Cell>) {
    && m'.Keys == m.Keys
    && forall k :: k in m ==> m'[k] == m[k] || (m[k].Lost? && m'[k] == Cell(m[k].seg, m[k].version))
  }

  // A snapshot still names the regions that compaction has removed.
  ghost predicate MayLose<K(!new)>(m: map<K, Cell>, m': map<K, Cell>) {
    && m'.Keys == m.Keys
    && forall k :: k in m ==> m'[k] == m[k] || m'[k] == Lost(m[k].seg, m[k].version)
  }

  // homes has the region that the index names for each key.
  ghost predicate NamedBy(ix: Shards, homes: map<uint64, uint64>) {
    forall h :: (h in homes <==> Lookup(ix, h).Some?) && (h in homes ==> homes[h] == Lookup(ix, h).value.regionID)
  }

  // Exactly the keys whose home is removed are lost.
  function LoseRegions<K>(m: map<K, Cell>, homes: map<K, uint64>, removed: set<uint64>): map<K, Cell> {
    map k | k in m :: if k in homes && homes[k] in removed then Lost(m[k].seg, m[k].version) else m[k]
  }

  lemma LoseNothing<K>(m: map<K, Cell>, homes: map<K, uint64>)
    ensures LoseRegions(m, homes, {}) == m
  {
  }

  lemma LosingMay<K(!new)>(m: map<K, Cell>, homes: map<K, uint64>, removed: set<uint64>)
    ensures MayLose(m, LoseRegions(m, homes, removed))
  {
  }

  function Healed(d: Digests, m: TimedMap, copies: seq<Entry>): TimedMap {
    map h | h in m :: if m[h].Lost? && Last(d, copies, h).Some? then Cell(m[h].seg, m[h].version) else m[h]
  }

  // An unexpired inode after compaction: still at its record, or at a copy of it.
  lemma {:induction false} HealedCell(d: Digests, ix: Shards, ix': Shards, recs: Records, recs': Records, top: uint64,
                                      top': uint64, written: set<Segment>, m: TimedMap, victims: seq<Entry>,
                                      rest: seq<Entry>, copies: seq<Entry>, h: uint64, now: nat)
    requires SaneIndex(d, ix, recs, top, written, m, now) && Recorded(Log(d, recs), written)
             && Distinguished(d, written)
    requires Log(d, recs) == victims + rest && Log(d, recs') == rest + copies
    requires Segs(copies) == Segs(Kept(d, ix, victims, now)) && Repointed(d, ix, ix', copies)
    requires top <= top' && forall r :: r in recs' ==> r in recs || r > top
    ensures SaneCell(d, recs', top', written, Lookup(ix', h), Get(Healed(d, m, copies), h), h, now)
  {
    hide Log, Kept, Segs, Repointed, Recorded, Distinguished;
    assert SaneCell(d, recs, top, written, Lookup(ix, h), Get(m, h), h, now);
    RepointedAt(d, ix, ix', copies, h);
    hide SaneIndex;
    if h in m && !Expired(m[h].seg.expiredAt, now) {
      var node := Lookup(ix, h).value;
      if Last(d, copies, h).Some? {
        CopiedCell(d, ix, recs, top, written, victims, rest, copies, node, m[h], h, now);
      } else if m[h].Cell? {
        assert StoredAs(d, victims + rest, node, m[h].seg, h);
        var e :| e in victims + rest && InumOf(d, e) == h && !e.seg.IsTombstone()
                 && node == NodeOf(e, node.mvcc) && e.seg == m[h].seg;
        if e in victims {
          UnexpiredIsKept(d, ix, victims, e, node, now);
          LastOfSegs(d, copies, Kept(d, ix, victims, now), h);
        }
        assert e in rest + copies;
      }
    }
  }

  lemma {:induction false} CopiedCell(d: Digests, ix: Shards, recs: Records, top: uint64, written: set<Segment>,
                                      victims: seq<Entry>, rest: seq<Entry>, copies: seq<Entry>, node: Node,
                                      cell: Cell, h: uint64, now: nat)
    requires SaneCell(d, recs, top, written, Some(node), Some(cell), h, now) && !Expired(node.expiredAt, now)
    requires Lookup(ix, h) == Some(node) && Log(d, recs) == victims + rest
    requires Recorded(Log(d, recs), written) && Distinguished(d, written)
    requires Segs(copies) == Segs(Kept(d, ix, victims, now)) && Last(d, copies, h).Some?
    ensures StoredAs(d, rest + copies, Moved(Some(node), Last(d, copies, h)).value, cell.seg, h)
  {
    hide Log, Kept, Segs, Recorded, Distinguished;
    var c := Last(d, copies, h).value;
    var i :| 0 <= i < |copies| && copies[i] == c;
    var y := LiveSource(d, ix, victims, copies, i, now);
    CellIsWritten(d, recs, top, written, node, cell, h, now);
    SourceIsWritten(d, victims + rest, written, y);
    SameWritten(d, written, y.seg, cell.seg);
    assert c in rest + copies;
  }

  lemma CellIsWritten(d: Digests, recs: Records, top: uint64, written: set<Segment>, node: Node, cell: Cell, h: uint64,
                      now: nat)
    requires SaneCell(d, recs, top, written, Some(node), Some(cell), h, now) && !Expired(node.expiredAt, now)
    requires Recorded(Log(d, recs), written)
    ensures cell.seg in written && d.inodeNum(cell.seg.key) == h
    ensures node == NodeOf(Entry(node.regionID, node.position, cell.seg), node.mvcc) && !cell.seg.IsTombstone()
  {
    hide Log;
  }

  lemma SourceIsWritten(d: Digests, log: seq<Entry>, written: set<Segment>, y: Entry)
    requires Recorded(log, written) && y in log && !y.seg.IsTombstone()
    ensures y.seg in written
  {
  }

  lemma SameWritten(d: Digests, written: set<Segment>, a: Segment, b: Segment)
    requires Distinguished(d, written) && a in written && b in written
    requires d.inodeNum(a.key) == d.inodeNum(b.key) && a.createdAt == b.createdAt
    ensures a == b
  {
  }

  // An inode of the snapshot after compaction: still at its record, or its region is gone.
  lemma LosingCell(d: Digests, sx: Shards, homes: map<uint64, uint64>, s: State, recs: Records, recs': Records,
                   top': uint64, written: set<Segment>, m: TimedMap, rest: seq<Entry>, copies: seq<Entry>, h: uint64,
                   now: nat)
    requires DiskOk(d, s, recs) && |recs| >= 5 && |recs.Keys| >= 5 && NamedBy(sx, homes)
    requires SaneIndex(d, sx, recs, s.regionID, written, m, now) && Recorded(Log(d, recs), written)
    requires Log(d, recs) == VictimLog(d, recs) + rest && Log(d, recs') == rest + copies
    requires OnlyOthers(s, recs, recs', Victims(recs.Keys)) && s.regionID <= top'
    ensures var saved := LoseRegions(m, homes, VictimSet(recs.Keys));
            SaneCell(d, recs', top', written, Lookup(sx, h), Get(saved, h), h, now)
  {
    hide Log, VictimLog, Victims, Recorded, DiskOk, StoredAs, OnlyOthers;
    SaneAt(d, sx, recs, s.regionID, written, m, now, h);
    hide SaneIndex;
    if h in m && !Expired(m[h].seg.expiredAt, now) {
      var node := Lookup(sx, h).value;
      CellIsWritten(d, recs, s.regionID, written, node, m[h], h, now);
      if m[h].Cell? {
        SavedRecord(d, s, recs, recs', node, m[h].seg, rest, copies, h);
      } else {
        StillGone(d, s, recs, recs', node.regionID);
      }
    }
  }

  lemma SaneAt(d: Digests, ix: Shards, recs: Records, top: uint64, written: set<Segment>, m: TimedMap, now: nat,
               h: uint64)
    requires SaneIndex(d, ix, recs, top, written, m, now)
    ensures Sharded(ix) && SaneCell(d, recs, top, written, Lookup(ix, h), Get(m, h), h, now)
  {
  }

  lemma SavedRecord(d: Digests, s: State, recs: Records, recs': Records, node: Node, seg: Segment, rest: seq<Entry>,
                    copies: seq<Entry>, h: uint64)
    requires DiskOk(d, s, recs) && |recs| >= 5 && |recs.Keys| >= 5
    requires StoredAs(d, VictimLog(d, recs) + rest, node, seg, h) && Log(d, recs) == VictimLog(d, recs) + rest
    requires OnlyOthers(s, recs, recs', Victims(recs.Keys))
    ensures node.regionID <= s.regionID
    ensures if node.regionID in Victims(recs.Keys) then node.regionID !in recs'
            else StoredAs(d, rest + copies, node, seg, h)
  {
    hide Log, VictimLog, Victims;
    var e :| e in VictimLog(d, recs) + rest && InumOf(d, e) == h && !e.seg.IsTombstone()
             && node == NodeOf(e, node.mvcc) && e.seg == seg;
    EntryRegion(d, s, recs, e);
    if node.regionID !in Victims(recs.Keys) {
      if e in VictimLog(d, recs) { VictimRegion(d, recs, e); }
      assert e in rest + copies;
    }
  }

  lemma StillGone(d: Digests, s: State, recs: Records, recs': Records, r: uint64)
    requires DiskOk(d, s, recs) && |recs.Keys| >= 5 && OnlyOthers(s, recs, recs', Victims(recs.Keys))
    requires r !in recs && r <= s.regionID
    ensures r !in recs' && r !in Victims(recs.Keys)
  {
    hide Victims, DiskOk;
    VictimsRemain(d, s, recs);
    if r in Victims(recs.Keys) { VictimIsThere(s, recs, r); }
  }

  lemma EntryRegion(d: Digests, s: State, recs: Records, e: Entry)
    requires DiskOk(d, s, recs) && e in Log(d, recs)
    ensures e.rid in recs && e.rid <= s.regionID
  {
    hide FlatLog, Sorted, Layout, ReadRaw;
    EntryInRegion(d, recs, Sorted(recs.Keys), e);
  }

  lemma VictimRegion(d: Digests, recs: Records, e: Entry)
    requires |recs| >= 5 && |recs.Keys| >= 5 && e in VictimLog(d, recs)
    ensures e.rid in Victims(recs.Keys)
  {
    hide Sorted;
    EntryOfIds(d, recs, Victims(recs.Keys), e);
  }

  lemma {:induction false} EntryOfIds(d: Digests, recs: Records, ids: seq<uint64>, e: Entry)
    requires Covered(ids, recs) && e in FlatLog(d, recs, ids)
    ensures e.rid in ids
  {
    var r := ids[|ids| - 1];
    if e in Entries(d, r, recs[r]) {
      var i :| 0 <= i < |recs[r]| && Entries(d, r, recs[r])[i] == e;
      EntryAt(d, r, recs[r], i);
    } else {
      EntryOfIds(d, recs, ids[..|ids| - 1], e);
    }
  }

  // Compaction on an index that is merely sane: what could be read still reads the same, and so does what is in the
  // snapshot, except exactly for the entries that name a removed region. With fewer than five regions nothing changes.
  lemma CompactionKeepsSane(d: Digests, threshold: nat, s: State, recs: Records, sx: Shards, homes: map<uint64, uint64>,
                            written: set<Segment>, m: TimedMap, saved: TimedMap, now: nat)
    returns (s': State, recs': Records, m': TimedMap)
    requires DiskOk(d, s, recs) && Recorded(Log(d, recs), written) && NamedBy(sx, homes)
    requires SaneIndex(d, s.index, recs, s.regionID, written, m, now)
    requires SaneIndex(d, sx, recs, s.regionID, written, saved, now)
    requires |recs| >= 5 ==> Distinguished(d, written) && Budget(d, s, VictimLog(d, recs))
    ensures CleanupDirtyRegion(d, threshold, s, now) == (s', Done)
    ensures DiskOk(d, s', recs') && Recorded(Log(d, recs'), written)
    ensures SaneIndex(d, s'.index, recs', s'.regionID, written, m', now) && MayHeal(m, m')
    ensures |recs| < 5 ==> m' == m
    ensures var saved' := LoseRegions(saved, homes, VictimSet(s.files.Keys));
            SaneIndex(d, sx, recs', s'.regionID, written, saved', now)
    ensures Bounded(d, threshold, s, recs) ==> Bounded(d, threshold, s', recs')
  {
    hide Bounded, SaneCell, LoseRegions, VictimSet;
    assert |s.files| == |s.files.Keys| == |recs.Keys| == |recs|;
    if |recs| < 5 {
      NoVictims(s.files.Keys);
      LoseNothing(saved, homes);
      return s, recs, m;
    }
    var copies;
    s', recs', copies := CompactionEffect(d, threshold, s, recs, now);
    var victims, rest := VictimLog(d, recs), SurvivorLog(d, recs);
    VictimsAreFirst(d, s, recs);
    m' := Healed(d, m, copies);
    var saved' := LoseRegions(saved, homes, VictimSet(recs.Keys));
    assert forall r :: r in recs' ==> r in recs || r > s.regionID;
    assert Sharded(sx);
    RecordedAfter(d, s.index, victims, rest, copies, written, now);
    HealedMay(d, m, copies);
    hide VictimLog, SurvivorLog, Log, DiskOk, Kept, Segs, OnlyOthers, Victims, Budget, Recorded, Distinguished,
      CleanupDirtyRegion, Healed, MayHeal, NamedBy;
    forall h ensures SaneCell(d, recs', s'.regionID, written, Lookup(s'.index, h), Get(m', h), h, now) {
      HealedCell(d, s.index, s'.index, recs, recs', s.regionID, s'.regionID, written, m, victims, rest, copies, h, now);
    }
    forall h ensures SaneCell(d, recs', s'.regionID, written, Lookup(sx, h), Get(saved', h), h, now) {
      LosingCell(d, sx, homes, s, recs, recs', s'.regionID, written, saved, rest, copies, h, now);
    }
  }

  lemma NoVictims(keys: set<uint64>)
    requires |keys| < 5
    ensures VictimSet(keys) == {}
  {
  }

  lemma HealedMay(d: Digests, m: TimedMap, copies: seq<Entry>)
    ensures MayHeal(m, Healed(d, m, copies))
  {
  }

  lemma {:induction false} RecordedAfter(d: Digests, ix: Shards, victims: seq<Entry>, rest: seq<Entry>,
                                         copies: seq<Entry>, written: set<Segment>, now: nat)
    requires Recorded(victims + rest, written) && Segs(copies) == Segs(Kept(d, ix, victims, now))
    ensures Recorded(rest + copies, written)
  {
    hide Kept, Segs;
    CompactedFrom(d, ix, victims, rest, copies, now);
    RecordedFrom(victims + rest, rest + copies, written);
  }

  lemma RecordedFrom(log: seq<Entry>, log': seq<Entry>, written: set<Segment>)
    requires Recorded(log, written) && SegsFrom(log, log')
    ensures Recorded(log', written)
  {
  }

  // ---- Exactly when a read survives compaction ----

  // What a key with this cell reads as after a compaction that copied kept last for it.
  function ShownAfter(decode: Decoder, cell: Option<Cell>, kept: Option<Entry>, now: nat): Reply {
    if cell.Some? && kept.Some? && !Expired(cell.value.seg.expiredAt, now)
    then Answer(decode, cell.value.version, kept.value.seg)
    else Shown(decode, cell, now)
  }

  // Without any assumption on creation times, and whatever snapshot the store was opened from: after compaction an
  // unexpired key reads as the victim record that was copied last for it, and everything else as before.
  lemma CompactionExact(d: Digests, decode: Decoder, threshold: nat, s: State, recs: Records, written: set<Segment>,
                        m: TimedMap, now: nat, key: seq<byte>)
    requires DiskOk(d, s, recs) && SaneIndex(d, s.index, recs, s.regionID, written, m, now)
    requires |recs| >= 5 && Budget(d, s, VictimLog(d, recs))
    ensures var h := d.inodeNum(key);
            FetchSegment(d, decode, CleanupDirtyRegion(d, threshold, s, now).0, key, now).1
            == ShownAfter(decode, Get(m, h), LastKept(d, s, recs, h, now), now)
  {
    var h := d.inodeNum(key);
    hide VictimLog, SurvivorLog, Log, DiskOk, Kept, Segs, Last, ReadNode, CleanupDirtyRegion, Repointed, Budget, Answer,
      Bounded, SaneIndex, Victims, OnlyOthers;
    assert Sharded(s.index) by { SaneAt(d, s.index, recs, s.regionID, written, m, now, h); }
    SaneAt(d, s.index, recs, s.regionID, written, m, now, h);
    var s', recs', copies := CompactionEffect(d, threshold, s, recs, now);
    VictimsAreFirst(d, s, recs);
    RepointedAt(d, s.index, s'.index, copies, h);
    LastOfSegs(d, copies, Kept(d, s.index, VictimLog(d, recs), now), h);
    if h in m && !Expired(m[h].seg.expiredAt, now) {
      var node := Lookup(s.index, h).value;
      if Last(d, copies, h).Some? {
        var c := Last(d, copies, h).value;
        assert c in SurvivorLog(d, recs) + copies;
        ReadThroughNode(d, decode, s', recs', c, node.mvcc);
        SamePlace(d, decode, s'.files, c, node);
      } else {
        UnmovedReads(d, decode, s, recs, s', recs', copies, written, node, m[h], h, now);
      }
    }
  }

  // An inode without a copy: its record is in a region that stays, or its region was gone before.
  lemma UnmovedReads(d: Digests, decode: Decoder, s: State, recs: Records, s': State, recs': Records,
                     copies: seq<Entry>, written: set<Segment>, node: Node, cell: Cell, h: uint64, now: nat)
    requires DiskOk(d, s', recs') && |recs| >= 5 && |recs.Keys| >= 5
    requires Lookup(s.index, h) == Some(node) && !Expired(node.expiredAt, now)
    requires SaneCell(d, recs, s.regionID, written, Some(node), Some(cell), h, now)
    requires Log(d, recs) == VictimLog(d, recs) + SurvivorLog(d, recs)
    requires Log(d, recs') == SurvivorLog(d, recs) + copies && OnlyOthers(s, recs, recs', Victims(recs.Keys))
    requires LastKept(d, s, recs, h, now).None?
    ensures ReadNode(d, decode, s'.files, node)
            == if cell.Lost? then Failed(RegionMissing) else Answer(decode, cell.version, cell.seg)
  {
    hide Log, VictimLog, SurvivorLog, Kept, Last, Victims;
    if cell.Lost? {
      assert s'.files.Keys == recs'.Keys;
      hide DiskOk;
    } else {
      var e :| e in VictimLog(d, recs) + SurvivorLog(d, recs) && InumOf(d, e) == h && !e.seg.IsTombstone()
               && node == NodeOf(e, node.mvcc) && e.seg == cell.seg;
      if e in VictimLog(d, recs) { UnexpiredIsKept(d, s.index, VictimLog(d, recs), e, node, now); }
      assert e in SurvivorLog(d, recs) + copies;
      hide DiskOk, ReadNode;
      ReadThroughNode(d, decode, s', recs', e, node.mvcc);
    }
  }

  // Compaction preserves what a key reads as, present, expired, absent or missing its region, exactly when the victim
  // record copied last for it, if any, is the one its unexpired inode stands for. Otherwise a stale put of the key
  // carries its creation time, or the record of an inode whose region was gone has come back.
  lemma CompactionPreservesIff(d: Digests, threshold: nat, s: State, recs: Records, written: set<Segment>, m: TimedMap,
                               now: nat, key: seq<byte>)
    requires DiskOk(d, s, recs) && SaneIndex(d, s.index, recs, s.regionID, written, m, now)
    requires |recs| >= 5 && Budget(d, s, VictimLog(d, recs))
    ensures var h := d.inodeNum(key);
            var kept := LastKept(d, s, recs, h, now);
            FetchSegment(d, IDENTITY, CleanupDirtyRegion(d, threshold, s, now).0, key, now).1
            == FetchSegment(d, IDENTITY, s, key, now).1
            <==> (h in m && !Expired(m[h].seg.expiredAt, now) && kept.Some? ==>
                    m[h].Cell? && kept.value.seg == m[h].seg)
  {
    hide CleanupDirtyRegion, Log, DiskOk, SaneIndex, LastKept, FetchSegment, VictimLog, Budget;
    CompactionExact(d, IDENTITY, threshold, s, recs, written, m, now, key);
    SaneShown(d, IDENTITY, s, recs, written, m, now, key);
  }
}
