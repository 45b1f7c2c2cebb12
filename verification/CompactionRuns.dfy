// Runs from a new store after which compaction has done harm. It recognizes a live record by its creation time alone,
// so it can bring back an overwritten value; it removes regions that the snapshot of the last clean close still names;
// and where the index comes from an old snapshot, it drops later puts for good.

module CompactionRuns {
  import opened Wrappers
  import opened Bytes
  import opened Segments
  import opened RegionLog
  import opened Index
  import opened FileNames
  import opened Store
  import opened StoreInvariant
  import opened Compaction
  import opened CompactionMeaning
  import opened Recovery
  import opened Reopen
  import opened Snapshots
  import opened Refinement
  import opened StoreProperties

  // ---- Puts that each fill a region ----

  predicate Fills(c: Config, seg: Segment) {
    seg.WellFormed() && !seg.IsTombstone() && 4 + |Serialize(c.d, seg)| >= c.threshold > 4
  }

  // The active region, empty so far, gets its one record; the next one is started.
  function Filled(recs: Records, top: uint64, seg: Segment): Records
    requires top + 1 < U64
  {
    recs[top := [seg]][top + 1 := []]
  }

  lemma FillFiles(c: Config, s: State, recs: Records, seg: Segment)
    requires DiskOk(c.d, s, recs) && recs[s.active] == [] && Fills(c, seg) && s.regionID + 1 < REGION_LIMIT
    ensures CanAppend(s, |Serialize(c.d, seg)|)
    ensures var (s', reply) := PutSegment(c.d, c.threshold, s, seg.key, seg);
            reply == Done && DiskOk(c.d, s', Filled(recs, s.regionID, seg))
            && s'.regionID == s.regionID + 1
            && Lookup(s'.index, c.d.inodeNum(seg.key)).Some?
            && Lookup(s'.index, c.d.inodeNum(seg.key)).value.regionID == s.regionID
  {
    hide Log, Serialize, RollIfFull, SetNode;
    assert Layout(c.d, []) == MAGIC;
    hide Layout;
    var h := c.d.inodeNum(seg.key);
    var node := Node(s.regionID, s.offset, seg.Size(), seg.expiredAt, seg.createdAt, 0);
    var ix := SetNode(s.index, h, node);
    var s1 := AddOffset(Append(s, Serialize(c.d, seg)).(index := ix), seg.Size());
    AppendKeepsFiles(c.d, s, recs, seg);
    assert recs[s.active] + [seg] == [seg];
    FilesOnly(c.d, AddOffset(Append(s, Serialize(c.d, seg)), seg.Size()), recs[s.active := [seg]], ix);
    RollKeepsFiles(c.d, s1, c.threshold, recs[s.active := [seg]]);
    assert s1.offset >= c.threshold;
    RollNext(s1, c.threshold);
  }

  lemma RollNext(s: State, threshold: nat)
    requires s.regionID + 1 < REGION_LIMIT && s.offset >= threshold
    ensures RollIfFull(s, threshold).0.regionID == s.regionID + 1 && RollIfFull(s, threshold).0.index == s.index
  {
  }

  // Region n is active and empty, the others were closed at the threshold.
  ghost predicate AtRegion(c: Config, w: World, recs: Records, sp: Spec<uint64>, written: set<Segment>, now: nat,
                           n: uint64) {
    && Inv(c, w, recs, sp, written, now)
    && w.s.regionID == w.s.active == n && n in recs && recs[n] == []
    && Bounded(c.d, c.threshold, w.s, recs)
  }

  lemma FillPut(c: Config, w: World, recs: Records, sp: Spec<uint64>, written: set<Segment>, now: uint64, n: uint64,
                seg: Segment)
    requires AtRegion(c, w, recs, sp, written, now, n) && n + 1 < REGION_LIMIT && Fills(c, seg)
    ensures AtRegion(c, Step(c, w, Event(now, Put(seg.key, seg))).0, Filled(recs, n, seg),
                     SpecWrite(sp, c.d.inodeNum(seg.key), seg, 0), written + {seg}, now, n + 1)
    ensures Step(c, w, Event(now, Put(seg.key, seg))).0.snapshot == w.snapshot
  {
    hide Inv, AtRegion, Filled, Fills, SpecWrite, DiskOk, PutSegment, Serialize, Bounded;
    AtIsInv(c, w, recs, sp, written, now, n);
    InvIsOnDisk(c, w, recs, sp, written, now);
    FillFiles(c, w.s, recs, seg);
    FillsIsWritable(c, seg);
    var w' := Step(c, w, Event(now, Put(seg.key, seg))).0;
    var s', recs' := FillWrites(c, w, recs, sp, written, now, seg);
    var sp' := SpecWrite(sp, c.d.inodeNum(seg.key), seg, 0);
    InvIsOnDisk(c, w', recs', sp', written + {seg}, now);
    HistoryUnique(c.d, s', recs', Filled(recs, n, seg));
    ActiveIsTop(c.d, s', recs');
    FilledTop(recs, n, seg);
    AtMade(c, w', recs', sp', written + {seg}, now, n + 1);
  }

  lemma FillsIsWritable(c: Config, seg: Segment)
    requires Fills(c, seg)
    ensures seg.WellFormed() && !seg.IsTombstone()
  {
  }

  lemma FilledTop(recs: Records, n: uint64, seg: Segment)
    requires n + 1 < U64
    ensures n + 1 in Filled(recs, n, seg) && Filled(recs, n, seg)[n + 1] == []
  {
  }

  lemma AtIsInv(c: Config, w: World, recs: Records, sp: Spec<uint64>, written: set<Segment>, now: nat, n: uint64)
    requires AtRegion(c, w, recs, sp, written, now, n)
    ensures Inv(c, w, recs, sp, written, now) && w.s.active == w.s.regionID == n
    ensures n in recs && recs[n] == [] && Bounded(c.d, c.threshold, w.s, recs)
  {
  }

  lemma AtMade(c: Config, w: World, recs: Records, sp: Spec<uint64>, written: set<Segment>, now: nat, n: uint64)
    requires Inv(c, w, recs, sp, written, now) && w.s.active == w.s.regionID == n
    requires n in recs && recs[n] == [] && Bounded(c.d, c.threshold, w.s, recs)
    ensures AtRegion(c, w, recs, sp, written, now, n)
  {
  }

  lemma ActiveIsTop(d: Digests, s: State, recs: Records)
    requires DiskOk(d, s, recs)
    ensures s.active == s.regionID
  {
  }

  lemma FillWrites(c: Config, w: World, recs: Records, sp: Spec<uint64>, written: set<Segment>, now: uint64,
                   seg: Segment)
    returns (s': State, recs': Records)
    requires Inv(c, w, recs, sp, written, now) && CanAppend(w.s, |Serialize(c.d, seg)|)
    requires w.s.regionID + 1 < REGION_LIMIT && seg.WellFormed() && !seg.IsTombstone()
    ensures s' == PutSegment(c.d, c.threshold, w.s, seg.key, seg).0
    ensures Bounded(c.d, c.threshold, w.s, recs) ==> Bounded(c.d, c.threshold, s', recs')
    ensures Inv(c, World(s', w.snapshot), recs', SpecWrite(sp, c.d.inodeNum(seg.key), seg, 0), written + {seg}, now)
  {
    hide Inv, Log, Serialize, RollIfFull, AddOffset, SetNode, SpecWrite, Bounded;
    s', recs' := WriteStep(c, w, recs, sp, written, now, c.d.inodeNum(seg.key), seg, 0);
  }

  // ---- Six regions ----

  function SixRegions(s1: Segment, s2: Segment, s3: Segment, s4: Segment, s5: Segment): Records {
    map[1 := [s1], 2 := [s2], 3 := [s3], 4 := [s4], 5 := [s5], 6 := []]
  }

  lemma SixKeys(s1: Segment, s2: Segment, s3: Segment, s4: Segment, s5: Segment)
    ensures |SixRegions(s1, s2, s3, s4, s5)| == |SixRegions(s1, s2, s3, s4, s5).Keys| == 6
    ensures Victims(SixRegions(s1, s2, s3, s4, s5).Keys) == [1, 2, 3, 4]
  {
    hide Sorted;
    var recs := SixRegions(s1, s2, s3, s4, s5);
    forall x ensures x in [1, 2, 3, 4, 5, 6] <==> x in recs.Keys {
    }
    SortedIs(recs.Keys, [1, 2, 3, 4, 5, 6]);
    AscendingLength(recs.Keys, [1, 2, 3, 4, 5, 6]);
  }

  lemma {:induction false} OneEntry(d: Digests, recs: Records, id: uint64, seg: Segment)
    requires id in recs && recs[id] == [seg]
    ensures FlatLog(d, recs, [id]) == [Entry(id, 4, seg)]
  {
    FlatLogOne(d, recs, id);
    assert [seg][..0] == [];
    assert Layout(d, []) == MAGIC;
  }

  lemma SixVictims(d: Digests, s1: Segment, s2: Segment, s3: Segment, s4: Segment, s5: Segment)
    requires |SixRegions(s1, s2, s3, s4, s5)| >= 5
    ensures VictimLog(d, SixRegions(s1, s2, s3, s4, s5))
            == [Entry(1, 4, s1), Entry(2, 4, s2), Entry(3, 4, s3), Entry(4, 4, s4)]
  {
    var recs := SixRegions(s1, s2, s3, s4, s5);
    SixKeys(s1, s2, s3, s4, s5);
    hide FlatLog, Victims;
    OneEntry(d, recs, 1, s1);
    OneEntry(d, recs, 2, s2);
    OneEntry(d, recs, 3, s3);
    OneEntry(d, recs, 4, s4);
    FlatLogConcat(d, recs, [1], [2]);
    FlatLogConcat(d, recs, [1] + [2], [3]);
    FlatLogConcat(d, recs, [1] + [2] + [3], [4]);
    assert [1] + [2] + [3] + [4] == [1, 2, 3, 4];
  }

  lemma SixBudget(d: Digests, s: State, es: seq<Entry>)
    requires |es| == 4 && (forall i :: 0 <= i < 4 ==> es[i].seg.WellFormed()) && s.offset == 4 && s.regionID == 6
    ensures Budget(d, s, es)
  {
    hide Serialize;
    forall i | 0 <= i < 4 ensures |Serialize(d, es[i].seg)| < U32 {
      SizesFit(d, es[i].seg);
    }
    assert BytesOf(d, es[4..]) == 0;
    assert es[3..][0] == es[3] && es[3..][1..] == es[4..];
    assert BytesOf(d, es[3..]) < U32;
    assert es[2..][0] == es[2] && es[2..][1..] == es[3..];
    assert BytesOf(d, es[2..]) < 2 * U32;
    assert es[1..][0] == es[1] && es[1..][1..] == es[2..];
    assert BytesOf(d, es[1..]) < 3 * U32;
  }

  lemma SizesFit(d: Digests, seg: Segment)
    requires seg.WellFormed()
    ensures |Serialize(d, seg)| < U32
  {
  }

  // Five puts that each fill a region, from a new store on.
  function FivePuts(now: uint64, s1: Segment, s2: Segment, s3: Segment, s4: Segment, s5: Segment): seq<Event> {
    [Event(now, Put(s1.key, s1)), Event(now, Put(s2.key, s2)), Event(now, Put(s3.key, s3)), Event(now, Put(s4.key, s4)),
     Event(now, Put(s5.key, s5))]
  }

  function FiveWrites(d: Digests, s1: Segment, s2: Segment, s3: Segment, s4: Segment, s5: Segment): Spec<uint64> {
    var sp1 := SpecWrite(NOTHING, d.inodeNum(s1.key), s1, 0);
    var sp2 := SpecWrite(sp1, d.inodeNum(s2.key), s2, 0);
    var sp3 := SpecWrite(sp2, d.inodeNum(s3.key), s3, 0);
    var sp4 := SpecWrite(sp3, d.inodeNum(s4.key), s4, 0);
    SpecWrite(sp4, d.inodeNum(s5.key), s5, 0)
  }

  lemma FivePutsRun(c: Config, now: uint64, s1: Segment, s2: Segment, s3: Segment, s4: Segment, s5: Segment)
    returns (written: set<Segment>)
    requires Fills(c, s1) && Fills(c, s2) && Fills(c, s3) && Fills(c, s4) && Fills(c, s5)
    ensures var w := Run(c, NewStore(c, now), FivePuts(now, s1, s2, s3, s4, s5)).0;
            AtRegion(c, w, SixRegions(s1, s2, s3, s4, s5), FiveWrites(c.d, s1, s2, s3, s4, s5), written, now, 6)
  {
    FillsSizes(c, s1);
    hide AtRegion, Step, Filled, SpecWrite, FivePuts, SixRegions, FiveWrites, Fills, NewStore, Run, NOTHING;
    var w0, recs0: Records := NewStore(c, now), map[1 := []];
    NewStoreRegion(c, now);
    var e1, e2, e3 := Event(now, Put(s1.key, s1)), Event(now, Put(s2.key, s2)), Event(now, Put(s3.key, s3));
    var e4, e5 := Event(now, Put(s4.key, s4)), Event(now, Put(s5.key, s5));
    var w1, recs1 := Step(c, w0, e1).0, Filled(recs0, 1, s1);
    var sp1 := SpecWrite(NOTHING, c.d.inodeNum(s1.key), s1, 0);
    FillPut(c, w0, recs0, NOTHING, {}, now, 1, s1);
    var w2, recs2 := Step(c, w1, e2).0, Filled(recs1, 2, s2);
    var sp2 := SpecWrite(sp1, c.d.inodeNum(s2.key), s2, 0);
    FillPut(c, w1, recs1, sp1, {} + {s1}, now, 2, s2);
    var w3, recs3 := Step(c, w2, e3).0, Filled(recs2, 3, s3);
    var sp3 := SpecWrite(sp2, c.d.inodeNum(s3.key), s3, 0);
    FillPut(c, w2, recs2, sp2, {} + {s1} + {s2}, now, 3, s3);
    var w4, recs4 := Step(c, w3, e4).0, Filled(recs3, 4, s4);
    var sp4 := SpecWrite(sp3, c.d.inodeNum(s4.key), s4, 0);
    FillPut(c, w3, recs3, sp3, {} + {s1} + {s2} + {s3}, now, 4, s4);
    FillPut(c, w4, recs4, sp4, {} + {s1} + {s2} + {s3} + {s4}, now, 5, s5);
    written := {} + {s1} + {s2} + {s3} + {s4} + {s5};
    FiveNames(c.d, now, s1, s2, s3, s4, s5);
    FiveSteps(c, w0, e1, e2, e3, e4, e5);
  }

  // The names of the five-put run, unfolded.
  lemma FiveNames(d: Digests, now: uint64, s1: Segment, s2: Segment, s3: Segment, s4: Segment, s5: Segment)
    ensures FivePuts(now, s1, s2, s3, s4, s5)
            == [Event(now, Put(s1.key, s1)), Event(now, Put(s2.key, s2)), Event(now, Put(s3.key, s3)),
                Event(now, Put(s4.key, s4)), Event(now, Put(s5.key, s5))]
    ensures Filled(Filled(Filled(Filled(Filled(map[1 := []], 1, s1), 2, s2), 3, s3), 4, s4), 5, s5)
            == SixRegions(s1, s2, s3, s4, s5)
    ensures var sp1 := SpecWrite(NOTHING, d.inodeNum(s1.key), s1, 0);
            var sp2 := SpecWrite(sp1, d.inodeNum(s2.key), s2, 0);
            var sp3 := SpecWrite(sp2, d.inodeNum(s3.key), s3, 0);
            var sp4 := SpecWrite(sp3, d.inodeNum(s4.key), s4, 0);
            FiveWrites(d, s1, s2, s3, s4, s5) == SpecWrite(sp4, d.inodeNum(s5.key), s5, 0)
  {
    hide SpecWrite;
  }

  lemma NewStoreRegion(c: Config, now: nat)
    requires c.threshold > 4
    ensures AtRegion(c, NewStore(c, now), map[1 := []], NOTHING, {}, now, 1)
  {
    NewStoreInv(c, now);
    EmptyBounded(c, now);
    var w, recs: Records := NewStore(c, now), map[1 := []];
    InvIsOnDisk(c, w, recs, NOTHING, {}, now);
    hide NewStore, Inv, RegionOk, Bounded;
    assert w.s.active in recs;
  }

  lemma {:induction false} FiveSteps(c: Config, w0: World, e1: Event, e2: Event, e3: Event, e4: Event, e5: Event)
    ensures var w1 := Step(c, w0, e1).0;
            var w2 := Step(c, w1, e2).0;
            var w3 := Step(c, w2, e3).0;
            var w4 := Step(c, w3, e4).0;
            Run(c, w0, [e1, e2, e3, e4, e5]).0 == Step(c, w4, e5).0
  {
    hide Step, Run;
    var w1 := Step(c, w0, e1).0;
    var w2 := Step(c, w1, e2).0;
    var w3 := Step(c, w2, e3).0;
    var w4 := Step(c, w3, e4).0;
    RunSplit(c, w0, [e1, e2, e3, e4, e5]);
    assert [e1, e2, e3, e4, e5][1..] == [e2, e3, e4, e5];
    RunSplit(c, w1, [e2, e3, e4, e5]);
    assert [e2, e3, e4, e5][1..] == [e3, e4, e5];
    RunSplit(c, w2, [e3, e4, e5]);
    assert [e3, e4, e5][1..] == [e4, e5];
    RunSplit(c, w3, [e4, e5]);
    assert [e4, e5][1..] == [e5];
    RunSplit(c, w4, [e5]);
    assert [e5][1..] == [];
    RunSplit(c, Step(c, w4, e5).0, []);
  }

  // ---- Two puts of a key with one creation time ----

  predicate AreTwins(stale: Segment, recent: Segment) {
    stale.key == recent.key && stale.createdAt == recent.createdAt && stale.expiredAt == 0 && recent.expiredAt == 0
  }

  // A new store; a put, three puts of other keys, and a put of the first key with the creation time of its first put,
  // each filling a region; then compaction. The key reads as the second put before it, and as the first one after it.
  lemma {:induction false} TwinsBreakCompaction(c: Config, now: uint64, stale: Segment, a: Segment, b: Segment,
                                                x: Segment, recent: Segment)
    requires Fills(c, stale) && Fills(c, a) && Fills(c, b) && Fills(c, x) && Fills(c, recent) && AreTwins(stale, recent)
    requires var h := c.d.inodeNum(recent.key);
             c.d.inodeNum(a.key) != h && c.d.inodeNum(b.key) != h && c.d.inodeNum(x.key) != h
    ensures var w := Run(c, NewStore(c, now), FivePuts(now, stale, a, b, x, recent)).0;
            var w' := Step(c, w, Event(now, Compact)).0;
            && FetchSegment(c.d, c.decode, w.s, recent.key, now).1 == Answer(c.decode, 0, recent)
            && FetchSegment(c.d, c.decode, w'.s, recent.key, now).1 == Answer(c.decode, 0, stale)
  {
    hide AtRegion, Step, FivePuts, SixRegions, FiveWrites, Fills, NewStore, Run, Inv, FetchSegment, Answer, Shown,
      AreTwins;
    var w := Run(c, NewStore(c, now), FivePuts(now, stale, a, b, x, recent)).0;
    var recs, sp := SixRegions(stale, a, b, x, recent), FiveWrites(c.d, stale, a, b, x, recent);
    var written := FivePutsRun(c, now, stale, a, b, x, recent);
    TwinSpec(c, stale, a, b, x, recent, now);
    AtIsInv(c, w, recs, sp, written, now, 6);
    FetchShows(c, w, recs, sp, written, now, recent.key);
    TwinsCompacted(c, w, recs, sp, written, now, stale, a, b, x, recent);
  }

  lemma TwinSpec(c: Config, stale: Segment, a: Segment, b: Segment, x: Segment, recent: Segment, now: nat)
    requires AreTwins(stale, recent)
    ensures var sp, h := FiveWrites(c.d, stale, a, b, x, recent), c.d.inodeNum(recent.key);
            && sp.backup.Scan? && h in sp.live && sp.live[h] == Cell(recent, 0)
            && Shown(c.decode, Get(sp.live, h), now) == Answer(c.decode, 0, recent)
  {
    hide PutsAt, Answer;
  }

  lemma TwinsCompacted(c: Config, w: World, recs: Records, sp: Spec<uint64>, written: set<Segment>, now: uint64,
                       stale: Segment, a: Segment, b: Segment, x: Segment, recent: Segment)
    requires Fills(c, stale) && Fills(c, a) && Fills(c, b) && Fills(c, x) && AreTwins(stale, recent)
    requires Inv(c, w, recs, sp, written, now) && recs == SixRegions(stale, a, b, x, recent)
    requires w.s.active == w.s.regionID == 6 && sp.backup.Scan?
    requires var h := c.d.inodeNum(recent.key);
             && c.d.inodeNum(a.key) != h && c.d.inodeNum(b.key) != h && c.d.inodeNum(x.key) != h
             && h in sp.live && sp.live[h] == Cell(recent, 0)
    ensures FetchSegment(c.d, c.decode, Step(c, w, Event(now, Compact)).0.s, recent.key, now).1
            == Answer(c.decode, 0, stale)
  {
    hide SixRegions, CleanupDirtyRegion, FetchSegment, Answer, DiskOk, IndexOk, SaneIndex, Log, VictimLog, Budget,
      Recorded, LastKept, Serialize;
    SixKeys(stale, a, b, x, recent);
    SixVictims(c.d, stale, a, b, x, recent);
    TopOffset(c, w, recs, sp, written, now, stale, a, b, x, recent);
    SixBudget(c.d, w.s, [Entry(1, 4, stale), Entry(2, 4, a), Entry(3, 4, b), Entry(4, 4, x)]);
    RightIsSane(c.d, w.s.index, recs, w.s.regionID, written, sp.live, now);
    CompactionExact(c.d, c.decode, c.threshold, w.s, recs, written, sp.live, now, recent.key);
    TwinKept(c, w, recs, sp, now, stale, a, b, x, recent);
  }

  lemma TopOffset(c: Config, w: World, recs: Records, sp: Spec<uint64>, written: set<Segment>, now: nat, s1: Segment,
                  s2: Segment, s3: Segment, s4: Segment, s5: Segment)
    requires Inv(c, w, recs, sp, written, now) && recs == SixRegions(s1, s2, s3, s4, s5) && w.s.active == 6
    ensures w.s.offset == 4
  {
    InvIsOnDisk(c, w, recs, sp, written, now);
    hide Inv;
    assert Layout(c.d, []) == MAGIC;
    assert RegionOk(c.d, w.s.files[6], recs[6]);
  }

  // The stale twin is the one victim record of its key, and is copied.
  lemma TwinKept(c: Config, w: World, recs: Records, sp: Spec<uint64>, now: nat, stale: Segment, a: Segment, b: Segment,
                 x: Segment, recent: Segment)
    requires IndexOk(c.d, w.s.index, Log(c.d, recs), sp.live, now) && |recs| >= 5
    requires VictimLog(c.d, recs) == [Entry(1, 4, stale), Entry(2, 4, a), Entry(3, 4, b), Entry(4, 4, x)]
    requires AreTwins(stale, recent) && !stale.IsTombstone()
    requires var h := c.d.inodeNum(recent.key);
             && c.d.inodeNum(a.key) != h && c.d.inodeNum(b.key) != h && c.d.inodeNum(x.key) != h
             && h in sp.live && sp.live[h].seg == recent
    ensures LastKept(c.d, w.s, recs, c.d.inodeNum(recent.key), now) == Some(Entry(1, 4, stale))
  {
    hide Log, Kept, VictimLog;
    var h, victims, ix := c.d.inodeNum(recent.key), VictimLog(c.d, recs), w.s.index;
    assert CellOk(c.d, Lookup(ix, h), Get(sp.live, h), Log(c.d, recs), h, now);
    var e := TrackedEntry(c.d, Log(c.d, recs), Lookup(ix, h).value, recent, h, now);
    assert Entry(1, 4, stale) in victims;
    KeptExists(c.d, ix, victims, h, now);
    KeptIsFilter(c.d, ix, victims, now, Last(c.d, Kept(c.d, ix, victims, now), h).value);
  }

  // ---- A snapshot that names a removed region ----

  // Opening from a snapshot leaves the regions alone if the active one is not full.
  lemma OpenSame(c: Config, s: State, recs: Records, file: seq<byte>, ix: Shards, now: nat)
    requires DiskOk(c.d, s, recs) && s.offset < c.threshold && LoadFrom(c.d, file, 4, EMPTY) == Some(ix)
    ensures var w' := Open(c, s.files, Some(file), now).0;
            && DiskOk(c.d, w'.s, recs) && w'.s.regionID == s.regionID && w'.s.active == s.active
            && w'.snapshot == Some(file)
  {
    hide Log, LoadFrom, ActivateRegions, DiskOk;
    var _ := ActivateKeepsFiles(c.d, c.threshold, s, recs);
    FilesOnly(c.d, ActivateRegions(c.threshold, s.files).0, recs, ix);
  }

  lemma ReopenSame(c: Config, w: World, recs: Records, items: seq<Item>, now: uint64)
    requires DiskOk(c.d, w.s, recs) && Sharded(w.s.index) && Enumerates(items, w.s.index) && w.s.offset < c.threshold
    ensures var w' := Step(c, w, Event(now, Reopen(items))).0;
            && DiskOk(c.d, w'.s, recs) && w'.s.regionID == w.s.regionID && w'.s.active == w.s.active
            && w'.snapshot == Some(SnapshotBytes(c.d, items))
            && LoadFrom(c.d, SnapshotBytes(c.d, items), 4, EMPTY) == Some(ResetVersions(w.s.index))
  {
    hide DiskOk, LoadFrom, SnapshotBytes, Enumerates, ResetVersions, Open, Sharded;
    SnapshotRoundTrip(c.d, items, w.s.index);
    OpenSame(c, w.s, recs, SnapshotBytes(c.d, items), ResetVersions(w.s.index), now);
  }

  lemma {:induction false} ReopenAt(c: Config, w: World, recs: Records, sp: Spec<uint64>, written: set<Segment>,
                                    now: uint64, n: uint64, items: seq<Item>)
    requires AtRegion(c, w, recs, sp, written, now, n) && c.threshold > 4 && Enumerates(items, w.s.index)
    ensures AtRegion(c, Step(c, w, Event(now, Reopen(items))).0, recs,
                     SpecClose(sp, HomesOf(items)), written, now, n)
    ensures Step(c, w, Event(now, Reopen(items))).0.snapshot == Some(SnapshotBytes(c.d, items))
    ensures LoadFrom(c.d, SnapshotBytes(c.d, items), 4, EMPTY) == Some(ResetVersions(w.s.index))
  {
    hide Inv, AtRegion, DiskOk, LoadFrom, SnapshotBytes, Enumerates, ResetVersions, SpecClose, HomesOf, OpenFS, Bounded;
    AtIsInv(c, w, recs, sp, written, now, n);
    InvIsSane(c, w, recs, sp, written, now);
    EmptyTop(c.d, w.s, recs);
    ReopenSame(c, w, recs, items, now);
    var w' := Step(c, w, Event(now, Reopen(items))).0;
    var sp' := SpecClose(sp, HomesOf(items));
    var recs' := ReopenStep(c, w, recs, sp, written, now, items);
    InvIsOnDisk(c, w', recs', sp', written, now);
    HistoryUnique(c.d, w'.s, recs', recs);
    AtMade(c, w', recs, sp', written, now, n);
  }

  lemma EmptyTop(d: Digests, s: State, recs: Records)
    requires DiskOk(d, s, recs) && recs[s.active] == []
    ensures s.offset == 4
    ensures forall threshold: nat :: threshold > 4 ==> CanActivate(s, threshold)
  {
    assert Layout(d, []) == MAGIC;
  }

  function FiveRegions(s1: Segment, s2: Segment, s3: Segment, s4: Segment): Records {
    map[1 := [s1], 2 := [s2], 3 := [s3], 4 := [s4], 5 := []]
  }

  lemma FiveKeys(s1: Segment, s2: Segment, s3: Segment, s4: Segment)
    ensures |FiveRegions(s1, s2, s3, s4)| == |FiveRegions(s1, s2, s3, s4).Keys| == 5
    ensures Victims(FiveRegions(s1, s2, s3, s4).Keys) == [1, 2, 3, 4]
  {
    var recs := FiveRegions(s1, s2, s3, s4);
    assert recs.Keys == {1, 2, 3, 4, 5};
    FiveSorted(recs.Keys);
    hide Victims;
  }

  lemma FiveVictims(d: Digests, s1: Segment, s2: Segment, s3: Segment, s4: Segment)
    requires |FiveRegions(s1, s2, s3, s4)| >= 5
    ensures VictimLog(d, FiveRegions(s1, s2, s3, s4))
            == [Entry(1, 4, s1), Entry(2, 4, s2), Entry(3, 4, s3), Entry(4, 4, s4)]
  {
    var recs := FiveRegions(s1, s2, s3, s4);
    FiveKeys(s1, s2, s3, s4);
    hide FlatLog, Victims;
    OneEntry(d, recs, 1, s1);
    OneEntry(d, recs, 2, s2);
    OneEntry(d, recs, 3, s3);
    OneEntry(d, recs, 4, s4);
    FlatLogConcat(d, recs, [1], [2]);
    FlatLogConcat(d, recs, [1] + [2], [3]);
    FlatLogConcat(d, recs, [1] + [2] + [3], [4]);
    assert [1] + [2] + [3] + [4] == [1, 2, 3, 4];
  }

  lemma FiveSorted(keys: set<uint64>)
    requires keys == {1, 2, 3, 4, 5}
    ensures |keys| == 5 && Victims(keys) == [1, 2, 3, 4]
  {
    hide Sorted;
    forall x ensures x in [1, 2, 3, 4, 5] <==> x in keys {
    }
    SortedIs(keys, [1, 2, 3, 4, 5]);
    AscendingLength(keys, [1, 2, 3, 4, 5]);
  }

  // A new store, a put, a clean close and an opening; three puts of other keys.
  function CloseAndFill(c: Config, now: uint64, seg: Segment, items: seq<Item>, a: Segment, b: Segment,
                        x: Segment): World {
    var w1 := Step(c, NewStore(c, now), Event(now, Put(seg.key, seg))).0;
    var w2 := Step(c, w1, Event(now, Reopen(items))).0;
    var w3 := Step(c, w2, Event(now, Put(a.key, a))).0;
    var w4 := Step(c, w3, Event(now, Put(b.key, b))).0;
    Step(c, w4, Event(now, Put(x.key, x))).0
  }

  lemma CloseAndFillAt(c: Config, now: uint64, seg: Segment, items: seq<Item>, a: Segment, b: Segment, x: Segment)
    returns (sp: Spec<uint64>)
    requires Fills(c, seg) && Fills(c, a) && Fills(c, b) && Fills(c, x)
    requires Enumerates(items, Step(c, NewStore(c, now), Event(now, Put(seg.key, seg))).0.s.index)
    requires var h := c.d.inodeNum(seg.key);
             c.d.inodeNum(a.key) != h && c.d.inodeNum(b.key) != h && c.d.inodeNum(x.key) != h
    ensures var w, h := CloseAndFill(c, now, seg, items, a, b, x), c.d.inodeNum(seg.key);
            && AtRegion(c, w, FiveRegions(seg, a, b, x), sp, {} + {seg} + {a} + {b} + {x}, now, 5)
            && sp.backup.Snapshot? && h in sp.live && sp.live[h] == Cell(seg, 0)
            && w.snapshot == Some(SnapshotBytes(c.d, items))
            && LoadFrom(c.d, SnapshotBytes(c.d, items), 4, EMPTY)
               == Some(ResetVersions(Step(c, NewStore(c, now), Event(now, Put(seg.key, seg))).0.s.index))
  {
    FillsSizes(c, seg);
    hide AtRegion, Step, Filled, FiveRegions, Fills, NewStore, NOTHING, Enumerates, LoadFrom, SnapshotBytes,
      ResetVersions, SpecWrite, SpecClose, HomesOf, CloseAndFill;
    var w0, recs0: Records := NewStore(c, now), map[1 := []];
    NewStoreRegion(c, now);
    var w1, recs1 := Step(c, w0, Event(now, Put(seg.key, seg))).0, Filled(recs0, 1, seg);
    var sp1 := SpecWrite(NOTHING, c.d.inodeNum(seg.key), seg, 0);
    FillPut(c, w0, recs0, NOTHING, {}, now, 1, seg);
    var w2 := Step(c, w1, Event(now, Reopen(items))).0;
    ReopenAt(c, w1, recs1, sp1, {} + {seg}, now, 2, items);
    sp := FillThree(c, w2, recs1, SpecClose(sp1, HomesOf(items)), {} + {seg}, now, a, b, x);
    CloseNames(c.d, seg, items, a, b, x);
    CloseSteps(c, now, seg, items, a, b, x);
  }

  lemma FillThree(c: Config, w2: World, recs: Records, sp2: Spec<uint64>, written: set<Segment>, now: uint64,
                  a: Segment,
                  b: Segment, x: Segment)
    returns (sp: Spec<uint64>)
    requires AtRegion(c, w2, recs, sp2, written, now, 2) && Fills(c, a) && Fills(c, b) && Fills(c, x)
    ensures var w3 := Step(c, w2, Event(now, Put(a.key, a))).0;
            var w4 := Step(c, w3, Event(now, Put(b.key, b))).0;
            var w5 := Step(c, w4, Event(now, Put(x.key, x))).0;
            && AtRegion(c, w5, Filled(Filled(Filled(recs, 2, a), 3, b), 4, x), sp, written + {a} + {b} + {x}, now, 5)
            && w5.snapshot == w2.snapshot
    ensures var sp3 := SpecWrite(sp2, c.d.inodeNum(a.key), a, 0);
            var sp4 := SpecWrite(sp3, c.d.inodeNum(b.key), b, 0);
            sp == SpecWrite(sp4, c.d.inodeNum(x.key), x, 0)
  {
    hide AtRegion, Step, Filled, Fills, SpecWrite;
    var w3 := Step(c, w2, Event(now, Put(a.key, a))).0;
    var sp3 := SpecWrite(sp2, c.d.inodeNum(a.key), a, 0);
    FillPut(c, w2, recs, sp2, written, now, 2, a);
    var w4 := Step(c, w3, Event(now, Put(b.key, b))).0;
    var sp4 := SpecWrite(sp3, c.d.inodeNum(b.key), b, 0);
    FillPut(c, w3, Filled(recs, 2, a), sp3, written + {a}, now, 3, b);
    sp := SpecWrite(sp4, c.d.inodeNum(x.key), x, 0);
    FillPut(c, w4, Filled(Filled(recs, 2, a), 3, b), sp4, written + {a} + {b}, now, 4, x);
  }

  lemma CloseSteps(c: Config, now: uint64, seg: Segment, items: seq<Item>, a: Segment, b: Segment, x: Segment)
    ensures var w1 := Step(c, NewStore(c, now), Event(now, Put(seg.key, seg))).0;
            var w2 := Step(c, w1, Event(now, Reopen(items))).0;
            var w3 := Step(c, w2, Event(now, Put(a.key, a))).0;
            var w4 := Step(c, w3, Event(now, Put(b.key, b))).0;
            CloseAndFill(c, now, seg, items, a, b, x) == Step(c, w4, Event(now, Put(x.key, x))).0
  {
    hide Step, NewStore;
  }

  lemma FillsSizes(c: Config, seg: Segment)
    requires Fills(c, seg)
    ensures c.threshold > 4
  {
  }

  lemma {:induction false} CloseNames(d: Digests, seg: Segment, items: seq<Item>, a: Segment, b: Segment, x: Segment)
    requires var h := d.inodeNum(seg.key); d.inodeNum(a.key) != h && d.inodeNum(b.key) != h && d.inodeNum(x.key) != h
    ensures Filled(Filled(Filled(Filled(map[1 := []], 1, seg), 2, a), 3, b), 4, x) == FiveRegions(seg, a, b, x)
    ensures var h, sp1 := d.inodeNum(seg.key), SpecWrite(NOTHING, d.inodeNum(seg.key), seg, 0);
            var sp2 := SpecClose(sp1, HomesOf(items));
            var sp3 := SpecWrite(sp2, d.inodeNum(a.key), a, 0);
            var sp4 := SpecWrite(sp3, d.inodeNum(b.key), b, 0);
            var sp5 := SpecWrite(sp4, d.inodeNum(x.key), x, 0);
            sp5.backup.Snapshot? && h in sp5.live && sp5.live[h] == Cell(seg, 0)
  {
  }

  lemma FirstNode(c: Config, now: uint64, seg: Segment)
    requires Fills(c, seg)
    ensures var ix := Step(c, NewStore(c, now), Event(now, Put(seg.key, seg))).0.s.index;
            var node := Lookup(ix, c.d.inodeNum(seg.key));
            node.Some? && node.value.regionID == 1 && node.value.expiredAt == seg.expiredAt
  {
    FillsSizes(c, seg);
    hide Fills, NewStore, PutSegment, Inv, DiskOk, Bounded;
    var w0, recs0: Records := NewStore(c, now), map[1 := []];
    NewStoreRegion(c, now);
    AtIsInv(c, w0, recs0, NOTHING, {}, now, 1);
    InvIsOnDisk(c, w0, recs0, NOTHING, {}, now);
    FillFiles(c, w0.s, recs0, seg);
    FillPut(c, w0, recs0, NOTHING, {}, now, 1, seg);
    var w1 := Step(c, w0, Event(now, Put(seg.key, seg))).0;
    var sp1 := SpecWrite(NOTHING, c.d.inodeNum(seg.key), seg, 0);
    AtIsInv(c, w1, Filled(recs0, 1, seg), sp1, {} + {seg}, now, 2);
    NodeExpiry(c, w1, Filled(recs0, 1, seg), sp1, {} + {seg}, now, c.d.inodeNum(seg.key));
  }

  lemma NodeExpiry(c: Config, w: World, recs: Records, sp: Spec<uint64>, written: set<Segment>, now: nat, h: uint64)
    requires Inv(c, w, recs, sp, written, now) && h in sp.live
    ensures Lookup(w.s.index, h).Some? && Lookup(w.s.index, h).value.expiredAt == sp.live[h].seg.expiredAt
  {
    InvIsSane(c, w, recs, sp, written, now);
    hide Inv;
    SaneMatches(c.d, w.s, recs, written, sp.live, now, h);
  }

  // A key that was put before the last clean close and not touched since: after compaction it still reads as it should,
  // and after a crash it fails, because the snapshot names the region compaction has moved it out of.
  lemma CompactionOutdatesSnapshot(c: Config, now: uint64, seg: Segment, items: seq<Item>, a: Segment, b: Segment,
                                   x: Segment)
    requires Fills(c, seg) && Fills(c, a) && Fills(c, b) && Fills(c, x) && seg.expiredAt == 0
    requires Enumerates(items, Step(c, NewStore(c, now), Event(now, Put(seg.key, seg))).0.s.index)
    requires Distinguished(c.d, {} + {seg} + {a} + {b} + {x})
    requires var h := c.d.inodeNum(seg.key);
             c.d.inodeNum(a.key) != h && c.d.inodeNum(b.key) != h && c.d.inodeNum(x.key) != h
    ensures var w := Step(c, CloseAndFill(c, now, seg, items, a, b, x), Event(now, Compact)).0;
            && FetchSegment(c.d, c.decode, w.s, seg.key, now).1 == Answer(c.decode, 0, seg)
            && FetchSegment(c.d, c.decode, Step(c, w, Event(now, Crash)).0.s, seg.key, now).1 == Failed(RegionMissing)
  {
    FirstNode(c, now, seg);
    var sp := CloseAndFillAt(c, now, seg, items, a, b, x);
    hide AtRegion, Fills, NewStore, CloseAndFill, Enumerates, LoadFrom, SnapshotBytes, Inv, FetchSegment, Answer,
      CleanupDirtyRegion, Open, CanActivate, Distinguished, ResetVersions, FiveRegions, PutSegment, Bounded, DiskOk;
    var w5, recs, h := CloseAndFill(c, now, seg, items, a, b, x), FiveRegions(seg, a, b, x), c.d.inodeNum(seg.key);
    var written := {} + {seg} + {a} + {b} + {x};
    AtIsInv(c, w5, recs, sp, written, now, 5);
    FillsIsWritable(c, seg);
    FillsIsWritable(c, a);
    FillsIsWritable(c, b);
    FillsIsWritable(c, x);
    var recs', sp' := CompactedFive(c, w5, recs, sp, written, now, seg, a, b, x);
    var w := Step(c, w5, Event(now, Compact)).0;
    hide Step;
    FetchShows(c, w, recs', sp', written, now, seg.key);
    InvIsOnDisk(c, w, recs', sp', written, now);
    BoundedActivates(c, w.s, recs');
    VanishedAfter(c, w, recs', sp', written, now, seg.key);
  }

  lemma BoundedActivates(c: Config, s: State, recs: Records)
    requires DiskOk(c.d, s, recs) && Bounded(c.d, c.threshold, s, recs)
    ensures CanActivate(s, c.threshold)
  {
  }

  lemma VanishedAfter(c: Config, w: World, recs: Records, sp: Spec<uint64>, written: set<Segment>, now: uint64,
                      key: seq<byte>)
    requires Inv(c, w, recs, sp, written, now) && sp.backup.Snapshot? && CanActivate(w.s, c.threshold)
    requires w.snapshot.Some? && LoadFrom(c.d, w.snapshot.value, 4, EMPTY).Some?
    requires var entry := Lookup(LoadFrom(c.d, w.snapshot.value, 4, EMPTY).value, c.d.inodeNum(key));
             entry.Some? && entry.value.expiredAt == 0 && entry.value.regionID !in w.s.files
    ensures FetchSegment(c.d, c.decode, Step(c, w, Event(now, Crash)).0.s, key, now).1 == Failed(RegionMissing)
  {
    hide Inv, Open, FetchSegment, LoadFrom, CanActivate;
    RemovedRegionForgets(c, w, recs, sp, written, now, key);
  }

  // With a snapshot there: what can be read stays as it is.
  lemma CompactedLive(c: Config, w: World, recs: Records, sp: Spec<uint64>, written: set<Segment>, now: uint64)
    returns (recs': Records, sp': Spec<uint64>)
    requires Inv(c, w, recs, sp, written, now) && Distinguished(c.d, written) && sp.backup.Snapshot?
    requires Bounded(c.d, c.threshold, w.s, recs) && (|recs| >= 5 ==> Budget(c.d, w.s, VictimLog(c.d, recs)))
    ensures Inv(c, Step(c, w, Event(now, Compact)).0, recs', sp', written, now) && sp'.backup.Snapshot?
    ensures Bounded(c.d, c.threshold, Step(c, w, Event(now, Compact)).0.s, recs')
    ensures forall h :: h in sp.live && sp.live[h].Cell? ==> h in sp'.live && sp'.live[h] == sp.live[h]
  {
    hide Inv, CleanupDirtyRegion, VictimLog, Budget, Distinguished, Bounded, SpecCompact, VictimSet;
    recs', sp' := CompactStep(c, w, recs, sp, written, now);
    CompactKeepsCells(sp, sp', VictimSet(w.s.files.Keys), now);
  }

  // The four full regions are gone.
  lemma CompactedFive(c: Config, w: World, recs: Records, sp: Spec<uint64>, written: set<Segment>, now: uint64,
                      s1: Segment, s2: Segment, s3: Segment, s4: Segment)
    returns (recs': Records, sp': Spec<uint64>)
    requires Inv(c, w, recs, sp, written, now) && Distinguished(c.d, written) && recs == FiveRegions(s1, s2, s3, s4)
    requires w.s.active == w.s.regionID == 5 && sp.backup.Snapshot? && Bounded(c.d, c.threshold, w.s, recs)
    requires s1.WellFormed() && s2.WellFormed() && s3.WellFormed() && s4.WellFormed()
    ensures var w' := Step(c, w, Event(now, Compact)).0;
            && Inv(c, w', recs', sp', written, now) && sp'.backup.Snapshot? && w'.snapshot == w.snapshot
            && Bounded(c.d, c.threshold, w'.s, recs') && 1 !in w'.s.files
    ensures forall h :: h in sp.live && sp.live[h].Cell? ==> h in sp'.live && sp'.live[h] == sp.live[h]
  {
    hide Inv, FiveRegions, Budget, VictimLog, Victims, Distinguished, CleanupDirtyRegion, DiskOk, SaneIndex,
      Recorded, Log, Sharded, Bounded;
    InvIsSane(c, w, recs, sp, written, now);
    FiveBudget(c, w, recs, s1, s2, s3, s4);
    OneGone(c, w.s, recs, now, s1, s2, s3, s4);
    recs', sp' := CompactedLive(c, w, recs, sp, written, now);
  }

  lemma CompactKeepsCells(sp: Spec<uint64>, sp': Spec<uint64>, removed: set<uint64>, now: nat)
    requires SpecCompact(sp, sp', removed, now) && sp.backup.Snapshot?
    ensures sp'.backup.Snapshot?
    ensures forall h :: h in sp.live && sp.live[h].Cell? ==> h in sp'.live && sp'.live[h] == sp.live[h]
  {
    hide ScanForgets;
  }

  lemma FiveBudget(c: Config, w: World, recs: Records, s1: Segment, s2: Segment, s3: Segment, s4: Segment)
    requires DiskOk(c.d, w.s, recs) && recs == FiveRegions(s1, s2, s3, s4) && w.s.active == w.s.regionID == 5
    requires s1.WellFormed() && s2.WellFormed() && s3.WellFormed() && s4.WellFormed()
    ensures |recs| == |recs.Keys| == 5 && Victims(recs.Keys) == [1, 2, 3, 4] && Budget(c.d, w.s, VictimLog(c.d, recs))
  {
    assert recs[5] == [];
    FiveKeys(s1, s2, s3, s4);
    FiveVictims(c.d, s1, s2, s3, s4);
    hide FiveRegions, VictimLog, Budget, Victims;
    EmptyTop(c.d, w.s, recs);
    SmallBudget(c.d, w.s, VictimLog(c.d, recs));
  }

  lemma OneGone(c: Config, s: State, recs: Records, now: nat, s1: Segment, s2: Segment, s3: Segment, s4: Segment)
    requires DiskOk(c.d, s, recs) && Sharded(s.index) && |recs| == 5 && s.regionID == 5
    requires |recs.Keys| == 5 && Victims(recs.Keys) == [1, 2, 3, 4] && Budget(c.d, s, VictimLog(c.d, recs))
    ensures 1 !in CleanupDirtyRegion(c.d, c.threshold, s, now).0.files
  {
    hide CleanupDirtyRegion, VictimLog, SurvivorLog, Budget, Victims, Bounded, Log, Kept, Segs, Repointed, DiskOk;
    var s', recs', copies := CompactionEffect(c.d, c.threshold, s, recs, now);
    FilesAre(c.d, s', recs');
    assert 1 in Victims(recs.Keys);
  }

  lemma FilesAre(d: Digests, s: State, recs: Records)
    requires DiskOk(d, s, recs)
    ensures s.files.Keys == recs.Keys
  {
  }

  lemma SmallBudget(d: Digests, s: State, es: seq<Entry>)
    requires |es| == 4 && (forall i :: 0 <= i < 4 ==> es[i].seg.WellFormed()) && s.offset == 4 && s.regionID <= 6
    ensures Budget(d, s, es)
  {
    SixBudget(d, s.(regionID := 6), es);
    hide BytesOf;
  }

  // ---- A last put that is dropped ----

  lemma CrashAt(c: Config, w: World, recs: Records, sp: Spec<uint64>, written: set<Segment>, now: uint64, n: uint64)
    requires AtRegion(c, w, recs, sp, written, now, n) && c.threshold > 4 && sp.backup.Snapshot?
    ensures AtRegion(c, Step(c, w, Event(now, Crash)).0, recs, sp.(live := sp.backup.cells), written, now, n)
  {
    hide Inv, AtRegion, DiskOk, LoadFrom, OpenFS, Bounded;
    AtIsInv(c, w, recs, sp, written, now, n);
    InvIsOnDisk(c, w, recs, sp, written, now);
    EmptyTop(c.d, w.s, recs);
    SnapshotLoads(c, w, recs, sp, written, now);
    OpenSame(c, w.s, recs, w.snapshot.value, LoadFrom(c.d, w.snapshot.value, 4, EMPTY).value, now);
    var w' := Step(c, w, Event(now, Crash)).0;
    var recs', sp' := CrashStep(c, w, recs, sp, written, now);
    InvIsOnDisk(c, w', recs', sp', written, now);
    HistoryUnique(c.d, w'.s, recs', recs);
    AtMade(c, w', recs, sp', written, now, n);
  }

  lemma SnapshotLoads(c: Config, w: World, recs: Records, sp: Spec<uint64>, written: set<Segment>, now: nat)
    requires Inv(c, w, recs, sp, written, now) && sp.backup.Snapshot?
    ensures w.snapshot.Some? && LoadFrom(c.d, w.snapshot.value, 4, EMPTY).Some?
  {
    hide LoadFrom, SaneIndex, DiskOk, Recorded;
  }

  // A new store, a put, a clean close and an opening; a second put of the key; an end without closing, and an opening
  // by the snapshot; two puts of other keys.
  function CloseAndCrash(c: Config, now: uint64, stale: Segment, items: seq<Item>, recent: Segment, a: Segment,
                         b: Segment): World {
    var w1 := Step(c, NewStore(c, now), Event(now, Put(stale.key, stale))).0;
    var w2 := Step(c, w1, Event(now, Reopen(items))).0;
    var w3 := Step(c, w2, Event(now, Put(recent.key, recent))).0;
    var w4 := Step(c, w3, Event(now, Crash)).0;
    var w5 := Step(c, w4, Event(now, Put(a.key, a))).0;
    Step(c, w5, Event(now, Put(b.key, b))).0
  }

  // Two puts of a key that never expire, at different times.
  predicate Successive(stale: Segment, recent: Segment) {
    stale.key == recent.key && stale.createdAt != recent.createdAt && stale.expiredAt == 0 && recent.expiredAt == 0
  }

  lemma CloseAndCrashAt(c: Config, now: uint64, stale: Segment, items: seq<Item>, recent: Segment, a: Segment,
                        b: Segment)
    returns (sp: Spec<uint64>, written: set<Segment>)
    requires Fills(c, stale) && Fills(c, recent) && Fills(c, a) && Fills(c, b) && Successive(stale, recent)
    requires Enumerates(items, Step(c, NewStore(c, now), Event(now, Put(stale.key, stale))).0.s.index)
    requires c.d.inodeNum(a.key) != c.d.inodeNum(stale.key) && c.d.inodeNum(b.key) != c.d.inodeNum(stale.key)
    ensures var w, h := CloseAndCrash(c, now, stale, items, recent, a, b), c.d.inodeNum(stale.key);
            && AtRegion(c, w, FiveRegions(stale, recent, a, b), sp, written, now, 5)
            && h in sp.live && sp.live[h] == Cell(stale, 0)
  {
    FillsSizes(c, stale);
    hide AtRegion, Step, Filled, FiveRegions, Fills, NewStore, NOTHING, Enumerates, LoadFrom, SnapshotBytes,
      ResetVersions, SpecWrite, SpecClose, HomesOf, Successive, CloseAndCrash;
    var w0, recs0: Records := NewStore(c, now), map[1 := []];
    NewStoreRegion(c, now);
    var w1, recs1 := Step(c, w0, Event(now, Put(stale.key, stale))).0, Filled(recs0, 1, stale);
    var sp1 := SpecWrite(NOTHING, c.d.inodeNum(stale.key), stale, 0);
    FillPut(c, w0, recs0, NOTHING, {}, now, 1, stale);
    var w2, sp2 := Step(c, w1, Event(now, Reopen(items))).0, SpecClose(sp1, HomesOf(items));
    ReopenAt(c, w1, recs1, sp1, {} + {stale}, now, 2, items);
    StaleSpec(c.d, stale, items, recent, a, b);
    sp, written := CrashBetween(c, w2, recs1, sp2, {} + {stale}, now, recent, a, b);
    CloseAndCrashIs(c, now, stale, items, recent, a, b);
  }

  lemma CloseAndCrashIs(c: Config, now: uint64, stale: Segment, items: seq<Item>, recent: Segment, a: Segment,
                        b: Segment)
    ensures var w1 := Step(c, NewStore(c, now), Event(now, Put(stale.key, stale))).0;
            var w3 := Step(c, Step(c, w1, Event(now, Reopen(items))).0, Event(now, Put(recent.key, recent))).0;
            var w5 := Step(c, Step(c, w3, Event(now, Crash)).0, Event(now, Put(a.key, a))).0;
            CloseAndCrash(c, now, stale, items, recent, a, b) == Step(c, w5, Event(now, Put(b.key, b))).0
  {
    hide Step, NewStore;
  }

  // A put, a crash and an opening by the snapshot, two puts, each put filling a region.
  lemma CrashBetween(c: Config, w2: World, recs: Records, sp2: Spec<uint64>, written2: set<Segment>, now: uint64,
                     recent: Segment, a: Segment, b: Segment)
    returns (sp: Spec<uint64>, written: set<Segment>)
    requires AtRegion(c, w2, recs, sp2, written2, now, 2) && Fills(c, recent) && Fills(c, a) && Fills(c, b)
    requires sp2.backup.Snapshot? && c.threshold > 4
    ensures var w3 := Step(c, w2, Event(now, Put(recent.key, recent))).0;
            var w5 := Step(c, Step(c, w3, Event(now, Crash)).0, Event(now, Put(a.key, a))).0;
            AtRegion(c, Step(c, w5, Event(now, Put(b.key, b))).0, Filled(Filled(Filled(recs, 2, recent), 3, a), 4, b),
                     sp, written, now, 5)
    ensures var sp3 := SpecWrite(sp2, c.d.inodeNum(recent.key), recent, 0);
            && sp3.backup.Snapshot?
            && sp == SpecWrite(SpecWrite(sp3.(live := sp3.backup.cells), c.d.inodeNum(a.key), a, 0),
                               c.d.inodeNum(b.key), b, 0)
  {
    var sp3 := SpecWrite(sp2, c.d.inodeNum(recent.key), recent, 0);
    assert sp3.backup.Snapshot?;
    hide AtRegion, Step, Filled, Fills, SpecWrite;
    var w3, recs3, written3 := Step(c, w2, Event(now, Put(recent.key, recent))).0, Filled(recs, 2, recent),
                               written2 + {recent};
    FillPut(c, w2, recs, sp2, written2, now, 2, recent);
    var w4, sp4 := Step(c, w3, Event(now, Crash)).0, sp3.(live := sp3.backup.cells);
    CrashAt(c, w3, recs3, sp3, written3, now, 3);
    var w5, sp5 := Step(c, w4, Event(now, Put(a.key, a))).0, SpecWrite(sp4, c.d.inodeNum(a.key), a, 0);
    FillPut(c, w4, recs3, sp4, written3, now, 3, a);
    FillPut(c, w5, Filled(recs3, 3, a), sp5, written3 + {a}, now, 4, b);
    sp, written := SpecWrite(sp5, c.d.inodeNum(b.key), b, 0), written3 + {a} + {b};
  }

  lemma {:induction false} StaleSpec(d: Digests, stale: Segment, items: seq<Item>, recent: Segment, a: Segment,
                                     b: Segment)
    requires Successive(stale, recent)
    requires d.inodeNum(a.key) != d.inodeNum(stale.key) && d.inodeNum(b.key) != d.inodeNum(stale.key)
    ensures Filled(Filled(Filled(Filled(map[1 := []], 1, stale), 2, recent), 3, a), 4, b)
            == FiveRegions(stale, recent, a, b)
    ensures var h, sp1 := d.inodeNum(stale.key), SpecWrite(NOTHING, d.inodeNum(stale.key), stale, 0);
            var sp3 := SpecWrite(SpecClose(sp1, HomesOf(items)), d.inodeNum(recent.key), recent, 0);
            && SpecClose(sp1, HomesOf(items)).backup.Snapshot? && sp3.backup.Snapshot?
            && var sp4 := sp3.(live := sp3.backup.cells);
               var sp5 := SpecWrite(sp4, d.inodeNum(a.key), a, 0);
               var sp6 := SpecWrite(sp5, d.inodeNum(b.key), b, 0);
               h in sp6.live && sp6.live[h] == Cell(stale, 0)
  {
    hide HomesOf;
  }

  // The log of five regions, the last one empty.
  lemma FiveLog(d: Digests, s: State, s1: Segment, s2: Segment, s3: Segment, s4: Segment)
    requires DiskOk(d, s, FiveRegions(s1, s2, s3, s4))
    ensures |FiveRegions(s1, s2, s3, s4)| == 5 && SurvivorLog(d, FiveRegions(s1, s2, s3, s4)) == []
    ensures Log(d, FiveRegions(s1, s2, s3, s4))
            == [Entry(1, 4, s1), Entry(2, 4, s2), Entry(3, 4, s3), Entry(4, 4, s4)]
  {
    var recs := FiveRegions(s1, s2, s3, s4);
    FiveKeys(s1, s2, s3, s4);
    FiveVictims(d, s1, s2, s3, s4);
    VictimsAreFirst(d, s, recs);
    hide FlatLog, VictimLog, DiskOk, Log, Victims;
    assert Sorted(recs.Keys) == [1, 2, 3, 4, 5] by {
      forall x ensures x in [1, 2, 3, 4, 5] <==> x in recs.Keys {
      }
      SortedIs(recs.Keys, [1, 2, 3, 4, 5]);
    }
    assert [1, 2, 3, 4, 5][VICTIMS..] == [5];
    FlatLogOne(d, recs, 5);
  }

  // The victim record that is copied for the key is the one its stale inode was made from.
  lemma StaleKept(d: Digests, s: State, recs: Records, written: set<Segment>, m: TimedMap, now: nat, stale: Segment,
                  recent: Segment, a: Segment, b: Segment)
    requires SaneIndex(d, s.index, recs, s.regionID, written, m, now) && |recs| >= 5
    requires VictimLog(d, recs) == [Entry(1, 4, stale), Entry(2, 4, recent), Entry(3, 4, a), Entry(4, 4, b)]
    requires Successive(stale, recent) && !stale.IsTombstone()
    requires d.inodeNum(a.key) != d.inodeNum(stale.key) && d.inodeNum(b.key) != d.inodeNum(stale.key)
    requires d.inodeNum(stale.key) in m && m[d.inodeNum(stale.key)] == Cell(stale, 0)
    ensures LastKept(d, s, recs, d.inodeNum(stale.key), now) == Some(Entry(1, 4, stale))
    ensures forall y :: y in VictimLog(d, recs) && Passes(d, s.index, y, now) ==> y.seg != recent
  {
    hide Log, Kept, VictimLog;
    var h, victims, ix := d.inodeNum(stale.key), VictimLog(d, recs), s.index;
    SaneAt(d, ix, recs, s.regionID, written, m, now, h);
    hide SaneIndex;
    assert Entry(1, 4, stale) in victims;
    KeptExists(d, ix, victims, h, now);
    KeptIsFilter(d, ix, victims, now, Last(d, Kept(d, ix, victims, now), h).value);
  }

  // Nothing that compaction does not copy is left, if the other regions are empty.
  lemma DroppedForGood(d: Digests, threshold: nat, s: State, recs: Records, now: nat, seg: Segment, recs': Records)
    requires DiskOk(d, s, recs) && Sharded(s.index) && |recs| >= 5 && Budget(d, s, VictimLog(d, recs))
    requires SurvivorLog(d, recs) == [] && DiskOk(d, CleanupDirtyRegion(d, threshold, s, now).0, recs')
    requires forall y :: y in VictimLog(d, recs) && Passes(d, s.index, y, now) ==> y.seg != seg
    ensures forall e :: e in Log(d, recs') ==> e.seg != seg
  {
    hide DiskOk, Log, VictimLog, SurvivorLog, CleanupDirtyRegion, Kept, Segs, Passes, Repointed, OnlyOthers, Victims,
      Budget, Bounded;
    var s', recs1, copies := CompactionEffect(d, threshold, s, recs, now);
    HistoryUnique(d, s', recs1, recs');
    forall e | e in Log(d, recs') ensures e.seg != seg {
      var i :| 0 <= i < |copies| && copies[i] == e;
      var y := LiveSource(d, s.index, VictimLog(d, recs), copies, i, now);
    }
  }

  // The last put of the key, unexpired and with a creation time of its own, is in no region after compaction; the one
  // before it has taken its place.
  lemma CompactionDropsLastPut(c: Config, now: uint64, stale: Segment, items: seq<Item>, recent: Segment, a: Segment,
                               b: Segment)
    returns (recs: Records, recs': Records)
    requires Fills(c, stale) && Fills(c, recent) && Fills(c, a) && Fills(c, b) && Successive(stale, recent)
    requires Enumerates(items, Step(c, NewStore(c, now), Event(now, Put(stale.key, stale))).0.s.index)
    requires c.d.inodeNum(a.key) != c.d.inodeNum(stale.key) && c.d.inodeNum(b.key) != c.d.inodeNum(stale.key)
    ensures var w := CloseAndCrash(c, now, stale, items, recent, a, b);
            var w', h := Step(c, w, Event(now, Compact)).0, c.d.inodeNum(stale.key);
            var last, last' := Last(c.d, Log(c.d, recs), h), Last(c.d, Log(c.d, recs'), h);
            && DiskOk(c.d, w.s, recs) && DiskOk(c.d, w'.s, recs')
            && last.Some? && last.value.seg == recent && last'.Some? && last'.value.seg == stale
            && !LastKeeps(last, last', now)
            && (forall e :: e in Log(c.d, recs') ==> e.seg != recent)
  {
    var sp, written := CloseAndCrashAt(c, now, stale, items, recent, a, b);
    hide AtRegion, NewStore, CloseAndCrash, Enumerates, Step, FiveRegions, Inv;
    var w := CloseAndCrash(c, now, stale, items, recent, a, b);
    recs := FiveRegions(stale, recent, a, b);
    AtIsInv(c, w, recs, sp, written, now, 5);
    FillsIsWritable(c, stale);
    FillsIsWritable(c, recent);
    FillsIsWritable(c, a);
    FillsIsWritable(c, b);
    recs' := StaleCompacted(c, w, recs, sp, written, now, stale, recent, a, b);
  }

  lemma StaleCompacted(c: Config, w: World, recs: Records, sp: Spec<uint64>, written: set<Segment>, now: uint64,
                       stale: Segment, recent: Segment, a: Segment, b: Segment)
    returns (recs': Records)
    requires Inv(c, w, recs, sp, written, now) && recs == FiveRegions(stale, recent, a, b)
    requires w.s.active == w.s.regionID == 5 && Successive(stale, recent) && !stale.IsTombstone()
    requires stale.WellFormed() && recent.WellFormed() && a.WellFormed() && b.WellFormed()
    requires c.d.inodeNum(a.key) != c.d.inodeNum(stale.key) && c.d.inodeNum(b.key) != c.d.inodeNum(stale.key)
    requires var h := c.d.inodeNum(stale.key); h in sp.live && sp.live[h] == Cell(stale, 0)
    ensures var w', h := Step(c, w, Event(now, Compact)).0, c.d.inodeNum(stale.key);
            var last, last' := Last(c.d, Log(c.d, recs), h), Last(c.d, Log(c.d, recs'), h);
            && DiskOk(c.d, w.s, recs) && DiskOk(c.d, w'.s, recs')
            && last.Some? && last.value.seg == recent && last'.Some? && last'.value.seg == stale
            && (forall e :: e in Log(c.d, recs') ==> e.seg != recent)
  {
    hide FiveRegions, DiskOk, Log, VictimLog, SurvivorLog, Victims, Budget, SaneIndex, LastKept, Last,
      CleanupDirtyRegion, Passes, Recorded, Inv, Sharded, Successive;
    var h := c.d.inodeNum(stale.key);
    InvIsSane(c, w, recs, sp, written, now);
    FiveBudget(c, w, recs, stale, recent, a, b);
    FiveVictims(c.d, stale, recent, a, b);
    FiveLog(c.d, w.s, stale, recent, a, b);
    assert stale.key == recent.key by { SameKey(stale, recent); }
    LastOfFour(c.d, stale, recent, a, b);
    StaleKept(c.d, w.s, recs, written, sp.live, now, stale, recent, a, b);
    recs' := LastIsCopy(c, w.s, recs, now, h);
    DroppedForGood(c.d, c.threshold, w.s, recs, now, recent, recs');
  }

  lemma SameKey(stale: Segment, recent: Segment)
    requires Successive(stale, recent)
    ensures stale.key == recent.key
  {
  }

  lemma LastIsCopy(c: Config, s: State, recs: Records, now: nat, h: uint64) returns (recs': Records)
    requires DiskOk(c.d, s, recs) && Sharded(s.index) && |recs| >= 5 && Budget(c.d, s, VictimLog(c.d, recs))
    requires LastKept(c.d, s, recs, h, now).Some?
    ensures DiskOk(c.d, CleanupDirtyRegion(c.d, c.threshold, s, now).0, recs')
    ensures var last' := Last(c.d, Log(c.d, recs'), h);
            last'.Some? && last'.value.seg == LastKept(c.d, s, recs, h, now).value.seg
  {
    hide DiskOk, Log, VictimLog, SurvivorLog, LastKept, Last, CleanupDirtyRegion, Budget, LastKeeps;
    var s';
    s', recs' := LastAfterCompaction(c.d, c.threshold, s, recs, now, h);
  }

  lemma {:induction false} LastOfFour(d: Digests, stale: Segment, recent: Segment, a: Segment, b: Segment)
    requires stale.key == recent.key
    requires d.inodeNum(a.key) != d.inodeNum(stale.key) && d.inodeNum(b.key) != d.inodeNum(stale.key)
    ensures Last(d, [Entry(1, 4, stale), Entry(2, 4, recent), Entry(3, 4, a), Entry(4, 4, b)], d.inodeNum(stale.key))
            == Some(Entry(2, 4, recent))
  {
    var log, h := [Entry(1, 4, stale), Entry(2, 4, recent), Entry(3, 4, a), Entry(4, 4, b)], d.inodeNum(stale.key);
    assert Last(d, log[..3][..2], h) == Some(Entry(2, 4, recent));
    assert Last(d, log[..3], h) == Some(Entry(2, 4, recent));
  }
}
