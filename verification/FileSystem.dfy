// The log-structured file system object (vfs/lfs.go): its methods update the fields and the inodes in place, and are
// proved to compute the steps of module Store.

module FileSystem {
  import opened Wrappers
  import opened Bytes
  import opened Segments
  import opened RegionLog
  import opened Index
  import opened FileNames
  import opened Store
  import opened Compaction

  class INode {
    var regionID: uint64
    var position: uint64
    var length: uint32
    var expiredAt: uint64
    var createdAt: uint64
    var mvcc: uint64

    constructor (node: Node)
      ensures Value() == node
    {
      regionID, position, length := node.regionID, node.position, node.length;
      expiredAt, createdAt, mvcc := node.expiredAt, node.createdAt, node.mvcc;
    }

    function Value(): Node
      reads this
    {
      Node(regionID, position, length, expiredAt, createdAt, mvcc)
    }
  }

  type INodeShards = s: seq<map<uint64, INode>> | |s| == INDEX_SHARD
    witness [map[], map[], map[], map[], map[], map[], map[], map[], map[], map[]]

  ghost function Inodes(shards: INodeShards): set<INode> {
    set i, h | 0 <= i < INDEX_SHARD && h in shards[i] :: shards[i][h]
  }

  predicate Holds(shards: INodeShards, i: int, h: uint64) {
    0 <= i < INDEX_SHARD && h in shards[i]
  }

  // No inode is held twice.
  ghost predicate Distinct(shards: INodeShards) {
    forall i, j, g, h :: Holds(shards, i, g) && Holds(shards, j, h) && shards[i][g] == shards[j][h] ==> i == j && g == h
  }

  function ShardView(shard: map<uint64, INode>): Shard
    reads shard.Values
  {
    map h | h in shard :: shard[h].Value()
  }

  function View(shards: INodeShards): Shards
    reads Inodes(shards)
  {
    seq(INDEX_SHARD, i requires 0 <= i < INDEX_SHARD reads Inodes(shards) =>
      assert shards[i].Values <= Inodes(shards); ShardView(shards[i]))
  }

  const NO_INODES: INodeShards := [map[], map[], map[], map[], map[], map[], map[], map[], map[], map[]]

  lemma NoINodes()
    ensures Inodes(NO_INODES) == {} && View(NO_INODES) == EMPTY
    ensures forall i, h :: !Holds(NO_INODES, i, h)
  {
  }

  lemma ViewLookup(shards: INodeShards, h: uint64)
    ensures Lookup(View(shards), h)
            == if h in shards[h % INDEX_SHARD] then Some(shards[h % INDEX_SHARD][h].Value()) else None
  {
  }

  lemma ViewSet(shards: INodeShards, h: uint64, inode: INode)
    ensures var shard: map<uint64, INode> := shards[h % INDEX_SHARD][h := inode];
            View(shards[h % INDEX_SHARD := shard]) == SetNode(View(shards), h, inode.Value())
  {
    var shard: map<uint64, INode> := shards[h % INDEX_SHARD][h := inode];
    var a, b := View(shards[h % INDEX_SHARD := shard]), SetNode(View(shards), h, inode.Value());
    forall i | 0 <= i < INDEX_SHARD ensures a[i] == b[i] {
    }
  }

  lemma ViewDelete(shards: INodeShards, h: uint64)
    ensures View(shards[h % INDEX_SHARD := shards[h % INDEX_SHARD] - {h}]) == DeleteNode(View(shards), h)
  {
    var a, b := View(shards[h % INDEX_SHARD := shards[h % INDEX_SHARD] - {h}]), DeleteNode(View(shards), h);
    forall i | 0 <= i < INDEX_SHARD ensures a[i] == b[i] {
    }
  }

  // If all inodes but one hold what the index before said, the index now differs in that one entry.
  lemma ViewUpdated(shards: INodeShards, h: uint64, before: Shards)
    requires h in shards[h % INDEX_SHARD]
    requires forall i :: 0 <= i < INDEX_SHARD ==> before[i].Keys == shards[i].Keys
    requires forall i, g :: Holds(shards, i, g) && !(i == h % INDEX_SHARD && g == h) ==>
                              shards[i][g].Value() == before[i][g]
    ensures View(shards) == SetNode(before, h, shards[h % INDEX_SHARD][h].Value())
  {
    var k := h % INDEX_SHARD;
    var a, b := View(shards), SetNode(before, h, shards[k][h].Value());
    forall i | 0 <= i < INDEX_SHARD ensures a[i] == b[i] {
      assert a[i].Keys == b[i].Keys;
      forall g | g in shards[i] ensures a[i][g] == b[i][g] {
        assert Holds(shards, i, g);
      }
    }
  }

  lemma ScanStep(d: Digests, decode: Decoder, rid: uint64, file: seq<byte>, at: nat, ix: Shards, now: nat)
    requires at < |file|
    ensures Store.ScanRegion(d, decode, rid, file, at, ix, now)
            == match ReadDecoded(d, decode, file, at)
               case Err(e) => Err(CannotRead(e))
               case Ok(seg) =>
                 if seg.Size() == 0 then Err(ScanStuck) else
                   Store.ScanRegion(d, decode, rid, file, at + seg.Size(),
                                    Store.ReplaySegment(d, ix, rid, at, seg, now), now)
  {
    hide ReadDecoded, Store.ReplaySegment;
  }

  lemma {:induction false} ScanStop(d: Digests, decode: Decoder, rid: uint64, file: seq<byte>, at: nat, ix: Shards,
                                    now: nat)
    requires at >= |file|
    ensures Store.ScanRegion(d, decode, rid, file, at, ix, now) == Ok(ix)
  {
  }

  lemma {:induction false} ScanNext(d: Digests, decode: Decoder, files: map<uint64, seq<byte>>, ids: seq<uint64>,
                                    i: nat, ix: Shards, now: nat)
    requires (forall k :: 0 <= k < |ids| ==> ids[k] in files) && i < |ids|
    ensures ScanRegions(d, decode, files, ids[i..], ix, now)
            == match Store.ScanRegion(d, decode, ids[i], files[ids[i]], 4, ix, now)
               case Err(e) => Err(e)
               case Ok(ix') => ScanRegions(d, decode, files, ids[i + 1..], ix', now)
  {
    assert ids[i..][1..] == ids[i + 1..];
  }

  lemma {:induction false} ScanEnd(d: Digests, decode: Decoder, files: map<uint64, seq<byte>>, ids: seq<uint64>,
                                   ix: Shards, now: nat)
    ensures ScanRegions(d, decode, files, ids[|ids|..], ix, now) == Ok(ix)
  {
  }

  class LogStructuredFS {
    const d: Digests
    const threshold: nat
    var offset: uint64
    var regionID: uint64
    var active: uint64
    var regions: map<uint64, seq<byte>>
    var indexs: INodeShards

    ghost predicate Valid()
      reads this
    {
      && Distinct(indexs)
      && (forall i: int, h: uint64 :: Holds(indexs, i, h) ==> h % INDEX_SHARD == i)
    }

    ghost function Model(): State
      reads this, Inodes(indexs)
    {
      State(regions, regionID, active, offset, View(indexs))
    }

    constructor (d: Digests, threshold: nat)
      ensures Valid() && Model() == State(map[], 0, 0, 4, EMPTY)
      ensures this.d == d && this.threshold == threshold && Inodes(indexs) == {}
    {
      this.d, this.threshold := d, threshold;
      offset, regionID, active, regions := 4, 0, 0, map[];
      indexs := NO_INODES;
      new;
      NoINodes();
    }

    method AppendToActiveRegion(bytes: seq<byte>) returns (ok: bool)
      modifies this`regions
      ensures ok == CanAppend(old(Model()), |bytes|)
      ensures Model() == if ok then Append(old(Model()), bytes) else old(Model())
    {
      ok := active in regions && |regions[active]| + |bytes| <= MAX_FILE;
      if ok {
        regions := regions[active := regions[active] + bytes];
      }
    }

    method CreateActiveRegion() returns (reply: Reply)
      modifies this`regionID, this`active, this`offset, this`regions
      ensures (Model(), reply) == Store.CreateActiveRegion(old(Model()))
    {
      hide GenerateFileName;
      regionID := (regionID + 1) % U64;
      var fileName := GenerateFileName(regionID);
      assert View(indexs) == old(View(indexs));
      if fileName.None? { return Failed(NoRegionName); }
      var file: seq<byte> := if regionID in regions then regions[regionID] else [];
      regions := regions[regionID := file + MAGIC];
      active := regionID;
      offset := 4;
      assert View(indexs) == old(View(indexs));
      return Done;
    }

    // The offset grows by a record; a full region is closed.
    method Advance(n: nat) returns (reply: Reply)
      modifies this`regionID, this`active, this`offset, this`regions
      ensures (Model(), reply) == RollIfFull(AddOffset(old(Model()), n), threshold)
    {
      offset := (offset + n) % U64;
      assert View(indexs) == old(View(indexs));
      if offset >= threshold {
        reply := CreateActiveRegion();
      } else {
        reply := Done;
      }
    }

    // indexs[h % INDEX_SHARD][h] = &INode{...}
    method SetINode(h: uint64, node: Node)
      requires Valid()
      modifies this`indexs
      ensures Valid() && fresh(Inodes(indexs) - old(Inodes(indexs)))
      ensures Model() == old(Model()).(index := SetNode(old(Model()).index, h, node))
    {
      var inode := new INode(node);
      ghost var shards := indexs;
      var k := h % INDEX_SHARD;
      var shard: map<uint64, INode> := indexs[k][h := inode];
      ViewSet(indexs, h, inode);
      indexs := indexs[k := shard];
      forall i, g | Holds(indexs, i, g)
        ensures (i == k && g == h && indexs[i][g] == inode) || (Holds(shards, i, g) && indexs[i][g] == shards[i][g])
      {
      }
    }

    // delete(indexs[h % INDEX_SHARD], h)
    method DeleteINode(h: uint64)
      requires Valid()
      modifies this`indexs
      ensures Valid() && Inodes(indexs) <= old(Inodes(indexs))
      ensures Model() == old(Model()).(index := DeleteNode(old(Model()).index, h))
    {
      ghost var shards := indexs;
      var k := h % INDEX_SHARD;
      ViewDelete(indexs, h);
      indexs := indexs[k := indexs[k] - {h}];
      forall i, g | Holds(indexs, i, g) ensures Holds(shards, i, g) && indexs[i][g] == shards[i][g] {
      }
    }

    method PutSegment(key: seq<byte>, seg: Segment) returns (reply: Reply)
      requires Valid()
      modifies this
      ensures Valid() && fresh(Inodes(indexs) - old(Inodes(indexs)))
      ensures (Model(), reply) == Store.PutSegment(d, threshold, old(Model()), key, seg)
    {
      hide View, Serialize, SetNode, RollIfFull;
      var inum := d.inodeNum(key);
      var bytes := SerializedSegment(d, seg);
      var ok := AppendToActiveRegion(bytes);
      if !ok { return Failed(AppendFailed); }
      SetINode(inum, Node(regionID, offset, seg.Size(), seg.expiredAt, seg.createdAt, 0));
      reply := Advance(seg.Size());
    }

    method DeleteSegment(key: seq<byte>, now: uint64) returns (reply: Reply)
      requires Valid()
      modifies this
      ensures Valid() && Inodes(indexs) <= old(Inodes(indexs))
      ensures (Model(), reply) == Store.DeleteSegment(d, old(Model()), key, now)
    {
      hide View, Serialize, DeleteNode;
      var seg := NewTombstoneSegment(key, now);
      var bytes := SerializedSegment(d, seg);
      var ok := AppendToActiveRegion(bytes);
      if !ok { return Failed(AppendFailed); }
      offset := (offset + seg.Size()) % U64;
      DeleteINode(d.inodeNum(key));
      return Done;
    }

    method FetchSegment(decode: Decoder, key: seq<byte>, now: nat) returns (reply: Reply)
      requires Valid()
      modifies this`indexs
      ensures Valid() && Inodes(indexs) <= old(Inodes(indexs))
      ensures (Model(), reply) == Store.FetchSegment(d, decode, old(Model()), key, now)
    {
      var inum := d.inodeNum(key);
      ViewLookup(indexs, inum);
      if inum !in indexs[inum % INDEX_SHARD] { return Failed(NotFound); }
      var inode := indexs[inum % INDEX_SHARD][inum];
      if Expired(inode.expiredAt, now) {
        DeleteINode(inum);
        return Failed(HasExpired);
      }
      if inode.regionID !in regions { return Failed(RegionMissing); }
      var _, segment := ReadSegment(d, decode, regions[inode.regionID], inode.position);
      if segment.Err? { return Failed(CannotRead(segment.error)); }
      return Fetched(inode.mvcc, segment.value);
    }

    // Stores to the fields of the inode that is already there.
    method StoreINode(h: uint64, node: Node)
      requires Valid() && Lookup(View(indexs), h).Some?
      modifies Inodes(indexs)
      ensures Valid()
      ensures Model() == old(Model()).(index := SetNode(old(Model()).index, h, node))
    {
      var k := h % INDEX_SHARD;
      ghost var before := View(indexs);
      ViewLookup(indexs, h);
      var inode := indexs[k][h];
      assert Holds(indexs, k, h);
      inode.position := node.position;
      inode.createdAt := node.createdAt;
      inode.expiredAt := node.expiredAt;
      inode.regionID := node.regionID;
      inode.length := node.length;
      inode.mvcc := node.mvcc;
      ViewUpdated(indexs, h, before);
    }

    method UpdateSegmentWithCAS(key: seq<byte>, expected: uint64, newseg: Segment) returns (reply: Reply)
      requires Valid()
      modifies this`regionID, this`active, this`offset, this`regions, Inodes(indexs)
      ensures Valid()
      ensures (Model(), reply) == Store.UpdateSegmentWithCAS(d, threshold, old(Model()), key, expected, newseg)
    {
      hide View, Serialize, RollIfFull, SetNode, AddOffset, Store.UpdateSegmentWithCAS;
      ghost var s := Model();
      var inum := d.inodeNum(key);
      ViewLookup(indexs, inum);
      if inum !in indexs[inum % INDEX_SHARD] {
        CasRefused(d, threshold, s, key, expected, newseg);
        return Failed(NotFound);
      }
      var inode := indexs[inum % INDEX_SHARD][inum];
      if inode.mvcc != expected {
        CasRefused(d, threshold, s, key, expected, newseg);
        return Failed(VersionConflict);
      }

      var next := (expected + 1) % U64;
      var bumped := Node(inode.regionID, inode.position, inode.length, inode.expiredAt, inode.createdAt, next);
      StoreINode(inum, bumped);
      var bytes := SerializedSegment(d, newseg);
      var ok := AppendToActiveRegion(bytes);
      if !ok {
        CasUnwritten(d, threshold, s, key, expected, newseg);
        return Failed(AppendFailed);
      }

      var moved := Node(regionID, offset, newseg.Size(), newseg.expiredAt, newseg.createdAt, next);
      StoreINode(inum, moved);
      SetTwice(s.index, inum, bumped, moved);
      CasResult(d, threshold, s, key, expected, newseg);
      reply := Advance(newseg.Size());
    }

    method KeysCount() returns (keys: nat)
      requires Valid()
      ensures keys == CountKeys(Model().index, INDEX_SHARD)
    {
      keys := 0;
      for i := 0 to INDEX_SHARD
        invariant keys == CountKeys(View(indexs), i)
      {
        assert View(indexs)[i].Keys == indexs[i].Keys;
        assert |View(indexs)[i]| == |View(indexs)[i].Keys| == |indexs[i].Keys| == |indexs[i]|;
        keys := keys + |indexs[i]|;
      }
    }

    // ---- Compaction ----

    method MigrateSegment(segment: Segment, now: nat) returns (reply: Reply)
      requires Valid()
      modifies this`regionID, this`active, this`offset, this`regions, Inodes(indexs)
      ensures Valid()
      ensures (Model(), reply) == Compaction.MigrateSegment(d, threshold, old(Model()), segment, now)
    {
      hide View, Serialize, RollIfFull, SetNode, AddOffset;
      var inum := d.inodeNum(segment.key);
      ViewLookup(indexs, inum);
      if inum !in indexs[inum % INDEX_SHARD] { return Done; }
      var inode := indexs[inum % INDEX_SHARD][inum];
      var node := Node(inode.regionID, inode.position, inode.length, inode.expiredAt, inode.createdAt, inode.mvcc);
      if !IsValid(segment, node, now) { return Done; }
      var bytes := SerializedSegment(d, segment);
      var ok := AppendToActiveRegion(bytes);
      if !ok { return Failed(AppendFailed); }
      StoreINode(inum, node.(regionID := regionID, position := offset));
      reply := Advance(segment.Size());
    }

    method MigrateRegion(file: seq<byte>, now: nat) returns (reply: Reply)
      requires Valid()
      modifies this`regionID, this`active, this`offset, this`regions, Inodes(indexs)
      ensures Valid()
      ensures (Model(), reply) == MigrateFrom(d, threshold, old(Model()), file, 4, now)
    {
      hide View, Compaction.MigrateSegment, ReadRaw;
      var readOffset := 4;
      ghost var whole := MigrateFrom(d, threshold, Model(), file, 4, now);
      while readOffset < |file|
        invariant Valid()
        invariant MigrateFrom(d, threshold, Model(), file, readOffset, now) == whole
        decreases |file| - readOffset
      {
        var segment := ReadRaw(d, file, readOffset);
        if segment.Err? { return Failed(CannotRead(segment.error)); }
        reply := MigrateSegment(segment.value, now);
        if reply != Done { return; }
        if segment.value.Size() == 0 { return Failed(ScanStuck); }
        readOffset := readOffset + segment.value.Size();
      }
      return Done;
    }

    method CleanupDirtyRegion(now: nat) returns (reply: Reply)
      requires Valid()
      modifies this`regionID, this`active, this`offset, this`regions, Inodes(indexs)
      ensures Valid()
      ensures (Model(), reply) == Compaction.CleanupDirtyRegion(d, threshold, old(Model()), now)
    {
      hide View, MigrateFrom;
      if |regions| < 5 { return Done; }
      var dirtyRegion := Victims(regions.Keys);
      ghost var whole := CleanRegions(d, threshold, Model(), dirtyRegion, now);
      var i := 0;
      while i < |dirtyRegion|
        invariant 0 <= i <= |dirtyRegion| && Valid()
        invariant CleanRegions(d, threshold, Model(), dirtyRegion[i..], now) == whole
      {
        var id := dirtyRegion[i];
        var file: seq<byte> := if id in regions then regions[id] else [];
        assert file == FileOf(Model(), id);
        ghost var before := Model();
        reply := MigrateRegion(file, now);
        if reply != Done { return; }
        assert dirtyRegion[i..][1..] == dirtyRegion[i + 1..];
        ghost var scanned := Model();
        regions := regions - {id};
        assert View(indexs) == scanned.index;
        assert Model() == RemoveRegion(scanned, id);
        i := i + 1;
      }
      return Done;
    }

    // ---- Recovery ----

    // The tail of recoverRegions, once the region files are open.
    method ActivateRegions(files: map<uint64, seq<byte>>) returns (reply: Reply)
      requires Valid() && Model() == State(map[], 0, 0, 4, EMPTY)
      modifies this
      ensures Valid() && Inodes(indexs) == old(Inodes(indexs))
      ensures (Model(), reply) == Store.ActivateRegions(threshold, files)
    {
      hide Sorted, Store.CreateActiveRegion;
      regions := files;
      var regionIds := Sorted(regions.Keys);
      assert View(indexs) == old(View(indexs)) == EMPTY;
      if regionIds == [] {
        reply := CreateActiveRegion();
        return;
      }
      regionID := regionIds[|regionIds| - 1];
      assert regionID in regionIds;
      assert View(indexs) == EMPTY;
      if |regions[regionID]| >= threshold {
        reply := CreateActiveRegion();
      } else {
        active := regionID;
        offset := |regions[regionID]| % U64;
        assert View(indexs) == EMPTY;
        reply := Done;
      }
    }

    method ReplaySegment(rid: uint64, at: nat, segment: Segment, now: nat)
      requires Valid()
      modifies this`indexs
      ensures Valid() && fresh(Inodes(indexs) - old(Inodes(indexs)))
      ensures Model() == old(Model()).(index := Store.ReplaySegment(d, old(Model()).index, rid, at, segment, now))
    {
      hide View, SetNode, DeleteNode;
      var inum := d.inodeNum(segment.key);
      if segment.IsTombstone() {
        DeleteINode(inum);
      } else if !Expired(segment.expiredAt, now) {
        SetINode(inum, Node(rid, at % U64, segment.Size(), segment.expiredAt, segment.createdAt, 0));
      }
    }

    // On failure the index is left half built; OpenFS then gives up the object.
    method ScanRegion(decode: Decoder, rid: uint64, file: seq<byte>, now: nat) returns (reply: Reply)
      requires Valid()
      modifies this`indexs
      ensures Valid() && fresh(Inodes(indexs) - old(Inodes(indexs)))
      ensures match Store.ScanRegion(d, decode, rid, file, 4, old(View(indexs)), now)
              case Ok(ix) => reply == Done && View(indexs) == ix
              case Err(e) => reply == Failed(e)
    {
      hide View, Store.ScanRegion, Store.ReplaySegment, ReadDecoded, Distinct, Expired;
      var at := 4;
      ghost var whole := Store.ScanRegion(d, decode, rid, file, 4, View(indexs), now);
      while at < |file|
        invariant Valid() && fresh(Inodes(indexs) - old(Inodes(indexs)))
        invariant Store.ScanRegion(d, decode, rid, file, at, View(indexs), now) == whole
        decreases |file| - at
      {
        ScanStep(d, decode, rid, file, at, View(indexs), now);
        var _, segment := ReadSegment(d, decode, file, at);
        if segment.Err? { return Failed(CannotRead(segment.error)); }
        ReplaySegment(rid, at, segment.value, now);
        if segment.value.Size() == 0 { return Failed(ScanStuck); }
        at := at + segment.value.Size();
      }
      ScanStop(d, decode, rid, file, at, View(indexs), now);
      return Done;
    }

    method CrashRecoveryAllIndex(decode: Decoder, now: nat) returns (reply: Reply)
      requires Valid() && View(indexs) == EMPTY
      modifies this`indexs
      ensures Valid() && fresh(Inodes(indexs) - old(Inodes(indexs)))
      ensures match Store.CrashRecoveryAllIndex(d, decode, regions, now)
              case Ok(ix) => reply == Done && View(indexs) == ix
              case Err(e) => reply == Failed(e)
    {
      hide View, Sorted, Store.ScanRegion, Distinct, ScanRegions;
      var files := regions;
      var regionIds := Sorted(files.Keys);
      assert forall i :: 0 <= i < |regionIds| ==> regionIds[i] in regionIds;
      ghost var whole := ScanRegions(d, decode, files, regionIds, EMPTY, now);
      assert regionIds[0..] == regionIds;
      var i := 0;
      while i < |regionIds|
        invariant 0 <= i <= |regionIds|
        invariant Valid() && fresh(Inodes(indexs) - old(Inodes(indexs)))
        invariant ScanRegions(d, decode, files, regionIds[i..], View(indexs), now) == whole
      {
        ScanNext(d, decode, files, regionIds, i, View(indexs), now);
        reply := ScanRegion(decode, regionIds[i], files[regionIds[i]], now);
        if reply != Done { return; }
        i := i + 1;
      }
      ScanEnd(d, decode, files, regionIds, View(indexs), now);
      return Done;
    }

    // ---- Snapshots ----

    // All shards stay read-locked while the snapshot is written.
    method ExportSnapshotIndex() returns (file: seq<byte>, ghost items: seq<Item>)
      requires Valid()
      ensures Enumerates(items, Model().index) && file == SnapshotBytes(d, items)
      ensures Model() == old(Model())
    {
      hide Enumerates, SnapshotBytes;
      var ix := View(indexs);
      ValidIsSharded();
      file, items := WriteSnapshot(d, ix);
      assert View(indexs) == ix;
    }

    lemma ValidIsSharded()
      requires Valid()
      ensures Sharded(View(indexs))
    {
      forall i, h | 0 <= i < INDEX_SHARD && h in View(indexs)[i] ensures h % INDEX_SHARD == i {
        assert Holds(indexs, i, h);
      }
    }

    method LoadSnapshotIndex(file: seq<byte>) returns (reply: Reply)
      requires Valid() && View(indexs) == EMPTY
      modifies this`indexs
      ensures Valid() && fresh(Inodes(indexs) - old(Inodes(indexs)))
      ensures match LoadFrom(d, file, 4, EMPTY)
              case Some(ix) => reply == Done && View(indexs) == ix
              case None => reply == Failed(BadSnapshot)
      ensures reply == Done <==> Intact(d, file, 4)
    {
      LoadsIntact(d, file, 4, EMPTY);
      hide View, DeserializeIndex, SetNode, Intact;
      var at := 4;
      while at < |file|
        invariant Valid() && fresh(Inodes(indexs) - old(Inodes(indexs)))
        invariant LoadFrom(d, file, at, View(indexs)) == LoadFrom(d, file, 4, EMPTY)
        decreases |file| - at
      {
        if at + NODE_SIZE > |file| { return Failed(BadSnapshot); }
        var item := DeserializeIndex(d, file[at..at + NODE_SIZE]);
        if item.None? { return Failed(BadSnapshot); }
        SetINode(item.value.0, item.value.1);
        at := at + NODE_SIZE;
      }
      return Done;
    }
  }

  // The items written so far: those of the shards below i, and of shard i all but the keys still to come.
  ghost predicate Written(items: seq<Item>, ix: Shards, i: nat, todo: set<uint64>) {
    && (forall n :: 0 <= n < |items| ==> Lookup(ix, items[n].0) == Some(items[n].1) && Passed(items[n].0, i, todo))
    && (forall h :: Lookup(ix, h).Some? && Passed(h, i, todo) ==> exists n :: 0 <= n < |items| && items[n].0 == h)
    && (forall m, n :: 0 <= m < n < |items| ==> items[m].0 != items[n].0)
  }

  ghost predicate Passed(h: uint64, i: nat, todo: set<uint64>) {
    h % INDEX_SHARD < i || (h % INDEX_SHARD == i && h !in todo)
  }

  lemma WriteOne(items: seq<Item>, ix: Shards, i: nat, todo: set<uint64>, h: uint64)
    requires Written(items, ix, i, todo) && h in todo && h % INDEX_SHARD == i && Lookup(ix, h).Some?
    ensures Written(items + [(h, Lookup(ix, h).value)], ix, i, todo - {h})
  {
    var items' := items + [(h, Lookup(ix, h).value)];
    forall g | Lookup(ix, g).Some? && Passed(g, i, todo - {h})
      ensures exists n :: 0 <= n < |items'| && items'[n].0 == g
    {
      if g == h {
        assert items'[|items|].0 == g;
      } else {
        assert Passed(g, i, todo);
        var n :| 0 <= n < |items| && items[n].0 == g;
        assert items'[n].0 == g;
      }
    }
  }

  function KeysOf(ix: Shards, i: nat): set<uint64> {
    if i < INDEX_SHARD then ix[i].Keys else {}
  }

  lemma WrittenShard(items: seq<Item>, ix: Shards, i: nat)
    requires Written(items, ix, i, {})
    ensures Written(items, ix, i + 1, KeysOf(ix, i + 1))
  {
    forall h | Lookup(ix, h).Some? && Passed(h, i + 1, KeysOf(ix, i + 1)) ensures Passed(h, i, {}) {
    }
  }

  lemma WrittenAll(items: seq<Item>, ix: Shards)
    requires Written(items, ix, INDEX_SHARD, {})
    ensures Enumerates(items, ix)
  {
    forall h | Lookup(ix, h).Some? ensures exists n :: 0 <= n < |items| && items[n].0 == h {
      assert Passed(h, INDEX_SHARD, {});
    }
  }

  // One record per index entry, shard by shard, each shard in any order.
  method WriteSnapshot(d: Digests, ix: Shards) returns (file: seq<byte>, ghost items: seq<Item>)
    requires Sharded(ix)
    ensures Enumerates(items, ix) && file == SnapshotBytes(d, items)
  {
    hide SerializeIndex, SnapshotBytes, Written, Enumerates;
    file, items := MAGIC, [];
    SnapshotNone(d);
    WrittenNone(ix);
    var i := 0;
    while i < INDEX_SHARD
      invariant 0 <= i <= INDEX_SHARD
      invariant Written(items, ix, i, KeysOf(ix, i)) && file == SnapshotBytes(d, items)
    {
      var todo := ix[i].Keys;
      while todo != {}
        invariant todo <= ix[i].Keys
        invariant Written(items, ix, i, todo) && file == SnapshotBytes(d, items)
        decreases |todo|
      {
        var inum :| inum in todo;
        WriteOne(items, ix, i, todo, inum);
        SnapshotAppend(d, items, (inum, ix[i][inum]));
        file := file + SerializeIndex(d, inum, ix[i][inum]);
        items := items + [(inum, ix[i][inum])];
        todo := todo - {inum};
      }
      WrittenShard(items, ix, i);
      i := i + 1;
    }
    WrittenAll(items, ix);
  }

  lemma WrittenNone(ix: Shards)
    ensures Written([], ix, 0, KeysOf(ix, 0))
  {
  }

  lemma {:induction false} SnapshotNone(d: Digests)
    ensures SnapshotBytes(d, []) == MAGIC
  {
  }

  // A directory OpenFS gives up on: a store file without header, or a region file without number.
  ghost predicate Unusable(dir: Directory) {
    || (exists name :: name in dir && IsStoreFile(name) && !HasHeader(dir[name]))
    || (exists name :: name in dir && IsRegionFile(name) && ParseDataFileName(name).None?)
  }

  // What recovery takes for a region file.
  predicate LooksLikeRegion(name: string) {
    |name| >= 5 && name[0] == '0' && name[|name| - 4..] == ".wdb"
  }

  // It does so exactly if a region file or index.wdb does not start with the four bytes of a store file, or the name of
  // a region file has anything but a number of 64 bits before its extension.
  lemma UnusableIff(dir: Directory)
    ensures Unusable(dir) <==> exists name :: name in dir && Bad(name, dir[name])
  {
    forall name | name in dir
      ensures Bad(name, dir[name]) <==> (IsStoreFile(name) && !HasHeader(dir[name]))
                                        || (IsRegionFile(name) && ParseDataFileName(name).None?)
    {
      LooksRight(name);
    }
  }

  ghost predicate Bad(name: string, file: seq<byte>) {
    || ((LooksLikeRegion(name) || name == "index.wdb") && !(|file| >= 4 && file[..4] == [0xDB, 0x00, 0x01, 0x01]))
    || (LooksLikeRegion(name)
        && var stem := name[..|name| - 4];
           !((forall i :: 0 <= i < |stem| ==> '0' <= stem[i] <= '9')
             && DecimalValue(stem) < 0x1_0000_0000_0000_0000))
  }

  lemma LooksRight(name: string)
    ensures LooksLikeRegion(name) <==> IsRegionFile(name)
    ensures LooksLikeRegion(name) ==>
              var stem := name[..|name| - 4];
              ParseDataFileName(name).Some?
              <==> (forall i :: 0 <= i < |stem| ==> '0' <= stem[i] <= '9')
                   && DecimalValue(stem) < 0x1_0000_0000_0000_0000
  {
    if |name| == 4 && name[0] == '0' { NoStem(name); }
    if LooksLikeRegion(name) {
      var stem := name[..|name| - 4];
      assert name == stem + ".wdb";
      AcceptedNames(stem);
    }
  }

  lemma NoStem(name: string)
    requires |name| == 4 && name[0] == '0'
    ensures name[|name| - 4..] != ".wdb"
  {
    assert name[|name| - 4..][0] == name[0];
  }

  // OpenFS on a directory: check the headers, recover the regions, then the index from the snapshot or by scanning.
  method OpenFS(d: Digests, decode: Decoder, threshold: nat, dir: Directory, now: nat)
    returns (fs: LogStructuredFS, reply: Result<Reply, string>, ghost files: map<uint64, seq<byte>>)
    ensures fresh(fs) && fs.Valid() && fresh(Inodes(fs.indexs)) && fs.d == d && fs.threshold == threshold
    ensures reply.Err? <==> Unusable(dir)
    ensures reply.Ok? ==> Recovers(dir, files)
    ensures reply.Ok? ==>
              var snapshot := if INDEX_FILE_NAME in dir then Some(dir[INDEX_FILE_NAME]) else None;
              var (s, r) := Store.OpenFS(d, decode, threshold, files, snapshot, now);
              reply.value == r && (r == Done ==> fs.Model() == s)
  {
    hide View, Store.ActivateRegions, LoadFrom, Store.CrashRecoveryAllIndex;
    fs := new LogStructuredFS(d, threshold);
    files := map[];
    var bad := CheckFileSystem(dir);
    if bad.Some? { return fs, Err(bad.value), files; }
    var regions := RecoverRegionFiles(dir);
    if regions.Err? { return fs, Err(regions.error), files; }
    files := regions.value;
    ActivateEmpty(threshold, files);
    var r := fs.ActivateRegions(regions.value);
    if r.Failed? { return fs, Ok(r), files; }
    if INDEX_FILE_NAME in dir {
      r := fs.LoadSnapshotIndex(dir[INDEX_FILE_NAME]);
    } else {
      r := fs.CrashRecoveryAllIndex(decode, now);
    }
    return fs, Ok(r), files;
  }

  lemma ActivateEmpty(threshold: nat, files: map<uint64, seq<byte>>)
    ensures Store.ActivateRegions(threshold, files).0.index == EMPTY
    ensures Store.ActivateRegions(threshold, files).1 == Done || Store.ActivateRegions(threshold, files).1.Failed?
  {
    hide Sorted;
  }
}
