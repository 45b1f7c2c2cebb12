// The sharded in-memory index and the snapshot file that persists it (vfs/lfs.go).

module Index {
  import opened Wrappers
  import opened Bytes
  import opened Segments
  import opened RegionLog

  const INDEX_SHARD := 10
  const NODE_SIZE := 48

  // The fields of an INode.
  datatype Node = Node(
    regionID: uint64, position: uint64, length: uint32, expiredAt: uint64, createdAt: uint64, mvcc: uint64)

  type Shard = map<uint64, Node>

  type Shards = s: seq<Shard> | |s| == INDEX_SHARD
    witness [map[], map[], map[], map[], map[], map[], map[], map[], map[], map[]]

  const EMPTY: Shards := [map[], map[], map[], map[], map[], map[], map[], map[], map[], map[]]

  function Lookup(ix: Shards, h: uint64): Option<Node> {
    if h in ix[h % INDEX_SHARD] then Some(ix[h % INDEX_SHARD][h]) else None
  }

  function SetNode(ix: Shards, h: uint64, node: Node): (r: Shards)
    ensures forall g :: Lookup(r, g) == if g == h then Some(node) else Lookup(ix, g)
    ensures Sharded(ix) ==> Sharded(r)
  {
    var shard: Shard := ix[h % INDEX_SHARD][h := node];
    ix[h % INDEX_SHARD := shard]
  }

  function DeleteNode(ix: Shards, h: uint64): (r: Shards)
    ensures forall g :: Lookup(r, g) == if g == h then None else Lookup(ix, g)
    ensures Sharded(ix) ==> Sharded(r)
  {
    var shard: Shard := ix[h % INDEX_SHARD] - {h};
    ix[h % INDEX_SHARD := shard]
  }

  lemma SetTwice(ix: Shards, h: uint64, a: Node, b: Node)
    ensures SetNode(SetNode(ix, h, a), h, b) == SetNode(ix, h, b)
  {
    var twice, once := SetNode(SetNode(ix, h, a), h, b), SetNode(ix, h, b);
    forall i | 0 <= i < INDEX_SHARD ensures twice[i] == once[i] {
    }
  }

  // Every inode number sits in the shard of its residue.
  predicate Sharded(ix: Shards) {
    forall i :: 0 <= i < INDEX_SHARD ==> forall h :: h in ix[i] ==> h % INDEX_SHARD == i
  }

  // How many keys the first n shards hold.
  function CountKeys(ix: Shards, n: nat): nat
    requires n <= INDEX_SHARD
  {
    if n == 0 then 0 else CountKeys(ix, n - 1) + |ix[n - 1]|
  }

  // A sharded index is determined by its lookups.
  lemma SameLookups(a: Shards, b: Shards)
    requires Sharded(a) && Sharded(b)
    requires forall h :: Lookup(a, h) == Lookup(b, h)
    ensures a == b
  {
    forall i | 0 <= i < INDEX_SHARD ensures a[i] == b[i] {
      forall h ensures h in a[i] <==> h in b[i] {
        assert Lookup(a, h) == Lookup(b, h);
      }
      forall h | h in a[i] ensures a[i][h] == b[i][h] {
        assert Lookup(a, h) == Lookup(b, h);
      }
    }
  }

  // The inode of a record stored in the log.
  function NodeOf(e: Entry, mvcc: uint64): Node {
    Node(e.rid, e.pos % U64, e.seg.Size(), e.seg.expiredAt, e.seg.createdAt, mvcc)
  }

  // ---- Snapshot records ----

  // Inode number, region, position, length (the one field of four bytes), expiry, creation time and a checksum of four
  // bytes over them; the version is not stored.
  function SerializeIndex(d: Digests, inum: uint64, node: Node): (s: seq<byte>)
    ensures |s| == NODE_SIZE
  {
    var body := Put64(inum) + Put64(node.regionID) + Put64(node.position) + Put32(node.length)
                + Put64(node.expiredAt) + Put64(node.createdAt);
    body + Put32(d.crc32(body))
  }

  function DeserializeIndex(d: Digests, data: seq<byte>): Option<(uint64, Node)>
    requires |data| == NODE_SIZE
  {
    if Get32(data[44..48]) != d.crc32(data[..44]) then None else
      Some((Get64(data[0..8]), Node(Get64(data[8..16]), Get64(data[16..24]), Get32(data[24..28]),
                                    Get64(data[28..36]), Get64(data[36..44]), 0)))
  }

  // A snapshot record gives back every field but the version.
  lemma IndexRoundTrip(d: Digests, inum: uint64, node: Node)
    ensures DeserializeIndex(d, SerializeIndex(d, inum, node)) == Some((inum, node.(mvcc := 0)))
  {
    IndexParts(d, inum, node);
  }

  // The 48 bytes of a snapshot record, place by place; the last four are the checksum of the others.
  predicate IsIndexRecord(d: Digests, inum: uint64, node: Node, s: seq<byte>) {
    && |s| == 48
    && HoldsAt(s, 0, inum, 8) && HoldsAt(s, 8, node.regionID, 8) && HoldsAt(s, 16, node.position, 8)
    && HoldsAt(s, 24, node.length, 4) && HoldsAt(s, 28, node.expiredAt, 8) && HoldsAt(s, 36, node.createdAt, 8)
    && HoldsAt(s, 44, d.crc32(s[..44]), 4)
  }

  lemma IndexParts(d: Digests, inum: uint64, node: Node)
    ensures var s := SerializeIndex(d, inum, node);
            && s[0..8] == Put64(inum) && s[8..16] == Put64(node.regionID) && s[16..24] == Put64(node.position)
            && s[24..28] == Put32(node.length) && s[28..36] == Put64(node.expiredAt)
            && s[36..44] == Put64(node.createdAt) && s[44..48] == Put32(d.crc32(s[..44]))
  {
    var s := SerializeIndex(d, inum, node);
    assert s[..44] == Put64(inum) + Put64(node.regionID) + Put64(node.position) + Put32(node.length)
                      + Put64(node.expiredAt) + Put64(node.createdAt);
  }

  lemma IndexTable(d: Digests, inum: uint64, node: Node)
    ensures IsIndexRecord(d, inum, node, SerializeIndex(d, inum, node))
  {
    var s := SerializeIndex(d, inum, node);
    IndexParts(d, inum, node);
    hide HoldsAt, SerializeIndex, Put64, Put32;
    Slice64(s, 0, inum);
    Slice64(s, 8, node.regionID);
    Slice64(s, 16, node.position);
    Slice32(s, 24, node.length);
    Slice64(s, 28, node.expiredAt);
    Slice64(s, 36, node.createdAt);
    Slice32(s, 44, d.crc32(s[..44]));
  }

  // A record is accepted exactly if it is the serialization of what it gives back.
  lemma DeserializeExact(d: Digests, data: seq<byte>, inum: uint64, node: Node)
    requires |data| == 48
    ensures DeserializeIndex(d, data) == Some((inum, node))
            <==> data == SerializeIndex(d, inum, node) && node.mvcc == 0
  {
    if DeserializeIndex(d, data) == Some((inum, node)) {
      Put64Get64(data[0..8]);
      Put64Get64(data[8..16]);
      Put64Get64(data[16..24]);
      Put32Get32(data[24..28]);
      Put64Get64(data[28..36]);
      Put64Get64(data[36..44]);
      Put32Get32(data[44..48]);
      assert data[..44] == data[0..8] + data[8..16] + data[16..24] + data[24..28] + data[28..36] + data[36..44];
      assert data == data[..44] + data[44..48];
    }
    if data == SerializeIndex(d, inum, node) && node.mvcc == 0 { IndexRoundTrip(d, inum, node); }
  }

  // It is refused exactly if its last four bytes are not the checksum of the others.
  lemma DeserializeAccepts(d: Digests, data: seq<byte>)
    requires |data| == 48
    ensures DeserializeIndex(d, data).Some? <==> HoldsAt(data, 44, d.crc32(data[..44]), 4)
  {
    StoredNumber(data, 44, d.crc32(data[..44]));
  }

  // ---- Whole snapshots ----

  type Item = (uint64, Node)

  function SnapshotBytes(d: Digests, items: seq<Item>): (s: seq<byte>)
    ensures |s| == 4 + 48 * |items|
  {
    if items == [] then MAGIC else
      var last := items[|items| - 1];
      SnapshotBytes(d, items[..|items| - 1]) + SerializeIndex(d, last.0, last.1)
  }

  lemma {:induction false} SnapshotAppend(d: Digests, items: seq<Item>, item: Item)
    ensures SnapshotBytes(d, items + [item]) == SnapshotBytes(d, items) + SerializeIndex(d, item.0, item.1)
  {
    assert (items + [item])[..|items|] == items;
  }

  lemma {:induction false} SnapshotHasHeader(d: Digests, items: seq<Item>)
    ensures HasHeader(SnapshotBytes(d, items))
  {
    if items != [] {
      SnapshotHasHeader(d, items[..|items| - 1]);
    }
  }

  // The list holds every index entry once, in some order (Go's map iteration order).
  ghost predicate Enumerates(items: seq<Item>, ix: Shards) {
    && (forall i :: 0 <= i < |items| ==> Lookup(ix, items[i].0) == Some(items[i].1))
    && (forall h :: Lookup(ix, h).Some? ==> exists i :: 0 <= i < |items| && items[i].0 == h)
    && (forall i, j :: 0 <= i < j < |items| ==> items[i].0 != items[j].0)
  }

  // Sequential decode from an offset: what recoveryIndex computes.
  function LoadFrom(d: Digests, file: seq<byte>, offset: nat, ix: Shards): Option<Shards>
    decreases |file| - offset
  {
    if offset >= |file| then Some(ix)
    else if offset + NODE_SIZE > |file| then None
    else
      match DeserializeIndex(d, file[offset..offset + NODE_SIZE])
      case None => None
      case Some(item) => LoadFrom(d, file, offset + NODE_SIZE, SetNode(ix, item.0, item.1))
  }

  function ResetVersions(ix: Shards): (r: Shards)
    ensures forall h :: Lookup(r, h) == match Lookup(ix, h) case None => None case Some(n) => Some(n.(mvcc := 0))
    ensures Sharded(ix) ==> Sharded(r)
  {
    seq(INDEX_SHARD, i requires 0 <= i < INDEX_SHARD => map h | h in ix[i] :: ix[i][h].(mvcc := 0))
  }

  // The index ix with the first k items added, versions reset.
  function AddItems(ix: Shards, items: seq<Item>, k: nat): (r: Shards)
    requires k <= |items|
    ensures Sharded(ix) ==> Sharded(r)
  {
    if k == 0 then ix else SetNode(AddItems(ix, items, k - 1), items[k - 1].0, items[k - 1].1.(mvcc := 0))
  }

  lemma {:induction false} SnapshotPrefix(d: Digests, items: seq<Item>, k: nat)
    requires k <= |items|
    ensures SnapshotBytes(d, items)[..4 + 48 * k] == SnapshotBytes(d, items[..k])
  {
    if k < |items| {
      SnapshotPrefix(d, items[..|items| - 1], k);
      assert items[..|items| - 1][..k] == items[..k];
    } else {
      assert items[..k] == items;
    }
  }

  lemma {:induction false} SnapshotRecord(d: Digests, items: seq<Item>, k: nat)
    requires k < |items|
    ensures SnapshotBytes(d, items)[4 + 48 * k..4 + 48 * k + NODE_SIZE]
            == SerializeIndex(d, items[k].0, items[k].1)
  {
    SnapshotPrefix(d, items, k + 1);
    assert items[..k + 1][..k] == items[..k];
    var upTo := SnapshotBytes(d, items[..k + 1]);
    assert upTo[4 + 48 * k..] == SerializeIndex(d, items[k].0, items[k].1);
  }

  lemma LoadOne(d: Digests, file: seq<byte>, offset: nat, ix: Shards, item: Item)
    requires offset + NODE_SIZE <= |file|
    requires file[offset..offset + NODE_SIZE] == SerializeIndex(d, item.0, item.1)
    ensures LoadFrom(d, file, offset, ix)
            == LoadFrom(d, file, offset + NODE_SIZE, SetNode(ix, item.0, item.1.(mvcc := 0)))
  {
    IndexRoundTrip(d, item.0, item.1);
  }

  lemma {:induction false} LoadItems(d: Digests, file: seq<byte>, ix: Shards, items: seq<Item>, k: nat)
    requires k <= |items| && |file| == 4 + 48 * |items|
    requires forall j :: 0 <= j < |items| ==>
               file[4 + 48 * j..4 + 48 * j + NODE_SIZE] == SerializeIndex(d, items[j].0, items[j].1)
    ensures LoadFrom(d, file, 4, ix) == LoadFrom(d, file, 4 + 48 * k, AddItems(ix, items, k))
  {
    hide LoadFrom, SerializeIndex;
    if k > 0 {
      LoadItems(d, file, ix, items, k - 1);
      LoadOne(d, file, 4 + 48 * (k - 1), AddItems(ix, items, k - 1), items[k - 1]);
    }
  }

  lemma {:induction false} AddedLookup(items: seq<Item>, k: nat, h: uint64)
    requires k <= |items|
    requires forall i, j :: 0 <= i < j < |items| ==> items[i].0 != items[j].0
    ensures Lookup(AddItems(EMPTY, items, k), h).Some? <==> exists i :: 0 <= i < k && items[i].0 == h
    ensures forall i :: 0 <= i < k && items[i].0 == h ==>
              Lookup(AddItems(EMPTY, items, k), h) == Some(items[i].1.(mvcc := 0))
  {
    if k > 0 {
      AddedLookup(items, k - 1, h);
    }
  }

  lemma {:induction false} AddedOne(items: seq<Item>, ix: Shards, h: uint64)
    requires Enumerates(items, ix)
    ensures Lookup(AddItems(EMPTY, items, |items|), h) == Lookup(ResetVersions(ix), h)
  {
    AddedLookup(items, |items|, h);
    hide AddItems;
    if Lookup(ix, h).Some? {
      var i :| 0 <= i < |items| && items[i].0 == h;
      assert Lookup(ix, items[i].0) == Some(items[i].1);
    }
  }

  lemma {:induction false} AddedAll(items: seq<Item>, ix: Shards)
    requires Sharded(ix) && Enumerates(items, ix)
    ensures AddItems(EMPTY, items, |items|) == ResetVersions(ix)
  {
    hide AddItems, ResetVersions, Enumerates, Lookup;
    forall h ensures Lookup(AddItems(EMPTY, items, |items|), h) == Lookup(ResetVersions(ix), h) {
      AddedOne(items, ix, h);
    }
    assert Sharded(EMPTY);
    SameLookups(AddItems(EMPTY, items, |items|), ResetVersions(ix));
  }

  // Export followed by recovery restores every shard, whatever order the export wrote it in.
  lemma {:induction false} SnapshotRoundTrip(d: Digests, items: seq<Item>, ix: Shards)
    requires Sharded(ix) && Enumerates(items, ix)
    ensures LoadFrom(d, SnapshotBytes(d, items), 4, EMPTY) == Some(ResetVersions(ix))
  {
    forall j | 0 <= j < |items|
      ensures SnapshotBytes(d, items)[4 + 48 * j..4 + 48 * j + NODE_SIZE]
              == SerializeIndex(d, items[j].0, items[j].1)
    {
      SnapshotRecord(d, items, j);
    }
    LoadItems(d, SnapshotBytes(d, items), EMPTY, items, |items|);
    AddedAll(items, ix);
  }

  // ---- Which snapshots load ----

  // Every 48 bytes from the offset on end with their checksum, and nothing is left over.
  ghost predicate Intact(d: Digests, file: seq<byte>, offset: nat) {
    offset >= |file| ||
    (&& (|file| - offset) % 48 == 0
     && forall k :: 0 <= k < (|file| - offset) / 48 ==> IntactAt(d, file, offset + 48 * k))
  }

  predicate IntactAt(d: Digests, file: seq<byte>, at: nat)
    requires at + 48 <= |file|
  {
    HoldsAt(file, at + 44, d.crc32(file[at..at + 44]), 4)
  }

  lemma IntactRecord(d: Digests, file: seq<byte>, at: nat)
    requires at + 48 <= |file|
    ensures DeserializeIndex(d, file[at..at + 48]).Some? <==> IntactAt(d, file, at)
  {
    var data := file[at..at + 48];
    assert data[44..48] == file[at + 44..at + 48] && data[..44] == file[at..at + 44];
    StoredNumber(data, 44, d.crc32(data[..44]));
    StoredNumber(file, at + 44, d.crc32(data[..44]));
  }

  // A snapshot loads exactly if it is intact behind its header.
  lemma {:induction false} LoadsIntact(d: Digests, file: seq<byte>, offset: nat, ix: Shards)
    ensures LoadFrom(d, file, offset, ix).Some? <==> Intact(d, file, offset)
    decreases |file| - offset
  {
    hide DeserializeIndex, IntactAt;
    if offset + 48 <= |file| {
      IntactRecord(d, file, offset);
      var data := file[offset..offset + 48];
      assert Intact(d, file, offset) ==> IntactAt(d, file, offset) by { FirstIntact(d, file, offset); }
      if DeserializeIndex(d, data).Some? {
        var item := DeserializeIndex(d, data).value;
        LoadsIntact(d, file, offset + 48, SetNode(ix, item.0, item.1));
        IntactFrom(d, file, offset);
      }
    }
  }

  lemma IntactFrom(d: Digests, file: seq<byte>, offset: nat)
    requires offset + 48 <= |file| && IntactAt(d, file, offset)
    ensures Intact(d, file, offset) <==> Intact(d, file, offset + 48)
  {
    hide IntactAt;
    var next, n := offset + 48, (|file| - offset) / 48;
    if Intact(d, file, offset) && next < |file| {
      forall k | 0 <= k < n - 1 ensures IntactAt(d, file, next + 48 * k) {
        assert IntactAt(d, file, offset + 48 * (k + 1));
      }
    }
    if Intact(d, file, next) {
      forall k | 0 <= k < n ensures IntactAt(d, file, offset + 48 * k) {
        if k > 0 { assert IntactAt(d, file, next + 48 * (k - 1)); }
      }
    }
  }

  lemma FirstIntact(d: Digests, file: seq<byte>, offset: nat)
    requires offset + 48 <= |file|
    ensures Intact(d, file, offset) ==> IntactAt(d, file, offset)
  {
    if Intact(d, file, offset) {
      var k := 0;
      assert IntactAt(d, file, offset + 48 * k);
    }
  }

  lemma {:induction false} SameRecords(d: Digests, file: seq<byte>, items: seq<Item>)
    requires |file| == 4 + 48 * |items|
    requires forall k :: 0 <= k < |items| ==>
               file[4 + 48 * k..4 + 48 * k + NODE_SIZE] == SerializeIndex(d, items[k].0, items[k].1)
    ensures file[4..] == SnapshotBytes(d, items)[4..]
  {
    var s := SnapshotBytes(d, items);
    hide SnapshotBytes, SerializeIndex;
    forall i | 4 <= i < |file| ensures file[i] == s[i] {
      var k := (i - 4) / 48;
      SnapshotRecord(d, items, k);
      var j := i - (4 + 48 * k);
      assert file[i] == file[4 + 48 * k..4 + 48 * k + NODE_SIZE][j];
      assert s[i] == s[4 + 48 * k..4 + 48 * k + NODE_SIZE][j];
    }
  }

  // What the k-th 48 bytes decode to.
  function DecodedAt(d: Digests, file: seq<byte>, k: nat): Option<Item>
    requires 4 + 48 * k + 48 <= |file|
  {
    DeserializeIndex(d, file[4 + 48 * k..4 + 48 * k + 48])
  }

  lemma DecodesAt(d: Digests, file: seq<byte>, k: nat)
    requires Intact(d, file, 4) && 4 + 48 * k + 48 <= |file|
    ensures DecodedAt(d, file, k).Some?
    ensures var item := DecodedAt(d, file, k).value;
            file[4 + 48 * k..4 + 48 * k + NODE_SIZE] == SerializeIndex(d, item.0, item.1)
  {
    assert IntactAt(d, file, 4 + 48 * k);
    hide DeserializeIndex, IntactAt, SerializeIndex;
    IntactRecord(d, file, 4 + 48 * k);
    var item := DecodedAt(d, file, k).value;
    DeserializeExact(d, file[4 + 48 * k..4 + 48 * k + 48], item.0, item.1);
  }

  lemma RecordsOf(d: Digests, file: seq<byte>) returns (items: seq<Item>)
    requires |file| > 4 && Intact(d, file, 4)
    ensures file[4..] == SnapshotBytes(d, items)[4..]
  {
    var n := (|file| - 4) / 48;
    assert |file| == 4 + 48 * n;
    hide Intact, DecodedAt, SnapshotBytes, SerializeIndex;
    items := [];
    while |items| < n
      invariant |items| <= n
      invariant forall k :: 0 <= k < |items| ==>
                  file[4 + 48 * k..4 + 48 * k + NODE_SIZE] == SerializeIndex(d, items[k].0, items[k].1)
    {
      DecodesAt(d, file, |items|);
      items := items + [DecodedAt(d, file, |items|).value];
    }
    SameRecords(d, file, items);
  }

  // In other words: behind the header there are the records of some items, one after the other, and nothing else; and
  // then the index is that of the items, the last one of a number counting.
  lemma {:induction false} LoadsRecords(d: Digests, file: seq<byte>)
    requires |file| > 4
    ensures LoadFrom(d, file, 4, EMPTY).Some? <==> exists items :: file[4..] == SnapshotBytes(d, items)[4..]
    ensures forall items :: file[4..] == SnapshotBytes(d, items)[4..] ==>
              LoadFrom(d, file, 4, EMPTY) == Some(AddItems(EMPTY, items, |items|))
  {
    LoadsIntact(d, file, 4, EMPTY);
    if Intact(d, file, 4) { var items := RecordsOf(d, file); }
    forall items | file[4..] == SnapshotBytes(d, items)[4..]
      ensures LoadFrom(d, file, 4, EMPTY) == Some(AddItems(EMPTY, items, |items|))
    {
      LoadsItems(d, file, items);
    }
  }

  lemma {:induction false} LoadsItems(d: Digests, file: seq<byte>, items: seq<Item>)
    requires |file| > 4 && file[4..] == SnapshotBytes(d, items)[4..]
    ensures LoadFrom(d, file, 4, EMPTY) == Some(AddItems(EMPTY, items, |items|))
  {
    var s := SnapshotBytes(d, items);
    hide SnapshotBytes, SerializeIndex, AddItems;
    assert |file| == |s|;
    forall j | 0 <= j < |items|
      ensures file[4 + 48 * j..4 + 48 * j + NODE_SIZE] == SerializeIndex(d, items[j].0, items[j].1)
    {
      SnapshotRecord(d, items, j);
      assert file[4..][48 * j..48 * j + NODE_SIZE] == s[4..][48 * j..48 * j + NODE_SIZE];
    }
    LoadItems(d, file, EMPTY, items, |items|);
  }
}
