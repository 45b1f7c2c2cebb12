// The store's state and one function per operation of vfs/lfs.go, each taken as one atomic step.
// The methods of class LogStructuredFS are proved to compute these functions.

module Store {
  import opened Wrappers
  import opened Bytes
  import opened Segments
  import opened RegionLog
  import opened Index
  import opened FileNames

  // The largest file an int64 offset can address; writes past it fail.
  const MAX_FILE := 0x7FFF_FFFF_FFFF_FFFF

  const NANOS_PER_SECOND := 1_000_000_000

  // files: the region files, by id; active: the id of the file the active handle refers to.
  datatype State = State(
    files: map<uint64, seq<byte>>, regionID: uint64, active: uint64, offset: uint64, index: Shards)

  datatype Error =
    | NotFound | HasExpired | RegionMissing | CannotRead(cause: ReadError) | VersionConflict
    | AppendFailed | NoRegionName | BadSnapshot | ScanStuck

  datatype Reply = Done | Fetched(version: uint64, seg: Segment) | Failed(error: Error)

  predicate CanAppend(s: State, n: nat) {
    s.active in s.files && |s.files[s.active]| + n <= MAX_FILE
  }

  // appendToActiveRegion
  function Append(s: State, bytes: seq<byte>): State
    requires s.active in s.files
  {
    s.(files := s.files[s.active := s.files[s.active] + bytes])
  }

  function AddOffset(s: State, n: nat): State {
    s.(offset := (s.offset + n) % U64)
  }

  // createActiveRegion: the id is taken before the name is checked.
  function CreateActiveRegion(s: State): (State, Reply) {
    var id := (s.regionID + 1) % U64;
    var s1 := s.(regionID := id);
    if GenerateFileName(id).None? then (s1, Failed(NoRegionName)) else
      var existing := if id in s.files then s.files[id] else [];
      (s1.(files := s.files[id := existing + MAGIC], active := id, offset := 4), Done)
  }

  function RollIfFull(s: State, threshold: nat): (State, Reply) {
    if s.offset >= threshold then CreateActiveRegion(s) else (s, Done)
  }

  function PutSegment(d: Digests, threshold: nat, s: State, key: seq<byte>, seg: Segment): (State, Reply) {
    var bytes := Serialize(d, seg);
    if !CanAppend(s, |bytes|) then (s, Failed(AppendFailed)) else
      var node := Node(s.regionID, s.offset, seg.Size(), seg.expiredAt, seg.createdAt, 0);
      var s1 := Append(s, bytes).(index := SetNode(s.index, d.inodeNum(key), node));
      RollIfFull(AddOffset(s1, seg.Size()), threshold)
  }

  function DeleteSegment(d: Digests, s: State, key: seq<byte>, now: uint64): (State, Reply) {
    var seg := NewTombstoneSegment(key, now);
    var bytes := Serialize(d, seg);
    if !CanAppend(s, |bytes|) then (s, Failed(AppendFailed)) else
      (AddOffset(Append(s, bytes), seg.Size()).(index := DeleteNode(s.index, d.inodeNum(key))), Done)
  }

  function UpdateSegmentWithCAS(d: Digests, threshold: nat, s: State, key: seq<byte>, expected: uint64, seg: Segment)
    : (State, Reply)
  {
    var h := d.inodeNum(key);
    match Lookup(s.index, h)
    case None => (s, Failed(NotFound))
    case Some(node) =>
      if node.mvcc != expected then (s, Failed(VersionConflict)) else
        var bumped := node.(mvcc := (expected + 1) % U64);
        var bytes := Serialize(d, seg);
        if !CanAppend(s, |bytes|) then (s.(index := SetNode(s.index, h, bumped)), Failed(AppendFailed)) else
          var moved := Node(s.regionID, s.offset, seg.Size(), seg.expiredAt, seg.createdAt, bumped.mvcc);
          var s1 := Append(s, bytes).(index := SetNode(s.index, h, moved));
          RollIfFull(AddOffset(s1, seg.Size()), threshold)
  }

  // The outcomes of an update, spelled out: refused, version taken but nothing written, written.
  lemma CasRefused(d: Digests, threshold: nat, s: State, key: seq<byte>, expected: uint64, seg: Segment)
    requires var n := Lookup(s.index, d.inodeNum(key)); n.Some? ==> n.value.mvcc != expected
    ensures UpdateSegmentWithCAS(d, threshold, s, key, expected, seg)
            == (s, Failed(if Lookup(s.index, d.inodeNum(key)).None? then NotFound else VersionConflict))
  {
  }

  lemma CasUnwritten(d: Digests, threshold: nat, s: State, key: seq<byte>, expected: uint64, seg: Segment)
    requires !CanAppend(s, |Serialize(d, seg)|)
    requires var n := Lookup(s.index, d.inodeNum(key)); n.Some? && n.value.mvcc == expected
    ensures var h := d.inodeNum(key);
            var bumped := Lookup(s.index, h).value.(mvcc := (expected + 1) % U64);
            UpdateSegmentWithCAS(d, threshold, s, key, expected, seg)
            == (s.(index := SetNode(s.index, h, bumped)), Failed(AppendFailed))
  {
    hide Serialize, SetNode;
  }

  lemma CasResult(d: Digests, threshold: nat, s: State, key: seq<byte>, expected: uint64, seg: Segment)
    requires CanAppend(s, |Serialize(d, seg)|)
    requires var n := Lookup(s.index, d.inodeNum(key)); n.Some? && n.value.mvcc == expected
    ensures var node := Node(s.regionID, s.offset, seg.Size(), seg.expiredAt, seg.createdAt, (expected + 1) % U64);
            UpdateSegmentWithCAS(d, threshold, s, key, expected, seg)
            == RollIfFull(AddOffset(Append(s, Serialize(d, seg)).(index := SetNode(s.index, d.inodeNum(key), node)),
                                    seg.Size()), threshold)
  {
    hide RollIfFull, Serialize, AddOffset, SetNode;
  }

  function ReadNode(d: Digests, decode: Decoder, files: map<uint64, seq<byte>>, node: Node): Reply {
    if node.regionID !in files then Failed(RegionMissing) else
      match ReadDecoded(d, decode, files[node.regionID], node.position)
      case Err(e) => Failed(CannotRead(e))
      case Ok(seg) => Fetched(node.mvcc, seg)
  }

  function FetchSegment(d: Digests, decode: Decoder, s: State, key: seq<byte>, now: nat): (State, Reply) {
    var h := d.inodeNum(key);
    match Lookup(s.index, h)
    case None => (s, Failed(NotFound))
    case Some(node) =>
      if Expired(node.expiredAt, now) then (s.(index := DeleteNode(s.index, h)), Failed(HasExpired))
      else (s, ReadNode(d, decode, s.files, node))
  }

  // ---- Opening ----

  // The tail of recoverRegions: pick the highest region as active, or start a new one.
  function ActivateRegions(threshold: nat, files: map<uint64, seq<byte>>): (State, Reply) {
    var ids := Sorted(files.Keys);
    var s := State(files, 0, 0, 4, EMPTY);
    if ids == [] then CreateActiveRegion(s) else
      var top := ids[|ids| - 1];
      var s1 := s.(regionID := top);
      if |files[top]| >= threshold then CreateActiveRegion(s1)
      else (s1.(active := top, offset := |files[top]| % U64), Done)
  }

  // The loop of crashRecoveryAllIndex over one region, from an offset on.
  function ScanRegion(d: Digests, decode: Decoder, rid: uint64, file: seq<byte>, offset: nat, ix: Shards, now: nat)
    : Result<Shards, Error>
    decreases |file| - offset
  {
    if offset >= |file| then Ok(ix) else
      match ReadDecoded(d, decode, file, offset)
      case Err(e) => Err(CannotRead(e))
      case Ok(seg) =>
        var ix' := ReplaySegment(d, ix, rid, offset, seg, now);
        if seg.Size() == 0 then Err(ScanStuck) // a wrapped size: the scan would not advance
        else ScanRegion(d, decode, rid, file, offset + seg.Size(), ix', now)
  }

  function ReplaySegment(d: Digests, ix: Shards, rid: uint64, offset: nat, seg: Segment, now: nat): Shards {
    var h := d.inodeNum(seg.key);
    if seg.IsTombstone() then DeleteNode(ix, h)
    else if Expired(seg.expiredAt, now) then ix
    else SetNode(ix, h, Node(rid, offset % U64, seg.Size(), seg.expiredAt, seg.createdAt, 0))
  }

  function ScanRegions(d: Digests, decode: Decoder, files: map<uint64, seq<byte>>, ids: seq<uint64>, ix: Shards,
                       now: nat)
    : Result<Shards, Error>
    requires forall i :: 0 <= i < |ids| ==> ids[i] in files
  {
    if ids == [] then Ok(ix) else
      match ScanRegion(d, decode, ids[0], files[ids[0]], 4, ix, now)
      case Err(e) => Err(e)
      case Ok(ix') => ScanRegions(d, decode, files, ids[1..], ix', now)
  }

  function CrashRecoveryAllIndex(d: Digests, decode: Decoder, files: map<uint64, seq<byte>>, now: nat)
    : Result<Shards, Error>
  {
    ScanRegions(d, decode, files, Sorted(files.Keys), EMPTY, now)
  }

  // OpenFS on the region files of a directory and its snapshot file, if there is one.
  function OpenFS(d: Digests, decode: Decoder, threshold: nat, files: map<uint64, seq<byte>>,
                  snapshot: Option<seq<byte>>, now: nat): (State, Reply) {
    var (s, reply) := ActivateRegions(threshold, files);
    if reply.Failed? then (s, reply)
    else if snapshot.Some? then
      match LoadFrom(d, snapshot.value, 4, EMPTY)
      case None => (s, Failed(BadSnapshot))
      case Some(ix) => (s.(index := ix), Done)
    else
      match CrashRecoveryAllIndex(d, decode, s.files, now)
      case Err(e) => (s, Failed(e))
      case Ok(ix) => (s.(index := ix), Done)
  }
}
