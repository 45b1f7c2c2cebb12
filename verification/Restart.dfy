// Stopping a store object and opening another one on the directory it leaves behind (vfs/lfs.go).

module Restart {
  import opened Wrappers
  import opened Bytes
  import opened Segments
  import opened RegionLog
  import opened Index
  import opened FileNames
  import opened Store
  import opened StoreInvariant
  import opened Reopen
  import opened Refinement
  import opened FileSystem

  // What is left in the directory: the region files, and the snapshot if one was ever exported.
  method Reopened(d: Digests, decode: Decoder, threshold: nat, files: map<uint64, seq<byte>>,
                  snapshot: Option<seq<byte>>, now: nat)
    returns (fs: LogStructuredFS, reply: Reply)
    requires forall id :: id in files ==> id < REGION_LIMIT && HasHeader(files[id])
    requires snapshot.Some? ==> HasHeader(snapshot.value)
    ensures fresh(fs) && fs.Valid() && fresh(Inodes(fs.indexs)) && fs.d == d && fs.threshold == threshold
    ensures var (s, r) := Store.OpenFS(d, decode, threshold, files, snapshot, now);
            reply == r && (r == Done ==> fs.Model() == s)
  {
    hide Recovers, DirectoryOf, Store.OpenFS;
    var dir := DirectoryOf(files, snapshot);
    DirectoryUsable(files, snapshot);
    SnapshotInDirectory(files, snapshot);
    var result;
    ghost var found;
    fs, result, found := FileSystem.OpenFS(d, decode, threshold, dir, now);
    RecoveredFiles(files, snapshot, found);
    reply := result.value;
  }

  lemma DirectoryUsable(files: map<uint64, seq<byte>>, snapshot: Option<seq<byte>>)
    requires forall id :: id in files ==> HasHeader(files[id])
    requires snapshot.Some? ==> HasHeader(snapshot.value)
    ensures !Unusable(DirectoryOf(files, snapshot))
  {
    RecoveryParses(files, snapshot);
    forall name | name in DirectoryOf(files, snapshot) && IsStoreFile(name)
      ensures HasHeader(DirectoryOf(files, snapshot)[name])
    {
      if IsRegionFile(name) {
        RegionInDirectory(files, snapshot, name);
      } else {
        SnapshotInDirectory(files, snapshot);
      }
    }
  }

  lemma NamesStartWithDigit(files: map<uint64, seq<byte>>, name: string)
    requires name in RegionNames(files)
    ensures name != "" && IsDigit(name[0])
  {
    var id :| id in files && FormatDataFileName(id) == name;
  }

  lemma SnapshotInDirectory(files: map<uint64, seq<byte>>, snapshot: Option<seq<byte>>)
    ensures INDEX_FILE_NAME in DirectoryOf(files, snapshot) <==> snapshot.Some?
    ensures snapshot.Some? ==> DirectoryOf(files, snapshot)[INDEX_FILE_NAME] == snapshot.value
  {
    if INDEX_FILE_NAME in RegionNames(files) { NamesStartWithDigit(files, INDEX_FILE_NAME); }
  }

  // CloseFS, then OpenFS: every region is found, and the object is in the state of a clean reopening.
  method CloseAndReopen(fs: LogStructuredFS, decode: Decoder, ghost snapshot: Option<seq<byte>>, now: nat,
                        ghost recs: Records, ghost sp: Spec<uint64>, ghost written: set<Segment>)
    returns (fs': LogStructuredFS, reply: Reply, file: seq<byte>, ghost items: seq<Item>, ghost recs': Records)
    requires fs.Valid() && CanActivate(fs.Model(), fs.threshold)
    requires Inv(Config(fs.d, decode, fs.threshold), World(fs.Model(), snapshot), recs, sp, written, now)
    ensures fresh(fs') && fs'.Valid() && fresh(Inodes(fs'.indexs)) && fs'.d == fs.d && fs'.threshold == fs.threshold
    ensures reply == Done && Enumerates(items, old(fs.Model()).index) && file == SnapshotBytes(fs.d, items)
    ensures Inv(Config(fs.d, decode, fs.threshold), World(fs'.Model(), Some(file)), recs',
                SpecClose(sp, HomesOf(items)), written, now)
  {
    hide *;
    ghost var c, w := Config(fs.d, decode, fs.threshold), World(fs.Model(), snapshot);
    assert w.s.files == fs.regions by { ModelFiles(fs); }
    FilesUsable(c, w, recs, sp, written, now);
    file, items := fs.ExportSnapshotIndex();
    ExportHasHeader(fs.d, items, file);
    recs' := CloseOutcome(c, w, recs, sp, written, now, items, file);
    fs', reply := Reopened(fs.d, IDENTITY, fs.threshold, fs.regions, Some(file), now);
  }

  lemma ModelFiles(fs: LogStructuredFS)
    ensures fs.Model().files == fs.regions
  {
  }

  lemma {:induction false} ExportHasHeader(d: Digests, items: seq<Item>, file: seq<byte>)
    requires file == SnapshotBytes(d, items)
    ensures HasHeader(file)
  {
    SnapshotHasHeader(d, items);
  }

  lemma CloseOutcome(c: Config, w: World, recs: Records, sp: Spec<uint64>, written: set<Segment>, now: nat,
                     items: seq<Item>, file: seq<byte>)
    returns (recs': Records)
    requires Inv(c, w, recs, sp, written, now) && CanActivate(w.s, c.threshold) && Enumerates(items, w.s.index)
    requires file == SnapshotBytes(c.d, items)
    ensures var (s', reply) := Store.OpenFS(c.d, IDENTITY, c.threshold, w.s.files, Some(file), now);
            reply == Done
            && Inv(c, World(s', Some(file)), recs', SpecClose(sp, HomesOf(items)), written, now)
  {
    hide Inv, Store.OpenFS, CanActivate, Enumerates, SnapshotBytes, SpecClose, HomesOf, Bounded;
    recs' := ReopenStep(c, w, recs, sp, written, now, items);
  }

  // A process that ends without closing, then OpenFS in a new one, on a directory with or without a snapshot: the
  // object is in the state of a crash and the opening after it.
  method CrashAndReopen(fs: LogStructuredFS, decode: Decoder, snapshot: Option<seq<byte>>, now: nat,
                        ghost recs: Records, ghost sp: Spec<uint64>, ghost written: set<Segment>)
    returns (fs': LogStructuredFS, reply: Reply, ghost recs': Records, ghost sp': Spec<uint64>)
    requires fs.Valid() && CanActivate(fs.Model(), fs.threshold)
    requires Inv(Config(fs.d, decode, fs.threshold), World(fs.Model(), snapshot), recs, sp, written, now)
    ensures fresh(fs') && fs'.Valid() && fresh(Inodes(fs'.indexs)) && fs'.d == fs.d && fs'.threshold == fs.threshold
    ensures reply == Done && SpecCrash(sp, sp', now)
    ensures Inv(Config(fs.d, decode, fs.threshold), World(fs'.Model(), snapshot), recs', sp', written, now)
  {
    hide *;
    ghost var c, w := Config(fs.d, decode, fs.threshold), World(fs.Model(), snapshot);
    assert w.s.files == fs.regions by { ModelFiles(fs); }
    FilesUsable(c, w, recs, sp, written, now);
    recs', sp' := CrashOutcome(c, w, recs, sp, written, now);
    fs', reply := Reopened(fs.d, IDENTITY, fs.threshold, fs.regions, snapshot, now);
  }

  lemma CrashOutcome(c: Config, w: World, recs: Records, sp: Spec<uint64>, written: set<Segment>, now: nat)
    returns (recs': Records, sp': Spec<uint64>)
    requires Inv(c, w, recs, sp, written, now) && CanActivate(w.s, c.threshold)
    ensures var (s', reply) := Store.OpenFS(c.d, IDENTITY, c.threshold, w.s.files, w.snapshot, now);
            reply == Done && Inv(c, World(s', w.snapshot), recs', sp', written, now) && SpecCrash(sp, sp', now)
  {
    hide Inv, Store.OpenFS, CanActivate, SpecCrash, Bounded;
    recs', sp' := CrashStep(c, w, recs, sp, written, now);
  }

  lemma FilesUsable(c: Config, w: World, recs: Records, sp: Spec<uint64>, written: set<Segment>, now: nat)
    requires Inv(c, w, recs, sp, written, now)
    ensures forall id :: id in w.s.files ==> id < REGION_LIMIT && HasHeader(w.s.files[id])
    ensures w.snapshot.Some? ==> HasHeader(w.snapshot.value)
  {
    forall id | id in w.s.files ensures HasHeader(w.s.files[id]) {
      assert RegionOk(c.d, w.s.files[id], recs[id]);
    }
  }
}
