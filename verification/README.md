# A verified model of wiredkv's log-structured store

wiredkv keeps its data in an append-only log that is split over numbered region files, with an in-memory index of ten
shards that maps the hash of a key to the place of its last record. This project models that store
(`vfs/lfs.go`, `vfs/segment.go`), the value transformer in front of it (`vfs/transformer.go`) and two of the in-memory
data types (`types/zset.go`, `types/table.go`) in Dafny, and proves what they promise. `dafny verify dfyconfig.toml`
checks everything.

## How the model is built

- **Bytes are concrete.** Little-endian fields, record and snapshot layouts, file names and the wrap-around of `uint32`
  and `uint64` are written out. A region file is a `seq<byte>`, the disk a map from region ids to files.
- **Hashes and ciphers are parameters.** murmur3 and CRC-32 are arbitrary functions. Of the block cipher only
  invertibility is assumed, of a compressor only that it undoes itself. The clock is a parameter that never goes back,
  the initialization vector is a parameter too.
- **Two layers.** `FileSystem.LogStructuredFS` is the object of the source: its methods update the offset, the region
  map, the shards and the inodes in place. Each method is proved to compute one function of `Store` (or `Compaction`),
  and everything else is proved about those functions.
- **One invariant.** `Refinement.Inv` ties the state to the record history of every region and to a plain map: every
  file is a header and whole records, the offset is the length of the active file, the active region has the highest id.
  Until the first clean close the index agrees with the log (`StoreInvariant.Rep`); once `index.wdb` exists, which
  nothing ever removes, every unexpired inode still points at a put of its key or names a removed region
  (`Snapshots.SaneIndex`).
- **Whole runs.** `Refinement.RunRefines` takes any sequence of puts, deletes, version-checked updates, reads,
  compactions, clean reopenings and crashes and shows that the replies are those of the plain map. The map carries what a
  crash would bring back: first the puts of each key since its last delete, after a clean close the cells of that close,
  each with the region it was in; a compaction loses exactly the cells of the regions it removes.
- **Opening decodes with no codec.** A process opens the store before it installs compression and encryption
  (cmd/process.go:132-149), so a scan at start-up reads stored values as they are.
- **Concurrency.** `Loader`, `Interleaving` and `WrittenCleanup` are state machines with one atomic action per step;
  their theorems hold for every schedule. `Sequential` shows that one thread on its own, step by step, does what `Store`
  takes as one step.

Statements are about inode numbers, as the code never compares keys; `Refinement.StepByKey` lifts them to keys that do
not collide. `Store` takes each operation as atomic; what happens between the steps of concurrent operations is the
subject of `Interleaving` and `InterleavingMixes`.

## Where the code differs from what is said about it

What the code does in each of these places is proved, mostly with the exact condition under which it does what it
should, and with an input the store can reach where it does not.

- `cleanupDirtyRegion` as written never returns once one of the four lowest regions holds a readable record: it locks
  `lfs.mu` again while holding it, or does not move past the record (`WrittenCleanup.WrittenCleanupReturns`). The
  theorems on compaction are therefore about the algorithm its own comment states (vfs/lfs.go:1062-1072): copy raw
  records, assign the new place, always move on, remove a region once it is scanned.
- That algorithm recognizes a live record by its creation time alone. It preserves what a key reads as exactly when the
  last victim record it copies for the key, if any, holds the current segment (`Snapshots.CompactionPreservesIff`).
  Two puts of a key with one creation time can break that (`CompactionRuns.TwinsBreakCompaction`).
- For the same reason it drops for good what the index does not know. The last record of a key, unless it is a tombstone
  or expired, stays exactly when the victim record copied last for the key is that record, or none is copied and the key
  has a record in another region (`CompactionMeaning.LastAfterCompaction`). Where the index agrees with the log and
  creation times differ, the last record changes only where it is an expired put
  (`CompactionMeaning.CompactionKeepsLast`). After an opening by an older snapshot the last, unexpired put of a key can
  vanish from the disk, replaced by a copy of the one before (`CompactionRuns.CompactionDropsLastPut`).
- `index.wdb` is never removed, and opening never looks at the log when it is there. A read after a crash is one of the
  last clean close, or fails because compaction has removed the region the key was in at that time
  (`StoreProperties.StaleSnapshotReads`); it is right exactly when the key shows the same segment now as that read does
  (`StoreProperties.StaleSnapshotIff`). So compaction makes keys unreadable that nobody has touched
  (`StoreProperties.RemovedRegionForgets`, `CompactionRuns.CompactionOutdatesSnapshot`).
- Before the first clean close, a crash scan skips expired puts without forgetting the earlier ones, so an older
  unexpired value can come back (`Reopen.CrashReadsIff`, `StoreProperties.ExpiredPutRevives`).
- A scan decodes the empty value of every tombstone, which AES decryption cannot do. At start-up no codec is installed
  yet; a process that has AES installed and opens a directory without a snapshot again fails exactly when something in
  it was deleted (`EndToEnd.OpenAgainIff`).
- A delete never starts a new region, so the size bound needs runs without deletes (`StoreProperties.DeleteBounded`).
- The offset is always right at rest only for puts alone or for deletes alone (`InterleavingMixes.AlwaysRightIff`); as
  long as no region is started, also for deletes with updates (`InterleavingMixes.RightWithinRegionIff`). An update
  stores the offset of the moment, not the place of its record, and can leave the inode at the wrong place
  (`InterleavingMixes.PositionRightIff`, `InterleavingMixes.UpdateMisplaced`).
- An update whose record cannot be written has spent the version (`StoreProperties.SpentVersion`).
- The id of a new region is taken before its name is checked, so once the names run out every put is written and
  reports an error, and from the second one on it cannot be read (`StoreProperties.PutOutOfNames`).
- Compaction compares the expiry, in nanoseconds, with the time in seconds, so it copies expired records too
  (`CompactionMeaning.CopiedIff`).
- `SetEncryptor` accepts every secret of 16 bytes or more, AES only 16, 24 and 32 (`Transformer.EncodeSucceeds`).
- The comment on `Segment` (vfs/segment.go:24) gives KLEN and VLEN eight bytes; the code writes four, and so does the model.
- A sorted set read back from the store has an empty member list and ranks nobody (`ZSet.DecodedRank`).

## Model

| member | source | states |
|---|---|---|
| Segments.SerializedSegment | vfs/lfs.go:1009-1060 | Writing field after field gives a record with the bytes of `RecordTable`. |
| Segments.RecordTable | vfs/lfs.go:1009-1060 | Byte by byte: a string is the record of a segment if and only if flag and kind are at 0 and 1 in two's complement, expiry at 2, creation time at 10 (eight bytes, lowest first), key and value length at 18 and 22 (four bytes), then key, value and the checksum of everything before it. |
| Segments.TombstoneTable | vfs/segment.go:80-91 | The record of a delete: flag 1, kind 6, no expiry, no value, the creation time and the key. |
| Segments.ReadSegment | vfs/lfs.go:820-900 | The reads at growing offsets return the record stored there with its decoded value and the hash of its stored key, or the error of the first step that fails. |
| Segments.ReadBack | vfs/lfs.go:820-900 | A record with truthful length fields, wherever it lies between other bytes, is read back with every field, key and stored value. |
| Segments.ReadIsExact | vfs/lfs.go:820-900 | Conversely, whatever the reader accepts is byte for byte the serialization of the record it returns. |
| Segments.ReaderAccepts | vfs/lfs.go:820-900 | The reader succeeds at an offset if and only if a consistent record is stored there and its value decodes. |
| Segments.ReadErrors | vfs/lfs.go:820-890 | Of a whole header: the read is short if and only if the file ends before the record its lengths announce, and a mismatch if and only if it does not and the four bytes at its end are not the checksum of those before. |
| Segments.SizeIsBytesWritten | vfs/segment.go:95-98 | `Size()` is the number of bytes written modulo 2^32, so equal to it if and only if the record stays below 4 GiB. |
| RegionLog.LayoutInjective | vfs/lfs.go:712-746 | Two lists of well-formed records with the same file bytes are equal. |
| RegionLog.ReadRecord | vfs/lfs.go:712-746 | Every record of a region file reads back as itself at its boundary. |
| Index.IndexRoundTrip | vfs/lfs.go:935-1007 | A snapshot record of 48 bytes gives back the inode number and every field of the inode except the version, which becomes 0. |
| Index.IndexTable | vfs/lfs.go:935-962 | The 48 bytes of a snapshot record, place by place; the last four are the checksum of the first 44. |
| Index.DeserializeExact | vfs/lfs.go:964-1007 | A record is accepted with a number and an inode if and only if it is, byte for byte, their serialization and the version is 0; a damaged one is refused. |
| Index.SnapshotRoundTrip | vfs/lfs.go:573-606 | For every order of map iteration, decoding the exported file restores every shard, versions reset, each number in the shard of its residue. |
| Index.LoadsIntact | vfs/lfs.go:608-681 | A snapshot loads if and only if what follows the header is a multiple of 48 bytes and each 48 end with the checksum of the 44 before. |
| Index.LoadsRecords | vfs/lfs.go:608-681 | In other words, if and only if it is the records of some items one after the other; the index is then theirs, the last one of a number counting. |
| FileSystem.LogStructuredFS.ExportSnapshotIndex | vfs/lfs.go:573-606 | The exported file is a header and one record for each index entry, none missing and none twice; the object is unchanged. |
| FileSystem.LogStructuredFS.LoadSnapshotIndex | vfs/lfs.go:608-681 | Loading computes the sequential decode of the file; it succeeds if and only if the file is intact behind its header, and reports a bad snapshot otherwise. |
| FileNames.ParseInvertsFormat | vfs/lfs.go:913-931 | Parsing a formatted region file name gives back the id, for every uint64. |
| FileNames.FileNameTable | vfs/lfs.go:929-931 | The name of a region below 10^9, character by character: ten decimal digits, leading zeros included, and `.wdb`. |
| FileNames.AcceptedNames | vfs/lfs.go:913-927 | A name with prefix `0` and suffix `.wdb` parses if and only if all before the suffix is digits, a second dot for instance is not, and the number fits 64 bits; the id is that number. |
| FileNames.GeneratedNames | vfs/lfs.go:902-911 | A name can be generated if and only if the id is below 10^9, and such a name passes the filter of recovery. |
| FileNames.RecoverRegionFiles | vfs/lfs.go:328-351 | Recovery fails if and only if an accepted name does not parse; otherwise it finds exactly the regions of the directory. |
| FileNames.RecoveredFiles | vfs/lfs.go:335-350 | Among the files a store leaves behind, snapshot included, the only region map recovery can find is the one the store had. |
| FileNames.CheckFileSystem | vfs/lfs.go:771-817 | A store file with a wrong or missing header is named if there is one, and none otherwise. |
| FileSystem.LogStructuredFS.PutSegment | vfs/lfs.go:89-131 | The whole new state and the reply are those of `Store.PutSegment`: record appended, new inode at the old offset, roll at the threshold; nothing changes when the append fails. |
| FileSystem.LogStructuredFS.DeleteSegment | vfs/lfs.go:145-173 | The whole new state and the reply are those of `Store.DeleteSegment`: tombstone appended and counted, inode removed. |
| FileSystem.LogStructuredFS.FetchSegment | vfs/lfs.go:175-209 | The reply is that of `Store.FetchSegment`; the only change is that an expired inode is removed. |
| FileSystem.LogStructuredFS.UpdateSegmentWithCAS | vfs/lfs.go:226-279 | The inode is updated in place, no other changes; the version is spent even when the append fails afterwards. |
| FileSystem.LogStructuredFS.CreateActiveRegion | vfs/lfs.go:300-326 | The id is taken before the name is checked; on success the header is written and the offset restarts at 4. |
| FileSystem.LogStructuredFS.ActivateRegions | vfs/lfs.go:353-392 | The highest region becomes active with the offset at its end, or a new one is started if it is full or there is none. |
| FileSystem.LogStructuredFS.CrashRecoveryAllIndex | vfs/lfs.go:691-751 | Scanning the regions in ascending order of id computes `Store.CrashRecoveryAllIndex`, errors included. |
| FileSystem.LogStructuredFS.CleanupDirtyRegion | vfs/lfs.go:1062-1177 | The stated compaction over the four lowest regions, in place on the region map and the inodes, computes `Compaction.CleanupDirtyRegion`. |
| FileSystem.LogStructuredFS.KeysCount | vfs/lfs.go:211-219 | The loop adds up the sizes of all shards. |
| StoreProperties.KeysCounted | vfs/lfs.go:211-219 | That sum is the number of keys of the plain map, because no number sits in two shards. |
| FileSystem.OpenFS | vfs/lfs.go:497-537 | Opening a directory: headers checked, regions found by name, then the index from the snapshot if it is there and from the log otherwise; given up exactly for a store file without header or a region file without number. |
| FileSystem.UnusableIff | vfs/lfs.go:771-817 | Opening gives up if and only if `index.wdb` or a file with prefix `0` and suffix `.wdb` does not start with the bytes DB 00 01 01, or such a file has anything but a 64-bit number before the suffix. |
| Reopen.DamagedSnapshot | vfs/lfs.go:406-424 | Opening the files of a store with a snapshot reports a bad snapshot if and only if that is not intact, and succeeds otherwise. |
| StoreInvariant.AppendKeepsFiles | vfs/lfs.go:97-130 | Appending a record and counting it keeps every file whole, the offset at the end of the active file, and adds exactly one entry to the end of the log. |
| StoreInvariant.RollKeepsFiles | vfs/lfs.go:300-326 | Rolling keeps the file invariant, the index and the log; the new active region has the highest id. |
| StoreInvariant.ReadThroughNode | vfs/lfs.go:196-208 | Reading through the inode of any entry of the log gives that entry's segment, decoded. |
| Refinement.StepRefines | vfs/lfs.go:89-326 | Every event keeps the whole invariant and is a step of the plain timed map, and of what a crash would bring back, with the same reply; a compaction makes unreadable exactly the snapshot entries that name a region it removes, and with fewer than five regions changes nothing. |
| Refinement.StepRemoves | vfs/lfs.go:1080-1093 | A compaction removes exactly the four lowest region files, none if there are fewer than five, and no other event removes any. |
| Refinement.RunRefines | vfs/lfs.go:89-279 | Any run of puts, deletes, updates, reads, compactions, clean reopenings and crashes, the crashes with or without an older snapshot on disk, gives the replies of the plain timed map and ends in a state that represents it; creation times matter only if the run compacts. |
| Refinement.FreshRunRefines | vfs/lfs.go:497-537 | The same from an empty directory on, with the empty map. |
| Refinement.StepByKey | vfs/lfs.go:221-223 | As long as the keys in use do not collide, each step is a step of a timed map by key, crashes and compactions included. |
| Refinement.HistoryUnique | vfs/lfs.go:712-746 | The bytes on disk determine the history of records. |
| Refinement.FetchShows | vfs/lfs.go:175-209 | In every reachable state a fetch answers not found, expired, missing region or the decoded segment with its version exactly as the plain map says. |
| Reopen.FetchAnswers | vfs/lfs.go:175-209 | Where the index agrees with the log, a fetch answers not found, expired or the decoded segment, never a missing region. |
| StoreProperties.ExpiryDecides | vfs/lfs.go:189-208 | In every reachable state, a stored key reads as its segment while its expiry is 0 or later than now, in nanoseconds, and the index stays as it is; otherwise the read says expired, and the key is not found from then on. |
| Recovery.ScanIsReplay | vfs/lfs.go:712-746 | The scan of a region visits every record on its boundary, in order, ends at the end of the file, and fails if and only if some value does not decode. |
| Recovery.CrashScan | vfs/lfs.go:691-751 | The scan of all regions replays the whole log from front to back. |
| Recovery.RecoveryPicks | vfs/lfs.go:720-746 | For each number the scan yields the last unexpired put after the last tombstone, and nothing if and only if there is none. |
| Recovery.RecoveredIsLatest | vfs/lfs.go:720-746 | Said by the history of a key: the scan finds the last unexpired one of its puts since its last delete. |
| Reopen.CrashReopen | vfs/lfs.go:691-751 | After a crash without a snapshot opening succeeds, the whole invariant holds again for exactly those puts, and every readable key keeps its segment. |
| Reopen.CrashEqualsLive | vfs/lfs.go:691-751 | Where the last record is not an expired put, the scan finds exactly the live inode with version 0, or its absence. |
| StoreProperties.ScanRestoresIff | vfs/lfs.go:720-746 | Opening without a snapshot restores the last record of a key if and only if its flag is not 1 and its expiry is 0 or later than now. |
| Reopen.CrashReadsIff | vfs/lfs.go:728-731 | A readable key reads the same after such a crash; an unreadable one stays unreadable if and only if no unexpired put of it is followed by expired puts only, and otherwise reads as that put. |
| StoreProperties.ExpiredPutRevives | vfs/lfs.go:728-731 | In any store without a snapshot: a put without expiry, then one that expires; once it has, the key cannot be read, and a crash brings back the first. |
| StoreProperties.SpentVersion | vfs/lfs.go:241-253 | An update whose record does not fit has spent the version: nothing is written, the key reads as before with the next version, and the same update again is a conflict. |
| StoreProperties.NamesRunOut | vfs/lfs.go:300-305 | The put that fills region 999999999 reports an error though its record is written and can be read. |
| StoreProperties.PutOutOfNames | vfs/lfs.go:97-128 | Every put after that reports the same error, and what it has written cannot be read: its inode names a region that does not exist. |
| Reopen.CleanReopen | vfs/lfs.go:541-606 | Close and reopen restore the index with versions reset, the active region and offset, and the whole invariant. |
| Reopen.CleanReopenReads | vfs/lfs.go:541-559 | Every fetch gives the same segment or error after a clean reopen; only the version is reset. |
| Restart.CloseAndReopen | vfs/lfs.go:541-559 | For the objects: export, then open the directory, file names and headers included; the new object satisfies the invariant for the same map with versions reset. |
| Restart.CrashAndReopen | vfs/lfs.go:406-430 | For an object that stops without closing, on a directory with or without a snapshot: the new object is in a state a crash of the plain map allows. |
| StoreProperties.StaleSnapshotReads | vfs/lfs.go:406-424 | A clean close, any legal run without another close, with compactions and crashes in it, then a crash: every read fails with a missing region if the key's unexpired entry at the close names a region that is gone, and otherwise gives what the state at the close would give at that time, at version 0. |
| StoreProperties.StaleSnapshotIff | vfs/lfs.go:406-424 | Such a read equals the one just before the crash if and only if the segment the key had at the close, none if compaction has removed its region since, is the one it shows now, or both are none. |
| StoreProperties.StaleSnapshotForgets | vfs/lfs.go:406-424 | For instance, a key first put after the close is readable before the crash and not found after it. |
| StoreProperties.RemovedRegionForgets | vfs/lfs.go:197-200 | Whatever was compacted since the close: after a crash a key fails with a missing region if and only if its unexpired entry in the snapshot names a region that is not there. |
| CompactionRuns.CompactionOutdatesSnapshot | vfs/lfs.go:1062-1072 | A run from a new store: a key put, closed and reopened, never touched again, three regions filled, compaction; it reads right before a crash and fails with a missing region after it. |
| Snapshots.CompactionKeepsSane | vfs/lfs.go:1062-1072 | With a snapshot of any age and distinct creation times: compaction changes nothing that can be read, brings back at most keys whose region was missing, and leaves the snapshot entries right but for exactly those that name a removed region. |
| Compaction.CompactionEffect | vfs/lfs.go:1062-1072 | After compaction the log is what the other regions held followed by copies of the live victim records in their old order, and each copied inode points at its last copy. |
| Compaction.VictimsAreLowest | vfs/lfs.go:1080-1093 | The four victims are below every other region; the active region, having the highest id of at least five, is never one. |
| CompactionMeaning.CompactionKeepsMeaning | vfs/lfs.go:1062-1072 | When creation times identify the puts of a key, compaction keeps the whole invariant for the very same map, makes up no segment, and lets a later crash scan find what it would have found, or nothing. |
| CompactionMeaning.LastAfterCompaction | vfs/lfs.go:1062-1072 | In every state: the last record of a key is afterwards a copy of the victim record copied last for it, or else the last one in the other regions. It stays as it is up to its place, or is dropped as a tombstone or an expired put, if and only if the victim record copied last is the last one, or none is copied and the last one is dead or the key has a record in another region. |
| CompactionMeaning.CompactionKeepsLast | vfs/lfs.go:1062-1072 | Where the index agrees with the log and creation times identify the puts of a key, the last record stays, up to its place, or is dropped as a tombstone or an expired put, except if and only if the inode is that of an earlier record in a victim region; and then the last record is an expired put. |
| CompactionMeaning.CopiedIff | vfs/lfs.go:1179-1186 | A victim record is copied if and only if its flag is not 1, its inode has its creation time, and its expiry is 0 or its nanoseconds exceed the time in seconds: expired records are copied too. |
| CompactionRuns.CompactionDropsLastPut | vfs/lfs.go:1179-1186 | A run from a new store: a put, a clean close, a second put of the key, a crash, two puts of other keys, compaction; the second put, unexpired and with its own creation time, was the last record of the key and is in no region any more, and the first one is the last. |
| Snapshots.CompactionExact | vfs/lfs.go:1179-1186 | Without any assumption on creation times, whatever snapshot the store was opened from: an unexpired key reads as the victim record copied last for it, and every other key, and one without copy, as before. |
| Snapshots.CompactionPreservesIff | vfs/lfs.go:1179-1186 | For every key: a read gives the same before and after compaction if and only if the victim record copied last for the key, if it is unexpired and one is copied, is the one its inode stands for and its region was not missing. |
| CompactionRuns.TwinsBreakCompaction | vfs/lfs.go:1179-1186 | A run from a new store: a put, three puts of other keys, a put of the first key with its first creation time, compaction; the key then reads as the first put. |
| WrittenCleanup.ReturnsIff | vfs/lfs.go:1073-1177 | The loop as written, with `lfs.mu`, step by step and with other threads changing the index at will: it can return without error if and only if there are fewer than five regions or the four lowest hold no record. |
| WrittenCleanup.NeverReturns | vfs/lfs.go:1119-1149 | Where the first record it meets can be read, no number of steps returns, with or without an error, and the lock stays taken. |
| WrittenCleanup.StuckHow | vfs/lfs.go:1119-1149 | At a live record the call waits for the lock it holds itself; at any other it reads the same record again without end. |
| WrittenCleanup.WrittenCleanupReturns | vfs/lfs.go:1073-1177 | On the files of a store whose values decode, it can return at all if and only if there are fewer than five regions or nothing was written to the four lowest. |
| StoreProperties.RunBounded | vfs/lfs.go:121-128 | In runs without deletes the active region stays below the threshold and every other region was closed by the record that reached it. |
| StoreProperties.FreshRunBounded | vfs/lfs.go:263-273 | From a new store on, each closed region file is at least the threshold long and shorter than the threshold plus its last record. |
| StoreProperties.DeleteBounded | vfs/lfs.go:145-173 | A delete keeps that bound if and only if its tombstone still fits below the threshold. |
| Loader.CapacityIs | vfs/lfs.go:621 | The record queue has one place for each whole record of the file. |
| Loader.QueuesSuffice | vfs/lfs.go:621-657 | In every interleaving the record queue stays within its capacity, a send never blocks, and at most one error waits. |
| Loader.RunsAreShort | vfs/lfs.go:626-669 | Every interleaving terminates, within a bound given by the file length. |
| Loader.NeverStuck | vfs/lfs.go:608-681 | With every shard present no interleaving deadlocks. |
| Loader.ConcurrentEqualsSequential | vfs/lfs.go:608-681 | With every shard present, whatever the interleaving, the loader returns without error if and only if the sequential decode succeeds, with the same index, and otherwise with the error of the first record that cannot be read. |
| Loader.OutcomeIs | vfs/lfs.go:626-681 | With shards missing, whatever the interleaving, the error returned is that of a record that is there: cut off, with a wrong checksum, or for a missing shard. |
| Loader.ReadsNoMore | vfs/lfs.go:626-634 | Once an error waits, no interleaving reads any further record but the one being read. |
| Loader.DeadlockIff | vfs/lfs.go:631-669 | With shards missing, a deadlock is reachable if and only if a record for a missing shard comes before a record that cannot be read. |
| Interleaving.VersionsWonOnce | vfs/lfs.go:226-240 | In every interleaving, for each inode object, replaced or detached or not: the version counts the successful updates, no version is won twice, and those won are exactly the ones below the current. |
| Interleaving.OffsetConserved | vfs/lfs.go:153-160 | Deletes and updates in any interleaving within one region: file length is offset plus the records not yet counted, and equals the offset at rest. |
| InterleavingMixes.PutsKeepOffset | vfs/lfs.go:97-130 | Puts alone in any interleaving, across region rolls: the offset is the length of the file at rest. |
| InterleavingMixes.PutPointsAtRecord | vfs/lfs.go:97-119 | Puts alone: the inode a put is about to store points at the bytes of its own record. |
| InterleavingMixes.AlwaysRightIff | vfs/lfs.go:97-273 | For every store, threshold and number of threads the offset is right at rest after every schedule of a mix of operations if and only if the mix is of puts alone or of deletes alone. |
| InterleavingMixes.RightWithinRegionIff | vfs/lfs.go:97-263 | The same for schedules that start no region: if and only if puts are not mixed with deletes or updates. |
| InterleavingMixes.PositionRightIff | vfs/lfs.go:248-261 | If nothing was appended after an update's record, the position it stores is right if and only if no other thread has a record appended and not counted. |
| InterleavingMixes.PutLosesDelete | vfs/lfs.go:121-122 | A put next to a delete can end, all at rest, with the offset short of the tombstone. |
| InterleavingMixes.PutLosesUpdate | vfs/lfs.go:121-122 | A put next to an update can end, all at rest, with the offset short of the update's record. |
| InterleavingMixes.UpdateCountedLate | vfs/lfs.go:262-273 | Two updates of a key can both succeed and end, all at rest, with the offset past the end of a new region. |
| InterleavingMixes.UpdateMisplaced | vfs/lfs.go:248-263 | An update next to a delete of another key can end, all at rest, with the updated key's inode at the tombstone. |
| Interleaving.NeverStuck | vfs/lfs.go:97-98 | A thread with work to do can move, unless another holds `lfs.mu`, and then that one can. |
| Sequential.PutAlone | vfs/lfs.go:89-131 | One thread on its own, from any state with the lock free: the put, step by step, comes to rest, and whenever it does, file, offset, region and every inode are as the atomic put leaves them. |
| Sequential.DeleteAlone | vfs/lfs.go:145-173 | The same for a delete. |
| Sequential.CasAlone | vfs/lfs.go:226-279 | The same for an update, taken, refused or not fitting: the five stores together put every field of the inode right. |
| Transformer.CbcRoundTrip | vfs/transformer.go:154-201 | Chained decryption inverts chained encryption on whole blocks (section 6.2 of NIST SP 800-38A). |
| Transformer.Chained | vfs/transformer.go:173-176 | Bit by bit: the inverse cipher on ciphertext block k gives plaintext block k, with exactly those bits flipped that are set in ciphertext block k - 1, or in the vector for the first. |
| Transformer.XorIs | vfs/transformer.go:173-176 | A bit of the exclusive or of two bytes is set if and only if exactly one of the two bits is. |
| Transformer.PaddingBytes | vfs/transformer.go:161-163 | Padding appends 1 to 16 bytes up to a whole block, each of which says how many they are. |
| Transformer.CiphertextIs | vfs/transformer.go:154-180 | The whole ciphertext: the vector, then one block for each block of the padded text, each chained to the one before. |
| Transformer.EncryptBlocks | vfs/transformer.go:173-176 | Block by block into the buffer gives the chained encryption of the whole text. |
| Transformer.CryptorEncrypt | vfs/transformer.go:154-180 | Padding of 1 to 16 bytes (section 6.3 of RFC 5652), chaining, and the vector in front; an error for a key of any other length than 16, 24 and 32. |
| Transformer.CryptorRoundTrip | vfs/transformer.go:154-201 | For every text and vector, encryption succeeds if and only if the key has an AES length, and decryption then gives the text back. |
| Transformer.TransformRoundTrip | vfs/transformer.go:95-137 | For every setting of the flags and all installed codecs that undo themselves, decoding inverts encoding. |
| Transformer.EncodeSucceeds | vfs/transformer.go:80-115 | Encoding succeeds if and only if compression does and, with encryption on, the secret has an AES length. |
| Transformer.EncryptsLast | vfs/transformer.go:95-115 | With encryption on, the stored bytes begin with the vector and decrypt to the compressed data, or to the data if compression is off. |
| Transformer.Transformer.SetEncryptor | vfs/transformer.go:80-88 | Refused without effect below 16 bytes; otherwise installed and switched on, compression as before. |
| Transformer.Transformer.Encode | vfs/transformer.go:95-115 | Compress first, then encrypt, each if its flag is set and its codec installed. |
| Transformer.Transformer.Decode | vfs/transformer.go:118-137 | Decrypt first, then decompress, under the same conditions. |
| EndToEnd.Durable | vfs/lfs.go:175-209 | After any legal run that does not write the key, an unexpired segment, put or updated, is still what a read gives, as long as no crash finds a snapshot without it, or one whose region for the key a compaction has removed. |
| EndToEnd.DeletedStays | vfs/lfs.go:145-173 | After a delete and any legal run that does not write the key, the key is not found, as long as no crash finds a snapshot from before the delete. |
| EndToEnd.DataComesBack | vfs/segment.go:41-77 | Data encoded, written by a put or a successful update, kept over such a run and fetched comes back as the same bytes, with the key, kind, creation time and expiry it was stored with. |
| EndToEnd.AesDataComesBack | vfs/segment.go:41-77 | For AES that assumes nothing but an invertible block cipher, a compressor that undoes itself and a secret of an AES length. |
| EndToEnd.LogDecodes | vfs/lfs.go:889-895 | A log of encoded puts and tombstones can be scanned under a codec if and only if the empty value decodes or there is no tombstone. |
| EndToEnd.OpenAgainIff | vfs/lfs.go:889-895 | A process with AES installed that opens a directory without a snapshot again succeeds if and only if nothing in the log was deleted; with no codec installed, as at start-up, opening always succeeds. |
| ZSet.ZSet.Add | types/zset.go:25-36 | The member has the new score, every other member its old one, and the list is again an ordered enumeration of the members. |
| ZSet.ZSet.Remove | types/zset.go:38-51 | The member is gone from map and list, the rest stays, in order. |
| ZSet.ZSet.GetRank | types/zset.go:59-68 | The place of the member in the list, found if and only if it is listed; it lies between the number of higher and of not lower scores. |
| ZSet.ZSet.GetRange | types/zset.go:70-80 | Exactly the members of the interval, each once, by falling score. |
| ZSet.RankBounds | types/zset.go:59-68 | At least as many members rank before as have a higher score, fewer than have one not lower; exactly as many if the score is unique. |
| ZSet.RangeIsOrdered | types/zset.go:70-80 | Filtering an ordered list by an interval keeps order and uniqueness and loses no member of the interval. |
| ZSet.DecodedRank | vfs/segment.go:111-121 | In a set decoded from a segment no member has a rank. |
| Table.SearchInMap | types/table.go:85-100 | One result for each path through nested maps that ends in the key, its value, and no other result. |
| Table.Table.SearchItem | types/table.go:70-83 | The same from the top of a table. |
| Table.ResultsAreUnique | types/table.go:70-100 | Whatever the order of map iteration, the results are the same multiset. |
| Table.NothingFound | types/table.go:70-100 | The result is empty if and only if no path ends in the key. |

## Left out

- FileSystem.LogStructuredFS.CleanupDirtyRegion: models the algorithm the comment states, not the loop as written; what the loop as written does is in `WrittenCleanup`.
- FileSystem.LogStructuredFS.LoadSnapshotIndex: the sequential decode; the two goroutines of the source are in `Loader`.
- FileSystem.LogStructuredFS.ActivateRegions: a region file longer than 2^63 - 1 bytes cannot exist, so an append that would pass that length fails cleanly in the model.
- FileSystem.LogStructuredFS.CrashRecoveryAllIndex: where a wrapped record size of 0 would make the source loop for ever, the model reports an error.
- FileSystem.OpenFS: a missing directory is not created; sub-directories with region names are not modelled.
- Refinement.RunRefines: events are legal ones: room on disk and for one more region name (without: `StoreProperties.SpentVersion`, `StoreProperties.NamesRunOut`), and segments as `NewSegment` builds them; if the run compacts, no two writes to a key have the same creation time. Readers use one codec setting throughout.
- InterleavingMixes.AlwaysRightIff: region creation always succeeds there and region ids do not run out; reads, and the removal of an expired inode after the lock is released (vfs/lfs.go:182-195), are not among the steps.
- Transformer.CryptorEncrypt: works on values; that `append` may write the padding into spare capacity of the caller's slice is not captured.
- ZSet.ZSet.Add: scores are real numbers, so NaN and the rounding of float64 are not covered.
- Table.SearchInMap: lists, and maps inside lists, count as other values, as in the source; cyclic maps cannot be built.
- Input and output errors, short writes, torn records, permissions and flushing to disk: files are byte sequences and a crash falls between records.
- The GC ticker, `StopRegionGC` and the GC state flag (vfs/lfs.go:440-495): timing and unsynchronized flags.
- `BatchFetchSegments` and `changeRegions`: loops and wrappers over operations that are modelled.
- The internals of murmur3, CRC-32, Snappy, AES and BSON: abstract functions.
- `types/list.go`, `types/set.go`, `types/text.go`, `types/number.go`: one-branch operations that would add only easy members.
- The HTTP server, configuration, logging and start-up code.
