// Values through the whole store: encoded, written, kept over any run that does not write their key, read and decoded.

module EndToEnd {
  import opened Wrappers
  import opened Bytes
  import opened Segments
  import opened RegionLog
  import opened Index
  import opened Store
  import opened StoreInvariant
  import opened Recovery
  import opened Reopen
  import opened Refinement
  import T = Transformer

  // ---- A value stays until its key is written again, or it expires ----

  predicate Writes(d: Digests, ev: Event, h: uint64) {
    match ev.op
    case Put(key, _) => d.inodeNum(key) == h
    case Delete(key) => d.inodeNum(key) == h
    case Cas(key, _, _) => d.inodeNum(key) == h
    case _ => false
  }

  ghost predicate Unwritten(d: Digests, evs: seq<Event>, h: uint64) {
    forall i :: 0 <= i < |evs| ==> !Writes(d, evs[i], h)
  }

  predicate Holds(sp: Spec<uint64>, h: uint64, seg: Segment) {
    h in sp.live && sp.live[h].Cell? && sp.live[h].seg == seg
  }

  // The snapshot has the segment too.
  predicate Backed(sp: Spec<uint64>, h: uint64, seg: Segment) {
    sp.backup.Snapshot? && h in sp.backup.cells && sp.backup.cells[h].Cell? && sp.backup.cells[h].seg == seg
  }

  // The region the snapshot file names for a key.
  function SavedRegion(d: Digests, w: World, h: uint64): Option<uint64> {
    if w.snapshot.None? || LoadFrom(d, w.snapshot.value, 4, EMPTY).None? then None
    else match Lookup(LoadFrom(d, w.snapshot.value, 4, EMPTY).value, h)
         case None => None
         case Some(node) => Some(node.regionID)
  }

  // A clean close takes the value in; a compaction loses it if it removes the region the snapshot names for it.
  predicate BackedAfter(c: Config, w: World, ev: Event, h: uint64, backed: bool) {
    match ev.op
    case Reopen(_) => true
    case Compact =>
      var region := SavedRegion(c.d, w, h);
      backed && (region.Some? ==> region.value !in RemovedBy(w, ev))
    case _ => backed
  }

  // No crash of the run finds a snapshot without the value. backed: the snapshot, if there is one, has it.
  predicate Guarded(c: Config, w: World, evs: seq<Event>, h: uint64, backed: bool)
    decreases |evs|
  {
    evs == [] ||
    (&& (evs[0].op.Crash? && w.snapshot.Some? ==> backed)
     && Guarded(c, Step(c, w, evs[0]).0, evs[1..], h, BackedAfter(c, w, evs[0], h, backed)))
  }

  // What the snapshot file and the plain map say of it agree.
  lemma SavedHome(c: Config, w: World, recs: Records, sp: Spec<uint64>, written: set<Segment>, now: nat, h: uint64)
    requires Inv(c, w, recs, sp, written, now)
    ensures w.snapshot.Some? <==> sp.backup.Snapshot?
    ensures sp.backup.Snapshot? ==>
              SavedRegion(c.d, w, h) == if h in sp.backup.homes then Some(sp.backup.homes[h]) else None
  {
    hide LoadFrom, DiskOk, IndexOk;
  }

  lemma HeldStep(c: Config, w: World, removed: set<uint64>, sp: Spec<uint64>, ev: Event, sp': Spec<uint64>,
                 reply: Reply, h: uint64, seg: Segment, backed: bool)
    requires SpecStep(c, removed, sp, ev, sp', reply) && !Writes(c.d, ev, h) && Holds(sp, h, seg)
    requires !Expired(seg.expiredAt, ev.now) && (backed ==> Backed(sp, h, seg)) && removed == RemovedBy(w, ev)
    requires w.snapshot.Some? <==> sp.backup.Snapshot?
    requires sp.backup.Snapshot? ==>
               SavedRegion(c.d, w, h) == if h in sp.backup.homes then Some(sp.backup.homes[h]) else None
    requires ev.op.Crash? && w.snapshot.Some? ==> backed
    ensures Holds(sp', h, seg) && (BackedAfter(c, w, ev, h, backed) ==> Backed(sp', h, seg))
  {
    hide ScanForgets, Shown, ScanMap, PutsAt, SavedRegion, RemovedBy, HomesAt;
  }

  lemma {:induction false} TimesOrdered(c: Config, w: World, now: nat, evs: seq<Event>)
    requires LegalRun(c, w, now, evs)
    ensures now <= EndTime(now, evs)
    ensures evs != [] ==> evs[0].now <= EndTime(now, evs) && EndTime(evs[0].now, evs[1..]) == EndTime(now, evs)
    decreases |evs|
  {
    hide Step, LegalNow;
    if evs != [] {
      TimesOrdered(c, Step(c, w, evs[0]).0, evs[0].now, evs[1..]);
    }
  }

  lemma UnwrittenFirst(d: Digests, evs: seq<Event>, h: uint64)
    requires Unwritten(d, evs, h) && evs != []
    ensures !Writes(d, evs[0], h) && Unwritten(d, evs[1..], h)
  {
  }

  lemma {:induction false} HeldRun(c: Config, w: World, recs: Records, sp: Spec<uint64>, written: set<Segment>,
                                   now: nat,
                                   evs: seq<Event>, h: uint64, seg: Segment, backed: bool)
    returns (recs': Records, sp': Spec<uint64>, written': set<Segment>)
    requires Inv(c, w, recs, sp, written, now) && LegalRun(c, w, now, evs) && StampsServe(c.d, written, evs)
    requires Holds(sp, h, seg) && Unwritten(c.d, evs, h) && !Expired(seg.expiredAt, EndTime(now, evs))
    requires (backed ==> Backed(sp, h, seg)) && Guarded(c, w, evs, h, backed)
    ensures Inv(c, Run(c, w, evs).0, recs', sp', written', EndTime(now, evs)) && Holds(sp', h, seg)
    decreases |evs|
  {
    hide Inv, Step, SpecStep, Legal, StampsServe, Holds, Backed, Unwritten, Writes, BackedAfter, RemovedBy, SavedRegion;
    TimesOrdered(c, w, now, evs);
    if evs == [] {
      recs', sp', written' := recs, sp, written;
    } else {
      InvIsOnDisk(c, w, recs, sp, written, now);
      LegalFirst(c, w, recs, now, evs);
      StampsFirst(c.d, written, evs);
      UnwrittenFirst(c.d, evs, h);
      SavedHome(c, w, recs, sp, written, now, h);
      hide DiskOk, LegalRun, EndTime;
      var recs1, sp1 := StepRefines(c, w, recs, sp, written, now, evs[0]);
      HeldStep(c, w, RemovedBy(w, evs[0]), sp, evs[0], sp1, Step(c, w, evs[0]).1, h, seg, backed);
      recs', sp', written' :=
        HeldRun(c, Step(c, w, evs[0]).0, recs1, sp1, written + PutBy(evs[0]), evs[0].now, evs[1..], h, seg,
                BackedAfter(c, w, evs[0], h, backed));
    }
  }

  // Whatever legal run follows, with compactions, clean reopenings and crashes in it: as long as no event writes the
  // key, no crash finds a snapshot without the segment or one that names a removed region for it, and it has not
  // expired, a read at the end gives the segment.
  lemma {:induction false} Durable(c: Config, w: World, recs: Records, sp: Spec<uint64>, written: set<Segment>,
                                   now: nat, evs: seq<Event>, key: seq<byte>, seg: Segment)
    requires Inv(c, w, recs, sp, written, now) && LegalRun(c, w, now, evs) && StampsServe(c.d, written, evs)
    requires Holds(sp, c.d.inodeNum(key), seg) && Unwritten(c.d, evs, c.d.inodeNum(key))
    requires Guarded(c, w, evs, c.d.inodeNum(key), Backed(sp, c.d.inodeNum(key), seg))
    requires !Expired(seg.expiredAt, EndTime(now, evs))
    ensures exists v: uint64 ::
              FetchSegment(c.d, c.decode, Run(c, w, evs).0.s, key, EndTime(now, evs)).1 == Answer(c.decode, v, seg)
  {
    var h := c.d.inodeNum(key);
    hide Inv, Run, LegalRun, FetchSegment, Unwritten, Answer, EndTime, Guarded, StampsServe;
    var recs', sp', written' := HeldRun(c, w, recs, sp, written, now, evs, h, seg, Backed(sp, h, seg));
    FetchShows(c, Run(c, w, evs).0, recs', sp', written', EndTime(now, evs), key);
    assert Shown(c.decode, Get(sp'.live, h), EndTime(now, evs)) == Answer(c.decode, sp'.live[h].version, seg);
  }

  // ---- A deleted key stays deleted ----

  // What a crash brings back has not got the key.
  ghost predicate NotInBackup(sp: Spec<uint64>, h: uint64, now: nat) {
    match sp.backup
    case Scan(puts) => forall t: nat :: now <= t ==> Latest(PutsAt(puts, h), t).None?
    case Snapshot(cells, _) => h !in cells
  }

  // No crash finds an old snapshot that still has the key.
  predicate Cleared(evs: seq<Event>, cleared: bool)
    decreases |evs|
  {
    evs == [] ||
    match evs[0].op
    case Crash => cleared && Cleared(evs[1..], cleared)
    case Reopen(_) => Cleared(evs[1..], true)
    case _ => Cleared(evs[1..], cleared)
  }

  lemma {:induction false} AbsentStep(c: Config, removed: set<uint64>, sp: Spec<uint64>, ev: Event, sp': Spec<uint64>,
                                      reply: Reply, h: uint64, cleared: bool, now: nat, later: seq<Event>)
    requires SpecStep(c, removed, sp, ev, sp', reply) && !Writes(c.d, ev, h) && h !in sp.live && now <= ev.now
    requires (cleared ==> NotInBackup(sp, h, now)) && Cleared([ev] + later, cleared)
    ensures h !in sp'.live && (cleared || ev.op.Reopen? ==> NotInBackup(sp', h, ev.now))
    ensures Cleared(later, cleared || ev.op.Reopen?)
  {
    hide Shown, Latest;
    assert ([ev] + later)[1..] == later;
    if sp.backup.Scan? && cleared {
      assert Latest(PutsAt(sp.backup.puts, h), ev.now).None?;
      if sp'.backup.Scan? {
        forall t: nat | ev.now <= t ensures Latest(PutsAt(sp'.backup.puts, h), t).None? {
          assert Latest(PutsAt(sp.backup.puts, h), t).None?;
        }
      }
    }
  }

  lemma {:induction false} AbsentRun(c: Config, w: World, recs: Records, sp: Spec<uint64>, written: set<Segment>,
                                     now: nat, evs: seq<Event>, h: uint64, cleared: bool)
    returns (recs': Records, sp': Spec<uint64>, written': set<Segment>)
    requires Inv(c, w, recs, sp, written, now) && LegalRun(c, w, now, evs) && StampsServe(c.d, written, evs)
    requires h !in sp.live && Unwritten(c.d, evs, h) && (cleared ==> NotInBackup(sp, h, now)) && Cleared(evs, cleared)
    ensures Inv(c, Run(c, w, evs).0, recs', sp', written', EndTime(now, evs)) && h !in sp'.live
    decreases |evs|
  {
    hide Inv, Step, SpecStep, Legal, StampsServe, Unwritten, Writes, Cleared, NotInBackup, RemovedBy;
    TimesOrdered(c, w, now, evs);
    if evs == [] {
      recs', sp', written' := recs, sp, written;
    } else {
      InvIsOnDisk(c, w, recs, sp, written, now);
      LegalFirst(c, w, recs, now, evs);
      StampsFirst(c.d, written, evs);
      UnwrittenFirst(c.d, evs, h);
      hide DiskOk, LegalRun, EndTime;
      var recs1, sp1 := StepRefines(c, w, recs, sp, written, now, evs[0]);
      assert [evs[0]] + evs[1..] == evs;
      AbsentStep(c, RemovedBy(w, evs[0]), sp, evs[0], sp1, Step(c, w, evs[0]).1, h, cleared, now, evs[1..]);
      recs', sp', written' :=
        AbsentRun(c, Step(c, w, evs[0]).0, recs1, sp1, written + PutBy(evs[0]), evs[0].now, evs[1..], h,
                  cleared || evs[0].op.Reopen?);
    }
  }

  // After a delete, whatever legal run follows: as long as no event writes the key, and no crash finds a snapshot from
  // before the delete, the key is not found.
  lemma {:induction false} DeletedStays(c: Config, w: World, recs: Records, sp: Spec<uint64>, written: set<Segment>,
                                        now: uint64, evs: seq<Event>, key: seq<byte>)
    requires Inv(c, w, recs, sp, written, now) && Legal(c, w, recs, Event(now, Delete(key)))
    requires var w1 := Step(c, w, Event(now, Delete(key))).0;
             LegalRun(c, w1, now, evs) && StampsServe(c.d, written, evs)
    requires Unwritten(c.d, evs, c.d.inodeNum(key)) && Cleared(evs, w.snapshot.None?)
    ensures var w1 := Step(c, w, Event(now, Delete(key))).0;
            FetchSegment(c.d, c.decode, Run(c, w1, evs).0.s, key, EndTime(now, evs)).1 == Failed(NotFound)
  {
    hide *;
    var h, ev := c.d.inodeNum(key), Event(now, Delete(key));
    var w1 := Step(c, w, ev).0;
    var recs1, sp1 := DeleteLeaves(c, w, recs, sp, written, now, key);
    var recs', sp', written' := AbsentRun(c, w1, recs1, sp1, written, now, evs, h, w.snapshot.None?);
    FetchShows(c, Run(c, w1, evs).0, recs', sp', written', EndTime(now, evs), key);
    ShownAbsent(c.decode, sp'.live, h, EndTime(now, evs));
  }

  lemma DeleteLeaves(c: Config, w: World, recs: Records, sp: Spec<uint64>, written: set<Segment>, now: uint64,
                     key: seq<byte>)
    returns (recs1: Records, sp1: Spec<uint64>)
    requires Inv(c, w, recs, sp, written, now) && Legal(c, w, recs, Event(now, Delete(key)))
    ensures Inv(c, Step(c, w, Event(now, Delete(key))).0, recs1, sp1, written, now)
    ensures c.d.inodeNum(key) !in sp1.live
    ensures w.snapshot.None? ==> NotInBackup(sp1, c.d.inodeNum(key), now)
  {
    hide Inv, DeleteSegment, Serialize, Room;
    var h := c.d.inodeNum(key);
    InvBackup(c, w, recs, sp, written, now);
    recs1 := DeleteStep(c, w, recs, sp, written, now, key);
    sp1 := Spec(sp.live - {h}, Erased(sp.backup, h));
  }

  lemma ShownAbsent(decode: Decoder, m: TimedMap, h: uint64, now: nat)
    requires h !in m
    ensures Shown(decode, Get(m, h), now) == Failed(NotFound)
  {
  }

  lemma InvBackup(c: Config, w: World, recs: Records, sp: Spec<uint64>, written: set<Segment>, now: nat)
    requires Inv(c, w, recs, sp, written, now)
    ensures w.snapshot.Some? <==> sp.backup.Snapshot?
  {
  }

  // ---- The bytes a caller stored ----

  // The segment NewSegment builds for data under a transformer setting.
  function SegmentOf(t: T.Setup, key: seq<byte>, kind: int8, data: seq<byte>, iv: T.Block, createdAt: uint64,
                     expiredAt: uint64): Option<Segment> {
    match t.Encode(data, iv)
    case None => None
    case Some(encoded) => Some(NewSegment(key, kind, encoded, createdAt, expiredAt))
  }

  predicate WritesSegment(ev: Event, key: seq<byte>, seg: Segment) {
    match ev.op
    case Put(k, x) => k == key && x == seg
    case Cas(k, _, x) => k == key && x == seg
    case _ => false
  }

  lemma WriteHolds(c: Config, removed: set<uint64>, sp: Spec<uint64>, ev: Event, sp': Spec<uint64>, key: seq<byte>,
                   seg: Segment)
    requires SpecStep(c, removed, sp, ev, sp', Done) && WritesSegment(ev, key, seg)
    ensures Holds(sp', c.d.inodeNum(key), seg) && PutBy(ev) == {seg}
  {
  }

  lemma {:induction false} GuardedMore(c: Config, w: World, evs: seq<Event>, h: uint64, backed: bool, more: bool)
    requires Guarded(c, w, evs, h, backed) && (backed ==> more)
    ensures Guarded(c, w, evs, h, more)
    decreases |evs|
  {
    hide Step, SavedRegion, RemovedBy;
    if evs != [] {
      GuardedMore(c, Step(c, w, evs[0]).0, evs[1..], h, BackedAfter(c, w, evs[0], h, backed),
                  BackedAfter(c, w, evs[0], h, more));
    }
  }

  // A reply with a segment that has just what was handed to NewSegment.
  predicate Carries(reply: Reply, key: seq<byte>, kind: int8, data: seq<byte>, createdAt: uint64, expiredAt: uint64) {
    && reply.Fetched? && reply.seg.tombstone == 0 && reply.seg.kind == kind
    && reply.seg.key == key && reply.seg.value == data
    && reply.seg.createdAt == createdAt && reply.seg.expiredAt == expiredAt
  }

  // Data encoded, written by a put or by an update that succeeds, kept over a run that does not write the key, and read
  // back: the very same bytes, with the key, kind and times they were stored with.
  lemma {:induction false} DataComesBack(c: Config, t: T.Setup, w: World, recs: Records, sp: Spec<uint64>,
                                         written: set<Segment>, now: nat, ev: Event, evs: seq<Event>, key: seq<byte>,
                                         kind: int8, data: seq<byte>, iv: T.Block, createdAt: uint64,
                                         expiredAt: uint64)
    requires T.Lawful(t) && c.decode == (v => t.Decode(v)) && t.Encode(data, iv).Some?
    requires var seg := SegmentOf(t, key, kind, data, iv, createdAt, expiredAt).value;
             WritesSegment(ev, key, seg) && StampsServe(c.d, written + {seg}, evs)
    requires Inv(c, w, recs, sp, written, now) && now <= ev.now && Legal(c, w, recs, ev) && Step(c, w, ev).1 == Done
    requires LegalRun(c, Step(c, w, ev).0, ev.now, evs) && Unwritten(c.d, evs, c.d.inodeNum(key))
    requires Guarded(c, Step(c, w, ev).0, evs, c.d.inodeNum(key), false) && !Expired(expiredAt, EndTime(ev.now, evs))
    ensures var seg := SegmentOf(t, key, kind, data, iv, createdAt, expiredAt).value;
            var w' := Run(c, Step(c, w, ev).0, evs).0;
            exists v: uint64 ::
              FetchSegment(c.d, c.decode, w'.s, key, EndTime(ev.now, evs)).1 == Fetched(v, seg.(value := data))
    ensures var w' := Run(c, Step(c, w, ev).0, evs).0;
            Carries(FetchSegment(c.d, c.decode, w'.s, key, EndTime(ev.now, evs)).1, key, kind, data, createdAt,
                    expiredAt)
  {
    var seg := SegmentOf(t, key, kind, data, iv, createdAt, expiredAt).value;
    var h := c.d.inodeNum(key);
    T.TransformRoundTrip(t, data, iv);
    hide Inv, Step, SpecStep, Legal, Run, LegalRun, FetchSegment, Unwritten, EndTime, Guarded, StampsServe, Holds,
      Backed, RemovedBy;
    assert !ev.op.Compact?;
    var recs1, sp1 := StepRefines(c, w, recs, sp, written, now, ev);
    WriteHolds(c, RemovedBy(w, ev), sp, ev, sp1, key, seg);
    GuardedMore(c, Step(c, w, ev).0, evs, h, false, Backed(sp1, h, seg));
    Durable(c, Step(c, w, ev).0, recs1, sp1, written + {seg}, ev.now, evs, key, seg);
  }

  // AES, with or without a compressor that undoes itself, is such a setting.
  lemma AesIsLawful(t: T.Setup, aes: T.BlockCipher)
    requires T.Invertible(aes) && (t.encryptor.Some? ==> t.encryptor.value == T.CryptorOf(aes))
    requires t.compressor.Some? ==> T.DecompressesOwn(t.compressor.value)
    ensures T.Lawful(t)
  {
    T.CryptorIsLawful(aes, t.secret);
  }

  // The same for AES: no assumption is left but that the block cipher is invertible and the compressor undoes itself.
  lemma {:induction false} AesDataComesBack(c: Config, t: T.Setup, aes: T.BlockCipher, w: World, recs: Records,
                                            sp: Spec<uint64>, written: set<Segment>, now: nat, ev: Event,
                                            evs: seq<Event>, key: seq<byte>, kind: int8, data: seq<byte>, iv: T.Block,
                                            createdAt: uint64, expiredAt: uint64)
    requires T.Invertible(aes) && (t.encryptor.Some? ==> t.encryptor.value == T.CryptorOf(aes))
    requires t.compressor.Some? ==> T.DecompressesOwn(t.compressor.value)
    requires t.Compresses() ==> t.compressor.value.compress(data).Some?
    requires t.Encrypts() ==> T.KeyLength(|t.secret|)
    requires c.decode == (v => t.Decode(v))
    requires var seg := SegmentOf(t, key, kind, data, iv, createdAt, expiredAt);
             seg.Some? ==> WritesSegment(ev, key, seg.value) && StampsServe(c.d, written + {seg.value}, evs)
    requires Inv(c, w, recs, sp, written, now) && now <= ev.now && Legal(c, w, recs, ev) && Step(c, w, ev).1 == Done
    requires LegalRun(c, Step(c, w, ev).0, ev.now, evs) && Unwritten(c.d, evs, c.d.inodeNum(key))
    requires Guarded(c, Step(c, w, ev).0, evs, c.d.inodeNum(key), false) && !Expired(expiredAt, EndTime(ev.now, evs))
    ensures var seg := SegmentOf(t, key, kind, data, iv, createdAt, expiredAt);
            var w' := Run(c, Step(c, w, ev).0, evs).0;
            seg.Some? && exists v: uint64 ::
              FetchSegment(c.d, c.decode, w'.s, key, EndTime(ev.now, evs)).1 == Fetched(v, seg.value.(value := data))
    ensures var w' := Run(c, Step(c, w, ev).0, evs).0;
            Carries(FetchSegment(c.d, c.decode, w'.s, key, EndTime(ev.now, evs)).1, key, kind, data, createdAt,
                    expiredAt)
  {
    hide Inv, Step, Legal, Run, LegalRun, FetchSegment, Unwritten, EndTime, Guarded, StampsServe, WritesSegment;
    T.EncodeSucceeds(t, aes, data, iv);
    AesIsLawful(t, aes);
    DataComesBack(c, t, w, recs, sp, written, now, ev, evs, key, kind, data, iv, createdAt, expiredAt);
  }

  // ---- Opening again with codecs installed ----

  // The log holds puts encoded under this setting, and tombstones with an empty value.
  ghost predicate EncodedUnder(t: T.Setup, log: seq<Entry>) {
    forall i :: 0 <= i < |log| ==> EntryUnder(t, log[i])
  }

  ghost predicate EntryUnder(t: T.Setup, e: Entry) {
    if e.seg.IsTombstone() then e.seg.value == []
    else exists data, iv :: t.Encode(data, iv) == Some(e.seg.value)
  }

  // The scan decodes every value it passes, a tombstone's too. So the log can be scanned exactly when the empty value
  // decodes or there is no tombstone in it.
  lemma LogDecodes(t: T.Setup, decode: Decoder, log: seq<Entry>)
    requires T.Lawful(t) && EncodedUnder(t, log) && decode == (v => t.Decode(v))
    ensures Decodable(decode, log)
            <==> t.Decode([]).Some? || forall i :: 0 <= i < |log| ==> !log[i].seg.IsTombstone()
  {
    forall i | 0 <= i < |log|
      ensures decode(log[i].seg.value).Some? <==> t.Decode([]).Some? || !log[i].seg.IsTombstone()
    {
      assert EntryUnder(t, log[i]);
      EntryDecodes(t, log[i]);
    }
  }

  lemma EntryDecodes(t: T.Setup, e: Entry)
    requires T.Lawful(t) && EntryUnder(t, e)
    ensures t.Decode(e.seg.value).Some? <==> t.Decode([]).Some? || !e.seg.IsTombstone()
  {
    if !e.seg.IsTombstone() {
      var data, iv :| t.Encode(data, iv) == Some(e.seg.value);
      T.TransformRoundTrip(t, data, iv);
    }
  }

  // A scan over a value that does not decode fails, and opening with it.
  lemma ScanFails(d: Digests, decode: Decoder, threshold: nat, s: State, recs: Records, now: nat)
    requires DiskOk(d, s, recs) && CanActivate(s, threshold) && !Decodable(decode, Log(d, recs))
    ensures OpenFS(d, decode, threshold, s.files, None, now).1.Failed?
  {
    var recs' := ActivateKeepsFiles(d, threshold, s, recs);
    hide ActivateRegions, Log, Decodable, DiskOk, CrashRecoveryAllIndex;
    CrashScan(d, decode, ActivateRegions(threshold, s.files).0, recs', now);
  }

  // A process that has AES installed and opens a directory without a snapshot once more: that succeeds exactly when
  // nothing in the log was deleted. A new process has no codec installed yet and always succeeds.
  lemma OpenAgainIff(c: Config, t: T.Setup, aes: T.BlockCipher, w: World, recs: Records, sp: Spec<uint64>,
                     written: set<Segment>, now: nat)
    requires T.Lawful(t) && t.Encrypts() && t.encryptor.value == T.CryptorOf(aes)
    requires Inv(c, w, recs, sp, written, now) && w.snapshot.None? && CanActivate(w.s, c.threshold)
    requires EncodedUnder(t, Log(c.d, recs))
    ensures OpenFS(c.d, v => t.Decode(v), c.threshold, w.s.files, None, now).1 == Done
            <==> forall i :: 0 <= i < |Log(c.d, recs)| ==> !Log(c.d, recs)[i].seg.IsTombstone()
    ensures OpenFS(c.d, IDENTITY, c.threshold, w.s.files, None, now).1 == Done
  {
    var decode: Decoder := v => t.Decode(v);
    hide Log, OpenFS, DiskOk, CanActivate, IndexOk, Decodable, EncodedUnder;
    LogDecodes(t, decode, Log(c.d, recs));
    T.EmptyNeverDecrypts(t, aes);
    IdentityDecodes(Log(c.d, recs));
    var _ := CrashReopen(c.d, IDENTITY, c.threshold, w.s, recs, sp.live, now);
    if Decodable(decode, Log(c.d, recs)) {
      var _ := CrashReopen(c.d, decode, c.threshold, w.s, recs, sp.live, now);
    } else {
      ScanFails(c.d, decode, c.threshold, w.s, recs, now);
    }
  }
}
