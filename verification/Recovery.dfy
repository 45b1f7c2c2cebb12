// Opening a store again: by scanning every region after a crash, or from the snapshot a clean close exported.

module Recovery {
  import opened Wrappers
  import opened Bytes
  import opened Segments
  import opened RegionLog
  import opened Index
  import opened Store
  import opened StoreInvariant

  // ---- The scan, on the log ----

  function Replay(d: Digests, ix: Shards, es: seq<Entry>, now: nat): Shards {
    if es == [] then ix else
      var e := es[|es| - 1];
      ReplaySegment(d, Replay(d, ix, es[..|es| - 1], now), e.rid, e.pos, e.seg, now)
  }

  predicate Decodable(decode: Decoder, es: seq<Entry>) {
    forall i :: 0 <= i < |es| ==> decode(es[i].seg.value).Some?
  }

  // Replaying looks at everything but the value.
  lemma ReplayIgnoresValue(d: Digests, ix: Shards, rid: uint64, pos: nat, seg: Segment, v: seq<byte>, now: nat)
    ensures ReplaySegment(d, ix, rid, pos, seg.(value := v), now) == ReplaySegment(d, ix, rid, pos, seg, now)
  {
  }

  lemma {:induction false} ScanOne(d: Digests, decode: Decoder, rid: uint64, rs: seq<Segment>, i: nat, ix: Shards,
                                   now: nat)
    requires AllWellFormed(rs) && i < |rs|
    ensures ScanRegion(d, decode, rid, Layout(d, rs), |Layout(d, rs[..i])|, ix, now)
            == if decode(rs[i].value).None? then Err(CannotRead(DecodeFailed)) else
                 ScanRegion(d, decode, rid, Layout(d, rs), |Layout(d, rs[..i + 1])|,
                            ReplaySegment(d, ix, rid, |Layout(d, rs[..i])|, rs[i], now), now)
  {
    hide Layout, ReplaySegment, Serialize, ReadRaw;
    ReadRecord(d, rs, i);
    Boundary(d, rs, i);
    if decode(rs[i].value).Some? {
      ReplayIgnoresValue(d, ix, rid, |Layout(d, rs[..i])|, rs[i], decode(rs[i].value).value, now);
    }
  }

  // The scan of a region visits every record on its boundary, in order, and ends at the end of the file; it fails
  // exactly when some value does not decode.
  lemma {:induction false} ScanIsReplay(d: Digests, decode: Decoder, rid: uint64, rs: seq<Segment>, i: nat,
                                        ix: Shards, now: nat)
    requires AllWellFormed(rs) && i <= |rs|
    ensures var r := ScanRegion(d, decode, rid, Layout(d, rs), |Layout(d, rs[..i])|,
                                Replay(d, ix, Entries(d, rid, rs)[..i], now), now);
            if Decodable(decode, Entries(d, rid, rs)[i..]) then r == Ok(Replay(d, ix, Entries(d, rid, rs), now))
            else r.Err?
    decreases |rs| - i
  {
    hide Layout, ReplaySegment, Entries;
    var es := Entries(d, rid, rs);
    if i == |rs| {
      assert rs[..i] == rs && es[..i] == es && es[i..] == [];
    } else {
      ScanOne(d, decode, rid, rs, i, Replay(d, ix, es[..i], now), now);
      EntryAt(d, rid, rs, i);
      assert es[..i + 1][..i] == es[..i];
      assert es[i..] == [es[i]] + es[i + 1..];
      if decode(rs[i].value).Some? {
        ScanIsReplay(d, decode, rid, rs, i + 1, ix, now);
      }
    }
  }

  lemma {:induction false} ReplayConcat(d: Digests, ix: Shards, a: seq<Entry>, b: seq<Entry>, now: nat)
    ensures Replay(d, ix, a + b, now) == Replay(d, Replay(d, ix, a, now), b, now)
  {
    hide ReplaySegment;
    if b == [] {
      assert a + b == a;
    } else {
      var b' := b[..|b| - 1];
      assert (a + b)[..|a + b| - 1] == a + b';
      ReplayConcat(d, ix, a, b', now);
    }
  }

  lemma DecodableParts(decode: Decoder, a: seq<Entry>, b: seq<Entry>)
    ensures Decodable(decode, a + b) <==> Decodable(decode, a) && Decodable(decode, b)
  {
    var ab := a + b;
    if Decodable(decode, ab) {
      forall i | 0 <= i < |b| ensures decode(b[i].seg.value).Some? {
        assert b[i] == ab[|a| + i];
      }
      forall i | 0 <= i < |a| ensures decode(a[i].seg.value).Some? {
        assert a[i] == ab[i];
      }
    }
  }

  lemma {:induction false} ScanWhole(d: Digests, decode: Decoder, rid: uint64, rs: seq<Segment>, ix: Shards, now: nat)
    requires AllWellFormed(rs)
    ensures var r := ScanRegion(d, decode, rid, Layout(d, rs), 4, ix, now);
            if Decodable(decode, Entries(d, rid, rs)) then r == Ok(Replay(d, ix, Entries(d, rid, rs), now)) else r.Err?
  {
    var es := Entries(d, rid, rs);
    ScanIsReplay(d, decode, rid, rs, 0, ix, now);
    assert rs[..0] == [] && es[..0] == [] && es[0..] == es;
  }

  lemma {:induction false} ScanAll(d: Digests, decode: Decoder, files: map<uint64, seq<byte>>, recs: Records,
                                   ids: seq<uint64>,
                                   ix: Shards, now: nat)
    requires Covered(ids, recs) && files.Keys == recs.Keys
    requires forall r :: r in recs ==> files[r] == Layout(d, recs[r]) && AllWellFormed(recs[r])
    ensures var r := ScanRegions(d, decode, files, ids, ix, now);
            var log := FlatLog(d, recs, ids);
            if Decodable(decode, log) then r == Ok(Replay(d, ix, log, now)) else r.Err?
    decreases |ids|
  {
    hide Layout, ReplaySegment, Entries, ScanRegion, FlatLog;
    if ids == [] {
      NoIds(d, recs);
    } else {
      var es := Entries(d, ids[0], recs[ids[0]]);
      FlatLogFront(d, recs, ids);
      var later := FlatLog(d, recs, ids[1..]);
      DecodableParts(decode, es, later);
      ReplayConcat(d, ix, es, later, now);
      ScanWhole(d, decode, ids[0], recs[ids[0]], ix, now);
      ScanAll(d, decode, files, recs, ids[1..], Replay(d, ix, es, now), now);
    }
  }

  lemma {:induction false} NoIds(d: Digests, recs: Records)
    ensures FlatLog(d, recs, []) == []
  {
  }

  // Crash recovery replays the whole log.
  lemma {:induction false} CrashScan(d: Digests, decode: Decoder, s: State, recs: Records, now: nat)
    requires DiskOk(d, s, recs)
    ensures var r := CrashRecoveryAllIndex(d, decode, s.files, now);
            if Decodable(decode, Log(d, recs)) then r == Ok(Replay(d, EMPTY, Log(d, recs), now)) else r.Err?
  {
    hide Sorted, FlatLog, ScanRegions, Layout, Replay;
    ScanAll(d, decode, s.files, recs, Sorted(recs.Keys), EMPTY, now);
  }

  // ---- What the scan finds for a key ----

  // An unexpired put of key h with nothing but expired puts of h after it.
  ghost predicate Wins(d: Digests, log: seq<Entry>, i: int, h: uint64, now: nat) {
    && 0 <= i < |log| && InumOf(d, log[i]) == h
    && !log[i].seg.IsTombstone() && !Expired(log[i].seg.expiredAt, now)
    && forall j :: i < j < |log| && InumOf(d, log[j]) == h ==>
                     !log[j].seg.IsTombstone() && Expired(log[j].seg.expiredAt, now)
  }

  function Recovered(d: Digests, log: seq<Entry>, h: uint64, now: nat): Option<Entry> {
    if log == [] then None else
      var e, r := log[|log| - 1], Recovered(d, log[..|log| - 1], h, now);
      if InumOf(d, e) != h then r
      else if e.seg.IsTombstone() then None
      else if Expired(e.seg.expiredAt, now) then r
      else Some(e)
  }

  function RecoveredNode(d: Digests, log: seq<Entry>, h: uint64, now: nat): Option<Node> {
    match Recovered(d, log, h, now)
    case None => None
    case Some(e) => Some(NodeOf(e, 0))
  }

  lemma {:induction false} ReplayLookup(d: Digests, log: seq<Entry>, h: uint64, now: nat)
    ensures Lookup(Replay(d, EMPTY, log, now), h) == RecoveredNode(d, log, h, now)
  {
    if log != [] {
      ReplayLookup(d, log[..|log| - 1], h, now);
    }
  }

  lemma {:induction false} ReplaySharded(d: Digests, log: seq<Entry>, now: nat)
    ensures Sharded(Replay(d, EMPTY, log, now))
  {
    if log != [] {
      ReplaySharded(d, log[..|log| - 1], now);
    }
  }

  // A later part of the log without tombstones of the key decides if it has an unexpired put of it.
  lemma {:induction false} RecoveredConcat(d: Digests, a: seq<Entry>, b: seq<Entry>, h: uint64, now: nat)
    ensures Recovered(d, b, h, now).Some? ==> Recovered(d, a + b, h, now) == Recovered(d, b, h, now)
    ensures Recovered(d, b, h, now).None? && (forall e :: e in b && InumOf(d, e) == h ==> !e.seg.IsTombstone()) ==>
              Recovered(d, a + b, h, now) == Recovered(d, a, h, now)
  {
    if b == [] {
      assert a + b == a;
    } else {
      assert (a + b)[..|a + b| - 1] == a + b[..|b| - 1];
      assert b == b[..|b| - 1] + [b[|b| - 1]];
      RecoveredConcat(d, a, b[..|b| - 1], h, now);
    }
  }

  // Recovery yields the last unexpired put after the last tombstone, if there is one.
  lemma {:induction false} RecoveryPicks(d: Digests, log: seq<Entry>, h: uint64, now: nat)
    ensures Recovered(d, log, h, now).Some? <==> exists i :: Wins(d, log, i, h, now)
    ensures forall i :: Wins(d, log, i, h, now) ==> Recovered(d, log, h, now) == Some(log[i])
  {
    if log != [] {
      var init, n := log[..|log| - 1], |log| - 1;
      RecoveryPicks(d, init, h, now);
      forall i | Wins(d, log, i, h, now) && i < n ensures Wins(d, init, i, h, now) {
        assert forall j :: 0 <= j < n ==> init[j] == log[j];
      }
      var e := log[n];
      if InumOf(d, e) == h && !e.seg.IsTombstone() && !Expired(e.seg.expiredAt, now) {
        assert Wins(d, log, n, h, now);
      } else if InumOf(d, e) != h || !e.seg.IsTombstone() {
        forall i | Wins(d, init, i, h, now) ensures Wins(d, log, i, h, now) {
        }
      }
    }
  }

  // A key that can be read is recovered exactly.
  lemma {:induction false} VisibleRecovered(d: Digests, log: seq<Entry>, node: Node, seg: Segment, h: uint64, now: nat)
    requires Tracks(d, log, node, seg, h, now) && !Expired(node.expiredAt, now)
    ensures RecoveredNode(d, log, h, now) == Some(node.(mvcc := 0))
    ensures Recovered(d, log, h, now).value.seg == seg
  {
    var e := log[|log| - 1];
    if InumOf(d, e) != h || node != NodeOf(e, node.mvcc) || seg != e.seg {
      VisibleRecovered(d, log[..|log| - 1], node, seg, h, now);
    }
  }

  // What is recovered is tracked; what is not is gone.
  lemma {:induction false} RecoveredTracks(d: Digests, log: seq<Entry>, h: uint64, now: nat)
    ensures match Recovered(d, log, h, now)
            case None => Gone(d, log, h, now)
            case Some(e) =>
              && e in log && InumOf(d, e) == h && !e.seg.IsTombstone() && !Expired(e.seg.expiredAt, now)
              && Tracks(d, log, NodeOf(e, 0), e.seg, h, now)
  {
    if log != [] {
      RecoveredTracks(d, log[..|log| - 1], h, now);
    }
  }

  // ---- The puts of each key since its last delete ----

  function PutsAt<K>(puts: map<K, seq<Segment>>, k: K): seq<Segment> {
    if k in puts then puts[k] else []
  }

  // Oldest first.
  function PutsOf(d: Digests, log: seq<Entry>): map<uint64, seq<Segment>> {
    if log == [] then map[] else
      var e, puts := log[|log| - 1], PutsOf(d, log[..|log| - 1]);
      if e.seg.IsTombstone() then puts - {InumOf(d, e)}
      else puts[InumOf(d, e) := PutsAt(puts, InumOf(d, e)) + [e.seg]]
  }

  lemma {:induction false} PutsOfAppend(d: Digests, log: seq<Entry>, e: Entry)
    ensures var puts := PutsOf(d, log);
            PutsOf(d, log + [e]) == if e.seg.IsTombstone() then puts - {InumOf(d, e)}
                                    else puts[InumOf(d, e) := PutsAt(puts, InumOf(d, e)) + [e.seg]]
  {
    assert (log + [e])[..|log|] == log;
  }

  // The last one that has not expired.
  function Latest(segs: seq<Segment>, now: nat): Option<Segment> {
    if segs == [] then None
    else if Expired(segs[|segs| - 1].expiredAt, now) then Latest(segs[..|segs| - 1], now)
    else Some(segs[|segs| - 1])
  }

  lemma {:induction false} LatestAppend(segs: seq<Segment>, seg: Segment, now: nat)
    ensures Latest(segs + [seg], now) == if Expired(seg.expiredAt, now) then Latest(segs, now) else Some(seg)
  {
    assert (segs + [seg])[..|segs|] == segs;
  }

  // What the scan finds for a key is the last unexpired one of its puts since its last delete.
  lemma {:induction false} RecoveredIsLatest(d: Digests, log: seq<Entry>, h: uint64, now: nat)
    ensures Latest(PutsAt(PutsOf(d, log), h), now)
            == match Recovered(d, log, h, now) case None => None case Some(e) => Some(e.seg)
  {
    if log != [] {
      var e, init := log[|log| - 1], log[..|log| - 1];
      RecoveredIsLatest(d, init, h, now);
      LatestAppend(PutsAt(PutsOf(d, init), h), e.seg, now);
    }
  }

  // From now on a scan of the later log finds for each key what it would have found before, or nothing.
  ghost predicate ScanForgets<K(!new)>(puts: map<K, seq<Segment>>, puts': map<K, seq<Segment>>, now: nat) {
    forall k, t: nat :: now <= t && Latest(PutsAt(puts', k), t).Some? ==>
                          Latest(PutsAt(puts', k), t) == Latest(PutsAt(puts, k), t)
  }

  function ScanMap<K>(puts: map<K, seq<Segment>>, now: nat): map<K, Cell> {
    map k | k in puts && Latest(puts[k], now).Some? :: Cell(Latest(puts[k], now).value, 0)
  }

  lemma {:induction false} ScanMapHas(d: Digests, log: seq<Entry>, h: uint64, now: nat)
    ensures var m := ScanMap(PutsOf(d, log), now);
            Get(m, h) == match Recovered(d, log, h, now) case None => None case Some(e) => Some(Cell(e.seg, 0))
  {
    RecoveredIsLatest(d, log, h, now);
  }
}
