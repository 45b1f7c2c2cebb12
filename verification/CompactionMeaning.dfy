// What compaction keeps: what the store means, and the last record of each key.

module CompactionMeaning {
  import opened Wrappers
  import opened Bytes
  import opened Segments
  import opened RegionLog
  import opened Index
  import opened Store
  import opened StoreInvariant
  import opened Compaction
  import opened Recovery

  // Creation times identify the puts of a key.
  ghost predicate Stamped(d: Digests, log: seq<Entry>) {
    forall i, j :: 0 <= i < |log| && 0 <= j < |log| && SameStamp(d, log[i], log[j]) ==> log[i].seg == log[j].seg
  }

  predicate SameStamp(d: Digests, a: Entry, b: Entry) {
    && InumOf(d, a) == InumOf(d, b) && a.seg.createdAt == b.seg.createdAt
    && !a.seg.IsTombstone() && !b.seg.IsTombstone()
  }

  ghost predicate AllExpired(d: Digests, log: seq<Entry>, h: uint64, now: nat) {
    forall i :: 0 <= i < |log| && InumOf(d, log[i]) == h ==>
                  !log[i].seg.IsTombstone() && Expired(log[i].seg.expiredAt, now)
  }

  // Either the inode's record is in the log, or nothing of its key is alive any more.
  lemma {:induction false} TracksCases(d: Digests, log: seq<Entry>, node: Node, seg: Segment, h: uint64, now: nat)
    returns (r: Option<Entry>)
    requires Tracks(d, log, node, seg, h, now)
    ensures r.Some? ==> r.value in log && InumOf(d, r.value) == h && !r.value.seg.IsTombstone()
                        && node == NodeOf(r.value, node.mvcc) && seg == r.value.seg
    ensures r.None? ==> Expired(node.expiredAt, now) && AllExpired(d, log, h, now)
  {
    if log == [] { return None; }
    var e, init := log[|log| - 1], log[..|log| - 1];
    if InumOf(d, e) == h && node == NodeOf(e, node.mvcc) && seg == e.seg { return Some(e); }
    r := TracksCases(d, init, node, seg, h, now);
    if r.None? {
      forall i | 0 <= i < |log| && InumOf(d, log[i]) == h
        ensures !log[i].seg.IsTombstone() && Expired(log[i].seg.expiredAt, now)
      {
        if i < |init| { assert init[i] == log[i]; }
      }
    }
  }

  lemma {:induction false} DeadTracks(d: Digests, log: seq<Entry>, node: Node, seg: Segment, h: uint64, now: nat)
    requires Expired(node.expiredAt, now) && AllExpired(d, log, h, now)
    ensures Tracks(d, log, node, seg, h, now)
  {
    if log != [] {
      DeadTracks(d, log[..|log| - 1], node, seg, h, now);
    }
  }

  // Dropping the front of the log is harmless to an inode whose record is not there.
  lemma {:induction false} TracksDrop(d: Digests, front: seq<Entry>, rest: seq<Entry>, node: Node, seg: Segment,
                                      h: uint64, now: nat)
    requires Tracks(d, front + rest, node, seg, h, now)
    requires Expired(node.expiredAt, now)
             || forall e :: e in front && InumOf(d, e) == h && !e.seg.IsTombstone() ==> node != NodeOf(e, node.mvcc)
    ensures Tracks(d, rest, node, seg, h, now)
  {
    if rest == [] {
      assert front + rest == front;
      var r := TracksCases(d, front, node, seg, h, now);
    } else {
      var init := rest[..|rest| - 1];
      assert (front + rest)[..|front + rest| - 1] == front + init;
      if Tracks(d, front + init, node, seg, h, now) {
        TracksDrop(d, front, init, node, seg, h, now);
      }
    }
  }

  // Records of other keys at the end do not matter.
  lemma {:induction false} TracksOthers(d: Digests, log: seq<Entry>, more: seq<Entry>, node: Node, seg: Segment,
                                        h: uint64, now: nat)
    requires Last(d, more, h).None?
    ensures Tracks(d, log + more, node, seg, h, now) <==> Tracks(d, log, node, seg, h, now)
  {
    if more == [] {
      assert log + more == log;
    } else {
      var init := more[..|more| - 1];
      assert (log + more)[..|log + more| - 1] == log + init;
      TracksOthers(d, log, init, node, seg, h, now);
    }
  }

  // The record of the key that comes last is where its inode points.
  lemma {:induction false} TracksLast(d: Digests, log: seq<Entry>, node: Node, h: uint64, now: nat)
    requires Last(d, log, h).Some?
    requires var e := Last(d, log, h).value; !e.seg.IsTombstone() && node == NodeOf(e, node.mvcc)
    ensures Tracks(d, log, node, Last(d, log, h).value.seg, h, now)
  {
    if InumOf(d, log[|log| - 1]) != h {
      TracksLast(d, log[..|log| - 1], node, h, now);
    }
  }

  lemma {:induction false} KeptIsFilter(d: Digests, ix: Shards, es: seq<Entry>, now: nat, e: Entry)
    ensures e in Kept(d, ix, es, now) <==> e in es && Passes(d, ix, e, now)
  {
    if es != [] {
      var init := es[..|es| - 1];
      assert es == init + [es[|es| - 1]];
      KeptIsFilter(d, ix, init, now, e);
    }
  }

  // Which victim records are copied. The expiry, in nanoseconds, is compared with the time in seconds: an expired
  // record is still copied for as long as its inode is there.
  lemma {:induction false} CopiedIff(d: Digests, ix: Shards, victims: seq<Entry>, now: nat, e: Entry)
    ensures e in Kept(d, ix, victims, now)
            <==> && e in victims && e.seg.tombstone != 1
                 && Lookup(ix, d.inodeNum(e.seg.key)).Some?
                 && Lookup(ix, d.inodeNum(e.seg.key)).value.createdAt == e.seg.createdAt
                 && (e.seg.expiredAt == 0 || now < 1_000_000_000 * e.seg.expiredAt)
  {
    KeptIsFilter(d, ix, victims, now, e);
  }

  // The last record of a key depends on the segments alone.
  lemma {:induction false} LastOfSegs(d: Digests, a: seq<Entry>, b: seq<Entry>, h: uint64)
    requires Segs(a) == Segs(b)
    ensures Last(d, a, h).Some? <==> Last(d, b, h).Some?
    ensures Last(d, a, h).Some? ==> Last(d, a, h).value.seg == Last(d, b, h).value.seg
  {
    assert |a| == |Segs(a)| == |Segs(b)| == |b|;
    if a != [] {
      var i := |a| - 1;
      assert a[i].seg == Segs(a)[i] == Segs(b)[i] == b[i].seg;
      assert Segs(a[..i]) == Segs(a)[..i];
      assert Segs(b[..i]) == Segs(b)[..i];
      LastOfSegs(d, a[..i], b[..i], h);
    }
  }

  // The victim record of key h that is copied last: what its inode will point at a copy of.
  function LastKept(d: Digests, s: State, recs: Records, h: uint64, now: nat): Option<Entry>
    requires |recs| >= 5
  {
    Last(d, Kept(d, s.index, VictimLog(d, recs), now), h)
  }

  // ---- One key through a compaction ----

  lemma {:induction false} CompactedAbsent(d: Digests, victims: seq<Entry>, rest: seq<Entry>, copies: seq<Entry>,
                                           h: uint64, now: nat)
    requires Gone(d, victims + rest, h, now) && Last(d, copies, h).None?
    ensures Gone(d, rest + copies, h, now)
  {
    LastConcat(d, victims, rest, h);
    LastConcat(d, rest, copies, h);
  }

  lemma {:induction false} CompactedPresent(d: Digests, ix: Shards, victims: seq<Entry>, rest: seq<Entry>,
                                            copies: seq<Entry>, node: Node, seg: Segment, h: uint64, now: nat)
    requires Lookup(ix, h) == Some(node) && seg.expiredAt == node.expiredAt
    requires Tracks(d, victims + rest, node, seg, h, now) && Stamped(d, victims + rest)
    requires Segs(copies) == Segs(Kept(d, ix, victims, now))
    ensures Tracks(d, rest + copies, Moved(Some(node), Last(d, copies, h)).value, seg, h, now)
  {
    var kept := Kept(d, ix, victims, now);
    LastOfSegs(d, copies, kept, h);
    var r := TracksCases(d, victims + rest, node, seg, h, now);
    if Last(d, copies, h).None? {
      forall e | e in victims && InumOf(d, e) == h && !e.seg.IsTombstone() && !Expired(node.expiredAt, now)
        ensures node != NodeOf(e, node.mvcc)
      {
        if node == NodeOf(e, node.mvcc) { UnexpiredIsKept(d, ix, victims, e, node, now); }
      }
      TracksDrop(d, victims, rest, node, seg, h, now);
      TracksOthers(d, rest, copies, node, seg, h, now);
    } else {
      var y := Last(d, kept, h).value;
      KeptIsFilter(d, ix, victims, now, y);
      assert y in victims + rest;
      var c := Last(d, copies, h).value;
      var moved := Moved(Some(node), Some(c)).value;
      LastConcat(d, rest, copies, h);
      if r.Some? {
        StampedPair(d, victims + rest, y, r.value);
        TracksLast(d, rest + copies, moved, h, now);
      } else {
        CopiesExpired(d, ix, victims, rest, copies, h, now);
        DeadTracks(d, rest + copies, moved, seg, h, now);
      }
    }
  }

  lemma StampedPair(d: Digests, log: seq<Entry>, a: Entry, b: Entry)
    requires Stamped(d, log) && a in log && b in log && SameStamp(d, a, b)
    ensures a.seg == b.seg
  {
    var i :| 0 <= i < |log| && log[i] == a;
    var j :| 0 <= j < |log| && log[j] == b;
  }

  lemma CopyHasSource(d: Digests, ix: Shards, victims: seq<Entry>, copies: seq<Entry>, i: nat, now: nat)
    returns (y: Entry)
    requires Segs(copies) == Segs(Kept(d, ix, victims, now)) && i < |copies|
    ensures y in victims && y.seg == copies[i].seg
  {
    var kept := Kept(d, ix, victims, now);
    assert |copies| == |Segs(copies)| == |kept|;
    assert copies[i].seg == Segs(copies)[i] == kept[i].seg;
    y := kept[i];
    KeptIsFilter(d, ix, victims, now, y);
  }

  lemma {:induction false} CopiesExpired(d: Digests, ix: Shards, victims: seq<Entry>, rest: seq<Entry>,
                                         copies: seq<Entry>, h: uint64, now: nat)
    requires AllExpired(d, victims + rest, h, now)
    requires Segs(copies) == Segs(Kept(d, ix, victims, now))
    ensures AllExpired(d, rest + copies, h, now)
  {
    var log, log' := victims + rest, rest + copies;
    forall i | 0 <= i < |log'| && InumOf(d, log'[i]) == h
      ensures !log'[i].seg.IsTombstone() && Expired(log'[i].seg.expiredAt, now)
    {
      if i < |rest| {
        assert log[|victims| + i] == log'[i];
      } else {
        var y := CopyHasSource(d, ix, victims, copies, i - |rest|, now);
        var k :| 0 <= k < |victims| && victims[k] == y;
        assert log[k] == y;
      }
    }
  }

  lemma SourceOf(d: Digests, ix: Shards, victims: seq<Entry>, rest: seq<Entry>, copies: seq<Entry>, i: nat, now: nat)
    returns (y: Entry)
    requires Segs(copies) == Segs(Kept(d, ix, victims, now)) && i < |rest + copies|
    ensures y in victims + rest && y.seg == (rest + copies)[i].seg
  {
    if i < |rest| {
      y := rest[i];
    } else {
      y := CopyHasSource(d, ix, victims, copies, i - |rest|, now);
    }
  }

  // ---- Compaction preserves meaning ----

  // When creation times identify the puts of a key, compaction keeps the whole invariant, for the same timed map. It
  // makes up no segment, and a later crash scan finds what it would have found without it, or nothing.
  lemma CompactionKeepsMeaning(d: Digests, threshold: nat, s: State, recs: Records, m: TimedMap, now: nat)
    returns (s': State, recs': Records)
    requires Rep(d, s, recs, m, now)
    requires |recs| >= 5 ==> Stamped(d, Log(d, recs)) && Budget(d, s, VictimLog(d, recs))
    ensures CleanupDirtyRegion(d, threshold, s, now) == (s', Done)
    ensures Rep(d, s', recs', m, now) && (|recs| < 5 ==> recs' == recs)
    ensures SegsFrom(Log(d, recs), Log(d, recs'))
    ensures ScanForgets(PutsOf(d, Log(d, recs)), PutsOf(d, Log(d, recs')), now)
    ensures Bounded(d, threshold, s, recs) ==> Bounded(d, threshold, s', recs')
  {
    hide Bounded, PutsOf, PutsAt, Latest;
    if |recs| < 5 {
      assert |s.files| == |s.files.Keys| == |recs.Keys| == |recs|;
      SegsFromRefl(Log(d, recs));
      return s, recs;
    }
    var copies;
    s', recs', copies := CompactionEffect(d, threshold, s, recs, now);
    var victims, rest := VictimLog(d, recs), SurvivorLog(d, recs);
    VictimsAreFirst(d, s, recs);
    hide VictimLog, SurvivorLog, Log, DiskOk, Kept, Segs, Stamped, Tracks, Last, SegsFrom, OnlyOthers, Victims, Budget;
    forall h ensures CellOk(d, Lookup(s'.index, h), Get(m, h), rest + copies, h, now) {
      CompactedCell(d, s.index, s'.index, m, victims, rest, copies, h, now);
    }
    CompactedFrom(d, s.index, victims, rest, copies, now);
    CompactionForgets(d, s.index, m, victims, rest, copies, now);
  }

  // Every segment of the later log is in the earlier one.
  ghost predicate SegsFrom(log: seq<Entry>, log': seq<Entry>) {
    forall e :: e in log' ==> exists x :: x in log && x.seg == e.seg
  }

  lemma SegsFromRefl(log: seq<Entry>)
    ensures SegsFrom(log, log)
  {
  }

  lemma {:induction false} CompactedFrom(d: Digests, ix: Shards, victims: seq<Entry>, rest: seq<Entry>,
                                         copies: seq<Entry>, now: nat)
    requires Segs(copies) == Segs(Kept(d, ix, victims, now))
    ensures SegsFrom(victims + rest, rest + copies)
  {
    var log' := rest + copies;
    forall e | e in log' ensures exists x :: x in victims + rest && x.seg == e.seg {
      var i :| 0 <= i < |log'| && log'[i] == e;
      var y := SourceOf(d, ix, victims, rest, copies, i, now);
    }
  }

  lemma {:induction false} CompactionForgets(d: Digests, ix: Shards, m: TimedMap, victims: seq<Entry>,
                                             rest: seq<Entry>, copies: seq<Entry>, now: nat)
    requires IndexOk(d, ix, victims + rest, m, now) && Stamped(d, victims + rest)
    requires Segs(copies) == Segs(Kept(d, ix, victims, now))
    ensures ScanForgets(PutsOf(d, victims + rest), PutsOf(d, rest + copies), now)
  {
    var puts, puts' := PutsOf(d, victims + rest), PutsOf(d, rest + copies);
    hide PutsOf, PutsAt, Latest, Recovered, Kept, Segs, Stamped, Tracks, Gone;
    forall h: uint64, t: nat | now <= t && Latest(PutsAt(puts', h), t).Some?
      ensures Latest(PutsAt(puts', h), t) == Latest(PutsAt(puts, h), t)
    {
      RecoveredIsLatest(d, victims + rest, h, t);
      RecoveredIsLatest(d, rest + copies, h, t);
      CompactedRecovers(d, ix, m, victims, rest, copies, h, now, t);
    }
  }

  lemma {:induction false} CompactedRecovers(d: Digests, ix: Shards, m: TimedMap, victims: seq<Entry>,
                                             rest: seq<Entry>, copies: seq<Entry>, h: uint64, now: nat, t: nat)
    requires IndexOk(d, ix, victims + rest, m, now) && Stamped(d, victims + rest) && now <= t
    requires Segs(copies) == Segs(Kept(d, ix, victims, now))
    requires Recovered(d, rest + copies, h, t).Some?
    ensures Recovered(d, victims + rest, h, t).Some?
    ensures Recovered(d, victims + rest, h, t).value.seg == Recovered(d, rest + copies, h, t).value.seg
  {
    hide Kept, Segs, Stamped, Tracks, Gone, Recovered, IndexOk;
    RecoveredConcat(d, rest, copies, h, t);
    RecoveredConcat(d, victims, rest, h, t);
    RecoveredTracks(d, copies, h, t);
    if Recovered(d, copies, h, t).Some? {
      CopyRecovers(d, ix, m, victims, rest, copies, Recovered(d, copies, h, t).value, h, now, t);
    } else {
      CopiesArePuts(d, ix, victims, copies, now);
    }
  }

  lemma {:induction false} CopiesArePuts(d: Digests, ix: Shards, victims: seq<Entry>, copies: seq<Entry>, now: nat)
    requires Segs(copies) == Segs(Kept(d, ix, victims, now))
    ensures forall c :: c in copies ==> !c.seg.IsTombstone()
  {
    forall c | c in copies ensures !c.seg.IsTombstone() {
      var i :| 0 <= i < |copies| && copies[i] == c;
      var y := LiveSource(d, ix, victims, copies, i, now);
    }
  }

  // The victim record a copy was made of.
  lemma LiveSource(d: Digests, ix: Shards, victims: seq<Entry>, copies: seq<Entry>, i: nat, now: nat)
    returns (y: Entry)
    requires Segs(copies) == Segs(Kept(d, ix, victims, now)) && i < |copies|
    ensures y in victims && y.seg == copies[i].seg && Passes(d, ix, y, now)
  {
    var kept := Kept(d, ix, victims, now);
    assert |copies| == |Segs(copies)| == |kept|;
    assert copies[i].seg == Segs(copies)[i] == kept[i].seg;
    y := kept[i];
    KeptIsFilter(d, ix, victims, now, y);
  }

  // An unexpired copy is of the segment the scan would have found.
  lemma {:induction false} CopyRecovers(d: Digests, ix: Shards, m: TimedMap, victims: seq<Entry>, rest: seq<Entry>,
                                        copies: seq<Entry>, c: Entry, h: uint64, now: nat, t: nat)
    requires IndexOk(d, ix, victims + rest, m, now) && Stamped(d, victims + rest) && now <= t
    requires Segs(copies) == Segs(Kept(d, ix, victims, now))
    requires c in copies && InumOf(d, c) == h && !Expired(c.seg.expiredAt, t)
    ensures Recovered(d, victims + rest, h, t).Some? && Recovered(d, victims + rest, h, t).value.seg == c.seg
  {
    hide Kept, Segs, Stamped, Tracks, Gone, Recovered;
    var i :| 0 <= i < |copies| && copies[i] == c;
    var y := LiveSource(d, ix, victims, copies, i, now);
    var log := victims + rest;
    assert y in log;
    assert CellOk(d, Lookup(ix, h), Get(m, h), log, h, now);
    var node, seg := Lookup(ix, h).value, m[h].seg;
    var r := TracksCases(d, log, node, seg, h, now);
    var k :| 0 <= k < |log| && log[k] == y;
    assert r.Some?;
    StampedPair(d, log, y, r.value);
    TracksLater(d, log, node, seg, h, now, t);
    VisibleRecovered(d, log, node, seg, h, t);
  }

  lemma {:induction false} CompactedCell(d: Digests, ix: Shards, ix': Shards, m: TimedMap, victims: seq<Entry>,
                                         rest: seq<Entry>, copies: seq<Entry>, h: uint64, now: nat)
    requires IndexOk(d, ix, victims + rest, m, now) && Stamped(d, victims + rest)
    requires Segs(copies) == Segs(Kept(d, ix, victims, now)) && Repointed(d, ix, ix', copies)
    ensures CellOk(d, Lookup(ix', h), Get(m, h), rest + copies, h, now)
  {
    hide Kept, Segs, Stamped, Tracks, Last;
    assert CellOk(d, Lookup(ix, h), Get(m, h), victims + rest, h, now);
    RepointedAt(d, ix, ix', copies, h);
    match Lookup(ix, h)
    case None =>
      NoneKept(d, ix, victims, copies, h, now);
      CompactedAbsent(d, victims, rest, copies, h, now);
    case Some(node) =>
      CompactedPresent(d, ix, victims, rest, copies, node, Get(m, h).value.seg, h, now);
  }

  lemma {:induction false} NoneKept(d: Digests, ix: Shards, victims: seq<Entry>, copies: seq<Entry>, h: uint64,
                                    now: nat)
    requires Lookup(ix, h).None? && Segs(copies) == Segs(Kept(d, ix, victims, now))
    ensures Last(d, copies, h).None?
  {
    var kept := Kept(d, ix, victims, now);
    LastOfSegs(d, copies, kept, h);
    if Last(d, kept, h).Some? {
      KeptIsFilter(d, ix, victims, now, Last(d, kept, h).value);
    }
  }

  // ---- The last record of each key ----

  // The last record of a key is as it was, up to its place, or it was dropped as a tombstone or an expired put.
  predicate LastKeeps(before: Option<Entry>, after: Option<Entry>, now: nat) {
    match after
    case Some(e) => before.Some? && e.seg == before.value.seg
    case None => before.Some? ==> before.value.seg.IsTombstone() || Expired(before.value.seg.expiredAt, now)
  }

  // The inode is that of an earlier record than the key's last one, and a victim region holds that record.
  ghost predicate EarlierIsVictim(d: Digests, s: State, recs: Records, h: uint64, now: nat)
    requires |recs| >= 5
  {
    var node, last := Lookup(s.index, h), Last(d, Log(d, recs), h);
    && node.Some? && last.Some? && node.value.createdAt != last.value.seg.createdAt
    && exists y :: y in VictimLog(d, recs) && InumOf(d, y) == h && IsValid(y.seg, node.value, now)
  }

  lemma {:induction false} KeptExists(d: Digests, ix: Shards, es: seq<Entry>, h: uint64, now: nat)
    ensures Last(d, Kept(d, ix, es, now), h).Some?
            <==> (exists y :: y in es && InumOf(d, y) == h && Passes(d, ix, y, now))
  {
    var kept := Kept(d, ix, es, now);
    if Last(d, kept, h).Some? {
      KeptIsFilter(d, ix, es, now, Last(d, kept, h).value);
    }
    forall y | y in es && InumOf(d, y) == h && Passes(d, ix, y, now) ensures Last(d, kept, h).Some? {
      KeptIsFilter(d, ix, es, now, y);
    }
  }

  lemma {:induction false} LastKeptIsLast(d: Digests, ix: Shards, m: TimedMap, victims: seq<Entry>, rest: seq<Entry>,
                                          h: uint64, now: nat)
    requires IndexOk(d, ix, victims + rest, m, now) && Stamped(d, victims + rest)
    requires Last(d, Kept(d, ix, victims, now), h).Some?
    ensures Lookup(ix, h).Some? && Last(d, victims + rest, h).Some?
    ensures Last(d, victims + rest, h).value.seg == Last(d, Kept(d, ix, victims, now), h).value.seg
            <==> Lookup(ix, h).value.createdAt == Last(d, victims + rest, h).value.seg.createdAt
  {
    var y := Last(d, Kept(d, ix, victims, now), h).value;
    KeptIsFilter(d, ix, victims, now, y);
    assert y in victims + rest;
    assert CellOk(d, Lookup(ix, h), Get(m, h), victims + rest, h, now);
    TrackedLast(d, victims + rest, Lookup(ix, h).value, m[h].seg, h, now);
    hide Kept, Stamped, Tracks;
    var last := Last(d, victims + rest, h).value;
    if y.seg.createdAt == last.seg.createdAt { StampedPair(d, victims + rest, y, last); }
  }

  // What has no copy and no survivor was dead.
  lemma {:induction false} DroppedWasDead(d: Digests, ix: Shards, m: TimedMap, victims: seq<Entry>, rest: seq<Entry>,
                                          h: uint64, now: nat)
    requires IndexOk(d, ix, victims + rest, m, now)
    requires Last(d, Kept(d, ix, victims, now), h).None? && Last(d, rest, h).None? && Last(d, victims + rest, h).Some?
    ensures var e := Last(d, victims + rest, h).value; e.seg.IsTombstone() || Expired(e.seg.expiredAt, now)
  {
    LastConcat(d, victims, rest, h);
    var e := Last(d, victims + rest, h).value;
    assert CellOk(d, Lookup(ix, h), Get(m, h), victims + rest, h, now);
    if Lookup(ix, h).Some? && !Expired(e.seg.expiredAt, now) {
      TrackedLast(d, victims + rest, Lookup(ix, h).value, m[h].seg, h, now);
      hide Kept, Tracks;
      UnexpiredIsKept(d, ix, victims, e, Lookup(ix, h).value, now);
      assert false;
    }
  }

  // In every state, whatever the index says: the last record of a key is afterwards the copy of the victim record that
  // was copied last for it, or the last one among the other regions. So it is kept exactly when that victim record is
  // the last one, or, if none is copied, when the key has a record elsewhere or its last one is dead.
  lemma LastAfterCompaction(d: Digests, threshold: nat, s: State, recs: Records, now: nat, h: uint64)
    returns (s': State, recs': Records)
    requires DiskOk(d, s, recs) && Sharded(s.index) && |recs| >= 5 && Budget(d, s, VictimLog(d, recs))
    ensures CleanupDirtyRegion(d, threshold, s, now) == (s', Done) && DiskOk(d, s', recs')
    ensures var kept, last' := LastKept(d, s, recs, h, now), Last(d, Log(d, recs'), h);
            if kept.Some? then last'.Some? && last'.value.seg == kept.value.seg
            else last' == Last(d, SurvivorLog(d, recs), h)
    ensures var kept, last := LastKept(d, s, recs, h, now), Last(d, Log(d, recs), h);
            LastKeeps(last, Last(d, Log(d, recs'), h), now)
            <==> if kept.Some? then last.Some? && kept.value.seg == last.value.seg
                 else || last.None? || Last(d, SurvivorLog(d, recs), h).Some?
                      || last.value.seg.IsTombstone() || Expired(last.value.seg.expiredAt, now)
  {
    hide Bounded;
    var copies;
    s', recs', copies := CompactionEffect(d, threshold, s, recs, now);
    var victims, rest := VictimLog(d, recs), SurvivorLog(d, recs);
    VictimsAreFirst(d, s, recs);
    hide VictimLog, SurvivorLog, Log, DiskOk, Kept, Segs, Last, OnlyOthers, Victims, Budget, Repointed;
    LastConcat(d, rest, copies, h);
    LastConcat(d, victims, rest, h);
    LastOfSegs(d, copies, Kept(d, s.index, victims, now), h);
  }

  // Where the index agrees with the log and creation times identify the puts of a key, that fails exactly when the
  // inode is that of an earlier record in a victim region; and then the last one is an expired put, which a crash scan
  // has passed over.
  lemma CompactionKeepsLast(d: Digests, threshold: nat, s: State, recs: Records, m: TimedMap, now: nat, h: uint64)
    returns (s': State, recs': Records)
    requires Rep(d, s, recs, m, now) && |recs| >= 5 && Budget(d, s, VictimLog(d, recs)) && Stamped(d, Log(d, recs))
    ensures CleanupDirtyRegion(d, threshold, s, now) == (s', Done) && DiskOk(d, s', recs')
    ensures LastKeeps(Last(d, Log(d, recs), h), Last(d, Log(d, recs'), h), now)
            <==> !EarlierIsVictim(d, s, recs, h, now)
    ensures EarlierIsVictim(d, s, recs, h, now) ==>
              var e := Last(d, Log(d, recs), h).value; !e.seg.IsTombstone() && Expired(e.seg.expiredAt, now)
  {
    s', recs' := LastAfterCompaction(d, threshold, s, recs, now, h);
    var victims, rest := VictimLog(d, recs), SurvivorLog(d, recs);
    VictimsAreFirst(d, s, recs);
    assert CellOk(d, Lookup(s.index, h), Get(m, h), victims + rest, h, now);
    if Lookup(s.index, h).Some? { TrackedLast(d, victims + rest, Lookup(s.index, h).value, m[h].seg, h, now); }
    hide VictimLog, SurvivorLog, Log, DiskOk, Kept, Stamped, Last, IndexOk, CellOk, Tracks, Victims, Budget, IsValid;
    KeptExists(d, s.index, victims, h, now);
    if LastKept(d, s, recs, h, now).Some? {
      LastKeptIsLast(d, s.index, m, victims, rest, h, now);
    } else if Last(d, rest, h).None? && Last(d, victims + rest, h).Some? {
      DroppedWasDead(d, s.index, m, victims, rest, h, now);
    }
  }

  // ---- Reading through a moved inode ----

  lemma SamePlace(d: Digests, decode: Decoder, files: map<uint64, seq<byte>>, c: Entry, node: Node)
    ensures var moved := Moved(Some(node), Some(c)).value;
            ReadNode(d, decode, files, moved) == ReadNode(d, decode, files, NodeOf(c, node.mvcc))
            && moved.expiredAt == node.expiredAt
  {
  }

  lemma {:induction false} UnexpiredIsKept(d: Digests, ix: Shards, victims: seq<Entry>, x: Entry, node: Node, now: nat)
    requires x in victims && !x.seg.IsTombstone() && !Expired(node.expiredAt, now)
    requires Lookup(ix, InumOf(d, x)) == Some(node) && node == NodeOf(x, node.mvcc)
    ensures Last(d, Kept(d, ix, victims, now), InumOf(d, x)).Some?
  {
    assert Passes(d, ix, x, now);
    KeptIsFilter(d, ix, victims, now, x);
  }
}
