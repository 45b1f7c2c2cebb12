// cleanupDirtyRegion as the source writes it (vfs/lfs.go:1073-1177), one action at a time, with lfs.mu. The call takes
// the lock and gives it back only when it returns; for a live record it takes the lock again, and it moves on only past
// records it has copied. Meanwhile other threads may change the index in any way that does not need the lock.

module WrittenCleanup {
  import opened Wrappers
  import opened Bytes
  import opened Segments
  import opened RegionLog
  import opened Index
  import opened Store
  import opened StoreInvariant
  import opened Compaction

  datatype Owner = Nobody | Cleaner

  // Where the call stands; i is the number of the victim region, at the read offset in it.
  datatype Place =
    | Entering
    | NextRegion(i: nat)
    | Looping(i: nat, at: nat)
    | Checking(i: nat, at: nat, seg: Segment)
    | Relocking(i: nat, at: nat, seg: Segment)
    | Appending(i: nat, at: nat, seg: Segment)
    | Returned(ok: bool)

  datatype Machine = Machine(place: Place, mu: Owner, index: Shards, now: nat)

  // The region files; nothing is appended or created while the call holds the lock.
  datatype Input = Input(d: Digests, decode: Decoder, files: map<uint64, seq<byte>>)

  // Interfere: other threads leave this index, some time later.
  datatype Move = Clean | Interfere(index: Shards, later: nat)

  function Files(c: Input): State {
    State(c.files, 0, 0, 0, EMPTY)
  }

  function Dirty(c: Input): seq<uint64>
    requires |c.files| >= 5
  {
    assert |c.files| == |c.files.Keys|;
    Victims(c.files.Keys)
  }

  // Returning gives the lock back.
  function Return(m: Machine, ok: bool): Machine {
    m.(place := Returned(ok), mu := Nobody)
  }

  // None: the call waits for the lock, or has returned. What follows the second lock is left open: Appending.
  function CleanStep(c: Input, m: Machine): Option<Machine> {
    match m.place
    case Entering =>
      if m.mu != Nobody then None
      else if |c.files| < 5 then Some(Return(m, true))
      else Some(m.(place := NextRegion(0), mu := Cleaner))
    case NextRegion(i) =>
      if i >= VICTIMS then Some(Return(m, true)) else Some(m.(place := Looping(i, 4)))
    case Looping(i, at) =>
      if |c.files| < 5 || i >= VICTIMS then None else
        var file := FileOf(Files(c), Dirty(c)[i]);
        if at >= |file| then Some(m.(place := NextRegion(i + 1))) else
          (match ReadDecoded(c.d, c.decode, file, at)
           case Err(_) => Some(Return(m, false))
           case Ok(seg) => Some(m.(place := Checking(i, at, seg))))
    case Checking(i, at, seg) =>
      (match Lookup(m.index, c.d.inodeNum(seg.key))
       case None => Some(m.(place := Looping(i, at)))
       case Some(node) =>
         Some(m.(place := if IsValid(seg, node, m.now) then Relocking(i, at, seg) else Looping(i, at))))
    case Relocking(i, at, seg) =>
      if m.mu != Nobody then None else Some(m.(place := Appending(i, at, seg), mu := Cleaner))
    case Appending(_, _, _) => None
    case Returned(_) => None
  }

  function Step(c: Input, m: Machine, move: Move): Option<Machine> {
    match move
    case Clean => CleanStep(c, m)
    case Interfere(index, later) => if later < m.now then None else Some(m.(index := index, now := later))
  }

  function Run(c: Input, m: Machine, moves: seq<Move>): Option<Machine> {
    if moves == [] then Some(m) else
      match Run(c, m, moves[..|moves| - 1])
      case None => None
      case Some(m') => Step(c, m', moves[|moves| - 1])
  }

  function Start(index: Shards, now: nat): Machine {
    Machine(Entering, Nobody, index, now)
  }

  ghost predicate Reaches(c: Input, m: Machine, m': Machine) {
    exists moves :: Run(c, m, moves) == Some(m')
  }

  // ---- Victims with records ----

  predicate Holding(c: Input, i: nat)
    requires |c.files| >= 5 && i < VICTIMS
  {
    |FileOf(Files(c), Dirty(c)[i])| > 4
  }

  ghost predicate FirstHolding(c: Input, k: nat)
    requires |c.files| >= 5
  {
    k < VICTIMS && Holding(c, k) && forall i: nat :: i < k ==> !Holding(c, i)
  }

  ghost predicate AllBare(c: Input)
    requires |c.files| >= 5
  {
    forall i: nat :: i < VICTIMS ==> !Holding(c, i)
  }

  // ---- The call never gets past the first record ----

  // Until it has returned, the call holds the lock and is at or before the first record of region k.
  ghost predicate BeforeRecord(c: Input, k: nat, m: Machine)
    requires |c.files| >= 5 && k < VICTIMS
  {
    match m.place
    case Entering => m.mu == Nobody
    case NextRegion(i) => m.mu == Cleaner && i <= k
    case Looping(i, at) => m.mu == Cleaner && i <= k && at == 4
    case Checking(i, at, _) => m.mu == Cleaner && i == k && at == 4
    case Relocking(i, at, _) => m.mu == Cleaner && i == k && at == 4
    case Appending(_, _, _) => false
    case Returned(ok) => !ok && ReadDecoded(c.d, c.decode, FileOf(Files(c), Dirty(c)[k]), 4).Err?
  }

  lemma StepBefore(c: Input, k: nat, m: Machine, move: Move)
    requires |c.files| >= 5 && FirstHolding(c, k) && BeforeRecord(c, k, m) && Step(c, m, move).Some?
    ensures BeforeRecord(c, k, Step(c, m, move).value)
  {
    hide ReadDecoded, IsValid, Lookup, Victims;
    if m.place.Looping? && m.place.i < k { assert !Holding(c, m.place.i); }
  }

  lemma {:induction false} RunBefore(c: Input, k: nat, index: Shards, now: nat, moves: seq<Move>)
    requires |c.files| >= 5 && FirstHolding(c, k) && Run(c, Start(index, now), moves).Some?
    ensures BeforeRecord(c, k, Run(c, Start(index, now), moves).value)
  {
    hide Step, FirstHolding;
    if moves != [] {
      hide BeforeRecord;
      var init := moves[..|moves| - 1];
      RunBefore(c, k, index, now, init);
      StepBefore(c, k, Run(c, Start(index, now), init).value, moves[|moves| - 1]);
    }
  }

  // ---- With no record in the way it returns ----

  lemma ReachStep(c: Input, m: Machine, m1: Machine, move: Move, m2: Machine)
    requires Reaches(c, m, m1) && Step(c, m1, move) == Some(m2)
    ensures Reaches(c, m, m2)
  {
    hide Step;
    var moves :| Run(c, m, moves) == Some(m1);
    assert (moves + [move])[..|moves|] == moves;
    assert Run(c, m, moves + [move]) == Some(m2);
  }

  lemma ReachStart(c: Input, m: Machine)
    ensures Reaches(c, m, m)
  {
    assert Run(c, m, []) == Some(m);
  }

  lemma {:induction false} BareRegions(c: Input, index: Shards, now: nat, i: nat)
    requires |c.files| >= 5 && AllBare(c) && i <= VICTIMS
    ensures Reaches(c, Start(index, now), Machine(NextRegion(i), Cleaner, index, now))
  {
    hide Reaches, Victims, ReadDecoded;
    var m := Start(index, now);
    if i == 0 {
      ReachStart(c, m);
      ReachStep(c, m, m, Clean, Machine(NextRegion(0), Cleaner, index, now));
    } else {
      BareRegions(c, index, now, i - 1);
      assert !Holding(c, i - 1);
      ReachStep(c, m, Machine(NextRegion(i - 1), Cleaner, index, now), Clean,
                Machine(Looping(i - 1, 4), Cleaner, index, now));
      ReachStep(c, m, Machine(Looping(i - 1, 4), Cleaner, index, now), Clean,
                Machine(NextRegion(i), Cleaner, index, now));
    }
  }

  lemma BareReturns(c: Input, index: Shards, now: nat)
    requires |c.files| < 5 || AllBare(c)
    ensures Reaches(c, Start(index, now), Machine(Returned(true), Nobody, index, now))
  {
    hide Reaches;
    var m := Start(index, now);
    if |c.files| < 5 {
      ReachStart(c, m);
      ReachStep(c, m, m, Clean, Machine(Returned(true), Nobody, index, now));
    } else {
      BareRegions(c, index, now, VICTIMS);
      ReachStep(c, m, Machine(NextRegion(VICTIMS), Cleaner, index, now), Clean,
                Machine(Returned(true), Nobody, index, now));
    }
  }

  lemma FirstExists(c: Input) returns (k: nat)
    requires |c.files| >= 5 && !AllBare(c)
    ensures FirstHolding(c, k)
  {
    hide Victims;
    var i: nat :| i < VICTIMS && Holding(c, i);
    k := 0;
    while !Holding(c, k)
      invariant k <= i && forall j: nat :: j < k ==> !Holding(c, j)
      decreases i - k
    {
      k := k + 1;
    }
  }

  // ---- Exactly when it returns ----

  // The call can return without error, whatever other threads do, exactly when there are fewer than five regions or the
  // four lowest hold no record.
  lemma ReturnsIff(c: Input, index: Shards, now: nat)
    ensures (exists m :: Reaches(c, Start(index, now), m) && m.place == Returned(true))
            <==> |c.files| < 5 || AllBare(c)
  {
    hide Reaches, AllBare, FirstHolding, BeforeRecord;
    if |c.files| < 5 || AllBare(c) {
      BareReturns(c, index, now);
    } else {
      var k := FirstExists(c);
      forall m | Reaches(c, Start(index, now), m) ensures m.place != Returned(true) {
        ReachesBefore(c, k, index, now, m);
      }
    }
  }

  lemma ReachesBefore(c: Input, k: nat, index: Shards, now: nat, m: Machine)
    requires |c.files| >= 5 && FirstHolding(c, k) && Reaches(c, Start(index, now), m)
    ensures BeforeRecord(c, k, m) && m.place != Returned(true)
  {
    var moves :| Run(c, Start(index, now), moves) == Some(m);
    hide FirstHolding;
    RunBefore(c, k, index, now, moves);
  }

  // Where a victim region holds a record and the first such record can be read, the call never returns, with or without
  // an error, and keeps the lock for good.
  lemma NeverReturns(c: Input, k: nat, index: Shards, now: nat, m: Machine)
    requires |c.files| >= 5 && FirstHolding(c, k)
    requires ReadDecoded(c.d, c.decode, FileOf(Files(c), Dirty(c)[k]), 4).Ok?
    requires Reaches(c, Start(index, now), m)
    ensures !m.place.Returned? && !m.place.Appending? && (m.place != Entering ==> m.mu == Cleaner)
  {
    hide FirstHolding, Reaches, Victims, ReadDecoded;
    ReachesBefore(c, k, index, now, m);
  }

  // ---- On the files of a store ----

  lemma {:induction false} BareFile(d: Digests, rs: seq<Segment>)
    ensures |Layout(d, rs)| <= 4 <==> rs == []
  {
  }

  lemma {:induction false} FirstReadable(d: Digests, decode: Decoder, rs: seq<Segment>)
    requires AllWellFormed(rs) && rs != [] && decode(rs[0].value).Some?
    ensures ReadDecoded(d, decode, Layout(d, rs), 4).Ok?
  {
    hide ReadRaw, Serialize, Layout;
    ReadRecord(d, rs, 0);
    FirstAtFour(d, rs);
  }

  lemma {:induction false} FirstAtFour(d: Digests, rs: seq<Segment>)
    ensures |Layout(d, rs[..0])| == 4
  {
  }

  lemma VictimFile(c: Input, s: State, recs: Records, i: nat)
    requires DiskOk(c.d, s, recs) && c.files == s.files && |c.files| >= 5 && |recs.Keys| >= 5 && i < VICTIMS
    ensures Dirty(c)[i] in recs && Dirty(c)[i] == Victims(recs.Keys)[i]
    ensures FileOf(Files(c), Dirty(c)[i]) == Layout(c.d, recs[Dirty(c)[i]]) && AllWellFormed(recs[Dirty(c)[i]])
    ensures Holding(c, i) <==> recs[Dirty(c)[i]] != []
  {
    hide Layout, Sorted;
    assert c.files.Keys == recs.Keys;
    VictimsAreLowest(recs.Keys, s.regionID);
    assert Victims(recs.Keys)[i] in Victims(recs.Keys);
    BareFile(c.d, recs[Dirty(c)[i]]);
  }

  // On the files of a store: the call returns exactly when there are fewer than five regions or nothing was ever
  // written to the four lowest.
  lemma WrittenCleanupReturns(c: Input, s: State, recs: Records, index: Shards, now: nat)
    requires DiskOk(c.d, s, recs) && c.files == s.files
    requires forall r, i :: r in recs && 0 <= i < |recs[r]| ==> c.decode(recs[r][i].value).Some?
    ensures (exists m :: Reaches(c, Start(index, now), m) && m.place.Returned?)
            <==> |recs| < 5 || forall v :: v in Victims(recs.Keys) ==> recs[v] == []
  {
    assert |c.files| == |c.files.Keys| && |recs| == |recs.Keys| && c.files.Keys == recs.Keys;
    if |recs| < 5 {
      BareReturns(c, index, now);
    } else {
      VictimsBare(c, s, recs);
      if AllBare(c) {
        BareReturns(c, index, now);
      } else {
        var k := FirstExists(c);
        VictimFile(c, s, recs, k);
        hide DiskOk, Reaches, Victims, AllWellFormed, Layout, AllBare;
        FirstReadable(c.d, c.decode, recs[Dirty(c)[k]]);
        forall m | Reaches(c, Start(index, now), m) ensures !m.place.Returned? {
          NeverReturns(c, k, index, now, m);
        }
      }
    }
  }

  lemma VictimsBare(c: Input, s: State, recs: Records)
    requires DiskOk(c.d, s, recs) && c.files == s.files && |c.files| >= 5 && |recs.Keys| >= 5
    ensures AllBare(c) <==> forall v :: v in Victims(recs.Keys) ==> recs[v] == []
  {
    hide DiskOk, Holding;
    forall i: nat | i < VICTIMS ensures Holding(c, i) <==> recs[Victims(recs.Keys)[i]] != [] {
      VictimFile(c, s, recs, i);
    }
    assert forall i :: 0 <= i < VICTIMS ==> Victims(recs.Keys)[i] in Victims(recs.Keys);
  }

  // ---- How the call is stuck ----

  // At a record, with nobody else running: if the record is live, the call waits for the lock it holds itself; if not,
  // it reads the same record again, and again.
  lemma {:induction false} StuckHow(c: Input, m: Machine)
    requires |c.files| >= 5 && m.mu == Cleaner && m.place.Checking? && m.place.i < VICTIMS
    requires var file := FileOf(Files(c), Dirty(c)[m.place.i]);
             m.place.at < |file| && ReadDecoded(c.d, c.decode, file, m.place.at) == Ok(m.place.seg)
    ensures var seg, node := m.place.seg, Lookup(m.index, c.d.inodeNum(m.place.seg.key));
            var live := && seg.tombstone != 1 && node.Some? && node.value.createdAt == seg.createdAt
                        && (seg.expiredAt == 0 || m.now < 1_000_000_000 * seg.expiredAt);
            if live then var m' := CleanStep(c, m); m'.Some? && m'.value.mu == Cleaner && CleanStep(c, m'.value).None?
            else Run(c, m, [Clean, Clean]) == Some(m)
  {
    hide ReadDecoded, Victims, Lookup;
    var moves := [Clean, Clean];
    assert moves[..1] == [Clean] && [Clean][..0] == [];
    assert Run(c, m, []) == Some(m);
    assert Run(c, m, [Clean]) == Step(c, m, Clean);
    var m1 := CleanStep(c, m);
    assert m1.Some?;
    assert Run(c, m, moves) == Step(c, m1.value, Clean);
  }
}
