// Which operations may run at the same time: with the bookkeeping of Interleaving, the mixes of puts, deletes and
// updates that always leave the offset right, and a failing schedule for every other mix.

module InterleavingMixes {
  import opened Wrappers
  import opened Bytes
  import opened Segments
  import opened RegionLog
  import opened Index
  import Store
  import opened Interleaving

  // The operations a run may invoke.
  datatype Mix = Mix(puts: bool, deletes: bool, updates: bool)

  predicate MayInvoke(mix: Mix, move: Move) {
    match move
    case Advance(_) => true
    case Invoke(_, op) =>
      (match op
       case Put(_, _) => mix.puts
       case Delete(_, _) => mix.deletes
       case Cas(_, _, _) => mix.updates)
  }

  ghost predicate Allowed(mix: Mix, moves: seq<Move>) {
    forall k :: 0 <= k < |moves| ==> MayInvoke(mix, moves[k])
  }

  predicate AtRest(s: State) {
    forall i :: 0 <= i < |s.tasks| ==> s.tasks[i].Idle?
  }

  // ---- Puts alone ----

  predicate PutTaskOk(c: Config, s: State, task: Task) {
    match task
    case Idle => true
    case PutAppend(_, _) => true
    case PutInsert(_, seg, _) => EndsWith(c, s, seg)
    case PutLoad(seg, _) => EndsWith(c, s, seg)
    case PutStore(seg, _, loaded) => EndsWith(c, s, seg) && loaded == s.offset
    case PutCheck => true
    case _ => false
  }

  predicate EndsWith(c: Config, s: State, seg: Segment) {
    var n := |Serialize(c.d, seg)|;
    n <= |s.file| && s.file[|s.file| - n..] == Serialize(c.d, seg)
  }

  // Only puts are under way; nothing is lost or late; the record of the put that holds the lock is the last one.
  ghost predicate OnlyPuts(c: Config, s: State) {
    s.lost == 0 && s.late == 0 && forall i :: 0 <= i < |s.tasks| ==> PutTaskOk(c, s, s.tasks[i])
  }

  lemma PutsOnlyStep(c: Config, s: State, move: Move)
    requires Accounted(s) && OnlyPuts(c, s) && Step(c, s, move).Some? && MayInvoke(Mix(true, false, false), move)
    ensures OnlyPuts(c, Step(c, s, move).value)
  {
    hide Ledger, Serialize;
    var i, s' := move.thread, Step(c, s, move).value;
    assert PutTaskOk(c, s, s.tasks[i]);
    forall j | 0 <= j < |s'.tasks| ensures PutTaskOk(c, s', s'.tasks[j]) {
      if j != i { assert PutTaskOk(c, s, s.tasks[j]) && (HoldsLock(s.tasks[j]) ==> s.mu == Some(j)); }
    }
  }

  lemma {:induction false} PutsOnlyRun(c: Config, s: State, moves: seq<Move>)
    requires Quiet(s) && Run(c, s, moves).Some? && Allowed(Mix(true, false, false), moves)
    ensures OnlyPuts(c, Run(c, s, moves).value)
  {
    hide Step, Accounted;
    if moves != [] {
      var init := moves[..|moves| - 1];
      PutsOnlyRun(c, s, init);
      RunCounts(c, s, init);
      hide Quiet, OnlyPuts, MayInvoke;
      PutsOnlyStep(c, Run(c, s, init).value, moves[|moves| - 1]);
    }
  }

  // Puts alone, in any interleaving and across region rolls: at rest the offset is the length of the file.
  lemma {:induction false} PutsKeepOffset(c: Config, s: State, moves: seq<Move>)
    requires Quiet(s) && Run(c, s, moves).Some? && Allowed(Mix(true, false, false), moves)
    ensures var s' := Run(c, s, moves).value;
            && s'.offset == |s'.file| - Uncounted(s'.tasks, s'.regionID)
            && (AtRest(s') ==> s'.offset == |s'.file|)
  {
    OffsetExact(c, s, moves);
    PutsOnlyRun(c, s, moves);
    hide Run, Quiet, Uncounted, Allowed;
  }

  // And the inode a put is about to store points at the very record it has written.
  lemma {:induction false} PutPointsAtRecord(c: Config, s: State, moves: seq<Move>, i: nat)
    requires Quiet(s) && Run(c, s, moves).Some? && Allowed(Mix(true, false, false), moves)
    requires i < |Run(c, s, moves).value.tasks| && Run(c, s, moves).value.tasks[i].PutInsert?
    ensures var s', seg := Run(c, s, moves).value, Run(c, s, moves).value.tasks[i].seg;
            s'.offset + |Serialize(c.d, seg)| == |s'.file| && s'.file[s'.offset..] == Serialize(c.d, seg)
  {
    PutsKeepOffset(c, s, moves);
    PutsOnlyRun(c, s, moves);
    RunCounts(c, s, moves);
    var s' := Run(c, s, moves).value;
    hide Run, Quiet, Allowed, Ledger, Serialize, Uncounted;
    assert PutTaskOk(c, s', s'.tasks[i]) && TaskOk(s'.tasks[i], s'.regionID);
    forall j | 0 <= j < |s'.tasks| && j != i ensures Pending(s'.tasks[j], s'.regionID) == 0 {
      assert PutTaskOk(c, s', s'.tasks[j]) && (HoldsLock(s'.tasks[j]) ==> s'.mu == Some(j));
      assert HoldsLock(s'.tasks[i]) && s'.mu == Some(i);
    }
    OnePending(s'.tasks, i, s'.regionID);
    var seg := s'.tasks[i].seg;
    SizeOf(c, seg);
    assert EndsWith(c, s', seg);
  }

  lemma SizeOf(c: Config, seg: Segment)
    requires seg.WellFormed()
    ensures |Serialize(c.d, seg)| == seg.Size()
  {
  }

  // All other threads have nothing pending exactly when what is uncounted is this thread's.
  lemma {:induction false} OnePending(tasks: seq<Task>, i: nat, rid: nat)
    requires i < |tasks|
    ensures Uncounted(tasks, rid) == Pending(tasks[i], rid)
            <==> forall j :: 0 <= j < |tasks| && j != i ==> Pending(tasks[j], rid) == 0
  {
    UncountedUpdate(tasks, i, Idle, rid);
    var others := tasks[i := Idle];
    hide Pending, Uncounted;
    assert Pending(Idle, rid) == 0 by { IdlePending(rid); }
    if forall j :: 0 <= j < |tasks| && j != i ==> Pending(tasks[j], rid) == 0 {
      NothingUncounted(others, rid);
    }
    if Uncounted(others, rid) == 0 {
      forall j | 0 <= j < |tasks| && j != i ensures Pending(tasks[j], rid) == 0 {
        UncountedAtLeast(others, j, rid);
      }
    }
  }

  lemma IdlePending(rid: nat)
    ensures Pending(Idle, rid) == 0
  {
  }

  lemma {:induction false} UncountedAtLeast(tasks: seq<Task>, j: nat, rid: nat)
    requires j < |tasks|
    ensures Pending(tasks[j], rid) <= Uncounted(tasks, rid)
  {
    hide Pending;
    if j < |tasks| - 1 {
      UncountedAtLeast(tasks[..|tasks| - 1], j, rid);
    }
  }

  // ---- Deletes alone ----

  predicate DeleteTaskOnly(task: Task) {
    task.Idle? || task.DelAppend? || task.DelCount? || task.DelRemove?
  }

  ghost predicate OnlyDeletes(rid: nat, s: State) {
    s.regionID == rid && forall i :: 0 <= i < |s.tasks| ==> DeleteTaskOnly(s.tasks[i])
  }

  lemma DeletesOnlyStep(c: Config, rid: nat, s: State, move: Move)
    requires OnlyDeletes(rid, s) && Step(c, s, move).Some? && MayInvoke(Mix(false, true, false), move)
    ensures OnlyDeletes(rid, Step(c, s, move).value)
  {
    hide Serialize;
    assert DeleteTaskOnly(s.tasks[move.thread]);
  }

  lemma {:induction false} DeletesOnlyRun(c: Config, s: State, moves: seq<Move>)
    requires Quiet(s) && Run(c, s, moves).Some? && Allowed(Mix(false, true, false), moves)
    ensures OnlyDeletes(s.regionID, Run(c, s, moves).value)
  {
    hide Step;
    if moves != [] {
      var init := moves[..|moves| - 1];
      DeletesOnlyRun(c, s, init);
      hide Quiet, OnlyDeletes, MayInvoke;
      DeletesOnlyStep(c, s.regionID, Run(c, s, init).value, moves[|moves| - 1]);
    }
  }

  // ---- An update's position ----

  // Deletes and updates within a region: if nothing was appended after an update's record, the position it stores is
  // where the record begins exactly when no other record is appended but not yet counted.
  lemma {:induction false} PositionRightIff(c: Config, s: State, moves: seq<Move>, i: nat)
    requires Quiet(s) && Run(c, s, moves).Some? && NoPuts(moves) && Run(c, s, moves).value.regionID == s.regionID
    requires var s' := Run(c, s, moves).value;
             i < |s'.tasks| && s'.tasks[i].CasLoad? && s'.tasks[i].start + s'.tasks[i].seg.Size() == |s'.file|
    ensures var s' := Run(c, s, moves).value;
            var s'' := Step(c, s', Advance(i));
            && s''.Some? && s''.value.tasks[i].CasStore?
            && (s''.value.tasks[i].position == s'.tasks[i].start
                <==> forall j :: 0 <= j < |s'.tasks| && j != i ==> Pending(s'.tasks[j], s'.regionID) == 0)
  {
    hide Quiet, Uncounted, NoPuts, Step, Ledger;
    PositionIff(c, s, moves, i);
    RunClean(c, s, moves);
    RunCounts(c, s, moves);
    hide Run;
    var s' := Run(c, s, moves).value;
    assert Since(s'.tasks[i], s.regionID) && TaskOk(s'.tasks[i], s'.regionID);
    OnePending(s'.tasks, i, s'.regionID);
  }

  // ---- Schedules of two threads ----

  // Threads 0 and 1 of s0 at these tasks, thread i at a, the other at b; all others as in s0.
  function At(s0: State, i: nat, a: Task, b: Task): seq<Task>
    requires |s0.tasks| >= 2 && i < 2
  {
    if i == 0 then s0.tasks[0 := a][1 := b] else s0.tasks[0 := b][1 := a]
  }

  // After these moves of the mix the threads are there.
  ghost predicate After(c: Config, mix: Mix, s0: State, moves: seq<Move>, s: State) {
    Run(c, s0, moves) == Some(s) && Allowed(mix, moves)
  }

  lemma Then(c: Config, mix: Mix, s0: State, moves: seq<Move>, s: State, move: Move, s': State)
    requires After(c, mix, s0, moves, s) && Step(c, s, move) == Some(s') && MayInvoke(mix, move)
    ensures After(c, mix, s0, moves + [move], s')
  {
    hide Step, MayInvoke;
    assert (moves + [move])[..|moves|] == moves;
  }

  lemma AtMoves(s0: State, i: nat, a: Task, b: Task, a': Task)
    requires |s0.tasks| >= 2 && i < 2
    ensures At(s0, i, a, b)[i := a'] == At(s0, i, a', b)
    ensures At(s0, i, a, b)[i] == a && |At(s0, i, a, b)| == |s0.tasks|
    ensures At(s0, i, a, b) == At(s0, 1 - i, b, a)
  {
  }

  lemma Act(c: Config, mix: Mix, s0: State, moves: seq<Move>, s: State, i: nat, s': State)
    requires i < |s.tasks| && After(c, mix, s0, moves, s) && AdvanceTask(c, s, i) == Some(s')
    ensures After(c, mix, s0, moves + [Advance(i)], s')
  {
    hide AdvanceTask;
    Then(c, mix, s0, moves, s, Advance(i), s');
  }

  lemma AtStart(c: Config, mix: Mix, s: State, a: Op, b: Op) returns (moves: seq<Move>)
    requires Quiet(s) && |s.tasks| >= 2 && OpWellFormed(a) && OpWellFormed(b)
    requires MayInvoke(mix, Invoke(0, a)) && MayInvoke(mix, Invoke(1, b))
    ensures After(c, mix, s, moves, s.(tasks := At(s, 0, Begin(a), Begin(b))))
  {
    assert After(c, mix, s, [], s);
    Then(c, mix, s, [], s, Invoke(0, a), s.(tasks := s.tasks[0 := Begin(a)]));
    Then(c, mix, s, [] + [Invoke(0, a)], s.(tasks := s.tasks[0 := Begin(a)]), Invoke(1, b),
         s.(tasks := At(s, 0, Begin(a), Begin(b))));
    moves := [] + [Invoke(0, a)] + [Invoke(1, b)];
  }

  lemma AtIdle(s: State)
    requires Quiet(s) && |s.tasks| >= 2
    ensures forall i :: 0 <= i < |s.tasks| ==> At(s, 0, Idle, Idle)[i].Idle?
    ensures |At(s, 0, Idle, Idle)| == |s.tasks|
  {
  }

  // Everything but the tasks, the file and the offset is as it was, and there is as much in the heap.
  predicate Alike(s: State, s': State) {
    && s'.regionID == s.regionID && s'.mu == s.mu && s'.late == s.late && s'.lost == s.lost
    && |s'.heap| == |s.heap| && |s'.won| == |s.won|
  }

  predicate Free(c: Config, s: State, seg: Segment) {
    s.mu.None? && seg.WellFormed() && |s.file| + seg.Size() <= Store.MAX_FILE && |s.won| == |s.heap|
  }

  // An update looks its inode up, wins its version and appends its record.
  lemma UpdateAppends(c: Config, mix: Mix, s0: State, moves: seq<Move>, s: State, i: nat, h: uint64, v: uint64,
                      seg: Segment, b: Task)
    returns (moves': seq<Move>, s': State)
    requires |s0.tasks| >= 2 && i < 2 && After(c, mix, s0, moves, s) && Free(c, s, seg)
    requires s.tasks == At(s0, i, CasLookup(h, v, seg), b)
    requires h in s.index && s.index[h] < |s.heap| && s.heap[s.index[h]].mvcc == v
    ensures After(c, mix, s0, moves', s') && Alike(s, s') && s'.index == s.index && s'.offset == s.offset
    ensures s'.tasks == At(s0, i, CasLoad(s.index[h], seg, s.regionID, |s.file|), b)
    ensures s'.file == s.file + Serialize(c.d, seg) && s'.heap[s.index[h]].mvcc == (v + 1) % U64
  {
    hide After, At;
    SizeOf(c, seg);
    hide Serialize;
    var o := s.index[h];
    var lookup, swap, add := CasLookup(h, v, seg), CasSwap(o, v, seg), CasAppend(o, seg);
    AtMoves(s0, i, lookup, b, swap);
    var s1 := s.(tasks := At(s0, i, swap, b));
    Act(c, mix, s0, moves, s, i, s1);
    AtMoves(s0, i, swap, b, add);
    var s2 := s1.(tasks := At(s0, i, add, b), heap := s.heap[o := s.heap[o].(mvcc := (v + 1) % U64)],
                  won := s.won[o := s.won[o] + [v]]);
    Act(c, mix, s0, moves + [Advance(i)], s1, i, s2);
    var load := CasLoad(o, seg, s.regionID, |s.file|);
    AtMoves(s0, i, add, b, load);
    s' := s2.(tasks := At(s0, i, load, b), file := s.file + Serialize(c.d, seg));
    moves' := moves + [Advance(i)] + [Advance(i)] + [Advance(i)];
    Act(c, mix, s0, moves + [Advance(i)] + [Advance(i)], s2, i, s');
  }

  // The five stores of an update, one after the other.
  lemma {:induction false} Stores(c: Config, mix: Mix, s0: State, moves: seq<Move>, s: State, i: nat, o: nat,
                                  seg: Segment, rid: nat, start: nat, position: uint64, field: nat, b: Task)
    returns (moves': seq<Move>, s': State)
    requires |s0.tasks| >= 2 && i < 2 && After(c, mix, s0, moves, s) && field < 5 && o < |s.heap|
    requires s.tasks == At(s0, i, CasStore(o, seg, rid, start, position, field), b)
    requires field > 0 ==> s.heap[o].position == position
    ensures After(c, mix, s0, moves', s') && s'.tasks == At(s0, i, CasCount(seg, rid), b) && Alike(s, s')
    ensures s'.heap[o].position == position && s'.file == s.file && s'.offset == s.offset && s'.index == s.index
    decreases 5 - field
  {
    hide After, At;
    var task := CasStore(o, seg, rid, start, position, field);
    var next := if field < 4 then CasStore(o, seg, rid, start, position, field + 1) else CasCount(seg, rid);
    AtMoves(s0, i, task, b, next);
    var s1 := s.(tasks := At(s0, i, next, b), heap := s.heap[o := StoreField(s, s.heap[o], seg, position, field)]);
    Act(c, mix, s0, moves, s, i, s1);
    moves', s' := moves + [Advance(i)], s1;
    if field < 4 {
      moves', s' := Stores(c, mix, s0, moves', s1, i, o, seg, rid, start, position, field + 1, b);
    }
  }

  // An update stores its fields and counts its record.
  lemma UpdateCounts(c: Config, mix: Mix, s0: State, moves: seq<Move>, s: State, i: nat, o: nat, seg: Segment, rid: nat,
                     start: nat, b: Task)
    returns (moves': seq<Move>, s': State)
    requires |s0.tasks| >= 2 && i < 2 && After(c, mix, s0, moves, s) && o < |s.heap|
    requires s.tasks == At(s0, i, CasLoad(o, seg, rid, start), b)
    ensures After(c, mix, s0, moves', s') && s'.tasks == At(s0, i, CasCheck, b)
    ensures s'.heap != [] && o < |s'.heap| && s'.heap[o].position == s.offset && s'.index == s.index
    ensures s'.file == s.file && s'.offset == (s.offset + seg.Size()) % U64 && s'.mu == s.mu
    ensures s'.regionID == s.regionID && |s'.heap| == |s.heap| && |s'.won| == |s.won|
  {
    hide After, At;
    var load, store := CasLoad(o, seg, rid, start), CasStore(o, seg, rid, start, s.offset, 0);
    AtMoves(s0, i, load, b, store);
    var s1 := s.(tasks := At(s0, i, store, b));
    Act(c, mix, s0, moves, s, i, s1);
    var s2;
    moves', s2 := Stores(c, mix, s0, moves + [Advance(i)], s1, i, o, seg, rid, start, s.offset, 0, b);
    AtMoves(s0, i, CasCount(seg, rid), b, CasCheck);
    s' := Count(s2, seg, rid).(tasks := At(s0, i, CasCheck, b));
    Act(c, mix, s0, moves', s2, i, s');
    moves' := moves' + [Advance(i)];
  }

  // Below the threshold an update is done; at it, it starts a region.
  lemma UpdateEnds(c: Config, mix: Mix, s0: State, moves: seq<Move>, s: State, i: nat, b: Task)
    returns (moves': seq<Move>, s': State)
    requires |s0.tasks| >= 2 && i < 2 && After(c, mix, s0, moves, s) && s.tasks == At(s0, i, CasCheck, b)
    requires s.offset >= c.threshold ==> s.mu.None?
    ensures After(c, mix, s0, moves', s')
    ensures s' == (if s.offset >= c.threshold then Roll(s) else s).(tasks := At(s0, i, Idle, b))
  {
    hide After, At;
    if s.offset >= c.threshold {
      AtMoves(s0, i, CasCheck, b, CasCreate);
      var s1 := s.(tasks := At(s0, i, CasCreate, b));
      Act(c, mix, s0, moves, s, i, s1);
      AtMoves(s0, i, CasCreate, b, Idle);
      s' := Roll(s).(tasks := At(s0, i, Idle, b));
      Act(c, mix, s0, moves + [Advance(i)], s1, i, s');
      moves' := moves + [Advance(i)] + [Advance(i)];
    } else {
      AtMoves(s0, i, CasCheck, b, Idle);
      s' := s.(tasks := At(s0, i, Idle, b));
      Act(c, mix, s0, moves, s, i, s');
      moves' := moves + [Advance(i)];
    }
  }

  lemma DeleteAppends(c: Config, mix: Mix, s0: State, moves: seq<Move>, s: State, i: nat, g: uint64, seg: Segment,
                      b: Task)
    returns (moves': seq<Move>, s': State)
    requires |s0.tasks| >= 2 && i < 2 && After(c, mix, s0, moves, s) && Free(c, s, seg)
    requires s.tasks == At(s0, i, DelAppend(g, seg), b)
    ensures After(c, mix, s0, moves', s')
    ensures s' == s.(file := s.file + Serialize(c.d, seg), tasks := At(s0, i, DelCount(g, seg, s.regionID), b))
  {
    hide After, At;
    SizeOf(c, seg);
    hide Serialize;
    AtMoves(s0, i, DelAppend(g, seg), b, DelCount(g, seg, s.regionID));
    s' := s.(file := s.file + Serialize(c.d, seg), tasks := At(s0, i, DelCount(g, seg, s.regionID), b));
    moves' := moves + [Advance(i)];
    Act(c, mix, s0, moves, s, i, s');
  }

  lemma DeleteEnds(c: Config, mix: Mix, s0: State, moves: seq<Move>, s: State, i: nat, g: uint64, seg: Segment,
                   rid: nat, b: Task)
    returns (moves': seq<Move>, s': State)
    requires |s0.tasks| >= 2 && i < 2 && After(c, mix, s0, moves, s)
    requires s.tasks == At(s0, i, DelCount(g, seg, rid), b)
    ensures After(c, mix, s0, moves', s')
    ensures s' == Count(s, seg, rid).(index := s.index - {g}, tasks := At(s0, i, Idle, b))
  {
    hide After, At;
    AtMoves(s0, i, DelCount(g, seg, rid), b, DelRemove(g));
    var s1 := Count(s, seg, rid).(tasks := At(s0, i, DelRemove(g), b));
    Act(c, mix, s0, moves, s, i, s1);
    AtMoves(s0, i, DelRemove(g), b, Idle);
    s' := s1.(index := s.index - {g}, tasks := At(s0, i, Idle, b));
    Act(c, mix, s0, moves + [Advance(i)], s1, i, s');
    moves' := moves + [Advance(i)] + [Advance(i)];
  }

  // A put takes the lock, appends, inserts its inode and loads the offset.
  lemma PutLoads(c: Config, mix: Mix, s0: State, moves: seq<Move>, s: State, i: nat, h: uint64, seg: Segment, b: Task)
    returns (moves': seq<Move>, s': State)
    requires |s0.tasks| >= 2 && i < 2 && After(c, mix, s0, moves, s) && Free(c, s, seg)
    requires s.tasks == At(s0, i, PutAppend(h, seg), b)
    ensures After(c, mix, s0, moves', s') && s'.tasks == At(s0, i, PutStore(seg, s.regionID, s.offset), b)
    ensures s'.file == s.file + Serialize(c.d, seg) && s'.offset == s.offset && s'.mu == Some(i)
    ensures s'.regionID == s.regionID && |s'.heap| == |s.heap| + 1 && |s'.won| == |s.won| + 1
    ensures forall o :: 0 <= o < |s.heap| ==> s'.heap[o] == s.heap[o]
  {
    hide After, At;
    SizeOf(c, seg);
    hide Serialize;
    var put, insert, load := PutAppend(h, seg), PutInsert(h, seg, s.regionID), PutLoad(seg, s.regionID);
    var store := PutStore(seg, s.regionID, s.offset);
    AtMoves(s0, i, put, b, insert);
    var s1 := s.(tasks := At(s0, i, insert, b), mu := Some(i), file := s.file + Serialize(c.d, seg));
    Act(c, mix, s0, moves, s, i, s1);
    AtMoves(s0, i, insert, b, load);
    var s2 := PutTask(c, s1, i).value;
    Act(c, mix, s0, moves + [Advance(i)], s1, i, s2);
    AtMoves(s0, i, load, b, store);
    s' := s2.(tasks := At(s0, i, store, b));
    Act(c, mix, s0, moves + [Advance(i)] + [Advance(i)], s2, i, s');
    moves' := moves + [Advance(i)] + [Advance(i)] + [Advance(i)];
  }

  // It stores the sum, whatever the offset has become, and ends below the threshold.
  lemma PutEnds(c: Config, mix: Mix, s0: State, moves: seq<Move>, s: State, i: nat, seg: Segment, rid: nat,
                loaded: uint64, b: Task)
    returns (moves': seq<Move>, s': State)
    requires |s0.tasks| >= 2 && i < 2 && After(c, mix, s0, moves, s)
    requires s.tasks == At(s0, i, PutStore(seg, rid, loaded), b) && loaded + seg.Size() < c.threshold
             && loaded + seg.Size() < U64
    ensures After(c, mix, s0, moves', s') && s'.tasks == At(s0, i, Idle, b) && s'.mu.None?
    ensures s'.offset == loaded + seg.Size() && s'.file == s.file && s'.regionID == s.regionID
  {
    hide After, At;
    AtMoves(s0, i, PutStore(seg, rid, loaded), b, PutCheck);
    var s1 := s.(tasks := At(s0, i, PutCheck, b), offset := loaded + seg.Size(), lost := s.lost + s.offset - loaded);
    Act(c, mix, s0, moves, s, i, s1);
    AtMoves(s0, i, PutCheck, b, Idle);
    s' := s1.(tasks := At(s0, i, Idle, b), mu := None);
    Act(c, mix, s0, moves + [Advance(i)], s1, i, s');
    moves' := moves + [Advance(i)] + [Advance(i)];
  }

  // ---- Failing schedules ----

  predicate BothFit(c: Config, s: State, a: Segment, b: Segment) {
    && a.WellFormed() && b.WellFormed()
    && |s.file| + a.Size() + b.Size() <= Store.MAX_FILE && s.offset + a.Size() + b.Size() < c.threshold
  }

  // A put and a delete can end, all at rest, with the offset short of the tombstone: the put overwrites its count.
  lemma PutLosesDelete(c: Config, s: State, h: uint64, seg: Segment, g: uint64, tombstone: Segment)
    returns (moves: seq<Move>, s': State)
    requires Quiet(s) && |s.tasks| >= 2 && BothFit(c, s, seg, tombstone)
    ensures After(c, Mix(true, true, false), s, moves, s') && AtRest(s') && s'.regionID == s.regionID
    ensures s'.offset + tombstone.Size() == |s'.file|
  {
    var mix := Mix(true, true, false);
    SizeOf(c, seg);
    SizeOf(c, tombstone);
    hide After, Serialize, At;
    AtMoves(s, 0, PutAppend(h, seg), DelAppend(g, tombstone), Idle);
    moves := AtStart(c, mix, s, Put(h, seg), Delete(g, tombstone));
    var s0 := s.(tasks := At(s, 0, PutAppend(h, seg), DelAppend(g, tombstone)));
    var s1, s2, s3;
    moves, s1 := DeleteAppends(c, mix, s, moves, s0, 1, g, tombstone, PutAppend(h, seg));
    var counted := DelCount(g, tombstone, s.regionID);
    AtMoves(s, 0, PutAppend(h, seg), counted, Idle);
    moves, s2 := PutLoads(c, mix, s, moves, s1, 0, h, seg, counted);
    var store := PutStore(seg, s.regionID, s.offset);
    AtMoves(s, 0, store, counted, Idle);
    moves, s3 := DeleteEnds(c, mix, s, moves, s2, 1, g, tombstone, s.regionID, store);
    AtMoves(s, 0, store, Idle, Idle);
    moves, s' := PutEnds(c, mix, s, moves, s3, 0, seg, s.regionID, s.offset, Idle);
    AtIdle(s);
  }

  // So can a put and an update.
  lemma PutLosesUpdate(c: Config, s: State, h: uint64, seg: Segment, k: uint64, update: Segment)
    returns (moves: seq<Move>, s': State)
    requires Quiet(s) && |s.tasks| >= 2 && BothFit(c, s, seg, update) && k in s.index
    ensures After(c, Mix(true, false, true), s, moves, s') && AtRest(s') && s'.regionID == s.regionID
    ensures s'.offset + update.Size() == |s'.file|
  {
    var mix := Mix(true, false, true);
    SizeOf(c, seg);
    SizeOf(c, update);
    hide After, Serialize, At;
    var put, lookup := PutAppend(h, seg), CasLookup(k, 0, update);
    AtMoves(s, 0, put, lookup, Idle);
    moves := AtStart(c, mix, s, Put(h, seg), Cas(k, 0, update));
    var s0 := s.(tasks := At(s, 0, put, lookup));
    var s1, s2, s3, s4;
    moves, s1 := UpdateAppends(c, mix, s, moves, s0, 1, k, 0, update, put);
    var load := CasLoad(s.index[k], update, s.regionID, |s.file|);
    AtMoves(s, 0, put, load, Idle);
    moves, s2 := PutLoads(c, mix, s, moves, s1, 0, h, seg, load);
    var store := PutStore(seg, s.regionID, s.offset);
    AtMoves(s, 0, store, load, Idle);
    moves, s3 := UpdateCounts(c, mix, s, moves, s2, 1, s.index[k], update, s.regionID, |s.file|, store);
    AtMoves(s, 0, store, CasCheck, Idle);
    moves, s4 := PutEnds(c, mix, s, moves, s3, 0, seg, s.regionID, s.offset, CasCheck);
    AtMoves(s, 0, Idle, CasCheck, Idle);
    moves, s' := UpdateEnds(c, mix, s, moves, s4, 1, Idle);
    AtMoves(s, 0, Idle, Idle, Idle);
    AtIdle(s);
  }

  // Two updates of a key can both succeed and end with the offset past the end of a new region: the record of the
  // second is counted after the first has started the region.
  lemma UpdateCountedLate(c: Config, s: State, k: uint64, a: Segment, b: Segment)
    returns (moves: seq<Move>, s': State)
    requires Quiet(s) && |s.tasks| >= 2 && k in s.index && a.WellFormed() && b.WellFormed()
    requires |s.file| + a.Size() + b.Size() <= Store.MAX_FILE && 4 + b.Size() < c.threshold <= s.offset + a.Size()
    ensures After(c, Mix(false, false, true), s, moves, s') && AtRest(s')
    ensures s'.file == MAGIC && s'.offset == 4 + b.Size()
  {
    var mix := Mix(false, false, true);
    hide After, At, Roll, Quiet;
    QuietFacts(s, k);
    var s2, s3, s4;
    moves, s2 := BothAppend(c, mix, s, k, a, b);
    var o := s.index[k];
    var load' := CasLoad(o, b, s.regionID, |s.file| + a.Size());
    moves, s3 := UpdateCounts(c, mix, s, moves, s2, 0, o, a, s.regionID, |s.file|, load');
    assert s3.offset == s.offset + a.Size();
    moves, s4 := UpdateEnds(c, mix, s, moves, s3, 0, load');
    AtMoves(s, 0, Idle, load', Idle);
    Rolled(s3);
    moves, s' := LateEnd(c, mix, s, moves, s4, o, b, s.regionID, |s.file| + a.Size());
  }

  lemma Rolled(s: State)
    ensures Roll(s).file == MAGIC && Roll(s).offset == 4 && Roll(s).heap == s.heap
  {
  }

  lemma QuietFacts(s: State, k: uint64)
    requires Quiet(s)
    ensures s.mu.None? && |s.won| == |s.heap| && s.offset == |s.file| <= Store.MAX_FILE
    ensures k in s.index ==> s.index[k] < |s.heap| && s.heap[s.index[k]].mvcc == 0
  {
  }

  lemma MayUpdate(mix: Mix, k: uint64, a: Segment, b: Segment)
    requires mix.updates && a.WellFormed() && b.WellFormed()
    ensures MayInvoke(mix, Invoke(0, Cas(k, 0, a))) && MayInvoke(mix, Invoke(1, Cas(k, 1, b)))
    ensures OpWellFormed(Cas(k, 0, a)) && OpWellFormed(Cas(k, 1, b))
  {
  }

  // Room for both records at rest is room for each in turn.
  lemma FreeBoth(c: Config, s: State, a: Segment, b: Segment)
    requires Quiet(s) && a.WellFormed() && b.WellFormed() && |s.file| + a.Size() + b.Size() <= Store.MAX_FILE
    ensures forall tasks :: Free(c, s.(tasks := tasks), a)
  {
  }

  lemma FreeNext(c: Config, s0: State, s1: State, a: Segment, b: Segment)
    requires Free(c, s0, a) && Alike(s0, s1) && s1.file == s0.file + Serialize(c.d, a) && b.WellFormed()
    requires |s0.file| + a.Size() + b.Size() <= Store.MAX_FILE
    ensures Free(c, s1, b) && |s1.file| == |s0.file| + a.Size() && |s1.heap| == |s0.heap|
    ensures s1.regionID == s0.regionID
  {
    SizeOf(c, a);
  }

  lemma AlikeTrans(s: State, s1: State, s2: State)
    requires Alike(s, s1) && Alike(s1, s2)
    ensures Alike(s, s2)
  {
  }

  lemma AlikeTasks(s: State, tasks: seq<Task>)
    ensures Alike(s, s.(tasks := tasks))
  {
  }

  // Two updates of one key have both appended and not counted.
  lemma BothAppend(c: Config, mix: Mix, s: State, k: uint64, a: Segment, b: Segment)
    returns (moves: seq<Move>, s2: State)
    requires Quiet(s) && |s.tasks| >= 2 && k in s.index && a.WellFormed() && b.WellFormed() && mix.updates
    requires |s.file| + a.Size() + b.Size() <= Store.MAX_FILE
    ensures k in s.index && s.index[k] < |s.heap| && After(c, mix, s, moves, s2) && Alike(s, s2)
            && s2.offset == s.offset
    ensures s2.tasks == At(s, 0, CasLoad(s.index[k], a, s.regionID, |s.file|),
                           CasLoad(s.index[k], b, s.regionID, |s.file| + a.Size()))
  {
    hide After, Serialize, At, Quiet, Free, OpWellFormed, MayInvoke, Alike;
    QuietFacts(s, k);
    MayUpdate(mix, k, a, b);
    FreeBoth(c, s, a, b);
    var first, second := CasLookup(k, 0, a), CasLookup(k, 1, b);
    AtMoves(s, 0, first, second, Idle);
    moves := AtStart(c, mix, s, Cas(k, 0, a), Cas(k, 1, b));
    var s1;
    var s0 := s.(tasks := At(s, 0, first, second));
    moves, s1 := UpdateAppends(c, mix, s, moves, s0, 0, k, 0, a, second);
    FreeNext(c, s0, s1, a, b);
    var load := CasLoad(s.index[k], a, s.regionID, |s.file|);
    AtMoves(s, 0, load, second, Idle);
    moves, s2 := UpdateAppends(c, mix, s, moves, s1, 1, k, 1, b, load);
    AtMoves(s, 1, CasLoad(s.index[k], b, s.regionID, |s.file| + a.Size()), load, Idle);
    AlikeTasks(s, At(s, 0, first, second));
    AlikeTrans(s, s0, s1);
    AlikeTrans(s, s1, s2);
  }

  lemma LateEnd(c: Config, mix: Mix, s0: State, moves: seq<Move>, s: State, o: nat, b: Segment, rid: nat, start: nat)
    returns (moves': seq<Move>, s': State)
    requires Quiet(s0) && |s0.tasks| >= 2 && After(c, mix, s0, moves, s) && o < |s.heap|
    requires s.tasks == At(s0, 1, CasLoad(o, b, rid, start), Idle)
    requires s.offset == 4 && s.file == MAGIC && 4 + b.Size() < c.threshold && b.WellFormed()
    ensures After(c, mix, s0, moves', s') && AtRest(s') && s'.file == MAGIC && s'.offset == 4 + b.Size()
  {
    hide After, At;
    var s1;
    moves', s1 := UpdateCounts(c, mix, s0, moves, s, 1, o, b, rid, start, Idle);
    moves', s' := UpdateEnds(c, mix, s0, moves', s1, 1, Idle);
    AtMoves(s0, 0, Idle, Idle, Idle);
    AtIdle(s0);
  }

  // An update and a delete of another key can both succeed and leave the updated key's inode at the tombstone.
  lemma UpdateMisplaced(c: Config, s: State, h: uint64, seg: Segment, g: uint64, tombstone: Segment)
    returns (moves: seq<Move>, s': State)
    requires Quiet(s) && |s.tasks| >= 2 && BothFit(c, s, seg, tombstone) && h in s.index && g != h
    ensures After(c, Mix(false, true, true), s, moves, s') && AtRest(s')
    ensures s'.offset == |s'.file| && h in s'.index && s'.index[h] < |s'.heap|
    ensures ReadRaw(c.d, s'.file, s'.heap[s'.index[h]].position) == Ok(tombstone)
  {
    var mix := Mix(false, true, true);
    hide After, Serialize, At, ReadRaw, Quiet;
    QuietFacts(s, h);
    var o, s2, s3, s4 := s.index[h], s, s, s;
    moves, s2 := AppendsAfter(c, mix, s, h, seg, g, tombstone);
    var counted := DelCount(g, tombstone, s.regionID);
    moves, s3 := UpdateCounts(c, mix, s, moves, s2, 0, o, seg, s.regionID, |s.file| + tombstone.Size(), counted);
    assert s3.offset == s.offset + seg.Size();
    moves, s4 := UpdateEnds(c, mix, s, moves, s3, 0, counted);
    AtMoves(s, 0, Idle, counted, Idle);
    moves, s' := DeleteEnds(c, mix, s, moves, s4, 1, g, tombstone, s.regionID, Idle);
    AtMoves(s, 0, Idle, Idle, Idle);
    AtIdle(s);
    TwoSizes(c, s.file, tombstone, seg);
    hide BothFit;
    ReadBack(c.d, s.file, tombstone, Serialize(c.d, seg));
  }

  lemma TwoSizes(c: Config, file: seq<byte>, a: Segment, b: Segment)
    requires a.WellFormed() && b.WellFormed()
    ensures |file + Serialize(c.d, a) + Serialize(c.d, b)| == |file| + a.Size() + b.Size()
  {
    SizeOf(c, a);
    SizeOf(c, b);
  }

  // An update has appended its record after another thread's uncounted tombstone.
  lemma AppendsAfter(c: Config, mix: Mix, s: State, h: uint64, seg: Segment, g: uint64, tombstone: Segment)
    returns (moves: seq<Move>, s2: State)
    requires Quiet(s) && |s.tasks| >= 2 && BothFit(c, s, seg, tombstone) && h in s.index && mix.deletes && mix.updates
    ensures s.index[h] < |s.heap| && After(c, mix, s, moves, s2) && Alike(s, s2) && s2.offset == s.offset
    ensures s2.index == s.index && s2.file == s.file + Serialize(c.d, tombstone) + Serialize(c.d, seg)
    ensures s2.tasks == At(s, 0, CasLoad(s.index[h], seg, s.regionID, |s.file| + tombstone.Size()),
                           DelCount(g, tombstone, s.regionID))
  {
    hide After, Serialize, At, Quiet, Free, OpWellFormed, MayInvoke, Alike;
    QuietFacts(s, h);
    MayBoth(mix, h, seg, g, tombstone);
    FreeBoth(c, s, tombstone, seg);
    var lookup, del := CasLookup(h, 0, seg), DelAppend(g, tombstone);
    AtMoves(s, 0, lookup, del, Idle);
    moves := AtStart(c, mix, s, Cas(h, 0, seg), Delete(g, tombstone));
    var s0, s1 := s.(tasks := At(s, 0, lookup, del)), s;
    moves, s1 := DeleteAppends(c, mix, s, moves, s0, 1, g, tombstone, lookup);
    AlikeFile(s0, s1);
    FreeNext(c, s0, s1, tombstone, seg);
    var counted := DelCount(g, tombstone, s.regionID);
    AtMoves(s, 0, lookup, counted, Idle);
    moves, s2 := UpdateAppends(c, mix, s, moves, s1, 0, h, 0, seg, counted);
    AlikeTasks(s, At(s, 0, lookup, del));
    AlikeTrans(s, s0, s1);
    AlikeTrans(s, s1, s2);
  }

  lemma MayBoth(mix: Mix, h: uint64, seg: Segment, g: uint64, tombstone: Segment)
    requires mix.deletes && mix.updates && seg.WellFormed() && tombstone.WellFormed()
    ensures MayInvoke(mix, Invoke(0, Cas(h, 0, seg))) && MayInvoke(mix, Invoke(1, Delete(g, tombstone)))
    ensures OpWellFormed(Cas(h, 0, seg)) && OpWellFormed(Delete(g, tombstone))
  {
  }

  lemma AlikeFile(s: State, s': State)
    requires s' == s.(file := s'.file, tasks := s'.tasks)
    ensures Alike(s, s')
  {
  }

  // ---- Which mixes are safe ----

  // In every store at rest, for every threshold and number of threads, every schedule of the mix ends right.
  ghost predicate AlwaysRight(d: Digests, mix: Mix) {
    forall c: Config, s: State, moves: seq<Move> ::
      c.d == d && Quiet(s) && Run(c, s, moves).Some? && Allowed(mix, moves) ==> EndsRight(Run(c, s, moves).value)
  }

  // The same for the schedules that start no region.
  ghost predicate RightWithinRegion(d: Digests, mix: Mix) {
    forall c: Config, s: State, moves: seq<Move> ::
      (&& c.d == d && Quiet(s) && Run(c, s, moves).Some? && Allowed(mix, moves)
       && Run(c, s, moves).value.regionID == s.regionID)
      ==> EndsRight(Run(c, s, moves).value)
  }

  ghost predicate EndsRight(s: State) {
    AtRest(s) ==> s.offset == |s.file|
  }

  lemma Fewer(mix: Mix, mix': Mix, moves: seq<Move>)
    requires Allowed(mix, moves)
    requires (mix.puts ==> mix'.puts) && (mix.deletes ==> mix'.deletes) && (mix.updates ==> mix'.updates)
    ensures Allowed(mix', moves)
  {
    forall k | 0 <= k < |moves| ensures MayInvoke(mix', moves[k]) {
      assert MayInvoke(mix, moves[k]);
    }
  }

  lemma WithoutPuts(mix: Mix, moves: seq<Move>)
    requires Allowed(mix, moves) && !mix.puts
    ensures NoPuts(moves)
  {
    forall k | 0 <= k < |moves| && moves[k].Invoke? ensures !moves[k].op.Put? {
      assert MayInvoke(mix, moves[k]);
    }
  }

  lemma {:induction false} DeletesKeepOffset(c: Config, s: State, moves: seq<Move>)
    requires Quiet(s) && Run(c, s, moves).Some? && Allowed(Mix(false, true, false), moves)
    ensures EndsRight(Run(c, s, moves).value)
  {
    DeletesOnlyRun(c, s, moves);
    WithoutPuts(Mix(false, true, false), moves);
    OffsetConserved(c, s, moves);
    hide Run, Quiet, Allowed, NoPuts;
  }

  // A store at rest with one key, and two threads.
  const TINY := Segment(0, 0, 0, 0, 0, 0, [], [])

  function OneKey(): State {
    State(MAGIC, 1, 4, None, [Node(1, 0, 0, 0, 0, 0)], map[0 := 0], [Idle, Idle], [[]], 0, 0)
  }

  lemma OneKeyQuiet()
    ensures Quiet(OneKey()) && TINY.WellFormed() && TINY.Size() == 30
  {
  }

  lemma Wrong(c: Config, mix: Mix, mix': Mix, s: State, moves: seq<Move>, s': State)
    requires Quiet(s) && After(c, mix, s, moves, s') && AtRest(s') && s'.offset != |s'.file|
    requires (mix.puts ==> mix'.puts) && (mix.deletes ==> mix'.deletes) && (mix.updates ==> mix'.updates)
    ensures !AlwaysRight(c.d, mix')
    ensures s'.regionID == s.regionID ==> !RightWithinRegion(c.d, mix')
  {
    Fewer(mix, mix', moves);
    hide Allowed, Quiet, Run;
    assert Run(c, s, moves) == Some(s') && !EndsRight(s');
  }

  // At rest the offset is right after every schedule of a mix exactly when the mix is of puts alone or of deletes
  // alone.
  lemma AlwaysRightIff(d: Digests, mix: Mix)
    ensures AlwaysRight(d, mix) <==> !mix.updates && !(mix.puts && mix.deletes)
  {
    hide Quiet, Run, Allowed, EndsRight, After;
    if mix.updates {
      LateInOneKey(d, mix);
    } else if mix.puts && mix.deletes {
      LostInOneKey(d, mix);
    } else {
      forall c: Config, s: State, moves: seq<Move>
        | c.d == d && Quiet(s) && Run(c, s, moves).Some? && Allowed(mix, moves)
        ensures EndsRight(Run(c, s, moves).value)
      {
        if mix.deletes {
          DeletesKeepOffset(c, s, moves);
        } else {
          Fewer(mix, Mix(true, false, false), moves);
          PutsEndRight(c, s, moves);
        }
      }
    }
  }

  lemma {:induction false} PutsEndRight(c: Config, s: State, moves: seq<Move>)
    requires Quiet(s) && Run(c, s, moves).Some? && Allowed(Mix(true, false, false), moves)
    ensures EndsRight(Run(c, s, moves).value)
  {
    hide Quiet, Run, Allowed, Uncounted;
    PutsKeepOffset(c, s, moves);
  }

  // As long as no region is started, it is right exactly when puts are not mixed with anything else.
  lemma RightWithinRegionIff(d: Digests, mix: Mix)
    ensures RightWithinRegion(d, mix) <==> !mix.puts || (!mix.deletes && !mix.updates)
  {
    hide Quiet, Run, Allowed, EndsRight, After;
    if mix.puts && mix.deletes {
      LostInOneKey(d, mix);
    } else if mix.puts && mix.updates {
      LostUpdateInOneKey(d, mix);
    } else {
      forall c: Config, s: State, moves: seq<Move>
        | c.d == d && Quiet(s) && Run(c, s, moves).Some? && Allowed(mix, moves)
          && Run(c, s, moves).value.regionID == s.regionID
        ensures EndsRight(Run(c, s, moves).value)
      {
        if mix.puts {
          Fewer(mix, Mix(true, false, false), moves);
          PutsEndRight(c, s, moves);
        } else {
          WithoutPuts(mix, moves);
          ConservedEndsRight(c, s, moves);
        }
      }
    }
  }

  lemma {:induction false} ConservedEndsRight(c: Config, s: State, moves: seq<Move>)
    requires Quiet(s) && Run(c, s, moves).Some? && NoPuts(moves) && Run(c, s, moves).value.regionID == s.regionID
    ensures EndsRight(Run(c, s, moves).value)
  {
    OffsetConserved(c, s, moves);
    hide Quiet, Run, NoPuts, Uncounted;
  }

  lemma LateInOneKey(d: Digests, mix: Mix)
    requires mix.updates
    ensures !AlwaysRight(d, mix)
  {
    hide Quiet, Run, Allowed, After, AlwaysRight, RightWithinRegion;
    OneKeyQuiet();
    var big := Segment(0, 0, 0, 0, 1, 0, [0], []);
    var moves, s' := UpdateCountedLate(Config(d, 35), OneKey(), 0, big, TINY);
    Wrong(Config(d, 35), Mix(false, false, true), mix, OneKey(), moves, s');
  }

  lemma LostInOneKey(d: Digests, mix: Mix)
    requires mix.puts && mix.deletes
    ensures !AlwaysRight(d, mix) && !RightWithinRegion(d, mix)
  {
    hide Quiet, Run, Allowed, After, AlwaysRight, RightWithinRegion;
    OneKeyQuiet();
    var moves, s' := PutLosesDelete(Config(d, 1000), OneKey(), 0, TINY, 0, TINY);
    Wrong(Config(d, 1000), Mix(true, true, false), mix, OneKey(), moves, s');
  }

  lemma LostUpdateInOneKey(d: Digests, mix: Mix)
    requires mix.puts && mix.updates
    ensures !AlwaysRight(d, mix) && !RightWithinRegion(d, mix)
  {
    hide Quiet, Run, Allowed, After, AlwaysRight, RightWithinRegion;
    OneKeyQuiet();
    var moves, s' := PutLosesUpdate(Config(d, 1000), OneKey(), 0, TINY, 0, TINY);
    Wrong(Config(d, 1000), Mix(true, false, true), mix, OneKey(), moves, s');
  }
}
