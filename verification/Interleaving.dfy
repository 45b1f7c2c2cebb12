// Puts, deletes and version-checked updates running at the same time, one atomic action per step: what the locks and
// the atomic operations of vfs/lfs.go guarantee, and what they do not. An inode is an object with an identity: a put
// replaces the object a number refers to, a delete detaches it, and an update may still hold it.

module Interleaving {
  import opened Wrappers
  import opened Bytes
  import opened Segments
  import opened RegionLog
  import opened Index
  import opened Store

  datatype Op =
    | Put(h: uint64, put: Segment)
    | Delete(gone: uint64, tombstone: Segment)
    | Cas(num: uint64, expected: uint64, update: Segment)

  // What a thread is about to do. rid: the region its record went to; start: the place of the record there.
  datatype Task =
    | Idle
    // DeleteSegment
    | DelAppend(h: uint64, seg: Segment)
    | DelCount(h: uint64, seg: Segment, rid: nat)
    | DelRemove(h: uint64)
    // UpdateSegmentWithCAS; inode: the object found
    | CasLookup(h: uint64, expected: uint64, seg: Segment)
    | CasSwap(inode: nat, expected: uint64, seg: Segment)
    | CasAppend(inode: nat, seg: Segment)
    | CasLoad(inode: nat, seg: Segment, rid: nat, start: nat)
    | CasStore(inode: nat, seg: Segment, rid: nat, start: nat, position: uint64, field: nat)
    | CasCount(seg: Segment, rid: nat)
    | CasCheck
    | CasCreate
    // PutSegment, which holds lfs.mu from its append to its end; offset += size is a load and a store
    | PutAppend(h: uint64, seg: Segment)
    | PutInsert(h: uint64, seg: Segment, rid: nat)
    | PutLoad(seg: Segment, rid: nat)
    | PutStore(seg: Segment, rid: nat, loaded: uint64)
    | PutCheck

  // file: the active region; heap: every inode made so far; index: the objects the numbers refer to.
  // History: won, the expected versions of the updates that succeeded against each object, in order; late, the sizes of
  // records counted after their region was closed; lost, what puts have overwritten; both since the file was created.
  datatype State = State(
    file: seq<byte>, regionID: nat, offset: uint64, mu: Option<nat>, heap: seq<Node>, index: map<uint64, nat>,
    tasks: seq<Task>, won: seq<seq<uint64>>, late: nat, lost: int)

  datatype Config = Config(d: Digests, threshold: nat)

  datatype Move = Invoke(thread: nat, op: Op) | Advance(thread: nat)

  // ---- Steps; None: the move is not possible ----

  function Begin(op: Op): Task {
    match op
    case Put(h, seg) => PutAppend(h, seg)
    case Delete(h, seg) => DelAppend(h, seg)
    case Cas(h, expected, seg) => CasLookup(h, expected, seg)
  }

  predicate OpWellFormed(op: Op) {
    match op
    case Put(_, seg) => seg.WellFormed()
    case Delete(_, seg) => seg.WellFormed()
    case Cas(_, _, seg) => seg.WellFormed()
  }

  function Fits(c: Config, s: State, seg: Segment): bool {
    |s.file| + |Serialize(c.d, seg)| <= MAX_FILE
  }

  function Goto(s: State, i: nat, task: Task): State
    requires i < |s.tasks|
  {
    s.(tasks := s.tasks[i := task])
  }

  function Count(s: State, seg: Segment, rid: nat): State {
    s.(offset := (s.offset + seg.Size()) % U64, late := if rid == s.regionID then s.late else s.late + seg.Size())
  }

  // A new region: nothing in it is late or lost.
  function Roll(s: State): State {
    s.(file := MAGIC, regionID := s.regionID + 1, offset := 4, late := 0, lost := 0)
  }

  // The five atomic stores of an update, in order.
  function StoreField(s: State, node: Node, seg: Segment, position: uint64, field: nat): Node {
    if field == 0 then node.(position := position)
    else if field == 1 then node.(createdAt := seg.createdAt)
    else if field == 2 then node.(expiredAt := seg.expiredAt)
    else if field == 3 then node.(regionID := s.regionID % U64)
    else node.(length := seg.Size())
  }

  function DeleteTask(c: Config, s: State, i: nat): Option<State>
    requires i < |s.tasks|
  {
    match s.tasks[i]
    case DelAppend(h, seg) =>
      if s.mu.Some? then None
      else if !Fits(c, s, seg) then Some(Goto(s, i, Idle))
      else Some(Goto(s.(file := s.file + Serialize(c.d, seg)), i, DelCount(h, seg, s.regionID)))
    case DelCount(h, seg, rid) => Some(Goto(Count(s, seg, rid), i, DelRemove(h)))
    case DelRemove(h) => Some(Goto(s.(index := s.index - {h}), i, Idle))
    case _ => None
  }

  function CasTask(c: Config, s: State, i: nat): Option<State>
    requires i < |s.tasks|
  {
    match s.tasks[i]
    case CasLookup(h, expected, seg) =>
      Some(Goto(s, i, if h in s.index then CasSwap(s.index[h], expected, seg) else Idle))
    case CasSwap(o, expected, seg) =>
      if o >= |s.heap| || o >= |s.won| then None
      else if s.heap[o].mvcc != expected then Some(Goto(s, i, Idle))
      else
        var node := s.heap[o].(mvcc := (expected + 1) % U64);
        Some(Goto(s.(heap := s.heap[o := node], won := s.won[o := s.won[o] + [expected]]), i, CasAppend(o, seg)))
    case CasAppend(o, seg) =>
      if s.mu.Some? then None
      else if !Fits(c, s, seg) then Some(Goto(s, i, Idle))
      else Some(Goto(s.(file := s.file + Serialize(c.d, seg)), i, CasLoad(o, seg, s.regionID, |s.file|)))
    case CasLoad(o, seg, rid, start) => Some(Goto(s, i, CasStore(o, seg, rid, start, s.offset, 0)))
    case CasStore(o, seg, rid, start, position, field) =>
      if o >= |s.heap| then None else
        var node := StoreField(s, s.heap[o], seg, position, field);
        var next := if field < 4 then CasStore(o, seg, rid, start, position, field + 1) else CasCount(seg, rid);
        Some(Goto(s.(heap := s.heap[o := node]), i, next))
    case CasCount(seg, rid) => Some(Goto(Count(s, seg, rid), i, CasCheck))
    case CasCheck => Some(Goto(s, i, if s.offset >= c.threshold then CasCreate else Idle))
    case CasCreate => if s.mu.Some? then None else Some(Goto(Roll(s), i, Idle))
    case _ => None
  }

  function PutTask(c: Config, s: State, i: nat): Option<State>
    requires i < |s.tasks|
  {
    match s.tasks[i]
    case PutAppend(h, seg) =>
      if s.mu.Some? then None
      else if !Fits(c, s, seg) then Some(Goto(s, i, Idle))
      else Some(Goto(s.(file := s.file + Serialize(c.d, seg), mu := Some(i)), i, PutInsert(h, seg, s.regionID)))
    case PutInsert(h, seg, rid) =>
      var node := Node(s.regionID % U64, s.offset, seg.Size(), seg.expiredAt, seg.createdAt, 0);
      Some(Goto(s.(heap := s.heap + [node], won := s.won + [[]], index := s.index[h := |s.heap|]), i,
                PutLoad(seg, rid)))
    case PutLoad(seg, rid) => Some(Goto(s, i, PutStore(seg, rid, s.offset)))
    case PutStore(seg, rid, loaded) =>
      Some(Goto(s.(offset := (loaded + seg.Size()) % U64, lost := s.lost + s.offset - loaded), i, PutCheck))
    case PutCheck =>
      var s1 := if s.offset >= c.threshold then Roll(s) else s;
      Some(Goto(s1.(mu := None), i, Idle))
    case _ => None
  }

  // A put past its append holds lfs.mu.
  predicate HoldsLock(task: Task) {
    task.PutInsert? || task.PutLoad? || task.PutStore? || task.PutCheck?
  }

  function AdvanceTask(c: Config, s: State, i: nat): Option<State>
    requires i < |s.tasks|
  {
    var task := s.tasks[i];
    if task.DelAppend? || task.DelCount? || task.DelRemove? then DeleteTask(c, s, i)
    else if task.PutAppend? || HoldsLock(task) then PutTask(c, s, i)
    else CasTask(c, s, i)
  }

  function Step(c: Config, s: State, move: Move): Option<State> {
    if move.thread >= |s.tasks| then None else
      match move
      case Invoke(i, op) => if s.tasks[i].Idle? && OpWellFormed(op) then Some(Goto(s, i, Begin(op))) else None
      case Advance(i) => AdvanceTask(c, s, i)
  }

  function Run(c: Config, s: State, moves: seq<Move>): Option<State> {
    if moves == [] then Some(s) else
      match Run(c, s, moves[..|moves| - 1])
      case None => None
      case Some(s') => Step(c, s', moves[|moves| - 1])
  }

  // Any number of idle threads; the offset is the length of the file; no update has been made.
  ghost predicate Quiet(s: State) {
    && |s.file| >= 4 && s.offset == |s.file| <= MAX_FILE && s.mu.None? && s.late == s.lost == 0
    && (forall i :: 0 <= i < |s.tasks| ==> s.tasks[i].Idle?)
    && |s.won| == |s.heap| && (forall o :: 0 <= o < |s.heap| ==> s.heap[o].mvcc == 0 && s.won[o] == [])
    && (forall h :: h in s.index ==> s.index[h] < |s.heap|)
  }

  // ---- Each version is won once ----

  ghost predicate Versions(s: State) {
    && |s.won| == |s.heap|
    && forall o :: 0 <= o < |s.heap| ==> VersionOk(s.heap[o].mvcc, s.won[o])
  }

  // The k-th success was against version k.
  ghost predicate VersionOk(mvcc: uint64, won: seq<uint64>) {
    && mvcc == |won| % U64
    && forall k :: 0 <= k < |won| ==> won[k] == k % U64
  }

  lemma WinNext(won: seq<uint64>, expected: uint64)
    requires VersionOk(expected, won)
    ensures VersionOk((expected + 1) % U64, won + [expected])
  {
  }

  lemma StepVersions(c: Config, s: State, move: Move)
    requires Versions(s) && Step(c, s, move).Some?
    ensures Versions(Step(c, s, move).value)
  {
    hide VersionOk, Serialize, Fits;
    if move.Advance? {
      var i := move.thread;
      match s.tasks[i]
      case CasSwap(o, expected, seg) =>
        if s.heap[o].mvcc == expected { WinNext(s.won[o], expected); }
      case PutInsert(_, _, _) =>
        assert VersionOk(0, []) by { NothingWon(); }
      case _ =>
    }
  }

  lemma NothingWon()
    ensures VersionOk(0, [])
  {
  }

  lemma {:induction false} RunVersions(c: Config, s: State, moves: seq<Move>)
    requires Quiet(s) && Run(c, s, moves).Some?
    ensures Versions(Run(c, s, moves).value)
  {
    hide Step;
    if moves == [] {
      NothingWon();
    } else {
      hide Versions, Quiet;
      var init := moves[..|moves| - 1];
      RunVersions(c, s, init);
      StepVersions(c, Run(c, s, init).value, moves[|moves| - 1]);
    }
  }

  lemma WonAreBelow(mvcc: uint64, won: seq<uint64>)
    requires VersionOk(mvcc, won) && |won| < U64
    ensures mvcc == |won|
    ensures forall j, k :: 0 <= j < k < |won| ==> won[j] != won[k]
    ensures forall v: uint64 :: v in won <==> v < mvcc
  {
    forall v: uint64 | v < mvcc ensures v in won {
      assert won[v] == v;
    }
  }

  // In every interleaving, as long as an object has not been updated 2^64 times: its version counts its successful
  // updates, no version was won twice, and the versions won are exactly those below the current one.
  lemma {:induction false} VersionsWonOnce(c: Config, s: State, moves: seq<Move>, o: nat)
    requires Quiet(s) && Run(c, s, moves).Some?
    requires var s' := Run(c, s, moves).value; o < |s'.heap| && o < |s'.won| && |s'.won[o]| < U64
    ensures var s' := Run(c, s, moves).value;
            && s'.heap[o].mvcc == |s'.won[o]|
            && (forall j, k :: 0 <= j < k < |s'.won[o]| ==> s'.won[o][j] != s'.won[o][k])
            && (forall v: uint64 :: v in s'.won[o] <==> v < s'.heap[o].mvcc)
  {
    RunVersions(c, s, moves);
    var s' := Run(c, s, moves).value;
    hide Run, Quiet, VersionOk;
    WonAreBelow(s'.heap[o].mvcc, s'.won[o]);
  }

  // ---- The offset accounts for every record ----

  // The size of a record of region rid that was appended but not yet counted in the offset.
  function Pending(task: Task, rid: nat): nat {
    match task
    case DelCount(_, seg, r) => if r == rid then seg.Size() else 0
    case CasLoad(_, seg, r, _) => if r == rid then seg.Size() else 0
    case CasStore(_, seg, r, _, _, _) => if r == rid then seg.Size() else 0
    case CasCount(seg, r) => if r == rid then seg.Size() else 0
    case PutInsert(_, seg, r) => if r == rid then seg.Size() else 0
    case PutLoad(seg, r) => if r == rid then seg.Size() else 0
    case PutStore(seg, r, _) => if r == rid then seg.Size() else 0
    case _ => 0
  }

  function Uncounted(tasks: seq<Task>, rid: nat): nat {
    if tasks == [] then 0 else Uncounted(tasks[..|tasks| - 1], rid) + Pending(tasks[|tasks| - 1], rid)
  }

  lemma {:induction false} UncountedUpdate(tasks: seq<Task>, i: nat, task: Task, rid: nat)
    requires i < |tasks|
    ensures Uncounted(tasks[i := task], rid) == Uncounted(tasks, rid) - Pending(tasks[i], rid) + Pending(task, rid)
  {
    hide Pending;
    var n := |tasks| - 1;
    if i < n {
      UncountedUpdate(tasks[..n], i, task, rid);
      assert tasks[i := task][..n] == tasks[..n][i := task];
    } else {
      assert tasks[i := task][..n] == tasks[..n];
    }
  }

  lemma {:induction false} NothingUncounted(tasks: seq<Task>, rid: nat)
    requires forall i :: 0 <= i < |tasks| ==> Pending(tasks[i], rid) == 0
    ensures Uncounted(tasks, rid) == 0
  {
    if tasks != [] {
      assert forall i :: 0 <= i < |tasks| - 1 ==> tasks[..|tasks| - 1][i] == tasks[i];
      NothingUncounted(tasks[..|tasks| - 1], rid);
    }
  }

  predicate TaskOk(task: Task, rid: nat) {
    match task
    case DelAppend(_, seg) => seg.WellFormed()
    case DelCount(_, seg, r) => seg.WellFormed() && r <= rid
    case CasLookup(_, _, seg) => seg.WellFormed()
    case CasSwap(_, _, seg) => seg.WellFormed()
    case CasAppend(_, seg) => seg.WellFormed()
    case CasLoad(_, seg, r, _) => seg.WellFormed() && r <= rid
    case CasStore(_, seg, r, _, _, _) => seg.WellFormed() && r <= rid
    case CasCount(seg, r) => seg.WellFormed() && r <= rid
    case PutAppend(_, seg) => seg.WellFormed()
    case PutInsert(_, seg, r) => seg.WellFormed() && r == rid
    case PutLoad(seg, r) => seg.WellFormed() && r == rid
    case PutStore(seg, r, _) => seg.WellFormed() && r == rid
    case _ => true
  }

  ghost predicate Locked(s: State) {
    && (forall i :: 0 <= i < |s.tasks| ==> TaskOk(s.tasks[i], s.regionID))
    && (forall i :: 0 <= i < |s.tasks| && HoldsLock(s.tasks[i]) ==> s.mu == Some(i))
    && (s.mu.Some? ==> s.mu.value < |s.tasks| && HoldsLock(s.tasks[s.mu.value]))
  }

  // Equal as uint64 values.
  predicate Congruent(a: int, b: int) {
    (a - b) % U64 == 0
  }

  ghost predicate Ledger(s: State) {
    var uncounted := Uncounted(s.tasks, s.regionID);
    && Congruent(s.offset + uncounted + s.lost, |s.file| + s.late)
    && uncounted + 4 <= |s.file| <= MAX_FILE
  }

  ghost predicate Accounted(s: State) {
    Locked(s) && Ledger(s)
  }

  // A step of thread i within a region keeps the ledger if what it adds to either side agrees.
  lemma MoveLedger(s: State, s': State, i: nat, task: Task)
    requires Ledger(s) && i < |s.tasks|
    requires s'.tasks == s.tasks[i := task] && s'.regionID == s.regionID
    requires var pending := Pending(task, s.regionID) - Pending(s.tasks[i], s.regionID);
             && Congruent(s'.offset + s'.lost - |s'.file| - s'.late + pending, s.offset + s.lost - |s.file| - s.late)
             && pending <= |s'.file| - |s.file| && |s'.file| <= MAX_FILE
    ensures Ledger(s')
  {
    hide Pending, Uncounted;
    UncountedUpdate(s.tasks, i, task, s.regionID);
  }

  lemma MoveLocked(s: State, s': State, i: nat, task: Task)
    requires Locked(s) && i < |s.tasks|
    requires s'.tasks == s.tasks[i := task] && s'.regionID == s.regionID
    requires TaskOk(task, s.regionID) && (HoldsLock(task) <==> s'.mu == Some(i))
    requires s'.mu == s.mu || (s.mu.None? && s'.mu == Some(i)) || (s.mu == Some(i) && s'.mu.None?)
    ensures Locked(s')
  {
    hide TaskOk, HoldsLock;
  }

  lemma AppendCounts(c: Config, s: State, i: nat, task: Task, seg: Segment, mu: Option<nat>)
    requires Accounted(s) && i < |s.tasks| && seg.WellFormed() && Fits(c, s, seg) && s.mu.None?
    requires Pending(s.tasks[i], s.regionID) == 0 && Pending(task, s.regionID) == seg.Size()
    requires TaskOk(task, s.regionID) && mu == if HoldsLock(task) then Some(i) else None
    ensures Accounted(Goto(s.(file := s.file + Serialize(c.d, seg), mu := mu), i, task))
  {
    hide Pending, Serialize, TaskOk, HoldsLock, Uncounted, Ledger, Locked;
    var s' := Goto(s.(file := s.file + Serialize(c.d, seg), mu := mu), i, task);
    MoveLedger(s, s', i, task);
    MoveLocked(s, s', i, task);
  }

  lemma CountCounts(s: State, i: nat, seg: Segment, rid: nat, task: Task)
    requires Accounted(s) && i < |s.tasks|
    requires Pending(s.tasks[i], s.regionID) == (if rid == s.regionID then seg.Size() else 0)
    requires Pending(task, s.regionID) == 0 && TaskOk(task, s.regionID) && !HoldsLock(task) && s.mu != Some(i)
    ensures Accounted(Goto(Count(s, seg, rid), i, task))
  {
    hide Pending, TaskOk, HoldsLock, Uncounted, Ledger, Locked;
    var s' := Goto(Count(s, seg, rid), i, task);
    LedgerSize(s);
    MoveLedger(s, s', i, task);
    MoveLocked(s, s', i, task);
  }

  lemma LedgerSize(s: State)
    requires Ledger(s)
    ensures |s.file| <= MAX_FILE
  {
  }

  // A step that leaves file, offset and accounts alone.
  lemma SilentCounts(s: State, s': State, i: nat, task: Task)
    requires Accounted(s) && i < |s.tasks|
    requires s'.tasks == s.tasks[i := task] && s'.regionID == s.regionID && s'.file == s.file && s'.offset == s.offset
    requires s'.late == s.late && s'.lost == s.lost && s'.mu == s.mu
    requires Pending(task, s.regionID) == Pending(s.tasks[i], s.regionID)
    requires TaskOk(task, s.regionID) && (HoldsLock(task) <==> s.mu == Some(i))
    ensures Accounted(s')
  {
    hide Pending, TaskOk, HoldsLock, Uncounted, Ledger, Locked;
    LedgerSize(s);
    MoveLedger(s, s', i, task);
    MoveLocked(s, s', i, task);
  }

  lemma RollCounts(s: State, i: nat)
    requires Accounted(s) && i < |s.tasks| && (s.mu.None? || s.mu == Some(i))
    ensures Accounted(Goto(Roll(s).(mu := None), i, Idle))
  {
    hide Uncounted;
    var s' := Goto(Roll(s).(mu := None), i, Idle);
    forall j | 0 <= j < |s'.tasks|
      ensures TaskOk(s'.tasks[j], s'.regionID) && !HoldsLock(s'.tasks[j]) && Pending(s'.tasks[j], s'.regionID) == 0
    {
      if j != i { assert TaskOk(s.tasks[j], s.regionID) && !HoldsLock(s.tasks[j]); }
    }
    NothingUncounted(s'.tasks, s'.regionID);
  }

  lemma DeleteCounts(c: Config, s: State, i: nat)
    requires Accounted(s) && i < |s.tasks| && DeleteTask(c, s, i).Some?
    ensures Accounted(DeleteTask(c, s, i).value)
  {
    hide Serialize, Ledger, Uncounted, Fits;
    var s' := DeleteTask(c, s, i).value;
    assert TaskOk(s.tasks[i], s.regionID) && s.mu != Some(i);
    hide Locked;
    match s.tasks[i]
    case DelAppend(h, seg) =>
      if Fits(c, s, seg) {
        AppendCounts(c, s, i, DelCount(h, seg, s.regionID), seg, None);
      } else {
        SilentCounts(s, s', i, Idle);
      }
    case DelCount(h, seg, rid) => CountCounts(s, i, seg, rid, DelRemove(h));
    case DelRemove(_) => SilentCounts(s, s', i, Idle);
  }

  lemma CasCounts(c: Config, s: State, i: nat)
    requires Accounted(s) && i < |s.tasks| && CasTask(c, s, i).Some?
    ensures Accounted(CasTask(c, s, i).value)
  {
    hide Serialize, Ledger, Uncounted, Fits, StoreField;
    var s' := CasTask(c, s, i).value;
    assert TaskOk(s.tasks[i], s.regionID) && s.mu != Some(i);
    hide Locked;
    var task := s.tasks[i];
    if task.CasAppend? && Fits(c, s, task.seg) {
      AppendCounts(c, s, i, CasLoad(task.inode, task.seg, s.regionID, |s.file|), task.seg, None);
    } else if task.CasCount? {
      CountCounts(s, i, task.seg, task.rid, CasCheck);
    } else if task.CasCreate? {
      RollCounts(s, i);
    } else {
      SilentCounts(s, s', i, s'.tasks[i]);
    }
  }

  lemma PutCounts(c: Config, s: State, i: nat)
    requires Accounted(s) && i < |s.tasks| && PutTask(c, s, i).Some?
    ensures Accounted(PutTask(c, s, i).value)
  {
    hide Serialize, Ledger, Uncounted, Fits;
    var s' := PutTask(c, s, i).value;
    assert TaskOk(s.tasks[i], s.regionID) && (HoldsLock(s.tasks[i]) <==> s.mu == Some(i));
    var task := s.tasks[i];
    if task.PutCheck? && s.offset >= c.threshold {
      RollCounts(s, i);
      return;
    }
    hide Locked;
    LedgerSize(s);
    if task.PutAppend? && Fits(c, s, task.seg) {
      AppendCounts(c, s, i, PutInsert(task.h, task.seg, s.regionID), task.seg, Some(i));
    } else if task.PutStore? || task.PutCheck? {
      MoveLedger(s, s', i, s'.tasks[i]);
      MoveLocked(s, s', i, s'.tasks[i]);
    } else {
      SilentCounts(s, s', i, s'.tasks[i]);
    }
  }

  lemma IdleHoldsNothing(s: State, i: nat)
    requires Accounted(s) && i < |s.tasks| && s.tasks[i].Idle?
    ensures s.mu != Some(i)
  {
  }

  lemma StepCounts(c: Config, s: State, move: Move)
    requires Accounted(s) && Step(c, s, move).Some?
    ensures Accounted(Step(c, s, move).value)
  {
    hide Accounted, DeleteTask, CasTask, PutTask;
    var i := move.thread;
    match move
    case Invoke(_, op) =>
      IdleHoldsNothing(s, i);
      SilentCounts(s, Step(c, s, move).value, i, Begin(op));
    case Advance(_) =>
      var task := s.tasks[i];
      if task.DelAppend? || task.DelCount? || task.DelRemove? { DeleteCounts(c, s, i); }
      else if task.PutAppend? || HoldsLock(task) { PutCounts(c, s, i); }
      else { CasCounts(c, s, i); }
  }

  lemma QuietAccounted(s: State)
    requires Quiet(s)
    ensures Accounted(s)
  {
    NothingUncounted(s.tasks, s.regionID);
  }

  lemma {:induction false} RunCounts(c: Config, s: State, moves: seq<Move>)
    requires Quiet(s) && Run(c, s, moves).Some?
    ensures Accounted(Run(c, s, moves).value)
  {
    hide Step, Accounted, Quiet;
    if moves == [] {
      QuietAccounted(s);
    } else {
      var init := moves[..|moves| - 1];
      RunCounts(c, s, init);
      StepCounts(c, Run(c, s, init).value, moves[|moves| - 1]);
    }
  }

  // In every interleaving, also across region rolls: the offset, with what is not counted yet, what puts have
  // overwritten and what was counted too late, accounts for the length of the active file. So at rest the offset is
  // the length of the file exactly when what was lost and what was late cancel out.
  lemma {:induction false} OffsetExact(c: Config, s: State, moves: seq<Move>)
    requires Quiet(s) && Run(c, s, moves).Some?
    ensures var s' := Run(c, s, moves).value;
            var uncounted := Uncounted(s'.tasks, s'.regionID);
            && uncounted + 4 <= |s'.file|
            && (s'.offset == |s'.file| - uncounted <==> Congruent(s'.lost, s'.late))
            && ((forall i :: 0 <= i < |s'.tasks| ==> s'.tasks[i].Idle?) ==> uncounted == 0)
  {
    RunCounts(c, s, moves);
    var s' := Run(c, s, moves).value;
    hide Run, Locked, Quiet;
    if forall i :: 0 <= i < |s'.tasks| ==> s'.tasks[i].Idle? { NothingUncounted(s'.tasks, s'.regionID); }
    hide Uncounted;
    LedgerBalance(s');
  }

  lemma LedgerBalance(s: State)
    requires Ledger(s)
    ensures s.offset == |s.file| - Uncounted(s.tasks, s.regionID) <==> Congruent(s.lost, s.late)
  {
    hide Uncounted;
  }

  // ---- Deletes and updates alone, below the threshold ----

  predicate PutFree(task: Task) {
    !task.PutAppend? && !HoldsLock(task)
  }

  predicate Since(task: Task, rid: nat) {
    match task
    case DelCount(_, _, r) => r >= rid
    case CasLoad(_, _, r, _) => r >= rid
    case CasStore(_, _, r, _, _, _) => r >= rid
    case CasCount(_, r) => r >= rid
    case _ => true
  }

  // Nothing is lost, and nothing is late while the region is the one the run began with.
  ghost predicate Clean(rid: nat, s: State) {
    && s.regionID >= rid && s.lost == 0 && (s.regionID == rid ==> s.late == 0)
    && forall i :: 0 <= i < |s.tasks| ==> PutFree(s.tasks[i]) && Since(s.tasks[i], rid)
  }

  ghost predicate NoPuts(moves: seq<Move>) {
    forall k :: 0 <= k < |moves| && moves[k].Invoke? ==> !moves[k].op.Put?
  }

  lemma StepClean(c: Config, rid: nat, s: State, move: Move)
    requires Accounted(s) && Clean(rid, s) && Step(c, s, move).Some? && (move.Invoke? ==> !move.op.Put?)
    ensures Clean(rid, Step(c, s, move).value)
  {
    hide Ledger, Serialize, Fits, StoreField;
    var i := move.thread;
    assert PutFree(s.tasks[i]) && Since(s.tasks[i], rid) && TaskOk(s.tasks[i], s.regionID);
    hide Locked;
  }

  lemma {:induction false} RunClean(c: Config, s: State, moves: seq<Move>)
    requires Quiet(s) && Run(c, s, moves).Some? && NoPuts(moves)
    ensures Clean(s.regionID, Run(c, s, moves).value)
  {
    hide Step, Accounted;
    if moves != [] {
      var init := moves[..|moves| - 1];
      RunClean(c, s, init);
      RunCounts(c, s, init);
      hide Quiet, Clean;
      StepClean(c, s.regionID, Run(c, s, init).value, moves[|moves| - 1]);
    }
  }

  // Deletes and updates in any interleaving, as long as no region is started: the file is as long as the offset plus
  // the records not yet counted, and as long as the offset once all threads are at rest.
  lemma {:induction false} OffsetConserved(c: Config, s: State, moves: seq<Move>)
    requires Quiet(s) && Run(c, s, moves).Some? && NoPuts(moves)
    requires Run(c, s, moves).value.regionID == s.regionID
    ensures var s' := Run(c, s, moves).value;
            && |s'.file| == s'.offset + Uncounted(s'.tasks, s'.regionID)
            && ((forall i :: 0 <= i < |s'.tasks| ==> s'.tasks[i].Idle?) ==> |s'.file| == s'.offset)
  {
    OffsetExact(c, s, moves);
    RunClean(c, s, moves);
    hide Run, Uncounted;
  }

  // There, the position an update is about to store is where its record begins exactly when the records not yet
  // counted make up the bytes from there on.
  lemma {:induction false} PositionIff(c: Config, s: State, moves: seq<Move>, i: nat)
    requires Quiet(s) && Run(c, s, moves).Some? && NoPuts(moves)
    requires var s' := Run(c, s, moves).value; s'.regionID == s.regionID && i < |s'.tasks| && s'.tasks[i].CasLoad?
    ensures var s' := Run(c, s, moves).value;
            var start, uncounted := s'.tasks[i].start, Uncounted(s'.tasks, s'.regionID);
            && s'.offset - start == (|s'.file| - start) - uncounted
            && var s'' := Step(c, s', Advance(i));
               && s''.Some? && s''.value.tasks[i].CasStore?
               && (s''.value.tasks[i].position == start <==> uncounted == |s'.file| - start)
  {
    OffsetConserved(c, s, moves);
    hide Run, Uncounted, Quiet;
  }

  // ---- No thread is stuck for good ----

  ghost predicate Linked(s: State) {
    && |s.won| == |s.heap|
    && (forall h :: h in s.index ==> s.index[h] < |s.heap|)
    && (forall i :: 0 <= i < |s.tasks| ==> TaskLinked(s.tasks[i], |s.heap|))
  }

  predicate TaskLinked(task: Task, objects: nat) {
    match task
    case CasSwap(o, _, _) => o < objects
    case CasAppend(o, _) => o < objects
    case CasLoad(o, _, _, _) => o < objects
    case CasStore(o, _, _, _, _, _) => o < objects
    case _ => true
  }

  lemma MoveLinked(s: State, s': State, i: nat, task: Task)
    requires Linked(s) && i < |s.tasks| && s'.tasks == s.tasks[i := task]
    requires |s'.won| == |s'.heap| >= |s.heap| && TaskLinked(task, |s'.heap|)
    requires forall h :: h in s'.index ==> s'.index[h] < |s'.heap|
    ensures Linked(s')
  {
    forall j | 0 <= j < |s'.tasks| ensures TaskLinked(s'.tasks[j], |s'.heap|) {
      if j != i { assert TaskLinked(s.tasks[j], |s.heap|); }
    }
  }

  lemma CasLinked(c: Config, s: State, i: nat)
    requires Linked(s) && i < |s.tasks| && CasTask(c, s, i).Some?
    ensures Linked(CasTask(c, s, i).value)
  {
    hide Serialize, Fits, StoreField;
    var s' := CasTask(c, s, i).value;
    assert TaskLinked(s.tasks[i], |s.heap|);
    LinkedIndex(s);
    hide Linked;
    MoveLinked(s, s', i, s'.tasks[i]);
  }

  lemma StepLinked(c: Config, s: State, move: Move)
    requires Linked(s) && Step(c, s, move).Some?
    ensures Linked(Step(c, s, move).value)
  {
    hide Serialize, Fits, CasTask;
    var i, s' := move.thread, Step(c, s, move).value;
    LinkedIndex(s);
    hide Linked;
    var task := s.tasks[i];
    if move.Invoke? || task.DelAppend? || task.DelCount? || task.DelRemove? || task.PutAppend? || HoldsLock(task) {
      MoveLinked(s, s', i, s'.tasks[i]);
    } else {
      CasLinked(c, s, i);
    }
  }

  lemma LinkedIndex(s: State)
    requires Linked(s)
    ensures |s.won| == |s.heap| && forall h :: h in s.index ==> s.index[h] < |s.heap|
  {
  }

  lemma {:induction false} RunLinked(c: Config, s: State, moves: seq<Move>)
    requires Quiet(s) && Run(c, s, moves).Some?
    ensures Linked(Run(c, s, moves).value)
  {
    hide Step;
    if moves != [] {
      var init := moves[..|moves| - 1];
      RunLinked(c, s, init);
      hide Quiet, Linked;
      StepLinked(c, Run(c, s, init).value, moves[|moves| - 1]);
    }
  }

  // A thread with work to do can move unless another holds lfs.mu, and the holder can.
  lemma {:induction false} NeverStuck(c: Config, s: State, moves: seq<Move>, i: nat)
    requires Quiet(s) && Run(c, s, moves).Some?
    requires i < |Run(c, s, moves).value.tasks| && !Run(c, s, moves).value.tasks[i].Idle?
    ensures var s' := Run(c, s, moves).value;
            || Step(c, s', Advance(i)).Some?
            || (s'.mu.Some? && s'.mu.value < |s'.tasks| && Step(c, s', Advance(s'.mu.value)).Some?)
  {
    RunCounts(c, s, moves);
    RunLinked(c, s, moves);
    var s' := Run(c, s, moves).value;
    hide Run, Quiet, Ledger, Serialize, Fits, StoreField;
    assert TaskLinked(s'.tasks[i], |s'.heap|);
  }
}
