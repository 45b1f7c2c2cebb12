// One thread on its own: the steps of module Interleaving, taken by a single thread from the call of an operation to
// its end while the others rest, have the effect of the one atomic step in module Store.

module Sequential {
  import opened Wrappers
  import opened Bytes
  import opened Segments
  import opened RegionLog
  import opened Index
  import opened FileNames
  import opened StoreInvariant
  import opened Interleaving
  import S = Store

  // ---- The same store ----

  // What the index says of a number.
  function NodeAt(s: State, h: uint64): Option<Node> {
    if h in s.index && s.index[h] < |s.heap| then Some(s.heap[s.index[h]]) else None
  }

  // No two numbers refer to one object.
  ghost predicate OwnObjects(s: State) {
    && |s.won| == |s.heap|
    && (forall h :: h in s.index ==> s.index[h] < |s.heap|)
    && (forall g, h :: g in s.index && h in s.index && s.index[g] == s.index[h] ==> g == h)
  }

  ghost predicate Matches(s: State, t: S.State) {
    && t.active == t.regionID == s.regionID && t.active in t.files
    && t.files[t.active] == s.file && t.offset == s.offset
    && OwnObjects(s) && forall h: uint64 :: Lookup(t.index, h) == NodeAt(s, h)
  }

  // There is a name and a place for the next region, which the steps take for granted.
  predicate CanRoll(t: S.State) {
    t.regionID + 1 < REGION_LIMIT && t.regionID + 1 !in t.files
  }

  // ---- A thread that runs alone ----

  // The calls and steps of thread i alone: an operation and n moves on.
  function Alone(i: nat, op: Op, n: nat): (moves: seq<Move>)
    ensures |moves| == n + 1
  {
    if n == 0 then [Invoke(i, op)] else Alone(i, op, n - 1) + [Advance(i)]
  }

  // Where thread i has come to rest, after at most n moves.
  function Finish(c: Config, s: State, i: nat, n: nat): Option<State>
    decreases n
  {
    if i >= |s.tasks| then None
    else if s.tasks[i].Idle? then Some(s)
    else if n == 0 then None
    else
      match AdvanceTask(c, s, i)
      case None => None
      case Some(s') => Finish(c, s', i, n - 1)
  }

  // n moves of thread i.
  function Advances(c: Config, s: State, i: nat, n: nat): Option<State> {
    if n == 0 then Some(s) else
      match Advances(c, s, i, n - 1)
      case None => None
      case Some(s') => Step(c, s', Advance(i))
  }

  lemma {:induction false} AloneAdvances(c: Config, s: State, i: nat, op: Op, n: nat)
    requires Step(c, s, Invoke(i, op)).Some?
    ensures Run(c, s, Alone(i, op, n)) == Advances(c, Step(c, s, Invoke(i, op)).value, i, n)
  {
    hide Step;
    var moves := Alone(i, op, n);
    if n == 0 {
      assert moves[..0] == [];
      assert Run(c, s, moves[..0]) == Some(s);
    } else {
      AloneAdvances(c, s, i, op, n - 1);
      assert moves[..n] == Alone(i, op, n - 1);
    }
  }

  lemma {:induction false} AdvancesFront(c: Config, s: State, i: nat, n: nat)
    requires n > 0
    ensures Advances(c, s, i, n)
            == match Step(c, s, Advance(i))
               case None => None
               case Some(s') => Advances(c, s', i, n - 1)
  {
    hide Step;
    if n > 1 {
      AdvancesFront(c, s, i, n - 1);
    } else {
      assert Advances(c, s, i, 0) == Some(s);
    }
  }

  lemma IdleStays(c: Config, s: State, i: nat)
    requires i < |s.tasks| && s.tasks[i].Idle?
    ensures Step(c, s, Advance(i)).None?
  {
  }

  // Whenever the thread rests again, it is there.
  lemma {:induction false} RestsThere(c: Config, s: State, i: nat, n: nat, m: nat)
    requires Finish(c, s, i, n).Some? && Advances(c, s, i, m).Some?
    requires var s' := Advances(c, s, i, m).value; i < |s'.tasks| && s'.tasks[i].Idle?
    ensures Advances(c, s, i, m) == Finish(c, s, i, n)
    decreases n
  {
    hide AdvanceTask;
    if s.tasks[i].Idle? {
      if m > 0 {
        AdvancesFront(c, s, i, m);
        IdleStays(c, s, i);
        assert false;
      }
    } else {
      assert m > 0;
      AdvancesFront(c, s, i, m);
      RestsThere(c, AdvanceTask(c, s, i).value, i, n - 1, m - 1);
    }
  }

  // And it does come there.
  lemma {:induction false} GetsThere(c: Config, s: State, i: nat, n: nat) returns (m: nat)
    requires Finish(c, s, i, n).Some?
    ensures m <= n && Advances(c, s, i, m) == Finish(c, s, i, n)
    decreases n
  {
    hide AdvanceTask;
    m := 0;
    if !s.tasks[i].Idle? {
      m := GetsThere(c, AdvanceTask(c, s, i).value, i, n - 1);
      m := m + 1;
      AdvancesFront(c, s, i, m);
    }
  }

  lemma OneMore(c: Config, s: State, i: nat, n: nat)
    requires i < |s.tasks| && !s.tasks[i].Idle? && n > 0 && AdvanceTask(c, s, i).Some?
    ensures Finish(c, s, i, n) == Finish(c, AdvanceTask(c, s, i).value, i, n - 1)
  {
  }

  lemma {:induction false} AtRest(c: Config, s: State, i: nat, n: nat)
    requires i < |s.tasks| && s.tasks[i].Idle?
    ensures Finish(c, s, i, n) == Some(s)
  {
  }

  // ---- The record of an operation, appended, counted, and the region rolled if it is full ----

  ghost predicate Wrote(c: Config, s: State, seg: Segment, s': State) {
    var offset := (s.offset + seg.Size()) % U64;
    if offset >= c.threshold then s'.file == MAGIC && s'.regionID == s.regionID + 1 && s'.offset == 4
    else s'.file == s.file + Serialize(c.d, seg) && s'.regionID == s.regionID && s'.offset == offset
  }

  // The place an inode gets.
  function Placed(s: State, seg: Segment, mvcc: uint64): Node {
    Node(s.regionID % U64, s.offset, seg.Size(), seg.expiredAt, seg.createdAt, mvcc)
  }

  function AppendedTo(c: Config, t: S.State, seg: Segment, ix: Shards): S.State
    requires t.active in t.files
  {
    S.AddOffset(S.Append(t, Serialize(c.d, seg)).(index := ix), seg.Size())
  }

  lemma WroteMatches(c: Config, s: State, t: S.State, seg: Segment, s': State, ix: Shards)
    requires Matches(s, t) && CanRoll(t) && Wrote(c, s, seg, s')
    requires OwnObjects(s') && forall h: uint64 :: Lookup(ix, h) == NodeAt(s', h)
    ensures Matches(s', S.RollIfFull(AppendedTo(c, t, seg, ix), c.threshold).0)
  {
    hide Serialize, S.CreateActiveRegion, OwnObjects;
    var full := AppendedTo(c, t, seg, ix);
    if full.offset >= c.threshold { CreateResult(full); }
  }

  // ---- PutSegment ----

  lemma PutRun(c: Config, s: State, i: nat, h: uint64, seg: Segment) returns (s': State)
    requires i < |s.tasks| && s.tasks[i] == PutAppend(h, seg) && s.mu.None? && Fits(c, s, seg)
    ensures Finish(c, s, i, 5) == Some(s') && Wrote(c, s, seg, s') && s'.mu.None? && s'.tasks == s.tasks[i := Idle]
    ensures s'.heap == s.heap + [Placed(s, seg, 0)] && s'.won == s.won + [[]] && s'.index == s.index[h := |s.heap|]
  {
    hide Serialize, Fits, Finish;
    assert AdvanceTask(c, s, i).Some?;
    var s1 := AdvanceTask(c, s, i).value;
    OneMore(c, s, i, 5);
    var s2 := AdvanceTask(c, s1, i).value;
    OneMore(c, s1, i, 4);
    var s3 := AdvanceTask(c, s2, i).value;
    OneMore(c, s2, i, 3);
    var s4 := AdvanceTask(c, s3, i).value;
    OneMore(c, s3, i, 2);
    s' := AdvanceTask(c, s4, i).value;
    OneMore(c, s4, i, 1);
    AtRest(c, s', i, 0);
    assert s'.tasks == s.tasks[i := Idle];
  }

  lemma PutMatches(c: Config, s: State, t: S.State, i: nat, key: seq<byte>, seg: Segment, s': State)
    requires Matches(s, t) && CanRoll(t) && Fits(c, s, seg) && Wrote(c, s, seg, s')
    requires s'.heap == s.heap + [Placed(s, seg, 0)] && s'.won == s.won + [[]]
    requires s'.index == s.index[c.d.inodeNum(key) := |s.heap|]
    ensures Matches(s', S.PutSegment(c.d, c.threshold, t, key, seg).0)
  {
    hide Serialize, S.RollIfFull, Wrote;
    var h := c.d.inodeNum(key);
    assert s.regionID % U64 == t.regionID;
    var ix := SetNode(t.index, h, Placed(s, seg, 0));
    forall g: uint64 ensures Lookup(ix, g) == NodeAt(s', g) {
      assert Lookup(t.index, g) == NodeAt(s, g);
    }
    WroteMatches(c, s, t, seg, s', ix);
  }

  // ---- DeleteSegment ----

  lemma DeleteRun(c: Config, s: State, i: nat, h: uint64, seg: Segment) returns (s': State)
    requires i < |s.tasks| && s.tasks[i] == DelAppend(h, seg) && s.mu.None? && Fits(c, s, seg)
    ensures Finish(c, s, i, 3) == Some(s') && s'.mu.None? && s'.tasks == s.tasks[i := Idle]
    ensures s'.file == s.file + Serialize(c.d, seg) && s'.offset == (s.offset + seg.Size()) % U64
    ensures s'.regionID == s.regionID && s'.heap == s.heap && s'.won == s.won && s'.index == s.index - {h}
  {
    hide Serialize, Fits, Finish;
    var s1 := AdvanceTask(c, s, i).value;
    OneMore(c, s, i, 3);
    var s2 := AdvanceTask(c, s1, i).value;
    OneMore(c, s1, i, 2);
    s' := AdvanceTask(c, s2, i).value;
    OneMore(c, s2, i, 1);
    AtRest(c, s', i, 0);
    assert s'.tasks == s.tasks[i := Idle];
  }

  lemma DeleteMatches(c: Config, s: State, t: S.State, key: seq<byte>, now: uint64, s': State)
    requires Matches(s, t) && Fits(c, s, NewTombstoneSegment(key, now))
    requires var seg := NewTombstoneSegment(key, now);
             && s'.file == s.file + Serialize(c.d, seg) && s'.offset == (s.offset + seg.Size()) % U64
             && s'.regionID == s.regionID && s'.heap == s.heap && s'.won == s.won
             && s'.index == s.index - {c.d.inodeNum(key)}
    ensures Matches(s', S.DeleteSegment(c.d, t, key, now).0)
  {
    hide Serialize;
    var ix := DeleteNode(t.index, c.d.inodeNum(key));
    forall g: uint64 ensures Lookup(ix, g) == NodeAt(s', g) {
      assert Lookup(t.index, g) == NodeAt(s, g);
    }
  }

  // ---- UpdateSegmentWithCAS ----

  // Up to the append: the version is taken.
  function Bumped(s: State, h: uint64, expected: uint64): Node
    requires NodeAt(s, h).Some?
  {
    NodeAt(s, h).value.(mvcc := (expected + 1) % U64)
  }

  lemma CasTaken(c: Config, s: State, i: nat, h: uint64, expected: uint64, seg: Segment, n: nat) returns (s': State)
    requires i < |s.tasks| && s.tasks[i] == CasLookup(h, expected, seg) && OwnObjects(s) && n > 2
    requires NodeAt(s, h).Some? && NodeAt(s, h).value.mvcc == expected
    ensures Finish(c, s, i, n) == Finish(c, s', i, n - 2)
    ensures var o := s.index[h];
            && s'.tasks == s.tasks[i := CasAppend(o, seg)] && s'.mu == s.mu
            && s'.file == s.file && s'.regionID == s.regionID && s'.offset == s.offset && s'.index == s.index
            && s'.heap == s.heap[o := Bumped(s, h, expected)] && s'.won == s.won[o := s.won[o] + [expected]]
  {
    hide Finish;
    var s1 := AdvanceTask(c, s, i).value;
    OneMore(c, s, i, n);
    s' := AdvanceTask(c, s1, i).value;
    OneMore(c, s1, i, n - 1);
    assert s'.tasks == s.tasks[i := CasAppend(s.index[h], seg)];
  }

  // The append and the five stores.
  lemma CasStored(c: Config, s: State, i: nat, o: nat, seg: Segment, n: nat) returns (s': State)
    requires i < |s.tasks| && s.tasks[i] == CasAppend(o, seg) && s.mu.None? && Fits(c, s, seg)
    requires o < |s.heap| && n > 7
    ensures Finish(c, s, i, n) == Finish(c, s', i, n - 7)
    ensures && s'.tasks == s.tasks[i := CasCount(seg, s.regionID)] && s'.mu.None? && s'.index == s.index
            && s'.file == s.file + Serialize(c.d, seg) && s'.regionID == s.regionID && s'.offset == s.offset
            && s'.heap == s.heap[o := Placed(s, seg, s.heap[o].mvcc)] && s'.won == s.won
  {
    hide Serialize, Fits, Finish, StoreField;
    var rid, start, position := s.regionID, |s.file|, s.offset;
    var s1 := AdvanceTask(c, s, i).value;
    OneMore(c, s, i, n);
    var s2 := AdvanceTask(c, s1, i).value;
    OneMore(c, s1, i, n - 1);
    assert s2.tasks == s.tasks[i := CasStore(o, seg, rid, start, position, 0)];
    s' := FiveStores(c, s2, i, o, seg, rid, start, n - 2);
    assert s'.tasks == s.tasks[i := CasCount(seg, s.regionID)];
  }

  lemma StoreOne(c: Config, s: State, i: nat, o: nat, seg: Segment, rid: nat, start: nat, position: uint64, field: nat,
                 n: nat)
    returns (s': State)
    requires i < |s.tasks| && o < |s.heap| && field < 5 && n > 0
    requires s.tasks[i] == CasStore(o, seg, rid, start, position, field)
    ensures Finish(c, s, i, n) == Finish(c, s', i, n - 1)
    ensures var next := if field < 4 then CasStore(o, seg, rid, start, position, field + 1) else CasCount(seg, rid);
            s' == Goto(s.(heap := s.heap[o := StoreField(s, s.heap[o], seg, position, field)]), i, next)
  {
    hide StoreField, Finish;
    s' := AdvanceTask(c, s, i).value;
    OneMore(c, s, i, n);
  }

  lemma FiveStores(c: Config, s: State, i: nat, o: nat, seg: Segment, rid: nat, start: nat, n: nat)
    returns (s': State)
    requires i < |s.tasks| && o < |s.heap| && n > 5
    requires s.tasks[i] == CasStore(o, seg, rid, start, s.offset, 0)
    ensures Finish(c, s, i, n) == Finish(c, s', i, n - 5)
    ensures && s'.tasks == s.tasks[i := CasCount(seg, rid)] && s'.mu == s.mu && s'.index == s.index
            && s'.file == s.file && s'.regionID == s.regionID && s'.offset == s.offset && s'.won == s.won
            && s'.heap == s.heap[o := Placed(s, seg, s.heap[o].mvcc)]
  {
    hide Finish;
    var position := s.offset;
    var s1 := StoreOne(c, s, i, o, seg, rid, start, position, 0, n);
    var s2 := StoreOne(c, s1, i, o, seg, rid, start, position, 1, n - 1);
    var s3 := StoreOne(c, s2, i, o, seg, rid, start, position, 2, n - 2);
    var s4 := StoreOne(c, s3, i, o, seg, rid, start, position, 3, n - 3);
    s' := StoreOne(c, s4, i, o, seg, rid, start, position, 4, n - 4);
    assert s'.tasks == s.tasks[i := CasCount(seg, rid)];
    assert s'.heap == s.heap[o := Placed(s, seg, s.heap[o].mvcc)];
  }

  // Counting the record, and a new region if it is full.
  lemma CasCounted(c: Config, s: State, i: nat, seg: Segment, n: nat) returns (s': State)
    requires i < |s.tasks| && s.tasks[i] == CasCount(seg, s.regionID) && s.mu.None? && n > 3
    ensures Finish(c, s, i, n) == Some(s')
    ensures && s'.tasks == s.tasks[i := Idle] && s'.mu.None? && s'.heap == s.heap && s'.won == s.won
            && s'.index == s.index
            && var offset := (s.offset + seg.Size()) % U64;
               if offset >= c.threshold then s'.file == MAGIC && s'.regionID == s.regionID + 1 && s'.offset == 4
               else s'.file == s.file && s'.regionID == s.regionID && s'.offset == offset
  {
    hide Finish;
    var s1 := AdvanceTask(c, s, i).value;
    OneMore(c, s, i, n);
    var s2 := AdvanceTask(c, s1, i).value;
    OneMore(c, s1, i, n - 1);
    if s1.offset >= c.threshold {
      s' := AdvanceTask(c, s2, i).value;
      OneMore(c, s2, i, n - 2);
      AtRest(c, s', i, n - 3);
    } else {
      s' := s2;
      AtRest(c, s', i, n - 2);
    }
    assert s'.tasks == s.tasks[i := Idle];
  }

  // An update that succeeds, all together.
  lemma CasRun(c: Config, s: State, i: nat, h: uint64, expected: uint64, seg: Segment) returns (s': State)
    requires i < |s.tasks| && s.tasks[i] == CasLookup(h, expected, seg) && OwnObjects(s) && s.mu.None?
    requires NodeAt(s, h).Some? && NodeAt(s, h).value.mvcc == expected && Fits(c, s, seg)
    ensures Finish(c, s, i, 14) == Some(s') && Wrote(c, s, seg, s') && s'.mu.None? && s'.tasks == s.tasks[i := Idle]
    ensures var o := s.index[h];
            && s'.heap == s.heap[o := Placed(s, seg, (expected + 1) % U64)] && |s'.won| == |s.won|
            && s'.index == s.index
  {
    hide Finish, Serialize, StoreField;
    var s1 := CasTaken(c, s, i, h, expected, seg, 14);
    var s2 := CasStored(c, s1, i, s.index[h], seg, 12);
    s' := CasCounted(c, s2, i, seg, 5);
    assert s'.tasks == s.tasks[i := Idle];
  }

  lemma CasMatches(c: Config, s: State, t: S.State, key: seq<byte>, expected: uint64, seg: Segment, s': State)
    requires Matches(s, t) && CanRoll(t) && Fits(c, s, seg) && Wrote(c, s, seg, s')
    requires NodeAt(s, c.d.inodeNum(key)).Some? && NodeAt(s, c.d.inodeNum(key)).value.mvcc == expected
    requires var o := s.index[c.d.inodeNum(key)];
             && s'.heap == s.heap[o := Placed(s, seg, (expected + 1) % U64)] && |s'.won| == |s.won|
             && s'.index == s.index
    ensures Matches(s', S.UpdateSegmentWithCAS(c.d, c.threshold, t, key, expected, seg).0)
  {
    hide Serialize, S.RollIfFull, Wrote, S.UpdateSegmentWithCAS;
    var h := c.d.inodeNum(key);
    assert s.regionID % U64 == t.regionID;
    var ix := SetNode(t.index, h, Placed(s, seg, (expected + 1) % U64));
    assert Lookup(t.index, h) == NodeAt(s, h);
    forall g: uint64 ensures Lookup(ix, g) == NodeAt(s', g) {
      assert Lookup(t.index, g) == NodeAt(s, g);
    }
    WroteMatches(c, s, t, seg, s', ix);
    S.CasResult(c.d, c.threshold, t, key, expected, seg);
  }

  // One whose record does not fit.
  lemma CasUnfit(c: Config, s: State, i: nat, h: uint64, expected: uint64, seg: Segment) returns (s': State)
    requires i < |s.tasks| && s.tasks[i] == CasLookup(h, expected, seg) && OwnObjects(s) && s.mu.None?
    requires NodeAt(s, h).Some? && NodeAt(s, h).value.mvcc == expected && !Fits(c, s, seg)
    ensures Finish(c, s, i, 14) == Some(s') && s'.mu.None? && s'.tasks == s.tasks[i := Idle]
    ensures var o := s.index[h];
            && s'.heap == s.heap[o := Bumped(s, h, expected)] && |s'.won| == |s.won| && s'.index == s.index
            && s'.file == s.file && s'.regionID == s.regionID && s'.offset == s.offset
  {
    hide Finish, Serialize;
    var s1 := CasTaken(c, s, i, h, expected, seg, 14);
    s' := AdvanceTask(c, s1, i).value;
    OneMore(c, s1, i, 12);
    AtRest(c, s', i, 11);
    assert s'.tasks == s.tasks[i := Idle];
  }

  lemma UnfitMatches(c: Config, s: State, t: S.State, key: seq<byte>, expected: uint64, seg: Segment, s': State)
    requires Matches(s, t) && !Fits(c, s, seg)
    requires NodeAt(s, c.d.inodeNum(key)).Some? && NodeAt(s, c.d.inodeNum(key)).value.mvcc == expected
    requires var h := c.d.inodeNum(key);
             && s'.heap == s.heap[s.index[h] := Bumped(s, h, expected)] && |s'.won| == |s.won| && s'.index == s.index
             && s'.file == s.file && s'.regionID == s.regionID && s'.offset == s.offset
    ensures Matches(s', S.UpdateSegmentWithCAS(c.d, c.threshold, t, key, expected, seg).0)
  {
    hide Serialize, S.UpdateSegmentWithCAS;
    var h := c.d.inodeNum(key);
    assert Lookup(t.index, h) == NodeAt(s, h);
    forall g: uint64 ensures Lookup(SetNode(t.index, h, Bumped(s, h, expected)), g) == NodeAt(s', g) {
      assert Lookup(t.index, g) == NodeAt(s, g);
    }
    S.CasUnwritten(c.d, c.threshold, t, key, expected, seg);
  }

  // One that is refused.
  lemma CasRefusedRun(c: Config, s: State, i: nat, h: uint64, expected: uint64, seg: Segment) returns (s': State)
    requires i < |s.tasks| && s.tasks[i] == CasLookup(h, expected, seg) && OwnObjects(s)
    requires NodeAt(s, h).Some? ==> NodeAt(s, h).value.mvcc != expected
    ensures Finish(c, s, i, 14) == Some(s') && s' == Goto(s, i, Idle)
  {
    hide Finish;
    var s1 := AdvanceTask(c, s, i).value;
    OneMore(c, s, i, 14);
    if h in s.index {
      s' := AdvanceTask(c, s1, i).value;
      OneMore(c, s1, i, 13);
      AtRest(c, s', i, 12);
    } else {
      s' := s1;
      AtRest(c, s', i, 13);
    }
    assert s'.tasks == s.tasks[i := Idle];
  }

  lemma UnfitRun(c: Config, s: State, i: nat) returns (s': State)
    requires i < |s.tasks| && s.mu.None?
    requires s.tasks[i].PutAppend? || s.tasks[i].DelAppend?
    requires !Fits(c, s, s.tasks[i].seg)
    ensures Finish(c, s, i, 14) == Some(s') && s' == Goto(s, i, Idle)
  {
    hide Finish, Fits, Serialize;
    s' := AdvanceTask(c, s, i).value;
    OneMore(c, s, i, 14);
    AtRest(c, s', i, 13);
  }

  // ---- The three operations ----

  // The thread comes to rest, and whenever it does, the store is as the atomic step leaves it.
  ghost predicate EndsAs(c: Config, s: State, i: nat, op: Op, t': S.State) {
    && (exists n :: RestsAfter(c, s, i, op, n))
    && forall n :: RestsAfter(c, s, i, op, n) ==>
         var s' := Run(c, s, Alone(i, op, n)).value;
         Matches(s', t') && s'.mu.None? && s'.tasks == s.tasks
  }

  ghost predicate RestsAfter(c: Config, s: State, i: nat, op: Op, n: nat) {
    var r := Run(c, s, Alone(i, op, n));
    r.Some? && i < |r.value.tasks| && r.value.tasks[i].Idle?
  }

  lemma {:induction false} Ends(c: Config, s: State, i: nat, op: Op, s': State, t': S.State)
    requires i < |s.tasks| && s.tasks[i].Idle? && OpWellFormed(op)
    requires Finish(c, Goto(s, i, Begin(op)), i, 14) == Some(s')
    requires Matches(s', t') && s'.mu.None? && s'.tasks == s.tasks
    ensures EndsAs(c, s, i, op, t')
  {
    hide Finish, Matches, Advances, Run;
    var s1 := Goto(s, i, Begin(op));
    assert Step(c, s, Invoke(i, op)) == Some(s1);
    var m := GetsThere(c, s1, i, 14);
    AloneAdvances(c, s, i, op, m);
    assert RestsAfter(c, s, i, op, m);
    forall n | RestsAfter(c, s, i, op, n) ensures Run(c, s, Alone(i, op, n)) == Some(s') {
      AloneAdvances(c, s, i, op, n);
      RestsThere(c, s1, i, 14, n);
    }
  }

  lemma {:induction false} MoreFuel(c: Config, s: State, i: nat, n: nat, m: nat)
    requires Finish(c, s, i, n).Some? && n <= m
    ensures Finish(c, s, i, m) == Finish(c, s, i, n)
    decreases n
  {
    hide AdvanceTask;
    if !s.tasks[i].Idle? { MoreFuel(c, AdvanceTask(c, s, i).value, i, n - 1, m - 1); }
  }

  // While the others rest, a put step by step is the atomic put.
  lemma PutAlone(c: Config, s: State, t: S.State, i: nat, key: seq<byte>, seg: Segment)
    requires Matches(s, t) && CanRoll(t) && i < |s.tasks| && s.tasks[i].Idle? && s.mu.None? && seg.WellFormed()
    ensures EndsAs(c, s, i, Put(c.d.inodeNum(key), seg), S.PutSegment(c.d, c.threshold, t, key, seg).0)
  {
    hide Matches, Wrote, Finish, S.PutSegment, Serialize, EndsAs;
    var h := c.d.inodeNum(key);
    var op, s1 := Put(h, seg), Goto(s, i, Begin(Put(h, seg)));
    var s';
    if Fits(c, s, seg) {
      s' := PutRun(c, s1, i, h, seg);
      MoreFuel(c, s1, i, 5, 14);
      assert Matches(s1, t) by { SameStore(s, s1, t); }
      PutMatches(c, s1, t, i, key, seg, s');
    } else {
      s' := UnfitRun(c, s1, i);
      SameStore(s, s', t);
      PutUnfit(c, s, t, key, seg);
    }
    assert s'.tasks == s.tasks;
    Ends(c, s, i, op, s', S.PutSegment(c.d, c.threshold, t, key, seg).0);
  }

  lemma SameStore(s: State, s': State, t: S.State)
    requires Matches(s, t) && s'.file == s.file && s'.regionID == s.regionID && s'.offset == s.offset
    requires s'.heap == s.heap && s'.won == s.won && s'.index == s.index
    ensures Matches(s', t)
  {
    forall h: uint64 ensures Lookup(t.index, h) == NodeAt(s', h) {
      assert Lookup(t.index, h) == NodeAt(s, h);
    }
  }

  lemma PutUnfit(c: Config, s: State, t: S.State, key: seq<byte>, seg: Segment)
    requires Matches(s, t) && !Fits(c, s, seg)
    ensures S.PutSegment(c.d, c.threshold, t, key, seg).0 == t
  {
    hide Serialize;
  }

  lemma DeleteUnfit(c: Config, s: State, t: S.State, key: seq<byte>, now: uint64)
    requires Matches(s, t) && !Fits(c, s, NewTombstoneSegment(key, now))
    ensures S.DeleteSegment(c.d, t, key, now).0 == t
  {
    hide Serialize;
  }

  // A delete.
  lemma DeleteAlone(c: Config, s: State, t: S.State, i: nat, key: seq<byte>, now: uint64)
    requires Matches(s, t) && i < |s.tasks| && s.tasks[i].Idle? && s.mu.None? && 30 + |key| < U32
    ensures EndsAs(c, s, i, Delete(c.d.inodeNum(key), NewTombstoneSegment(key, now)),
                   S.DeleteSegment(c.d, t, key, now).0)
  {
    hide Matches, Finish, S.DeleteSegment, Serialize, EndsAs;
    var h, seg := c.d.inodeNum(key), NewTombstoneSegment(key, now);
    var op, s1 := Delete(h, seg), Goto(s, i, Begin(Delete(h, seg)));
    var s';
    if Fits(c, s, seg) {
      s' := DeleteRun(c, s1, i, h, seg);
      MoreFuel(c, s1, i, 3, 14);
      assert Matches(s1, t) by { SameStore(s, s1, t); }
      DeleteMatches(c, s1, t, key, now, s');
    } else {
      s' := UnfitRun(c, s1, i);
      SameStore(s, s', t);
      DeleteUnfit(c, s, t, key, now);
    }
    assert s'.tasks == s.tasks;
    Ends(c, s, i, op, s', S.DeleteSegment(c.d, t, key, now).0);
  }

  // An update, taken or refused.
  lemma CasAlone(c: Config, s: State, t: S.State, i: nat, key: seq<byte>, expected: uint64, seg: Segment)
    requires Matches(s, t) && CanRoll(t) && i < |s.tasks| && s.tasks[i].Idle? && s.mu.None? && seg.WellFormed()
    ensures EndsAs(c, s, i, Cas(c.d.inodeNum(key), expected, seg),
                   S.UpdateSegmentWithCAS(c.d, c.threshold, t, key, expected, seg).0)
  {
    var h := c.d.inodeNum(key);
    assert OwnObjects(s) && Lookup(t.index, h) == NodeAt(s, h);
    hide Matches, Wrote, Finish, S.UpdateSegmentWithCAS, Serialize, EndsAs;
    var op, s1 := Cas(h, expected, seg), Goto(s, i, Begin(Cas(h, expected, seg)));
    assert Matches(s1, t) by { SameStore(s, s1, t); }
    var s';
    if NodeAt(s, h).None? || NodeAt(s, h).value.mvcc != expected {
      s' := CasRefusedRun(c, s1, i, h, expected, seg);
      SameStore(s, s', t);
      S.CasRefused(c.d, c.threshold, t, key, expected, seg);
    } else if Fits(c, s, seg) {
      s' := CasRun(c, s1, i, h, expected, seg);
      CasMatches(c, s1, t, key, expected, seg, s');
    } else {
      s' := CasUnfit(c, s1, i, h, expected, seg);
      UnfitMatches(c, s1, t, key, expected, seg, s');
    }
    assert s'.tasks == s.tasks;
    Ends(c, s, i, op, s', S.UpdateSegmentWithCAS(c.d, c.threshold, t, key, expected, seg).0);
  }
}
