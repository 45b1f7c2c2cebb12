// The concurrent snapshot loader (function recoveryIndex, vfs/lfs.go:608-681): a producer decodes records and sends
// them through a queue, a consumer stores them, the caller waits for both. One step is one channel or shared-memory
// action.

module Loader {
  import opened Wrappers
  import opened Bytes
  import opened Segments
  import opened Index

  datatype LoadError = ReadFailed | BadRecord | NoShard

  datatype Producer = Checking | Reading | Sending(item: Item) | Failing(cause: LoadError) | Closing | Finished

  datatype Consumer = Receiving | Storing(stored: Item) | Refusing | Stopped

  datatype Caller = Waiting | Selecting | Returned(outcome: Option<LoadError>)

  datatype State = State(
    producer: Producer, offset: nat, nqueue: seq<Item>, closed: bool,
    consumer: Consumer, index: Shards, equeue: seq<LoadError>, caller: Caller)

  // missing: the shards that are nil; OpenFS leaves none nil.
  datatype Input = Input(d: Digests, file: seq<byte>, missing: set<nat>)

  datatype Actor = Produce | Consume | Call

  // make(chan index, (finfo.Size()-offset)/48): Go's division truncates toward zero.
  function Capacity(c: Input): nat {
    if |c.file| < 4 then 0 else (|c.file| - 4) / NODE_SIZE
  }

  const START := State(Checking, 4, [], false, Receiving, EMPTY, [], Waiting)

  // ---- Steps; None: the actor is blocked, or has finished ----

  function ProducerStep(c: Input, s: State): Option<State> {
    match s.producer
    case Checking =>
      if s.offset < |c.file| && s.equeue == [] then Some(s.(producer := Reading)) else Some(s.(producer := Closing))
    case Reading =>
      if s.offset + NODE_SIZE > |c.file| then Some(s.(producer := Failing(ReadFailed))) else
        var item := DeserializeIndex(c.d, c.file[s.offset..s.offset + NODE_SIZE]);
        Some(s.(offset := s.offset + NODE_SIZE,
                producer := if item.None? then Failing(BadRecord) else Sending(item.value)))
    case Sending(item) =>
      if |s.nqueue| >= Capacity(c) then None else Some(s.(nqueue := s.nqueue + [item], producer := Checking))
    case Failing(e) =>
      if s.equeue != [] then None else Some(s.(equeue := [e], producer := Closing))
    case Closing => Some(s.(closed := true, producer := Finished))
    case Finished => None
  }

  function ConsumerStep(c: Input, s: State): Option<State> {
    match s.consumer
    case Receiving =>
      if s.nqueue != [] then Some(s.(nqueue := s.nqueue[1..], consumer := Storing(s.nqueue[0])))
      else if s.closed then Some(s.(consumer := Stopped))
      else None
    case Storing(item) =>
      if item.0 % INDEX_SHARD in c.missing then Some(s.(consumer := Refusing))
      else Some(s.(index := SetNode(s.index, item.0, item.1), consumer := Receiving))
    case Refusing =>
      if s.equeue != [] then None else Some(s.(equeue := [NoShard], consumer := Stopped))
    case Stopped => None
  }

  function CallerStep(s: State): Option<State> {
    match s.caller
    case Waiting =>
      if s.producer.Finished? && s.consumer.Stopped? then Some(s.(caller := Selecting)) else None
    case Selecting =>
      if s.equeue != [] then Some(s.(equeue := s.equeue[1..], caller := Returned(Some(s.equeue[0]))))
      else Some(s.(caller := Returned(None)))
    case Returned(_) => None
  }

  function Step(c: Input, s: State, who: Actor): Option<State> {
    match who
    case Produce => ProducerStep(c, s)
    case Consume => ConsumerStep(c, s)
    case Call => CallerStep(s)
  }

  // The state after the actors moved in this order, each move being possible.
  function Run(c: Input, s: State, schedule: seq<Actor>): Option<State> {
    if schedule == [] then Some(s) else
      match Run(c, s, schedule[..|schedule| - 1])
      case None => None
      case Some(s') => Step(c, s', schedule[|schedule| - 1])
  }

  predicate Deadlocked(c: Input, s: State) {
    !s.caller.Returned? && forall who: Actor :: Step(c, s, who).None?
  }

  // ---- The file, record by record ----

  predicate Whole(c: Input, k: nat) {
    4 + 48 * (k + 1) <= |c.file|
  }

  function ItemAt(c: Input, k: nat): Option<Item> {
    if Whole(c, k) then DeserializeIndex(c.d, c.file[4 + 48 * k..4 + 48 * k + NODE_SIZE]) else None
  }

  ghost predicate GoodBelow(c: Input, n: nat) {
    forall k: nat :: k < n ==> ItemAt(c, k).Some?
  }

  // The record at which reading fails.
  ghost predicate BadAt(c: Input, n: nat) {
    GoodBelow(c, n) && 4 + 48 * n < |c.file| && ItemAt(c, n).None?
  }

  // The file holds n records and nothing else.
  ghost predicate GoodFile(c: Input, n: nat) {
    GoodBelow(c, n) && 4 + 48 * n >= |c.file|
  }

  predicate MissingAt(c: Input, k: nat) {
    ItemAt(c, k).Some? && ItemAt(c, k).value.0 % INDEX_SHARD in c.missing
  }

  // The index after storing the first n records.
  ghost function Stored(c: Input, n: nat): Shards
    requires GoodBelow(c, n)
  {
    if n == 0 then EMPTY else SetNode(Stored(c, n - 1), ItemAt(c, n - 1).value.0, ItemAt(c, n - 1).value.1)
  }

  lemma {:induction false} LoadNext(c: Input, k: nat, ix: Shards)
    requires ItemAt(c, k).Some?
    ensures LoadFrom(c.d, c.file, 4 + 48 * k, ix)
            == LoadFrom(c.d, c.file, 4 + 48 * (k + 1), SetNode(ix, ItemAt(c, k).value.0, ItemAt(c, k).value.1))
  {
    hide DeserializeIndex, SetNode;
  }

  lemma {:induction false} LoadsStored(c: Input, n: nat)
    requires GoodBelow(c, n)
    ensures LoadFrom(c.d, c.file, 4, EMPTY) == LoadFrom(c.d, c.file, 4 + 48 * n, Stored(c, n))
  {
    hide ItemAt, LoadFrom, SetNode;
    if n > 0 {
      LoadsStored(c, n - 1);
      LoadNext(c, n - 1, Stored(c, n - 1));
    }
  }

  // The sequential decode succeeds exactly on a file of whole, valid records.
  lemma {:induction false} LoadResult(c: Input, n: nat)
    ensures GoodFile(c, n) ==> LoadFrom(c.d, c.file, 4, EMPTY) == Some(Stored(c, n))
    ensures BadAt(c, n) ==> LoadFrom(c.d, c.file, 4, EMPTY).None?
  {
    if GoodBelow(c, n) { LoadsStored(c, n); }
  }

  // ---- The invariant ----

  // sent: records that entered the queue; taken: records that left it; failed, refused: the producer, the consumer
  // has reported an error.
  datatype Progress = Progress(sent: nat, taken: nat, failed: bool, refused: bool)

  ghost predicate ProducerOk(c: Input, s: State, p: Progress) {
    && GoodBelow(c, p.sent)
    && (s.closed <==> s.producer.Finished?)
    && match s.producer
       case Checking => s.offset == 4 + 48 * p.sent && !p.failed
       case Reading => s.offset == 4 + 48 * p.sent && !p.failed && s.offset < |c.file|
       case Sending(item) => s.offset == 4 + 48 * (p.sent + 1) && !p.failed && ItemAt(c, p.sent) == Some(item)
       case Failing(e) => BadAt(c, p.sent) && !p.failed && e == Cause(c, p.sent)
       case _ => if p.failed then BadAt(c, p.sent) else p.refused || GoodFile(c, p.sent)
  }

  ghost predicate ConsumerOk(c: Input, s: State, p: Progress) {
    && p.taken <= p.sent && GoodBelow(c, p.taken)
    && |s.nqueue| == p.sent - p.taken
    && (forall i :: 0 <= i < |s.nqueue| ==> ItemAt(c, p.taken + i) == Some(s.nqueue[i]))
    && (forall k: nat :: k + 1 < p.taken ==> !MissingAt(c, k))
    && match s.consumer
       case Receiving => !p.refused && s.index == Stored(c, p.taken) && NoneMissing(c, p.taken)
       case Storing(item) =>
         !p.refused && p.taken > 0 && ItemAt(c, p.taken - 1) == Some(item) && s.index == Stored(c, p.taken - 1)
       case Refusing => !p.refused && p.taken > 0 && MissingAt(c, p.taken - 1)
       case Stopped =>
         if p.refused then p.taken > 0 && MissingAt(c, p.taken - 1)
         else s.nqueue == [] && s.closed && s.index == Stored(c, p.taken) && NoneMissing(c, p.taken)
  }

  ghost predicate NoneMissing(c: Input, n: nat) {
    forall k: nat :: k < n ==> !MissingAt(c, k)
  }

  // Why record n cannot be read.
  function Cause(c: Input, n: nat): LoadError {
    if 4 + 48 * (n + 1) > |c.file| then ReadFailed else BadRecord
  }

  function Errors(c: Input, p: Progress): seq<LoadError> {
    if p.failed then [Cause(c, p.sent)] else if p.refused then [NoShard] else []
  }

  ghost predicate ErrorsOk(c: Input, s: State, p: Progress) {
    && !(p.failed && p.refused)
    && match s.caller
       case Waiting => s.equeue == Errors(c, p)
       case Selecting =>
         && s.equeue == Errors(c, p)
         && s.producer.Finished? && s.consumer.Stopped?
       case Returned(outcome) =>
         && outcome == (if Errors(c, p) == [] then None else Some(Errors(c, p)[0])) && s.equeue == []
         && s.producer.Finished? && s.consumer.Stopped?
  }

  ghost predicate Inv(c: Input, s: State, p: Progress) {
    ProducerOk(c, s, p) && ConsumerOk(c, s, p) && ErrorsOk(c, s, p)
  }

  lemma ReaderKeeps(c: Input, s: State, p: Progress)
    requires Inv(c, s, p) && s.producer.Reading?
    ensures ProducerOk(c, ProducerStep(c, s).value, p)
  {
    hide DeserializeIndex, ConsumerOk, ErrorsOk;
    assert Whole(c, p.sent) ==>
             ItemAt(c, p.sent) == DeserializeIndex(c.d, c.file[s.offset..s.offset + NODE_SIZE]);
  }

  lemma SenderKeeps(c: Input, s: State, p: Progress)
    requires Inv(c, s, p) && s.producer.Sending? && ProducerStep(c, s).Some?
    ensures Inv(c, ProducerStep(c, s).value, p.(sent := p.sent + 1))
  {
    hide ItemAt, Stored, NoneMissing, MissingAt;
    assert GoodBelow(c, p.sent + 1);
  }

  lemma ProducerKeeps(c: Input, s: State, p: Progress) returns (p': Progress)
    requires Inv(c, s, p) && ProducerStep(c, s).Some?
    ensures Inv(c, ProducerStep(c, s).value, p')
  {
    hide DeserializeIndex, ItemAt, Stored, NoneMissing, MissingAt, GoodBelow;
    p' := p;
    match s.producer
    case Reading => ReaderKeeps(c, s, p);
    case Sending(_) =>
      p' := p.(sent := p.sent + 1);
      SenderKeeps(c, s, p);
    case Failing(_) => p' := p.(failed := true);
    case _ =>
  }

  lemma ReceiverKeeps(c: Input, s: State, p: Progress)
    requires Inv(c, s, p) && s.consumer.Receiving? && s.nqueue != []
    ensures Inv(c, ConsumerStep(c, s).value, p.(taken := p.taken + 1))
  {
    hide ItemAt, Stored;
    assert ItemAt(c, p.taken + 0) == Some(s.nqueue[0]);
    forall i | 0 <= i < |s.nqueue| - 1 ensures ItemAt(c, p.taken + 1 + i) == Some(s.nqueue[1..][i]) {
      assert ItemAt(c, p.taken + (i + 1)) == Some(s.nqueue[i + 1]);
    }
  }

  lemma ConsumerKeeps(c: Input, s: State, p: Progress) returns (p': Progress)
    requires Inv(c, s, p) && ConsumerStep(c, s).Some?
    ensures Inv(c, ConsumerStep(c, s).value, p')
  {
    hide ItemAt, SetNode, ProducerOk;
    p' := p;
    match s.consumer
    case Receiving =>
      if s.nqueue != [] {
        p' := p.(taken := p.taken + 1);
        ReceiverKeeps(c, s, p);
      } else {
        assert ProducerOk(c, s.(consumer := Stopped), p) by { SameProducer(c, s, s.(consumer := Stopped), p); }
      }
    case Storing(item) =>
      SameProducer(c, s, ConsumerStep(c, s).value, p);
    case Refusing =>
      p' := p.(refused := true);
      RefuserKeeps(c, s, p);
  }

  lemma SameProducer(c: Input, s: State, s': State, p: Progress)
    requires ProducerOk(c, s, p)
    requires s'.producer == s.producer && s'.offset == s.offset && s'.closed == s.closed
    ensures ProducerOk(c, s', p) && ProducerOk(c, s', p.(refused := true))
  {
  }

  lemma RefuserKeeps(c: Input, s: State, p: Progress)
    requires Inv(c, s, p) && s.consumer.Refusing? && ConsumerStep(c, s).Some?
    ensures Inv(c, ConsumerStep(c, s).value, p.(refused := true))
  {
    hide ItemAt, MissingAt, Stored, ProducerOk;
    SameProducer(c, s, ConsumerStep(c, s).value, p);
  }

  lemma StepKeeps(c: Input, s: State, p: Progress, who: Actor) returns (p': Progress)
    requires Inv(c, s, p) && Step(c, s, who).Some?
    ensures Inv(c, Step(c, s, who).value, p')
  {
    hide Inv, ProducerStep, ConsumerStep, CallerStep;
    match who
    case Produce => p' := ProducerKeeps(c, s, p);
    case Consume => p' := ConsumerKeeps(c, s, p);
    case Call =>
      p' := p;
      CallerKeeps(c, s, p);
  }

  lemma CallerKeeps(c: Input, s: State, p: Progress)
    requires Inv(c, s, p) && CallerStep(s).Some?
    ensures Inv(c, CallerStep(s).value, p)
  {
    hide ItemAt, Stored, MissingAt, NoneMissing, GoodBelow, BadAt, GoodFile;
  }

  lemma {:induction false} RunKeeps(c: Input, schedule: seq<Actor>) returns (p: Progress)
    requires Run(c, START, schedule).Some?
    ensures Inv(c, Run(c, START, schedule).value, p)
  {
    hide Inv, Step;
    if schedule == [] {
      p := Progress(0, 0, false, false);
      StartOk(c);
    } else {
      var init := schedule[..|schedule| - 1];
      p := RunKeeps(c, init);
      p := StepKeeps(c, Run(c, START, init).value, p, schedule[|schedule| - 1]);
    }
  }

  lemma StartOk(c: Input)
    ensures Inv(c, START, Progress(0, 0, false, false))
  {
  }

  // ---- In every interleaving ----

  // The queue has a place for each whole record of the file.
  lemma CapacityIs(c: Input, k: nat)
    ensures k < Capacity(c) <==> 4 + 48 * (k + 1) <= |c.file|
  {
  }

  // The queue never fills, so a send never blocks; at most one error is ever waiting.
  lemma {:induction false} QueuesSuffice(c: Input, schedule: seq<Actor>)
    requires Run(c, START, schedule).Some?
    ensures var s := Run(c, START, schedule).value;
            && |s.nqueue| <= Capacity(c) && |s.equeue| <= 1
            && (s.producer.Sending? ==> |s.nqueue| < Capacity(c))
  {
    var p := RunKeeps(c, schedule);
    var s := Run(c, START, schedule).value;
    hide Run;
    QueueBound(c, s, p);
  }

  lemma QueueBound(c: Input, s: State, p: Progress)
    requires Inv(c, s, p)
    ensures |s.nqueue| <= Capacity(c)
    ensures s.producer.Sending? ==> |s.nqueue| < Capacity(c)
  {
    if p.sent > 0 { assert ItemAt(c, p.sent - 1).Some?; }
  }

  function ProducerRank(c: Input, s: State): nat {
    var left := if s.offset < |c.file| then |c.file| - s.offset else 0;
    match s.producer
    case Checking => left + 4
    case Reading => left + 3
    case Sending(_) => left + 10
    case Failing(_) => 2
    case Closing => 1
    case Finished => 0
  }

  function ConsumerRank(s: State): nat {
    match s.consumer
    case Receiving => 2
    case Storing(_) => 3
    case Refusing => 1
    case Stopped => 0
  }

  function CallerRank(s: State): nat {
    match s.caller
    case Waiting => 2
    case Selecting => 1
    case Returned(_) => 0
  }

  // What is left to do; every step makes it smaller.
  function Measure(c: Input, s: State): nat {
    ProducerRank(c, s) + 2 * |s.nqueue| + ConsumerRank(s) + CallerRank(s)
  }

  lemma ProducerDecreases(c: Input, s: State)
    requires ProducerStep(c, s).Some?
    ensures Measure(c, ProducerStep(c, s).value) < Measure(c, s)
  {
    hide DeserializeIndex;
    if s.producer.Reading? && s.offset + NODE_SIZE <= |c.file| {
      var s' := ProducerStep(c, s).value;
      assert s'.offset == s.offset + 48 && s'.nqueue == s.nqueue;
      assert ProducerRank(c, s') <= |c.file| - s'.offset + 10;
    }
  }

  lemma ConsumerDecreases(c: Input, s: State)
    requires ConsumerStep(c, s).Some?
    ensures Measure(c, ConsumerStep(c, s).value) < Measure(c, s)
  {
    hide SetNode;
  }

  lemma CallerDecreases(c: Input, s: State)
    requires CallerStep(s).Some?
    ensures Measure(c, CallerStep(s).value) < Measure(c, s)
  {
  }

  lemma StepDecreases(c: Input, s: State, who: Actor)
    requires Step(c, s, who).Some?
    ensures Measure(c, Step(c, s, who).value) < Measure(c, s)
  {
    hide Measure;
    match who
    case Produce => ProducerDecreases(c, s);
    case Consume => ConsumerDecreases(c, s);
    case Call => CallerDecreases(c, s);
  }

  // Every interleaving terminates: none is longer than the file by more than a few steps.
  lemma {:induction false} RunsAreShort(c: Input, schedule: seq<Actor>)
    requires Run(c, START, schedule).Some?
    ensures |schedule| + Measure(c, Run(c, START, schedule).value) <= Measure(c, START)
    ensures |schedule| <= |c.file| + 8
  {
    hide Step, Measure;
    if schedule != [] {
      var init := schedule[..|schedule| - 1];
      RunsAreShort(c, init);
      StepDecreases(c, Run(c, START, init).value, schedule[|schedule| - 1]);
    }
    MeasureStart(c);
  }

  lemma MeasureStart(c: Input)
    ensures Measure(c, START) <= |c.file| + 8
  {
  }

  // ---- What a finished run has done ----

  lemma {:induction false} Ended(c: Input, s: State, p: Progress)
    requires Inv(c, s, p) && s.caller.Returned?
    ensures if s.caller.outcome.None? then GoodFile(c, p.sent) && NoneMissing(c, p.sent) && s.index == Stored(c, p.sent)
            else || (BadAt(c, p.sent) && s.caller.outcome.value == Cause(c, p.sent))
                 || (p.taken > 0 && MissingAt(c, p.taken - 1) && s.caller.outcome.value == NoShard)
  {
    hide Stored, MissingAt, ItemAt;
  }

  // With every shard present, a run that returns without error has built the index of the sequential decode, and one
  // that returns an error does so because the sequential decode fails.
  lemma {:induction false} ConcurrentEqualsSequential(c: Input, schedule: seq<Actor>)
    requires c.missing == {}
    requires Run(c, START, schedule).Some? && Run(c, START, schedule).value.caller.Returned?
    ensures var s := Run(c, START, schedule).value;
            match LoadFrom(c.d, c.file, 4, EMPTY)
            case Some(ix) => s.caller.outcome == None && s.index == ix
            case None => exists n: nat :: BadAt(c, n) && s.caller.outcome == Some(Cause(c, n))
  {
    var p := RunKeeps(c, schedule);
    hide Run, Stored, LoadFrom, Inv;
    Ended(c, Run(c, START, schedule).value, p);
    LoadResult(c, p.sent);
  }

  // With shards missing, the error says which of the two ends failed, and the record it failed at is there.
  lemma {:induction false} OutcomeIs(c: Input, schedule: seq<Actor>)
    requires Run(c, START, schedule).Some? && Run(c, START, schedule).value.caller.Returned?
    ensures match Run(c, START, schedule).value.caller.outcome
            case None => exists n: nat :: GoodFile(c, n) && NoneMissing(c, n)
            case Some(e) =>
              if e == NoShard then exists j: nat :: MissingAt(c, j)
              else exists n: nat :: BadAt(c, n) && e == if 4 + 48 * (n + 1) > |c.file| then ReadFailed else BadRecord
  {
    var p := RunKeeps(c, schedule);
    hide Run, Stored, Inv, MissingAt;
    Ended(c, Run(c, START, schedule).value, p);
  }

  // Once an error waits, the loader reads no further record but the one it is reading.
  lemma {:induction false} ReadsNoMore(c: Input, s: State, schedule: seq<Actor>)
    requires s.equeue != [] && s.caller.Waiting? && Run(c, s, schedule).Some?
    ensures Run(c, s, schedule).value.offset <= s.offset + if s.producer.Reading? then 48 else 0
  {
    StopsReading(c, s, schedule);
  }

  ghost predicate Stopping(s: State, s': State) {
    && (s'.caller.Waiting? ==> s'.equeue != []) && (!s'.caller.Waiting? ==> s'.producer.Finished?)
    && s'.offset + (if s'.producer.Reading? then 48 else 0) <= s.offset + if s.producer.Reading? then 48 else 0
  }

  lemma {:induction false} StopsReading(c: Input, s: State, schedule: seq<Actor>)
    requires s.equeue != [] && s.caller.Waiting? && Run(c, s, schedule).Some?
    ensures Stopping(s, Run(c, s, schedule).value)
  {
    hide DeserializeIndex;
    if schedule != [] { StopsReading(c, s, schedule[..|schedule| - 1]); }
  }

  // ---- Deadlock ----

  // A record for a missing shard comes before a record that cannot be read.
  ghost predicate Doomed(c: Input) {
    exists j: nat, k: nat :: j < k && MissingAt(c, j) && BadAt(c, k)
  }

  lemma {:induction false} NoDeadlock(c: Input, schedule: seq<Actor>)
    requires Run(c, START, schedule).Some? && Deadlocked(c, Run(c, START, schedule).value)
    ensures Doomed(c)
  {
    var p := RunKeeps(c, schedule);
    var s := Run(c, START, schedule).value;
    hide Run, Stored, LoadFrom;
    QueueBound(c, s, p);
    assert Step(c, s, Produce).None? && Step(c, s, Consume).None? && Step(c, s, Call).None?;
    assert s.producer.Failing? || s.consumer.Refusing?;
    assert p.taken > 0 && MissingAt(c, p.taken - 1) && BadAt(c, p.sent);
  }

  // With every shard present no run ever deadlocks.
  lemma {:induction false} NeverStuck(c: Input, schedule: seq<Actor>)
    requires c.missing == {} && Run(c, START, schedule).Some?
    ensures !Deadlocked(c, Run(c, START, schedule).value)
  {
    if Deadlocked(c, Run(c, START, schedule).value) { NoDeadlock(c, schedule); }
  }

  ghost predicate Reachable(c: Input, s: State) {
    exists schedule :: Run(c, START, schedule) == Some(s)
  }

  lemma ReachStart(c: Input)
    ensures Reachable(c, START)
  {
    assert Run(c, START, []) == Some(START);
  }

  lemma ReachStep(c: Input, s: State, who: Actor, s': State)
    requires Reachable(c, s) && Step(c, s, who) == Some(s')
    ensures Reachable(c, s')
  {
    hide Step;
    var schedule :| Run(c, START, schedule) == Some(s);
    assert (schedule + [who])[..|schedule|] == schedule;
    assert Run(c, START, schedule + [who]) == Some(s');
  }

  ghost function Items(c: Input, n: nat): (items: seq<Item>)
    requires GoodBelow(c, n)
    ensures |items| == n
  {
    seq(n, k requires 0 <= k < n => ItemAt(c, k).value)
  }

  // The producer alone can decode the first n records into the queue.
  lemma {:induction false} Produced(c: Input, n: nat)
    requires GoodBelow(c, n)
    ensures Reachable(c, START.(offset := 4 + 48 * n, nqueue := Items(c, n)))
  {
    hide Reachable, DeserializeIndex;
    if n == 0 {
      ReachStart(c);
      assert Items(c, 0) == [];
    } else {
      Produced(c, n - 1);
      var s := START.(offset := 4 + 48 * (n - 1), nqueue := Items(c, n - 1));
      var item := ItemAt(c, n - 1).value;
      assert Whole(c, n - 1);
      ReachStep(c, s, Produce, s.(producer := Reading));
      ReachStep(c, s.(producer := Reading), Produce, s.(producer := Sending(item), offset := 4 + 48 * n));
      assert Items(c, n) == Items(c, n - 1) + [item];
      ReachStep(c, s.(producer := Sending(item), offset := 4 + 48 * n), Produce,
                s.(offset := 4 + 48 * n, nqueue := Items(c, n)));
    }
  }

  // And then run into the bad record.
  lemma ProducedBad(c: Input, n: nat) returns (s: State)
    requires BadAt(c, n)
    ensures Reachable(c, s) && s.producer.Failing? && s.nqueue == Items(c, n)
    ensures s.consumer == Receiving && s.index == EMPTY && s.equeue == [] && s.caller == Waiting
  {
    hide Reachable, DeserializeIndex;
    Produced(c, n);
    var s0 := START.(offset := 4 + 48 * n, nqueue := Items(c, n));
    ReachStep(c, s0, Produce, s0.(producer := Reading));
    s := ProducerStep(c, s0.(producer := Reading)).value;
    ReachStep(c, s0.(producer := Reading), Produce, s);
  }

  // The consumer alone can store the first r of them.
  lemma {:induction false} Consumed(c: Input, n: nat, s: State, r: nat)
    requires GoodBelow(c, n) && r <= n && NoneMissing(c, r)
    requires Reachable(c, s) && s.nqueue == Items(c, n) && s.consumer == Receiving && s.index == EMPTY
    ensures Reachable(c, s.(nqueue := Items(c, n)[r..], index := Stored(c, r)))
  {
    hide Reachable, DeserializeIndex;
    if r == 0 {
      assert Items(c, n)[0..] == Items(c, n);
      assert s.(nqueue := Items(c, n)[0..], index := Stored(c, 0)) == s;
    } else {
      Consumed(c, n, s, r - 1);
      var s1 := s.(nqueue := Items(c, n)[r - 1..], index := Stored(c, r - 1));
      var item := ItemAt(c, r - 1).value;
      var s2 := s1.(nqueue := Items(c, n)[r..], consumer := Storing(item));
      assert s1.nqueue[1..] == Items(c, n)[r..];
      ReachStep(c, s1, Consume, s2);
      assert !MissingAt(c, r - 1);
      ReachStep(c, s2, Consume, s2.(consumer := Receiving, index := Stored(c, r)));
    }
  }

  lemma {:induction false} FirstMissing(c: Input, j: nat) returns (i: nat)
    requires MissingAt(c, j)
    ensures i <= j && MissingAt(c, i) && NoneMissing(c, i)
  {
    if NoneMissing(c, j) {
      i := j;
    } else {
      var k: nat :| k < j && MissingAt(c, k);
      i := FirstMissing(c, k);
    }
  }

  // With the producer about to report an error, a record for a missing shard locks both.
  lemma RefusedDeadlocks(c: Input, s: State, item: Item)
    requires Reachable(c, s) && s.producer.Failing? && s.consumer == Receiving && s.equeue == [] && s.caller == Waiting
    requires s.nqueue != [] && s.nqueue[0] == item && item.0 % INDEX_SHARD in c.missing
    ensures exists s' :: Reachable(c, s') && Deadlocked(c, s')
  {
    hide Reachable;
    var s1 := s.(nqueue := s.nqueue[1..], consumer := Storing(item));
    ReachStep(c, s, Consume, s1);
    ReachStep(c, s1, Consume, s1.(consumer := Refusing));
    var s2 := s1.(consumer := Stopped, equeue := [NoShard]);
    ReachStep(c, s1.(consumer := Refusing), Consume, s2);
    assert Deadlocked(c, s2);
  }

  lemma DoomedDeadlocks(c: Input)
    requires Doomed(c)
    ensures exists s :: Reachable(c, s) && Deadlocked(c, s)
  {
    var j0: nat, n: nat :| j0 < n && MissingAt(c, j0) && BadAt(c, n);
    var j := FirstMissing(c, j0);
    hide Reachable, Deadlocked, DeserializeIndex, Stored;
    var s := ProducedBad(c, n);
    Consumed(c, n, s, j);
    RefusedDeadlocks(c, s.(nqueue := Items(c, n)[j..], index := Stored(c, j)), ItemAt(c, j).value);
  }

  // The loader can deadlock exactly when a record for a missing shard comes before a record that cannot be read: both
  // goroutines then report an error, and nobody drains the error queue before both have ended.
  lemma DeadlockIff(c: Input)
    ensures (exists s :: Reachable(c, s) && Deadlocked(c, s)) <==> Doomed(c)
  {
    hide Doomed, Deadlocked;
    if exists s :: Reachable(c, s) && Deadlocked(c, s) {
      var s :| Reachable(c, s) && Deadlocked(c, s);
      var schedule :| Run(c, START, schedule) == Some(s);
      NoDeadlock(c, schedule);
    }
    if Doomed(c) { DoomedDeadlocks(c); }
  }
}
