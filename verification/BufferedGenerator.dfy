/**
 `buffered_generator.py`: a producer task reads a source into a bounded queue, a consumer waits
 for a threshold and yields from it. Every stretch of code between two awaits is one step; the
 two tasks, the source and the client interleave freely.
 */
module BufferedGenerator {
  import opened Wrappers

  type Byte = b: int | 0 <= b < 256
  type Chunk = seq<Byte>
  type Error = string

  /** How the source stops: a raised `CancelledError` is not an `Exception` and is not recorded. */
  datatype Outcome = Ended | Raised(error: Error) | RaisedCancelled

  datatype Item = Data(chunk: Chunk) | EndOfStream

  /** The await at which the producer task is suspended. */
  datatype Producer =
    | Pulling             // the next chunk of the source
    | Putting(chunk: Chunk) // room in the full queue, for a chunk
    | Sleeping            // sleep(0) after a put
    | Closing             // the close of the source
    | PuttingEnd          // room in the full queue, for the end marker
    | Done

  /** How the consumer leaves its loop. */
  datatype Exit = EndedClean | Failed(error: Error) | Stopped

  datatype Consumer =
    | AwaitingThreshold
    | Getting
    | Yielding                // suspended at its yield, the client has the chunk
    | Leaving(exit: Exit)     // the shutdown task is scheduled
    | Joining(exit: Exit)     // bounded wait for the producer
    | Cancelling(exit: Exit)  // bounded wait after a forced cancel
    | Finished(exit: Exit)

  datatype State = State(
    size: nat, minimum: nat,
    queue: seq<Item>, threshold: bool, cancelled: bool, error: Option<Error>,
    producer: Producer, consumer: Consumer,
    pulled: seq<Chunk>, outcome: Option<Outcome>, yielded: seq<Chunk>)

  datatype Action =
    | SourceYields(chunk: Chunk)
    | SourceStops(how: Outcome)
    | PutResumes
    | SleepEnds
    | CloseEnds
    | ThresholdSeen
    | Get
    | ClientNext
    | ClientStops
    | ShutdownStarts
    | ProducerJoined
    | JoinTimesOut

  function Threshold(minimum: int, size: nat): nat
    requires size > 1
  {
    var capped := if minimum < size then minimum else size;
    if capped < 1 then 1 else capped
  }

  /** The start of the buffered path; with a size of at most one the source is passed through. */
  function Start(size: nat, minimum: int): State
    requires size > 1
  {
    State(size, Threshold(minimum, size), [], false, false, None, Pulling, AwaitingThreshold, [], None, [])
  }

  // ----- the steps

  predicate HasRoom(s: State) {
    |s.queue| < s.size
  }

  predicate Enabled(s: State, a: Action) {
    match a
    case SourceYields(_) => s.producer.Pulling? && s.outcome.None?
    case SourceStops(_) => s.producer.Pulling? && s.outcome.None?
    case PutResumes => (s.producer.Putting? || s.producer.PuttingEnd?) && HasRoom(s)
    case SleepEnds => s.producer.Sleeping?
    case CloseEnds => s.producer.Closing?
    case ThresholdSeen => s.consumer.AwaitingThreshold? && s.threshold
    case Get => s.consumer.Getting? && s.queue != []
    case ClientNext => s.consumer.Yielding?
    case ClientStops => s.consumer.AwaitingThreshold? || s.consumer.Getting? || s.consumer.Yielding?
    case ShutdownStarts => s.consumer.Leaving?
    case ProducerJoined => (s.consumer.Joining? || s.consumer.Cancelling?) && s.producer.Done?
    case JoinTimesOut => (s.consumer.Joining? || s.consumer.Cancelling?) && !s.producer.Done?
  }

  function PutChunk(s: State, chunk: Chunk): State {
    if HasRoom(s) then
      s.(queue := s.queue + [Data(chunk)], threshold := s.threshold || |s.queue| + 1 >= s.minimum, producer := Sleeping)
    else
      s.(producer := Putting(chunk))
  }

  function PutEnd(s: State): State {
    if s.cancelled then s.(producer := Done)
    else if HasRoom(s) then s.(queue := s.queue + [EndOfStream], producer := Done)
    else s.(producer := PuttingEnd)
  }

  function Finalize(s: State, natural: bool): State {
    if natural then PutEnd(s.(threshold := true)) else s.(threshold := true, producer := Closing)
  }

  function TakeItem(s: State): State
    requires s.queue != []
  {
    var rest := s.(queue := s.queue[1..]);
    match s.queue[0]
    case Data(chunk) => rest.(yielded := s.yielded + [chunk], consumer := Yielding)
    case EndOfStream =>
      rest.(consumer := Leaving(if s.error.Some? then Failed(s.error.value) else EndedClean))
  }

  function CancelProducer(s: State): State {
    match s.producer
    case Pulling => Finalize(s, false)
    case Putting(_) => Finalize(s, false)
    case Sleeping => Finalize(s, false)
    case Closing => s
    case PuttingEnd => s.(producer := Done)
    case Done => s
  }

  function Step(s: State, a: Action): State
    requires Enabled(s, a)
  {
    match a
    case SourceYields(chunk) =>
      var t := s.(pulled := s.pulled + [chunk]);
      if s.cancelled then Finalize(t, false) else PutChunk(t, chunk)
    case SourceStops(how) =>
      var t := s.(outcome := Some(how), error := if how.Raised? then Some(how.error) else s.error);
      Finalize(t, how.Ended?)
    case PutResumes =>
      (match s.producer
       case Putting(chunk) => PutChunk(s, chunk)
       case _ => s.(queue := s.queue + [EndOfStream], producer := Done))
    case SleepEnds => s.(producer := Pulling)
    case CloseEnds => PutEnd(s)
    case ThresholdSeen => s.(consumer := Getting)
    case Get => TakeItem(s)
    case ClientNext => s.(consumer := Getting)
    case ClientStops => s.(consumer := Leaving(Stopped))
    case ShutdownStarts => s.(cancelled := true, queue := [], consumer := Joining(s.consumer.exit))
    case ProducerJoined => s.(consumer := Finished(s.consumer.exit))
    case JoinTimesOut =>
      if s.consumer.Joining? then CancelProducer(s).(consumer := Cancelling(s.consumer.exit))
      else s.(consumer := Finished(s.consumer.exit))
  }

  /** The state after a run; every step of the run has to be enabled. */
  ghost predicate Run(s: State, actions: seq<Action>, t: State)
    decreases |actions|
  {
    if actions == [] then s == t
    else Enabled(s, actions[0]) && Run(Step(s, actions[0]), actions[1..], t)
  }

  ghost predicate Reachable(s: State) {
    exists size: nat, minimum: int, actions: seq<Action> | size > 1 :: Run(Start(size, minimum), actions, s)
  }

  // ----- the invariant

  function Chunks(queue: seq<Item>): seq<Chunk> {
    if queue == [] then []
    else Chunks(queue[..|queue| - 1]) +
         if queue[|queue| - 1].Data? then [queue[|queue| - 1].chunk] else []
  }

  function InHand(s: State): seq<Chunk> {
    if s.producer.Putting? then [s.producer.chunk] else []
  }

  /** The consumer has taken the end marker. */
  predicate TookEnd(s: State) {
    && (s.consumer.Leaving? || s.consumer.Joining? || s.consumer.Cancelling? || s.consumer.Finished?)
    && !s.consumer.exit.Stopped?
  }

  predicate InShutdown(s: State) {
    s.consumer.Joining? || s.consumer.Cancelling? || s.consumer.Finished?
  }

  /** Before shutdown nothing is lost, added or reordered. */
  predicate Conserved(s: State) {
    s.yielded + Chunks(s.queue) + InHand(s) == s.pulled
  }

  predicate OnlyLastIsEnd(queue: seq<Item>) {
    forall i | 0 <= i < |queue| - 1 :: queue[i].Data?
  }

  predicate HasEnd(queue: seq<Item>) {
    queue != [] && queue[|queue| - 1].EndOfStream?
  }

  predicate Inv(s: State) {
    && 1 <= s.minimum <= s.size && 2 <= s.size
    && |s.queue| <= s.size
    && s.yielded <= s.pulled
    && OnlyLastIsEnd(s.queue)
    // before the threshold only the producer moves, and it never finds the queue full
    && (!s.threshold ==>
          && (s.consumer.AwaitingThreshold? || s.consumer.Leaving? || InShutdown(s))
          && (s.producer.Pulling? || s.producer.Sleeping? || (s.cancelled && s.producer.Putting?))
          && |s.queue| < s.minimum)
    // the source
    && (s.outcome.Some? ==> s.producer.Closing? || s.producer.PuttingEnd? || s.producer.Done?)
    && s.error == (if s.outcome.Some? && s.outcome.value.Raised? then Some(s.outcome.value.error) else None)
    // the end marker is put once, last, by a producer whose source has stopped
    && (HasEnd(s.queue) ==> s.producer.Done? && s.outcome.Some? && !TookEnd(s))
    && (s.producer.PuttingEnd? ==> s.outcome.Some?)
    && (TookEnd(s) ==>
          && s.producer.Done? && s.outcome.Some? && s.yielded == s.pulled
          && s.consumer.exit == if s.error.Some? then Failed(s.error.value) else EndedClean)
    // shutdown
    && (s.cancelled <==> InShutdown(s))
    && (!s.cancelled ==> Conserved(s))
    && (!s.cancelled && s.producer.Done? ==> HasEnd(s.queue) || TookEnd(s))
    && (!s.cancelled && s.producer.Closing? ==> s.outcome.Some?)
    && (s.cancelled ==> |s.queue| <= 1)
    && (s.cancelled && (s.producer.Putting? || s.producer.PuttingEnd?) ==> s.queue == [])
  }

  lemma NoChunks()
    ensures Chunks([]) == []
  {
  }

  lemma ChunksOfSnoc(queue: seq<Item>, item: Item)
    ensures Chunks(queue + [item]) == Chunks(queue) + if item.Data? then [item.chunk] else []
  {
    assert (queue + [item])[..|queue|] == queue;
  }

  lemma {:induction false} ChunksOfCons(queue: seq<Item>)
    requires queue != []
    ensures Chunks(queue) == (if queue[0].Data? then [queue[0].chunk] else []) + Chunks(queue[1..])
  {
    if |queue| == 1 {
      assert queue[..0] == [] && queue[1..] == [];
    } else {
      var init := queue[..|queue| - 1];
      ChunksOfCons(init);
      assert queue[1..][..|queue| - 2] == init[1..];
    }
  }

  lemma StartKeeps(size: nat, minimum: int)
    requires size > 1
    ensures Inv(Start(size, minimum))
  {
  }

  lemma SourceStepKeeps(s: State, a: Action)
    requires Inv(s) && Enabled(s, a) && (a.SourceYields? || a.SourceStops?)
    ensures Inv(Step(s, a))
  {
    hide Chunks;
    ChunksOfSnoc(s.queue, if a.SourceYields? then Data(a.chunk) else EndOfStream);
  }

  lemma ProducerStepKeeps(s: State, a: Action)
    requires Inv(s) && Enabled(s, a) && (a.PutResumes? || a.SleepEnds? || a.CloseEnds?)
    ensures Inv(Step(s, a))
  {
    hide Chunks;
    ChunksOfSnoc(s.queue, if s.producer.Putting? then Data(s.producer.chunk) else EndOfStream);
  }

  lemma ConsumerStepKeeps(s: State, a: Action)
    requires Inv(s) && Enabled(s, a) && (a.ThresholdSeen? || a.Get? || a.ClientNext? || a.ClientStops?)
    ensures Inv(Step(s, a))
  {
    hide Chunks;
    NoChunks();
    if a.Get? {
      ChunksOfCons(s.queue);
      assert s.queue[0].EndOfStream? ==> s.queue[1..] == [];
    }
  }

  lemma ShutdownStepKeeps(s: State, a: Action)
    requires Inv(s) && Enabled(s, a) && (a.ShutdownStarts? || a.ProducerJoined? || a.JoinTimesOut?)
    ensures Inv(Step(s, a))
  {
    hide Chunks;
  }

  lemma StepKeeps(s: State, a: Action)
    requires Inv(s) && Enabled(s, a)
    ensures Inv(Step(s, a))
  {
    hide Inv, Step, Enabled;
    match a
    case SourceYields(_) => SourceStepKeeps(s, a);
    case SourceStops(_) => SourceStepKeeps(s, a);
    case PutResumes => ProducerStepKeeps(s, a);
    case SleepEnds => ProducerStepKeeps(s, a);
    case CloseEnds => ProducerStepKeeps(s, a);
    case ThresholdSeen => ConsumerStepKeeps(s, a);
    case Get => ConsumerStepKeeps(s, a);
    case ClientNext => ConsumerStepKeeps(s, a);
    case ClientStops => ConsumerStepKeeps(s, a);
    case ShutdownStarts => ShutdownStepKeeps(s, a);
    case ProducerJoined => ShutdownStepKeeps(s, a);
    case JoinTimesOut => ShutdownStepKeeps(s, a);
  }

  lemma {:induction false} RunKeeps(s: State, actions: seq<Action>, t: State)
    requires Inv(s) && Run(s, actions, t)
    ensures Inv(t)
    decreases |actions|
  {
    hide Inv, Step, Enabled;
    if actions != [] {
      StepKeeps(s, actions[0]);
      RunKeeps(Step(s, actions[0]), actions[1..], t);
    }
  }

  lemma ReachableKeeps(s: State)
    requires Reachable(s)
    ensures Inv(s)
  {
    var size: nat, minimum: int, actions: seq<Action> :| size > 1 && Run(Start(size, minimum), actions, s);
    StartKeeps(size, minimum);
    RunKeeps(Start(size, minimum), actions, s);
  }

  // ----- conservation and freedom from deadlock, over every interleaving

  /** The chunks yielded, queued and in the producer's hand are what the source gave, in order. */
  lemma StreamIsConserved(s: State)
    requires Reachable(s)
    ensures |s.queue| <= s.size
    ensures s.yielded <= s.pulled
    ensures !s.cancelled ==> s.yielded + Chunks(s.queue) + InHand(s) == s.pulled
  {
    ReachableKeeps(s);
  }

  /** A consumer that reaches the end has yielded every chunk, and reports what the source did. */
  lemma ConsumerEndsExactly(s: State)
    requires Reachable(s) && TookEnd(s)
    ensures s.outcome.Some? && s.yielded == s.pulled
    ensures match s.outcome.value
            case Raised(e) => s.consumer.exit == Failed(e)
            case _ => s.consumer.exit == EndedClean
  {
    ReachableKeeps(s);
  }

  // ----- nothing reaches the client before the buffer is filled

  /** The threshold waits for enough chunks, unless the source has stopped or the client has left. */
  predicate Waited(s: State) {
    && (s.threshold ==> |s.pulled| >= s.minimum || s.outcome.Some? || s.cancelled)
    && (|s.yielded| > 0 || s.consumer.Getting? || s.consumer.Yielding? ==> s.threshold)
  }

  lemma StepKeepsWaited(s: State, a: Action)
    requires Inv(s) && Enabled(s, a) && Waited(s)
    ensures Waited(Step(s, a))
    ensures Step(s, a).minimum == s.minimum && Step(s, a).size == s.size
  {
    hide Chunks;
    ChunksAtMost(s.queue);
    ChunksAtLeast(s.queue);
  }

  lemma {:induction false} ChunksAtMost(queue: seq<Item>)
    ensures |Chunks(queue)| <= |queue|
  {
    if queue != [] {
      ChunksAtMost(queue[..|queue| - 1]);
    }
  }

  lemma {:induction false} ChunksAtLeast(queue: seq<Item>)
    ensures OnlyLastIsEnd(queue) ==> |Chunks(queue)| == |queue| - if HasEnd(queue) then 1 else 0
  {
    if queue != [] {
      var init := queue[..|queue| - 1];
      ChunksAtLeast(init);
      assert forall i | 0 <= i < |init| :: init[i] == queue[i];
    }
  }

  lemma {:induction false} RunKeepsWaited(s: State, actions: seq<Action>, t: State)
    requires Inv(s) && Waited(s) && Run(s, actions, t)
    ensures Waited(t) && t.minimum == s.minimum && t.size == s.size
    decreases |actions|
  {
    hide Inv, Step, Enabled, Waited;
    if actions != [] {
      StepKeeps(s, actions[0]);
      StepKeepsWaited(s, actions[0]);
      RunKeepsWaited(Step(s, actions[0]), actions[1..], t);
    }
  }

  /**
   In every interleaving the client gets its first chunk only once the source has given as many as asked
   for, at least one and at most what fits, or has stopped.
   */
  lemma ClientWaitsForBuffer(size: nat, minimum: int, actions: seq<Action>, s: State)
    requires size > 1 && Run(Start(size, minimum), actions, s)
    ensures s.threshold || |s.yielded| > 0 ==>
              || |s.pulled| >= (if minimum < 1 then 1 else if minimum > size then size else minimum)
              || s.outcome.Some? || s.cancelled
  {
    StartKeeps(size, minimum);
    RunKeepsWaited(Start(size, minimum), actions, s);
  }

  /** The event is set as soon as they are queued, so the client does not wait for more either. */
  lemma ThresholdIsReached(size: nat, minimum: int, actions: seq<Action>, s: State)
    requires size > 1 && Run(Start(size, minimum), actions, s)
    ensures |s.queue| >= (if minimum < 1 then 1 else if minimum > size then size else minimum) ==> s.threshold
  {
    StartKeeps(size, minimum);
    RunKeeps(Start(size, minimum), actions, s);
    RunKeepsWaited(Start(size, minimum), actions, s);
  }

  predicate ProducerBlocked(s: State) {
    (s.producer.Putting? || s.producer.PuttingEnd?) && !HasRoom(s)
  }

  predicate ConsumerBlocked(s: State) {
    (s.consumer.AwaitingThreshold? && !s.threshold) || (s.consumer.Getting? && s.queue == [])
  }

  /** The producer is waiting for nothing but the source, or for its next turn. */
  predicate WaitsForSource(s: State) {
    s.producer.Pulling? || s.producer.Sleeping? || s.producer.Closing?
  }

  /** A blocked side is never waiting on a side that waits on it; in shutdown nothing blocks the producer. */
  lemma NeverDeadlocked(s: State)
    requires Reachable(s)
    ensures !(ProducerBlocked(s) && ConsumerBlocked(s))
    ensures ConsumerBlocked(s) ==> WaitsForSource(s) || Enabled(s, PutResumes)
    ensures ProducerBlocked(s) ==>
              s.consumer.Yielding? || Enabled(s, ThresholdSeen) || Enabled(s, Get) || Enabled(s, ShutdownStarts)
    ensures s.cancelled ==> !ProducerBlocked(s)
  {
    ReachableKeeps(s);
  }

  // ----- once the source has stopped, everything runs to the end

  function ProducerWork(p: Producer): nat {
    match p case Closing => 8 case PuttingEnd => 6 case _ => 0
  }

  function ConsumerWork(c: Consumer): nat {
    match c
    case AwaitingThreshold => 40
    case Yielding => 31
    case Getting => 30
    case Leaving(_) => 20
    case Joining(_) => 10
    case Cancelling(_) => 5
    case Finished(_) => 0
  }

  function Work(s: State): nat {
    ProducerWork(s.producer) + ConsumerWork(s.consumer) + 2 * |s.queue|
  }

  lemma StepWorks(s: State, a: Action)
    requires Inv(s) && Enabled(s, a) && s.outcome.Some?
    ensures Step(s, a).outcome == s.outcome && Step(s, a).pulled == s.pulled
    ensures Work(Step(s, a)) < Work(s)
  {
    hide Chunks;
  }

  lemma {:induction false} RunIsBounded(s: State, actions: seq<Action>, t: State)
    requires Inv(s) && s.outcome.Some? && Run(s, actions, t)
    ensures t.outcome == s.outcome && t.pulled == s.pulled
    ensures |actions| + Work(t) <= Work(s)
    decreases |actions|
  {
    hide Inv, Step, Enabled, Work;
    if actions != [] {
      StepWorks(s, actions[0]);
      StepKeeps(s, actions[0]);
      RunIsBounded(Step(s, actions[0]), actions[1..], t);
    }
  }

  // ----- shutdown neither waits for the source nor leaves it open

  function ShutdownWork(s: State): nat {
    (match s.producer
     case Putting(_) => 5
     case Sleeping => 4
     case Pulling => 3
     case Closing => 2
     case PuttingEnd => 1
     case Done => 0) +
    (if s.consumer.Joining? then 2 else if s.consumer.Cancelling? then 1 else 0)
  }

  lemma ShutdownStepWorks(s: State, a: Action)
    requires Inv(s) && Enabled(s, a) && s.cancelled
    ensures Step(s, a).cancelled && ShutdownWork(Step(s, a)) < ShutdownWork(s)
  {
    hide Chunks;
  }

  /** Once the client has left, at most seven more steps are taken, whatever the source does. */
  lemma {:induction false} ShutdownIsBounded(s: State, actions: seq<Action>, t: State)
    requires Inv(s) && s.cancelled && Run(s, actions, t)
    ensures |actions| <= ShutdownWork(s) <= 7
    ensures !t.consumer.Finished? ==> Enabled(t, ProducerJoined) || Enabled(t, JoinTimesOut)
    decreases |actions|
  {
    hide Step;
    if actions != [] {
      ShutdownStepWorks(s, actions[0]);
      StepKeeps(s, actions[0]);
      ShutdownIsBounded(Step(s, actions[0]), actions[1..], t);
    }
  }

  predicate IsReading(p: Producer) {
    p.Pulling? || p.Putting? || p.Sleeping?
  }

  /** A producer stops reading a source that has not ended only to close it, and is done only after that. */
  lemma UnendedSourceIsClosed(s: State, a: Action)
    requires Enabled(s, a) && IsReading(s.producer) && !IsReading(Step(s, a).producer)
    ensures a == SourceStops(Ended) || Step(s, a).producer == Closing
  {
  }

  lemma ClosingIsFinished(s: State, a: Action)
    requires Enabled(s, a) && s.producer.Closing? && !Step(s, a).producer.Closing?
    ensures a == CloseEnds
  {
  }

  /** Until the consumer has finished, some step other than a stop of the client is enabled. */
  lemma SomethingIsEnabled(s: State)
    requires Inv(s) && s.outcome.Some? && !s.consumer.Finished?
    ensures exists a: Action :: !a.ClientStops? && Enabled(s, a)
  {
    var a :=
      if s.producer.Closing? then CloseEnds
      else if s.producer.PuttingEnd? && HasRoom(s) then PutResumes
      else match s.consumer
           case AwaitingThreshold => ThresholdSeen
           case Getting => Get
           case Yielding => ClientNext
           case Leaving(_) => ShutdownStarts
           case _ => if s.producer.Done? then ProducerJoined else JoinTimesOut;
    assert !a.ClientStops? && Enabled(s, a);
  }

  ghost predicate Stuck(s: State) {
    forall a: Action :: a.ClientStops? || !Enabled(s, a)
  }

  predicate WasStopped(s: State) {
    match s.consumer
    case Leaving(x) => x.Stopped?
    case Joining(x) => x.Stopped?
    case Cancelling(x) => x.Stopped?
    case Finished(x) => x.Stopped?
    case _ => false
  }

  lemma {:induction false} StopNeedsClient(s: State, actions: seq<Action>, t: State)
    requires Run(s, actions, t) && !WasStopped(s) && ClientStops !in actions
    ensures !WasStopped(t)
    decreases |actions|
  {
    if actions != [] {
      assert actions[0] in actions;
      StopNeedsClient(Step(s, actions[0]), actions[1..], t);
    }
  }

  /**
   A source that stops after k chunks: every run in which the client keeps reading is bounded, and
   where it can go no further the consumer has yielded exactly those k chunks and ended as the source did.
   */
  lemma SourceStopReachesClient(s: State, actions: seq<Action>, t: State)
    requires Reachable(s) && s.outcome.Some? && !WasStopped(s)
    requires Run(s, actions, t) && ClientStops !in actions
    ensures |actions| <= Work(s)
    ensures Stuck(t) ==>
              && t.yielded == s.pulled
              && t.consumer == Finished(if s.outcome.value.Raised? then Failed(s.outcome.value.error) else EndedClean)
  {
    ReachableKeeps(s);
    RunIsBounded(s, actions, t);
    RunKeeps(s, actions, t);
    StopNeedsClient(s, actions, t);
    if Stuck(t) && !t.consumer.Finished? {
      SomethingIsEnabled(t);
    }
  }
}
