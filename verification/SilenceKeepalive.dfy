/**
 `audio_source_silence_keepalive` of `audio.py`: a producer task reads a live PCM source into a
 queue of eight; the consumer relays it and emits a chunk of silence whenever a get times out.
 */
module SilenceKeepalive {
  import opened Wrappers

  type Byte = b: int | 0 <= b < 256
  type Chunk = seq<Byte>
  type Error = string

  // ----- the silence chunk

  datatype AudioFormat = AudioFormat(isPcm: bool, sampleRate: int, channels: int, bitDepth: int)

  function FrameSize(f: AudioFormat): int {
    f.channels * (f.bitDepth / 8)
  }

  function BytesPerSecond(f: AudioFormat): int {
    if f.isPcm then f.sampleRate * FrameSize(f) else 0
  }

  /** Silence is only injected into a well-formed PCM stream; any other is passed through. */
  predicate Injects(f: AudioFormat) {
    BytesPerSecond(f) > 0 && FrameSize(f) > 0
  }

  /** The size of `k` frames. */
  function Frames(k: nat, f: AudioFormat): int {
    k * FrameSize(f)
  }

  /** A positive whole number of frames. */
  ghost predicate IsWholeFrames(n: int, f: AudioFormat) {
    exists k: nat | 0 < k :: n == Frames(k, f)
  }

  function SilenceBytes(f: AudioFormat, silenceMs: int): (n: nat)
    requires Injects(f)
    ensures 0 < n && IsWholeFrames(n, f)
  {
    var raw := BytesPerSecond(f) * silenceMs / 1000;
    var frames := raw / FrameSize(f);
    WholeFrames(frames, f);
    WholeFrames(1, f);
    if FrameSize(f) < frames * FrameSize(f) then frames * FrameSize(f) else FrameSize(f)
  }

  lemma WholeFrames(k: int, f: AudioFormat)
    requires Injects(f)
    ensures 0 < k * FrameSize(f) ==> IsWholeFrames(k * FrameSize(f), f)
  {
    if 0 < k * FrameSize(f) {
      assert 0 < k;
      assert k * FrameSize(f) == Frames(k, f);
    }
  }

  /** All the whole frames of the asked duration, and at least one; a thousand milliseconds make a second. */
  lemma SilenceSize(f: AudioFormat, silenceMs: int)
    requires Injects(f)
    ensures
      var frame := f.channels * (f.bitDepth / 8);
      var asked := f.sampleRate * frame * silenceMs / 1000;
      var size := SilenceBytes(f, silenceMs);
      if asked >= frame then asked - frame < size <= asked else size == frame
  {
    var frame := FrameSize(f);
    var asked := BytesPerSecond(f) * silenceMs / 1000;
    var frames := asked / frame;
    assert frames * frame <= asked < frames * frame + frame;
    if frames >= 1 {
      FramesGrow(1, frames, frame);
    } else {
      FramesGrow(frames, 0, frame);
    }
  }

  lemma FramesGrow(k: int, n: int, frame: int)
    requires k <= n && frame > 0
    ensures k * frame <= n * frame
  {
    assert (n - k) * frame >= 0;
  }

  function SilenceChunk(f: AudioFormat, silenceMs: int): Chunk
    requires Injects(f)
  {
    seq(SilenceBytes(f, silenceMs), _ => 0)
  }

  // ----- the protocol

  const QUEUE_SIZE := 8

  /** How the source stops; a cancellation it raises itself counts as a clean end. */
  datatype Outcome = Ended | Raised(error: Error) | RaisedCancelled

  datatype Item = Data(chunk: Chunk) | Problem(error: Error) | EndOfStream

  datatype Producer = Pulling | Putting(item: Item) | Done

  datatype Exit = Clean | Failed(error: Error) | Stopped

  datatype Consumer = Getting | Yielding | Finished(exit: Exit)

  /** A chunk of the output, and whether it was injected. */
  datatype Output = Output(chunk: Chunk, injected: bool)

  datatype State = State(
    silence: Chunk, queue: seq<Item>, producer: Producer, consumer: Consumer,
    pulled: seq<Chunk>, outcome: Option<Outcome>, output: seq<Output>)

  datatype Action =
    | SourceYields(chunk: Chunk)
    | SourceStops(how: Outcome)
    | PutResumes
    | Get
    | TimeOut
    | ClientNext
    | ClientStops

  function Start(silence: Chunk): State {
    State(silence, [], Pulling, Getting, [], None, [])
  }

  predicate Enabled(s: State, a: Action) {
    match a
    case SourceYields(_) => s.producer.Pulling?
    case SourceStops(_) => s.producer.Pulling?
    case PutResumes => s.producer.Putting? && |s.queue| < QUEUE_SIZE
    case Get => s.consumer.Getting? && s.queue != []
    case TimeOut => s.consumer.Getting?
    case ClientNext => s.consumer.Yielding?
    case ClientStops => !s.consumer.Finished?
  }

  /** A put; after anything but a chunk the producer has nothing left to do. */
  function Put(s: State, item: Item): State {
    if |s.queue| < QUEUE_SIZE then
      s.(queue := s.queue + [item], producer := if item.Data? then Pulling else Done)
    else s.(producer := Putting(item))
  }

  function Leave(s: State, exit: Exit): State {
    s.(consumer := Finished(exit), producer := Done)
  }

  function Step(s: State, a: Action): State
    requires Enabled(s, a)
  {
    match a
    case SourceYields(chunk) => Put(s.(pulled := s.pulled + [chunk]), Data(chunk))
    case SourceStops(how) =>
      Put(s.(outcome := Some(how)), if how.Raised? then Problem(how.error) else EndOfStream)
    case PutResumes => Put(s, s.producer.item)
    case Get =>
      var t := s.(queue := s.queue[1..]);
      (match s.queue[0]
       case Data(chunk) => t.(output := s.output + [Output(chunk, false)], consumer := Yielding)
       case Problem(e) => Leave(t, Failed(e))
       case EndOfStream => Leave(t, Clean))
    case TimeOut => s.(output := s.output + [Output(s.silence, true)], consumer := Yielding)
    case ClientNext => s.(consumer := Getting)
    case ClientStops => Leave(s, Stopped)
  }

  ghost predicate Run(s: State, actions: seq<Action>, t: State)
    decreases |actions|
  {
    if actions == [] then s == t
    else Enabled(s, actions[0]) && Run(Step(s, actions[0]), actions[1..], t)
  }

  // ----- the invariant

  /** The output with the injected chunks removed. */
  function Relayed(output: seq<Output>): seq<Chunk> {
    if output == [] then []
    else Relayed(output[..|output| - 1]) +
         if output[|output| - 1].injected then [] else [output[|output| - 1].chunk]
  }

  function ChunkOf(item: Item): seq<Chunk> {
    if item.Data? then [item.chunk] else []
  }

  function Chunks(queue: seq<Item>): seq<Chunk> {
    if queue == [] then [] else ChunkOf(queue[0]) + Chunks(queue[1..])
  }

  function InHand(s: State): seq<Chunk> {
    if s.producer.Putting? then ChunkOf(s.producer.item) else []
  }

  /** What the producer puts when the source stops, and how the consumer then ends. */
  predicate MarksOutcome(item: Item, how: Outcome) {
    item == if how.Raised? then Problem(how.error) else EndOfStream
  }

  predicate EndsAs(exit: Exit, how: Outcome) {
    exit == if how.Raised? then Failed(how.error) else Clean
  }

  predicate Inv(s: State) {
    && |s.queue| <= QUEUE_SIZE
    && (forall o | o in s.output :: o.injected ==> o.chunk == s.silence)
    && (forall i | 0 <= i < |s.queue| - 1 :: s.queue[i].Data?)
    && (s.queue != [] && !s.queue[|s.queue| - 1].Data? ==>
          s.outcome.Some? && MarksOutcome(s.queue[|s.queue| - 1], s.outcome.value) && s.producer.Done?)
    && (s.producer.Putting? && !s.producer.item.Data? ==>
          s.outcome.Some? && MarksOutcome(s.producer.item, s.outcome.value))
    && (s.producer.Putting? && s.producer.item.Data? ==> s.outcome.None?)
    && (s.producer.Pulling? ==> s.outcome.None?)
    && match s.consumer
       case Finished(exit) =>
         && s.producer.Done?
         && Relayed(s.output) <= s.pulled
         && (!exit.Stopped? ==>
               Relayed(s.output) == s.pulled && s.outcome.Some? && EndsAs(exit, s.outcome.value))
       case _ =>
         && Relayed(s.output) + Chunks(s.queue) + InHand(s) == s.pulled
         && (s.producer.Done? ==> s.queue != [] && !s.queue[|s.queue| - 1].Data?)
  }

  lemma {:induction false} ChunksOfSnoc(queue: seq<Item>, item: Item)
    ensures Chunks(queue + [item]) == Chunks(queue) + ChunkOf(item)
  {
    if queue == [] {
      assert queue + [item] == [item] && [item][1..] == [];
    } else {
      ChunksOfSnoc(queue[1..], item);
      assert (queue + [item])[1..] == queue[1..] + [item];
    }
  }

  lemma RelayedOfSnoc(output: seq<Output>, o: Output)
    ensures Relayed(output + [o]) == Relayed(output) + if o.injected then [] else [o.chunk]
  {
    assert (output + [o])[..|output|] == output;
  }

  lemma PutKeeps(s: State, a: Action)
    requires Inv(s) && Enabled(s, a) && (a.SourceYields? || a.SourceStops? || a.PutResumes?)
    ensures Inv(Step(s, a))
  {
    hide Chunks, Relayed;
    if a.SourceYields? {
      ChunksOfSnoc(s.queue, Data(a.chunk));
    } else if a.SourceStops? {
      ChunksOfSnoc(s.queue, if a.how.Raised? then Problem(a.how.error) else EndOfStream);
    } else {
      ChunksOfSnoc(s.queue, s.producer.item);
    }
  }

  lemma GetDataKeeps(s: State)
    requires Inv(s) && Enabled(s, Get) && s.queue[0].Data?
    ensures Inv(Step(s, Get))
  {
    assert Chunks(s.queue) == ChunkOf(s.queue[0]) + Chunks(s.queue[1..]);
    var t := Step(s, Get);
    hide Chunks, Relayed;
    RelayedOfSnoc(s.output, Output(s.queue[0].chunk, false));
    Reassociate(Relayed(s.output), s.queue[0].chunk, Chunks(t.queue), InHand(s));
    assert forall i | 0 <= i < |t.queue| :: t.queue[i] == s.queue[i + 1];
  }

  lemma Reassociate(a: seq<Chunk>, b: Chunk, c: seq<Chunk>, d: seq<Chunk>)
    ensures a + ([b] + c) + d == a + [b] + c + d
  {
  }

  lemma GetEndKeeps(s: State)
    requires Inv(s) && Enabled(s, Get) && !s.queue[0].Data?
    ensures Inv(Step(s, Get))
  {
    assert Chunks(s.queue) == ChunkOf(s.queue[0]) + Chunks(s.queue[1..]);
    assert Chunks([]) == [];
    hide Chunks, Relayed;
    assert s.queue[1..] == [];
  }

  lemma OtherStepKeeps(s: State, a: Action)
    requires Inv(s) && Enabled(s, a) && (a.TimeOut? || a.ClientNext? || a.ClientStops?)
    ensures Inv(Step(s, a))
  {
    hide Chunks, Relayed;
    RelayedOfSnoc(s.output, Output(s.silence, true));
  }

  lemma StepKeeps(s: State, a: Action)
    requires Inv(s) && Enabled(s, a)
    ensures Inv(Step(s, a)) && Step(s, a).silence == s.silence
  {
    assert Step(s, a).silence == s.silence;
    assert a.Get? ==> s.queue != [];
    hide Inv, Step;
    match a
    case SourceYields(_) => PutKeeps(s, a);
    case SourceStops(_) => PutKeeps(s, a);
    case PutResumes => PutKeeps(s, a);
    case Get => if s.queue[0].Data? { GetDataKeeps(s); } else { GetEndKeeps(s); }
    case TimeOut => OtherStepKeeps(s, a);
    case ClientNext => OtherStepKeeps(s, a);
    case ClientStops => OtherStepKeeps(s, a);
  }

  lemma {:induction false} RunKeeps(s: State, actions: seq<Action>, t: State)
    requires Inv(s) && Run(s, actions, t)
    ensures Inv(t) && t.silence == s.silence
    decreases |actions|
  {
    hide Inv, Step, Enabled;
    if actions != [] {
      StepKeeps(s, actions[0]);
      RunKeeps(Step(s, actions[0]), actions[1..], t);
    }
  }

  /**
   Every interleaving with any timeouts: without the injected chunks the output is a prefix of the
   source, all of it when the consumer ends or fails, which it does as the source did; and every
   injected chunk is a positive whole number of frames.
   */
  lemma OutputIsFaithful(f: AudioFormat, silenceMs: int, actions: seq<Action>, t: State)
    requires Injects(f) && Run(Start(SilenceChunk(f, silenceMs)), actions, t)
    ensures Relayed(t.output) <= t.pulled && |t.queue| <= 8
    ensures t.consumer.Finished? && !t.consumer.exit.Stopped? ==>
              && Relayed(t.output) == t.pulled && t.outcome.Some?
              && t.consumer.exit == if t.outcome.value.Raised? then Failed(t.outcome.value.error) else Clean
    ensures forall o | o in t.output && o.injected ::
              && IsWholeFrames(|o.chunk|, f) && |o.chunk| == SilenceBytes(f, silenceMs)
              && forall b | b in o.chunk :: b == 0
  {
    RunKeeps(Start(SilenceChunk(f, silenceMs)), actions, t);
  }

  /** Neither side can wait forever on the other: a full queue means a get can run, and a get can time out. */
  lemma NeverDeadlocked(f: AudioFormat, silenceMs: int, actions: seq<Action>, t: State)
    requires Injects(f) && Run(Start(SilenceChunk(f, silenceMs)), actions, t) && !t.consumer.Finished?
    ensures t.consumer.Getting? ==> Enabled(t, TimeOut)
    ensures t.consumer.Getting? && t.producer.Putting? ==> Enabled(t, PutResumes) || Enabled(t, Get)
    ensures t.consumer.Getting? && t.outcome.Some? ==> Enabled(t, PutResumes) || Enabled(t, Get)
  {
    RunKeeps(Start(SilenceChunk(f, silenceMs)), actions, t);
  }

  // ----- the two tasks as code

  class Keepalive {
    const silenceChunk: Chunk
    var queue: seq<Item>
    var producer: Producer
    var consumer: Consumer
    ghost var pulled: seq<Chunk>
    ghost var outcome: Option<Outcome>
    ghost var output: seq<Output>

    ghost function View(): State
      reads this
    {
      State(silenceChunk, queue, producer, consumer, pulled, outcome, output)
    }

    /** Without the injected chunks, the client has a prefix of the source, in order. */
    ghost predicate Valid()
      reads this
    {
      Inv(View())
    }

    constructor (f: AudioFormat, silenceMs: int)
      requires Injects(f)
      ensures Valid() && View() == Start(SilenceChunk(f, silenceMs))
    {
      silenceChunk := SilenceChunk(f, silenceMs);
      queue, producer, consumer := [], Pulling, Getting;
      pulled, outcome, output := [], None, [];
    }

    method QueuePut(item: Item)
      modifies this
      ensures View() == Put(old(View()), item)
    {
      if |queue| < QUEUE_SIZE {
        queue := queue + [item];
        producer := if item.Data? then Pulling else Done;
      } else {
        producer := Putting(item);
      }
    }

    method SourceYieldsChunk(chunk: Chunk)
      requires Valid() && Enabled(View(), SourceYields(chunk))
      modifies this
      ensures Valid() && View() == Step(old(View()), SourceYields(chunk))
      ensures |queue| <= QUEUE_SIZE
      ensures queue == old(queue) + [Data(chunk)] || (producer == Putting(Data(chunk)) && |queue| == QUEUE_SIZE)
    {
      hide Inv;
      StepKeeps(View(), SourceYields(chunk));
      QueueFits(View());
      pulled := pulled + [chunk];
      QueuePut(Data(chunk));
    }

    method SourceIsOver(how: Outcome)
      requires Valid() && Enabled(View(), SourceStops(how))
      modifies this
      ensures Valid() && View() == Step(old(View()), SourceStops(how))
    {
      hide Inv;
      StepKeeps(View(), SourceStops(how));
      outcome := Some(how);
      QueuePut(if how.Raised? then Problem(how.error) else EndOfStream);
    }

    method ResumePut()
      requires Valid() && Enabled(View(), PutResumes)
      modifies this
      ensures Valid() && View() == Step(old(View()), PutResumes)
      ensures |queue| == |old(queue)| + 1 <= QUEUE_SIZE
    {
      hide Inv;
      StepKeeps(View(), PutResumes);
      QueuePut(producer.item);
    }

    /**
     The chunk yielded is the next one of the source. There is none only at its end: then the client has
     every chunk, and what the source raised is raised.
     */
    method GetItem() returns (chunk: Option<Chunk>)
      requires Valid() && Enabled(View(), Get)
      modifies this
      ensures Valid() && View() == Step(old(View()), Get)
      ensures chunk.Some? ==>
                && consumer.Yielding? && output == old(output) + [Output(chunk.value, false)]
                && |Relayed(old(output))| < |pulled| && chunk.value == pulled[|Relayed(old(output))|]
      ensures chunk.None? ==>
                && output == old(output) && Relayed(output) == pulled
                && consumer.Finished? && outcome.Some? && EndsAs(consumer.exit, outcome.value)
    {
      hide Inv, Relayed, Chunks;
      StepKeeps(View(), Get);
      NextIsRelayed(View());
      var item := queue[0];
      queue := queue[1..];
      if item.Data? {
        chunk := Some(item.chunk);
        output := output + [Output(item.chunk, false)];
        consumer := Yielding;
      } else {
        chunk := None;
        consumer, producer := Finished(if item.Problem? then Failed(item.error) else Clean), Done;
      }
    }

    method TimeOutGet() returns (chunk: Chunk)
      requires Valid() && Enabled(View(), TimeOut)
      modifies this
      ensures Valid() && View() == Step(old(View()), TimeOut)
      ensures chunk == silenceChunk && output == old(output) + [Output(chunk, true)]
      ensures Relayed(output) == Relayed(old(output))
    {
      hide Inv, Relayed, Chunks;
      StepKeeps(View(), TimeOut);
      RelayedOfSnoc(output, Output(silenceChunk, true));
      chunk := silenceChunk;
      output := output + [Output(chunk, true)];
      consumer := Yielding;
    }

    method ResumeYield()
      requires Valid() && Enabled(View(), ClientNext)
      modifies this
      ensures Valid() && View() == Step(old(View()), ClientNext)
    {
      hide Inv;
      StepKeeps(View(), ClientNext);
      consumer := Getting;
    }

    method StopReading()
      requires Valid() && Enabled(View(), ClientStops)
      modifies this
      ensures Valid() && View() == Step(old(View()), ClientStops)
    {
      hide Inv;
      StepKeeps(View(), ClientStops);
      consumer, producer := Finished(Stopped), Done;
    }

    /** The scheduler resumes a task, or lets a get time out, where `a` is enabled. */
    method Perform(a: Action)
      requires Valid() && Enabled(View(), a)
      modifies this
      ensures Valid() && View() == Step(old(View()), a)
    {
      hide Inv, Step;
      match a
      case SourceYields(chunk) => SourceYieldsChunk(chunk);
      case SourceStops(how) => SourceIsOver(how);
      case PutResumes => ResumePut();
      case Get => var _ := GetItem();
      case TimeOut => var _ := TimeOutGet();
      case ClientNext => ResumeYield();
      case ClientStops => StopReading();
    }
  }

  lemma QueueFits(s: State)
    requires Inv(s)
    ensures |s.queue| <= QUEUE_SIZE
  {
  }

  /** The first item of the queue is the next chunk of the source, or all have been relayed. */
  lemma NextIsRelayed(s: State)
    requires Inv(s) && Enabled(s, Get)
    ensures if s.queue[0].Data?
            then |Relayed(s.output)| < |s.pulled| && s.pulled[|Relayed(s.output)|] == s.queue[0].chunk
            else Relayed(s.output) == s.pulled && s.outcome.Some? && MarksOutcome(s.queue[0], s.outcome.value)
  {
    StepKeeps(s, Get);
    hide Relayed, Step;
    assert Chunks(s.queue) == ChunkOf(s.queue[0]) + Chunks(s.queue[1..]);
    if s.queue[0].Data? {
      var before, chunk := Relayed(s.output), s.queue[0].chunk;
      Reassociate(before, chunk, Chunks(s.queue[1..]), InHand(s));
      assert (before + [chunk] + Chunks(s.queue[1..]) + InHand(s))[|before|] == chunk;
    } else {
      assert s.queue[1..] == [] && Chunks([]) == [];
    }
  }
}
