/**
 The two tasks of `buffered` as code on their shared variables: each method is the stretch of
 code up to the next await. It takes the step of the protocol and keeps its invariant, and what
 the client gets from it is stated beside.
 */
module BufferedTasks {
  import opened Wrappers
  import opened BufferedGenerator

  class Buffered {
    const size: nat
    const minimum: nat
    var buffer: seq<Item>
    var thresholdReached: bool
    var cancelled: bool
    var producerError: Option<Error>
    var producer: Producer
    var consumer: Consumer
    // history of the source and of the client
    ghost var pulled: seq<Chunk>
    ghost var outcome: Option<Outcome>
    ghost var yielded: seq<Chunk>

    ghost function View(): State
      reads this
    {
      State(size, minimum, buffer, thresholdReached, cancelled, producerError, producer, consumer,
            pulled, outcome, yielded)
    }

    /** The queue is within its size, and the client has a prefix of the source, in order. */
    ghost predicate Valid()
      reads this
    {
      Inv(View())
    }

    constructor (bufferSize: nat, minBufferBeforeYield: int)
      requires bufferSize > 1
      ensures Valid() && View() == Start(bufferSize, minBufferBeforeYield)
      ensures size == bufferSize && buffer == [] && !thresholdReached && !cancelled
      ensures minBufferBeforeYield <= 1 ==> minimum == 1
      ensures 1 <= minBufferBeforeYield <= bufferSize ==> minimum == minBufferBeforeYield
      ensures bufferSize <= minBufferBeforeYield ==> minimum == bufferSize
    {
      size, minimum := bufferSize, Threshold(minBufferBeforeYield, bufferSize);
      buffer, thresholdReached, cancelled, producerError := [], false, false, None;
      producer, consumer := Pulling, AwaitingThreshold;
      pulled, outcome, yielded := [], None, [];
    }

    // ----- parts of the producer

    /** `await buffer.put(chunk)` and the threshold check behind it. */
    method Put(chunk: Chunk)
      modifies this
      ensures View() == PutChunk(old(View()), chunk)
      ensures producer.Sleeping? <==> |old(buffer)| < size
      ensures buffer == if producer.Sleeping? then old(buffer) + [Data(chunk)] else old(buffer)
      ensures thresholdReached <==> old(thresholdReached) || (producer.Sleeping? && |buffer| >= minimum)
    {
      if |buffer| < size {
        buffer := buffer + [Data(chunk)];
        if !thresholdReached && |buffer| >= minimum {
          thresholdReached := true;
        }
        producer := Sleeping;
      } else {
        producer := Putting(chunk);
      }
    }

    /** The end of `_finalize_producer`: no end marker once the consumer has left. */
    method SignalEnd()
      modifies this
      ensures View() == PutEnd(old(View()))
    {
      if !cancelled {
        if |buffer| < size {
          buffer := buffer + [EndOfStream];
          producer := Done;
        } else {
          producer := PuttingEnd;
        }
      } else {
        producer := Done;
      }
    }

    method FinalizeProducer(completedNaturally: bool)
      modifies this
      ensures View() == Finalize(old(View()), completedNaturally)
    {
      thresholdReached := true;
      if completedNaturally {
        SignalEnd();
      } else {
        producer := Closing;
      }
    }

    // ----- producer

    /** Unless the consumer has left, the chunk is behind all others, or in hand for a full queue. */
    method SourceYieldsChunk(chunk: Chunk)
      requires Valid() && Enabled(View(), SourceYields(chunk))
      modifies this
      ensures Valid() && View() == Step(old(View()), SourceYields(chunk))
      ensures |buffer| <= size
      ensures !cancelled ==>
                (buffer == old(buffer) + [Data(chunk)] || (producer == Putting(chunk) && |buffer| == size))
    {
      hide Inv;
      StepKeeps(View(), SourceYields(chunk));
      StillInBounds(View());
      pulled := pulled + [chunk];
      if cancelled {
        FinalizeProducer(false);
      } else {
        Put(chunk);
      }
    }

    method SourceIsOver(how: Outcome)
      requires Valid() && Enabled(View(), SourceStops(how))
      modifies this
      ensures Valid() && View() == Step(old(View()), SourceStops(how))
      ensures thresholdReached && producerError == (if how.Raised? then Some(how.error) else None)
    {
      hide Inv;
      StepKeeps(View(), SourceStops(how));
      StillInBounds(View());
      outcome := Some(how);
      if how.Raised? {
        producerError := Some(how.error);
      }
      FinalizeProducer(how.Ended?);
    }

    method ResumePut()
      requires Valid() && Enabled(View(), PutResumes)
      modifies this
      ensures Valid() && View() == Step(old(View()), PutResumes)
      ensures |buffer| == |old(buffer)| + 1 <= size
    {
      hide Inv;
      StepKeeps(View(), PutResumes);
      if producer.Putting? {
        Put(producer.chunk);
      } else {
        buffer := buffer + [EndOfStream];
        producer := Done;
      }
    }

    method ResumeSleep()
      requires Valid() && Enabled(View(), SleepEnds)
      modifies this
      ensures Valid() && View() == Step(old(View()), SleepEnds)
    {
      hide Inv;
      StepKeeps(View(), SleepEnds);
      producer := Pulling;
    }

    method SourceClosed()
      requires Valid() && Enabled(View(), CloseEnds)
      modifies this
      ensures Valid() && View() == Step(old(View()), CloseEnds)
    {
      hide Inv;
      StepKeeps(View(), CloseEnds);
      SignalEnd();
    }

    // ----- consumer

    method SeeThreshold()
      requires Valid() && Enabled(View(), ThresholdSeen)
      modifies this
      ensures Valid() && View() == Step(old(View()), ThresholdSeen)
    {
      hide Inv;
      StepKeeps(View(), ThresholdSeen);
      consumer := Getting;
    }

    /**
     The chunk yielded is the next one of the source. There is none only at its end: then the client has
     every chunk, and what the source raised is raised.
     */
    method GetItem() returns (chunk: Option<Chunk>)
      requires Valid() && Enabled(View(), Get)
      modifies this
      ensures Valid() && View() == Step(old(View()), Get)
      ensures chunk.Some? ==>
                && consumer == Yielding && yielded == old(yielded) + [chunk.value]
                && |old(yielded)| < |pulled| && chunk.value == pulled[|old(yielded)|]
      ensures chunk.None? ==>
                && yielded == old(yielded) == pulled && outcome.Some?
                && consumer == Leaving(if outcome.value.Raised? then Failed(outcome.value.error) else EndedClean)
    {
      hide Inv, Chunks;
      StepKeeps(View(), Get);
      NextIsYielded(View());
      var data := buffer[0];
      buffer := buffer[1..];
      if data.EndOfStream? {
        chunk := None;
        consumer := Leaving(if producerError.Some? then Failed(producerError.value) else EndedClean);
      } else {
        chunk := Some(data.chunk);
        yielded := yielded + [data.chunk];
        consumer := Yielding;
      }
    }

    method ResumeYield()
      requires Valid() && Enabled(View(), ClientNext)
      modifies this
      ensures Valid() && View() == Step(old(View()), ClientNext)
    {
      hide Inv;
      StepKeeps(View(), ClientNext);
      consumer := Getting;
    }

    method StopReading()
      requires Valid() && Enabled(View(), ClientStops)
      modifies this
      ensures Valid() && View() == Step(old(View()), ClientStops)
    {
      hide Inv;
      StepKeeps(View(), ClientStops);
      consumer := Leaving(Stopped);
    }

    // ----- _shutdown_producer

    /** From here on nothing blocks the producer: the queue is drained, and it may put once more. */
    method StartShutdown()
      requires Valid() && Enabled(View(), ShutdownStarts)
      modifies this
      ensures Valid() && View() == Step(old(View()), ShutdownStarts)
      ensures buffer == [] && !ProducerBlocked(View())
    {
      hide Inv;
      StepKeeps(View(), ShutdownStarts);
      StillInBounds(View());
      cancelled := true;
      buffer := [];
      consumer := Joining(consumer.exit);
    }

    method JoinProducer()
      requires Valid() && Enabled(View(), ProducerJoined)
      modifies this
      ensures Valid() && View() == Step(old(View()), ProducerJoined)
    {
      hide Inv;
      StepKeeps(View(), ProducerJoined);
      consumer := Finished(consumer.exit);
    }

    /** The forced cancel ends a put or a read; only the close of the source may still be under way. */
    method TimeOutJoin()
      requires Valid() && Enabled(View(), JoinTimesOut)
      modifies this
      ensures Valid() && View() == Step(old(View()), JoinTimesOut)
      ensures consumer.Cancelling? ==> producer.Closing? || producer.Done?
      ensures consumer.Finished? <==> old(consumer).Cancelling?
    {
      hide Inv;
      StepKeeps(View(), JoinTimesOut);
      if consumer.Joining? {
        if producer.PuttingEnd? {
          producer := Done;
        } else if !producer.Closing? && !producer.Done? {
          FinalizeProducer(false);
        }
        consumer := Cancelling(consumer.exit);
      } else {
        consumer := Finished(consumer.exit);
      }
    }

    // ----- any interleaving

    /** The scheduler resumes a task where `a` is enabled. */
    method Perform(a: Action)
      requires Valid() && Enabled(View(), a)
      modifies this
      ensures Valid() && View() == Step(old(View()), a)
    {
      hide Inv, Step;
      match a
      case SourceYields(chunk) => SourceYieldsChunk(chunk);
      case SourceStops(how) => SourceIsOver(how);
      case PutResumes => ResumePut();
      case SleepEnds => ResumeSleep();
      case CloseEnds => SourceClosed();
      case ThresholdSeen => SeeThreshold();
      case Get => var _ := GetItem();
      case ClientNext => ResumeYield();
      case ClientStops => StopReading();
      case ShutdownStarts => StartShutdown();
      case ProducerJoined => JoinProducer();
      case JoinTimesOut => TimeOutJoin();
    }
  }

  /** The queue fits, and only a stopped source has raised something. */
  lemma StillInBounds(s: State)
    requires Inv(s)
    ensures |s.queue| <= s.size && s.size >= 2 && (s.outcome.None? ==> s.error.None?)
  {
  }

  /** The first item of the queue is the next chunk of the source, or all have been yielded. */
  lemma NextIsYielded(s: State)
    requires Inv(s) && Enabled(s, Get)
    ensures match s.queue[0]
            case Data(chunk) => |s.yielded| < |s.pulled| && s.pulled[|s.yielded|] == chunk
            case EndOfStream =>
              && s.yielded == s.pulled && s.outcome.Some?
              && s.error == (if s.outcome.value.Raised? then Some(s.outcome.value.error) else None)
  {
    ChunksOfCons(s.queue);
    StepKeeps(s, Get);
  }

  /** The code, driven by any schedule: a run of the protocol, with all that holds of its runs. */
  method Play(bufferSize: nat, minBufferBeforeYield: int, schedule: seq<Action>) returns (b: Buffered)
    requires bufferSize > 1
    requires exists t :: Run(Start(bufferSize, minBufferBeforeYield), schedule, t)
    ensures fresh(b) && b.Valid() && Run(Start(bufferSize, minBufferBeforeYield), schedule, b.View())
    ensures |b.buffer| <= bufferSize && b.yielded <= b.pulled
    ensures TookEnd(b.View()) ==> b.outcome.Some? && b.yielded == b.pulled
    // nothing is yielded before the buffer is filled
    ensures b.thresholdReached || |b.yielded| > 0 ==>
              || |b.pulled| >= (if minBufferBeforeYield < 1 then 1
                                else if minBufferBeforeYield > bufferSize then bufferSize else minBufferBeforeYield)
              || b.outcome.Some? || b.cancelled
  {
    b := new Buffered(bufferSize, minBufferBeforeYield);
    ghost var start := b.View();
    ghost var t :| Run(start, schedule, t);
    for i := 0 to |schedule|
      invariant b.Valid() && b.size == bufferSize
      invariant Run(b.View(), schedule[i..], t)
    {
      assert schedule[i..][1..] == schedule[i + 1..];
      b.Perform(schedule[i]);
    }
    assert b.View() == t;
    ClientWaitsForBuffer(bufferSize, minBufferBeforeYield, schedule, t);
  }
}
