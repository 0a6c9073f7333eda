/** `get_parts_from_position` and `iter_pcm_slices` of `audio.py`. */
module AudioParts {
  import opened Wrappers

  // ----- seeking in a list of parts

  /** The duration of a part may be unknown, and the list may hold something else. */
  datatype Part = Part(duration: Option<real>) | NotAPart

  datatype SeekError = InvalidData | NoCandidate

  datatype Position = Position(parts: seq<Part>, seconds: int)

  /** Conversion to an integer drops the fraction, towards zero. */
  function Truncate(x: real): (i: int)
    ensures x >= 0.0 ==> i as real <= x < i as real + 1.0
    ensures x <= 0.0 ==> i as real - 1.0 < x <= i as real
  {
    if x >= 0.0 then x.Floor else -((-x).Floor)
  }

  predicate Known(part: Part) {
    part.Part? && part.duration.Some?
  }

  /** Where part `n` starts, or the end of all parts. */
  function Start(parts: seq<Part>, n: nat): real
    requires n <= |parts| && forall i | 0 <= i < n :: Known(parts[i])
  {
    if n == 0 then 0.0
    else
      assert Known(parts[n - 1]);
      Start(parts, n - 1) + parts[n - 1].duration.value
  }

  /** The search has passed the first `k` parts: all end before the position. */
  predicate Passed(parts: seq<Part>, position: int, k: nat) {
    && k <= |parts|
    && (forall i | 0 <= i < k :: Known(parts[i]))
    && forall i | 0 < i <= k :: Start(parts, i) < position as real
  }

  /** And it stops there. */
  predicate StopsAt(parts: seq<Part>, position: int, k: nat) {
    && Passed(parts, position, k)
    && (k == |parts| || !Known(parts[k]) || Start(parts, k + 1) >= position as real)
  }

  /** What stopping there gives. */
  predicate Outcome(parts: seq<Part>, position: int, k: nat, r: Result<Position, SeekError>)
    requires StopsAt(parts, position, k)
  {
    if k == |parts| then r == Failure(NoCandidate)
    else if parts[k].NotAPart? then r == Failure(InvalidData)
    else if parts[k].duration.None? then r == Success(Position(parts, position))
    else
      r.Success? &&
      var inner := position as real - Start(parts, k);
      if inner + 2.0 >= parts[k].duration.value && k + 1 < |parts| then
        r.value == Position(parts[k + 1..], 0)
      else r.value == Position(parts[k..], Truncate(inner))
  }

  method GetPartsFromPosition(parts: seq<Part>, seekPosition: int) returns (r: Result<Position, SeekError>)
    ensures exists k: nat :: StopsAt(parts, seekPosition, k) && Outcome(parts, seekPosition, k, r)
    ensures AllKnown(parts) ==> (r.Failure? <==> parts == [] || Start(parts, |parts|) < seekPosition as real)
    ensures AllKnown(parts) && r.Success? ==> Near(parts, seekPosition, r.value)
  {
    var skipped := 0.0;
    for i := 0 to |parts|
      invariant Passed(parts, seekPosition, i) && skipped == Start(parts, i)
    {
      var part := parts[i];
      if part.NotAPart? {
        r := Failure(InvalidData);
        assert Outcome(parts, seekPosition, i, r);
        return;
      }
      if part.duration.None? {
        r := Success(Position(parts, seekPosition));
        assert Outcome(parts, seekPosition, i, r);
        return;
      }
      var duration := part.duration.value;
      if skipped + duration < seekPosition as real {
        skipped := skipped + duration;
      } else {
        var position := seekPosition as real - skipped;
        if position + 2.0 >= duration {
          if i + 1 < |parts| {
            r := Success(Position(parts[i + 1..], 0));
          } else {
            r := Success(Position(parts[i..], Truncate(position)));
          }
        } else {
          r := Success(Position(parts[i..], Truncate(position)));
        }
        assert Outcome(parts, seekPosition, i, r);
        if AllKnown(parts) { SeekingLandsNear(parts, seekPosition, i, r); }
        return;
      }
    }
    r := Failure(NoCandidate);
    assert Outcome(parts, seekPosition, |parts|, r);
    if AllKnown(parts) { SeekingLandsNear(parts, seekPosition, |parts|, r); }
  }

  predicate AllKnown(parts: seq<Part>) {
    forall i | 0 <= i < |parts| :: Known(parts[i]) && parts[i].duration.value >= 0.0
  }

  lemma {:induction false} StartsAscend(parts: seq<Part>, m: nat, n: nat)
    requires AllKnown(parts) && m <= n <= |parts|
    ensures 0.0 <= Start(parts, m) <= Start(parts, n)
    decreases n
  {
    if m < n {
      StartsAscend(parts, m, n - 1);
    } else if 0 < m {
      StartsAscend(parts, m - 1, m - 1);
    }
  }

  /** A suffix of the parts whose start and offset lie within reach of the position. */
  predicate Near(parts: seq<Part>, position: int, found: Position) {
    exists i | 0 <= i < |parts| ::
      && AllKnown(parts)
      && found.parts == parts[i..]
      && position as real - 1.0 < Start(parts, i) + found.seconds as real <= position as real + 2.0
  }

  /**
   With all durations known, seeking fails exactly past the end, or without parts, and otherwise
   lands less than one second before, or at most two seconds after, the wanted position.
   */
  lemma SeekingLandsNear(parts: seq<Part>, position: int, k: nat, r: Result<Position, SeekError>)
    requires AllKnown(parts)
    requires StopsAt(parts, position, k) && Outcome(parts, position, k, r)
    ensures r.Failure? <==> parts == [] || Start(parts, |parts|) < position as real
    ensures r.Failure? ==> r.error == NoCandidate
    ensures r.Success? ==> Near(parts, position, r.value)
  {
    if k == |parts| {
      assert parts != [] ==> Start(parts, |parts|) < position as real;
    } else {
      StartsAscend(parts, k + 1, |parts|);
      StartsAscend(parts, k, k + 1);
      var start, inner := Start(parts, k), position as real - Start(parts, k);
      if inner + 2.0 >= parts[k].duration.value && k + 1 < |parts| {
        assert r.value.parts == parts[k + 1..] && Start(parts, k + 1) >= position as real;
      } else {
        assert k == 0 ==> start == 0.0 && inner == position as real;
        assert k > 0 ==> Start(parts, k) < position as real;
        assert r.value.parts == parts[k..];
      }
    }
  }

  /**
   At most two seconds before the end of its part, the position becomes the start of the next one, if
   there is one; a part of unknown duration keeps the whole list and the position as they are.
   */
  lemma SeekingIsExact(parts: seq<Part>, position: int, k: nat, r: Result<Position, SeekError>)
    requires StopsAt(parts, position, k) && Outcome(parts, position, k, r)
    ensures k == |parts| ==> r == Failure(NoCandidate)
    ensures k < |parts| && parts[k] == NotAPart ==> r == Failure(InvalidData)
    ensures k < |parts| && parts[k] == Part(None) ==> r == Success(Position(parts, position))
    ensures k < |parts| && Known(parts[k]) ==>
              if k + 1 < |parts| && Start(parts, k + 1) - position as real <= 2.0 then
                r == Success(Position(parts[k + 1..], 0))
              else
                && r.Success? && r.value.parts == parts[k..]
                && (position as real >= Start(parts, k) ==>
                      r.value.seconds as real <= position as real - Start(parts, k) < r.value.seconds as real + 1.0)
  {
    if k < |parts| && Known(parts[k]) {
      assert Start(parts, k + 1) == Start(parts, k) + parts[k].duration.value;
    }
  }

  /** Seeking to the start never fails while there are parts. */
  lemma SeekingToStartSucceeds(parts: seq<Part>, k: nat, r: Result<Position, SeekError>)
    requires AllKnown(parts) && parts != []
    requires StopsAt(parts, 0, k) && Outcome(parts, 0, k, r)
    ensures r.Success? && k == 0
  {
    StartsAscend(parts, 0, |parts|);
    SeekingLandsNear(parts, 0, k, r);
    if 0 < |parts| { StartsAscend(parts, 0, 1); }
  }

  // ----- slicing a buffer at frame boundaries

  type Byte = b: int | 0 <= b < 256

  function Flatten(slices: seq<seq<Byte>>): seq<Byte> {
    if slices == [] then [] else Flatten(slices[..|slices| - 1]) + slices[|slices| - 1]
  }

  lemma FlattenSnoc(slices: seq<seq<Byte>>, slice: seq<Byte>)
    ensures Flatten(slices + [slice]) == Flatten(slices) + slice
  {
    assert (slices + [slice])[..|slices|] == slices;
  }

  function Max(a: int, b: int): int {
    if a >= b then a else b
  }

  function FrameSize(bitDepth: nat, channels: int): int {
    Max(1, bitDepth / 8) * channels
  }

  /** A sample takes whole bytes, at least one, and a frame holds a sample of each channel. */
  lemma FrameHoldsSamples(bytes: nat, bits: nat, channels: int)
    requires bits < 8
    ensures FrameSize(8 * bytes + bits, channels) == (if bytes == 0 then 1 else bytes) * channels
  {
    assert (8 * bytes + bits) / 8 == bytes;
  }

  lemma MultipleIsFar(d: int, frame: int)
    requires frame > 0
    ensures d > 0 ==> d * frame >= frame
    ensures d < 0 ==> d * frame < 0
  {
    if d > 0 {
      assert d * frame == (d - 1) * frame + frame && (d - 1) * frame >= 0;
    }
  }

  lemma MultipleHasNoRest(q: int, frame: int)
    requires frame > 0
    ensures (q * frame) % frame == 0
  {
    var n := q * frame;
    var quotient, rest := n / frame, n % frame;
    assert n == quotient * frame + rest && 0 <= rest < frame;
    assert (q - quotient) * frame == rest;
    MultipleIsFar(q - quotient, frame);
  }

  /**
   The slices put together are the buffer. `samples` is the rounded number of samples of the wanted
   duration; all slices but the last hold that many frames, at least one, and the last no more.
   */
  method IterPcmSlices(audio: seq<Byte>, bitDepth: nat, channels: int, samples: int) returns (slices: seq<seq<Byte>>)
    ensures Flatten(slices) == audio
    ensures forall i | 0 <= i < |slices| :: slices[i] != []
    ensures
      var frame := FrameSize(bitDepth, channels);
      frame <= 0 && audio != [] ==> slices == [audio]
    ensures
      var frame := FrameSize(bitDepth, channels);
      frame > 0 ==>
        && (forall i | 0 <= i < |slices| - 1 :: |slices[i]| == Max(1, samples) * frame)
        && (slices != [] ==> |slices[|slices| - 1]| <= Max(1, samples) * frame)
  {
    slices := [];
    if audio == [] {
      return;
    }
    var frame := FrameSize(bitDepth, channels);
    if frame <= 0 {
      FlattenSnoc([], audio);
      slices := [audio];
      return;
    }
    var perSlice := Max(1, samples);
    assert perSlice * frame >= frame by { assert (perSlice - 1) * frame >= 0; }
    var sliceSize := Max(frame, perSlice * frame);
    var offset := 0;
    ghost var q := 0;
    while offset < |audio|
      invariant 0 <= offset <= |audio| && Flatten(slices) == audio[..offset]
      invariant q >= 0 && (offset < |audio| ==> offset == q * frame)
      invariant forall i | 0 <= i < |slices| :: 0 < |slices[i]| <= sliceSize
      invariant offset < |audio| ==> forall i | 0 <= i < |slices| :: |slices[i]| == sliceSize
      invariant forall i | 0 <= i < |slices| - 1 :: |slices[i]| == sliceSize
    {
      var end := if |audio| <= offset + sliceSize then |audio| else offset + sliceSize;
      if end < |audio| {
        assert end == (q + perSlice) * frame;
        MultipleHasNoRest(q + perSlice, frame);
        var alignedEnd := end - end % frame;
        if alignedEnd <= offset {
          alignedEnd := if |audio| <= offset + frame then |audio| else offset + frame;
        }
        end := alignedEnd;
        q := q + perSlice;
      }
      FlattenSnoc(slices, audio[offset..end]);
      assert audio[..offset] + audio[offset..end] == audio[..end];
      slices := slices + [audio[offset..end]];
      offset := end;
    }
    assert audio[..|audio|] == audio;
  }
}
