/** The evidence of `compare.py` that two albums are the same, and the fingerprint of their tracks. */
module AlbumEvidence {
  import opened Wrappers
  import opened MatchItems

  datatype Evidence = NoMatch | Insufficient | Match

  function Rank(e: Evidence): int {
    match e
    case NoMatch => 0
    case Insufficient => 1
    case Match => 2
  }

  const ISRC_DURATION_TOLERANCE := 8
  const FALLBACK_DURATION_TOLERANCE := 2

  // ----- one position of two tracklists

  predicate DurationClose(a: int, b: int, tolerance: int) {
    -tolerance <= a - b <= tolerance
  }

  function TrackIsrcs(h: Helpers, t: Track): set<string> {
    IdsOfType(h, t.externalIds, Isrc)
  }

  /** Common ISRCs and a like duration; without ISRCs on both sides, the title and version. */
  function TrackFingerprint(h: Helpers, a: Track, b: Track): Evidence {
    var left, right := TrackIsrcs(h, a), TrackIsrcs(h, b);
    if left != {} && right != {} then
      if left !! right then NoMatch
      else if a.duration == 0 || b.duration == 0 then Insufficient
      else if DurationClose(a.duration, b.duration, ISRC_DURATION_TOLERANCE) then Match
      else Insufficient
    else if a.name == "" || b.name == "" then Insufficient
    else if !StringsMatch(h, a.name, b.name) then NoMatch
    else if !VersionsMatch(h, a.version, b.version) then NoMatch
    else if a.duration == 0 || b.duration == 0 then Insufficient
    else if DurationClose(a.duration, b.duration, FALLBACK_DURATION_TOLERANCE) then Match
    else NoMatch
  }

  predicate BothHaveIsrcs(h: Helpers, a: Track, b: Track) {
    TrackIsrcs(h, a) != {} && TrackIsrcs(h, b) != {}
  }

  predicate SameNameAndVersion(h: Helpers, a: Track, b: Track) {
    StringsMatch(h, a.name, b.name) && VersionsMatch(h, a.version, b.version)
  }

  /** When a position speaks for the same recording, and when against it. */
  lemma TrackFingerprintMeaning(h: Helpers, a: Track, b: Track)
    ensures
      var isrcs, timed := BothHaveIsrcs(h, a, b), a.duration != 0 && b.duration != 0;
      && (TrackFingerprint(h, a, b) == Match <==>
            && timed
            && DurationClose(a.duration, b.duration, if isrcs then 8 else 2)
            && if isrcs then !(TrackIsrcs(h, a) !! TrackIsrcs(h, b)) else SameNameAndVersion(h, a, b))
      && (TrackFingerprint(h, a, b) == NoMatch <==>
            if isrcs then TrackIsrcs(h, a) !! TrackIsrcs(h, b)
            else
              && a.name != "" && b.name != ""
              && (!SameNameAndVersion(h, a, b) || (timed && !DurationClose(a.duration, b.duration, 2))))
  {
    hide TrackIsrcs, SafeNamesMatch;
  }

  lemma TrackFingerprintIsSymmetric(h: Helpers, a: Track, b: Track)
    ensures TrackFingerprint(h, a, b) == TrackFingerprint(h, b, a)
  {
    hide TrackIsrcs, IdsOfType;
  }

  // ----- the positions of a tracklist

  type Slot = (int, int)

  /** Disc and track number; an unknown disc is the first. */
  function SlotOf(t: Track): Slot {
    (if t.disc != 0 then t.disc else 1, t.number)
  }

  /** All or no tracks have a disc number, all have a track number, and no two the same place. */
  predicate Trusted(tracks: seq<Track>) {
    && (forall i, j | 0 <= i < |tracks| && 0 <= j < |tracks| :: (tracks[i].disc != 0) == (tracks[j].disc != 0))
    && (forall i | 0 <= i < |tracks| :: tracks[i].number != 0)
    && (forall i, j | 0 <= i < j < |tracks| :: SlotOf(tracks[i]) != SlotOf(tracks[j]))
  }

  function Slots(tracks: seq<Track>): set<Slot> {
    set t | t in tracks :: SlotOf(t)
  }

  predicate Places(positions: map<Slot, Track>, tracks: seq<Track>) {
    && positions.Keys == Slots(tracks)
    && forall t | t in tracks :: SlotOf(t) in positions && positions[SlotOf(t)] == t
  }

  /** An untrusted tracklist has no positions. */
  method TrackPositions(tracks: seq<Track>) returns (positions: map<Slot, Track>)
    ensures if Trusted(tracks) then Places(positions, tracks) else positions == map[]
  {
    if exists i, j | 0 <= i < |tracks| && 0 <= j < |tracks| :: (tracks[i].disc != 0) != (tracks[j].disc != 0) {
      return map[];
    }
    positions := map[];
    for i := 0 to |tracks|
      invariant forall j | 0 <= j < i :: tracks[j].number != 0
      invariant forall j, k | 0 <= j < k < i :: SlotOf(tracks[j]) != SlotOf(tracks[k])
      invariant forall j | 0 <= j < i :: SlotOf(tracks[j]) in positions && positions[SlotOf(tracks[j])] == tracks[j]
      invariant forall s | s in positions :: exists j | 0 <= j < i :: SlotOf(tracks[j]) == s
    {
      if tracks[i].number == 0 {
        return map[];
      }
      var key := SlotOf(tracks[i]);
      if key in positions {
        var j :| 0 <= j < i && SlotOf(tracks[j]) == key;
        return map[];
      }
      positions := positions[key := tracks[i]];
    }
  }

  // ----- two tracklists

  predicate IsMultiDisc(tracks: seq<Track>) {
    exists t | t in tracks :: SlotOf(t).0 > 1
  }

  predicate HasUnknownDiscs(tracks: seq<Track>) {
    forall t | t in tracks :: t.disc == 0
  }

  predicate SomePosition(h: Helpers, a: seq<Track>, b: seq<Track>, e: Evidence) {
    exists x, y | x in a && y in b && SlotOf(x) == SlotOf(y) :: TrackFingerprint(h, x, y) == e
  }

  /** The least evidence of any position. */
  function LeastEvidence(h: Helpers, a: seq<Track>, b: seq<Track>): Evidence {
    if SomePosition(h, a, b, NoMatch) then NoMatch
    else if SomePosition(h, a, b, Insufficient) then Insufficient
    else Match
  }

  function SeqFingerprint(h: Helpers, a: seq<Track>, b: seq<Track>): Evidence {
    if a == [] || b == [] || !Trusted(a) || !Trusted(b) then Insufficient
    else if (IsMultiDisc(a) && HasUnknownDiscs(b)) || (IsMultiDisc(b) && HasUnknownDiscs(a)) then Insufficient
    else if Slots(a) != Slots(b) then NoMatch
    else LeastEvidence(h, a, b)
  }

  type Tracklist = Option<seq<Track>>

  function Fingerprint(h: Helpers, a: Tracklist, b: Tracklist): Evidence {
    if a.None? || b.None? then Insufficient else SeqFingerprint(h, a.value, b.value)
  }

  lemma SomePositionFound(h: Helpers, a: seq<Track>, b: seq<Track>, x: Track, y: Track)
    requires x in a && y in b && SlotOf(x) == SlotOf(y)
    ensures SomePosition(h, a, b, TrackFingerprint(h, x, y))
    ensures Rank(LeastEvidence(h, a, b)) <= Rank(TrackFingerprint(h, x, y))
  {
    hide TrackFingerprint;
    assert SomePosition(h, a, b, TrackFingerprint(h, x, y));
  }

  /** The fingerprint of two tracklists of the same shape is the minimum over their positions. */
  lemma FingerprintIsMinimum(h: Helpers, a: seq<Track>, b: seq<Track>)
    requires a != [] && Trusted(a) && Trusted(b) && Slots(a) == Slots(b)
    requires !(IsMultiDisc(a) && HasUnknownDiscs(b)) && !(IsMultiDisc(b) && HasUnknownDiscs(a))
    ensures forall x, y | x in a && y in b && SlotOf(x) == SlotOf(y) ::
              Rank(SeqFingerprint(h, a, b)) <= Rank(TrackFingerprint(h, x, y))
    ensures SomePosition(h, a, b, SeqFingerprint(h, a, b))
  {
    hide TrackFingerprint, Trusted;
    assert SlotOf(a[0]) in Slots(a);
    var y :| y in b && SlotOf(y) == SlotOf(a[0]);
    assert SomePosition(h, a, b, TrackFingerprint(h, a[0], y));
    forall x, y | x in a && y in b && SlotOf(x) == SlotOf(y)
      ensures Rank(LeastEvidence(h, a, b)) <= Rank(TrackFingerprint(h, x, y))
    {
      SomePositionFound(h, a, b, x, y);
    }
  }

  lemma SomePositionIsSymmetric(h: Helpers, a: seq<Track>, b: seq<Track>, e: Evidence)
    requires SomePosition(h, a, b, e)
    ensures SomePosition(h, b, a, e)
  {
    hide TrackFingerprint;
    var x, y :| x in a && y in b && SlotOf(x) == SlotOf(y) && TrackFingerprint(h, x, y) == e;
    TrackFingerprintIsSymmetric(h, x, y);
    assert TrackFingerprint(h, y, x) == e;
  }

  lemma FingerprintIsSymmetric(h: Helpers, a: Tracklist, b: Tracklist)
    ensures Fingerprint(h, a, b) == Fingerprint(h, b, a)
  {
    hide SomePosition, Trusted, IsMultiDisc, HasUnknownDiscs, Slots;
    if a.Some? && b.Some? {
      forall e ensures SomePosition(h, a.value, b.value, e) == SomePosition(h, b.value, a.value, e) {
        if SomePosition(h, a.value, b.value, e) { SomePositionIsSymmetric(h, a.value, b.value, e); }
        if SomePosition(h, b.value, a.value, e) { SomePositionIsSymmetric(h, b.value, a.value, e); }
      }
    }
  }

  // ----- the order of a tracklist does not matter

  lemma SameTracks(s: seq<Track>, t: seq<Track>)
    requires multiset(s) == multiset(t)
    ensures |s| == |t| && forall x :: x in s <==> x in t
  {
    assert |s| == |multiset(s)| && |t| == |multiset(t)|;
    assert forall x :: x in s <==> x in multiset(s);
  }

  lemma OccursTwice(s: seq<Track>, i: nat, j: nat)
    requires i < j < |s| && s[i] == s[j]
    ensures multiset(s)[s[i]] >= 2
  {
    assert s == s[..j] + s[j..];
    assert s[i] in s[..j] && s[j..][0] == s[j];
  }

  lemma OccursOnce(s: seq<Track>, i: nat)
    requires i < |s| && forall j | 0 <= j < |s| && j != i :: s[j] != s[i]
    ensures multiset(s)[s[i]] == 1
  {
    assert s == s[..i] + [s[i]] + s[i + 1..];
    assert s[i] !in s[..i] && s[i] !in s[i + 1..];
  }

  lemma ReorderedIsTrusted(s: seq<Track>, t: seq<Track>)
    requires multiset(s) == multiset(t) && Trusted(s)
    ensures Trusted(t)
  {
    SameTracks(s, t);
    assert forall i | 0 <= i < |t| :: t[i] in s;
    forall i, j | 0 <= i < j < |t| ensures SlotOf(t[i]) != SlotOf(t[j]) {
      var k :| 0 <= k < |s| && s[k] == t[i];
      var l :| 0 <= l < |s| && s[l] == t[j];
      if k == l {
        OccursOnce(s, k);
        OccursTwice(t, i, j);
      }
    }
  }

  lemma ReorderingKeepsFingerprint(h: Helpers, a: seq<Track>, b: seq<Track>, c: seq<Track>, d: seq<Track>)
    requires multiset(a) == multiset(c) && multiset(b) == multiset(d)
    ensures Fingerprint(h, Some(a), Some(b)) == Fingerprint(h, Some(c), Some(d))
  {
    hide TrackFingerprint, Trusted;
    SameTracks(a, c);
    SameTracks(b, d);
    if Trusted(a) { ReorderedIsTrusted(a, c); }
    if Trusted(c) { ReorderedIsTrusted(c, a); }
    if Trusted(b) { ReorderedIsTrusted(b, d); }
    if Trusted(d) { ReorderedIsTrusted(d, b); }
    assert Slots(a) == Slots(c) && Slots(b) == Slots(d);
  }

  method CompareAlbumTrackFingerprint(h: Helpers, base: Tracklist, compare: Tracklist) returns (r: Evidence)
    ensures r == Fingerprint(h, base, compare)
  {
    hide TrackFingerprint, LeastEvidence, SomePosition, Trusted;
    if base.None? || compare.None? || |base.value| == 0 || |compare.value| == 0 {
      return Insufficient;
    }
    var a, b := base.value, compare.value;
    var basePositions := TrackPositions(a);
    var comparePositions := TrackPositions(b);
    assert Trusted(a) ==> SlotOf(a[0]) in basePositions;
    assert Trusted(b) ==> SlotOf(b[0]) in comparePositions;
    if |basePositions| == 0 || |comparePositions| == 0 {
      return Insufficient;
    }
    var baseIsMulti := exists s | s in basePositions :: s.0 > 1;
    var compareIsMulti := exists s | s in comparePositions :: s.0 > 1;
    if (baseIsMulti && HasUnknownDiscs(b)) || (compareIsMulti && HasUnknownDiscs(a)) {
      return Insufficient;
    }
    if basePositions.Keys != comparePositions.Keys {
      return NoMatch;
    }
    r := ComparePositions(h, a, b, comparePositions);
  }

  /** The loop over the positions, in the order of the base tracks. */
  method ComparePositions(h: Helpers, a: seq<Track>, b: seq<Track>, positions: map<Slot, Track>) returns (r: Evidence)
    requires Places(positions, b) && Slots(a) == Slots(b)
    ensures r == LeastEvidence(h, a, b)
  {
    hide TrackFingerprint;
    r := Match;
    for i := 0 to |a|
      invariant r != NoMatch
      invariant forall x, y | x in a[..i] && y in b && SlotOf(x) == SlotOf(y) :: TrackFingerprint(h, x, y) != NoMatch
      invariant r == Insufficient <==> SomePosition(h, a[..i], b, Insufficient)
    {
      var slot := SlotOf(a[i]);
      assert slot in Slots(a);
      var evidence := TrackFingerprint(h, a[i], positions[slot]);
      if evidence == NoMatch {
        return NoMatch;
      }
      if evidence == Insufficient {
        r := Insufficient;
      }
      assert a[..i + 1] == a[..i] + [a[i]];
    }
    assert a[..|a|] == a;
  }
}
