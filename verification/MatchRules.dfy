/**
 The rules of `compare.py` in the fields of the items themselves: what the named comparisons come down
 to, and what they make of albums and tracks.
 */
module MatchRules {
  import opened Wrappers
  import opened MatchItems
  import Evidence = AlbumEvidence
  import Albums = AlbumMatching
  import Tracks = TrackMatching

  // ----- identifiers

  /** A usable identifier: only an ISRC has to be valid. */
  predicate Usable(h: Helpers, t: IdType, value: string) {
    t == Isrc ==> h.isValidIsrc(value)
  }

  ghost predicate HasId(h: Helpers, ids: ExternalIds, t: IdType) {
    exists v :: (t, v) in ids && Usable(h, t, v)
  }

  ghost predicate ShareId(h: Helpers, a: ExternalIds, b: ExternalIds, t: IdType) {
    exists v, w :: (t, v) in a && (t, w) in b && Usable(h, t, v) && Usable(h, t, w)
                   && h.normalizeId(t, v) == h.normalizeId(t, w)
  }

  /** Both have an identifier of a type that is unique, but none in common. */
  ghost predicate DifferInId(h: Helpers, a: ExternalIds, b: ExternalIds, t: IdType) {
    h.isUniqueType(t) && HasId(h, a, t) && HasId(h, b, t) && !ShareId(h, a, b, t)
  }

  lemma IdIsListed(h: Helpers, ids: ExternalIds, t: IdType, id: string)
    ensures id in IdsOfType(h, ids, t) <==> exists v :: (t, v) in ids && Usable(h, t, v) && h.normalizeId(t, v) == id
  {
    if id in IdsOfType(h, ids, t) {
      var p :| p in ids && p.0 == t && (t.Isrc? ==> h.isValidIsrc(p.1)) && h.normalizeId(t, p.1) == id;
      assert (t, p.1) == p;
    }
    if v :| (t, v) in ids && Usable(h, t, v) && h.normalizeId(t, v) == id {
      var p := (t, v);
      assert p in ids && p.0 == t && h.normalizeId(t, p.1) == id;
    }
  }

  lemma HasIdInWords(h: Helpers, ids: ExternalIds, t: IdType)
    ensures IdsOfType(h, ids, t) != {} <==> HasId(h, ids, t)
  {
    hide IdsOfType, Usable;
    if v :| (t, v) in ids && Usable(h, t, v) {
      IdIsListed(h, ids, t, h.normalizeId(t, v));
    }
    if id :| id in IdsOfType(h, ids, t) {
      IdIsListed(h, ids, t, id);
    }
  }

  lemma ShareIdInWords(h: Helpers, a: ExternalIds, b: ExternalIds, t: IdType)
    ensures IdsOfType(h, a, t) * IdsOfType(h, b, t) != {} <==> ShareId(h, a, b, t)
  {
    hide IdsOfType, Usable;
    var both := IdsOfType(h, a, t) * IdsOfType(h, b, t);
    if v, w :| (t, v) in a && (t, w) in b && Usable(h, t, v) && Usable(h, t, w)
               && h.normalizeId(t, v) == h.normalizeId(t, w) {
      IdIsListed(h, a, t, h.normalizeId(t, v));
      IdIsListed(h, b, t, h.normalizeId(t, v));
      assert h.normalizeId(t, v) in both;
    }
    if id :| id in both {
      IdIsListed(h, a, t, id);
      IdIsListed(h, b, t, id);
    }
  }

  /** What two sets of identifiers say of one type. */
  lemma IdsInWords(h: Helpers, a: ExternalIds, b: ExternalIds, t: IdType)
    ensures CompareExternalIds(h, a, b, t) == Some(true) <==> ShareId(h, a, b, t)
    ensures CompareExternalIds(h, a, b, t) == Some(false) <==> DifferInId(h, a, b, t)
    ensures CompareExternalIds(h, a, b, t) == None <==> !ShareId(h, a, b, t) && !DifferInId(h, a, b, t)
  {
    hide IdsOfType, HasId, ShareId;
    HasIdInWords(h, a, t);
    HasIdInWords(h, b, t);
    ShareIdInWords(h, a, b, t);
    assert ShareId(h, a, b, t) ==> IdsOfType(h, a, t) != {} && IdsOfType(h, b, t) != {};
  }

  /** None of these types has anything to say. */
  ghost predicate Undecided(h: Helpers, a: ExternalIds, b: ExternalIds, types: seq<IdType>) {
    forall t | t in types :: !ShareId(h, a, b, t) && !DifferInId(h, a, b, t)
  }

  /** The first type with an answer decides. */
  lemma {:induction false} FirstAnswerInWords(h: Helpers, a: ExternalIds, b: ExternalIds, types: seq<IdType>, i: nat)
    requires i <= |types| && Undecided(h, a, b, types[..i])
    ensures i == |types| ==> FirstAnswer(h, a, b, types) == None
    ensures i < |types| && ShareId(h, a, b, types[i]) ==> FirstAnswer(h, a, b, types) == Some(true)
    ensures i < |types| && DifferInId(h, a, b, types[i]) ==> FirstAnswer(h, a, b, types) == Some(false)
  {
    hide CompareExternalIds, ShareId, DifferInId;
    if types != [] {
      IdsInWords(h, a, b, types[0]);
      if i > 0 {
        assert types[0] in types[..i];
        assert forall t | t in types[1..][..i - 1] :: t in types[..i];
        FirstAnswerInWords(h, a, b, types[1..], i - 1);
      }
    }
  }

  // ----- identity

  /** Both are known, and they are one item or one of them has a mapping to the other. */
  predicate OneItem(a: Identity, b: Identity) {
    && "" !in {a.provider, a.itemId, b.provider, b.itemId}
    && (|| (a.provider, a.itemId) == (b.provider, b.itemId)
        || (a.mappings.Some? && exists m | m in a.mappings.value :: (m.instance, m.itemId) == (b.provider, b.itemId))
        || (b.mappings.Some? && exists m | m in b.mappings.value :: (m.instance, m.itemId) == (a.provider, a.itemId)))
  }

  lemma IdentityInWords(a: Identity, b: Identity)
    ensures SameInstanceItem(a, b) <==> OneItem(a, b)
    ensures SameItem(a, b) <==>
            || OneItem(a, b)
            || (&& "" !in {a.provider, a.itemId, b.provider, b.itemId} && a.mappings.Some? && b.mappings.Some?
                && exists l, r | l in a.mappings.value && r in b.mappings.value ::
                     && (l.domain, l.itemId) == (r.domain, r.itemId)
                     && (l.instance == r.instance || !(l.isUnique || r.isUnique)))
  {
    assert Refers(a, b) <==>
      (a.mappings.Some? && exists m | m in a.mappings.value :: (m.instance, m.itemId) == (b.provider, b.itemId));
    assert Refers(b, a) <==>
      (b.mappings.Some? && exists m | m in b.mappings.value :: (m.instance, m.itemId) == (a.provider, a.itemId));
    forall l, r ensures SameMapping(l, r) <==> && (l.domain, l.itemId) == (r.domain, r.itemId)
                                               && (l.instance == r.instance || !(l.isUnique || r.isUnique))
    {
    }
    hide Refers, SameMapping;
  }

  // ----- names

  lemma NamesInWords(h: Helpers, a: string, b: string)
    ensures StringsMatch(h, a, b) <==>
            && a != "" && b != ""
            && (|| h.lower(a) == h.lower(b)
                || h.normalName(a) == h.normalName(b) != ""
                || (h.normalName(a) == h.normalName(b) == "" && h.withoutSpace(a) == h.withoutSpace(b)))
    ensures AlbumNamesMatch(h, a, b) <==>
            && (h.retailSuffix(a) == "" || h.retailSuffix(b) == "" || h.retailSuffix(a) == h.retailSuffix(b))
            && StringsMatch(h, h.withoutSuffix(a), h.withoutSuffix(b))
    ensures StringsMatch(h, a, b) ==> TrackTitlesMatch(h, a, b)
    ensures TrackTitlesMatch(h, a, b) ==> StringsMatch(h, a, b) || StringsMatch(h, h.searchTitle(a), h.searchTitle(b))
  {
  }

  // ----- versions

  /** The words of a version that make it another recording. */
  predicate RecordingWord(w: string) {
    || w == "acoustic" || w == "cover" || w == "demo" || w == "instrumental"
    || w == "karaoke" || w == "live" || w == "remix" || w == "session"
  }

  predicate Year(h: Helpers, w: string) {
    |w| == 4 && h.isNumber(w)
  }

  /** Only one set of words names a remaster, or each names years and they have none in common. */
  ghost predicate RemastersApart(h: Helpers, left: set<string>, right: set<string>) {
    || ("remaster" in left && "remaster" !in right)
    || ("remaster" in right && "remaster" !in left)
    || (&& "remaster" in left
        && (exists w :: w in left && Year(h, w)) && (exists w :: w in right && Year(h, w))
        && forall w | w in left && w in right :: !Year(h, w))
  }

  /** Nothing but the remaster, and numbers that may be its year. */
  predicate OnlyRemaster(h: Helpers, words: set<string>) {
    "remaster" in words && forall w | w in words && w != "remaster" :: h.isNumber(w)
  }

  lemma RecordingWordsInWords(h: Helpers, a: string, b: string)
    ensures NamesOtherRecording(h, a, b) <==>
            exists w :: RecordingWord(w) && (w in h.versionTokens(a) || w in h.versionTokens(b))
  {
    var words := h.versionTokens(a) + h.versionTokens(b);
    assert forall w :: w in RECORDING_CONFLICTS <==> RecordingWord(w);
    hide RECORDING_CONFLICTS, RecordingWord;
    if w :| RecordingWord(w) && w in words {
      assert w in words * RECORDING_CONFLICTS;
    }
    if words * RECORDING_CONFLICTS != {} {
      var w :| w in words * RECORDING_CONFLICTS;
    }
  }

  lemma YearsInWords(h: Helpers, words: set<string>, w: string)
    ensures w in Years(h, words) <==> w in words && Year(h, w)
    ensures Years(h, words) == {} <==> forall w | w in words :: !Year(h, w)
  {
    assert forall w :: w in Years(h, words) <==> w in words && Year(h, w);
  }

  lemma RemastersInWords(h: Helpers, a: string, b: string)
    ensures RemastersConflict(h, a, b) <==> RemastersApart(h, h.versionTokens(a), h.versionTokens(b))
    ensures MissingRemaster(h, a, b) <==>
            || (h.versionTokens(a) == {} && OnlyRemaster(h, h.versionTokens(b)))
            || (h.versionTokens(b) == {} && OnlyRemaster(h, h.versionTokens(a)))
  {
    hide Years, Year;
    var left, right := h.versionTokens(a), h.versionTokens(b);
    forall w
      ensures w in Years(h, left) <==> w in left && Year(h, w)
      ensures w in Years(h, right) <==> w in right && Year(h, w)
    {
      YearsInWords(h, left, w);
      YearsInWords(h, right, w);
    }
    YearsInWords(h, left, "");
    YearsInWords(h, right, "");
  }

  // ----- artists

  /** The pairs of places at which the same artist stands. */
  function SamePairs(h: Helpers, a: seq<Artist>, m: nat, b: seq<Artist>, n: nat): set<(nat, nat)>
    requires m <= |a| && n <= |b|
  {
    set i: nat, j: nat | i < m && j < n && ArtistsSame(h, a[i], b[j]) :: (i, j)
  }

  function SameAt(h: Helpers, a: seq<Artist>, i: nat, b: seq<Artist>, n: nat): set<(nat, nat)>
    requires i < |a| && n <= |b|
  {
    set j: nat | j < n && ArtistsSame(h, a[i], b[j]) :: (i, j)
  }

  lemma {:induction false} MatchesAreCounted(h: Helpers, a: seq<Artist>, i: nat, b: seq<Artist>, n: nat)
    requires i < |a| && n <= |b|
    ensures |SameAt(h, a, i, b, n)| == Matches(h, a[i], b, n)
  {
    hide ArtistsSame;
    if n == 0 {
      assert SameAt(h, a, i, b, 0) == {};
    } else {
      MatchesAreCounted(h, a, i, b, n - 1);
      var before := SameAt(h, a, i, b, n - 1);
      assert (i, n - 1) !in before;
      assert SameAt(h, a, i, b, n) == before + (if ArtistsSame(h, a[i], b[n - 1]) then {(i, n - 1)} else {});
    }
  }

  /** The counter of the nested loops is the number of such pairs. */
  lemma {:induction false} PairMatchesAreCounted(h: Helpers, a: seq<Artist>, m: nat, b: seq<Artist>, n: nat)
    requires m <= |a| && n <= |b|
    ensures |SamePairs(h, a, m, b, n)| == PairMatches(h, a, m, b, n)
  {
    hide ArtistsSame;
    if m == 0 {
      assert SamePairs(h, a, 0, b, n) == {};
    } else {
      PairMatchesAreCounted(h, a, m - 1, b, n);
      MatchesAreCounted(h, a, m - 1, b, n);
      var before, more := SamePairs(h, a, m - 1, b, n), SameAt(h, a, m - 1, b, n);
      assert before !! more;
      assert SamePairs(h, a, m, b, n) == before + more;
    }
  }

  /** Two lists match by their first artists, by any common one, or by as many common pairs as artists. */
  lemma ArtistListsInWords(h: Helpers, a: seq<Artist>, b: seq<Artist>)
    ensures ArtistListsMatch(h, a, b, true) <==> SamePairs(h, a, |a|, b, |b|) != {}
    ensures ArtistListsMatch(h, a, b, false) <==>
            && a != [] && b != []
            && (ArtistsSame(h, a[0], b[0]) || |a| == |b| == |SamePairs(h, a, |a|, b, |b|)|)
  {
    hide ArtistsSame, PairMatches;
    PairMatchesAreCounted(h, a, |a|, b, |b|);
    forall i: nat, j: nat | i < |a| && j < |b| && ArtistsSame(h, a[i], b[j])
      ensures (i, j) in SamePairs(h, a, |a|, b, |b|)
    {
    }
    if SamePairs(h, a, |a|, b, |b|) != {} {
      var p :| p in SamePairs(h, a, |a|, b, |b|);
      assert ArtistsSame(h, a[p.0], b[p.1]);
    }
  }

  /** An item or the first deciding identifier settles it; else types that differ, then the names. */
  lemma ArtistsInWords(h: Helpers, a: Artist, b: Artist, i: nat)
    requires !SameItem(a.identity, b.identity)
    requires i <= 3 && Undecided(h, a.externalIds, b.externalIds, [MbArtist, Discogs, Tadb][..i])
    ensures i < 3 && ShareId(h, a.externalIds, b.externalIds, [MbArtist, Discogs, Tadb][i]) ==> ArtistsSame(h, a, b)
    ensures i < 3 && DifferInId(h, a.externalIds, b.externalIds, [MbArtist, Discogs, Tadb][i]) ==> !ArtistsSame(h, a, b)
    ensures i == 3 ==>
              (ArtistsSame(h, a, b) <==>
                && (a.artistType == None || b.artistType == None || a.artistType == b.artistType)
                && StringsMatch(h, a.name, b.name))
  {
    hide SameItem, Undecided, ShareId, DifferInId, FirstAnswer, StringsMatch;
    FirstAnswerInWords(h, a.externalIds, b.externalIds, [MbArtist, Discogs, Tadb], i);
  }
}
