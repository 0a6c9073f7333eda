/**
 The items that `compare.py` matches, and the comparisons of their identifiers, names, versions
 and artists. What depends on Unicode, regular expressions or other packages is left open.
 */
module MatchItems {
  import opened Wrappers

  datatype IdType =
    | MbArtist | MbAlbum | MbTrack | MbRecording | Acoustid | Discogs | Tadb | Asin | Barcode | Isrc
    | OtherId(name: string)

  type ExternalIds = set<(IdType, string)>

  /** The functions on text that are left open, and the setting for remasters. */
  datatype Helpers = Helpers(
    normalizeId: (IdType, string) -> string,
    isUniqueType: IdType -> bool,
    isValidIsrc: string -> bool,
    lower: string -> string,
    normalName: string -> string,
    withoutSpace: string -> string,
    retailSuffix: string -> string,
    withoutSuffix: string -> string,
    searchTitle: string -> string,
    versionTokens: string -> set<string>,
    versionOf: (string, string) -> string,
    isNumber: string -> bool,
    featuredArtists: string -> seq<string>,
    splitFeatured: string -> seq<string>,
    splitList: string -> seq<string>,
    creditKey: string -> string,
    keepRemastersApart: bool
  )

  /** An empty provider or id is an unknown one. */
  datatype ProviderMapping = ProviderMapping(domain: string, instance: string, itemId: string, isUnique: bool)

  /** A reference to an item has no provider mappings of its own. */
  datatype Identity = Identity(provider: string, itemId: string, mappings: Option<set<ProviderMapping>>)

  /** The type of an artist is known unless it is a mere reference. */
  datatype Artist = Artist(identity: Identity, externalIds: ExternalIds, name: string, artistType: Option<string>)

  /** Year zero is unknown. */
  datatype AlbumDetails = AlbumDetails(year: int, isExplicit: Option<bool>, artists: seq<Artist>)

  /** An album without details is a mere reference. */
  datatype Album = Album(
    identity: Identity,
    externalIds: ExternalIds,
    name: string,
    version: string,
    details: Option<AlbumDetails>
  )

  /** A disc or track number of zero is unknown, and so is a duration that is not positive. */
  datatype Track = Track(
    identity: Identity,
    externalIds: ExternalIds,
    name: string,
    version: string,
    artists: seq<Artist>,
    album: Option<Album>,
    isExplicit: Option<bool>,
    disc: int,
    number: int,
    duration: int
  )

  // ----- identity

  predicate Refers(item: Identity, other: Identity) {
    item.mappings.Some? &&
    exists m | m in item.mappings.value :: m.instance == other.provider && m.itemId == other.itemId
  }

  predicate IsKnown(item: Identity) {
    item.provider != "" && item.itemId != ""
  }

  predicate SameInstanceItem(a: Identity, b: Identity) {
    && IsKnown(a) && IsKnown(b)
    && ((a.provider == b.provider && a.itemId == b.itemId) || Refers(a, b) || Refers(b, a))
  }

  /** Mappings of one domain, of the same instance where either of them requires it. */
  predicate SameMapping(l: ProviderMapping, r: ProviderMapping) {
    && l.domain == r.domain
    && (l.isUnique || r.isUnique ==> l.instance == r.instance)
    && l.itemId == r.itemId
  }

  predicate SameItem(a: Identity, b: Identity) {
    || SameInstanceItem(a, b)
    || (IsKnown(a) && IsKnown(b) && a.mappings.Some? && b.mappings.Some? &&
        exists l, r | l in a.mappings.value && r in b.mappings.value :: SameMapping(l, r))
  }

  lemma SameItemIsSymmetric(a: Identity, b: Identity)
    ensures SameInstanceItem(a, b) == SameInstanceItem(b, a)
    ensures SameItem(a, b) == SameItem(b, a)
  {
    forall l, r ensures SameMapping(l, r) == SameMapping(r, l) {
    }
    hide SameMapping;
  }

  // ----- external identifiers

  function IdsOfType(h: Helpers, ids: ExternalIds, t: IdType): set<string> {
    set p | p in ids && p.0 == t && (t.Isrc? ==> h.isValidIsrc(p.1)) :: h.normalizeId(t, p.1)
  }

  /** Nothing is known unless both items have such an id; unequal ids only tell where they are unique. */
  function CompareExternalIds(h: Helpers, a: ExternalIds, b: ExternalIds, t: IdType): Option<bool> {
    var left, right := IdsOfType(h, a, t), IdsOfType(h, b, t);
    if left == {} || right == {} then None
    else if left * right != {} then Some(true)
    else if h.isUniqueType(t) then Some(false)
    else None
  }

  lemma CompareExternalIdsIsSymmetric(h: Helpers, a: ExternalIds, b: ExternalIds, t: IdType)
    ensures CompareExternalIds(h, a, b, t) == CompareExternalIds(h, b, a, t)
  {
    var left, right := IdsOfType(h, a, t), IdsOfType(h, b, t);
    hide IdsOfType;
    assert left * right == right * left;
  }

  /** The answer of the first type that has one. */
  function FirstAnswer(h: Helpers, a: ExternalIds, b: ExternalIds, types: seq<IdType>): Option<bool> {
    if types == [] then None
    else
      var answer := CompareExternalIds(h, a, b, types[0]);
      if answer.Some? then answer else FirstAnswer(h, a, b, types[1..])
  }

  lemma {:induction false} FirstAnswerIsSymmetric(h: Helpers, a: ExternalIds, b: ExternalIds, types: seq<IdType>)
    ensures FirstAnswer(h, a, b, types) == FirstAnswer(h, b, a, types)
  {
    if types != [] {
      CompareExternalIdsIsSymmetric(h, a, b, types[0]);
      FirstAnswerIsSymmetric(h, a, b, types[1..]);
    }
  }

  // ----- names

  predicate SafeNamesMatch(h: Helpers, a: string, b: string) {
    var left, right := h.normalName(a), h.normalName(b);
    if left != "" && right != "" then left == right
    else if left != "" || right != "" then false
    else h.withoutSpace(a) == h.withoutSpace(b)
  }

  /** Strict comparison. */
  predicate StringsMatch(h: Helpers, a: string, b: string) {
    a != "" && b != "" && (h.lower(a) == h.lower(b) || SafeNamesMatch(h, a, b))
  }

  predicate AlbumNamesMatch(h: Helpers, a: string, b: string) {
    var left, right := h.retailSuffix(a), h.retailSuffix(b);
    if left != "" && right != "" && left != right then false
    else StringsMatch(h, h.withoutSuffix(a), h.withoutSuffix(b))
  }

  predicate TrackTitlesMatch(h: Helpers, a: string, b: string) {
    StringsMatch(h, a, b) || StringsMatch(h, h.searchTitle(a), h.searchTitle(b))
  }

  lemma NamesMatchIsSymmetric(h: Helpers, a: string, b: string)
    ensures StringsMatch(h, a, b) == StringsMatch(h, b, a)
    ensures TrackTitlesMatch(h, a, b) == TrackTitlesMatch(h, b, a)
  {
  }

  lemma AlbumNamesMatchIsSymmetric(h: Helpers, a: string, b: string)
    ensures AlbumNamesMatch(h, a, b) == AlbumNamesMatch(h, b, a)
  {
    hide StringsMatch;
    NamesMatchIsSymmetric(h, h.withoutSuffix(a), h.withoutSuffix(b));
  }

  // ----- versions

  const RECORDING_CONFLICTS: set<string> :=
    {"acoustic", "cover", "demo", "instrumental", "karaoke", "live", "remix", "session"}

  predicate VersionsMatch(h: Helpers, a: string, b: string) {
    h.versionTokens(a) == h.versionTokens(b)
  }

  predicate NamesOtherRecording(h: Helpers, a: string, b: string) {
    (h.versionTokens(a) + h.versionTokens(b)) * RECORDING_CONFLICTS != {}
  }

  function Years(h: Helpers, tokens: set<string>): set<string> {
    set t | t in tokens && |t| == 4 && h.isNumber(t)
  }

  /** Only one names a remaster, or both name different years. */
  predicate RemastersConflict(h: Helpers, a: string, b: string) {
    var left, right := h.versionTokens(a), h.versionTokens(b);
    if ("remaster" in left) != ("remaster" in right) then true
    else if "remaster" !in left then false
    else
      var leftYears, rightYears := Years(h, left), Years(h, right);
      leftYears != {} && rightYears != {} && leftYears !! rightYears
  }

  predicate MissingRemaster(h: Helpers, a: string, b: string) {
    var left, right := h.versionTokens(a), h.versionTokens(b);
    if (left != {}) == (right != {}) then false
    else
      var tokens := if left != {} then left else right;
      "remaster" in tokens && forall t | t in tokens :: t == "remaster" || h.isNumber(t)
  }

  lemma VersionComparisonsAreSymmetric(h: Helpers, a: string, b: string)
    ensures VersionsMatch(h, a, b) == VersionsMatch(h, b, a)
    ensures NamesOtherRecording(h, a, b) == NamesOtherRecording(h, b, a)
    ensures RemastersConflict(h, a, b) == RemastersConflict(h, b, a)
    ensures MissingRemaster(h, a, b) == MissingRemaster(h, b, a)
  {
    var left, right := h.versionTokens(a), h.versionTokens(b);
    assert left + right == right + left;
    assert Years(h, left) !! Years(h, right) <==> Years(h, right) !! Years(h, left);
  }

  // ----- artists

  predicate ArtistsSame(h: Helpers, a: Artist, b: Artist) {
    if SameItem(a.identity, b.identity) then true
    else
      var answer := FirstAnswer(h, a.externalIds, b.externalIds, [MbArtist, Discogs, Tadb]);
      if answer.Some? then answer.value
      else if a.artistType.Some? && b.artistType.Some? && a.artistType != b.artistType then false
      else StringsMatch(h, a.name, b.name)
  }

  lemma ArtistsSameIsSymmetric(h: Helpers, a: Artist, b: Artist)
    ensures ArtistsSame(h, a, b) == ArtistsSame(h, b, a)
  {
    SameItemIsSymmetric(a.identity, b.identity);
    FirstAnswerIsSymmetric(h, a.externalIds, b.externalIds, [MbArtist, Discogs, Tadb]);
    hide SameItem, FirstAnswer;
  }

  /** How many of the first `n` others are the same artist. */
  function Matches(h: Helpers, artist: Artist, others: seq<Artist>, n: nat): nat
    requires n <= |others|
  {
    if n == 0 then 0
    else Matches(h, artist, others, n - 1) + if ArtistsSame(h, artist, others[n - 1]) then 1 else 0
  }

  /** How many pairs of the first `m` and the first `n` are the same. */
  function PairMatches(h: Helpers, a: seq<Artist>, m: nat, b: seq<Artist>, n: nat): nat
    requires m <= |a| && n <= |b|
  {
    if m == 0 then 0 else PairMatches(h, a, m - 1, b, n) + Matches(h, a[m - 1], b, n)
  }

  predicate AnySame(h: Helpers, a: seq<Artist>, b: seq<Artist>) {
    exists i, j | 0 <= i < |a| && 0 <= j < |b| :: ArtistsSame(h, a[i], b[j])
  }

  predicate ArtistListsMatch(h: Helpers, a: seq<Artist>, b: seq<Artist>, anyMatch: bool) {
    && |a| > 0 && |b| > 0
    && (|| ArtistsSame(h, a[0], b[0])
        || if anyMatch then AnySame(h, a, b) else |a| == |b| == PairMatches(h, a, |a|, b, |b|))
  }

  /** One more on the right adds what it matches on the left. */
  lemma {:induction false} MatchesTransposed(h: Helpers, a: seq<Artist>, m: nat, b: seq<Artist>, n: nat)
    requires m <= |a| && n < |b|
    ensures PairMatches(h, a, m, b, n + 1) == PairMatches(h, a, m, b, n) + Matches(h, b[n], a, m)
  {
    hide ArtistsSame;
    if m > 0 {
      MatchesTransposed(h, a, m - 1, b, n);
      ArtistsSameIsSymmetric(h, a[m - 1], b[n]);
    }
  }

  lemma {:induction false} NoMatches(h: Helpers, a: seq<Artist>, m: nat, b: seq<Artist>)
    requires m <= |a|
    ensures PairMatches(h, a, m, b, 0) == 0
  {
    if m > 0 {
      NoMatches(h, a, m - 1, b);
    }
  }

  lemma {:induction false} PairMatchesIsSymmetric(h: Helpers, a: seq<Artist>, m: nat, b: seq<Artist>, n: nat)
    requires m <= |a| && n <= |b|
    ensures PairMatches(h, a, m, b, n) == PairMatches(h, b, n, a, m)
  {
    hide Matches;
    if n == 0 {
      NoMatches(h, a, m, b);
    } else {
      PairMatchesIsSymmetric(h, a, m, b, n - 1);
      MatchesTransposed(h, a, m, b, n - 1);
    }
  }

  lemma ArtistListsMatchIsSymmetric(h: Helpers, a: seq<Artist>, b: seq<Artist>, anyMatch: bool)
    ensures ArtistListsMatch(h, a, b, anyMatch) == ArtistListsMatch(h, b, a, anyMatch)
  {
    PairMatchesIsSymmetric(h, a, |a|, b, |b|);
    forall x, y ensures ArtistsSame(h, x, y) == ArtistsSame(h, y, x) {
      ArtistsSameIsSymmetric(h, x, y);
    }
    hide ArtistsSame, PairMatches;
  }

  lemma MatchesStart(h: Helpers, a: seq<Artist>, b: seq<Artist>)
    ensures PairMatches(h, a, 0, b, |b|) == 0
    ensures forall artist :: Matches(h, artist, b, 0) == 0
  {
  }

  lemma MatchesStep(h: Helpers, artist: Artist, others: seq<Artist>, j: nat)
    requires j < |others|
    ensures Matches(h, artist, others, j + 1) ==
            Matches(h, artist, others, j) + if ArtistsSame(h, artist, others[j]) then 1 else 0
  {
  }

  lemma PairMatchesStep(h: Helpers, a: seq<Artist>, i: nat, b: seq<Artist>)
    requires i < |a|
    ensures PairMatches(h, a, i + 1, b, |b|) == PairMatches(h, a, i, b, |b|) + Matches(h, a[i], b, |b|)
  {
  }

  lemma {:induction false} MatchIsCounted(h: Helpers, artist: Artist, others: seq<Artist>, n: nat, j: nat)
    requires j < n <= |others| && ArtistsSame(h, artist, others[j])
    ensures Matches(h, artist, others, n) > 0
  {
    hide ArtistsSame;
    if j < n - 1 {
      MatchIsCounted(h, artist, others, n - 1, j);
    }
  }

  lemma {:induction false} PairIsCounted(h: Helpers, a: seq<Artist>, m: nat, b: seq<Artist>, n: nat, i: nat, j: nat)
    requires i < m <= |a| && j < n <= |b|
    ensures ArtistsSame(h, a[i], b[j]) ==> PairMatches(h, a, m, b, n) > 0
  {
    hide ArtistsSame;
    if i < m - 1 {
      PairIsCounted(h, a, m - 1, b, n, i, j);
    } else if ArtistsSame(h, a[i], b[j]) {
      MatchIsCounted(h, a[i], b, n, j);
    }
  }

  lemma IsAnySame(h: Helpers, a: seq<Artist>, i: nat, b: seq<Artist>, j: nat)
    requires i < |a| && j < |b| && ArtistsSame(h, a[i], b[j])
    ensures AnySame(h, a, b)
  {
    hide ArtistsSame;
  }

  lemma NoneIsSame(h: Helpers, a: seq<Artist>, b: seq<Artist>)
    ensures PairMatches(h, a, |a|, b, |b|) == 0 ==> !AnySame(h, a, b)
  {
    hide ArtistsSame;
    forall i, j | 0 <= i < |a| && 0 <= j < |b| && ArtistsSame(h, a[i], b[j])
      ensures PairMatches(h, a, |a|, b, |b|) > 0
    {
      PairIsCounted(h, a, |a|, b, |b|, i, j);
    }
  }

  method CompareArtists(h: Helpers, base: seq<Artist>, compare: seq<Artist>, anyMatch: bool) returns (r: bool)
    ensures r == ArtistListsMatch(h, base, compare, anyMatch)
  {
    hide ArtistsSame, Matches, PairMatches, AnySame;
    if |base| == 0 || |compare| == 0 {
      return false;
    }
    if ArtistsSame(h, base[0], compare[0]) {
      return true;
    }
    MatchesStart(h, base, compare);
    var matches := 0;
    for i := 0 to |base|
      invariant matches == PairMatches(h, base, i, compare, |compare|)
      invariant anyMatch ==> matches == 0
    {
      ghost var before := matches;
      for j := 0 to |compare|
        invariant matches == before + Matches(h, base[i], compare, j)
        invariant anyMatch ==> matches == 0
      {
        if ArtistsSame(h, base[i], compare[j]) {
          if anyMatch {
            IsAnySame(h, base, i, compare, j);
            return true;
          }
          matches := matches + 1;
        }
        MatchesStep(h, base[i], compare, j);
      }
      PairMatchesStep(h, base, i, compare);
    }
    NoneIsSame(h, base, compare);
    return |base| == |compare| == matches;
  }

  lemma {:induction false} PairIsFound(h: Helpers, a: seq<Artist>, m: nat, b: seq<Artist>, n: nat)
    requires m <= |a| && n <= |b| && PairMatches(h, a, m, b, n) > 0
    ensures AnySame(h, a, b)
  {
    hide ArtistsSame, AnySame, Matches;
    if Matches(h, a[m - 1], b, n) > 0 {
      MatchIsFound(h, a, m - 1, b, n);
    } else {
      PairIsFound(h, a, m - 1, b, n);
    }
  }

  lemma {:induction false} MatchIsFound(h: Helpers, a: seq<Artist>, i: nat, b: seq<Artist>, n: nat)
    requires i < |a| && n <= |b| && Matches(h, a[i], b, n) > 0
    ensures AnySame(h, a, b)
  {
    hide ArtistsSame, AnySame;
    if ArtistsSame(h, a[i], b[n - 1]) {
      IsAnySame(h, a, i, b, n - 1);
    } else {
      MatchIsFound(h, a, i, b, n - 1);
    }
  }

  /** Lists that match as a whole share an artist. */
  lemma StrictListsMatch(h: Helpers, a: seq<Artist>, b: seq<Artist>)
    requires ArtistListsMatch(h, a, b, false)
    ensures ArtistListsMatch(h, a, b, true)
  {
    hide ArtistsSame, AnySame, PairMatches;
    if !ArtistsSame(h, a[0], b[0]) {
      PairIsFound(h, a, |a|, b, |b|);
    }
  }
}
