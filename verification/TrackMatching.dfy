/** `compare_track_evidence` of `compare.py` and the artist credits it compares. */
module TrackMatching {
  import opened Wrappers
  import opened MatchItems
  import Evidence = AlbumEvidence
  import Albums = AlbumMatching

  datatype Confidence = NoMatch | Loose | Likely | Exact

  const TRACK_DURATION_TOLERANCE := 3
  const LOOSE_DURATION_TOLERANCE := 5

  // ----- artist credits

  /** The artists named by one credit. */
  type Group = set<string>

  function Keys(h: Helpers, names: seq<string>): Group {
    set n | n in names && n != "" :: h.creditKey(n)
  }

  function CreditGroup(h: Helpers, name: string): Group {
    Keys(h, h.splitFeatured(name))
  }

  /** Split on commas only. */
  function ListGroup(h: Helpers, name: string): Group {
    Keys(h, h.splitList(name))
  }

  datatype Credits = Credits(groups: set<Group>, lists: map<Group, Group>)

  function NameGroups(h: Helpers, names: seq<string>): set<Group> {
    set n | n in names :: CreditGroup(h, n)
  }

  function Names(artists: seq<Artist>): seq<string> {
    seq(|artists|, i requires 0 <= i < |artists| => artists[i].name)
  }

  /** The last artist of a group determines its list. */
  function Lists(h: Helpers, names: seq<string>): map<Group, Group> {
    if names == [] then map[]
    else
      var last := names[|names| - 1];
      Lists(h, names[..|names| - 1])[CreditGroup(h, last) := ListGroup(h, last)]
  }

  function CreditsOf(h: Helpers, t: Track): Credits {
    Credits(NameGroups(h, Names(t.artists)) + NameGroups(h, h.featuredArtists(t.name)), Lists(h, Names(t.artists)))
  }

  lemma CreditsStart(h: Helpers)
    ensures NameGroups(h, []) == {} && Lists(h, []) == map[]
  {
  }

  lemma CreditsStep(h: Helpers, names: seq<string>, i: nat)
    requires i < |names|
    ensures NameGroups(h, names[..i + 1]) == NameGroups(h, names[..i]) + {CreditGroup(h, names[i])}
    ensures Lists(h, names[..i + 1]) == Lists(h, names[..i])[CreditGroup(h, names[i]) := ListGroup(h, names[i])]
  {
    hide CreditGroup, ListGroup;
    assert names[..i + 1] == names[..i] + [names[i]] && names[..i + 1][..i] == names[..i];
  }

  method TrackArtistCreditGroups(h: Helpers, t: Track) returns (r: Credits)
    ensures r == CreditsOf(h, t)
  {
    hide CreditGroup, ListGroup, NameGroups, Lists;
    CreditsStart(h);
    var groups: set<Group> := {};
    var lists: map<Group, Group> := map[];
    ghost var names := Names(t.artists);
    for i := 0 to |t.artists|
      invariant groups == NameGroups(h, names[..i]) && lists == Lists(h, names[..i])
    {
      var name := t.artists[i].name;
      CreditsStep(h, names, i);
      groups := groups + {CreditGroup(h, name)};
      lists := lists[CreditGroup(h, name) := ListGroup(h, name)];
    }
    assert names[..|t.artists|] == names;
    var featured := h.featuredArtists(t.name);
    for i := 0 to |featured|
      invariant groups == NameGroups(h, names) + NameGroups(h, featured[..i])
    {
      CreditsStep(h, featured, i);
      groups := groups + {CreditGroup(h, featured[i])};
    }
    assert featured[..|featured|] == featured;
    r := Credits(groups, lists);
  }

  /** Every source credit is a target credit, or a list of artists credited one by one. */
  predicate Covers(source: set<Group>, target: set<Group>, lists: map<Group, Group>) {
    var singles := set g, x | g in target && |g| == 1 && x in g :: x;
    forall g | g in source ::
      || g in target
      || (var list := if g in lists then lists[g] else g; |list| > 1 && list <= singles)
  }

  predicate IsCredited(h: Helpers, name: string, groups: set<Group>) {
    || (exists g | g in groups :: h.creditKey(name) in g)
    || (var own := CreditGroup(h, name);
        |own| > 1 && Covers({own}, groups, map[own := ListGroup(h, name)]))
  }

  predicate CreditsMatch(h: Helpers, a: Track, b: Track) {
    && |a.artists| > 0 && |b.artists| > 0
    && var l, r := CreditsOf(h, a), CreditsOf(h, b);
       && (Covers(l.groups, r.groups, l.lists) || Covers(r.groups, l.groups, r.lists))
       && IsCredited(h, a.artists[0].name, r.groups) && IsCredited(h, b.artists[0].name, l.groups)
  }

  // ----- the parts of the evidence

  function TrackVersion(h: Helpers, t: Track): string {
    h.versionOf(t.name, t.version)
  }

  function TrackExplicit(t: Track, album: Option<Album>): Option<bool> {
    if t.isExplicit.Some? then t.isExplicit
    else
      var full := if album.Some? then album else t.album;
      if full.Some? && full.value.details.Some? then full.value.details.value.isExplicit else None
  }

  function SlotIn(t: Track): (int, int) {
    Evidence.SlotOf(t)
  }

  predicate DurationsKnown(a: Track, b: Track) {
    a.duration > 0 && b.duration > 0
  }

  predicate DurationsMatch(a: Track, b: Track, tolerance: int) {
    DurationsKnown(a, b) && Evidence.DurationClose(a.duration, b.duration, tolerance)
  }

  predicate DurationsConflict(a: Track, b: Track, tolerance: int) {
    DurationsKnown(a, b) && !Evidence.DurationClose(a.duration, b.duration, tolerance)
  }

  predicate SamePosition(a: Track, b: Track) {
    if a.number != 0 && b.number != 0 then SlotIn(a) == SlotIn(b)
    else DurationsMatch(a, b, TRACK_DURATION_TOLERANCE)
  }

  predicate SameAlbum(h: Helpers, a: Album, b: Album) {
    if SameInstanceItem(a.identity, b.identity) then true
    else
      var ids := Albums.ExternalIdEvidence(h, a, b);
      if ids.Some? then ids.value == Evidence.Match
      else Albums.MetadataEvidence(h, a, b, false, None, None) == Success(Evidence.Match)
  }

  predicate BothFull(a: Option<Album>, b: Option<Album>) {
    a.Some? && b.Some? && a.value.details.Some? && b.value.details.Some?
  }

  predicate SameFullAlbum(h: Helpers, a: Option<Album>, b: Option<Album>) {
    BothFull(a, b) && SameAlbum(h, a.value, b.value)
  }

  predicate PositionsConflict(h: Helpers, a: Track, b: Track, x: Option<Album>, y: Option<Album>) {
    SameFullAlbum(h, x, y) && a.number != 0 && b.number != 0 && SlotIn(a) != SlotIn(b)
  }

  /** The two albums are one release, by their item or a unique identifier. */
  predicate SameRelease(h: Helpers, a: Option<Album>, b: Option<Album>) {
    a.Some? && b.Some? &&
    (|| SameInstanceItem(a.value.identity, b.value.identity)
     || exists t | t in Albums.ALBUM_IDS ::
          CompareExternalIds(h, a.value.externalIds, b.value.externalIds, t) == Some(true))
  }

  predicate YearsMatch(a: Option<Album>, b: Option<Album>) {
    BothFull(a, b) && a.value.details.value.year != 0 && a.value.details.value.year == b.value.details.value.year
  }

  predicate VersionsConflict(h: Helpers, a: string, b: string) {
    !VersionsMatch(h, a, b) && NamesOtherRecording(h, a, b)
  }

  function VersionOrAlbums(h: Helpers, t: Track, album: Option<Album>): string {
    var own := TrackVersion(h, t);
    if own != "" then own else if album.Some? then album.value.version else ""
  }

  predicate RemastersKeptApart(h: Helpers, a: Track, b: Track, x: Option<Album>, y: Option<Album>) {
    && h.keepRemastersApart
    && CompareExternalIds(h, a.externalIds, b.externalIds, MbTrack) != Some(true)
    && RemastersConflict(h, VersionOrAlbums(h, a, x), VersionOrAlbums(h, b, y))
  }

  predicate SharedIsrc(h: Helpers, a: Track, b: Track) {
    Evidence.TrackIsrcs(h, a) * Evidence.TrackIsrcs(h, b) != {}
  }

  function Given(album: Option<Album>, t: Track): Option<Album> {
    if album.Some? then album else t.album
  }

  // ----- the evidence

  function IdAnswer(h: Helpers, a: Track, b: Track, t: IdType): Option<bool> {
    CompareExternalIds(h, a.externalIds, b.externalIds, t)
  }

  predicate SameRecordingId(h: Helpers, a: Track, b: Track) {
    IdAnswer(h, a, b, MbRecording) == Some(true) || IdAnswer(h, a, b, Acoustid) == Some(true)
  }

  predicate OtherRecordingId(h: Helpers, a: Track, b: Track) {
    IdAnswer(h, a, b, MbRecording) == Some(false) || IdAnswer(h, a, b, Acoustid) == Some(false)
  }

  function TrackEvidence(
      h: Helpers, a: Track, b: Track, givenA: Option<Album>, givenB: Option<Album>, allowItemId: bool)
    : Confidence
  {
    var x, y := Given(givenA, a), Given(givenB, b);
    if allowItemId && SameInstanceItem(a.identity, b.identity) then Exact
    else if OtherRecordingId(h, a, b) then NoMatch
    else if IdAnswer(h, a, b, MbTrack) == Some(true) then Exact
    else DescribedEvidence(h, a, b, x, y)
  }

  /** Without a decisive identifier. */
  function DescribedEvidence(h: Helpers, a: Track, b: Track, x: Option<Album>, y: Option<Album>): Confidence {
    var va, vb := TrackVersion(h, a), TrackVersion(h, b);
    var titles, artists := TrackTitlesMatch(h, a.name, b.name), CreditsMatch(h, a, b);
    var versions := VersionsMatch(h, va, vb);
    if VersionsConflict(h, va, vb) || RemastersKeptApart(h, a, b, x, y) then NoMatch
    else if Albums.ExplicitConflict(TrackExplicit(a, x), TrackExplicit(b, y)) then NoMatch
    else if IdAnswer(h, a, b, MbTrack) != Some(false) && SameFullAlbum(h, x, y)
            && titles && artists && versions && SamePosition(a, b) then
      if SameRelease(h, x, y) then Exact else Likely
    else if SameRecordingId(h, a, b) then Likely
    else if SharedIsrc(h, a, b) && DurationsMatch(a, b, Evidence.ISRC_DURATION_TOLERANCE) then Likely
    else if PositionsConflict(h, a, b, x, y) then NoMatch
    else if !titles || !artists then NoMatch
    else if versions && DurationsMatch(a, b, TRACK_DURATION_TOLERANCE) then Likely
    else if MissingRemaster(h, va, vb) && YearsMatch(x, y) && DurationsMatch(a, b, TRACK_DURATION_TOLERANCE) then Likely
    else if DurationsMatch(a, b, LOOSE_DURATION_TOLERANCE) then Loose
    else if !DurationsConflict(a, b, LOOSE_DURATION_TOLERANCE) then Loose
    else NoMatch
  }

  // ----- what the confidence means

  function Level(c: Confidence): int {
    match c
    case NoMatch => 0
    case Loose => 1
    case Likely => 2
    case Exact => 3
  }

  /** The metadata name different recordings. */
  predicate DescribedApart(h: Helpers, a: Track, b: Track, x: Option<Album>, y: Option<Album>) {
    || VersionsConflict(h, TrackVersion(h, a), TrackVersion(h, b))
    || RemastersKeptApart(h, a, b, x, y)
    || Albums.ExplicitConflict(TrackExplicit(a, x), TrackExplicit(b, y))
  }

  predicate SameTitleAndArtists(h: Helpers, a: Track, b: Track) {
    TrackTitlesMatch(h, a.name, b.name) && CreditsMatch(h, a, b)
  }

  /** The same place on the same full album, with nothing to tell them apart. */
  predicate SamePlace(h: Helpers, a: Track, b: Track, x: Option<Album>, y: Option<Album>) {
    && IdAnswer(h, a, b, MbTrack) != Some(false) && SameFullAlbum(h, x, y) && SamePosition(a, b)
    && SameTitleAndArtists(h, a, b) && VersionsMatch(h, TrackVersion(h, a), TrackVersion(h, b))
  }

  predicate SameRecording(h: Helpers, a: Track, b: Track) {
    SameRecordingId(h, a, b) || (SharedIsrc(h, a, b) && DurationsMatch(a, b, 8))
  }

  /** Which descriptions reach each level of confidence. */
  lemma DescribedEvidenceMeaning(h: Helpers, a: Track, b: Track, x: Option<Album>, y: Option<Album>)
    ensures
      var level := Level(DescribedEvidence(h, a, b, x, y));
      var va, vb := TrackVersion(h, a), TrackVersion(h, b);
      var elsewhere := SameTitleAndArtists(h, a, b) && !PositionsConflict(h, a, b, x, y);
      var apart, certain := DescribedApart(h, a, b, x, y), SamePlace(h, a, b, x, y) || SameRecording(h, a, b);
      var alike := VersionsMatch(h, va, vb) || (MissingRemaster(h, va, vb) && YearsMatch(x, y));
      && (level == 3 <==> !apart && SamePlace(h, a, b, x, y) && SameRelease(h, x, y))
      && (level >= 2 <==> !apart && (certain || (elsewhere && alike && DurationsMatch(a, b, 3))))
      && (level >= 1 <==> !apart && (certain || (elsewhere && !DurationsConflict(a, b, 5))))
  {
    hide VersionsMatch, VersionsConflict, MissingRemaster, RemastersKeptApart, TrackExplicit, SameFullAlbum,
         SameRelease, YearsMatch, SamePosition, PositionsConflict, IdAnswer, SameRecordingId, SharedIsrc, CreditsMatch,
         TrackTitlesMatch, TrackVersion;
  }

  datatype MatchPolicy = ExactOnly | SameRecordingOnly | BestEffort

  function MinimumConfidence(policy: MatchPolicy): Confidence {
    match policy
    case ExactOnly => Exact
    case SameRecordingOnly => Likely
    case BestEffort => Loose
  }

  predicate Accepts(policy: MatchPolicy, c: Confidence) {
    Level(c) >= Level(MinimumConfidence(policy))
  }

  /** Their release puts the tracks at one place. */
  predicate OnOneRelease(h: Helpers, a: Track, b: Track, x: Option<Album>, y: Option<Album>) {
    SamePlace(h, a, b, x, y) && SameRelease(h, x, y)
  }

  /** Title and artists agree, and no album tells the tracks apart. */
  predicate Alike(h: Helpers, a: Track, b: Track, x: Option<Album>, y: Option<Album>) {
    SameTitleAndArtists(h, a, b) && !PositionsConflict(h, a, b, x, y)
  }

  predicate SameEdition(h: Helpers, a: Track, b: Track, x: Option<Album>, y: Option<Album>) {
    var va, vb := TrackVersion(h, a), TrackVersion(h, b);
    VersionsMatch(h, va, vb) || (MissingRemaster(h, va, vb) && YearsMatch(x, y))
  }

  /** What each policy accepts, from the identifiers of the tracks down to their durations. */
  lemma TrackEvidenceMeaning(h: Helpers, a: Track, b: Track, x: Option<Album>, y: Option<Album>, allowItemId: bool)
    ensures
      var c, u, v := TrackEvidence(h, a, b, x, y, allowItemId), Given(x, a), Given(y, b);
      var same := allowItemId && SameInstanceItem(a.identity, b.identity);
      var apart := DescribedApart(h, a, b, u, v);
      var certain := SamePlace(h, a, b, u, v) || SameRecording(h, a, b);
      var alike := Alike(h, a, b, u, v);
      if same then Accepts(ExactOnly, c)
      else if OtherRecordingId(h, a, b) then !Accepts(BestEffort, c)
      else if IdAnswer(h, a, b, MbTrack) == Some(true) then Accepts(ExactOnly, c)
      else
        && (Accepts(ExactOnly, c) <==> !apart && OnOneRelease(h, a, b, u, v))
        && (Accepts(SameRecordingOnly, c) <==>
              !apart && (certain || (alike && SameEdition(h, a, b, u, v) && DurationsMatch(a, b, 3))))
        && (Accepts(BestEffort, c) <==> !apart && (certain || (alike && !DurationsConflict(a, b, 5))))
  {
    hide DescribedEvidence, SameInstanceItem, IdAnswer, OtherRecordingId, DescribedApart, SamePlace, SameRecording,
         SameRelease, SameTitleAndArtists, PositionsConflict, VersionsMatch, MissingRemaster, YearsMatch,
         DurationsMatch, DurationsConflict, TrackVersion;
    DescribedEvidenceMeaning(h, a, b, Given(x, a), Given(y, b));
  }

  /** An identifier settles the match. */
  predicate IdsDecide(h: Helpers, a: Track, b: Track, allowItemId: bool) {
    || (allowItemId && SameInstanceItem(a.identity, b.identity))
    || OtherRecordingId(h, a, b) || IdAnswer(h, a, b, MbTrack) == Some(true)
  }

  predicate SameIds(a: Track, c: Track) {
    a.identity == c.identity && a.externalIds == c.externalIds
  }

  /** Then nothing else the tracks say, nor any album they are given, can change the confidence. */
  lemma IdentifiersOverrideMetadata(h: Helpers, a: Track, b: Track, x: Option<Album>, y: Option<Album>,
                                    c: Track, d: Track, u: Option<Album>, v: Option<Album>, allowItemId: bool)
    requires IdsDecide(h, a, b, allowItemId) && SameIds(a, c) && SameIds(b, d)
    ensures TrackEvidence(h, a, b, x, y, allowItemId) == TrackEvidence(h, c, d, u, v, allowItemId)
    ensures TrackEvidence(h, a, b, x, y, allowItemId) in {NoMatch, Exact}
  {
    hide DescribedEvidence, SameInstanceItem, CompareExternalIds;
  }

  // ----- the order of the two tracks does not matter

  lemma CreditsMatchIsSymmetric(h: Helpers, a: Track, b: Track)
    ensures CreditsMatch(h, a, b) == CreditsMatch(h, b, a)
  {
    hide CreditsOf, Covers, IsCredited;
  }

  lemma SameAlbumIsSymmetric(h: Helpers, a: Album, b: Album)
    ensures SameAlbum(h, a, b) == SameAlbum(h, b, a)
  {
    hide SameInstanceItem, Albums.ExternalIdEvidence, Albums.MetadataEvidence;
    SameItemIsSymmetric(a.identity, b.identity);
    Albums.ExternalIdEvidenceIsSymmetric(h, a, b);
    Albums.MetadataEvidenceIsSymmetric(h, a, b, false, None, None);
  }

  lemma AlbumPartsAreSymmetric(h: Helpers, x: Option<Album>, y: Option<Album>)
    ensures SameFullAlbum(h, x, y) == SameFullAlbum(h, y, x)
    ensures SameRelease(h, x, y) == SameRelease(h, y, x)
    ensures YearsMatch(x, y) == YearsMatch(y, x)
  {
    hide SameAlbum, SameInstanceItem, CompareExternalIds;
    if x.Some? && y.Some? {
      SameAlbumIsSymmetric(h, x.value, y.value);
      SameItemIsSymmetric(x.value.identity, y.value.identity);
      forall t ensures CompareExternalIds(h, x.value.externalIds, y.value.externalIds, t) ==
                       CompareExternalIds(h, y.value.externalIds, x.value.externalIds, t)
      {
        CompareExternalIdsIsSymmetric(h, x.value.externalIds, y.value.externalIds, t);
      }
    }
  }

  lemma IdPartsAreSymmetric(h: Helpers, a: Track, b: Track)
    ensures IdAnswer(h, a, b, MbTrack) == IdAnswer(h, b, a, MbTrack)
    ensures SameRecordingId(h, a, b) == SameRecordingId(h, b, a)
    ensures OtherRecordingId(h, a, b) == OtherRecordingId(h, b, a)
    ensures SharedIsrc(h, a, b) == SharedIsrc(h, b, a)
  {
    hide CompareExternalIds, Evidence.TrackIsrcs;
    CompareExternalIdsIsSymmetric(h, a.externalIds, b.externalIds, MbTrack);
    CompareExternalIdsIsSymmetric(h, a.externalIds, b.externalIds, MbRecording);
    CompareExternalIdsIsSymmetric(h, a.externalIds, b.externalIds, Acoustid);
    var l, r := Evidence.TrackIsrcs(h, a), Evidence.TrackIsrcs(h, b);
    assert l * r == r * l;
  }

  lemma PositionPartsAreSymmetric(h: Helpers, a: Track, b: Track, x: Option<Album>, y: Option<Album>)
    ensures SamePosition(a, b) == SamePosition(b, a)
    ensures PositionsConflict(h, a, b, x, y) == PositionsConflict(h, b, a, y, x)
    ensures forall t :: DurationsMatch(a, b, t) == DurationsMatch(b, a, t)
    ensures DurationsConflict(a, b, LOOSE_DURATION_TOLERANCE) == DurationsConflict(b, a, LOOSE_DURATION_TOLERANCE)
  {
    hide SameFullAlbum;
    AlbumPartsAreSymmetric(h, x, y);
  }

  lemma VersionPartsAreSymmetric(h: Helpers, a: Track, b: Track, x: Option<Album>, y: Option<Album>)
    ensures
      var va, vb := TrackVersion(h, a), TrackVersion(h, b);
      && VersionsMatch(h, va, vb) == VersionsMatch(h, vb, va)
      && VersionsConflict(h, va, vb) == VersionsConflict(h, vb, va)
      && MissingRemaster(h, va, vb) == MissingRemaster(h, vb, va)
    ensures RemastersKeptApart(h, a, b, x, y) == RemastersKeptApart(h, b, a, y, x)
  {
    hide VersionsMatch, NamesOtherRecording, MissingRemaster, RemastersConflict, CompareExternalIds, VersionOrAlbums;
    VersionComparisonsAreSymmetric(h, TrackVersion(h, a), TrackVersion(h, b));
    VersionComparisonsAreSymmetric(h, VersionOrAlbums(h, a, x), VersionOrAlbums(h, b, y));
    CompareExternalIdsIsSymmetric(h, a.externalIds, b.externalIds, MbTrack);
  }

  lemma DescribedEvidenceIsSymmetric(h: Helpers, a: Track, b: Track, x: Option<Album>, y: Option<Album>)
    ensures DescribedEvidence(h, a, b, x, y) == DescribedEvidence(h, b, a, y, x)
  {
    hide VersionsMatch, VersionsConflict, MissingRemaster, RemastersKeptApart, TrackExplicit, SameFullAlbum,
         SameRelease, YearsMatch, SamePosition, PositionsConflict, DurationsMatch, DurationsConflict, IdAnswer,
         SameRecordingId, SharedIsrc, CreditsMatch, TrackTitlesMatch, TrackVersion;
    VersionPartsAreSymmetric(h, a, b, x, y);
    NamesMatchIsSymmetric(h, a.name, b.name);
    CreditsMatchIsSymmetric(h, a, b);
    AlbumPartsAreSymmetric(h, x, y);
    IdPartsAreSymmetric(h, a, b);
    PositionPartsAreSymmetric(h, a, b, x, y);
  }

  /** Exchanging the tracks, along with their albums, never changes the confidence. */
  lemma TrackEvidenceIsSymmetric(h: Helpers, a: Track, b: Track, x: Option<Album>, y: Option<Album>, allowItemId: bool)
    ensures TrackEvidence(h, a, b, x, y, allowItemId) == TrackEvidence(h, b, a, y, x, allowItemId)
  {
    hide DescribedEvidence, SameInstanceItem, IdAnswer, OtherRecordingId;
    SameItemIsSymmetric(a.identity, b.identity);
    IdPartsAreSymmetric(h, a, b);
    DescribedEvidenceIsSymmetric(h, a, b, Given(x, a), Given(y, b));
  }

  /** Metadata alone never makes two tracks exactly the same: it takes an identifier of track or release. */
  lemma ExactNeedsRelease(h: Helpers, a: Track, b: Track, x: Option<Album>, y: Option<Album>, allowItemId: bool)
    requires TrackEvidence(h, a, b, x, y, allowItemId) == Exact
    ensures
      || (allowItemId && SameInstanceItem(a.identity, b.identity))
      || (!OtherRecordingId(h, a, b) && IdAnswer(h, a, b, MbTrack) == Some(true))
      || (!OtherRecordingId(h, a, b) && SameRelease(h, Given(x, a), Given(y, b)) && SamePosition(a, b))
  {
    hide VersionsMatch, VersionsConflict, MissingRemaster, RemastersKeptApart, TrackExplicit, SameFullAlbum,
         SameRelease, YearsMatch, SamePosition, PositionsConflict, DurationsMatch, DurationsConflict, IdAnswer,
         SameRecordingId, OtherRecordingId, SharedIsrc, CreditsMatch, TrackTitlesMatch, TrackVersion, SameInstanceItem;
  }

  // ----- the order of the artists

  /** Artists of one group have one list. */
  predicate ListsAgree(h: Helpers, names: seq<string>) {
    forall i, j | 0 <= i < |names| && 0 <= j < |names| && CreditGroup(h, names[i]) == CreditGroup(h, names[j]) ::
      ListGroup(h, names[i]) == ListGroup(h, names[j])
  }

  /** Every list belongs to an artist of its group. */
  lemma {:induction false} ListsHaveArtists(h: Helpers, names: seq<string>, g: Group)
    ensures g in Lists(h, names) <==> exists i | 0 <= i < |names| :: CreditGroup(h, names[i]) == g
    ensures g in Lists(h, names) ==>
      exists i | 0 <= i < |names| :: CreditGroup(h, names[i]) == g && ListGroup(h, names[i]) == Lists(h, names)[g]
  {
    hide CreditGroup, ListGroup;
    if names != [] {
      ListsHaveArtists(h, names[..|names| - 1], g);
    }
  }

  lemma SameNames(s: seq<string>, t: seq<string>)
    requires multiset(s) == multiset(t)
    ensures forall x :: x in s <==> x in t
  {
    assert forall x :: x in s <==> x in multiset(s);
  }

  lemma AgreedListsAreUnordered(h: Helpers, names: seq<string>, other: seq<string>)
    requires multiset(names) == multiset(other) && ListsAgree(h, names)
    ensures Lists(h, names) == Lists(h, other)
  {
    hide Lists, CreditGroup, ListGroup;
    SameNames(names, other);
    assert forall i | 0 <= i < |other| :: other[i] in names;
    assert forall i | 0 <= i < |names| :: names[i] in other;
    forall g ensures (g in Lists(h, names) <==> g in Lists(h, other)) &&
                     (g in Lists(h, names) ==> Lists(h, names)[g] == Lists(h, other)[g])
    {
      ListsHaveArtists(h, names, g);
      ListsHaveArtists(h, other, g);
    }
  }

  function ToEnd(names: seq<string>, i: nat): seq<string>
    requires i < |names|
  {
    names[..i] + names[i + 1..] + [names[i]]
  }

  lemma ToEndReorders(h: Helpers, names: seq<string>, i: nat)
    requires i < |names|
    ensures multiset(ToEnd(names, i)) == multiset(names)
    ensures var g := CreditGroup(h, names[i]);
            g in Lists(h, ToEnd(names, i)) && Lists(h, ToEnd(names, i))[g] == ListGroup(h, names[i])
  {
    hide CreditGroup, ListGroup;
    assert names == names[..i] + [names[i]] + names[i + 1..];
  }

  /** The lists are the same in every order of the artists exactly if artists of one group agree. */
  lemma ListsAreUnordered(h: Helpers, names: seq<string>)
    ensures (forall other | multiset(other) == multiset(names) :: Lists(h, other) == Lists(h, names))
            <==> ListsAgree(h, names)
  {
    hide Lists, CreditGroup, ListGroup, ToEnd;
    if ListsAgree(h, names) {
      forall other | multiset(other) == multiset(names) ensures Lists(h, other) == Lists(h, names) {
        AgreedListsAreUnordered(h, names, other);
      }
    } else {
      var i, j :| 0 <= i < |names| && 0 <= j < |names| && CreditGroup(h, names[i]) == CreditGroup(h, names[j])
                  && ListGroup(h, names[i]) != ListGroup(h, names[j]);
      ToEndReorders(h, names, i);
      ToEndReorders(h, names, j);
    }
  }

  lemma RemoveOne<T>(s: seq<T>, k: nat)
    requires k < |s|
    ensures multiset(s) == multiset(s[..k] + s[k + 1..]) + multiset{s[k]}
  {
    assert s == s[..k] + [s[k]] + s[k + 1..];
  }

  lemma RemoveFirst<T>(s: seq<T>, t: seq<T>) returns (k: nat)
    requires |s| > 0 && multiset(s) == multiset(t)
    ensures k < |t| && t[k] == s[0] && multiset(s[1..]) == multiset(t[..k] + t[k + 1..])
  {
    assert s[0] in multiset(t);
    k :| k < |t| && t[k] == s[0];
    RemoveOne(t, k);
    assert s == [s[0]] + s[1..];
    assert multiset(s[1..]) == multiset(s) - multiset{s[0]};
    assert multiset(t[..k] + t[k + 1..]) == multiset(t) - multiset{s[0]};
  }

  lemma NamesRemoveOne(artists: seq<Artist>, k: nat)
    requires k < |artists|
    ensures multiset(Names(artists)) == multiset(Names(artists[..k] + artists[k + 1..])) + multiset{artists[k].name}
  {
    RemoveOne(Names(artists), k);
    assert Names(artists)[..k] + Names(artists)[k + 1..] == Names(artists[..k] + artists[k + 1..]);
  }

  lemma NamesFirst(artists: seq<Artist>)
    requires |artists| > 0
    ensures multiset(Names(artists)) == multiset(Names(artists[1..])) + multiset{artists[0].name}
  {
    var first, rest := artists[0].name, Names(artists[1..]);
    assert Names(artists) == [first] + rest;
    assert multiset([first] + rest) == multiset{first} + multiset(rest);
  }

  lemma {:induction false} NamesOfReordered(artists: seq<Artist>, other: seq<Artist>)
    requires multiset(artists) == multiset(other)
    ensures multiset(Names(artists)) == multiset(Names(other))
    decreases |artists|
  {
    hide Names;
    if |artists| == 0 {
      assert |multiset(other)| == 0;
      assert artists == other;
    } else {
      var k := RemoveFirst(artists, other);
      NamesFirst(artists);
      NamesRemoveOne(other, k);
      NamesOfReordered(artists[1..], other[..k] + other[k + 1..]);
    }
  }

  lemma CreditsOfReordered(h: Helpers, a: Track, artists: seq<Artist>)
    requires multiset(artists) == multiset(a.artists) && ListsAgree(h, Names(a.artists))
    ensures CreditsOf(h, a.(artists := artists)) == CreditsOf(h, a)
  {
    hide Names, Lists, ListsAgree, CreditGroup, ListGroup;
    NamesOfReordered(a.artists, artists);
    AgreedListsAreUnordered(h, Names(a.artists), Names(artists));
    SameNames(Names(a.artists), Names(artists));
  }

  lemma CreditsMatchReordered(h: Helpers, a: Track, artists: seq<Artist>, b: Track)
    requires multiset(artists) == multiset(a.artists) && ListsAgree(h, Names(a.artists))
    requires |artists| == |a.artists| && (|artists| > 0 ==> artists[0].name == a.artists[0].name)
    ensures CreditsMatch(h, a.(artists := artists), b) == CreditsMatch(h, a, b)
  {
    hide Names, ListsAgree, CreditsOf, Covers, IsCredited;
    CreditsOfReordered(h, a, artists);
  }

  lemma DescribedEvidenceReordered(
      h: Helpers, a: Track, artists: seq<Artist>, b: Track, x: Option<Album>, y: Option<Album>)
    requires CreditsMatch(h, a.(artists := artists), b) == CreditsMatch(h, a, b)
    ensures DescribedEvidence(h, a.(artists := artists), b, x, y) == DescribedEvidence(h, a, b, x, y)
  {
    hide CreditsMatch, SameFullAlbum, SameRelease, YearsMatch, VersionsMatch, VersionsConflict, MissingRemaster,
         RemastersConflict, CompareExternalIds, TrackTitlesMatch, IdsOfType;
  }

  /** Then only the first artist has a place of its own: the others may come in any order. */
  lemma RestOfArtistsIsUnordered(
      h: Helpers, a: Track, artists: seq<Artist>, b: Track, x: Option<Album>, y: Option<Album>, allowItemId: bool)
    requires multiset(artists) == multiset(a.artists) && ListsAgree(h, Names(a.artists))
    requires |artists| == |a.artists| && (|artists| > 0 ==> artists[0].name == a.artists[0].name)
    ensures TrackEvidence(h, a.(artists := artists), b, x, y, allowItemId) == TrackEvidence(h, a, b, x, y, allowItemId)
  {
    hide DescribedEvidence, CreditsMatch, SameInstanceItem, CompareExternalIds, ListsAgree, Names;
    CreditsMatchReordered(h, a, artists, b);
    DescribedEvidenceReordered(h, a, artists, b, Given(x, a), Given(y, b));
  }
}
