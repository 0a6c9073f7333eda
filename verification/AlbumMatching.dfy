/** `compare_album_evidence` of `compare.py`, with and without tracklists. */
module AlbumMatching {
  import opened Wrappers
  import opened MatchItems
  import opened AlbumEvidence

  /** Strict matching asserts that both items are full albums. */
  datatype MatchError = NotAnAlbum

  const ALBUM_IDS: seq<IdType> := [MbAlbum, Discogs, Tadb]

  /** Unique identifiers of the release decide on their own. */
  function ExternalIdEvidence(h: Helpers, a: Album, b: Album): Option<Evidence> {
    match FirstAnswer(h, a.externalIds, b.externalIds, ALBUM_IDS)
    case None => None
    case Some(same) => Some(if same then Match else NoMatch)
  }

  function VersionEvidence(h: Helpers, a: string, b: string): Evidence {
    var left, right := h.versionTokens(a), h.versionTokens(b);
    if left == right then Match
    else if NamesOtherRecording(h, a, b) then NoMatch
    else if h.keepRemastersApart && RemastersConflict(h, a, b) then NoMatch
    else if left == {} || right == {} then Insufficient
    else if left < right || right < left then Insufficient
    else NoMatch
  }

  /** A common barcode or ASIN: the same product, maybe another pressing. */
  predicate SameProduct(h: Helpers, a: Album, b: Album) {
    || CompareExternalIds(h, a.externalIds, b.externalIds, Asin) == Some(true)
    || CompareExternalIds(h, a.externalIds, b.externalIds, Barcode) == Some(true)
  }

  function Finalize(h: Helpers, ambiguous: bool, ta: Tracklist, tb: Tracklist): Evidence {
    var fingerprint := Fingerprint(h, ta, tb);
    if fingerprint == NoMatch then NoMatch
    else if !ambiguous then Match
    else fingerprint
  }

  predicate ExplicitConflict(a: Option<bool>, b: Option<bool>) {
    a.Some? && b.Some? && a != b
  }

  function MetadataEvidence(h: Helpers, a: Album, b: Album, strict: bool, ta: Tracklist, tb: Tracklist)
    : Result<Evidence, MatchError>
  {
    var product := SameProduct(h, a, b);
    var version := VersionEvidence(h, a.version, b.version);
    if version == NoMatch then Success(NoMatch)
    else if !AlbumNamesMatch(h, a.name, b.name) then Success(NoMatch)
    else
      var ambiguous := version == Insufficient && !product;
      if a.details.None? || b.details.None? then
        if strict then Failure(NotAnAlbum) else Success(Finalize(h, ambiguous, ta, tb))
      else
        var l, r := a.details.value, b.details.value;
        var drifted := l.year != 0 && r.year != 0 && l.year != r.year && !product;
        if ExplicitConflict(l.isExplicit, r.isExplicit) then Success(NoMatch)
        else if !ArtistListsMatch(h, l.artists, r.artists, !strict || product) then Success(NoMatch)
        else Success(Finalize(h, ambiguous || drifted, ta, tb))
  }

  /** What identity and unique identifiers say, if anything. */
  function IdentityEvidence(h: Helpers, a: Album, b: Album): Option<Evidence> {
    if SameItem(a.identity, b.identity) then Some(Match) else ExternalIdEvidence(h, a, b)
  }

  function CompareAlbumEvidence(h: Helpers, a: Album, b: Album, strict: bool, ta: Tracklist, tb: Tracklist)
    : Result<Evidence, MatchError>
  {
    var identity := IdentityEvidence(h, a, b);
    if identity.Some? then Success(identity.value) else MetadataEvidence(h, a, b, strict, ta, tb)
  }

  // ----- what the evidence means

  /** Equal wording matches; a part of the other's wording, be it nothing, leaves the edition open. */
  lemma VersionEvidenceMeaning(h: Helpers, a: string, b: string)
    ensures
      var left, right := h.versionTokens(a), h.versionTokens(b);
      var apart := NamesOtherRecording(h, a, b) || (h.keepRemastersApart && RemastersConflict(h, a, b));
      && (VersionEvidence(h, a, b) == Match <==> left == right)
      && (VersionEvidence(h, a, b) == Insufficient <==> !apart && (left < right || right < left))
  {
    hide NamesOtherRecording, RemastersConflict;
    var left, right := h.versionTokens(a), h.versionTokens(b);
    assert left == {} && left != right ==> left < right;
    assert right == {} && left != right ==> right < left;
  }

  predicate YearsDiffer(a: AlbumDetails, b: AlbumDetails) {
    a.year != 0 && b.year != 0 && a.year != b.year
  }

  /** Two full albums: what the metadata refute, and what they confirm without tracklists. */
  lemma MetadataMeaning(h: Helpers, a: Album, b: Album, strict: bool)
    requires a.details.Some? && b.details.Some?
    ensures
      var l, r, product := a.details.value, b.details.value, SameProduct(h, a, b);
      var version := VersionEvidence(h, a.version, b.version);
      var evidence := MetadataEvidence(h, a, b, strict, None, None);
      && evidence.Success?
      && (evidence.value == NoMatch <==>
            || version == NoMatch
            || !AlbumNamesMatch(h, a.name, b.name)
            || ExplicitConflict(l.isExplicit, r.isExplicit)
            || !ArtistListsMatch(h, l.artists, r.artists, !strict || product))
      && (evidence.value != NoMatch ==>
            (evidence.value == Match <==> product || (version == Match && !YearsDiffer(l, r))))
  {
    hide SameProduct, VersionEvidence, ArtistListsMatch, AlbumNamesMatch, SeqFingerprint;
  }

  // ----- the order of the two albums does not matter

  lemma VersionEvidenceIsSymmetric(h: Helpers, a: string, b: string)
    ensures VersionEvidence(h, a, b) == VersionEvidence(h, b, a)
  {
    hide NamesOtherRecording, RemastersConflict;
    VersionComparisonsAreSymmetric(h, a, b);
  }

  lemma ExternalIdEvidenceIsSymmetric(h: Helpers, a: Album, b: Album)
    ensures ExternalIdEvidence(h, a, b) == ExternalIdEvidence(h, b, a)
    ensures SameProduct(h, a, b) == SameProduct(h, b, a)
  {
    hide FirstAnswer, CompareExternalIds;
    FirstAnswerIsSymmetric(h, a.externalIds, b.externalIds, ALBUM_IDS);
    CompareExternalIdsIsSymmetric(h, a.externalIds, b.externalIds, Asin);
    CompareExternalIdsIsSymmetric(h, a.externalIds, b.externalIds, MatchItems.Barcode);
  }

  lemma MetadataEvidenceIsSymmetric(h: Helpers, a: Album, b: Album, strict: bool, ta: Tracklist, tb: Tracklist)
    ensures MetadataEvidence(h, a, b, strict, ta, tb) == MetadataEvidence(h, b, a, strict, tb, ta)
  {
    hide SameProduct, VersionEvidence, ArtistListsMatch, Fingerprint, AlbumNamesMatch, ExternalIdEvidence;
    ExternalIdEvidenceIsSymmetric(h, a, b);
    VersionEvidenceIsSymmetric(h, a.version, b.version);
    AlbumNamesMatchIsSymmetric(h, a.name, b.name);
    FingerprintIsSymmetric(h, ta, tb);
    if a.details.Some? && b.details.Some? {
      ArtistListsMatchIsSymmetric(h, a.details.value.artists, b.details.value.artists, !strict || SameProduct(h, a, b));
    }
  }

  /** Exchanging the albums, along with their tracklists, changes nothing. */
  lemma AlbumEvidenceIsSymmetric(h: Helpers, a: Album, b: Album, strict: bool, ta: Tracklist, tb: Tracklist)
    ensures CompareAlbumEvidence(h, a, b, strict, ta, tb) == CompareAlbumEvidence(h, b, a, strict, tb, ta)
  {
    hide SameItem, ExternalIdEvidence, MetadataEvidence;
    SameItemIsSymmetric(a.identity, b.identity);
    ExternalIdEvidenceIsSymmetric(h, a, b);
    MetadataEvidenceIsSymmetric(h, a, b, strict, ta, tb);
  }

  // ----- what tracklists change

  /**
   Tracklists settle what is insufficient without them, and may refute a match of the metadata. They
   never rescue or weaken another verdict, and have no say where identity decides.
   */
  lemma TracklistsResolve(h: Helpers, a: Album, b: Album, strict: bool, ta: Tracklist, tb: Tracklist)
    ensures
      var before := CompareAlbumEvidence(h, a, b, strict, None, None);
      var after := CompareAlbumEvidence(h, a, b, strict, ta, tb);
      && (before.Failure? || before == Success(NoMatch) ==> after == before)
      && (before == Success(Insufficient) ==> after == Success(Fingerprint(h, ta, tb)))
      && (before == Success(Match) ==>
            if IdentityEvidence(h, a, b) == None && Fingerprint(h, ta, tb) == NoMatch then after == Success(NoMatch)
            else after == before)
  {
    hide SameProduct, VersionEvidence, ArtistListsMatch, SeqFingerprint, AlbumNamesMatch, SameItem, FirstAnswer;
  }

  /** Only strict matching of a reference without details can fail, and no tracklist has a part in it. */
  lemma FailsOnlyStrictly(h: Helpers, a: Album, b: Album, strict: bool, ta: Tracklist, tb: Tracklist)
    ensures CompareAlbumEvidence(h, a, b, strict, ta, tb).Failure? <==>
            && strict && (a.details.None? || b.details.None?)
            && IdentityEvidence(h, a, b) == None
            && VersionEvidence(h, a.version, b.version) != NoMatch && AlbumNamesMatch(h, a.name, b.name)
  {
    hide SameProduct, VersionEvidence, ArtistListsMatch, Fingerprint, AlbumNamesMatch, IdentityEvidence;
  }

  /** A looser match asks for less: what matches strictly, matches without. */
  lemma StrictMatchIsMatch(h: Helpers, a: Album, b: Album, ta: Tracklist, tb: Tracklist)
    requires CompareAlbumEvidence(h, a, b, true, ta, tb) == Success(Match)
    ensures CompareAlbumEvidence(h, a, b, false, ta, tb) == Success(Match)
  {
    hide SameProduct, VersionEvidence, ArtistListsMatch, Fingerprint, AlbumNamesMatch, IdentityEvidence;
    if a.details.Some? && b.details.Some? {
      var l, r := a.details.value.artists, b.details.value.artists;
      if ArtistListsMatch(h, l, r, false) { StrictListsMatch(h, l, r); }
    }
  }
}
