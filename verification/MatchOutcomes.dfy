/**
 What `compare.py` makes of two albums and of two tracks, said in their own fields: which
 identifiers settle the matter, and which words, flags, places and credits tell items apart.
 */
module MatchOutcomes {
  import opened Wrappers
  import opened MatchItems
  import opened MatchRules
  import Evidence = AlbumEvidence
  import Albums = AlbumMatching
  import Tracks = TrackMatching

  // ----- albums

  /** The first release identifier that has something to say decides, whatever else the albums say. */
  lemma ReleaseIdDecides(h: Helpers, a: Album, b: Album, strict: bool,
                         ta: Evidence.Tracklist, tb: Evidence.Tracklist, i: nat)
    requires !SameItem(a.identity, b.identity)
    requires i < 3 && Undecided(h, a.externalIds, b.externalIds, [MbAlbum, Discogs, Tadb][..i])
    ensures ShareId(h, a.externalIds, b.externalIds, [MbAlbum, Discogs, Tadb][i]) ==>
              Albums.CompareAlbumEvidence(h, a, b, strict, ta, tb) == Success(Evidence.Match)
    ensures DifferInId(h, a.externalIds, b.externalIds, [MbAlbum, Discogs, Tadb][i]) ==>
              Albums.CompareAlbumEvidence(h, a, b, strict, ta, tb) == Success(Evidence.NoMatch)
  {
    hide SameItem, Undecided, ShareId, DifferInId, FirstAnswer, Albums.MetadataEvidence;
    FirstAnswerInWords(h, a.externalIds, b.externalIds, [MbAlbum, Discogs, Tadb], i);
  }

  /** Neither the items nor their release identifiers decide. */
  ghost predicate OpenAlbums(h: Helpers, a: Album, b: Album) {
    !SameItem(a.identity, b.identity) && Undecided(h, a.externalIds, b.externalIds, [MbAlbum, Discogs, Tadb])
  }

  lemma IdentityIsOpen(h: Helpers, a: Album, b: Album)
    requires OpenAlbums(h, a, b)
    ensures Albums.IdentityEvidence(h, a, b) == None
  {
    hide SameItem, Undecided, FirstAnswer;
    var types: seq<IdType> := [MbAlbum, Discogs, Tadb];
    assert types[..3] == types;
    FirstAnswerInWords(h, a.externalIds, b.externalIds, types, 3);
  }

  /** The words of the versions tell the recordings apart. */
  ghost predicate VersionsApart(h: Helpers, left: set<string>, right: set<string>) {
    && left != right
    && (|| (exists w :: RecordingWord(w) && (w in left || w in right))
        || (h.keepRemastersApart && RemastersApart(h, left, right))
        || !(left <= right || right <= left))
  }

  lemma VersionInWords(h: Helpers, a: string, b: string)
    ensures
      var left, right := h.versionTokens(a), h.versionTokens(b);
      && (Albums.VersionEvidence(h, a, b) == Evidence.NoMatch <==> VersionsApart(h, left, right))
      && (Albums.VersionEvidence(h, a, b) == Evidence.Match <==> left == right)
  {
    hide NamesOtherRecording, RemastersConflict, RemastersApart, RecordingWord;
    RecordingWordsInWords(h, a, b);
    RemastersInWords(h, a, b);
    Albums.VersionEvidenceMeaning(h, a, b);
  }

  ghost predicate OneProduct(h: Helpers, a: Album, b: Album) {
    ShareId(h, a.externalIds, b.externalIds, Asin) || ShareId(h, a.externalIds, b.externalIds, MatchItems.Barcode)
  }

  lemma ProductInWords(h: Helpers, a: Album, b: Album)
    ensures Albums.SameProduct(h, a, b) <==> OneProduct(h, a, b)
  {
    hide CompareExternalIds, ShareId, DifferInId;
    IdsInWords(h, a.externalIds, b.externalIds, Asin);
    IdsInWords(h, a.externalIds, b.externalIds, MatchItems.Barcode);
  }

  /** Two full albums that no identifier decides, without their tracks. */
  lemma AlbumEvidenceInWords(h: Helpers, a: Album, b: Album, strict: bool)
    requires OpenAlbums(h, a, b) && a.details.Some? && b.details.Some?
    ensures
      var l, r, product := a.details.value, b.details.value, OneProduct(h, a, b);
      var left, right := h.versionTokens(a.version), h.versionTokens(b.version);
      var apart := || VersionsApart(h, left, right) || !AlbumNamesMatch(h, a.name, b.name)
                   || (l.isExplicit.Some? && r.isExplicit.Some? && l.isExplicit.value != r.isExplicit.value)
                   || !ArtistListsMatch(h, l.artists, r.artists, !strict || product);
      var dated := l.year == 0 || r.year == 0 || l.year == r.year;
      Albums.CompareAlbumEvidence(h, a, b, strict, None, None) ==
      Success(if apart then Evidence.NoMatch
              else if product || (left == right && dated) then Evidence.Match else Evidence.Insufficient)
  {
    hide OpenAlbums, Albums.IdentityEvidence, Albums.MetadataEvidence, Albums.SameProduct, OneProduct,
         Albums.VersionEvidence, VersionsApart, AlbumNamesMatch, ArtistListsMatch;
    IdentityIsOpen(h, a, b);
    Albums.MetadataMeaning(h, a, b, strict);
    VersionInWords(h, a.version, b.version);
    ProductInWords(h, a, b);
  }

  /** A reference without details has only a name, a version and a product to go by. */
  lemma ReferenceInWords(h: Helpers, a: Album, b: Album)
    requires OpenAlbums(h, a, b) && (a.details.None? || b.details.None?)
    ensures
      var left, right := h.versionTokens(a.version), h.versionTokens(b.version);
      Albums.CompareAlbumEvidence(h, a, b, false, None, None) ==
      Success(if VersionsApart(h, left, right) || !AlbumNamesMatch(h, a.name, b.name) then Evidence.NoMatch
              else if OneProduct(h, a, b) || left == right then Evidence.Match else Evidence.Insufficient)
  {
    hide OpenAlbums, Albums.IdentityEvidence, Albums.SameProduct, OneProduct,
         Albums.VersionEvidence, VersionsApart, AlbumNamesMatch, Evidence.SeqFingerprint;
    IdentityIsOpen(h, a, b);
    VersionInWords(h, a.version, b.version);
    ProductInWords(h, a, b);
  }

  /** A live take is not the studio album, whatever the tracks: one word in one version is enough. */
  lemma RecordingWordsPartAlbums(h: Helpers, a: Album, b: Album, strict: bool,
                                 ta: Evidence.Tracklist, tb: Evidence.Tracklist, w: string)
    requires OpenAlbums(h, a, b) && h.versionTokens(a.version) != h.versionTokens(b.version)
    requires RecordingWord(w) && (w in h.versionTokens(a.version) || w in h.versionTokens(b.version))
    ensures Albums.CompareAlbumEvidence(h, a, b, strict, ta, tb) == Success(Evidence.NoMatch)
  {
    hide OpenAlbums, Albums.IdentityEvidence, Albums.SameProduct, Albums.VersionEvidence, AlbumNamesMatch,
         ArtistListsMatch, Evidence.Fingerprint, RecordingWord;
    IdentityIsOpen(h, a, b);
    VersionInWords(h, a.version, b.version);
  }

  // ----- the tracks of two albums

  /** Disc zero is an unknown one, which counts as the first. */
  predicate OnePlace(x: Track, y: Track) {
    x.number == y.number && (x.disc == y.disc || (x.disc == 0 && y.disc == 1) || (x.disc == 1 && y.disc == 0))
  }

  lemma SlotInWords(x: Track, y: Track)
    ensures Evidence.SlotOf(x) == Evidence.SlotOf(y) <==> OnePlace(x, y)
    ensures Evidence.SlotOf(x).0 > 1 <==> x.disc > 1
  {
  }

  /** Every track has a place of its own, and all or none of them a disc. */
  predicate Numbered(tracks: seq<Track>) {
    && tracks != []
    && (forall t | t in tracks :: t.number != 0)
    && ((forall t | t in tracks :: t.disc == 0) || (forall t | t in tracks :: t.disc != 0))
    && (forall i, j | 0 <= i < j < |tracks| :: !OnePlace(tracks[i], tracks[j]))
  }

  /** One has several discs while the other names none. */
  predicate DiscsUnclear(a: seq<Track>, b: seq<Track>) {
    (exists t | t in a :: t.disc > 1) && forall t | t in b :: t.disc == 0
  }

  predicate Comparable(a: seq<Track>, b: seq<Track>) {
    Numbered(a) && Numbered(b) && !DiscsUnclear(a, b) && !DiscsUnclear(b, a)
  }

  predicate PlacesOnly(a: seq<Track>, b: seq<Track>) {
    forall x | x in a :: exists y | y in b :: OnePlace(x, y)
  }

  lemma NumberedInWords(tracks: seq<Track>)
    ensures tracks != [] && Evidence.Trusted(tracks) <==> Numbered(tracks)
    ensures Evidence.IsMultiDisc(tracks) <==> exists t | t in tracks :: t.disc > 1
  {
    forall x, y ensures Evidence.SlotOf(x) == Evidence.SlotOf(y) <==> OnePlace(x, y) { SlotInWords(x, y); }
    forall x ensures Evidence.SlotOf(x).0 > 1 <==> x.disc > 1 { SlotInWords(x, x); }
    hide Evidence.SlotOf, OnePlace;
    assert forall t | t in tracks :: exists i | 0 <= i < |tracks| :: tracks[i] == t;
  }

  /** Every slot of one tracklist is a slot of the other. */
  lemma SlotsCovered(a: seq<Track>, b: seq<Track>)
    ensures Evidence.Slots(a) <= Evidence.Slots(b) <==> PlacesOnly(a, b)
  {
    hide Evidence.SlotOf, OnePlace;
    forall x, y ensures Evidence.SlotOf(x) == Evidence.SlotOf(y) <==> OnePlace(x, y) { SlotInWords(x, y); }
    if Evidence.Slots(a) <= Evidence.Slots(b) {
      forall x | x in a ensures exists y | y in b :: OnePlace(x, y) {
        assert Evidence.SlotOf(x) in Evidence.Slots(a);
        var y :| y in b && Evidence.SlotOf(y) == Evidence.SlotOf(x);
        assert OnePlace(x, y);
      }
    }
    if PlacesOnly(a, b) {
      forall slot | slot in Evidence.Slots(a) ensures slot in Evidence.Slots(b) {
        var x :| x in a && Evidence.SlotOf(x) == slot;
        var y :| y in b && OnePlace(x, y);
        assert Evidence.SlotOf(x) == Evidence.SlotOf(y);
      }
    }
  }

  lemma SlotsInWords(a: seq<Track>, b: seq<Track>)
    ensures Evidence.Slots(a) == Evidence.Slots(b) <==> PlacesOnly(a, b) && PlacesOnly(b, a)
  {
    hide Evidence.Slots, PlacesOnly;
    SlotsCovered(a, b);
    SlotsCovered(b, a);
  }

  ghost predicate SomePairSays(h: Helpers, a: seq<Track>, b: seq<Track>, e: Evidence.Evidence) {
    exists x, y :: x in a && y in b && OnePlace(x, y) && Evidence.TrackFingerprint(h, x, y) == e
  }

  lemma PairsInWords(h: Helpers, a: seq<Track>, b: seq<Track>, e: Evidence.Evidence)
    ensures Evidence.SomePosition(h, a, b, e) <==> SomePairSays(h, a, b, e)
  {
    hide Evidence.SlotOf, OnePlace, Evidence.TrackFingerprint;
    forall x, y ensures Evidence.SlotOf(x) == Evidence.SlotOf(y) <==> OnePlace(x, y) { SlotInWords(x, y); }
  }

  /** Comparable tracklists match if they fill the same places with tracks that all match. */
  lemma FingerprintInWords(h: Helpers, a: seq<Track>, b: seq<Track>)
    ensures Evidence.Fingerprint(h, Some(a), Some(b)) ==
            if !Comparable(a, b) then Evidence.Insufficient
            else if !PlacesOnly(a, b) || !PlacesOnly(b, a) then Evidence.NoMatch
            else if SomePairSays(h, a, b, Evidence.NoMatch) then Evidence.NoMatch
            else if SomePairSays(h, a, b, Evidence.Insufficient) then Evidence.Insufficient
            else Evidence.Match
  {
    hide Evidence.SomePosition, SomePairSays, Evidence.Slots, PlacesOnly, Numbered, Evidence.Trusted,
         Evidence.IsMultiDisc;
    NumberedInWords(a);
    NumberedInWords(b);
    SlotsInWords(a, b);
    PairsInWords(h, a, b, Evidence.NoMatch);
    PairsInWords(h, a, b, Evidence.Insufficient);
  }

  /** Seconds between two durations. */
  function Apart(x: int, y: int): nat {
    if x < y then y - x else x - y
  }

  /** One place: by common ISRCs within 8 seconds; without them by title and version within 2. */
  lemma TrackFingerprintInWords(h: Helpers, x: Track, y: Track)
    ensures
      var timed := x.duration != 0 && y.duration != 0;
      Evidence.TrackFingerprint(h, x, y) ==
      if HasId(h, x.externalIds, Isrc) && HasId(h, y.externalIds, Isrc) then
        if !ShareId(h, x.externalIds, y.externalIds, Isrc) then Evidence.NoMatch
        else if timed && Apart(x.duration, y.duration) <= 8 then Evidence.Match else Evidence.Insufficient
      else if x.name == "" || y.name == "" then Evidence.Insufficient
      else if !StringsMatch(h, x.name, y.name) || h.versionTokens(x.version) != h.versionTokens(y.version) then
        Evidence.NoMatch
      else if !timed then Evidence.Insufficient
      else if Apart(x.duration, y.duration) <= 2 then Evidence.Match else Evidence.NoMatch
  {
    hide StringsMatch, IdsOfType, HasId, ShareId;
    HasIdInWords(h, x.externalIds, Isrc);
    HasIdInWords(h, y.externalIds, Isrc);
    ShareIdInWords(h, x.externalIds, y.externalIds, Isrc);
    NothingInCommon(IdsOfType(h, x.externalIds, Isrc), IdsOfType(h, y.externalIds, Isrc));
  }

  lemma NothingInCommon(left: set<string>, right: set<string>)
    ensures left !! right <==> left * right == {}
  {
    if left * right == {} {
      forall id | id in left ensures id !in right {
        assert id !in left * right;
      }
    }
  }

  // ----- tracks

  /** A recording identifier that differs refutes; otherwise a shared track identifier settles. */
  lemma TrackIdsDecide(h: Helpers, a: Track, b: Track, x: Option<Album>, y: Option<Album>, allowItemId: bool)
    ensures
      var c := Tracks.TrackEvidence(h, a, b, x, y, allowItemId);
      var left, right := a.externalIds, b.externalIds;
      if allowItemId && OneItem(a.identity, b.identity) then c == Tracks.Exact
      else if DifferInId(h, left, right, MbRecording) || DifferInId(h, left, right, Acoustid) then c == Tracks.NoMatch
      else if ShareId(h, left, right, MbTrack) then c == Tracks.Exact
      else c == Tracks.DescribedEvidence(h, a, b, if x.Some? then x else a.album, if y.Some? then y else b.album)
  {
    hide SameInstanceItem, OneItem, CompareExternalIds, ShareId, DifferInId, Tracks.DescribedEvidence;
    IdentityInWords(a.identity, b.identity);
    IdsInWords(h, a.externalIds, b.externalIds, MbRecording);
    IdsInWords(h, a.externalIds, b.externalIds, Acoustid);
    IdsInWords(h, a.externalIds, b.externalIds, MbTrack);
  }

  /** No identifier decides about the two tracks. */
  ghost predicate OpenTracks(h: Helpers, a: Track, b: Track, allowItemId: bool) {
    && !(allowItemId && OneItem(a.identity, b.identity))
    && !DifferInId(h, a.externalIds, b.externalIds, MbRecording)
    && !DifferInId(h, a.externalIds, b.externalIds, Acoustid)
    && !ShareId(h, a.externalIds, b.externalIds, MbTrack)
  }

  /** The words of a track's version, which its title may hold. */
  function Words(h: Helpers, t: Track): set<string> {
    h.versionTokens(h.versionOf(t.name, t.version))
  }

  /** A live take is not the studio recording, whatever the albums: one word in one version is enough. */
  lemma RecordingWordsPartTracks(
      h: Helpers, a: Track, b: Track, x: Option<Album>, y: Option<Album>, allowItemId: bool, w: string)
    requires OpenTracks(h, a, b, allowItemId) && Words(h, a) != Words(h, b)
    requires RecordingWord(w) && (w in Words(h, a) || w in Words(h, b))
    ensures Tracks.TrackEvidence(h, a, b, x, y, allowItemId) == Tracks.NoMatch
  {
    hide OneItem, ShareId, DifferInId, RecordingWord, NamesOtherRecording, Tracks.TrackEvidence,
         Tracks.RemastersKeptApart, Tracks.SameFullAlbum, Tracks.CreditsMatch, TrackTitlesMatch;
    TrackIdsDecide(h, a, b, x, y, allowItemId);
    RecordingWordsInWords(h, Tracks.TrackVersion(h, a), Tracks.TrackVersion(h, b));
  }

  /** The words of the track's own version, or else of its album's. */
  function EditionWords(h: Helpers, t: Track, album: Option<Album>): set<string> {
    var own, of := h.versionOf(t.name, t.version), if album.Some? then album else t.album;
    h.versionTokens(if own != "" then own else if of.Some? then of.value.version else "")
  }

  /** The setting keeps remasters apart, by the words of the tracks or else of their albums. */
  lemma RemastersPartTracks(
      h: Helpers, a: Track, b: Track, x: Option<Album>, y: Option<Album>, allowItemId: bool)
    requires OpenTracks(h, a, b, allowItemId) && h.keepRemastersApart
    requires RemastersApart(h, EditionWords(h, a, x), EditionWords(h, b, y))
    ensures Tracks.TrackEvidence(h, a, b, x, y, allowItemId) == Tracks.NoMatch
  {
    hide OneItem, ShareId, DifferInId, RemastersConflict, RemastersApart, MissingRemaster, Tracks.TrackEvidence,
         Tracks.SameFullAlbum, Tracks.CreditsMatch, TrackTitlesMatch, CompareExternalIds, Tracks.VersionsConflict;
    TrackIdsDecide(h, a, b, x, y, allowItemId);
    IdsInWords(h, a.externalIds, b.externalIds, MbTrack);
    var u, v := Tracks.Given(x, a), Tracks.Given(y, b);
    RemastersInWords(h, Tracks.VersionOrAlbums(h, a, u), Tracks.VersionOrAlbums(h, b, v));
  }

  /** The flag of the track itself, or else of its full album. */
  function Flag(t: Track, album: Option<Album>): Option<bool> {
    if t.isExplicit.Some? then t.isExplicit
    else
      match if album.Some? then album else t.album
      case Some(Album(_, _, _, _, Some(details))) => details.isExplicit
      case _ => None
  }

  /** A clean and an explicit version are told apart, and so are the places of one full album. */
  lemma FlagsPartTracks(h: Helpers, a: Track, b: Track, x: Option<Album>, y: Option<Album>, allowItemId: bool)
    requires OpenTracks(h, a, b, allowItemId)
    requires Flag(a, x).Some? && Flag(b, y).Some? && Flag(a, x).value != Flag(b, y).value
    ensures Tracks.TrackEvidence(h, a, b, x, y, allowItemId) == Tracks.NoMatch
  {
    hide OneItem, ShareId, DifferInId, Tracks.TrackEvidence, Tracks.RemastersKeptApart,
         Tracks.SameFullAlbum, Tracks.CreditsMatch, TrackTitlesMatch, CompareExternalIds, Tracks.VersionsConflict;
    TrackIdsDecide(h, a, b, x, y, allowItemId);
  }

  // ----- what the description of two tracks comes down to

  lemma DurationsInWords(a: Track, b: Track, tolerance: nat)
    ensures Tracks.DurationsMatch(a, b, tolerance) <==>
            a.duration > 0 && b.duration > 0 && Apart(a.duration, b.duration) <= tolerance
    ensures Tracks.DurationsConflict(a, b, tolerance) <==>
            a.duration > 0 && b.duration > 0 && Apart(a.duration, b.duration) > tolerance
  {
  }

  /** One place on an album; without numbers, one duration within 3 seconds. */
  lemma PlacesInWords(h: Helpers, a: Track, b: Track, x: Option<Album>, y: Option<Album>)
    ensures Tracks.SamePosition(a, b) <==>
            if a.number == 0 || b.number == 0 then
              a.duration > 0 && b.duration > 0 && Apart(a.duration, b.duration) <= 3
            else OnePlace(a, b)
    ensures Tracks.PositionsConflict(h, a, b, x, y) <==>
            && x.Some? && y.Some? && x.value.details.Some? && y.value.details.Some?
            && Tracks.SameAlbum(h, x.value, y.value)
            && a.number != 0 && b.number != 0 && !OnePlace(a, b)
  {
    hide Tracks.SameAlbum;
  }

  /** One release: the same item, or a shared release identifier. */
  lemma ReleaseInWords(h: Helpers, x: Album, y: Album)
    ensures Tracks.SameRelease(h, Some(x), Some(y)) <==>
            || OneItem(x.identity, y.identity)
            || ShareId(h, x.externalIds, y.externalIds, MbAlbum)
            || ShareId(h, x.externalIds, y.externalIds, Discogs)
            || ShareId(h, x.externalIds, y.externalIds, Tadb)
    ensures Tracks.YearsMatch(Some(x), Some(y)) <==>
            && x.details.Some? && y.details.Some?
            && x.details.value.year == y.details.value.year != 0
  {
    hide SameInstanceItem, OneItem, CompareExternalIds, ShareId, DifferInId;
    IdentityInWords(x.identity, y.identity);
    IdsInWords(h, x.externalIds, y.externalIds, MbAlbum);
    IdsInWords(h, x.externalIds, y.externalIds, Discogs);
    IdsInWords(h, x.externalIds, y.externalIds, Tadb);
    assert forall t :: t in Albums.ALBUM_IDS <==> t == MbAlbum || t == Discogs || t == Tadb;
  }

  /** One album: the same item, or a release identifier that decides so, or else like metadata. */
  lemma AlbumsInWords(h: Helpers, x: Album, y: Album, i: nat)
    requires i <= 3 && Undecided(h, x.externalIds, y.externalIds, [MbAlbum, Discogs, Tadb][..i])
    ensures OneItem(x.identity, y.identity) ==> Tracks.SameAlbum(h, x, y)
    ensures !OneItem(x.identity, y.identity) && i < 3 ==>
              var t := [MbAlbum, Discogs, Tadb][i];
              && (ShareId(h, x.externalIds, y.externalIds, t) ==> Tracks.SameAlbum(h, x, y))
              && (DifferInId(h, x.externalIds, y.externalIds, t) ==> !Tracks.SameAlbum(h, x, y))
    ensures !OneItem(x.identity, y.identity) && i == 3 ==>
              (Tracks.SameAlbum(h, x, y) <==>
                Albums.MetadataEvidence(h, x, y, false, None, None) == Success(Evidence.Match))
  {
    hide SameInstanceItem, OneItem, FirstAnswer, ShareId, DifferInId, Undecided, Albums.MetadataEvidence;
    IdentityInWords(x.identity, y.identity);
    FirstAnswerInWords(h, x.externalIds, y.externalIds, [MbAlbum, Discogs, Tadb], i);
  }

  lemma RecordingIdsInWords(h: Helpers, a: Track, b: Track)
    ensures Tracks.SameRecording(h, a, b) <==>
            || ShareId(h, a.externalIds, b.externalIds, MbRecording)
            || ShareId(h, a.externalIds, b.externalIds, Acoustid)
            || (&& ShareId(h, a.externalIds, b.externalIds, Isrc)
                && a.duration > 0 && b.duration > 0 && Apart(a.duration, b.duration) <= 8)
  {
    hide CompareExternalIds, ShareId, DifferInId, IdsOfType;
    IdsInWords(h, a.externalIds, b.externalIds, MbRecording);
    IdsInWords(h, a.externalIds, b.externalIds, Acoustid);
    ShareIdInWords(h, a.externalIds, b.externalIds, Isrc);
  }
}
