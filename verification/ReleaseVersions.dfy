/**
 `release_workflow.py`: the next version of each release channel is derived from the tags that
 already exist. Runs start from no tags and mix automatic releases on all four channels with
 manual stable releases.
 */
module ReleaseVersions {
  import opened Wrappers

  datatype Channel = Nightly | Beta | Rc | Stable

  datatype Base = Base(major: nat, minor: nat, patch: nat)

  /** A release tag in canonical form; the number of a stable release is 0. */
  datatype Version = Version(channel: Channel, base: Base, number: nat)

  datatype ReleaseError = RcIsNewer(rc: Version)

  const FIRST_BASE := Base(0, 1, 0)

  function StableOf(base: Base): Version {
    Version(Stable, base, 0)
  }

  predicate Canonical(v: Version) {
    v.channel.Stable? ==> v.number == 0
  }

  // ----- the order of _release_version_key

  predicate BaseLess(a: Base, b: Base) {
    if a.major != b.major then a.major < b.major
    else if a.minor != b.minor then a.minor < b.minor
    else a.patch < b.patch
  }

  predicate BaseAtMost(a: Base, b: Base) {
    a == b || BaseLess(a, b)
  }

  function Stage(c: Channel): int {
    match c case Nightly => 0 case Beta => 1 case Rc => 2 case Stable => 3
  }

  predicate Newer(u: Version, v: Version) {
    if u.base != v.base then BaseLess(v.base, u.base)
    else if u.channel != v.channel then Stage(v.channel) < Stage(u.channel)
    else v.number < u.number
  }

  // ----- the tags of the repository

  ghost predicate IsLatest(tags: set<Version>, channel: Channel, latest: Option<Version>) {
    match latest
    case None => forall t | t in tags :: t.channel != channel
    case Some(v) =>
      && v in tags && v.channel == channel
      && forall t | t in tags && t.channel == channel :: !Newer(t, v)
  }

  /** The version-sorted tags of a channel, newest first, as git lists them. */
  ghost predicate IsListing(tags: set<Version>, channel: Channel, listed: seq<Version>) {
    && (forall t :: t in listed <==> t in tags && t.channel == channel)
    && (forall i, j | 0 <= i < j < |listed| :: !Newer(listed[j], listed[i]))
  }

  function First(listed: seq<Version>): Option<Version> {
    if listed == [] then None else Some(listed[0])
  }

  // ----- the next version of each channel

  /** During an RC window the stable branch already carries the next minor. */
  predicate StableIsBlocked(latestStable: Option<Version>, latestRc: Option<Version>) {
    latestRc.Some? && (latestStable.None? || Newer(latestRc.value, latestStable.value))
  }

  function NextStable(latestStable: Option<Version>): Version {
    match latestStable
    case None => StableOf(FIRST_BASE)
    case Some(v) => StableOf(v.base.(patch := v.base.patch + 1))
  }

  /** Compares the first two components only. */
  predicate MinorAtLeast(a: Base, b: Base) {
    if a.major != b.major then b.major < a.major else b.minor <= a.minor
  }

  function NextMinor(base: Base): Base {
    Base(base.major, base.minor + 1, 0)
  }

  function NextBeta(latestBeta: Option<Version>, latestStable: Option<Version>): Version {
    match latestBeta
    case Some(b) =>
      if latestStable.Some? && MinorAtLeast(latestStable.value.base, b.base)
      then Version(Beta, NextMinor(latestStable.value.base), 1)
      else Version(Beta, b.base, b.number + 1)
    case None =>
      match latestStable
      case Some(s) => Version(Beta, NextMinor(s.base), 1)
      case None => Version(Beta, FIRST_BASE, 1)
  }

  function NextRc(latestRc: Option<Version>, latestBeta: Option<Version>): Version {
    match latestBeta
    case None => Version(Rc, FIRST_BASE, 1)
    case Some(b) =>
      if latestRc.Some? && latestRc.value.base == b.base
      then Version(Rc, b.base, latestRc.value.number + 1)
      else Version(Rc, b.base, 1)
  }

  function NightlyBase(latestStable: Option<Version>): Base {
    match latestStable case None => FIRST_BASE case Some(s) => NextMinor(s.base)
  }

  /** `serial` is the current hour as a number, from a clock that nothing is assumed of. */
  function NextNightly(latestNightly: Option<Version>, latestStable: Option<Version>, serial: nat): Version {
    var base := NightlyBase(latestStable);
    if latestNightly.Some? && latestNightly.value.base == base && serial <= latestNightly.value.number
    then Version(Nightly, base, latestNightly.value.number + 1)
    else Version(Nightly, base, serial)
  }

  datatype LatestTags = LatestTags(
    stable: Option<Version>, beta: Option<Version>, rc: Option<Version>, nightly: Option<Version>)

  function NextVersion(channel: Channel, latest: LatestTags, serial: nat): Version {
    match channel
    case Stable => NextStable(latest.stable)
    case Beta => NextBeta(latest.beta, latest.stable)
    case Rc => NextRc(latest.rc, latest.beta)
    case Nightly => NextNightly(latest.nightly, latest.stable, serial)
  }

  function BumpBy(v: Version, k: nat): Version {
    if v.channel.Stable? then v.(base := v.base.(patch := v.base.patch + k)) else v.(number := v.number + k)
  }

  /** `v` is the first of the versions from `start` upwards that is not a tag. */
  ghost predicate IsFirstFree(start: Version, tags: set<Version>, v: Version) {
    exists k: nat :: v == BumpBy(start, k) && v !in tags && forall j: nat | j < k :: BumpBy(start, j) in tags
  }

  method EnsureUnique(start: Version, tags: set<Version>) returns (version: Version)
    ensures IsFirstFree(start, tags, version)
  {
    version := start;
    ghost var k := 0;
    ghost var passed: set<Version> := {};
    while version in tags
      invariant version == BumpBy(start, k)
      invariant forall j: nat | j < k :: BumpBy(start, j) in tags
      invariant passed <= tags && forall t | t in passed :: exists j: nat | j < k :: t == BumpBy(start, j)
      decreases |tags - passed|
    {
      assert version !in passed;
      assert tags - (passed + {version}) == tags - passed - {version};
      passed := passed + {version};
      assert version == BumpBy(start, k);
      if version.channel.Stable? {
        version := version.(base := version.base.(patch := version.base.patch + 1));
      } else {
        version := version.(number := version.number + 1);
      }
      k := k + 1;
    }
  }

  ghost predicate AreLatest(tags: set<Version>, latest: LatestTags) {
    && IsLatest(tags, Stable, latest.stable) && IsLatest(tags, Beta, latest.beta)
    && IsLatest(tags, Rc, latest.rc) && IsLatest(tags, Nightly, latest.nightly)
  }

  /** What an automatic release on a channel makes of the tags: an error, or the version issued. */
  ghost predicate Decides(tags: set<Version>, channel: Channel, serial: nat, r: Result<Version, ReleaseError>) {
    exists latest: LatestTags :: AreLatest(tags, latest) && DecidesFrom(tags, channel, serial, latest, r)
  }

  ghost predicate DecidesFrom(tags: set<Version>, channel: Channel, serial: nat, latest: LatestTags,
                              r: Result<Version, ReleaseError>)
  {
    if channel.Stable? && StableIsBlocked(latest.stable, latest.rc) then r == Failure(RcIsNewer(latest.rc.value))
    else r.Success? && IsFirstFree(NextVersion(channel, latest, serial), tags, r.value)
  }

  lemma FirstIsLatest(tags: set<Version>, channel: Channel, listed: seq<Version>)
    requires IsListing(tags, channel, listed)
    ensures IsLatest(tags, channel, First(listed))
  {
    forall t | t in tags && t.channel == channel && listed != [] ensures !Newer(t, listed[0]) {
      assert t in listed;
      var j :| 0 <= j < |listed| && listed[j] == t;
    }
    if listed != [] { assert listed[0] in listed; }
  }

  method DetermineAutoRelease(
      tags: set<Version>,
      stableTags: seq<Version>, betaTags: seq<Version>, rcTags: seq<Version>, nightlyTags: seq<Version>,
      channel: Channel, serial: nat)
    returns (r: Result<Version, ReleaseError>)
    requires IsListing(tags, Stable, stableTags) && IsListing(tags, Beta, betaTags)
    requires IsListing(tags, Rc, rcTags) && IsListing(tags, Nightly, nightlyTags)
    ensures Decides(tags, channel, serial, r)
  {
    FirstIsLatest(tags, Stable, stableTags);
    FirstIsLatest(tags, Beta, betaTags);
    FirstIsLatest(tags, Rc, rcTags);
    FirstIsLatest(tags, Nightly, nightlyTags);
    var latest := LatestTags(First(stableTags), First(betaTags), First(rcTags), First(nightlyTags));
    if channel.Stable? && StableIsBlocked(latest.stable, latest.rc) {
      r := Failure(RcIsNewer(latest.rc.value));
    } else {
      var version := EnsureUnique(NextVersion(channel, latest, serial), tags);
      r := Success(version);
    }
    assert DecidesFrom(tags, channel, serial, latest, r);
  }

  // ----- runs

  datatype Event =
    | Auto(channel: Channel, serial: nat, tagged: bool)  // an issued version need not be released
    | Manual(base: Base)

  ghost predicate StableAllowed(tags: set<Version>, base: Base) {
    forall t | t in tags && t.channel.Stable? :: Newer(StableOf(base), t)
  }

  ghost predicate Next(tags: set<Version>, event: Event, after: set<Version>) {
    match event
    case Auto(channel, serial, tagged) =>
      exists r: Result<Version, ReleaseError> :: Decides(tags, channel, serial, r) &&
        after == if r.Success? && tagged then tags + {r.value} else tags
    case Manual(base) => StableAllowed(tags, base) && after == tags + {StableOf(base)}
  }

  ghost predicate Run(events: seq<Event>, tags: set<Version>)
    decreases |events|, 0
  {
    if events == [] then tags == {}
    else RunThen(events[..|events| - 1], events[|events| - 1], tags)
  }

  ghost predicate RunThen(events: seq<Event>, last: Event, tags: set<Version>)
    decreases |events|, 1
  {
    exists before: set<Version> :: Run(events, before) && Next(before, last, tags)
  }

  // ----- the invariant of a run

  ghost predicate HasBeta(tags: set<Version>) {
    exists t | t in tags :: t.channel.Beta?
  }

  ghost predicate BaseReached(tags: set<Version>, base: Base) {
    base == FIRST_BASE || exists b | b in tags :: b.channel.Beta? && BaseAtMost(base, b.base)
  }

  ghost predicate NightlyReached(tags: set<Version>, base: Base) {
    base == FIRST_BASE || exists s | s in tags :: s.channel.Stable? && BaseAtMost(base, NextMinor(s.base))
  }

  ghost predicate Inv(tags: set<Version>) {
    && (forall t | t in tags :: Canonical(t))
    && (forall t | t in tags && t.channel.Beta? :: BaseAtMost(FIRST_BASE, t.base))
    && (forall t | t in tags && t.channel.Rc? :: BaseReached(tags, t.base))
    && (forall t | t in tags && t.channel.Nightly? :: NightlyReached(tags, t.base))
    // release candidates without a beta are numbered without gaps
    && (!HasBeta(tags) ==>
          forall t, j: nat | t in tags && t.channel.Rc? && 1 <= j <= t.number :: Version(Rc, FIRST_BASE, j) in tags)
  }

  /** Strictly newer than every tag of its channel, a beta also than every stable release. */
  ghost predicate Fresh(tags: set<Version>, v: Version) {
    && v !in tags && Canonical(v)
    && (forall t | t in tags && t.channel == v.channel :: Newer(v, t))
    && (v.channel.Beta? ==> forall t | t in tags && t.channel.Stable? :: Newer(v, t))
  }

  /** A tag that keeps the invariant. */
  ghost predicate Follows(tags: set<Version>, v: Version) {
    && Canonical(v)
    && match v.channel
       case Stable => true
       case Beta => BaseAtMost(FIRST_BASE, v.base)
       case Rc =>
         && BaseReached(tags, v.base)
         && (!HasBeta(tags) ==> forall j: nat | 1 <= j < v.number :: Version(Rc, FIRST_BASE, j) in tags)
       case Nightly => NightlyReached(tags, v.base)
  }

  lemma StableIsFresh(tags: set<Version>, latest: LatestTags, v: Version)
    requires Inv(tags) && AreLatest(tags, latest) && IsFirstFree(NextStable(latest.stable), tags, v)
    ensures v.channel.Stable? && Fresh(tags, v) && Follows(tags, v)
  {
    var start := NextStable(latest.stable);
    assert forall t | t in tags && t.channel.Stable? :: Newer(start, t);
    assert BumpBy(start, 0) == start;
  }

  lemma BetaIsFresh(tags: set<Version>, latest: LatestTags, v: Version)
    requires Inv(tags) && AreLatest(tags, latest) && IsFirstFree(NextBeta(latest.beta, latest.stable), tags, v)
    ensures v.channel.Beta? && Fresh(tags, v) && Follows(tags, v)
  {
    var start := NextBeta(latest.beta, latest.stable);
    assert forall t | t in tags && (t.channel.Beta? || t.channel.Stable?) :: Newer(start, t);
    assert BumpBy(start, 0) == start;
  }

  lemma RcIsFresh(tags: set<Version>, latest: LatestTags, v: Version)
    requires Inv(tags) && AreLatest(tags, latest) && IsFirstFree(NextRc(latest.rc, latest.beta), tags, v)
    ensures v.channel.Rc? && Fresh(tags, v) && Follows(tags, v)
  {
    var start := NextRc(latest.rc, latest.beta);
    assert BumpBy(start, 0) == start;
    if latest.beta.Some? {
      var b := latest.beta.value;
      forall t | t in tags && t.channel.Rc? ensures BaseAtMost(t.base, b.base) {
        assert BaseReached(tags, t.base);
      }
      assert forall t | t in tags && t.channel.Rc? :: Newer(start, t);
    } else {
      assert !HasBeta(tags);
      var k: nat :| v == BumpBy(start, k) && v !in tags && forall j: nat | j < k :: BumpBy(start, j) in tags;
      forall j: nat | 1 <= j < v.number ensures Version(Rc, FIRST_BASE, j) in tags {
        assert BumpBy(start, j - 1) == Version(Rc, FIRST_BASE, j);
      }
      forall t | t in tags && t.channel.Rc? ensures Newer(v, t) {
        assert BaseReached(tags, t.base);
        assert t.number >= v.number ==> Version(Rc, FIRST_BASE, v.number) in tags;
      }
    }
  }

  lemma NightlyIsFresh(tags: set<Version>, latest: LatestTags, serial: nat, v: Version)
    requires Inv(tags) && AreLatest(tags, latest)
    requires IsFirstFree(NextNightly(latest.nightly, latest.stable, serial), tags, v)
    ensures v.channel.Nightly? && Fresh(tags, v) && Follows(tags, v)
  {
    var start := NextNightly(latest.nightly, latest.stable, serial);
    assert BumpBy(start, 0) == start;
    forall t | t in tags && t.channel.Nightly? ensures BaseAtMost(t.base, start.base) {
      assert NightlyReached(tags, t.base);
    }
    assert forall t | t in tags && t.channel.Nightly? :: Newer(start, t);
  }

  lemma TagKeeps(tags: set<Version>, v: Version)
    requires Inv(tags) && Follows(tags, v)
    ensures Inv(tags + {v})
  {
    var after := tags + {v};
    assert HasBeta(tags) ==> HasBeta(after);
    forall t | t in after && t.channel.Rc? ensures BaseReached(after, t.base) {
      assert BaseReached(tags, t.base);
    }
    forall t | t in after && t.channel.Nightly? ensures NightlyReached(after, t.base) {
      assert NightlyReached(tags, t.base);
    }
    if !HasBeta(after) {
      assert v.channel.Rc? ==> v == Version(Rc, FIRST_BASE, v.number);
    }
  }

  lemma FirstFreeIsFresh(tags: set<Version>, latest: LatestTags, channel: Channel, serial: nat, v: Version)
    requires Inv(tags) && AreLatest(tags, latest) && IsFirstFree(NextVersion(channel, latest, serial), tags, v)
    ensures v.channel == channel && Fresh(tags, v) && Follows(tags, v)
  {
    hide NextStable, NextBeta, NextRc, NextNightly, AreLatest, IsFirstFree, Inv, Fresh, Follows;
    match channel
    case Stable => StableIsFresh(tags, latest, v);
    case Beta => BetaIsFresh(tags, latest, v);
    case Rc => RcIsFresh(tags, latest, v);
    case Nightly => NightlyIsFresh(tags, latest, serial, v);
  }

  lemma IssueKeeps(tags: set<Version>, channel: Channel, serial: nat, v: Version)
    requires Inv(tags) && Decides(tags, channel, serial, Success(v))
    ensures v.channel == channel && Fresh(tags, v) && Inv(tags + {v})
  {
    hide NextVersion, AreLatest, IsFirstFree, Inv, Fresh, Follows;
    var latest: LatestTags :| AreLatest(tags, latest) && DecidesFrom(tags, channel, serial, latest, Success(v));
    FirstFreeIsFresh(tags, latest, channel, serial, v);
    TagKeeps(tags, v);
  }

  lemma {:induction false} RunKeeps(events: seq<Event>, tags: set<Version>)
    requires Run(events, tags)
    ensures Inv(tags)
    decreases |events|
  {
    if events != [] {
      var init, event := events[..|events| - 1], events[|events| - 1];
      var before: set<Version> :| Run(init, before) && Next(before, event, tags);
      RunKeeps(init, before);
      match event
      case Auto(channel, serial, tagged) =>
        var r: Result<Version, ReleaseError> :| Decides(before, channel, serial, r) &&
          tags == if r.Success? && tagged then before + {r.value} else before;
        if r.Success? { IssueKeeps(before, channel, serial, r.value); }
      case Manual(base) =>
        TagKeeps(before, StableOf(base));
    }
  }

  /** Over every run each issued version matches its channel, is no tag yet and is newer than all of its channel. */
  lemma EveryIssueIsFresh(events: seq<Event>, tags: set<Version>, channel: Channel, serial: nat, v: Version)
    requires Run(events, tags) && Decides(tags, channel, serial, Success(v))
    ensures v.channel == channel && Fresh(tags, v)
  {
    RunKeeps(events, tags);
    IssueKeeps(tags, channel, serial, v);
  }
}
