/** Exactly which version each channel issues, over every run, from the newest tags there are. */
module ReleaseIssues {
  import opened Wrappers
  import opened ReleaseVersions

  // ----- the order of versions as a key of five numbers

  function Key(v: Version): seq<nat> {
    [v.base.major, v.base.minor, v.base.patch,
     match v.channel case Nightly => 0 case Beta => 1 case Rc => 2 case Stable => 3, v.number]
  }

  /** The first number in which the keys differ is the larger. */
  predicate Above(a: seq<nat>, b: seq<nat>)
    requires |a| == |b|
  {
    exists i | 0 <= i < |a| :: a[i] > b[i] && a[..i] == b[..i]
  }

  lemma NewerMeaning(u: Version, v: Version)
    ensures Newer(u, v) <==> Above(Key(u), Key(v))
    ensures u == v || Above(Key(u), Key(v)) || Above(Key(v), Key(u))
  {
    var a, b := Key(u), Key(v);
    if u != v {
      if a[0] != b[0] {
        AboveAt(a, b, 0);
      } else if a[1] != b[1] {
        AboveAt(a, b, 1);
      } else if a[2] != b[2] {
        AboveAt(a, b, 2);
      } else if a[3] != b[3] {
        AboveAt(a, b, 3);
      } else {
        AboveAt(a, b, 4);
      }
    }
  }

  lemma AboveAt(a: seq<nat>, b: seq<nat>, i: nat)
    requires |a| == |b| && i < |a| && a[i] != b[i] && forall j | 0 <= j < i :: a[j] == b[j]
    ensures Above(a, b) <==> a[i] > b[i]
    ensures Above(b, a) <==> b[i] > a[i]
  {
    assert a[..i] == b[..i];
    forall j | i < j < |a| ensures a[..j] != b[..j] {
      assert a[..j][i] != b[..j][i];
    }
  }

  // ----- the newest tags

  ghost predicate NoneOf(tags: set<Version>, channel: Channel) {
    forall t | t in tags :: t.channel != channel
  }

  ghost predicate NewestOf(tags: set<Version>, channel: Channel, v: Version) {
    && v in tags && v.channel == channel
    && forall t | t in tags && t.channel == channel && t != v :: Above(Key(v), Key(t))
  }

  lemma LatestIsNewest(tags: set<Version>, channel: Channel, latest: Option<Version>)
    requires IsLatest(tags, channel, latest)
    ensures latest == None <==> NoneOf(tags, channel)
    ensures latest.Some? ==> NewestOf(tags, channel, latest.value)
    ensures forall v :: NewestOf(tags, channel, v) ==> latest == Some(v)
  {
    hide Above, Newer;
    forall u, v
      ensures Newer(u, v) <==> Above(Key(u), Key(v))
      ensures u == v || Above(Key(u), Key(v)) || Above(Key(v), Key(u))
    {
      NewerMeaning(u, v);
    }
  }

  /** The base after the newest stable release with its minor number raised, or the first of all. */
  ghost predicate MinorAfterStable(tags: set<Version>, base: Base) {
    && (NoneOf(tags, Stable) ==> base == Base(0, 1, 0))
    && forall s | NewestOf(tags, Stable, s) :: base == Base(s.base.major, s.base.minor + 1, 0)
  }

  /** The newest stable release has reached the major and minor number of a base. */
  ghost predicate StableReached(tags: set<Version>, base: Base) {
    exists s | NewestOf(tags, Stable, s) ::
      s.base.major > base.major || (s.base.major == base.major && s.base.minor >= base.minor)
  }

  // ----- what each channel issues

  ghost predicate StableIssued(tags: set<Version>, v: Version) {
    && (NoneOf(tags, Stable) ==> v == Version(Stable, Base(0, 1, 0), 0))
    && forall s | NewestOf(tags, Stable, s) ::
         v == Version(Stable, Base(s.base.major, s.base.minor, s.base.patch + 1), 0)
  }

  /** The next number on the base of the newest beta, until a stable release reaches its minor. */
  ghost predicate BetaIssued(tags: set<Version>, v: Version) {
    && v.channel == Beta
    && (NoneOf(tags, Beta) ==> MinorAfterStable(tags, v.base) && v.number == 1)
    && forall b | NewestOf(tags, Beta, b) ::
         if StableReached(tags, b.base) then MinorAfterStable(tags, v.base) && v.number == 1
         else v.base == b.base && v.number == b.number + 1
  }

  /** The number after all those on the base, at least `first`. */
  ghost predicate NextNumber(tags: set<Version>, v: Version, first: nat) {
    && v.number >= first
    && (forall t | t in tags && t.channel == v.channel && t.base == v.base :: t.number < v.number)
    && (v.number > first ==> Version(v.channel, v.base, v.number - 1) in tags)
  }

  /** The next candidate on the base of the newest beta. */
  ghost predicate RcIssued(tags: set<Version>, v: Version) {
    && v.channel == Rc
    && (NoneOf(tags, Beta) ==> v.base == Base(0, 1, 0))
    && (forall b | NewestOf(tags, Beta, b) :: v.base == b.base)
    && NextNumber(tags, v, 1)
  }

  /** The serial on the minor after the newest stable release, or the number after those there. */
  ghost predicate NightlyIssued(tags: set<Version>, serial: nat, v: Version) {
    v.channel == Nightly && MinorAfterStable(tags, v.base) && NextNumber(tags, v, serial)
  }

  ghost predicate Issued(tags: set<Version>, channel: Channel, serial: nat, v: Version) {
    match channel
    case Stable => StableIssued(tags, v)
    case Beta => BetaIssued(tags, v)
    case Rc => RcIssued(tags, v)
    case Nightly => NightlyIssued(tags, serial, v)
  }

  lemma FreeStart(start: Version, tags: set<Version>, v: Version)
    requires IsFirstFree(start, tags, v)
    ensures start !in tags ==> v == start
  {
    assert BumpBy(start, 0) == start;
  }

  lemma StableIsExact(tags: set<Version>, latest: LatestTags, v: Version)
    requires AreLatest(tags, latest) && IsFirstFree(NextStable(latest.stable), tags, v)
    ensures StableIssued(tags, v)
  {
    hide NewestOf, NoneOf, IsFirstFree;
    LatestIsNewest(tags, Stable, latest.stable);
    FreeStart(NextStable(latest.stable), tags, v);
    assert forall t | t in tags && t.channel.Stable? :: Newer(NextStable(latest.stable), t);
  }

  lemma BetaIsExact(tags: set<Version>, latest: LatestTags, v: Version)
    requires Inv(tags) && AreLatest(tags, latest) && IsFirstFree(NextBeta(latest.beta, latest.stable), tags, v)
    ensures BetaIssued(tags, v)
  {
    hide NewestOf, NoneOf, IsFirstFree;
    var start := NextBeta(latest.beta, latest.stable);
    LatestIsNewest(tags, Stable, latest.stable);
    LatestIsNewest(tags, Beta, latest.beta);
    FreeStart(start, tags, v);
    assert forall t | t in tags && t.channel.Beta? :: Newer(start, t);
  }

  /** Below the first free number everything from the start on is a tag. */
  lemma FirstFreeNumber(start: Version, tags: set<Version>, v: Version)
    requires IsFirstFree(start, tags, v) && !start.channel.Stable?
    ensures v == start.(number := v.number) && v.number >= start.number
    ensures v.number > start.number ==> Version(v.channel, v.base, v.number - 1) in tags
  {
    var k: nat :| v == BumpBy(start, k) && v !in tags && forall j: nat | j < k :: BumpBy(start, j) in tags;
    if k > 0 {
      assert BumpBy(start, k - 1) == Version(v.channel, v.base, v.number - 1);
    }
  }

  lemma RcIsExact(tags: set<Version>, latest: LatestTags, v: Version)
    requires Inv(tags) && AreLatest(tags, latest) && IsFirstFree(NextRc(latest.rc, latest.beta), tags, v)
    ensures RcIssued(tags, v)
  {
    hide NewestOf, NoneOf, IsFirstFree, Inv;
    var start := NextRc(latest.rc, latest.beta);
    LatestIsNewest(tags, Beta, latest.beta);
    RcIsFresh(tags, latest, v);
    FirstFreeNumber(start, tags, v);
    FreeStart(start, tags, v);
    if start.number > 1 {
      assert latest.rc.value == Version(Rc, start.base, start.number - 1);
    }
  }

  lemma NightlyIsExact(tags: set<Version>, latest: LatestTags, serial: nat, v: Version)
    requires Inv(tags) && AreLatest(tags, latest)
    requires IsFirstFree(NextNightly(latest.nightly, latest.stable, serial), tags, v)
    ensures NightlyIssued(tags, serial, v)
  {
    hide NewestOf, NoneOf, IsFirstFree, Inv;
    var start := NextNightly(latest.nightly, latest.stable, serial);
    LatestIsNewest(tags, Stable, latest.stable);
    NightlyIsFresh(tags, latest, serial, v);
    FirstFreeNumber(start, tags, v);
    if start.number > serial {
      assert latest.nightly.value == Version(Nightly, start.base, start.number - 1);
    }
  }

  /** Over every run, each channel issues exactly the version that follows from the newest tags. */
  lemma EveryIssueIsExact(events: seq<Event>, tags: set<Version>, channel: Channel, serial: nat, v: Version)
    requires Run(events, tags) && Decides(tags, channel, serial, Success(v))
    ensures Issued(tags, channel, serial, v)
  {
    hide AreLatest, IsFirstFree, Inv, StableIssued, BetaIssued, RcIssued, NightlyIssued, Run;
    RunKeeps(events, tags);
    var latest: LatestTags :| AreLatest(tags, latest) && DecidesFrom(tags, channel, serial, latest, Success(v));
    match channel
    case Stable => StableIsExact(tags, latest, v);
    case Beta => BetaIsExact(tags, latest, v);
    case Rc => RcIsExact(tags, latest, v);
    case Nightly => NightlyIsExact(tags, latest, serial, v);
  }

  // ----- when nothing is issued

  /** A candidate above every stable release: the stable branch carries its content already. */
  ghost predicate InRcWindow(tags: set<Version>) {
    exists rc | rc in tags && rc.channel.Rc? :: forall s | s in tags && s.channel.Stable? :: Above(Key(rc), Key(s))
  }

  lemma BlockedInWindow(tags: set<Version>, latest: LatestTags)
    requires AreLatest(tags, latest)
    ensures StableIsBlocked(latest.stable, latest.rc) <==> InRcWindow(tags)
  {
    hide Above;
    forall u, v ensures Newer(u, v) <==> Above(Key(u), Key(v)) { NewerMeaning(u, v); }
    if rc :| rc in tags && rc.channel.Rc? && forall s | s in tags && s.channel.Stable? :: Above(Key(rc), Key(s)) {
      assert latest.rc.Some? && !Newer(rc, latest.rc.value);
      if latest.stable.Some? {
        assert Newer(rc, latest.stable.value);
      }
    }
    if StableIsBlocked(latest.stable, latest.rc) {
      forall s | s in tags && s.channel.Stable? ensures Above(Key(latest.rc.value), Key(s)) {
        assert Newer(latest.rc.value, s);
      }
    }
  }

  /** A release is refused only on the stable channel, exactly in such a window, naming its newest candidate. */
  lemma RefusedInWindow(tags: set<Version>, channel: Channel, serial: nat, r: Result<Version, ReleaseError>)
    requires Decides(tags, channel, serial, r)
    ensures r.Failure? <==> channel.Stable? && InRcWindow(tags)
    ensures r.Failure? ==> NewestOf(tags, Rc, r.error.rc)
  {
    hide IsFirstFree, InRcWindow, StableIsBlocked, NewestOf;
    var latest: LatestTags :| AreLatest(tags, latest) && DecidesFrom(tags, channel, serial, latest, r);
    BlockedInWindow(tags, latest);
    LatestIsNewest(tags, Rc, latest.rc);
    if r.Failure? {
      BlockedHasRc(latest);
    }
  }

  lemma BlockedHasRc(latest: LatestTags)
    ensures StableIsBlocked(latest.stable, latest.rc) ==> latest.rc.Some?
  {
  }
}
