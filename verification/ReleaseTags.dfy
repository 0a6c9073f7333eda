/**
 Release versions as the tag names git stores: canonical decimals, and one spelling per channel.
 Two versions never share a tag name, so a version that is no tag has a name that is no tag.
 */
module ReleaseTags {
  import Wrappers
  import opened ReleaseVersions

  predicate IsDigit(c: char) {
    '0' <= c <= '9'
  }

  predicate AllDigits(s: string) {
    forall i | 0 <= i < |s| :: IsDigit(s[i])
  }

  function Digit(d: nat): (c: char)
    requires d < 10
    ensures IsDigit(c)
  {
    ('0' as int + d) as char
  }

  function Decimal(n: nat): (s: string)
    ensures s != "" && AllDigits(s)
  {
    if n < 10 then [Digit(n)] else Decimal(n / 10) + [Digit(n % 10)]
  }

  lemma {:induction false} DecimalIsInjective(m: nat, n: nat)
    requires Decimal(m) == Decimal(n)
    ensures m == n
  {
    var s, t := Decimal(m), Decimal(n);
    assert s[|s| - 1] == t[|t| - 1];
    assert m % 10 == n % 10;
    if m >= 10 && n >= 10 {
      assert s[..|s| - 1] == Decimal(m / 10) && t[..|t| - 1] == Decimal(n / 10);
      DecimalIsInjective(m / 10, n / 10);
    }
  }

  function Suffix(channel: Channel, number: nat): string {
    match channel
    case Stable => ""
    case Beta => "b" + Decimal(number)
    case Rc => "rc" + Decimal(number)
    case Nightly => ".dev" + Decimal(number)
  }

  /** The name of a release tag. */
  function TagName(v: Version): string {
    Decimal(v.base.major) +
    ("." + (Decimal(v.base.minor) + ("." + (Decimal(v.base.patch) + Suffix(v.channel, v.number)))))
  }

  /** Text that does not continue a number. */
  predicate EndsNumber(s: string) {
    s == "" || !IsDigit(s[0])
  }

  lemma {:induction false} NumberIsDelimited(a: string, x: string, b: string, y: string)
    requires AllDigits(a) && AllDigits(b) && EndsNumber(x) && EndsNumber(y)
    requires a + x == b + y
    ensures a == b && x == y
  {
    if a == "" || b == "" {
      assert a + x == (if a == "" then x else a + x) == if b == "" then y else b + y;
    } else {
      assert (a + x)[0] == a[0] && (b + y)[0] == b[0];
      assert (a + x)[1..] == a[1..] + x && (b + y)[1..] == b[1..] + y;
      NumberIsDelimited(a[1..], x, b[1..], y);
      assert a == [a[0]] + a[1..] && b == [b[0]] + b[1..];
    }
  }

  lemma SuffixIsInjective(c: Channel, m: nat, d: Channel, n: nat)
    requires Suffix(c, m) == Suffix(d, n)
    ensures c == d && (!c.Stable? ==> m == n)
  {
    var s := Suffix(c, m);
    if c.Beta? {
      assert s[1..] == Decimal(m) && s[0] == 'b';
      assert d.Beta?;
      assert s[1..] == Decimal(n);
      DecimalIsInjective(m, n);
    } else if c.Rc? {
      assert s[2..] == Decimal(m) && s[0] == 'r';
      assert d.Rc?;
      assert s[2..] == Decimal(n);
      DecimalIsInjective(m, n);
    } else if c.Nightly? {
      assert s[4..] == Decimal(m) && s[0] == '.';
      assert d.Nightly?;
      assert s[4..] == Decimal(n);
      DecimalIsInjective(m, n);
    } else {
      assert d.Stable?;
    }
  }

  lemma SomeDecimals()
    ensures Decimal(2) == "2" && Decimal(3) == "3" && Decimal(4) == "4" && Decimal(10) == "10" && Decimal(12) == "12"
  {
    assert Decimal(1) == "1" && Decimal(0) == "0";
  }

  /** How the tags of each channel are spelled. */
  lemma TagSpellings()
    ensures TagName(Version(Stable, Base(2, 10, 3), 0)) == "2.10.3"
    ensures TagName(Version(Beta, Base(2, 10, 3), 4)) == "2.10.3b4"
    ensures TagName(Version(Rc, Base(2, 10, 3), 12)) == "2.10.3rc12"
    ensures TagName(Version(Nightly, Base(2, 10, 3), 4)) == "2.10.3.dev4"
  {
    hide Decimal;
    SomeDecimals();
  }

  lemma TagNameIsInjective(u: Version, v: Version)
    requires Canonical(u) && Canonical(v) && TagName(u) == TagName(v)
    ensures u == v
  {
    hide Decimal, Suffix;
    var (a, b) := (u.base, v.base);
    var x2 := Decimal(a.patch) + Suffix(u.channel, u.number);
    var y2 := Decimal(b.patch) + Suffix(v.channel, v.number);
    var x1 := Decimal(a.minor) + ("." + x2);
    var y1 := Decimal(b.minor) + ("." + y2);
    NumberIsDelimited(Decimal(a.major), "." + x1, Decimal(b.major), "." + y1);
    assert x1 == ("." + x1)[1..] && y1 == ("." + y1)[1..];
    NumberIsDelimited(Decimal(a.minor), "." + x2, Decimal(b.minor), "." + y2);
    assert x2 == ("." + x2)[1..] && y2 == ("." + y2)[1..];
    SuffixEndsNumber(u.channel, u.number);
    SuffixEndsNumber(v.channel, v.number);
    NumberIsDelimited(Decimal(a.patch), Suffix(u.channel, u.number), Decimal(b.patch), Suffix(v.channel, v.number));
    DecimalIsInjective(a.major, b.major);
    DecimalIsInjective(a.minor, b.minor);
    DecimalIsInjective(a.patch, b.patch);
    SuffixIsInjective(u.channel, u.number, v.channel, v.number);
  }

  lemma SuffixEndsNumber(channel: Channel, number: nat)
    ensures EndsNumber(Suffix(channel, number))
  {
  }

  /** Over every run, the name of an issued version is the name of no tag. */
  lemma IssuedNameIsNew(events: seq<Event>, tags: set<Version>, channel: Channel, serial: nat, v: Version)
    requires Run(events, tags) && Decides(tags, channel, serial, Wrappers.Success(v))
    ensures forall t | t in tags :: TagName(t) != TagName(v)
  {
    RunKeeps(events, tags);
    EveryIssueIsFresh(events, tags, channel, serial, v);
    forall t | t in tags ensures TagName(t) != TagName(v) {
      if TagName(t) == TagName(v) { TagNameIsInjective(t, v); }
    }
  }
}
