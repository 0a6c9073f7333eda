/**
 A case in which the order of artists matters to `compare_track_evidence`: two credits of a track name
 the same artists, and only one of them is a list separated by commas.
 */
module ArtistOrder {
  import opened Wrappers
  import opened MatchItems
  import opened TrackMatching

  function Named(name: string): Artist {
    Artist(Identity("", "", None), {}, name, None)
  }

  function TrackOf(artists: seq<Artist>): Track {
    Track(Identity("", "", None), {}, "Song", "", artists, None, None, 0, 0, 0)
  }

  function PlainHelpers(): Helpers {
    Helpers(
      (t: IdType, s: string) => s, (t: IdType) => true, (s: string) => true,
      (s: string) => s, (s: string) => s, (s: string) => s, (s: string) => "", (s: string) => s, (s: string) => s,
      (s: string) => {}, (name: string, version: string) => version, (s: string) => false,
      (s: string) => [],
      (s: string) => if s == "A, B" || s == "A & B" then ["A", "B"] else [s],
      (s: string) => if s == "A, B" then ["A", "B"] else [s],
      (s: string) => s,
      false)
  }

  const A := Named("A")
  const B := Named("B")
  const C := Named("C")
  const LIST := Named("A, B")
  const DUO := Named("A & B")

  /** Nothing but the credits distinguishes such tracks, and no duration is known. */
  lemma PlainEvidence(p: seq<Artist>, q: seq<Artist>)
    ensures
      var h := PlainHelpers();
      TrackEvidence(h, TrackOf(p), TrackOf(q), None, None, true)
      == if CreditsMatch(h, TrackOf(p), TrackOf(q)) then Loose else NoMatch
  {
    hide CreditsMatch;
    var h := PlainHelpers();
    forall t: IdType ensures IdsOfType(h, {}, t) == {} {}
  }

  lemma PlainKeys(names: seq<string>)
    ensures Keys(PlainHelpers(), names) == set n | n in names && n != ""
  {
  }

  lemma SingleGroup(name: string)
    requires name == "A" || name == "B" || name == "C"
    ensures CreditGroup(PlainHelpers(), name) == {name} == ListGroup(PlainHelpers(), name)
  {
    assert |name| == 1 && |"A, B"| == 4 && |"A & B"| == 5;
    PlainKeys([name]);
    hide Keys;
    assert (set n | n in [name] && n != "") == {name};
  }

  lemma PairGroups()
    ensures CreditGroup(PlainHelpers(), "A, B") == {"A", "B"} == CreditGroup(PlainHelpers(), "A & B")
    ensures ListGroup(PlainHelpers(), "A, B") == {"A", "B"} && ListGroup(PlainHelpers(), "A & B") == {"A & B"}
  {
    assert |"A, B"| != |"A & B"|;
    PlainKeys(["A", "B"]);
    PlainKeys(["A & B"]);
    hide Keys;
    assert (set n | n in ["A", "B"] && n != "") == {"A", "B"};
    assert (set n | n in ["A & B"] && n != "") == {"A & B"};
  }

  /** The credits of a track with three artists, by their groups and lists. */
  lemma ThreeCredits(h: Helpers, a: string, b: string, c: string)
    requires h.featuredArtists("Song") == []
    ensures
      CreditsOf(h, TrackOf([Named(a), Named(b), Named(c)]))
      == Credits({CreditGroup(h, a), CreditGroup(h, b), CreditGroup(h, c)},
                 map[CreditGroup(h, a) := ListGroup(h, a)][CreditGroup(h, b) := ListGroup(h, b)]
                    [CreditGroup(h, c) := ListGroup(h, c)])
  {
    hide CreditGroup, ListGroup;
    var names := Names([Named(a), Named(b), Named(c)]);
    assert names == [a, b, c];
    CreditsStart(h);
    assert names[..0] == [] && names[..3] == names;
    CreditsStep(h, names, 0);
    CreditsStep(h, names, 1);
    CreditsStep(h, names, 2);
    assert NameGroups(h, []) == {};
  }

  /** Exchanging the second and the third artist of a track turns a match into none. */
  lemma OrderOfArtistsMatters()
    ensures multiset([C, DUO, LIST]) == multiset([C, LIST, DUO])
    ensures TrackEvidence(PlainHelpers(), TrackOf([C, DUO, LIST]), TrackOf([C, A, B]), None, None, true) == Loose
    ensures TrackEvidence(PlainHelpers(), TrackOf([C, LIST, DUO]), TrackOf([C, A, B]), None, None, true) == NoMatch
  {
    hide TrackEvidence, CreditsMatch;
    PlainEvidence([C, DUO, LIST], [C, A, B]);
    PlainEvidence([C, LIST, DUO], [C, A, B]);
    ListLastMatches();
    ListFirstDoesNot();
  }

  const PAIR: Group := {"A", "B"}
  const ALONE: set<Group> := {{"C"}, {"A"}, {"B"}}
  const TOGETHER: set<Group> := {{"C"}, PAIR}

  /** The credits of the three tracks. */
  lemma CreditsOfThree()
    ensures CreditsOf(PlainHelpers(), TrackOf([C, DUO, LIST])) == Credits(TOGETHER, map[{"C"} := {"C"}, PAIR := PAIR])
    ensures CreditsOf(PlainHelpers(), TrackOf([C, LIST, DUO]))
            == Credits(TOGETHER, map[{"C"} := {"C"}, PAIR := {"A & B"}])
    ensures CreditsOf(PlainHelpers(), TrackOf([C, A, B]))
            == Credits(ALONE, map[{"C"} := {"C"}, {"A"} := {"A"}, {"B"} := {"B"}])
  {
    hide CreditsOf, CreditGroup, ListGroup;
    SingleGroup("A");
    SingleGroup("B");
    SingleGroup("C");
    PairGroups();
    ThreeCredits(PlainHelpers(), "C", "A & B", "A, B");
    ThreeCredits(PlainHelpers(), "C", "A, B", "A & B");
    ThreeCredits(PlainHelpers(), "C", "A", "B");
  }

  /** "C" is credited on both sides. */
  lemma FirstIsCredited(groups: set<Group>)
    requires {"C"} in groups
    ensures IsCredited(PlainHelpers(), "C", groups)
  {
    hide Covers, CreditGroup, ListGroup;
    assert PlainHelpers().creditKey("C") in {"C"};
  }

  lemma ListLastMatches()
    ensures CreditsMatch(PlainHelpers(), TrackOf([C, DUO, LIST]), TrackOf([C, A, B]))
  {
    hide CreditsOf, IsCredited;
    CreditsOfThree();
    FirstIsCredited(TOGETHER);
    FirstIsCredited(ALONE);
    assert Covers(TOGETHER, ALONE, map[{"C"} := {"C"}, PAIR := PAIR]) by {
      assert "A" in {"A"} && "B" in {"B"} && |{"A"}| == |{"B"}| == 1 && {"A"} in ALONE && {"B"} in ALONE;
      assert PAIR - {"A"} == {"B"};
      assert |PAIR| == 2;
    }
  }

  lemma ListFirstDoesNot()
    ensures !CreditsMatch(PlainHelpers(), TrackOf([C, LIST, DUO]), TrackOf([C, A, B]))
  {
    hide CreditsOf, IsCredited;
    CreditsOfThree();
    assert "B" in PAIR && "B" !in {"A"} && "B" !in {"C"} && "A" in PAIR && "A" !in {"B"} && "A" !in {"C"};
    assert PAIR in TOGETHER && PAIR !in ALONE && {"A"} in ALONE && {"A"} !in TOGETHER;
    assert |{"A & B"}| == 1 && |{"A"}| == 1;
  }
}
