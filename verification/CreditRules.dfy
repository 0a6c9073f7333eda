/** The artist credits of `compare.py` in the names that two tracks give. */
module CreditRules {
  import opened MatchItems
  import opened Tracks = TrackMatching

  /** The names that a text is split into, as keys, the empty ones left out. */
  lemma KeysInWords(h: Helpers, text: string, key: string)
    ensures key in CreditGroup(h, text) <==> exists n | n in h.splitFeatured(text) && n != "" :: h.creditKey(n) == key
    ensures key in ListGroup(h, text) <==> exists n | n in h.splitList(text) && n != "" :: h.creditKey(n) == key
  {
  }

  /** The track credits these names together, by an artist or by a name in its title. */
  ghost predicate Credited(h: Helpers, t: Track, g: Group) {
    || (exists i | 0 <= i < |t.artists| :: CreditGroup(h, t.artists[i].name) == g)
    || (exists n | n in h.featuredArtists(t.name) :: CreditGroup(h, n) == g)
  }

  /** Several names, each of which the track credits on its own. */
  ghost predicate CreditedOneByOne(h: Helpers, t: Track, names: Group) {
    |names| > 1 && forall n | n in names :: Credited(h, t, {n})
  }

  /** The list of the last artist with these names, or else the names themselves. */
  ghost predicate IsListOf(h: Helpers, t: Track, g: Group, names: Group) {
    || (exists i | 0 <= i < |t.artists| ::
          && CreditGroup(h, t.artists[i].name) == g && ListGroup(h, t.artists[i].name) == names
          && forall j | i < j < |t.artists| :: CreditGroup(h, t.artists[j].name) != g)
    || ((forall i | 0 <= i < |t.artists| :: CreditGroup(h, t.artists[i].name) != g) && names == g)
  }

  /** Each credit of one track stands in the other, as a whole or one by one. */
  ghost predicate Covered(h: Helpers, a: Track, b: Track) {
    forall g, names | Credited(h, a, g) && IsListOf(h, a, g, names) ::
      Credited(h, b, g) || CreditedOneByOne(h, b, names)
  }

  /** A name that the other track credits, alone or with others, or whose artists it credits. */
  ghost predicate LeadIsCredited(h: Helpers, name: string, t: Track) {
    || (exists g :: Credited(h, t, g) && h.creditKey(name) in g)
    || (&& |CreditGroup(h, name)| > 1
        && (Credited(h, t, CreditGroup(h, name)) || CreditedOneByOne(h, t, ListGroup(h, name))))
  }

  lemma GroupsInWords(h: Helpers, t: Track, g: Group)
    ensures g in CreditsOf(h, t).groups <==> Credited(h, t, g)
  {
    hide CreditGroup, Lists;
    var names := Names(t.artists);
    assert forall i | 0 <= i < |t.artists| :: names[i] == t.artists[i].name;
    assert g in NameGroups(h, names) <==> exists n | n in names :: CreditGroup(h, n) == g;
    if i :| 0 <= i < |t.artists| && CreditGroup(h, t.artists[i].name) == g {
      assert names[i] in names;
    }
    if n :| n in names && CreditGroup(h, n) == g {
      var i :| 0 <= i < |names| && names[i] == n;
      assert CreditGroup(h, t.artists[i].name) == g;
    }
  }

  /** The entry of a group is the list of its last name. */
  lemma {:induction false} ListsInWords(h: Helpers, names: seq<string>, i: nat)
    requires i < |names| && forall j | i < j < |names| :: CreditGroup(h, names[j]) != CreditGroup(h, names[i])
    ensures CreditGroup(h, names[i]) in Lists(h, names)
    ensures Lists(h, names)[CreditGroup(h, names[i])] == ListGroup(h, names[i])
  {
    hide CreditGroup, ListGroup;
    if i < |names| - 1 {
      ListsInWords(h, names[..|names| - 1], i);
    }
  }

  lemma {:induction false} LastOfGroup(h: Helpers, names: seq<string>, g: Group) returns (i: nat)
    requires exists k | 0 <= k < |names| :: CreditGroup(h, names[k]) == g
    ensures i < |names| && CreditGroup(h, names[i]) == g
    ensures forall j | i < j < |names| :: CreditGroup(h, names[j]) != g
  {
    hide CreditGroup;
    if CreditGroup(h, names[|names| - 1]) == g {
      i := |names| - 1;
    } else {
      i := LastOfGroup(h, names[..|names| - 1], g);
    }
  }

  function ListFor(h: Helpers, t: Track, g: Group): Group {
    var lists := CreditsOf(h, t).lists;
    if g in lists then lists[g] else g
  }

  /** There is one such list, and it is the one the credits hold. */
  lemma ListForInWords(h: Helpers, t: Track, g: Group, names: Group)
    ensures IsListOf(h, t, g, names) <==> names == ListFor(h, t, g)
  {
    hide CreditGroup, ListGroup, Lists, NameGroups;
    var all := Names(t.artists);
    assert forall i | 0 <= i < |t.artists| :: all[i] == t.artists[i].name;
    ListsHaveArtists(h, all, g);
    if exists k | 0 <= k < |all| :: CreditGroup(h, all[k]) == g {
      var i := LastOfGroup(h, all, g);
      ListsInWords(h, all, i);
      assert CreditGroup(h, t.artists[i].name) == g && ListGroup(h, t.artists[i].name) == ListFor(h, t, g);
      if IsListOf(h, t, g, names) {
        var k :| 0 <= k < |t.artists| && CreditGroup(h, t.artists[k].name) == g
                 && ListGroup(h, t.artists[k].name) == names
                 && forall j | k < j < |t.artists| :: CreditGroup(h, t.artists[j].name) != g;
        assert k == i;
      }
    }
  }

  lemma CoversInWords(h: Helpers, source: set<Group>, t: Track, lists: map<Group, Group>)
    ensures Covers(source, CreditsOf(h, t).groups, lists) <==>
            forall g | g in source :: Credited(h, t, g) || CreditedOneByOne(h, t, if g in lists then lists[g] else g)
  {
    hide CreditsOf, Credited;
    var target := CreditsOf(h, t).groups;
    forall g ensures g in target <==> Credited(h, t, g) { GroupsInWords(h, t, g); }
    var singles := set g, x | g in target && |g| == 1 && x in g :: x;
    forall x ensures x in singles <==> {x} in target {
      SinglesAreAlone(target, x);
    }
    forall names: Group ensures names <= singles <==> forall n | n in names :: Credited(h, t, {n}) {
    }
  }

  lemma SinglesAreAlone(target: set<Group>, x: string)
    ensures x in (set g, x | g in target && |g| == 1 && x in g :: x) <==> {x} in target
  {
    forall g: Group | g in target && |g| == 1 && x in g ensures g == {x} {
      assert |g - {x}| == 0;
    }
    if {x} in target {
      assert |{x}| == 1 && x in {x};
    }
  }

  lemma CoveredInWords(h: Helpers, a: Track, b: Track)
    ensures Covers(CreditsOf(h, a).groups, CreditsOf(h, b).groups, CreditsOf(h, a).lists) <==> Covered(h, a, b)
  {
    hide CreditsOf, Credited, CreditedOneByOne, IsListOf, Covers;
    CoversInWords(h, CreditsOf(h, a).groups, b, CreditsOf(h, a).lists);
    forall g ensures g in CreditsOf(h, a).groups <==> Credited(h, a, g) { GroupsInWords(h, a, g); }
    forall g, names ensures IsListOf(h, a, g, names) <==> names == ListFor(h, a, g) { ListForInWords(h, a, g, names); }
    assert Covered(h, a, b) <==>
      forall g | Credited(h, a, g) :: Credited(h, b, g) || CreditedOneByOne(h, b, ListFor(h, a, g));
  }

  lemma LeadInWords(h: Helpers, name: string, t: Track)
    ensures IsCredited(h, name, CreditsOf(h, t).groups) <==> LeadIsCredited(h, name, t)
  {
    hide CreditsOf, Credited, CreditedOneByOne, Covers, CreditGroup, ListGroup;
    var own := CreditGroup(h, name);
    CoversInWords(h, {own}, t, map[own := ListGroup(h, name)]);
    forall g ensures g in CreditsOf(h, t).groups <==> Credited(h, t, g) { GroupsInWords(h, t, g); }
  }

  /** The credits of one track all stand in the other, and each credits the first artist of the other. */
  lemma CreditsInWords(h: Helpers, a: Track, b: Track)
    ensures CreditsMatch(h, a, b) <==>
            && a.artists != [] && b.artists != []
            && (Covered(h, a, b) || Covered(h, b, a))
            && LeadIsCredited(h, a.artists[0].name, b) && LeadIsCredited(h, b.artists[0].name, a)
  {
    hide CreditsOf, Covers, Covered, IsCredited, LeadIsCredited;
    CoveredInWords(h, a, b);
    CoveredInWords(h, b, a);
    if a.artists != [] && b.artists != [] {
      LeadInWords(h, a.artists[0].name, b);
      LeadInWords(h, b.artists[0].name, a);
    }
  }
}
