/**
 What the verdicts of license expressions mean in words: which identifiers are accepted, which
 exceptions are refused, and how deep the groups of an expression nest.
 */
module SpdxVerdicts {
  import opened Wrappers
  import opened SpdxGrammar

  // ----- upper case

  /** Letters keep their place in the alphabet, every other character stays. */
  lemma UpperMeaning(s: string)
    ensures |Upper(s)| == |s|
    ensures forall i | 0 <= i < |s| ::
              if 'a' <= s[i] <= 'z' then
                'A' <= Upper(s)[i] <= 'Z' && Upper(s)[i] as int - 'A' as int == s[i] as int - 'a' as int
              else Upper(s)[i] == s[i]
    ensures Upper(Upper(s)) == Upper(s)
    ensures Upper("abcdefghijklmnopqrstuvwxyz") == "ABCDEFGHIJKLMNOPQRSTUVWXYZ"
  {
  }

  // ----- removing a word

  predicate StartsAt(s: string, word: string, i: int) {
    0 <= i <= |s| && word <= s[i..]
  }

  lemma StartsLater(s: string, word: string, j: nat)
    requires s != [] && j < |s|
    ensures StartsAt(s[1..], word, j) <==> StartsAt(s, word, j + 1)
  {
    assert s[1..][j..] == s[j + 1..];
  }

  lemma RemoveStep(s: string, word: string)
    requires word != [] && s != [] && !StartsAt(s, word, 0)
    ensures Remove(s, word) == [s[0]] + Remove(s[1..], word)
  {
    assert s[0..] == s;
  }

  /** Without an occurrence nothing is removed. */
  lemma {:induction false} RemoveNothing(s: string, word: string)
    requires word != [] && forall j :: !StartsAt(s, word, j)
    ensures Remove(s, word) == s
  {
    hide StartsAt;
    if s == [] {
      RemoveOfEmpty(word);
    } else {
      hide Remove;
      RemoveStep(s, word);
      forall j ensures !StartsAt(s[1..], word, j) {
        if 0 <= j < |s| { StartsLater(s, word, j); } else { StartsInside(s[1..], word, j); }
      }
      RemoveNothing(s[1..], word);
      assert [s[0]] + s[1..] == s;
    }
  }

  lemma RemoveOfEmpty(word: string)
    requires word != []
    ensures Remove([], word) == []
  {
  }

  lemma RemoveFront(s: string, word: string)
    requires word != [] && StartsAt(s, word, 0)
    ensures |word| <= |s| && Remove(s, word) == s[..0] + Remove(s[|word|..], word)
  {
    assert s[0..] == s;
  }

  lemma StartsInside(s: string, word: string, j: int)
    ensures StartsAt(s, word, j) ==> 0 <= j <= |s|
  {
  }

  /** The first occurrence goes, and the word is removed from what follows it. */
  lemma {:induction false} RemoveFirst(s: string, word: string, i: nat)
    requires word != [] && StartsAt(s, word, i) && forall j | 0 <= j < i :: !StartsAt(s, word, j)
    ensures i + |word| <= |s|
    ensures Remove(s, word) == s[..i] + Remove(s[i + |word|..], word)
  {
    hide Remove, StartsAt;
    StartsInside(s, word, i);
    if i == 0 {
      RemoveFront(s, word);
    } else {
      RemoveStep(s, word);
      StartsLater(s, word, i - 1);
      forall j | 0 <= j < i - 1 ensures !StartsAt(s[1..], word, j) { StartsLater(s, word, j); }
      RemoveFirst(s[1..], word, i - 1);
      assert s[1..][i - 1 + |word|..] == s[i + |word|..];
      assert s[..i] == [s[0]] + s[1..][..i - 1];
    }
  }

  // ----- identifiers and exceptions

  /** On the list, with or without the "+" of later versions. */
  predicate Listed(id: Token) {
    exists l | l in COMPATIBLE_SPDX_LICENSES :: Upper(id) == l || Upper(id) == l + "+"
  }

  /** Still names the GPL, AGPL or SSPL when its mentions of the LGPL are taken away. */
  predicate RefusedException(exception: Token) {
    exists word | word in {"GPL", "AGPL", "SSPL"} :: Contains(Remove(Upper(exception), "LGPL"), word)
  }

  lemma ListedHaveNoPlus(l: string)
    requires l in COMPATIBLE_SPDX_LICENSES
    ensures l != [] && l[|l| - 1] != '+'
  {
  }

  lemma ListedMeansCompatible(id: Token)
    ensures LicenseVerdict(id) == if Listed(id) then Compatible else Unknown
  {
    hide COMPATIBLE_SPDX_LICENSES, Upper;
    var u := Upper(id);
    var cut := RemoveSuffixPlus(u);
    assert u == cut || u == cut + "+";
    if Listed(id) {
      var l :| l in COMPATIBLE_SPDX_LICENSES && (u == l || u == l + "+");
      ListedHaveNoPlus(l);
      assert (l + "+")[..|l|] == l;
    }
  }

  lemma RefusedMeansCopyleft(exception: Token)
    ensures IsCopyleft(Upper(exception)) <==> RefusedException(exception)
  {
    hide Contains, Remove, Upper;
    var rest := Remove(Upper(exception), "LGPL");
    var words: set<string> := {"GPL", "AGPL", "SSPL"};
    assert "GPL" in words && "AGPL" in words && "SSPL" in words;
  }

  lemma HasLetter(s: string, word: string, c: char)
    requires c in word && Contains(s, word)
    ensures c in s
  {
    var i :| 0 <= i <= |s| && word <= s[i..];
    var k :| 0 <= k < |word| && word[k] == c;
    assert s[i + k] == s[i..][k];
  }

  lemma LacksLetter(s: string, word: string, c: char)
    requires c in word && c !in s
    ensures !Contains(s, word)
  {
    hide Contains;
    if Contains(s, word) { HasLetter(s, word, c); }
  }

  /** Without a P, without an L, or with neither a G nor an S, a text names no refused family. */
  lemma LacksLetters(rest: string)
    requires 'P' !in rest || 'L' !in rest || ('G' !in rest && 'S' !in rest)
    ensures !Contains(rest, "GPL") && !Contains(rest, "AGPL") && !Contains(rest, "SSPL")
  {
    hide Contains;
    var c := if 'P' !in rest then 'P' else if 'L' !in rest then 'L' else 'G';
    LacksLetter(rest, "GPL", c);
    LacksLetter(rest, "AGPL", c);
    LacksLetter(rest, "SSPL", if c == 'G' then 'S' else c);
  }

  lemma {:induction false} RemoveKeepsLetters(s: string, word: string, c: char)
    requires word != [] && c !in s
    ensures c !in Remove(s, word)
  {
    if s != [] {
      if word <= s {
        RemoveKeepsLetters(s[|word|..], word, c);
      } else {
        RemoveKeepsLetters(s[1..], word, c);
      }
    }
  }

  /** No license is both accepted by the list and refused as copyleft. */
  lemma ListedIsNotCopyleft(l: string)
    requires l in COMPATIBLE_SPDX_LICENSES
    ensures !IsCopyleft(l)
  {
    hide Contains, Remove, COMPATIBLE_SPDX_LICENSES;
    if |l| >= 4 && l[0] == 'L' {
      LettersOfLesser(l);
      RemoveLeading(l, "LGPL");
      RemoveKeepsLetters(l[4..], "LGPL", 'P');
    } else {
      LettersOfOthers(l);
      var c := if 'P' !in l then 'P' else if 'L' !in l then 'L' else 'G';
      RemoveKeepsLetters(l, "LGPL", c);
      if c == 'G' {
        RemoveKeepsLetters(l, "LGPL", 'S');
      }
    }
    LacksLetters(Remove(l, "LGPL"));
  }

  lemma RemoveLeading(s: string, word: string)
    requires word != [] && word <= s
    ensures Remove(s, word) == Remove(s[|word|..], word)
  {
  }

  lemma LettersOfLesser(l: string)
    requires l in COMPATIBLE_SPDX_LICENSES && |l| >= 4 && l[0] == 'L'
    ensures l[..4] == "LGPL" && 'P' !in l[4..]
  {
  }

  lemma LettersOfOthers(l: string)
    requires l in COMPATIBLE_SPDX_LICENSES && (|l| < 4 || l[0] != 'L')
    ensures 'P' !in l || 'L' !in l || ('G' !in l && 'S' !in l)
  {
  }

  // ----- acceptance and refusal, each in two-valued logic

  predicate AcceptedExpr(e: Expr) {
    match e
    case One(t) => AcceptedTerm(t)
    case Alt(l, _, t) => AcceptedExpr(l) || AcceptedTerm(t)
  }

  predicate AcceptedTerm(t: Term) {
    match t
    case Single(o) => AcceptedOperand(o)
    case Both(l, _, o) => AcceptedTerm(l) && AcceptedOperand(o)
  }

  predicate AcceptedOperand(o: Operand) {
    match o
    case License(id) => Listed(id)
    case Excepted(id, _, ex) => Listed(id) && !RefusedException(ex)
    case Group(e) => AcceptedExpr(e)
  }

  predicate RefusedExpr(e: Expr) {
    match e
    case One(t) => RefusedTerm(t)
    case Alt(l, _, t) => RefusedExpr(l) && RefusedTerm(t)
  }

  predicate RefusedTerm(t: Term) {
    match t
    case Single(o) => RefusedOperand(o)
    case Both(l, _, o) => RefusedTerm(l) || RefusedOperand(o)
  }

  predicate RefusedOperand(o: Operand) {
    match o
    case License(_) => false
    case Excepted(_, _, ex) => RefusedException(ex)
    case Group(e) => RefusedExpr(e)
  }

  lemma {:induction false} ExprInWords(e: Expr)
    ensures ExprVerdict(e) == Compatible <==> AcceptedExpr(e)
    ensures ExprVerdict(e) == Incompatible <==> RefusedExpr(e)
    decreases e, 2
  {
    match e
    case One(t) => TermInWords(t);
    case Alt(l, _, t) =>
      ExprInWords(l);
      TermInWords(t);
  }

  lemma {:induction false} TermInWords(t: Term)
    ensures TermVerdict(t) == Compatible <==> AcceptedTerm(t)
    ensures TermVerdict(t) == Incompatible <==> RefusedTerm(t)
    decreases t, 1
  {
    match t
    case Single(o) => OperandInWords(o);
    case Both(l, _, o) =>
      TermInWords(l);
      OperandInWords(o);
  }

  lemma {:induction false} OperandInWords(o: Operand)
    ensures OperandVerdict(o) == Compatible <==> AcceptedOperand(o)
    ensures OperandVerdict(o) == Incompatible <==> RefusedOperand(o)
    decreases o, 0
  {
    hide LicenseVerdict, IsCopyleft, Listed, RefusedException;
    match o
    case License(id) => ListedMeansCompatible(id);
    case Excepted(id, _, ex) =>
      ListedMeansCompatible(id);
      RefusedMeansCopyleft(ex);
    case Group(e) => ExprInWords(e);
  }

  // ----- nesting

  function Max(a: nat, b: nat): nat {
    if a < b then b else a
  }

  /** How many groups stand inside one another, the exceptions that are a bracket left aside. */
  function NestingOfExpr(e: Expr): nat {
    match e
    case One(t) => NestingOfTerm(t)
    case Alt(l, _, t) => Max(NestingOfExpr(l), NestingOfTerm(t))
  }

  function NestingOfTerm(t: Term): nat {
    match t
    case Single(o) => NestingOfOperand(o)
    case Both(l, _, o) => Max(NestingOfTerm(l), NestingOfOperand(o))
  }

  function NestingOfOperand(o: Operand): nat {
    match o
    case Group(e) => 1 + NestingOfExpr(e)
    case _ => 0
  }

  /** No exception is written as a bracket. */
  predicate PlainExpr(e: Expr) {
    match e
    case One(t) => PlainTerm(t)
    case Alt(l, _, t) => PlainExpr(l) && PlainTerm(t)
  }

  predicate PlainTerm(t: Term) {
    match t
    case Single(o) => PlainOperand(o)
    case Both(l, _, o) => PlainTerm(l) && PlainOperand(o)
  }

  predicate PlainOperand(o: Operand) {
    match o
    case License(_) => true
    case Excepted(_, _, ex) => ex != "("
    case Group(e) => PlainExpr(e)
  }
}
