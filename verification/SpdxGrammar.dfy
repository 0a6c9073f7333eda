/**
 SPDX license expressions (Annex D of the SPDX Specification 2.3): the tokens, the parse
 trees in which AND binds tighter than OR, the verdict of a tree in three-valued logic, and a
 recursive-descent parser that is proved to find exactly the trees of the grammar.
 */
module SpdxGrammar {
  import opened Wrappers

  type Token = string

  /** `bool | None`: accepted, refused, or neither known-good nor known-bad. */
  datatype Verdict = Compatible | Incompatible | Unknown

  // ----- tokens

  const COMPATIBLE_SPDX_LICENSES: set<string> := {
    "0BSD", "APACHE-2.0", "BSD-2-CLAUSE", "BSD-3-CLAUSE", "BSL-1.0", "CC0-1.0", "ISC",
    "LGPL-2.0", "LGPL-2.0-ONLY", "LGPL-2.0-OR-LATER", "LGPL-2.1", "LGPL-2.1-ONLY",
    "LGPL-2.1-OR-LATER", "LGPL-3.0", "LGPL-3.0-ONLY", "LGPL-3.0-OR-LATER", "MIT", "MIT-0",
    "MIT-CMU", "MPL-2.0", "PSF-2.0", "PYTHON-2.0", "UNLICENSE", "ZLIB"
  }

  const MAX_SPDX_NESTING := 10

  function UpperChar(c: char): char {
    if 'a' <= c <= 'z' then (c as int - 32) as char else c
  }

  function Upper(s: string): string {
    seq(|s|, i requires 0 <= i < |s| => UpperChar(s[i]))
  }

  datatype Kind = Open | Close | And | Or | With | Word

  function KindOf(t: Token): Kind {
    if t == "(" then Open
    else if t == ")" then Close
    else if Upper(t) == "AND" then And
    else if Upper(t) == "OR" then Or
    else if Upper(t) == "WITH" then With
    else Word
  }

  /** A token that joins or closes expressions instead of naming a license. */
  predicate IsOperator(t: Token) {
    KindOf(t) in {Close, And, Or, With}
  }

  function RemoveSuffixPlus(s: string): string {
    if s != [] && s[|s| - 1] == '+' then s[..|s| - 1] else s
  }

  predicate Contains(s: string, word: string) {
    exists i | 0 <= i <= |s| :: word <= s[i..]
  }

  function Remove(s: string, word: string): string
    requires word != []
  {
    if s == [] then []
    else if word <= s then Remove(s[|word|..], word)
    else [s[0]] + Remove(s[1..], word)
  }

  /** Names a copyleft family that is refused; the LGPL is not one of them. */
  predicate IsCopyleft(upper: string) {
    var rest := Remove(upper, "LGPL");
    Contains(rest, "GPL") || Contains(rest, "AGPL") || Contains(rest, "SSPL")
  }

  function LicenseVerdict(id: Token): Verdict {
    if RemoveSuffixPlus(Upper(id)) in COMPATIBLE_SPDX_LICENSES then Compatible else Unknown
  }

  // ----- three-valued logic: conjunction is the minimum, disjunction the maximum of
  // Incompatible < Unknown < Compatible

  function Truth(v: Verdict): int {
    match v case Incompatible => 0 case Unknown => 1 case Compatible => 2
  }

  function KleeneOr(a: Verdict, b: Verdict): Verdict {
    if Truth(a) < Truth(b) then b else a
  }

  function KleeneAnd(a: Verdict, b: Verdict): Verdict {
    if Truth(a) < Truth(b) then a else b
  }

  // ----- parse trees; a connective keeps the spelling of its token

  datatype Expr = One(term: Term) | Alt(expr: Expr, or: Token, term: Term)
  datatype Term = Single(operand: Operand) | Both(term: Term, and: Token, operand: Operand)
  datatype Operand =
    | License(id: Token)
    | Excepted(id: Token, with: Token, exception: Token)
    | Group(inner: Expr)

  predicate WfExpr(e: Expr) {
    match e
    case One(t) => WfTerm(t)
    case Alt(l, or, t) => WfExpr(l) && Upper(or) == "OR" && WfTerm(t)
  }

  predicate WfTerm(t: Term) {
    match t
    case Single(o) => WfOperand(o)
    case Both(l, and, o) => WfTerm(l) && Upper(and) == "AND" && WfOperand(o)
  }

  /** A word that can stand for a license or an exception. */
  predicate Names(t: Token) {
    t != "(" && t != ")" && Upper(t) != "AND" && Upper(t) != "OR" && Upper(t) != "WITH"
  }

  /** After WITH the evaluator accepts "(" as the name of an exception. */
  predicate WfOperand(o: Operand) {
    match o
    case License(id) => Names(id)
    case Excepted(id, with, ex) => Names(id) && Upper(with) == "WITH" && (ex == "(" || Names(ex))
    case Group(e) => WfExpr(e)
  }

  function YieldExpr(e: Expr): seq<Token> {
    match e
    case One(t) => YieldTerm(t)
    case Alt(l, or, t) => YieldExpr(l) + [or] + YieldTerm(t)
  }

  function YieldTerm(t: Term): seq<Token> {
    match t
    case Single(o) => YieldOperand(o)
    case Both(l, and, o) => YieldTerm(l) + [and] + YieldOperand(o)
  }

  function YieldOperand(o: Operand): seq<Token> {
    match o
    case License(id) => [id]
    case Excepted(id, with, ex) => [id, with, ex]
    case Group(e) => ["("] + YieldExpr(e) + [")"]
  }

  function ExprVerdict(e: Expr): Verdict {
    match e
    case One(t) => TermVerdict(t)
    case Alt(l, _, t) => KleeneOr(ExprVerdict(l), TermVerdict(t))
  }

  function TermVerdict(t: Term): Verdict {
    match t
    case Single(o) => OperandVerdict(o)
    case Both(l, _, o) => KleeneAnd(TermVerdict(l), OperandVerdict(o))
  }

  function OperandVerdict(o: Operand): Verdict {
    match o
    case License(id) => LicenseVerdict(id)
    case Excepted(id, _, ex) => if IsCopyleft(Upper(ex)) then Incompatible else LicenseVerdict(id)
    case Group(e) => ExprVerdict(e)
  }

  /** The tree spans the whole token list. */
  ghost predicate IsParseOf(e: Expr, ts: seq<Token>) {
    WfExpr(e) && YieldExpr(e) == ts
  }

  // ----- what a verdict means: the OR-alternatives of an expression, the operands of each

  function Alternatives(e: Expr): seq<Term> {
    match e
    case One(t) => [t]
    case Alt(l, _, t) => Alternatives(l) + [t]
  }

  function Operands(t: Term): seq<Operand> {
    match t
    case Single(o) => [o]
    case Both(l, _, o) => Operands(l) + [o]
  }

  ghost predicate AllAccepted(t: Term) {
    forall o | o in Operands(t) :: OperandVerdict(o) == Compatible
  }

  ghost predicate SomeRefused(t: Term) {
    exists o | o in Operands(t) :: OperandVerdict(o) == Incompatible
  }

  lemma {:induction false} TermVerdictMeaning(t: Term)
    ensures TermVerdict(t) == Compatible <==> AllAccepted(t)
    ensures TermVerdict(t) == Incompatible <==> SomeRefused(t)
  {
    match t
    case Single(o) =>
      assert Operands(t) == [o];
    case Both(l, _, o) =>
      TermVerdictMeaning(l);
      assert forall x :: x in Operands(t) <==> x in Operands(l) || x == o;
  }

  /** Accepted iff some alternative has only accepted operands, refused iff every one has a refused operand. */
  lemma {:induction false} ExprVerdictMeaning(e: Expr)
    ensures ExprVerdict(e) == Compatible <==> exists t | t in Alternatives(e) :: AllAccepted(t)
    ensures ExprVerdict(e) == Incompatible <==> forall t | t in Alternatives(e) :: SomeRefused(t)
  {
    match e
    case One(t) =>
      TermVerdictMeaning(t);
      assert t in Alternatives(e);
    case Alt(l, _, t) =>
      ExprVerdictMeaning(l);
      TermVerdictMeaning(t);
      assert forall x :: x in Alternatives(e) <==> x in Alternatives(l) || x == t;
  }

  // ----- recursive descent

  type Parse<T> = Option<(T, seq<Token>)>

  function ParseExpr(ts: seq<Token>): (r: Parse<Expr>)
    ensures r.Some? ==> |r.value.1| < |ts|
    decreases |ts|, 4
  {
    match ParseTerm(ts)
    case None => None
    case Some((t, rest)) => ParseAlts(One(t), rest)
  }

  function ParseAlts(e: Expr, ts: seq<Token>): (r: Parse<Expr>)
    ensures r.Some? ==> |r.value.1| <= |ts|
    decreases |ts|, 3
  {
    if ts == [] || KindOf(ts[0]) != Or then Some((e, ts)) else
    match ParseTerm(ts[1..])
    case None => None
    case Some((t, rest)) => ParseAlts(Alt(e, ts[0], t), rest)
  }

  function ParseTerm(ts: seq<Token>): (r: Parse<Term>)
    ensures r.Some? ==> |r.value.1| < |ts|
    decreases |ts|, 2
  {
    match ParseOperand(ts)
    case None => None
    case Some((o, rest)) => ParseBoths(Single(o), rest)
  }

  function ParseBoths(t: Term, ts: seq<Token>): (r: Parse<Term>)
    ensures r.Some? ==> |r.value.1| <= |ts|
    decreases |ts|, 1
  {
    if ts == [] || KindOf(ts[0]) != And then Some((t, ts)) else
    match ParseOperand(ts[1..])
    case None => None
    case Some((o, rest)) => ParseBoths(Both(t, ts[0], o), rest)
  }

  function ParseOperand(ts: seq<Token>): (r: Parse<Operand>)
    ensures r.Some? ==> |r.value.1| < |ts|
    decreases |ts|, 0
  {
    if ts == [] || IsOperator(ts[0]) then None
    else if KindOf(ts[0]) == Open then
      match ParseExpr(ts[1..])
      case None => None
      case Some((e, rest)) =>
        if rest != [] && KindOf(rest[0]) == Close then Some((Group(e), rest[1..])) else None
    else if 1 < |ts| && KindOf(ts[1]) == With then
      if |ts| == 2 || IsOperator(ts[2]) then None else Some((Excepted(ts[0], ts[1], ts[2]), ts[3..]))
    else Some((License(ts[0]), ts[1..]))
  }

  // ----- the parser finds every tree, whatever may follow it

  /** No token that would extend the phrase just read. */
  predicate Ends(kinds: set<Kind>, rest: seq<Token>) {
    rest == [] || KindOf(rest[0]) !in kinds
  }

  lemma {:induction false} ExprIsFound(e: Expr, rest: seq<Token>)
    requires WfExpr(e) && Ends({And, With}, rest)
    ensures ParseExpr(YieldExpr(e) + rest) == ParseAlts(e, rest)
    decreases e, 2
  {
    match e
    case One(t) =>
      TermIsFound(t, rest);
    case Alt(l, or, t) =>
      var tail := YieldTerm(t) + rest;
      assert YieldExpr(e) + rest == YieldExpr(l) + ([or] + tail);
      ExprIsFound(l, [or] + tail);
      assert ([or] + tail)[1..] == tail;
      TermIsFound(t, rest);
  }

  lemma {:induction false} TermIsFound(t: Term, rest: seq<Token>)
    requires WfTerm(t) && Ends({With}, rest)
    ensures ParseTerm(YieldTerm(t) + rest) == ParseBoths(t, rest)
    decreases t, 1
  {
    match t
    case Single(o) =>
      OperandIsFound(o, rest);
    case Both(l, and, o) =>
      var tail := YieldOperand(o) + rest;
      assert YieldTerm(t) + rest == YieldTerm(l) + ([and] + tail);
      TermIsFound(l, [and] + tail);
      assert ([and] + tail)[1..] == tail;
      OperandIsFound(o, rest);
  }

  lemma {:induction false} OperandIsFound(o: Operand, rest: seq<Token>)
    requires WfOperand(o) && Ends({With}, rest)
    ensures ParseOperand(YieldOperand(o) + rest) == Some((o, rest))
    decreases o, 0
  {
    var ts := YieldOperand(o) + rest;
    match o
    case License(id) =>
      assert ts[1..] == rest;
    case Excepted(id, with, ex) =>
      assert ts[3..] == rest;
    case Group(e) =>
      assert ts[1..] == YieldExpr(e) + ([")"] + rest);
      ExprIsFound(e, [")"] + rest);
      assert ([")"] + rest)[1..] == rest;
  }

  // ----- and it finds only trees

  lemma Reassociate(a: seq<Token>, t: Token, b: seq<Token>, c: seq<Token>)
    ensures a + [t] + b + c == a + ([t] + (b + c))
  {
  }

  lemma {:induction false} ExprIsSound(ts: seq<Token>)
    requires ParseExpr(ts).Some?
    ensures var (e, rest) := ParseExpr(ts).value; WfExpr(e) && YieldExpr(e) + rest == ts
    decreases |ts|, 4
  {
    TermIsSound(ts);
    var (t, rest) := ParseTerm(ts).value;
    AltsAreSound(One(t), rest);
  }

  lemma {:induction false} AltsAreSound(e: Expr, ts: seq<Token>)
    requires WfExpr(e) && ParseAlts(e, ts).Some?
    ensures var (f, rest) := ParseAlts(e, ts).value; WfExpr(f) && YieldExpr(f) + rest == YieldExpr(e) + ts
    decreases |ts|, 3
  {
    if ts != [] && KindOf(ts[0]) == Or {
      TermIsSound(ts[1..]);
      var (t, rest) := ParseTerm(ts[1..]).value;
      AltsAreSound(Alt(e, ts[0], t), rest);
      assert ts == [ts[0]] + ts[1..];
      Reassociate(YieldExpr(e), ts[0], YieldTerm(t), rest);
    }
  }

  lemma {:induction false} TermIsSound(ts: seq<Token>)
    requires ParseTerm(ts).Some?
    ensures var (t, rest) := ParseTerm(ts).value; WfTerm(t) && YieldTerm(t) + rest == ts
    decreases |ts|, 2
  {
    OperandIsSound(ts);
    var (o, rest) := ParseOperand(ts).value;
    BothsAreSound(Single(o), rest);
  }

  lemma {:induction false} BothsAreSound(t: Term, ts: seq<Token>)
    requires WfTerm(t) && ParseBoths(t, ts).Some?
    ensures var (u, rest) := ParseBoths(t, ts).value; WfTerm(u) && YieldTerm(u) + rest == YieldTerm(t) + ts
    decreases |ts|, 1
  {
    if ts != [] && KindOf(ts[0]) == And {
      OperandIsSound(ts[1..]);
      var (o, rest) := ParseOperand(ts[1..]).value;
      BothsAreSound(Both(t, ts[0], o), rest);
      assert ts == [ts[0]] + ts[1..];
      Reassociate(YieldTerm(t), ts[0], YieldOperand(o), rest);
    }
  }

  lemma {:induction false} OperandIsSound(ts: seq<Token>)
    requires ParseOperand(ts).Some?
    ensures var (o, rest) := ParseOperand(ts).value; WfOperand(o) && YieldOperand(o) + rest == ts
    decreases |ts|, 0
  {
    if KindOf(ts[0]) == Open {
      ExprIsSound(ts[1..]);
      var (e, rest) := ParseExpr(ts[1..]).value;
      assert ts == ["("] + ts[1..] && rest == [")"] + rest[1..];
    } else if 1 < |ts| && KindOf(ts[1]) == With {
      assert ts == [ts[0], ts[1], ts[2]] + ts[3..];
    } else {
      assert ts == [ts[0]] + ts[1..];
    }
  }

  /** The parse of a whole token list, if it has one. */
  function ParseAll(ts: seq<Token>): Option<Expr> {
    match ParseExpr(ts)
    case None => None
    case Some((e, rest)) => if rest == [] then Some(e) else None
  }

  /** The grammar is unambiguous, and the parser decides it. */
  lemma ParseTreeIsUnique(ts: seq<Token>, e: Expr)
    ensures IsParseOf(e, ts) <==> ParseAll(ts) == Some(e)
  {
    if IsParseOf(e, ts) {
      assert YieldExpr(e) + [] == ts;
      ExprIsFound(e, []);
    }
    if ParseAll(ts) == Some(e) {
      ExprIsSound(ts);
      assert YieldExpr(e) + [] == YieldExpr(e);
    }
  }
}
