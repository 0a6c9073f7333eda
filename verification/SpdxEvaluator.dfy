/**
 The evaluator of `check_package_safety.py`: it pops tokens off one shared list while it
 evaluates. Every method is proved against the parser and the verdict of SpdxGrammar.
 */
module SpdxEvaluator {
  import opened Wrappers
  import opened SpdxGrammar
  import opened SpdxVerdicts

  datatype SyntaxError = SpdxSyntaxError

  type Evaluation = Result<Verdict, SyntaxError>

  // ----- nesting

  /** The deepest group a scan of `ts` opens when it starts inside `depth` groups. */
  function DeepestFrom(ts: seq<Token>, depth: nat): (d: nat)
    ensures depth <= d
  {
    if ts == [] then depth
    else if KindOf(ts[0]) == Open then DeepestFrom(ts[1..], depth + 1)
    else if KindOf(ts[0]) == Close then
      var d := DeepestFrom(ts[1..], if depth == 0 then 0 else depth - 1);
      if depth < d then d else depth
    else DeepestFrom(ts[1..], depth)
  }

  lemma {:induction false} DeepestIsMonotone(ts: seq<Token>, d: nat, e: nat)
    requires d <= e
    ensures DeepestFrom(ts, d) <= DeepestFrom(ts, e)
  {
    if ts != [] {
      if KindOf(ts[0]) == Open {
        DeepestIsMonotone(ts[1..], d + 1, e + 1);
      } else if KindOf(ts[0]) == Close {
        DeepestIsMonotone(ts[1..], if d == 0 then 0 else d - 1, if e == 0 then 0 else e - 1);
      } else {
        DeepestIsMonotone(ts[1..], d, e);
      }
    }
  }

  /** Reading a whole phrase leaves the counter of open groups where it was, or higher. */
  lemma {:induction false} ExprKeepsDepth(e: Expr, rest: seq<Token>, d: nat)
    requires WfExpr(e)
    ensures DeepestFrom(rest, d) <= DeepestFrom(YieldExpr(e) + rest, d)
    decreases e, 2
  {
    match e
    case One(t) => TermKeepsDepth(t, rest, d);
    case Alt(l, or, t) =>
      var tail := YieldTerm(t) + rest;
      assert YieldExpr(e) + rest == YieldExpr(l) + ([or] + tail);
      ExprKeepsDepth(l, [or] + tail, d);
      assert ([or] + tail)[1..] == tail;
      TermKeepsDepth(t, rest, d);
  }

  lemma {:induction false} TermKeepsDepth(t: Term, rest: seq<Token>, d: nat)
    requires WfTerm(t)
    ensures DeepestFrom(rest, d) <= DeepestFrom(YieldTerm(t) + rest, d)
    decreases t, 1
  {
    match t
    case Single(o) => OperandKeepsDepth(o, rest, d);
    case Both(l, and, o) =>
      var tail := YieldOperand(o) + rest;
      assert YieldTerm(t) + rest == YieldTerm(l) + ([and] + tail);
      TermKeepsDepth(l, [and] + tail, d);
      assert ([and] + tail)[1..] == tail;
      OperandKeepsDepth(o, rest, d);
  }

  lemma {:induction false} OperandKeepsDepth(o: Operand, rest: seq<Token>, d: nat)
    requires WfOperand(o)
    ensures DeepestFrom(rest, d) <= DeepestFrom(YieldOperand(o) + rest, d)
    decreases o, 0
  {
    var ts := YieldOperand(o) + rest;
    match o
    case License(id) =>
      assert ts[1..] == rest;
    case Excepted(id, with, ex) =>
      assert ts[1..] == [with, ex] + rest;
      assert ([with, ex] + rest)[1..] == [ex] + rest;
      assert ([ex] + rest)[1..] == rest;
      DeepestIsMonotone(rest, d, d + 1);
      assert DeepestFrom(rest, d) <= DeepestFrom([ex] + rest, d);
      assert DeepestFrom([ex] + rest, d) == DeepestFrom([with, ex] + rest, d);
    case Group(e) =>
      assert ts[1..] == YieldExpr(e) + ([")"] + rest);
      ExprKeepsDepth(e, [")"] + rest, d + 1);
      assert ([")"] + rest)[1..] == rest;
  }

  lemma DeepestOfOpen(rest: seq<Token>, d: nat)
    ensures DeepestFrom(["("] + rest, d) == DeepestFrom(rest, d + 1)
    ensures DeepestFrom([")"] + rest, d + 1) == Max(d + 1, DeepestFrom(rest, d))
  {
    assert (["("] + rest)[1..] == rest && ([")"] + rest)[1..] == rest;
  }

  lemma DeepestOfWord(t: Token, rest: seq<Token>, d: nat)
    requires t != "(" && t != ")"
    ensures DeepestFrom([t] + rest, d) == DeepestFrom(rest, d)
  {
    assert ([t] + rest)[1..] == rest;
  }

  /** The scan finds how deep the groups of an expression nest. */
  lemma {:induction false} ExprNesting(e: Expr, rest: seq<Token>, d: nat)
    requires WfExpr(e) && PlainExpr(e)
    ensures DeepestFrom(YieldExpr(e) + rest, d) == Max(d + NestingOfExpr(e), DeepestFrom(rest, d))
    decreases e, 2
  {
    hide DeepestFrom;
    match e
    case One(t) => TermNesting(t, rest, d);
    case Alt(l, or, t) =>
      var tail := YieldTerm(t) + rest;
      assert YieldExpr(e) + rest == YieldExpr(l) + ([or] + tail);
      ExprNesting(l, [or] + tail, d);
      DeepestOfWord(or, tail, d);
      TermNesting(t, rest, d);
  }

  lemma {:induction false} TermNesting(t: Term, rest: seq<Token>, d: nat)
    requires WfTerm(t) && PlainTerm(t)
    ensures DeepestFrom(YieldTerm(t) + rest, d) == Max(d + NestingOfTerm(t), DeepestFrom(rest, d))
    decreases t, 1
  {
    hide DeepestFrom;
    match t
    case Single(o) => OperandNesting(o, rest, d);
    case Both(l, and, o) =>
      var tail := YieldOperand(o) + rest;
      assert YieldTerm(t) + rest == YieldTerm(l) + ([and] + tail);
      TermNesting(l, [and] + tail, d);
      DeepestOfWord(and, tail, d);
      OperandNesting(o, rest, d);
  }

  lemma {:induction false} OperandNesting(o: Operand, rest: seq<Token>, d: nat)
    requires WfOperand(o) && PlainOperand(o)
    ensures DeepestFrom(YieldOperand(o) + rest, d) == Max(d + NestingOfOperand(o), DeepestFrom(rest, d))
    decreases o, 0
  {
    hide DeepestFrom;
    var ts := YieldOperand(o) + rest;
    match o
    case License(id) =>
      DeepestOfWord(id, rest, d);
    case Excepted(id, with, ex) =>
      assert ts == [id] + ([with] + ([ex] + rest));
      DeepestOfWord(id, [with] + ([ex] + rest), d);
      DeepestOfWord(with, [ex] + rest, d);
      DeepestOfWord(ex, rest, d);
    case Group(e) =>
      assert ts == ["("] + (YieldExpr(e) + ([")"] + rest));
      DeepestOfOpen(YieldExpr(e) + ([")"] + rest), d);
      ExprNesting(e, [")"] + rest, d + 1);
      DeepestOfOpen(rest, d);
  }

  method MaxGroupDepth(tokens: seq<Token>) returns (deepest: nat)
    ensures deepest == DeepestFrom(tokens, 0)
  {
    var depth: nat := 0;
    deepest := 0;
    for i := 0 to |tokens|
      invariant depth <= deepest
      invariant DeepestFrom(tokens, 0) ==
                if DeepestFrom(tokens[i..], depth) < deepest then deepest else DeepestFrom(tokens[i..], depth)
    {
      assert tokens[i..][1..] == tokens[i + 1..];
      var token := tokens[i];
      if KindOf(token) == Open {
        depth := depth + 1;
        deepest := if deepest < depth then depth else deepest;
      } else if KindOf(token) == Close {
        depth := if depth == 0 then 0 else depth - 1;
      }
    }
  }

  // ----- evaluation

  /** What one more "OR" does to the phrase `e` read off the front of `start`. */
  lemma AltStep(start: seq<Token>, e: Expr, before: seq<Token>, depth: nat)
    requires WfExpr(e) && YieldExpr(e) + before == start && before != [] && KindOf(before[0]) == Or
    ensures DeepestFrom(before[1..], depth) <= DeepestFrom(start, depth)
    ensures match ParseTerm(before[1..])
            case None => ParseAlts(e, before) == None
            case Some((t, rest)) =>
              var f := Alt(e, before[0], t);
              && ParseAlts(e, before) == ParseAlts(f, rest)
              && WfExpr(f) && YieldExpr(f) + rest == start
  {
    ExprKeepsDepth(e, before, depth);
    assert before == [before[0]] + before[1..];
    match ParseTerm(before[1..])
    case None =>
    case Some((t, rest)) =>
      TermIsSound(before[1..]);
      Reassociate(YieldExpr(e), before[0], YieldTerm(t), rest);
  }

  /** What one more "AND" does to the phrase `t` read off the front of `start`. */
  lemma BothStep(start: seq<Token>, t: Term, before: seq<Token>, depth: nat)
    requires WfTerm(t) && YieldTerm(t) + before == start && before != [] && KindOf(before[0]) == And
    ensures DeepestFrom(before[1..], depth) <= DeepestFrom(start, depth)
    ensures match ParseOperand(before[1..])
            case None => ParseBoths(t, before) == None
            case Some((o, rest)) =>
              var u := Both(t, before[0], o);
              && ParseBoths(t, before) == ParseBoths(u, rest)
              && WfTerm(u) && YieldTerm(u) + rest == start
  {
    TermKeepsDepth(t, before, depth);
    assert before == [before[0]] + before[1..];
    match ParseOperand(before[1..])
    case None =>
    case Some((o, rest)) =>
      OperandIsSound(before[1..]);
      Reassociate(YieldTerm(t), before[0], YieldOperand(o), rest);
  }

  /** The list of remaining tokens, shared by all the calls of one evaluation. */
  class TokenList {
    var items: seq<Token>

    constructor (tokens: seq<Token>)
      ensures items == tokens
    {
      items := tokens;
    }

    method Pop() returns (token: Token)
      requires items != []
      modifies this
      ensures token == old(items)[0] && items == old(items)[1..]
    {
      token := items[0];
      items := items[1..];
    }
  }

  /**
   `depth` is the number of calls for a group around this one: no call is ever made with it
   above `limit`, the deepest group of the expression.
   */
  method EvaluateTokens(tokens: TokenList, ghost depth: nat, ghost limit: nat) returns (r: Evaluation)
    requires DeepestFrom(tokens.items, depth) <= limit
    modifies tokens
    ensures match ParseExpr(old(tokens.items))
            case None => r == Failure(SpdxSyntaxError)
            case Some((e, rest)) => r == Success(ExprVerdict(e)) && tokens.items == rest
    decreases |tokens.items|, 2
  {
    ghost var start := tokens.items;
    r := EvaluateTerm(tokens, depth, limit);
    if r.Failure? { return; }
    var result := r.value;
    ghost var e := One(ParseTerm(start).value.0);
    TermIsSound(start);
    while tokens.items != [] && KindOf(tokens.items[0]) == Or
      invariant ParseExpr(start) == ParseAlts(e, tokens.items)
      invariant WfExpr(e) && YieldExpr(e) + tokens.items == start
      invariant result == ExprVerdict(e)
      decreases |tokens.items|
    {
      AltStep(start, e, tokens.items, depth);
      var or := tokens.Pop();
      ghost var rest := tokens.items;
      r := EvaluateTerm(tokens, depth, limit);
      if r.Failure? { return; }
      var term := r.value;
      if Compatible in {result, term} {
        result := Compatible;
      } else if Unknown in {result, term} {
        result := Unknown;
      }
      e := Alt(e, or, ParseTerm(rest).value.0);
    }
    r := Success(result);
  }

  method EvaluateTerm(tokens: TokenList, ghost depth: nat, ghost limit: nat) returns (r: Evaluation)
    requires DeepestFrom(tokens.items, depth) <= limit
    modifies tokens
    ensures match ParseTerm(old(tokens.items))
            case None => r == Failure(SpdxSyntaxError)
            case Some((t, rest)) => r == Success(TermVerdict(t)) && tokens.items == rest
    decreases |tokens.items|, 1
  {
    ghost var start := tokens.items;
    r := EvaluateOperand(tokens, depth, limit);
    if r.Failure? { return; }
    var result := r.value;
    ghost var t := Single(ParseOperand(start).value.0);
    OperandIsSound(start);
    while tokens.items != [] && KindOf(tokens.items[0]) == And
      invariant ParseTerm(start) == ParseBoths(t, tokens.items)
      invariant WfTerm(t) && YieldTerm(t) + tokens.items == start
      invariant result == TermVerdict(t)
      decreases |tokens.items|
    {
      BothStep(start, t, tokens.items, depth);
      var and := tokens.Pop();
      ghost var rest := tokens.items;
      r := EvaluateOperand(tokens, depth, limit);
      if r.Failure? { return; }
      var operand := r.value;
      if Incompatible in {result, operand} {
        result := Incompatible;
      } else if Unknown in {result, operand} {
        result := Unknown;
      }
      t := Both(t, and, ParseOperand(rest).value.0);
    }
    r := Success(result);
  }

  method EvaluateOperand(tokens: TokenList, ghost depth: nat, ghost limit: nat) returns (r: Evaluation)
    requires DeepestFrom(tokens.items, depth) <= limit
    modifies tokens
    ensures match ParseOperand(old(tokens.items))
            case None => r == Failure(SpdxSyntaxError)
            case Some((o, rest)) => r == Success(OperandVerdict(o)) && tokens.items == rest
    decreases |tokens.items|, 0
  {
    if tokens.items == [] || IsOperator(tokens.items[0]) {
      return Failure(SpdxSyntaxError);
    }
    if KindOf(tokens.items[0]) == Open {
      var _ := tokens.Pop();
      r := EvaluateTokens(tokens, depth + 1, limit);
      if r.Failure? { return; }
      if tokens.items == [] {
        return Failure(SpdxSyntaxError);
      }
      var close := tokens.Pop();
      return if KindOf(close) == Close then r else Failure(SpdxSyntaxError);
    }
    var identifier := tokens.Pop();
    if tokens.items != [] && KindOf(tokens.items[0]) == With {
      var _ := tokens.Pop();
      if tokens.items == [] || IsOperator(tokens.items[0]) {
        return Failure(SpdxSyntaxError);
      }
      var exception := tokens.Pop();
      if IsCopyleft(Upper(exception)) {
        return Success(Incompatible);
      }
    }
    r := Success(LicenseVerdict(identifier));
  }

  lemma PlainVerdict(tokens: seq<Token>, e: Expr)
    requires IsParseOf(e, tokens) && PlainExpr(e)
    ensures DeepestFrom(tokens, 0) == NestingOfExpr(e)
    ensures ExprVerdict(e) == Compatible <==> AcceptedExpr(e)
    ensures ExprVerdict(e) == Incompatible <==> RefusedExpr(e)
    ensures !(AcceptedExpr(e) && RefusedExpr(e))
  {
    ExprNesting(e, [], 0);
    assert YieldExpr(e) + [] == tokens;
    ExprInWords(e);
  }

  lemma OneOperand(o: Operand)
    requires WfOperand(o)
    ensures var e := One(Single(o));
            && IsParseOf(e, YieldOperand(o)) && (PlainExpr(e) <==> PlainOperand(o))
            && NestingOfExpr(e) == NestingOfOperand(o)
            && (AcceptedExpr(e) <==> AcceptedOperand(o)) && (RefusedExpr(e) <==> RefusedOperand(o))
  {
    var t := Single(o);
    assert WfTerm(t) && YieldTerm(t) == YieldOperand(o) && NestingOfTerm(t) == NestingOfOperand(o);
    assert AcceptedTerm(t) <==> AcceptedOperand(o);
    assert RefusedTerm(t) <==> RefusedOperand(o);
    assert PlainTerm(t) <==> PlainOperand(o);
  }

  lemma OneWord(id: Token)
    requires Names(id)
    ensures var e := One(Single(License(id)));
            && IsParseOf(e, [id]) && PlainExpr(e) && NestingOfExpr(e) == 0
            && (AcceptedExpr(e) <==> Listed(id)) && !RefusedExpr(e)
  {
    hide Upper, Listed;
    OneOperand(License(id));
  }

  lemma OneException(id: Token, with: Token, exception: Token)
    requires Names(id) && Upper(with) == "WITH" && Names(exception)
    ensures var e := One(Single(Excepted(id, with, exception)));
            && IsParseOf(e, [id, with, exception]) && PlainExpr(e) && NestingOfExpr(e) == 0
            && (AcceptedExpr(e) <==> Listed(id) && !RefusedException(exception))
            && (RefusedExpr(e) <==> RefusedException(exception))
  {
    hide Upper, Listed, RefusedException;
    OneOperand(Excepted(id, with, exception));
  }

  method CheckTokens(tokens: seq<Token>) returns (v: Verdict)
    ensures DeepestFrom(tokens, 0) > MAX_SPDX_NESTING ==> v == Incompatible
    ensures DeepestFrom(tokens, 0) <= MAX_SPDX_NESTING ==>
              && (forall e: Expr | IsParseOf(e, tokens) :: v == ExprVerdict(e))
              && ((forall e: Expr :: !IsParseOf(e, tokens)) ==> v == Unknown)
  {
    if tokens == [] {
      forall e: Expr ensures !IsParseOf(e, tokens) { ParseTreeIsUnique(tokens, e); }
      return Unknown;
    }
    var deepest := MaxGroupDepth(tokens);
    if deepest > MAX_SPDX_NESTING {
      return Incompatible;
    }
    var remaining := new TokenList(tokens);
    var r := EvaluateTokens(remaining, 0, deepest);
    if r.Success? && remaining.items != [] {
      r := Failure(SpdxSyntaxError);
    }
    v := if r.Success? then r.value else Unknown;
    forall e: Expr | IsParseOf(e, tokens) ensures v == ExprVerdict(e) { ParseTreeIsUnique(tokens, e); }
    if r.Success? {
      ParseTreeIsUnique(tokens, ParseAll(tokens).value);
    }
  }

  /** Check a tokenised license expression; the tokens are those the source's regex finds. */
  method EvaluateExpression(tokens: seq<Token>) returns (v: Verdict)
    ensures DeepestFrom(tokens, 0) > 10 ==> v == Incompatible
    ensures DeepestFrom(tokens, 0) <= 10 ==>
              && (forall e: Expr | IsParseOf(e, tokens) :: v == ExprVerdict(e))
              && ((forall e: Expr :: !IsParseOf(e, tokens)) ==> v == Unknown)
    ensures forall e: Expr | IsParseOf(e, tokens) && PlainExpr(e) ::
              && (v == Compatible <==> NestingOfExpr(e) <= 10 && AcceptedExpr(e))
              && (v == Incompatible <==> NestingOfExpr(e) > 10 || RefusedExpr(e))
    ensures |tokens| == 1 && Names(tokens[0]) ==> v == if Listed(tokens[0]) then Compatible else Unknown
    ensures |tokens| == 3 && Names(tokens[0]) && Upper(tokens[1]) == "WITH" && Names(tokens[2]) ==>
              && (v == Incompatible <==> RefusedException(tokens[2]))
              && (v == Compatible <==> Listed(tokens[0]) && !RefusedException(tokens[2]))
  {
    hide AcceptedExpr, RefusedExpr, PlainExpr, NestingOfExpr, IsParseOf, KindOf, Upper, Listed, RefusedException;
    v := CheckTokens(tokens);
    forall e: Expr | IsParseOf(e, tokens) && PlainExpr(e)
      ensures v == Compatible <==> NestingOfExpr(e) <= 10 && AcceptedExpr(e)
      ensures v == Incompatible <==> NestingOfExpr(e) > 10 || RefusedExpr(e)
    {
      PlainVerdict(tokens, e);
    }
    if |tokens| == 1 && Names(tokens[0]) {
      OneWord(tokens[0]);
      assert tokens == [tokens[0]];
    }
    if |tokens| == 3 && Names(tokens[0]) && Upper(tokens[1]) == "WITH" && Names(tokens[2]) {
      OneException(tokens[0], tokens[1], tokens[2]);
      assert tokens == [tokens[0], tokens[1], tokens[2]];
    }
  }
}
