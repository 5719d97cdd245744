/**
  The integer expression evaluator: a recursive-descent compiler from tokens to postfix, and a stack machine.
 */
module Expressions {
  import opened Wrappers
  import opened IntOps

  const MAX_N: nat := 512

  datatype Token = Number(v: u64) | Variable(index: nat) | Add | Sub | Mul | Div | LParen | RParen

  predicate IsAdditive(t: Token) {
    t == Add || t == Sub
  }

  predicate IsMultiplicative(t: Token) {
    t == Mul || t == Div
  }

  predicate IsOperator(t: Token) {
    IsAdditive(t) || IsMultiplicative(t)
  }

  // ---- the grammar ----

  datatype Expr = Leaf(token: Token) | Binary(op: Token, left: Expr, right: Expr)

  /** Operators of one precedence group to the right: a - b - c is a - (b - c). */
  ghost predicate IsExpr(ts: seq<Token>, e: Expr)
    decreases |ts|, 2
  {
    IsTerm(ts, e) ||
    (e.Binary? && IsAdditive(e.op)
     && exists k :: 0 <= k < |ts| && ts[k] == e.op && IsTerm(ts[..k], e.left) && IsExpr(ts[k + 1..], e.right))
  }

  ghost predicate IsTerm(ts: seq<Token>, e: Expr)
    decreases |ts|, 1
  {
    IsFactor(ts, e) ||
    (e.Binary? && IsMultiplicative(e.op)
     && exists k :: 0 <= k < |ts| && ts[k] == e.op && IsFactor(ts[..k], e.left) && IsTerm(ts[k + 1..], e.right))
  }

  ghost predicate IsFactor(ts: seq<Token>, e: Expr)
    decreases |ts|, 0
  {
    || (|ts| == 1 && (ts[0].Number? || ts[0].Variable?) && e == Leaf(ts[0]))
    || (|ts| >= 2 && ts[0] == LParen && ts[|ts| - 1] == RParen && IsExpr(ts[1..|ts| - 1], e))
  }

  // ---- postfix ----

  function Postfix(e: Expr): seq<Token> {
    match e
    case Leaf(t) => [t]
    case Binary(op, l, r) => Postfix(l) + Postfix(r) + [op]
  }

  // ---- parsing as a function of the whole token array ----

  /** What parsing an expression at token i yields: the tree and the next token. It looks at the whole array. */
  function ParseExpr(ts: seq<Token>, i: nat): (r: Option<(Expr, nat)>)
    requires i <= |ts|
    ensures r.Some? ==> i < r.value.1 <= |ts|
    decreases |ts| - i, 2
  {
    match ParseTerm(ts, i)
    case None => None
    case Some((l, j)) =>
      if j < |ts| && IsAdditive(ts[j]) then
        match ParseExpr(ts, j + 1)
        case None => None
        case Some((r, k)) => Some((Binary(ts[j], l, r), k))
      else Some((l, j))
  }

  function ParseTerm(ts: seq<Token>, i: nat): (r: Option<(Expr, nat)>)
    requires i <= |ts|
    ensures r.Some? ==> i < r.value.1 <= |ts|
    decreases |ts| - i, 1
  {
    match ParseFactor(ts, i)
    case None => None
    case Some((l, j)) =>
      if j < |ts| && IsMultiplicative(ts[j]) then
        match ParseTerm(ts, j + 1)
        case None => None
        case Some((r, k)) => Some((Binary(ts[j], l, r), k))
      else Some((l, j))
  }

  function ParseFactor(ts: seq<Token>, i: nat): (r: Option<(Expr, nat)>)
    requires i <= |ts|
    ensures r.Some? ==> i < r.value.1 <= |ts|
    decreases |ts| - i, 0
  {
    if i == |ts| then None
    else if ts[i].Number? || ts[i].Variable? then Some((Leaf(ts[i]), i + 1))
    else if ts[i] != LParen then None
    else
      match ParseExpr(ts, i + 1)
      case None => None
      case Some((e, j)) => if j < |ts| && ts[j] == RParen then Some((e, j + 1)) else None
  }

  lemma Pieces<T>(ts: seq<T>, i: nat, j: nat, k: nat)
    requires i <= j < k <= |ts|
    ensures ts[i..k][..j - i] == ts[i..j] && ts[i..k][j - i + 1..] == ts[j + 1..k] && ts[i..k][j - i] == ts[j]
  {
    Subslice(ts, i, k, 0, j - i);
    Subslice(ts, i, k, j - i + 1, k - i);
    assert ts[i..k][..j - i] == ts[i..k][0..j - i] && ts[i..k][j - i + 1..] == ts[i..k][j - i + 1..k - i];
  }

  lemma Subslice<T>(ts: seq<T>, i: nat, j: nat, a: nat, b: nat)
    requires i <= j <= |ts| && a <= b <= j - i
    ensures ts[i..j][a..b] == ts[i + a..i + b]
  {
    var x, y := ts[i..j][a..b], ts[i + a..i + b];
    forall k | 0 <= k < |x| ensures x[k] == y[k] {
    }
    assert x == y;
  }

  // ---- parsing yields what the grammar says ----

  lemma {:induction false} ParsedExpr(ts: seq<Token>, i: nat)
    requires i <= |ts|
    ensures match ParseExpr(ts, i)
      case None => true
      case Some((e, j)) => IsExpr(ts[i..j], e) && |Postfix(e)| <= j - i
    decreases |ts| - i, 2
  {
    ParsedTerm(ts, i);
    match ParseTerm(ts, i)
    case None =>
    case Some((l, j)) =>
      if j < |ts| && IsAdditive(ts[j]) {
        ParsedExpr(ts, j + 1);
        match ParseExpr(ts, j + 1)
        case None =>
        case Some((r, k)) =>
          hide ParseExpr, ParseTerm, ParseFactor;
          Pieces(ts, i, j, k);
      }
  }

  lemma {:induction false} ParsedTerm(ts: seq<Token>, i: nat)
    requires i <= |ts|
    ensures match ParseTerm(ts, i)
      case None => true
      case Some((e, j)) => IsTerm(ts[i..j], e) && |Postfix(e)| <= j - i
    decreases |ts| - i, 1
  {
    ParsedFactor(ts, i);
    match ParseFactor(ts, i)
    case None =>
    case Some((l, j)) =>
      if j < |ts| && IsMultiplicative(ts[j]) {
        ParsedTerm(ts, j + 1);
        match ParseTerm(ts, j + 1)
        case None =>
        case Some((r, k)) =>
          hide ParseExpr, ParseTerm, ParseFactor;
          Pieces(ts, i, j, k);
      }
  }

  lemma {:induction false} ParsedFactor(ts: seq<Token>, i: nat)
    requires i <= |ts|
    ensures match ParseFactor(ts, i)
      case None => true
      case Some((e, j)) => IsFactor(ts[i..j], e) && |Postfix(e)| <= j - i
    decreases |ts| - i, 0
  {
    if i < |ts| && ts[i] == LParen {
      ParsedExpr(ts, i + 1);
      match ParseExpr(ts, i + 1)
      case None =>
      case Some((e, j)) =>
        if j < |ts| && ts[j] == RParen {
          var part := ts[i..j + 1];
          Subslice(ts, i, j + 1, 1, j - i);
        }
    }
  }

  // ---- and all that the grammar says is parsed ----

  /** The tokens of an expression, wherever they stand, parse to it, if no operator follows. */
  lemma {:induction false} ExprParses(ts: seq<Token>, i: nat, j: nat, e: Expr)
    requires i <= j <= |ts| && IsExpr(ts[i..j], e) && (j < |ts| ==> !IsOperator(ts[j]))
    ensures ParseExpr(ts, i) == Some((e, j))
    decreases j - i, 2
  {
    hide IsTerm, ParseTerm;
    var part := ts[i..j];
    if IsTerm(part, e) {
      TermParses(ts, i, j, e);
    } else {
      var k :| 0 <= k < |part| && part[k] == e.op && IsTerm(part[..k], e.left) && IsExpr(part[k + 1..], e.right);
      Pieces(ts, i, i + k, j);
      TermParses(ts, i, i + k, e.left);
      ExprParses(ts, i + k + 1, j, e.right);
      ChainedExpr(ts, i, i + k, j, e);
    }
  }

  lemma ChainedExpr(ts: seq<Token>, i: nat, m: nat, j: nat, e: Expr)
    requires i < m < j <= |ts| && e.Binary? && IsAdditive(ts[m]) && e.op == ts[m]
    requires ParseTerm(ts, i) == Some((e.left, m)) && ParseExpr(ts, m + 1) == Some((e.right, j))
    ensures ParseExpr(ts, i) == Some((e, j))
  {
    hide ParseTerm;
  }

  lemma {:induction false} TermParses(ts: seq<Token>, i: nat, j: nat, e: Expr)
    requires i <= j <= |ts| && IsTerm(ts[i..j], e) && (j < |ts| ==> !IsMultiplicative(ts[j]))
    ensures ParseTerm(ts, i) == Some((e, j))
    decreases j - i, 1
  {
    hide IsExpr, IsFactor, ParseExpr, ParseFactor;
    var part := ts[i..j];
    if IsFactor(part, e) {
      FactorParses(ts, i, j, e);
    } else {
      var k :| 0 <= k < |part| && part[k] == e.op && IsFactor(part[..k], e.left) && IsTerm(part[k + 1..], e.right);
      Pieces(ts, i, i + k, j);
      FactorParses(ts, i, i + k, e.left);
      TermParses(ts, i + k + 1, j, e.right);
      ChainedTerm(ts, i, i + k, j, e);
    }
  }

  lemma ChainedTerm(ts: seq<Token>, i: nat, m: nat, j: nat, e: Expr)
    requires i < m < j <= |ts| && e.Binary? && IsMultiplicative(ts[m]) && e.op == ts[m]
    requires ParseFactor(ts, i) == Some((e.left, m)) && ParseTerm(ts, m + 1) == Some((e.right, j))
    ensures ParseTerm(ts, i) == Some((e, j))
  {
    hide ParseFactor;
  }

  lemma {:induction false} FactorParses(ts: seq<Token>, i: nat, j: nat, e: Expr)
    requires i <= j <= |ts| && IsFactor(ts[i..j], e)
    ensures ParseFactor(ts, i) == Some((e, j))
    decreases j - i, 0
  {
    var part := ts[i..j];
    if |part| >= 2 && part[0] == LParen && part[|part| - 1] == RParen && IsExpr(part[1..|part| - 1], e) {
      Subslice(ts, i, j, 1, j - i - 1);
      ExprParses(ts, i + 1, j - 1, e);
    }
  }

  /** What follows a parsed expression is no operator. */
  lemma {:induction false} ExprEnds(ts: seq<Token>, i: nat)
    requires i <= |ts| && ParseExpr(ts, i).Some?
    ensures var j := ParseExpr(ts, i).value.1; j < |ts| ==> !IsOperator(ts[j])
    decreases |ts| - i
  {
    TermEnds(ts, i);
    var j := ParseTerm(ts, i).value.1;
    if j < |ts| && IsAdditive(ts[j]) { ExprEnds(ts, j + 1); }
  }

  lemma {:induction false} TermEnds(ts: seq<Token>, i: nat)
    requires i <= |ts| && ParseTerm(ts, i).Some?
    ensures var j := ParseTerm(ts, i).value.1; j < |ts| ==> !IsMultiplicative(ts[j])
    decreases |ts| - i
  {
    var j := ParseFactor(ts, i).value.1;
    if j < |ts| && IsMultiplicative(ts[j]) { TermEnds(ts, j + 1); }
  }

  /**
    The first n of the tokens in the array are accepted exactly when they make up an expression and the token
    after them, left over in the array from before, does not happen to be an operator.
   */
  lemma AcceptedIff(ts: seq<Token>, n: nat)
    requires n <= |ts|
    ensures (ParseExpr(ts, 0).Some? && ParseExpr(ts, 0).value.1 == n) <==> ((exists e :: IsExpr(ts[..n], e)) && (n < |ts| ==> !IsOperator(ts[n])))
  {
    assert ts[..n] == ts[0..n];
    if ParseExpr(ts, 0).Some? && ParseExpr(ts, 0).value.1 == n {
      ParsedExpr(ts, 0);
      ExprEnds(ts, 0);
      assert IsExpr(ts[..n], ParseExpr(ts, 0).value.0);
    }
    hide IsExpr, ParseExpr;
    if (exists e :: IsExpr(ts[..n], e)) && (n < |ts| ==> !IsOperator(ts[n])) {
      var e :| IsExpr(ts[..n], e);
      ExprParses(ts, 0, n, e);
    }
  }

  /** One array of left-over tokens that makes the expression "1" fail. */
  lemma LeftOverOperatorRefuses()
    ensures var ts := [Number(1), Add];
      IsExpr(ts[..1], Leaf(Number(1))) && !(ParseExpr(ts, 0).Some? && ParseExpr(ts, 0).value.1 == 1)
  {
    var ts := [Number(1), Add];
    assert ParseTerm(ts, 0) == Some((Leaf(Number(1)), 1));
    assert ts[..1] == [Number(1)];
  }
}
