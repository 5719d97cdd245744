/**
  The compiler and the evaluator as they run: a context with a token array, a current token, an output stack
  and an error flag; and a stack machine over the output.
 */
module ExpressionMachine {
  import opened Wrappers
  import opened IntOps
  import opened Expressions

  // ---- compiling ----

  class Compiler {
    const tokens: seq<Token>
    const n: nat
    var i: nat
    var stack: seq<Token>
    var failed: bool

    /** The array has 512 tokens; the first n are the expression's, the others are left over. */
    constructor (tokens: seq<Token>, n: nat)
      requires |tokens| == MAX_N && n <= MAX_N
      ensures this.tokens == tokens && this.n == n && i == 0 && stack == [] && !failed
    {
      this.tokens, this.n, i, stack, failed := tokens, n, 0, [], false;
    }

    ghost predicate Valid()
      reads this
    {
      |tokens| == MAX_N && n <= MAX_N && i <= MAX_N && |stack| <= MAX_N
    }

    /** The output so far is no longer than the tokens read. */
    ghost predicate Running()
      reads this
    {
      Valid() && !failed && |stack| <= i
    }

    /** Parsing gave the outcome r: its postfix form was added to the output, or an error was set. */
    ghost predicate Yields(r: Option<(Expr, nat)>, before: seq<Token>)
      reads this
    {
      match r
      case None => failed
      case Some((e, j)) => !failed && i == j && stack == before + Postfix(e)
    }

    method Push(t: Token)
      requires Valid()
      modifies this`stack, this`failed
      ensures Valid() && (|old(stack)| < MAX_N ==> stack == old(stack) + [t] && failed == old(failed))
      ensures old(failed) ==> failed
    {
      if |stack| == MAX_N {
        failed := true;
        return;
      }
      stack := stack + [t];
    }

    method CompileExpr()
      requires Running()
      modifies this`i, this`stack, this`failed
      ensures Valid() && Yields(ParseExpr(tokens, old(i)), old(stack))
      ensures !failed ==> Running() && i > old(i)
      decreases MAX_N - i, 5
    {
      hide ParseExpr, ParseTerm, IsExpr, IsTerm, Postfix;
      ExprUnfolds(tokens, i);
      CompileTerm();
      if failed {
        return;
      }
      CompileExprRest();
    }

    method CompileExprRest()
      requires Running()
      modifies this`i, this`stack, this`failed
      ensures Valid()
      ensures old(i) < MAX_N && IsAdditive(tokens[old(i)]) ==>
        match ParseExpr(tokens, old(i) + 1)
        case None => failed
        case Some((e, j)) => !failed && i == j && stack == old(stack) + Postfix(e) + [tokens[old(i)]]
      ensures !(old(i) < MAX_N && IsAdditive(tokens[old(i)])) ==> !failed && i == old(i) && stack == old(stack)
      ensures !failed ==> Running()
      decreases MAX_N - i, 4
    {
      if i < MAX_N && IsAdditive(tokens[i]) {
        var op := i;
        i := i + 1;
        hide ParseExpr, ParseTerm, IsExpr, IsTerm, Postfix;
        ExprUnfolds(tokens, i);
        CompileTerm();
        if !failed {
          CompileExprRest();
        }
        Push(tokens[op]);
      }
    }

    method CompileTerm()
      requires Running()
      modifies this`i, this`stack, this`failed
      ensures Valid() && Yields(ParseTerm(tokens, old(i)), old(stack))
      ensures !failed ==> Running() && i > old(i)
      decreases MAX_N - i, 3
    {
      hide ParseTerm, ParseFactor, IsTerm, IsFactor, Postfix;
      TermUnfolds(tokens, i);
      CompileFactor();
      if failed {
        return;
      }
      CompileTermRest();
    }

    method CompileTermRest()
      requires Running()
      modifies this`i, this`stack, this`failed
      ensures Valid()
      ensures old(i) < MAX_N && IsMultiplicative(tokens[old(i)]) ==>
        match ParseTerm(tokens, old(i) + 1)
        case None => failed
        case Some((e, j)) => !failed && i == j && stack == old(stack) + Postfix(e) + [tokens[old(i)]]
      ensures !(old(i) < MAX_N && IsMultiplicative(tokens[old(i)])) ==> !failed && i == old(i) && stack == old(stack)
      ensures !failed ==> Running()
      decreases MAX_N - i, 2
    {
      if i < MAX_N && IsMultiplicative(tokens[i]) {
        var op := i;
        i := i + 1;
        hide ParseTerm, ParseFactor, IsTerm, IsFactor, Postfix;
        TermUnfolds(tokens, i);
        CompileFactor();
        if !failed {
          CompileTermRest();
        }
        Push(tokens[op]);
      }
    }

    method CompileFactor()
      requires Running()
      modifies this`i, this`stack, this`failed
      ensures Valid() && Yields(ParseFactor(tokens, old(i)), old(stack))
      ensures !failed ==> Running() && i > old(i)
      decreases MAX_N - i, 1
    {
      if i >= MAX_N {
        failed := true;
        return;
      }
      if tokens[i].Number? || tokens[i].Variable? {
        Push(tokens[i]);
        i := i + 1;
        return;
      }
      if tokens[i] != LParen {
        failed := true;
        return;
      }
      i := i + 1;
      ParsedExpr(tokens, i);
      CompileExpr();
      if failed {
        return;
      }
      if i >= MAX_N || tokens[i] != RParen {
        failed := true;
        return;
      }
      i := i + 1;
    }

    /**
      Succeeds exactly when the n tokens make up an expression and the left-over token after them, if any, is
      no operator; the output is then the expression in postfix.
     */
    method Compile() returns (ok: bool, ghost e: Expr)
      requires Running() && i == 0 && stack == []
      modifies this`i, this`stack, this`failed
      ensures ok <==> n > 0 && (exists x :: IsExpr(tokens[..n], x)) && (n < MAX_N ==> !IsOperator(tokens[n]))
      ensures ok ==> IsExpr(tokens[..n], e) && stack == Postfix(e) && |stack| <= n
    {
      e := Leaf(Add);
      if n == 0 {
        return false, e;
      }
      AcceptedIff(tokens, n);
      ParsedExpr(tokens, 0);
      hide IsExpr, ParseExpr, Postfix;
      CompileExpr();
      ok := !failed && i == n;
      if ok {
        e := ParseExpr(tokens, 0).value.0;
        assert tokens[..n] == tokens[0..n];
      }
    }
  }

  /** An expression is a term, and perhaps an operator and another expression; its postfix form likewise. */
  lemma ExprUnfolds(ts: seq<Token>, i: nat)
    requires i <= |ts|
    ensures match ParseTerm(ts, i)
      case None => ParseExpr(ts, i) == None
      case Some((l, j)) =>
        i < j <= |ts| && |Postfix(l)| <= j - i &&
        if j < |ts| && IsAdditive(ts[j]) then
          match ParseExpr(ts, j + 1)
          case None => ParseExpr(ts, i) == None
          case Some((r, k)) =>
            var e := Binary(ts[j], l, r);
            ParseExpr(ts, i) == Some((e, k)) && Postfix(e) == Postfix(l) + Postfix(r) + [ts[j]] && |Postfix(e)| <= k - i
        else ParseExpr(ts, i) == Some((l, j))
  {
    ParsedTerm(ts, i);
    ParsedExpr(ts, i);
    hide IsTerm, IsExpr, ParseTerm;
  }

  lemma TermUnfolds(ts: seq<Token>, i: nat)
    requires i <= |ts|
    ensures match ParseFactor(ts, i)
      case None => ParseTerm(ts, i) == None
      case Some((l, j)) =>
        i < j <= |ts| && |Postfix(l)| <= j - i &&
        if j < |ts| && IsMultiplicative(ts[j]) then
          match ParseTerm(ts, j + 1)
          case None => ParseTerm(ts, i) == None
          case Some((r, k)) =>
            var e := Binary(ts[j], l, r);
            ParseTerm(ts, i) == Some((e, k)) && Postfix(e) == Postfix(l) + Postfix(r) + [ts[j]] && |Postfix(e)| <= k - i
        else ParseTerm(ts, i) == Some((l, j))
  {
    ParsedFactor(ts, i);
    ParsedTerm(ts, i);
    hide IsTerm, IsFactor, ParseFactor;
  }

  // ---- evaluating ----

  datatype Outcome = Result(x: IntOp) | NotSupported | Underflow | DivisionByZero

  /** One operator, on the value that was on top and the one below it. */
  function Apply(op: Token, top: IntOp, below: IntOp): Outcome
    requires IsOperator(op)
  {
    match op
    case Sub =>
      if below.value > top.value then Underflow
      else Result(IntOp(top.overflow || below.overflow, top.value - below.value))
    case Add => Result(Plus(top, below))
    case Div =>
      if below.value == 0 then DivisionByZero
      else
        QuotientFits(top.value, below.value);
        Result(IntOp(top.overflow || below.overflow, top.value / below.value))
    case Mul => Result(Times(top, below))
  }

  /** An expression whose inner nodes are operators and whose leaves are numbers or variables. */
  predicate Proper(e: Expr) {
    match e
    case Leaf(t) => t.Number? || t.Variable?
    case Binary(op, l, r) => IsOperator(op) && Proper(l) && Proper(r)
  }

  lemma {:induction false} GrammarIsProper(ts: seq<Token>, e: Expr)
    ensures IsExpr(ts, e) || IsTerm(ts, e) || IsFactor(ts, e) ==> Proper(e)
    decreases |ts|, e
  {
    if IsExpr(ts, e) && !IsTerm(ts, e) {
      var k :| 0 <= k < |ts| && ts[k] == e.op && IsTerm(ts[..k], e.left) && IsExpr(ts[k + 1..], e.right);
      GrammarIsProper(ts[..k], e.left);
      GrammarIsProper(ts[k + 1..], e.right);
    } else if IsTerm(ts, e) && !IsFactor(ts, e) {
      var k :| 0 <= k < |ts| && ts[k] == e.op && IsFactor(ts[..k], e.left) && IsTerm(ts[k + 1..], e.right);
      GrammarIsProper(ts[..k], e.left);
      GrammarIsProper(ts[k + 1..], e.right);
    } else if IsFactor(ts, e) && |ts| >= 2 {
      GrammarIsProper(ts[1..|ts| - 1], e);
    }
  }

  /** What an expression evaluates to: left operand first, the right operand is the one on top. */
  function Evaluate(e: Expr): Outcome
    requires Proper(e)
  {
    match e
    case Leaf(t) => if t.Number? then Result(IntOp(false, t.v)) else NotSupported
    case Binary(op, l, r) =>
      match Evaluate(l)
      case Result(below) =>
        (match Evaluate(r)
         case Result(top) => Apply(op, top, below)
         case other => other)
      case other => other
  }

  /** The stack after running a program, or the error that stopped it; Stuck if an operator finds too few numbers. */
  datatype RunResult = Done(stack: seq<IntOp>) | Failed(why: Outcome) | Stuck

  function Run(prog: seq<Token>, stack: seq<IntOp>): RunResult {
    if prog == [] then Done(stack)
    else if prog[0].Number? then Run(prog[1..], stack + [IntOp(false, prog[0].v)])
    else if prog[0].Variable? then Failed(NotSupported)
    else if !IsOperator(prog[0]) || |stack| < 2 then Stuck
    else
      match Apply(prog[0], stack[|stack| - 1], stack[|stack| - 2])
      case Result(x) => Run(prog[1..], stack[..|stack| - 2] + [x])
      case error => Failed(error)
  }

  /** Running the postfix form of e pushes what e evaluates to: no operator ever finds too few numbers. */
  lemma {:induction false} PostfixRuns(e: Expr, rest: seq<Token>, stack: seq<IntOp>)
    requires Proper(e)
    ensures Run(Postfix(e) + rest, stack) ==
      match Evaluate(e)
      case Result(x) => Run(rest, stack + [x])
      case error => Failed(error)
    decreases e
  {
    match e
    case Leaf(t) =>
      assert (Postfix(e) + rest)[1..] == rest;
    case Binary(op, l, r) =>
      assert Postfix(e) + rest == Postfix(l) + (Postfix(r) + ([op] + rest));
      PostfixRuns(l, Postfix(r) + ([op] + rest), stack);
      match Evaluate(l)
      case Result(below) =>
        PostfixRuns(r, [op] + rest, stack + [below]);
        match Evaluate(r) {
          case Result(top) =>
            var s := stack + [below] + [top];
            assert ([op] + rest)[1..] == rest && s[..|s| - 2] == stack;
          case _ =>
        }
      case _ =>
  }

  datatype EvalResult = Value(v: u64) | EvalError(why: Outcome) | Overflow

  /** The program of a compiled expression, run on a stack. */
  method Eval(prog: seq<Token>, ghost e: Expr) returns (r: EvalResult)
    requires Proper(e) && prog == Postfix(e)
    ensures r == match Evaluate(e) case Result(x) => (if x.overflow then Overflow else Value(x.value)) case error => EvalError(error)
  {
    PostfixRuns(e, [], []);
    assert prog + [] == prog;
    var stack: seq<IntOp> := [];
    for i := 0 to |prog|
      invariant Run(prog[i..], stack) == Run(prog, []) && Run(prog, []) != Stuck
    {
      assert prog[i..][1..] == prog[i + 1..];
      var t := prog[i];
      if t.Number? {
        stack := stack + [IntOp(false, t.v)];
      } else if t.Variable? {
        return EvalError(NotSupported);
      } else {
        assert IsOperator(t) && |stack| >= 2;
        var x := Apply(t, stack[|stack| - 1], stack[|stack| - 2]);
        if !x.Result? {
          return EvalError(x);
        }
        stack := stack[..|stack| - 2] + [x.x];
      }
    }
    assert prog[|prog|..] == [] && |stack| == 1;
    r := if stack[0].overflow then Overflow else Value(stack[0].value);
  }

  // ---- what the operators compute ----

  /** v is what op makes of two natural numbers: for / the q with q * below <= top < (q + 1) * below. */
  predicate Computes(op: Token, top: nat, below: nat, v: nat) {
    match op
    case Add => v == top + below
    case Mul => v == top * below
    case Sub => v + below == top
    case Div => below > 0 && v * below <= top < (v + 1) * below
    case _ => false
  }

  lemma QuotientIs(top: nat, below: nat, v: nat)
    requires below > 0
    ensures v == top / below <==> v * below <= top < (v + 1) * below
  {
    var q, r := top / below, top % below;
    assert top == q * below + r;
    assert (q + 1) * below == q * below + below;
    if v < q { Grows(below, v + 1, q); }
    if v > q { Grows(below, q + 1, v); }
  }

  /** Subtraction fails exactly when the number below is larger; division exactly when it is zero. A flag stays. */
  lemma OperatorFails(op: Token, top: IntOp, below: IntOp)
    requires IsOperator(op)
    ensures Apply(op, top, below) == Underflow <==> op == Sub && below.value > top.value
    ensures Apply(op, top, below) == DivisionByZero <==> op == Div && below.value == 0
    ensures Apply(op, top, below) != NotSupported
    ensures Apply(op, top, below).Result? && (top.overflow || below.overflow) ==> Apply(op, top, below).x.overflow
  {
  }

  /** Differences and quotients are right whether or not an operand is flagged, and flagged just when one is. */
  lemma DifferenceAndQuotient(op: Token, top: IntOp, below: IntOp)
    requires op == Sub || op == Div
    ensures Apply(op, top, below).Result? ==>
      var x := Apply(op, top, below).x;
      Computes(op, top.value, below.value, x.value) && x.overflow == (top.overflow || below.overflow)
  {
    if op == Div && below.value > 0 {
      QuotientFits(top.value, below.value);
      QuotientIs(top.value, below.value, top.value / below.value);
    }
  }

  /** On operands that are not flagged, an operator gives v without a flag exactly if v is right and fits 64 bits. */
  lemma OperatorIsExact(op: Token, top: IntOp, below: IntOp, v: nat)
    requires IsOperator(op) && !top.overflow && !below.overflow
    ensures (v <= MAX_U64 && Apply(op, top, below) == Result(IntOp(false, v))) <==> v <= MAX_U64 && Computes(op, top.value, below.value, v)
  {
    match op {
      case Add => PlusIsExact(top, below);
      case Mul => TimesIsExact(top, below);
      case Div =>
        if below.value > 0 {
          QuotientFits(top.value, below.value);
          QuotientIs(top.value, below.value, v);
        }
      case Sub =>
    }
    hide Times, Plus;
  }

  /** The exact meaning of an expression: v, with every number on the way a natural number of 64 bits. */
  ghost predicate Denotes(e: Expr, v: nat) {
    v <= MAX_U64 &&
    match e
    case Leaf(t) => t.Number? && t.v == v
    case Binary(op, l, r) => exists b: nat, t: nat :: Denotes(l, b) && Denotes(r, t) && Computes(op, t, b, v)
  }

  /** Evaluation gives v, without a flag, exactly for the expressions that denote v. */
  lemma {:induction false} EvaluatesIff(e: Expr, v: nat)
    requires Proper(e)
    ensures (v <= MAX_U64 && Evaluate(e) == Result(IntOp(false, v))) <==> Denotes(e, v)
    decreases e
  {
    if e.Binary? {
      if v <= MAX_U64 && Evaluate(e) == Result(IntOp(false, v)) { EvaluatedDenotes(e, v); }
      if Denotes(e, v) { DenotedEvaluates(e, v); }
    }
  }

  lemma {:induction false} EvaluatedDenotes(e: Expr, v: nat)
    requires e.Binary? && Proper(e) && v <= MAX_U64 && Evaluate(e) == Result(IntOp(false, v))
    ensures Denotes(e, v)
    decreases e, 0
  {
    var below, top := Evaluate(e.left).x, Evaluate(e.right).x;
    hide Apply, Computes;
    OperatorFails(e.op, top, below);
    EvaluatesIff(e.left, below.value);
    EvaluatesIff(e.right, top.value);
    OperatorIsExact(e.op, top, below, v);
    assert Denotes(e.left, below.value) && Denotes(e.right, top.value) && Computes(e.op, top.value, below.value, v);
  }

  lemma {:induction false} DenotedEvaluates(e: Expr, v: nat)
    requires e.Binary? && Proper(e) && Denotes(e, v)
    ensures v <= MAX_U64 && Evaluate(e) == Result(IntOp(false, v))
    decreases e, 0
  {
    var b: nat, t: nat :| Denotes(e.left, b) && Denotes(e.right, t) && Computes(e.op, t, b, v);
    hide Apply, Computes;
    EvaluatesIff(e.left, b);
    EvaluatesIff(e.right, t);
    OperatorIsExact(e.op, IntOp(false, t), IntOp(false, b), v);
  }

  /** So the stack machine returns v exactly for the programs of expressions that denote v, all four operators included. */
  lemma ValueIff(e: Expr, r: EvalResult, v: u64)
    requires Proper(e)
    requires r == match Evaluate(e) case Result(x) => (if x.overflow then Overflow else Value(x.value)) case error => EvalError(error)
    ensures r == Value(v) <==> Denotes(e, v)
  {
    EvaluatesIff(e, v);
    hide Denotes;
  }

  /** Two, divided into nine: the quotient of the number on top by the one below. */
  lemma TwoIntoNine()
    ensures Denotes(Binary(Div, Leaf(Number(2)), Leaf(Number(9))), 4)
  {
    assert Denotes(Leaf(Number(2)), 2) && Denotes(Leaf(Number(9)), 9) && Computes(Div, 9, 2, 4);
  }

  // ---- sums and products ----

  /** Numbers, + and * only. */
  predicate IsNatural(e: Expr) {
    match e
    case Leaf(t) => t.Number?
    case Binary(op, l, r) => (op == Add || op == Mul) && IsNatural(l) && IsNatural(r)
  }

  function ExactValue(e: Expr): nat
    requires IsNatural(e)
  {
    match e
    case Leaf(t) => t.v
    case Binary(op, l, r) => if op == Add then ExactValue(l) + ExactValue(r) else ExactValue(l) * ExactValue(r)
  }

  /** The exact value of every subexpression fits 64 bits. */
  predicate AllFit(e: Expr)
    requires IsNatural(e)
  {
    ExactValue(e) <= MAX_U64 && (e.Binary? ==> AllFit(e.left) && AllFit(e.right))
  }

  lemma {:induction false} NaturalIsExact(e: Expr)
    requires IsNatural(e)
    ensures Proper(e) && Evaluate(e).Result?
    ensures if AllFit(e) then Evaluate(e).x == IntOp(false, ExactValue(e)) else Evaluate(e).x.overflow
  {
    match e
    case Leaf(_) =>
    case Binary(op, l, r) =>
      NaturalIsExact(l);
      NaturalIsExact(r);
      var below, top := Evaluate(l).x, Evaluate(r).x;
      if AllFit(l) && AllFit(r) {
        PlusIsExact(top, below);
        TimesIsExact(top, below);
        assert top.value * below.value == below.value * top.value;
      }
      hide Times;
  }

  /**
    An expression of numbers, + and * evaluates to its exact natural value; it fails, with an overflow, just
    when some subexpression does not fit 64 bits.
   */
  lemma NaturalEvaluates(e: Expr, r: EvalResult)
    requires IsNatural(e) && Proper(e)
    requires r == match Evaluate(e) case Result(x) => (if x.overflow then Overflow else Value(x.value)) case error => EvalError(error)
    ensures if AllFit(e) then r == Value(ExactValue(e)) else r == Overflow
  {
    NaturalIsExact(e);
  }

  /** A difference of two expressions, as tokens. */
  lemma DifferenceParses(x: Token, rest: seq<Token>, inner: Expr)
    requires IsFactor([x], Leaf(x)) && IsExpr(rest, inner)
    ensures IsExpr([x, Sub] + rest, Binary(Sub, Leaf(x), inner))
  {
    var ts := [x, Sub] + rest;
    var e := Binary(Sub, Leaf(x), inner);
    assert ts[..1] == [x] && ts[2..] == rest && ts[1] == Sub;
    assert IsTerm(ts[..1], e.left) && IsExpr(ts[2..], e.right);
  }

  /** A chain of subtractions is taken from the right, and each difference the other way round. */
  lemma ChainedSubtraction(a: u64, b: u64, c: u64)
    requires b <= c && a <= c - b
    ensures var e := Binary(Sub, Leaf(Number(a)), Binary(Sub, Leaf(Number(b)), Leaf(Number(c))));
      IsExpr([Number(a), Sub, Number(b), Sub, Number(c)], e) && Proper(e) && Evaluate(e) == Result(IntOp(false, c - b - a))
  {
    var x, y, z := Number(a), Number(b), Number(c);
    var inner := Binary(Sub, Leaf(y), Leaf(z));
    NumberIsExpr(a);
    NumberIsExpr(b);
    NumberIsExpr(c);
    DifferenceParses(y, [z], Leaf(z));
    assert [y, Sub] + [z] == [y, Sub, z];
    DifferenceParses(x, [y, Sub, z], inner);
    assert [x, Sub] + [y, Sub, z] == [x, Sub, y, Sub, z];
    hide IsExpr, IsTerm, IsFactor;
    assert Proper(inner) && Evaluate(inner) == Result(IntOp(false, c - b));
    var e := Binary(Sub, Leaf(x), inner);
    assert Proper(e) && Evaluate(e) == Apply(Sub, IntOp(false, c - b), IntOp(false, a));
    assert e == Binary(Sub, Leaf(Number(a)), Binary(Sub, Leaf(Number(b)), Leaf(Number(c))));
  }

  lemma NumberIsExpr(n: u64)
    ensures IsFactor([Number(n)], Leaf(Number(n))) && IsExpr([Number(n)], Leaf(Number(n)))
  {
    assert IsTerm([Number(n)], Leaf(Number(n)));
  }

  // ---- what the grammar makes of operators and parentheses ----

  /** The tokens of an expression, with parentheses around every operation. */
  function Printed(e: Expr): seq<Token> {
    match e
    case Leaf(t) => [t]
    case Binary(op, l, r) => [LParen] + (Printed(l) + [op] + Printed(r)) + [RParen]
  }

  lemma FactorsCombine(xs: seq<Token>, l: Expr, op: Token, ys: seq<Token>, r: Expr)
    requires IsFactor(xs, l) && IsFactor(ys, r) && IsOperator(op)
    ensures IsExpr(xs + [op] + ys, Binary(op, l, r))
  {
    var ts, e := xs + [op] + ys, Binary(op, l, r);
    assert ts[..|xs|] == xs && ts[|xs|] == op && ts[|xs| + 1..] == ys;
    assert IsTerm(xs, l) && IsTerm(ys, r);
    hide IsFactor;
    if IsMultiplicative(op) {
      assert IsFactor(ts[..|xs|], e.left) && IsTerm(ts[|xs| + 1..], e.right);
      assert IsTerm(ts, e);
    } else {
      assert IsTerm(ts[..|xs|], e.left) && IsExpr(ts[|xs| + 1..], e.right);
    }
  }

  lemma InParentheses(ts: seq<Token>, e: Expr)
    requires IsExpr(ts, e)
    ensures IsFactor([LParen] + ts + [RParen], e)
  {
    var all := [LParen] + ts + [RParen];
    assert all[1..|all| - 1] == ts;
  }

  lemma {:induction false} PrintedIsFactor(e: Expr)
    requires Proper(e)
    ensures IsFactor(Printed(e), e)
  {
    if e.Binary? {
      PrintedIsFactor(e.left);
      PrintedIsFactor(e.right);
      FactorsCombine(Printed(e.left), e.left, e.op, Printed(e.right), e.right);
      InParentheses(Printed(e.left) + [e.op] + Printed(e.right), e);
    }
  }

  lemma FactorIsExpr(ts: seq<Token>, e: Expr)
    requires IsFactor(ts, e)
    ensures IsExpr(ts, e)
  {
    assert IsTerm(ts, e);
  }

  /** Printing, then parsing: every expression comes back, and nothing else has its tokens. */
  lemma PrintedParses(e: Expr, e': Expr)
    requires Proper(e)
    ensures ParseExpr(Printed(e), 0) == Some((e, |Printed(e)|)) && (IsExpr(Printed(e), e') ==> e' == e)
  {
    var ts := Printed(e);
    PrintedIsFactor(e);
    FactorIsExpr(ts, e);
    assert ts[0..|ts|] == ts;
    hide IsExpr, ParseExpr;
    ExprParses(ts, 0, |ts|, e);
    if IsExpr(ts, e') { ExprParses(ts, 0, |ts|, e'); }
  }

  /** Products bind tighter than sums and differences, on either side. */
  lemma ProductsBindTighter(x: Token, y: Token, z: Token, sum: Token, product: Token)
    requires IsFactor([x], Leaf(x)) && IsFactor([y], Leaf(y)) && IsFactor([z], Leaf(z)) && IsAdditive(sum) && IsMultiplicative(product)
    ensures IsExpr([x, sum, y, product, z], Binary(sum, Leaf(x), Binary(product, Leaf(y), Leaf(z))))
    ensures IsExpr([x, product, y, sum, z], Binary(sum, Binary(product, Leaf(x), Leaf(y)), Leaf(z)))
  {
    SumOf([x], Leaf(x), sum, [y, product, z], Binary(product, Leaf(y), Leaf(z))) by {
      ProductOf(y, product, z);
      assert IsTerm([x], Leaf(x));
    }
    assert [x] + [sum] + [y, product, z] == [x, sum, y, product, z];
    SumOf([x, product, y], Binary(product, Leaf(x), Leaf(y)), sum, [z], Leaf(z)) by {
      ProductOf(x, product, y);
      FactorIsExpr([z], Leaf(z));
    }
    assert [x, product, y] + [sum] + [z] == [x, product, y, sum, z];
  }

  lemma ProductOf(x: Token, product: Token, y: Token)
    requires IsFactor([x], Leaf(x)) && IsFactor([y], Leaf(y)) && IsMultiplicative(product)
    ensures IsTerm([x, product, y], Binary(product, Leaf(x), Leaf(y))) && IsExpr([x, product, y], Binary(product, Leaf(x), Leaf(y)))
  {
    var ts, e := [x, product, y], Binary(product, Leaf(x), Leaf(y));
    assert ts[..1] == [x] && ts[2..] == [y] && ts[1] == product;
    assert IsFactor(ts[..1], e.left) && IsTerm(ts[2..], e.right);
  }

  lemma SumOf(xs: seq<Token>, l: Expr, sum: Token, ys: seq<Token>, r: Expr)
    requires IsTerm(xs, l) && IsExpr(ys, r) && IsAdditive(sum)
    ensures IsExpr(xs + [sum] + ys, Binary(sum, l, r))
  {
    var ts, e := xs + [sum] + ys, Binary(sum, l, r);
    assert ts[..|xs|] == xs && ts[|xs|] == sum && ts[|xs| + 1..] == ys;
    assert IsTerm(ts[..|xs|], e.left) && IsExpr(ts[|xs| + 1..], e.right);
  }
}
