/** Evaluating parsed price expressions with overwriting arithmetic, and the
    whole Eval pipeline (backend/internal/dynprice/expr.go:203-304). */
module PriceEval {
  import opened Integers
  import opened Text
  import opened Rounding
  import opened Rational
  import PricePrinting
  import PriceSyntax
  import opened PriceParser

  datatype Input = Input(base: int, qty: int, cost: int)

  datatype EvalError =
    | ParseFailed(error: PriceSyntax.ParseError)
    | UnknownVariable(name: string)
    | DivisionByZero
    | BadNode
    | OutOfRange

  datatype Outcome<+T> = Value(value: T) | Failed(error: EvalError) {
    predicate IsFailure() {
      Failed?
    }
    function PropagateFailure<U>(): Outcome<U>
      requires Failed?
    {
      Failed(error)
    }
    function Extract(): T
      requires Value?
    {
      value
    }
  }

  // ----- The meaning of an expression, with no rationals in sight -----

  function VariableValue(v: PriceSyntax.Variable, input: Input): int {
    match v
    case Base => input.base
    case Qty => input.qty
    case Cost => input.cost
  }

  function Product(x: real, y: real): real {
    x * y
  }

  /** The number an expression denotes; undefined exactly when a divisor is zero. */
  function Meaning(e: PriceSyntax.Expr, input: Input): Outcome<real> {
    match e
    case Num(digits, decimals) => Value(Fraction(digits, Pow10(decimals)))
    case Var(v) => Value(VariableValue(v, input) as real)
    case Neg(inner) =>
      var x :- Meaning(inner, input);
      Value(-x)
    case Bin(op, left, right) =>
      var x :- Meaning(left, input);
      var y :- Meaning(right, input);
      match op
      case Add => Value(x + y)
      case Sub => Value(x - y)
      case Mul => Value(Product(x, y))
      case Div => if y == 0.0 then Failed(DivisionByZero) else Value(x / y)
      case Max => Value(if x >= y then x else y)
      case Min => Value(if x <= y then x else y)
  }

  /** On expressions the only failure is a division by zero. */
  lemma {:induction false} OnlyDivisionFails(e: PriceSyntax.Expr, input: Input)
    ensures Meaning(e, input).Failed? ==> Meaning(e, input).error == DivisionByZero
  {
    match e
    case Num(_, _) =>
    case Var(_) =>
    case Neg(inner) => OnlyDivisionFails(inner, input);
    case Bin(_, left, right) =>
      OnlyDivisionFails(left, input);
      OnlyDivisionFails(right, input);
  }

  // ----- What eval computes on any node, parsed or not -----

  /** The node has the children and the constant its operator reads. */
  ghost predicate Shaped(n: Node) {
    && n.Node?
    && (n.op == CONSTANT ==> n.val != null)
    && (n.op == NEGATE ==> Shaped(n.left))
    && (IsBinary(n.op) ==> Shaped(n.left) && Shaped(n.right))
  }

  predicate IsBinary(op: char) {
    op == '+' || op == '-' || op == '*' || op == '/' || op == MAXIMUM || op == MINIMUM
  }

  function Combine(op: char, x: real, y: real): Outcome<real> {
    if op == '+' then Value(x + y)
    else if op == '-' then Value(x - y)
    else if op == '*' then Value(Product(x, y))
    else if op == '/' then (if y == 0.0 then Failed(DivisionByZero) else Value(x / y))
    else if op == MAXIMUM then Value(if x >= y then x else y)
    else Value(if x <= y then x else y)
  }

  /** The value of a node over the values its constants were created with. */
  ghost function NodeMeaning(n: Node, input: Input): Outcome<real>
    requires Shaped(n)
  {
    if n.op == CONSTANT then
      if n.val.den0 > 0 then Value(Fraction(n.val.num0, n.val.den0)) else Failed(BadNode)
    else if n.op == VARIABLE then
      if n.name == "base" then Value(input.base as real)
      else if n.name == "qty" then Value(input.qty as real)
      else if n.name == "cost" then Value(input.cost as real)
      else Failed(UnknownVariable(n.name))
    else if n.op == NEGATE then
      var x :- NodeMeaning(n.left, input);
      Value(-x)
    else if IsBinary(n.op) then
      var x :- NodeMeaning(n.left, input);
      var y :- NodeMeaning(n.right, input);
      Combine(n.op, x, y)
    else
      Failed(BadNode)
  }

  /** On nodes the parser builds, that is the meaning of the parsed expression. */
  lemma {:induction false} NodeMeaningIsMeaning(n: Node, e: PriceSyntax.Expr, input: Input)
    requires BuiltFor(n, e)
    ensures Shaped(n) && NodeMeaning(n, input) == Meaning(e, input)
  {
    match e
    case Num(_, _) =>
    case Var(_) =>
    case Neg(inner) => NodeMeaningIsMeaning(n.left, inner, input);
    case Bin(op, left, right) =>
      NodeMeaningIsMeaning(n.left, left, input);
      NodeMeaningIsMeaning(n.right, right, input);
      var x, y := NodeMeaning(n.left, input), NodeMeaning(n.right, input);
      if x.Value? && y.Value? {
        assert NodeMeaning(n, input) == Combine(OpCode(op), x.value, y.value);
        CombineIs(op, x.value, y.value, left, right, input);
      }
  }

  lemma CombineIs(op: PriceSyntax.Op, x: real, y: real, left: PriceSyntax.Expr, right: PriceSyntax.Expr, input: Input)
    requires Meaning(left, input) == Value(x) && Meaning(right, input) == Value(y)
    ensures Combine(OpCode(op), x, y) == Meaning(PriceSyntax.Bin(op, left, right), input)
  {
  }

  /** Node.eval (expr.go:204-271). It changes no rational that existed before the
      call, so constants keep their values however often a tree is evaluated; the
      rational it returns is new, so the caller may overwrite it. */
  method EvalNode(n: Node, input: Input, ghost constants: set<Rat>) returns (r: Outcome<Rat>)
    requires Shaped(n) && Within(n, constants) && Untouched(constants)
    ensures r.Value? ==> fresh(r.value) && r.value.Valid()
    ensures match NodeMeaning(n, input)
            case Failed(error) => r == Failed(error)
            case Value(v) => r.Value? && r.value.Value() == v
    decreases n
  {
    if n.op == CONSTANT {
      var v := new Rat(0, 1);
      v.Set(n.val);
      r := Value(v);
    } else if n.op == VARIABLE {
      if n.name == "base" {
        r := FromInt(input.base);
      } else if n.name == "qty" {
        r := FromInt(input.qty);
      } else if n.name == "cost" {
        r := FromInt(input.cost);
      } else {
        r := Failed(UnknownVariable(n.name));
      }
    } else if n.op == NEGATE {
      r := EvalNode(n.left, input, constants);
      if r.Value? {
        r.value.Negate(r.value);
      }
    } else if IsBinary(n.op) {
      var ra := EvalNode(n.left, input, constants);
      if ra.Failed? {
        return ra;
      }
      var a := ra.value;
      var rb := EvalNode(n.right, input, constants);
      if rb.Failed? {
        return rb;
      }
      var b := rb.value;
      r := Apply(n.op, a, b);
    } else {
      r := Failed(BadNode);
    }
  }

  method FromInt(n: int) returns (r: Outcome<Rat>)
    ensures r.Value? && fresh(r.value) && r.value.Valid() && r.value.Value() == n as real
  {
    var v := new Rat(n, 1);
    r := Value(v);
  }

  /** The arithmetic branches of eval: the result lands in the left operand, or is
      one of the operands for max and min. */
  method Apply(op: char, a: Rat, b: Rat) returns (r: Outcome<Rat>)
    requires IsBinary(op) && a.Valid() && b.Valid()
    modifies a
    ensures r.Value? ==> r.value in {a, b} && r.value.Valid()
    ensures match Combine(op, old(a.Value()), old(b.Value()))
            case Failed(error) => r == Failed(error)
            case Value(v) => r.Value? && r.value.Value() == v
  {
    if op == '+' {
      a.Add(a, b);
      r := Value(a);
    } else if op == '-' {
      a.Sub(a, b);
      r := Value(a);
    } else if op == '*' {
      a.Mul(a, b);
      r := Value(a);
    } else if op == '/' {
      FractionZero(b.num, b.den);
      if b.num == 0 {
        return Failed(DivisionByZero);
      }
      a.Quo(a, b);
      r := Value(a);
    } else {
      var cmp := a.Cmp(b);
      if (op == MAXIMUM && cmp >= 0) || (op == MINIMUM && cmp <= 0) {
        r := Value(a);
      } else {
        r := Value(b);
      }
    }
  }

  /** What Eval owes for each expression and input: the parse error, the division
      by zero, the range error, or the meaning rounded half away from zero. */
  ghost predicate EvalSpec(expression: string, input: Input, r: Outcome<int>) {
    var parsed := PriceSyntax.Parse(expression);
    if parsed.Err? then
      r == Failed(ParseFailed(parsed.error))
    else
      var m := Meaning(parsed.value, input);
      if m.Failed? then
        r == Failed(DivisionByZero)
      else
        && (r.Value? ==> RoundsReal(r.value, m.value) && IsInt64(r.value))
        && (r.Failed? ==> r == Failed(OutOfRange) && exists q :: RoundsReal(q, m.value) && !IsInt64(q))
  }

  /** Eval (expr.go:294-304). */
  method Eval(expression: string, input: Input) returns (r: Outcome<int>)
    ensures EvalSpec(expression, input, r)
  {
    var parsed, constants := ParseNodes(expression);
    if parsed.Err? {
      return Failed(ParseFailed(parsed.error));
    }
    ghost var e := PriceSyntax.Parse(expression).value;
    NodeMeaningIsMeaning(parsed.value, e, input);
    OnlyDivisionFails(e, input);
    var v := EvalNode(parsed.value, input, constants);
    if v.Failed? {
      return Failed(v.error);
    }
    var q := RoundHalfUp(v.value.num, v.value.den);
    RoundsIsReal(q, v.value.num, v.value.den);
    if IsInt64(q) {
      r := Value(q);
    } else {
      r := Failed(OutOfRange);
    }
  }

  /** Eval's contract determines its outcome. */
  lemma EvalDeterministic(expression: string, input: Input, r1: Outcome<int>, r2: Outcome<int>)
    requires EvalSpec(expression, input, r1) && EvalSpec(expression, input, r2)
    ensures r1 == r2
  {
    var parsed := PriceSyntax.Parse(expression);
    if parsed.Ok? && Meaning(parsed.value, input).Value? {
      var v := Meaning(parsed.value, input).value;
      forall p, q | RoundsReal(p, v) && RoundsReal(q, v)
        ensures p == q
      {
        RoundsRealUnique(p, q, v);
      }
    }
  }

  /** Evaluating a printed expression, however spaced, fails only on a zero divisor
      or on a result outside int64, and otherwise rounds the expression's meaning. */
  lemma EvalOfPrinted(e: PriceSyntax.Expr, spaced: PriceSyntax.Cst, trailing: string, input: Input, r: Outcome<int>)
    requires PricePrinting.Respaced(PricePrinting.Printed(e, PriceSyntax.Sum), spaced) && PriceSyntax.Blank(trailing)
    requires EvalSpec(PriceSyntax.Source(spaced) + trailing, input, r)
    ensures r == Failed(DivisionByZero) <==> Meaning(e, input).Failed?
    ensures r.Value? ==> RoundsReal(r.value, Meaning(e, input).value)
    ensures r.Failed? ==> r.error.DivisionByZero? || r.error.OutOfRange?
  {
    PricePrinting.ParseUndoesPrinting(e, spaced, trailing);
  }
}
