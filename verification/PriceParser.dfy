/** The recursive-descent parser as an object whose position advances
    (backend/internal/dynprice/expr.go:34-201), proved against the position
    functions of `PriceSyntax`. It builds nodes whose constants are fresh rationals. */
module PriceParser {
  import opened Text
  import opened PriceSyntax
  import opened Rational

  /** A parsed node; `Nil` stands for a missing child. Only the rationals are mutable. */
  datatype Node =
    | Nil
    | Node(op: char, val: Rat?, name: string, left: Node, right: Node, decimals: nat)

  const CONSTANT: char := '\0'
  const VARIABLE: char := 'v'
  const NEGATE: char := 'g'
  const MAXIMUM: char := 'm'
  const MINIMUM: char := 'n'

  /** Every constant held anywhere in the node belongs to rs. */
  ghost predicate Within(n: Node, rs: set<Rat>) {
    n.Node? ==> (n.val != null ==> n.val in rs) && Within(n.left, rs) && Within(n.right, rs)
  }

  lemma {:induction false} WithinMore(n: Node, rs: set<Rat>, more: set<Rat>)
    requires Within(n, rs) && rs <= more
    ensures Within(n, more)
  {
    if n.Node? {
      WithinMore(n.left, rs, more);
      WithinMore(n.right, rs, more);
    }
  }

  function OpCode(op: Op): char {
    match op
    case Add => '+'
    case Sub => '-'
    case Mul => '*'
    case Div => '/'
    case Max => MAXIMUM
    case Min => MINIMUM
  }

  /** The node tree was built for e: same shape, and each constant was created
      with the value e gives it. This does not depend on the heap. */
  ghost predicate BuiltFor(n: Node, e: Expr) {
    n.Node? &&
    match e
    case Num(digits, decimals) =>
      && n.op == CONSTANT && n.val != null && n.decimals == decimals
      && n.val.num0 == digits && n.val.den0 == Pow10(decimals)
    case Var(v) => n.op == VARIABLE && n.name == VariableName(v)
    case Neg(inner) => n.op == NEGATE && BuiltFor(n.left, inner)
    case Bin(op, left, right) => n.op == OpCode(op) && BuiltFor(n.left, left) && BuiltFor(n.right, right)
  }

  /** The rationals are numbers, and none has been overwritten since its creation. */
  ghost predicate Untouched(rs: set<Rat>)
    reads rs
  {
    forall r :: r in rs ==> r.Valid() && r.num == r.num0 && r.den == r.den0
  }

  /** What a parser method promises: the outcome, the position and the tree that
      the position function prescribes. */
  ghost predicate Agrees(r: Result<Node>, pos: nat, spec: Result<Parsed>) {
    match spec
    case Err(error) => r == Err(error)
    case Ok(p) => r.Ok? && pos == p.pos && BuiltFor(r.value, p.tree)
  }

  ghost predicate ResultWithin(r: Result<Node>, rs: set<Rat>) {
    r.Ok? ==> Within(r.value, rs)
  }

  function Leaf(op: char, val: Rat?, name: string, decimals: nat): Node {
    Node.Node(op, val, name, Nil, Nil, decimals)
  }

  function Negation(inner: Node): Node {
    Node.Node(NEGATE, null, "", inner, Nil, 0)
  }

  function Binary(op: char, left: Node, right: Node): Node {
    Node.Node(op, null, "", left, right, 0)
  }

  lemma SignCode(sign: char)
    requires sign in {'+', '-', '*', '/'}
    ensures OpCode(OpOf(sign)) == sign
  {}

  lemma NegationBuilt(inner: Node, e: Expr, rs: set<Rat>)
    requires BuiltFor(inner, e) && Within(inner, rs)
    ensures BuiltFor(Negation(inner), Neg(e)) && Within(Negation(inner), rs)
  {}

  lemma BinaryBuilt(op: Op, left: Node, l: Expr, right: Node, r: Expr, before: set<Rat>, rs: set<Rat>)
    requires BuiltFor(left, l) && BuiltFor(right, r)
    requires Within(left, before) && before <= rs && Within(right, rs)
    ensures BuiltFor(Binary(OpCode(op), left, right), Bin(op, l, r))
    ensures Within(Binary(OpCode(op), left, right), rs)
  {
    WithinMore(left, before, rs);
  }

  lemma CountStep(s: string, start: nat, pos: nat)
    requires start <= pos < |s|
    ensures Count(s[start..pos + 1], '.') == Count(s[start..pos], '.') + (if s[pos] == '.' then 1 else 0)
  {
    assert s[start..pos + 1][..pos - start] == s[start..pos];
  }

  /** The node of a good literal: its value and its number of decimals. */
  method ConstantNode(lit: string) returns (r: Result<Node>, val: Rat)
    requires GoodLiteral(lit)
    ensures fresh(val) && Untouched({val})
    ensures r.Ok? && Within(r.value, {val}) && BuiltFor(r.value, LiteralTree(lit))
  {
    var tree := LiteralTree(lit);
    var i := IndexOf(lit, '.');
    var dec := if i < |lit| then |lit| - i - 1 else 0;
    val := new Rat(tree.digits, Pow10(tree.decimals));
    r := Ok(Leaf(CONSTANT, val, "", dec));
  }

  // One step of each position function, as the parser's loops take it.

  lemma ExprStart(s: string, i: nat)
    requires i <= |s|
    ensures var r := TermAt(s, i);
            ExprAt(s, i) == if r.Err? then r else ExprTail(s, r.value.pos, r.value.tree)
  {}

  lemma ExprLoop(s: string, i: nat, left: Expr)
    requires i <= |s|
    ensures var k := Skip(s, i);
            if CharAt(s, k, '+') || CharAt(s, k, '-') then
              var r := TermAt(s, k + 1);
              ExprTail(s, i, left) == if r.Err? then r
                  else ExprTail(s, r.value.pos, Bin(OpOf(s[k]), left, r.value.tree))
            else ExprTail(s, i, left) == Ok(Parsed(left, k))
  {}

  lemma TermStart(s: string, i: nat)
    requires i <= |s|
    ensures var r := FactorAt(s, i);
            TermAt(s, i) == if r.Err? then r else TermTail(s, r.value.pos, r.value.tree)
  {}

  lemma TermLoop(s: string, i: nat, left: Expr)
    requires i <= |s|
    ensures var k := Skip(s, i);
            if CharAt(s, k, '*') || CharAt(s, k, '/') then
              var r := FactorAt(s, k + 1);
              TermTail(s, i, left) == if r.Err? then r
                  else TermTail(s, r.value.pos, Bin(OpOf(s[k]), left, r.value.tree))
            else TermTail(s, i, left) == Ok(Parsed(left, k))
  {}

  /** A parsed inner expression and the closing parenthesis behind it. */
  function Grouped(s: string, inner: Result<Parsed>): Result<Parsed>
    requires inner.Ok? ==> inner.value.pos <= |s|
  {
    if inner.Err? then inner
    else if CharAt(s, Skip(s, inner.value.pos), ')') then
      Ok(Parsed(inner.value.tree, Skip(s, inner.value.pos) + 1))
    else Err(MissingParen)
  }

  lemma FactorCases(s: string, i: nat)
    requires i <= |s|
    ensures var k := Skip(s, i);
            if k >= |s| then FactorAt(s, i) == Err(UnexpectedEnd)
            else if s[k] == '-' then
              var r := FactorAt(s, k + 1);
              FactorAt(s, i) == if r.Err? then r else Ok(Parsed(Neg(r.value.tree), r.value.pos))
            else if s[k] == '(' then
              var r := ExprAt(s, k + 1);
              FactorAt(s, i) == Grouped(s, r)
            else if IsNumberChar(s[k]) then FactorAt(s, i) == NumberAt(s, k)
            else if IsNameStart(s[k]) then FactorAt(s, i) == NameAt(s, k)
            else FactorAt(s, i) == Err(UnexpectedChar(s[k]))
  {}

  /** The checks of parseNumber on the scanned literal accept exactly the good ones. */
  lemma NumberCases(s: string, i: nat, dots: nat)
    requires i < |s| && IsNumberChar(s[i]) && dots == Count(s[i..NumberEnd(s, i)], '.')
    ensures var j := NumberEnd(s, i);
            var lit := s[i..j];
            if lit == "" || lit == "." || dots > 1 then NumberAt(s, i) == Err(BadNumber(lit))
            else GoodLiteral(lit) && NumberAt(s, i) == Ok(Parsed(LiteralTree(lit), j))
  {
    var j := NumberEnd(s, i);
    NumberEndRun(s, i);
    assert forall k :: 0 <= k < j - i ==> s[i..j][k] == s[i + k];
  }

  lemma CallCases(s: string, i: nat, name: string)
    requires i <= |s|
    ensures var k := Skip(s, i);
            if !CharAt(s, k, '(') then CallAt(s, i, name) == Err(NeedsArguments(name))
            else
              var a := ExprAt(s, k + 1);
              if a.Err? then CallAt(s, i, name) == a
              else
                var m := Skip(s, a.value.pos);
                if !CharAt(s, m, ',') then CallAt(s, i, name) == Err(NeedsTwoArguments(name))
                else
                  var b := ExprAt(s, m + 1);
                  CallAt(s, i, name) ==
                    if b.Err? then b
                    else if !CharAt(s, Skip(s, b.value.pos), ')') then Err(MissingCallParen(name))
                    else Ok(Parsed(Bin(CallOp(name), a.value.tree, b.value.tree),
                                   Skip(s, b.value.pos) + 1))
  {}

  class Parser {
    const s: string
    var pos: nat
    ghost var made: set<Rat>  // the constants created so far

    ghost predicate Ready()
      reads this, made
    {
      pos <= |s| && Untouched(made)
    }

    constructor (src: string)
      ensures Ready() && s == src && pos == 0 && made == {}
    {
      s, pos, made := src, 0, {};
    }

    method SkipBlanks()
      requires pos <= |s|
      modifies this`pos
      ensures pos == Skip(s, old(pos))
    {
      while pos < |s| && IsSpace(s[pos])
        invariant old(pos) <= pos <= |s|
        invariant Skip(s, pos) == Skip(s, old(pos))
      {
        pos := pos + 1;
      }
    }

    method ParseExpr() returns (r: Result<Node>)
      requires Ready()
      modifies this
      ensures Ready() && old(made) <= made && ResultWithin(r, made)
      ensures Agrees(r, pos, ExprAt(s, old(pos)))
      decreases |s| - pos, 3
    {
      ExprStart(s, pos);
      hide ExprAt, ExprTail, TermAt, TermTail, FactorAt, NumberAt, NameAt, CallAt, Skip, Within, BuiltFor, Untouched;
      r := ParseTerm();
      if r.Err? {
        return;
      }
      ghost var tree := TermAt(s, old(pos)).value.tree;
      var more := true;
      while more
        invariant Ready() && old(made) <= made && ResultWithin(r, made)
        invariant more ==> old(pos) < pos && r.Ok? && BuiltFor(r.value, tree)
        invariant more ==> ExprAt(s, old(pos)) == ExprTail(s, pos, tree)
        invariant !more ==> Agrees(r, pos, ExprAt(s, old(pos)))
        decreases if more then |s| - pos + 1 else 0
      {
        r, more, tree := NextTerm(r.value, tree);
      }
    }

    /** One round of the loop: the term behind a sign, if there is one. */
    method NextTerm(left: Node, ghost tree: Expr) returns (r: Result<Node>, more: bool, ghost next: Expr)
      requires Ready() && Within(left, made) && BuiltFor(left, tree)
      modifies this
      ensures Ready() && old(made) <= made && ResultWithin(r, made)
      ensures !more ==> Agrees(r, pos, ExprTail(s, old(pos), tree))
      ensures more ==> r.Ok? && old(pos) < pos && BuiltFor(r.value, next)
      ensures more ==> ExprTail(s, old(pos), tree) == ExprTail(s, pos, next)
      decreases |s| - pos, 3
    {
      ExprLoop(s, pos, tree);
      hide ExprAt, ExprTail, TermAt, TermTail, FactorAt, NumberAt, NameAt, CallAt, Skip, Within, BuiltFor, OpOf;
      hide OpCode, Untouched;
      next := tree;
      SkipBlanks();
      if pos >= |s| || (s[pos] != '+' && s[pos] != '-') {
        return Ok(left), false, tree;
      }
      var op := s[pos];
      pos := pos + 1;
      ghost var at, before := pos, made;
      var right := ParseTerm();
      if right.Err? {
        return right, false, tree;
      }
      SignCode(op);
      BinaryBuilt(OpOf(op), left, tree, right.value, TermAt(s, at).value.tree, before, made);
      next := Bin(OpOf(op), tree, TermAt(s, at).value.tree);
      r, more := Ok(Binary(op, left, right.value)), true;
    }

    method ParseTerm() returns (r: Result<Node>)
      requires Ready()
      modifies this
      ensures Ready() && old(made) <= made && ResultWithin(r, made)
      ensures Agrees(r, pos, TermAt(s, old(pos)))
      decreases |s| - pos, 2
    {
      TermStart(s, pos);
      hide ExprAt, ExprTail, TermAt, TermTail, FactorAt, NumberAt, NameAt, CallAt, Skip, Within, BuiltFor, Untouched;
      r := ParseFactor();
      if r.Err? {
        return;
      }
      ghost var tree := FactorAt(s, old(pos)).value.tree;
      var more := true;
      while more
        invariant Ready() && old(made) <= made && ResultWithin(r, made)
        invariant more ==> old(pos) < pos && r.Ok? && BuiltFor(r.value, tree)
        invariant more ==> TermAt(s, old(pos)) == TermTail(s, pos, tree)
        invariant !more ==> Agrees(r, pos, TermAt(s, old(pos)))
        decreases if more then |s| - pos + 1 else 0
      {
        r, more, tree := NextFactor(r.value, tree);
      }
    }

    /** One round of the loop: the factor behind a sign, if there is one. */
    method NextFactor(left: Node, ghost tree: Expr) returns (r: Result<Node>, more: bool, ghost next: Expr)
      requires Ready() && Within(left, made) && BuiltFor(left, tree)
      modifies this
      ensures Ready() && old(made) <= made && ResultWithin(r, made)
      ensures !more ==> Agrees(r, pos, TermTail(s, old(pos), tree))
      ensures more ==> r.Ok? && old(pos) < pos && BuiltFor(r.value, next)
      ensures more ==> TermTail(s, old(pos), tree) == TermTail(s, pos, next)
      decreases |s| - pos, 2
    {
      TermLoop(s, pos, tree);
      hide ExprAt, ExprTail, TermAt, TermTail, FactorAt, NumberAt, NameAt, CallAt, Skip, Within, BuiltFor, OpOf;
      hide OpCode, Untouched;
      next := tree;
      SkipBlanks();
      if pos >= |s| || (s[pos] != '*' && s[pos] != '/') {
        return Ok(left), false, tree;
      }
      var op := s[pos];
      pos := pos + 1;
      ghost var at, before := pos, made;
      var right := ParseFactor();
      if right.Err? {
        return right, false, tree;
      }
      SignCode(op);
      BinaryBuilt(OpOf(op), left, tree, right.value, FactorAt(s, at).value.tree, before, made);
      next := Bin(OpOf(op), tree, FactorAt(s, at).value.tree);
      r, more := Ok(Binary(op, left, right.value)), true;
    }

    method ParseFactor() returns (r: Result<Node>)
      requires Ready()
      modifies this
      ensures Ready() && old(made) <= made && ResultWithin(r, made)
      ensures Agrees(r, pos, FactorAt(s, old(pos)))
      decreases |s| - pos, 1
    {
      FactorCases(s, pos);
      hide ExprAt, ExprTail, TermAt, TermTail, FactorAt, NumberAt, NameAt, CallAt, Skip, Within, BuiltFor, OpOf;
      hide OpCode, Untouched, Grouped;
      SkipBlanks();
      if pos >= |s| {
        return Err(UnexpectedEnd);
      }
      var c := s[pos];
      if c == '-' {
        pos := pos + 1;
        ghost var at := pos;
        r := ParseFactor();
        if r.Ok? {
          NegationBuilt(r.value, FactorAt(s, at).value.tree, made);
          r := Ok(Negation(r.value));
        }
      } else if c == '(' {
        pos := pos + 1;
        r := ParseGroup();
      } else if IsDigit(c) || c == '.' {
        r := ParseNumber();
      } else if IsLetter(c) || c == '_' {
        r := ParseName();
      } else {
        r := Err(UnexpectedChar(c));
      }
    }

    /** The parenthesis branch of parseFactor, behind its opening parenthesis. */
    method ParseGroup() returns (r: Result<Node>)
      requires Ready()
      modifies this
      ensures Ready() && old(made) <= made && ResultWithin(r, made)
      ensures Agrees(r, pos, Grouped(s, ExprAt(s, old(pos))))
      decreases |s| - pos, 4
    {
      hide ExprAt, Skip, Within, BuiltFor, Untouched;
      r := ParseExpr();
      if r.Err? {
        return;
      }
      var close := Expect(')');
      if !close {
        return Err(MissingParen);
      }
    }

    method ParseNumber() returns (r: Result<Node>)
      requires Ready() && pos < |s| && IsNumberChar(s[pos])
      modifies this
      ensures Ready() && old(made) <= made && ResultWithin(r, made)
      ensures Agrees(r, pos, NumberAt(s, old(pos)))
      decreases |s| - pos, 0
    {
      var start := pos;
      var dots := ScanNumber();
      var lit := s[start..pos];
      NumberCases(s, start, dots);
      hide NumberAt, GoodLiteral, LiteralTree, NumberEnd, IsNumberChar, Within, BuiltFor;
      if lit == "" || lit == "." || dots > 1 {
        return Err(BadNumber(lit));
      }
      var val;
      r, val := ConstantNode(lit);
      WithinMore(r.value, {val}, made + {val});
      made := made + {val};
    }

    /** The loop of parseNumber: digits and dots, counting the dots. */
    method ScanNumber() returns (dots: nat)
      requires Ready()
      modifies this`pos
      ensures Ready() && pos == NumberEnd(s, old(pos)) && dots == Count(s[old(pos)..pos], '.')
    {
      dots := 0;
      while pos < |s| && (IsDigit(s[pos]) || s[pos] == '.')
        invariant Ready() && old(pos) <= pos && NumberEnd(s, pos) == NumberEnd(s, old(pos))
        invariant dots == Count(s[old(pos)..pos], '.')
      {
        CountStep(s, old(pos), pos);
        if s[pos] == '.' {
          dots := dots + 1;
        }
        pos := pos + 1;
      }
    }

    method ParseName() returns (r: Result<Node>)
      requires Ready() && pos < |s| && IsNameStart(s[pos])
      modifies this
      ensures Ready() && old(made) <= made && ResultWithin(r, made)
      ensures Agrees(r, pos, NameAt(s, old(pos)))
      decreases |s| - pos, 0
    {
      var start := pos;
      while pos < |s| && IsNameChar(s[pos])
        invariant Ready() && made == old(made)
        invariant start <= pos && NameEnd(s, pos) == NameEnd(s, start)
        invariant pos == start ==> IsNameChar(s[pos])
      {
        pos := pos + 1;
      }
      assert pos == NameEnd(s, start) && pos > start;
      var name := ToLower(s[start..pos]);
      hide ToLower, CallAt;
      if name == "base" || name == "qty" || name == "cost" {
        r := Ok(Leaf(VARIABLE, null, name, 0));
        assert Within(Nil, made);
      } else if name == "max" || name == "min" {
        r := ParseArguments(name);
      } else {
        r := Err(UnknownName(name));
      }
    }

    /** The max/min branch of parseName. */
    method ParseArguments(name: string) returns (r: Result<Node>)
      requires Ready()
      modifies this
      ensures Ready() && old(made) <= made && ResultWithin(r, made)
      ensures Agrees(r, pos, CallAt(s, old(pos), name))
      decreases |s| - pos, 4
    {
      CallCases(s, pos, name);
      assert OpCode(CallOp(name)) == if name == "min" then MINIMUM else MAXIMUM;
      hide ExprAt, ExprTail, TermAt, TermTail, FactorAt, NumberAt, NameAt, CallAt, Skip, Within, BuiltFor, OpOf,
          OpCode, Untouched, CallOp;
      var open := Expect('(');
      if !open {
        return Err(NeedsArguments(name));
      }
      ghost var first := pos;
      var a := ParseExpr();
      if a.Err? {
        return a;
      }
      var comma := Expect(',');
      if !comma {
        return Err(NeedsTwoArguments(name));
      }
      ghost var second, before := pos, made;
      var b := ParseExpr();
      if b.Err? {
        return b;
      }
      var close := Expect(')');
      if !close {
        return Err(MissingCallParen(name));
      }
      var op := MAXIMUM;
      if name == "min" {
        op := MINIMUM;
      }
      ghost var ta, tb := ExprAt(s, first).value.tree, ExprAt(s, second).value.tree;
      BinaryBuilt(CallOp(name), a.value, ta, b.value, tb, before, made);
      r := Ok(Binary(op, a.value, b.value));
    }

    /** Blanks, then one expected character. */
    method Expect(c: char) returns (ok: bool)
      requires Ready()
      modifies this`pos
      ensures Ready() && old(pos) <= pos
      ensures ok <==> CharAt(s, Skip(s, old(pos)), c)
      ensures ok ==> pos == Skip(s, old(pos)) + 1
    {
      hide Skip, Untouched;
      SkipBlanks();
      ok := pos < |s| && s[pos] == c;
      if ok {
        pos := pos + 1;
      }
    }
  }

  /** Parse (expr.go:34-45): accepts exactly what `PriceSyntax.Parse` accepts, with
      nodes that denote its tree, and fails with the same error otherwise. */
  method ParseNodes(src: string) returns (r: Result<Node>, ghost constants: set<Rat>)
    ensures Untouched(constants) && ResultWithin(r, constants)
    ensures match Parse(src)
            case Err(error) => r == Err(error)
            case Ok(e) => r.Ok? && BuiltFor(r.value, e)
  {
    var p := new Parser(src);
    r := p.ParseExpr();
    constants := p.made;
    if r.Err? {
      return;
    }
    p.SkipBlanks();
    if p.pos != |p.s| {
      r := Err(Trailing(p.s[p.pos..]));
    }
  }
}
