/** The price-expression grammar (backend/internal/dynprice/expr.go) as a pure
    recursive-descent parser over positions, and its grammar written down
    independently as concrete syntax trees that keep every blank and parenthesis.
    Each `char` is one byte of the Go string. */
module PriceSyntax {
  import opened Text

  datatype Variable = Base | Qty | Cost

  datatype Op = Add | Sub | Mul | Div | Max | Min

  /** The meaning-bearing tree: a constant is digits / 10^decimals. */
  datatype Expr =
    | Num(digits: nat, decimals: nat)
    | Var(variable: Variable)
    | Neg(inner: Expr)
    | Bin(op: Op, left: Expr, right: Expr)

  datatype ParseError =
    | UnexpectedEnd
    | UnexpectedChar(c: char)
    | MissingParen
    | BadNumber(literal: string)
    | NeedsArguments(fn: string)
    | NeedsTwoArguments(fn: string)
    | MissingCallParen(fn: string)
    | UnknownName(name: string)
    | Trailing(rest: string)

  datatype Result<+T> = Ok(value: T) | Err(error: ParseError) {
    predicate IsFailure() {
      Err?
    }
    function PropagateFailure<U>(): Result<U>
      requires Err?
    {
      Err(error)
    }
    function Extract(): T
      requires Ok?
    {
      value
    }
  }

  /** A sub-parse: the tree and the position after it. */
  datatype Parsed = Parsed(tree: Expr, pos: nat)

  // ----- Characters -----

  /** `unicode.IsSpace` on a single byte. */
  predicate IsSpace(c: char) {
    c == ' ' || '\t' <= c <= '\r' || c == '\U{85}' || c == '\U{A0}'
  }

  predicate IsNumberChar(c: char) {
    IsDigit(c) || c == '.'
  }

  predicate IsNameChar(c: char) {
    IsLetter(c) || IsDigit(c) || c == '_'
  }

  predicate IsNameStart(c: char) {
    IsLetter(c) || c == '_'
  }

  function Lower(c: char): char {
    if 'A' <= c <= 'Z' then (c as int + 32) as char else c
  }

  function ToLower(s: string): (t: string)
    ensures |t| == |s|
  {
    seq(|s|, i requires 0 <= i < |s| => Lower(s[i]))
  }

  function VariableNamed(name: string): (v: Variable)
    requires name == "base" || name == "qty" || name == "cost"
  {
    if name == "base" then Base else if name == "qty" then Qty else Cost
  }

  /** max and min; anything but min is max. */
  function CallOp(name: string): Op {
    if name == "min" then Min else Max
  }

  // ----- The parser as functions -----

  function Skip(s: string, i: nat): (j: nat)
    requires i <= |s|
    ensures i <= j <= |s|
    decreases |s| - i
  {
    if i < |s| && IsSpace(s[i]) then Skip(s, i + 1) else i
  }

  lemma {:induction false} SkipRun(s: string, i: nat)
    requires i <= |s|
    ensures forall k :: i <= k < Skip(s, i) ==> IsSpace(s[k])
    ensures Skip(s, i) < |s| ==> !IsSpace(s[Skip(s, i)])
    decreases |s| - i
  {
    if i < |s| && IsSpace(s[i]) {
      SkipRun(s, i + 1);
    }
  }

  function NumberEnd(s: string, i: nat): (j: nat)
    requires i <= |s|
    ensures i <= j <= |s|
    decreases |s| - i
  {
    if i < |s| && IsNumberChar(s[i]) then NumberEnd(s, i + 1) else i
  }

  lemma {:induction false} NumberEndIs(s: string, i: nat, j: nat)
    requires i <= j <= |s| && forall k :: i <= k < j ==> IsNumberChar(s[k])
    requires j < |s| ==> !IsNumberChar(s[j])
    ensures NumberEnd(s, i) == j
    decreases j - i
  {
    if i < j {
      NumberEndIs(s, i + 1, j);
    }
  }

  lemma {:induction false} NumberEndRun(s: string, i: nat)
    requires i <= |s|
    ensures forall k :: i <= k < NumberEnd(s, i) ==> IsNumberChar(s[k])
    ensures NumberEnd(s, i) < |s| ==> !IsNumberChar(s[NumberEnd(s, i)])
    decreases |s| - i
  {
    if i < |s| && IsNumberChar(s[i]) {
      NumberEndRun(s, i + 1);
    }
  }

  function NameEnd(s: string, i: nat): (j: nat)
    requires i <= |s|
    ensures i <= j <= |s|
    decreases |s| - i
  {
    if i < |s| && IsNameChar(s[i]) then NameEnd(s, i + 1) else i
  }

  lemma {:induction false} NameEndIs(s: string, i: nat, j: nat)
    requires i <= j <= |s| && forall k :: i <= k < j ==> IsNameChar(s[k])
    requires j < |s| ==> !IsNameChar(s[j])
    ensures NameEnd(s, i) == j
    decreases j - i
  {
    if i < j {
      NameEndIs(s, i + 1, j);
    }
  }

  lemma {:induction false} NameEndRun(s: string, i: nat)
    requires i <= |s|
    ensures forall k :: i <= k < NameEnd(s, i) ==> IsNameChar(s[k])
    ensures NameEnd(s, i) < |s| ==> !IsNameChar(s[NameEnd(s, i)])
    decreases |s| - i
  {
    if i < |s| && IsNameChar(s[i]) {
      NameEndRun(s, i + 1);
    }
  }

  predicate GoodLiteral(lit: string) {
    && lit != "" && lit != "."
    && (forall i :: 0 <= i < |lit| ==> IsNumberChar(lit[i]))
    && Count(lit, '.') <= 1
  }

  /** The constant a literal spells: all its digits, and how many follow the dot. */
  function LiteralTree(lit: string): Expr
    requires GoodLiteral(lit)
  {
    var k := IndexOf(lit, '.');
    DigitsAroundDot(lit);
    if k == |lit| then Num(DigitsValue(lit), 0)
    else Num(DigitsValue(lit[..k] + lit[k + 1..]), |lit| - k - 1)
  }

  lemma DigitsAroundDot(lit: string)
    requires GoodLiteral(lit)
    ensures var k := IndexOf(lit, '.');
            AllDigits(lit[..k]) && (k < |lit| ==> AllDigits(lit[k + 1..]))
  {
    var k := IndexOf(lit, '.');
    if k < |lit| {
      forall i | k < i < |lit|
        ensures lit[i] != '.'
      {
        if lit[i] == '.' {
          CountTwo(lit, k, i);
        }
      }
    }
  }

  lemma {:induction false} CountTwo(s: string, i: nat, j: nat)
    requires i < j < |s| && s[i] == s[j]
    ensures Count(s, s[i]) >= 2
  {
    var t := s[..|s| - 1];
    if j < |s| - 1 {
      CountTwo(t, i, j);
    } else {
      CountOne(t, i);
    }
  }

  lemma {:induction false} CountOne(s: string, i: nat)
    requires i < |s|
    ensures Count(s, s[i]) >= 1
  {
    if i < |s| - 1 {
      CountOne(s[..|s| - 1], i);
    }
  }

  function NumberAt(s: string, i: nat): (r: Result<Parsed>)
    requires i < |s| && IsNumberChar(s[i])
    ensures r.Ok? ==> i < r.value.pos <= |s|
  {
    var j := NumberEnd(s, i);
    var lit := s[i..j];
    if GoodLiteral(lit) then Ok(Parsed(LiteralTree(lit), j)) else Err(BadNumber(lit))
  }

  predicate CharAt(s: string, i: nat, c: char) {
    i < |s| && s[i] == c
  }

  function ExprAt(s: string, i: nat): (r: Result<Parsed>)
    requires i <= |s|
    ensures r.Ok? ==> i < r.value.pos <= |s|
    decreases |s| - i, 3
  {
    var Parsed(t, j) :- TermAt(s, i);
    ExprTail(s, j, t)
  }

  /** The loop of parseExpr, entered at i with the tree parsed so far. */
  function ExprTail(s: string, i: nat, left: Expr): (r: Result<Parsed>)
    requires i <= |s|
    ensures r.Ok? ==> i <= r.value.pos <= |s|
    decreases |s| - i, 4
  {
    var k := Skip(s, i);
    if CharAt(s, k, '+') || CharAt(s, k, '-') then
      var Parsed(right, j) :- TermAt(s, k + 1);
      ExprTail(s, j, Bin(if s[k] == '+' then Add else Sub, left, right))
    else
      Ok(Parsed(left, k))
  }

  function TermAt(s: string, i: nat): (r: Result<Parsed>)
    requires i <= |s|
    ensures r.Ok? ==> i < r.value.pos <= |s|
    decreases |s| - i, 2
  {
    var Parsed(t, j) :- FactorAt(s, i);
    TermTail(s, j, t)
  }

  /** The loop of parseTerm. */
  function TermTail(s: string, i: nat, left: Expr): (r: Result<Parsed>)
    requires i <= |s|
    ensures r.Ok? ==> i <= r.value.pos <= |s|
    decreases |s| - i, 4
  {
    var k := Skip(s, i);
    if CharAt(s, k, '*') || CharAt(s, k, '/') then
      var Parsed(right, j) :- FactorAt(s, k + 1);
      TermTail(s, j, Bin(if s[k] == '*' then Mul else Div, left, right))
    else
      Ok(Parsed(left, k))
  }

  function FactorAt(s: string, i: nat): (r: Result<Parsed>)
    requires i <= |s|
    ensures r.Ok? ==> i < r.value.pos <= |s|
    decreases |s| - i, 1
  {
    var k := Skip(s, i);
    if k >= |s| then
      Err(UnexpectedEnd)
    else if s[k] == '-' then
      var Parsed(t, j) :- FactorAt(s, k + 1);
      Ok(Parsed(Neg(t), j))
    else if s[k] == '(' then
      var Parsed(t, j) :- ExprAt(s, k + 1);
      var m := Skip(s, j);
      if CharAt(s, m, ')') then Ok(Parsed(t, m + 1)) else Err(MissingParen)
    else if IsNumberChar(s[k]) then
      NumberAt(s, k)
    else if IsNameStart(s[k]) then
      NameAt(s, k)
    else
      Err(UnexpectedChar(s[k]))
  }

  function NameAt(s: string, i: nat): (r: Result<Parsed>)
    requires i < |s| && IsNameStart(s[i])
    ensures r.Ok? ==> i < r.value.pos <= |s|
    decreases |s| - i, 0
  {
    var j := NameEnd(s, i);
    var name := ToLower(s[i..j]);
    if name == "base" || name == "qty" || name == "cost" then
      Ok(Parsed(Var(VariableNamed(name)), j))
    else if name == "max" || name == "min" then
      CallAt(s, j, name)
    else
      Err(UnknownName(name))
  }

  /** The argument list of max and min, from just after the name. */
  function CallAt(s: string, i: nat, name: string): (r: Result<Parsed>)
    requires i <= |s|
    ensures r.Ok? ==> i < r.value.pos <= |s|
    decreases |s| - i, 4
  {
    var k := Skip(s, i);
    if !CharAt(s, k, '(') then
      Err(NeedsArguments(name))
    else
      var Parsed(a, j) :- ExprAt(s, k + 1);
      var m := Skip(s, j);
      if !CharAt(s, m, ',') then
        Err(NeedsTwoArguments(name))
      else
        var Parsed(b, j2) :- ExprAt(s, m + 1);
        var n := Skip(s, j2);
        if !CharAt(s, n, ')') then
          Err(MissingCallParen(name))
        else
          Ok(Parsed(Bin(CallOp(name), a, b), n + 1))
  }

  function Parse(s: string): Result<Expr> {
    var Parsed(t, j) :- ExprAt(s, 0);
    var k := Skip(s, j);
    if k == |s| then Ok(t) else Err(Trailing(s[k..]))
  }

  // ----- The grammar as concrete syntax trees -----

  /** A derivation of the grammar with its blanks: every token carries the blanks
      before it, so a tree determines its text. */
  datatype Cst =
    | CNum(ws: string, literal: string)
    | CVar(ws: string, word: string)
    | CNeg(ws: string, inner: Cst)
    | CParen(ws: string, inner: Cst, closeWs: string)
    | CCall(ws: string, word: string, openWs: string, a: Cst, commaWs: string, b: Cst, closeWs: string)
    | CBin(left: Cst, ws: string, sign: char, right: Cst)

  datatype Level = Factor | Term | Sum

  predicate Blank(ws: string) {
    forall i :: 0 <= i < |ws| ==> IsSpace(ws[i])
  }

  predicate IsWord(word: string) {
    word != "" && IsNameStart(word[0]) && forall i :: 0 <= i < |word| ==> IsNameChar(word[i])
  }

  /** The name a variable is printed with and stored under. */
  function VariableName(v: Variable): (name: string)
    ensures IsWord(name) && ToLower(name) == name
  {
    match v
    case Base => "base"
    case Qty => "qty"
    case Cost => "cost"
  }

  function Source(c: Cst): string {
    match c
    case CNum(ws, lit) => ws + lit
    case CVar(ws, word) => ws + word
    case CNeg(ws, inner) => ws + "-" + Source(inner)
    case CParen(ws, inner, closeWs) => ws + "(" + Source(inner) + closeWs + ")"
    case CCall(ws, word, openWs, a, commaWs, b, closeWs) =>
      ws + word + openWs + "(" + Source(a) + commaWs + "," + Source(b) + closeWs + ")"
    case CBin(left, ws, sign, right) => Source(left) + ws + [sign] + Source(right)
  }

  /** Membership in the grammar: factors bind tightest, `*` and `/` associate to
      the left over factors, `+` and `-` to the left over terms. */
  predicate Wf(c: Cst, level: Level) {
    match c
    case CNum(ws, lit) => Blank(ws) && GoodLiteral(lit)
    case CVar(ws, word) => Blank(ws) && IsWord(word) && ToLower(word) in {"base", "qty", "cost"}
    case CNeg(ws, inner) => Blank(ws) && Wf(inner, Factor)
    case CParen(ws, inner, closeWs) => Blank(ws) && Wf(inner, Sum) && Blank(closeWs)
    case CCall(ws, word, openWs, a, commaWs, b, closeWs) =>
      && Blank(ws) && IsWord(word) && ToLower(word) in {"max", "min"} && Blank(openWs)
      && Wf(a, Sum) && Blank(commaWs) && Wf(b, Sum) && Blank(closeWs)
    case CBin(left, ws, sign, right) =>
      && Blank(ws)
      && (|| (level != Factor && sign in {'*', '/'} && Wf(left, Term) && Wf(right, Factor))
          || (level == Sum && sign in {'+', '-'} && Wf(left, Sum) && Wf(right, Term)))
  }

  /** Being a factor or a term is being an expression; the parts of a tree too. */
  lemma Loosen(c: Cst)
    ensures Wf(c, Factor) ==> Wf(c, Term)
    ensures Wf(c, Term) ==> Wf(c, Sum)
    ensures c.CNeg? && Wf(c.inner, Factor) ==> Wf(c.inner, Sum)
    ensures c.CBin? && Wf(c.left, Term) ==> Wf(c.left, Sum)
    ensures c.CBin? && Wf(c.right, Factor) ==> Wf(c.right, Term)
    ensures c.CBin? && Wf(c.right, Term) ==> Wf(c.right, Sum)
  {}

  function OpOf(sign: char): Op {
    if sign == '+' then Add else if sign == '-' then Sub else if sign == '*' then Mul else Div
  }

  /** What a derivation means; blanks and parentheses disappear. */
  function Tree(c: Cst): Expr
    requires Wf(c, Sum)
  {
    Loosen(c);
    match c
    case CNum(_, lit) => LiteralTree(lit)
    case CVar(_, word) => Var(VariableNamed(ToLower(word)))
    case CNeg(_, inner) => Neg(Tree(inner))
    case CParen(_, inner, _) => Tree(inner)
    case CCall(_, word, _, a, _, b, _) => Bin(CallOp(ToLower(word)), Tree(a), Tree(b))
    case CBin(left, _, sign, right) => Bin(OpOf(sign), Tree(left), Tree(right))
  }

  // ----- Completeness: every derivation parses to its tree -----

  /** No number or name token can run on past position j. */
  predicate Boundary(s: string, j: nat) {
    j < |s| ==> !IsNumberChar(s[j]) && !IsNameChar(s[j])
  }

  /** What may follow a whole expression: not a factor continuation. */
  predicate Closed(s: string, j: nat)
    requires j <= |s|
  {
    Boundary(s, j) && !CharAt(s, Skip(s, j), '*') && !CharAt(s, Skip(s, j), '/')
  }

  lemma {:induction false} SkipTo(s: string, i: nat, j: nat)
    requires i <= j <= |s|
    requires Blank(s[i..j])
    ensures Skip(s, i) == Skip(s, j)
    decreases j - i
  {
    if i < j {
      assert s[i] == s[i..j][0];
      assert s[i + 1..j] == s[i..j][1..];
      SkipTo(s, i + 1, j);
    }
  }

  /** After blanks ws comes the non-blank character at i + |ws|. */
  lemma SkipBlanks(s: string, i: nat, ws: string)
    requires i + |ws| < |s| && s[i..i + |ws|] == ws && Blank(ws)
    requires !IsSpace(s[i + |ws|])
    ensures Skip(s, i) == i + |ws|
  {
    SkipTo(s, i, i + |ws|);
  }

  /** Cutting a text that starts at i into its first piece and the rest. */
  lemma Cut(s: string, i: nat, j: nat, first: string, rest: string)
    requires i <= j <= |s| && s[i..j] == first + rest
    ensures i + |first| <= j
    ensures s[i..i + |first|] == first
    ensures s[i + |first|..j] == rest
  {
    assert (first + rest)[..|first|] == first;
    assert (first + rest)[|first|..] == rest;
  }

  lemma {:induction false} FactorComplete(c: Cst, s: string, i: nat, j: nat)
    requires Wf(c, Factor) && i <= j <= |s|
    requires s[i..j] == Source(c) && Boundary(s, j)
    ensures Wf(c, Sum) && FactorAt(s, i) == Ok(Parsed(Tree(c), j))
    decreases c, 4
  {
    hide Source, ExprAt, ExprTail, TermAt, TermTail, FactorAt, NameAt, CallAt, NumberAt, Skip;
    Loosen(c);
    if c.CNum? {
      NumberComplete(c, s, i, j);
    } else if c.CVar? {
      VariableComplete(c, s, i, j);
    } else if c.CNeg? {
      var k := CutMinus(c, s, i, j);
      FactorComplete(c.inner, s, k + 1, j);
      NegUnfold(s, i);
    } else if c.CParen? {
      ParenComplete(c, s, i, j);
    } else {
      CallComplete(c, s, i, j);
    }
  }

  lemma NumberComplete(c: Cst, s: string, i: nat, j: nat)
    requires c.CNum? && Blank(c.ws) && GoodLiteral(c.literal) && i <= j <= |s|
    requires s[i..j] == Source(c) && Boundary(s, j)
    ensures FactorAt(s, i) == Ok(Parsed(LiteralTree(c.literal), j))
  {
    hide FactorAt, LiteralTree, Skip, Wf, Tree;
    assert c.literal != "" && forall m :: 0 <= m < |c.literal| ==> IsNumberChar(c.literal[m]);
    hide GoodLiteral;
    Cut(s, i, j, c.ws, c.literal);
    var k := i + |c.ws|;
    assert forall m :: k <= m < j ==> s[m] == c.literal[m - k];
    SkipBlanks(s, i, c.ws);
    NumberEndIs(s, k, j);
    NumberUnfold(s, i);
  }

  lemma NumberUnfold(s: string, i: nat)
    requires i <= |s| && Skip(s, i) < |s| && IsNumberChar(s[Skip(s, i)])
    requires GoodLiteral(s[Skip(s, i)..NumberEnd(s, Skip(s, i))])
    ensures var k := Skip(s, i);
            FactorAt(s, i) == Ok(Parsed(LiteralTree(s[k..NumberEnd(s, k)]), NumberEnd(s, k)))
  {}

  lemma VariableComplete(c: Cst, s: string, i: nat, j: nat)
    requires c.CVar? && Blank(c.ws) && IsWord(c.word) && i <= j <= |s|
    requires ToLower(c.word) in {"base", "qty", "cost"}
    requires s[i..j] == Source(c) && Boundary(s, j)
    ensures FactorAt(s, i) == Ok(Parsed(Var(VariableNamed(ToLower(c.word))), j))
  {
    Cut(s, i, j, c.ws, c.word);
    var k := i + |c.ws|;
    NameRun(s, k, j, c.word);
    SkipBlanks(s, i, c.ws);
  }

  lemma NameRun(s: string, k: nat, j: nat, word: string)
    requires k < j <= |s| && s[k..j] == word && IsWord(word)
    requires j < |s| ==> !IsNameChar(s[j])
    ensures NameEnd(s, k) == j && IsNameStart(s[k]) && !IsSpace(s[k])
  {
    assert forall m :: k <= m < j ==> s[m] == word[m - k];
    NameEndIs(s, k, j);
  }

  lemma CutMinus(c: Cst, s: string, i: nat, j: nat) returns (k: nat)
    requires c.CNeg? && Blank(c.ws) && i <= j <= |s| && s[i..j] == Source(c)
    ensures Skip(s, i) == k < j && s[k] == '-' && s[k + 1..j] == Source(c.inner)
  {
    assert Source(c) == c.ws + ("-" + Source(c.inner));
    Cut(s, i, j, c.ws, "-" + Source(c.inner));
    k := i + |c.ws|;
    Cut(s, k, j, "-", Source(c.inner));
    assert s[k] == s[k..k + 1][0];
    SkipBlanks(s, i, c.ws);
  }

  lemma NegUnfold(s: string, i: nat)
    requires i <= |s| && CharAt(s, Skip(s, i), '-') && FactorAt(s, Skip(s, i) + 1).Ok?
    ensures var p := FactorAt(s, Skip(s, i) + 1).value;
            FactorAt(s, i) == Ok(Parsed(Neg(p.tree), p.pos))
  {}

  /** Blanks ws and a closing token c sit at j: skipping from j lands on the token. */
  lemma ClosingToken(s: string, j: nat, k: nat, ws: string, c: char)
    requires j <= k < |s| && s[j..k] == ws && Blank(ws) && s[k] == c
    requires c in {'(', ')', ',', '+', '-', '*', '/'}
    ensures Skip(s, j) == k && Boundary(s, j)
  {
    SkipBlanks(s, j, ws);
    if ws != "" {
      assert s[j] == ws[0];
    }
  }

  /** The pieces of a parenthesised text: its parenthesis, inner text and closing position. */
  lemma CutParen(c: Cst, s: string, i: nat, j: nat) returns (k: nat, m: nat)
    requires c.CParen? && Blank(c.ws) && Blank(c.closeWs) && i <= j <= |s| && s[i..j] == Source(c)
    ensures i <= k < m + 1 && m < j && Skip(s, i) == k && s[k] == '('
    ensures k + 1 <= m && s[k + 1..m] == Source(c.inner)
    ensures Skip(s, m) == j - 1 && s[j - 1] == ')' && Boundary(s, m)
  {
    var inner, closing := Source(c.inner), c.closeWs + ")";
    assert Source(c) == c.ws + ("(" + (inner + closing));
    hide Source, Skip, Blank;
    Cut(s, i, j, c.ws, "(" + (inner + closing));
    k := i + |c.ws|;
    Cut(s, k, j, "(", inner + closing);
    assert s[k] == s[k..k + 1][0];
    SkipBlanks(s, i, c.ws);
    m := CutClosing(s, k + 1, j, inner, c.closeWs);
  }

  /** The inner text before blanks and a closing parenthesis. */
  lemma CutClosing(s: string, i: nat, j: nat, inner: string, ws: string) returns (m: nat)
    requires Blank(ws) && i <= j <= |s| && s[i..j] == inner + (ws + ")")
    ensures i <= m < j && s[i..m] == inner && Skip(s, m) == j - 1 && s[j - 1] == ')' && Boundary(s, m)
  {
    Cut(s, i, j, inner, ws + ")");
    m := i + |inner|;
    Cut(s, m, j, ws, ")");
    assert s[j - 1] == s[j - 1..j][0];
    ClosingToken(s, m, j - 1, ws, ')');
  }

  lemma {:induction false} ParenComplete(c: Cst, s: string, i: nat, j: nat)
    requires c.CParen? && Wf(c, Factor) && i <= j <= |s| && s[i..j] == Source(c)
    ensures FactorAt(s, i) == Ok(Parsed(Tree(c.inner), j))
    decreases c, 2
  {
    hide Source, ExprAt, ExprTail, TermAt, TermTail, FactorAt, NameAt, CallAt, NumberAt, Skip;
    var k, m := CutParen(c, s, i, j);
    EnclosedComplete(c.inner, s, k + 1, m);
    ParenUnfold(s, i, Parsed(Tree(c.inner), j - 1));
  }

  lemma ParenUnfold(s: string, i: nat, p: Parsed)
    requires i <= |s| && CharAt(s, Skip(s, i), '(') && ExprAt(s, Skip(s, i) + 1) == Ok(p)
    requires Skip(s, p.pos) == p.pos && CharAt(s, p.pos, ')')
    ensures FactorAt(s, i) == Ok(Parsed(p.tree, p.pos + 1))
  {}

  /** parseExpr's loop stops where no sign follows. */
  lemma ExprTailStops(s: string, m: nat, left: Expr)
    requires m <= |s| && !CharAt(s, Skip(s, m), '+') && !CharAt(s, Skip(s, m), '-')
    ensures ExprTail(s, m, left) == Ok(Parsed(left, Skip(s, m)))
    ensures Skip(s, Skip(s, m)) == Skip(s, m)
  {
    SkipRun(s, m);
  }

  lemma CutWord(c: Cst, s: string, i: nat, j: nat) returns (k: nat, e: nat)
    requires c.CCall? && Blank(c.ws) && IsWord(c.word) && Blank(c.openWs) && i <= j <= |s| && s[i..j] == Source(c)
    ensures i <= k < e <= j && Skip(s, i) == k && s[k..e] == c.word && IsNameStart(s[k])
    ensures s[e..j] == Arguments(c)
    ensures e < |s| ==> Boundary(s, e)
  {
    assert Source(c) == c.ws + (c.word + Arguments(c));
    hide Source, Arguments;
    Cut(s, i, j, c.ws, c.word + Arguments(c));
    k := i + |c.ws|;
    Cut(s, k, j, c.word, Arguments(c));
    assert s[k] == c.word[0];
    SkipBlanks(s, i, c.ws);
    e := k + |c.word|;
    var _, _ := CutFirst(c, s, e, j);
  }

  function Arguments(c: Cst): string
    requires c.CCall?
  {
    c.openWs + ("(" + (Source(c.a) + SecondArgument(c)))
  }

  function SecondArgument(c: Cst): string
    requires c.CCall?
  {
    c.commaWs + ("," + (Source(c.b) + (c.closeWs + ")")))
  }

  lemma CutFirst(c: Cst, s: string, e: nat, j: nat) returns (k: nat, m: nat)
    requires c.CCall? && Blank(c.openWs) && e <= j <= |s| && s[e..j] == Arguments(c)
    ensures Skip(s, e) == k < m <= j && s[k] == '(' && Boundary(s, e)
    ensures s[k + 1..m] == Source(c.a) && s[m..j] == SecondArgument(c)
  {
    Cut(s, e, j, c.openWs, "(" + (Source(c.a) + SecondArgument(c)));
    k := e + |c.openWs|;
    Cut(s, k, j, "(", Source(c.a) + SecondArgument(c));
    assert s[k] == s[k..k + 1][0];
    ClosingToken(s, e, k, c.openWs, '(');
    Cut(s, k + 1, j, Source(c.a), SecondArgument(c));
    m := k + 1 + |Source(c.a)|;
  }

  lemma CutSecond(c: Cst, s: string, m: nat, j: nat) returns (n: nat, p: nat)
    requires c.CCall? && Blank(c.commaWs) && Blank(c.closeWs) && m <= j <= |s| && s[m..j] == SecondArgument(c)
    ensures Skip(s, m) == n < p < j && s[n] == ',' && Boundary(s, m)
    ensures s[n + 1..p] == Source(c.b)
    ensures Skip(s, p) == j - 1 && s[j - 1] == ')' && Boundary(s, p)
  {
    Cut(s, m, j, c.commaWs, "," + (Source(c.b) + (c.closeWs + ")")));
    n := m + |c.commaWs|;
    Cut(s, n, j, ",", Source(c.b) + (c.closeWs + ")"));
    assert s[n] == s[n..n + 1][0];
    ClosingToken(s, m, n, c.commaWs, ',');
    Cut(s, n + 1, j, Source(c.b), c.closeWs + ")");
    p := n + 1 + |Source(c.b)|;
    Cut(s, p, j, c.closeWs, ")");
    assert s[j - 1] == s[j - 1..j][0];
    ClosingToken(s, p, j - 1, c.closeWs, ')');
  }

  lemma {:induction false} CallComplete(c: Cst, s: string, i: nat, j: nat)
    requires c.CCall? && Wf(c, Factor) && i <= j <= |s| && s[i..j] == Source(c)
    ensures Wf(c, Sum) && FactorAt(s, i) == Ok(Parsed(Tree(c), j))
    decreases c, 3
  {
    hide Source, ExprAt, ExprTail, TermAt, TermTail, FactorAt, NameAt, CallAt, NumberAt, Skip;
    assert Wf(c, Sum) && Tree(c) == Bin(CallOp(ToLower(c.word)), Tree(c.a), Tree(c.b));
    hide Tree;
    var k, e := CutWord(c, s, i, j);
    assert Wf(c.a, Sum) && Wf(c.b, Sum) && IsWord(c.word) && ToLower(c.word) in {"max", "min"};
    hide ToLower, IsWord, Wf;
    NameUnfold(s, i, e, c.word);
    ArgumentListComplete(c, s, e, j);
  }

  lemma {:induction false} ArgumentListComplete(c: Cst, s: string, e: nat, j: nat)
    requires c.CCall? && Blank(c.openWs) && Blank(c.commaWs) && Blank(c.closeWs)
    requires Wf(c.a, Sum) && Wf(c.b, Sum) && e <= j <= |s| && s[e..j] == Arguments(c)
    ensures CallAt(s, e, ToLower(c.word))
            == Ok(Parsed(Bin(CallOp(ToLower(c.word)), Tree(c.a), Tree(c.b)), j))
    decreases c, 2
  {
    hide ToLower, Tree, Wf, Source, CallAt, ExprAt, Skip;
    var k, m, n, p := CutArguments(c, s, e, j);
    ArgumentsComplete(c, s, e, m, n, p, j - 1, ToLower(c.word));
  }

  lemma NameUnfold(s: string, i: nat, e: nat, word: string)
    requires i <= |s| && Skip(s, i) < e <= |s| && s[Skip(s, i)..e] == word && IsWord(word)
    requires e < |s| ==> !IsNameChar(s[e])
    requires ToLower(word) in {"max", "min"}
    ensures FactorAt(s, i) == CallAt(s, e, ToLower(word))
  {
    NameRun(s, Skip(s, i), e, word);
  }

  /** The positions of the two arguments and of the tokens around them. */
  lemma CutArguments(c: Cst, s: string, e: nat, j: nat) returns (k: nat, m: nat, n: nat, p: nat)
    requires c.CCall? && Blank(c.openWs) && Blank(c.commaWs) && Blank(c.closeWs)
    requires e <= j <= |s| && s[e..j] == Arguments(c)
    ensures Skip(s, e) == k < m <= n < p < j
    ensures s[k] == '(' && s[n] == ',' && s[j - 1] == ')'
    ensures s[k + 1..m] == Source(c.a) && Boundary(s, m) && Skip(s, m) == n
    ensures s[n + 1..p] == Source(c.b) && Boundary(s, p) && Skip(s, p) == j - 1
  {
    k, m := CutFirst(c, s, e, j);
    n, p := CutSecond(c, s, m, j);
  }

  lemma {:induction false} ArgumentsComplete(
    c: Cst, s: string, e: nat, m: nat, n: nat, p: nat, q: nat, fn: string)
    requires c.CCall? && Wf(c.a, Sum) && Wf(c.b, Sum)
    requires e <= |s| && Skip(s, e) < m <= n < p <= q < |s|
    requires s[Skip(s, e)] == '(' && s[n] == ',' && s[q] == ')'
    requires s[Skip(s, e) + 1..m] == Source(c.a) && Boundary(s, m) && Skip(s, m) == n
    requires s[n + 1..p] == Source(c.b) && Boundary(s, p) && Skip(s, p) == q
    ensures CallAt(s, e, fn) == Ok(Parsed(Bin(CallOp(fn), Tree(c.a), Tree(c.b)), q + 1))
    decreases c, 1
  {
    hide Wf, Tree, Source, ExprAt, CallAt, Skip;
    EnclosedComplete(c.a, s, Skip(s, e) + 1, m);
    EnclosedComplete(c.b, s, n + 1, p);
    CallUnfold(s, e, fn, Parsed(Tree(c.a), n), Parsed(Tree(c.b), q));
  }

  /** One pass through the argument list when every token is in place. */
  lemma CallUnfold(s: string, e: nat, fn: string, a: Parsed, b: Parsed)
    requires e <= |s| && CharAt(s, Skip(s, e), '(') && ExprAt(s, Skip(s, e) + 1) == Ok(a)
    requires Skip(s, a.pos) == a.pos && CharAt(s, a.pos, ',') && ExprAt(s, a.pos + 1) == Ok(b)
    requires Skip(s, b.pos) == b.pos && CharAt(s, b.pos, ')')
    ensures CallAt(s, e, fn) == Ok(Parsed(Bin(CallOp(fn), a.tree, b.tree), b.pos + 1))
  {}

  /** An expression's text before a comma or a closing parenthesis parses up to it. */
  lemma {:induction false} EnclosedComplete(c: Cst, s: string, i: nat, m: nat)
    requires Wf(c, Sum) && i <= m <= |s| && s[i..m] == Source(c) && Boundary(s, m)
    requires CharAt(s, Skip(s, m), ',') || CharAt(s, Skip(s, m), ')')
    ensures ExprAt(s, i) == Ok(Parsed(Tree(c), Skip(s, m)))
    ensures Skip(s, Skip(s, m)) == Skip(s, m)
    decreases c, 7
  {
    ExprComplete(c, s, i, m);
    ExprTailStops(s, m, Tree(c));
  }

  /** Where the left operand ends and the sign stands in the text of a binary tree. */
  lemma CutBin(c: Cst, s: string, i: nat, j: nat) returns (m: nat, n: nat)
    requires c.CBin? && Blank(c.ws) && c.sign in {'+', '-', '*', '/'}
    requires i <= j <= |s| && s[i..j] == Source(c)
    ensures i <= m <= n < j && s[i..m] == Source(c.left) && s[n + 1..j] == Source(c.right)
    ensures Skip(s, m) == n && s[n] == c.sign && Boundary(s, m)
  {
    var CBin(left, ws, sign, right) := c;
    assert Source(c) == Source(left) + (ws + ([sign] + Source(right)));
    Cut(s, i, j, Source(left), ws + ([sign] + Source(right)));
    m := i + |Source(left)|;
    Cut(s, m, j, ws, [sign] + Source(right));
    n := m + |ws|;
    Cut(s, n, j, [sign], Source(right));
    assert s[n] == s[n..n + 1][0];
    ClosingToken(s, m, n, ws, sign);
  }

  /** Parsing a term's text brings parseTerm into its loop with the term's tree. */
  lemma {:induction false} TermComplete(c: Cst, s: string, i: nat, j: nat)
    requires Wf(c, Term) && i <= j <= |s|
    requires s[i..j] == Source(c) && Boundary(s, j)
    ensures Wf(c, Sum) && TermAt(s, i) == TermTail(s, j, Tree(c))
    decreases c, 5
  {
    hide Source, ExprAt, ExprTail, TermAt, TermTail, FactorAt, NameAt, CallAt, NumberAt, Skip;
    Loosen(c);
    if c.CBin? {
      var m, n := CutBin(c, s, i, j);
      TermComplete(c.left, s, i, m);
      FactorComplete(c.right, s, n + 1, j);
      TermTailStep(s, m, Tree(c.left), Tree(c.right), j);
    } else {
      FactorComplete(c, s, i, j);
      TermUnfold(s, i);
    }
  }

  lemma TermUnfold(s: string, i: nat)
    requires i <= |s| && FactorAt(s, i).Ok?
    ensures var p := FactorAt(s, i).value; TermAt(s, i) == TermTail(s, p.pos, p.tree)
  {}

  lemma ExprUnfold(s: string, i: nat)
    requires i <= |s| && TermAt(s, i).Ok?
    ensures var p := TermAt(s, i).value; ExprAt(s, i) == ExprTail(s, p.pos, p.tree)
  {}

  lemma TermTailStep(s: string, m: nat, left: Expr, right: Expr, j: nat)
    requires m <= |s|
    requires var n := Skip(s, m);
             (CharAt(s, n, '*') || CharAt(s, n, '/')) && FactorAt(s, n + 1) == Ok(Parsed(right, j))
    ensures TermTail(s, m, left) == TermTail(s, j, Bin(OpOf(s[Skip(s, m)]), left, right))
  {
    hide Skip;
  }

  lemma ExprTailStep(s: string, m: nat, left: Expr, right: Expr, j: nat)
    requires m <= |s|
    requires var n := Skip(s, m);
             (CharAt(s, n, '+') || CharAt(s, n, '-')) && TermAt(s, n + 1) == Ok(Parsed(right, j))
    ensures ExprTail(s, m, left) == ExprTail(s, j, Bin(OpOf(s[Skip(s, m)]), left, right))
  {
    hide Skip;
  }

  /** A closed term: parseTerm stops after its trailing blanks, and parseExpr's loop
      does not care about those blanks. */
  lemma ClosedTerm(s: string, i: nat, j: nat, t: Expr)
    requires i <= |s| && j <= |s| && TermAt(s, i) == TermTail(s, j, t) && Closed(s, j)
    ensures TermAt(s, i) == Ok(Parsed(t, Skip(s, j)))
    ensures forall left :: ExprTail(s, Skip(s, j), left) == ExprTail(s, j, left)
  {
    SkipRun(s, j);
  }

  /** Parsing an expression's text brings parseExpr into its loop with its tree. */
  lemma {:induction false} ExprComplete(c: Cst, s: string, i: nat, j: nat)
    requires Wf(c, Sum) && i <= j <= |s|
    requires s[i..j] == Source(c) && Closed(s, j)
    ensures ExprAt(s, i) == ExprTail(s, j, Tree(c))
    decreases c, 6
  {
    hide Source, ExprAt, ExprTail, TermAt, TermTail, FactorAt, NameAt, CallAt, NumberAt, Skip;
    Loosen(c);
    if c.CBin? && c.sign in {'+', '-'} {
      var m, n := CutBin(c, s, i, j);
      ExprComplete(c.left, s, i, m);
      TermComplete(c.right, s, n + 1, j);
      ClosedTerm(s, n + 1, j, Tree(c.right));
      ExprTailStep(s, m, Tree(c.left), Tree(c.right), Skip(s, j));
    } else {
      TermComplete(c, s, i, j);
      ClosedTerm(s, i, j, Tree(c));
      ExprUnfold(s, i);
    }
  }

  // ----- Soundness: every successful parse comes from a derivation -----

  /** The blanks skipped from i, as a string. */
  function BlanksAt(s: string, i: nat): string
    requires i <= |s|
  {
    s[i..Skip(s, i)]
  }

  lemma BlanksAreBlank(s: string, i: nat)
    requires i <= |s|
    ensures Blank(BlanksAt(s, i))
    ensures Skip(s, Skip(s, i)) == Skip(s, i)
  {
    SkipRun(s, i);
  }

  /** Joining adjacent pieces of s. */
  lemma Glue(s: string, i: nat, j: nat, k: nat)
    requires i <= j <= k <= |s|
    ensures s[i..k] == s[i..j] + s[j..k]
  {}

  /** Extending a piece of s by the character behind it. */
  lemma GlueToken(s: string, i: nat, j: nat)
    requires i <= j < |s|
    ensures s[i..j + 1] == s[i..j] + [s[j]]
  {}

  lemma {:induction false} FactorSound(s: string, i: nat) returns (c: Cst)
    requires i <= |s| && FactorAt(s, i).Ok?
    ensures Wf(c, Factor) && Wf(c, Sum)
    ensures Source(c) == s[i..FactorAt(s, i).value.pos] && Tree(c) == FactorAt(s, i).value.tree
    decreases |s| - i, 1
  {
    FactorGoesOn(s, i);
    hide FactorAt, ExprAt, NumberAt, NameAt, Skip, Source, Tree, Wf, ToLower, NameEnd;
    var k := Skip(s, i);
    if s[k] == '-' {
      var inner := FactorSound(s, k + 1);
      c := NegSound(s, i, inner);
    } else if s[k] == '(' {
      var inner, e := ExprSound(s, k + 1);
      c := ParenSound(s, i, inner, e);
    } else if IsNumberChar(s[k]) {
      c := NumberSound(s, i);
    } else if IsCallName(ToLower(s[k..NameEnd(s, k)])) {
      c := CallSound(s, i);
    } else {
      c := VariableSound(s, i);
    }
    Loosen(c);
  }

  /** A successful parseFactor has parsed what its first character calls for. */
  lemma FactorGoesOn(s: string, i: nat)
    requires i <= |s| && FactorAt(s, i).Ok?
    ensures Skip(s, i) < |s|
    ensures s[Skip(s, i)] == '-' ==> FactorAt(s, Skip(s, i) + 1).Ok?
    ensures s[Skip(s, i)] == '(' ==> ExprAt(s, Skip(s, i) + 1).Ok?
  {}

  predicate IsCallName(name: string) {
    name == "max" || name == "min"
  }

  lemma NegSound(s: string, i: nat, inner: Cst) returns (c: Cst)
    requires i <= |s| && CharAt(s, Skip(s, i), '-')
    requires FactorAt(s, Skip(s, i) + 1).Ok?
    requires Wf(inner, Factor) && Wf(inner, Sum)
    requires Source(inner) == s[Skip(s, i) + 1..FactorAt(s, Skip(s, i) + 1).value.pos]
    requires Tree(inner) == FactorAt(s, Skip(s, i) + 1).value.tree
    ensures c.CNeg? && Wf(c, Factor) && FactorAt(s, i).Ok?
    ensures Source(c) == s[i..FactorAt(s, i).value.pos] && Wf(c, Sum) && Tree(c) == FactorAt(s, i).value.tree
  {
    var k := Skip(s, i);
    var j := FactorAt(s, k + 1).value.pos;
    NegUnfold(s, i);
    hide FactorAt, Skip;
    BlanksAreBlank(s, i);
    c := CNeg(BlanksAt(s, i), inner);
    NegSource(s, i, k, j, c);
    hide Source;
    assert Wf(c, Factor);
    Loosen(c);
  }

  lemma NegSource(s: string, i: nat, k: nat, j: nat, c: Cst)
    requires i <= k < j <= |s| && c.CNeg? && c.ws == s[i..k] && s[k] == '-' && Source(c.inner) == s[k + 1..j]
    ensures Source(c) == s[i..j]
  {
    GlueToken(s, i, k);
    Glue(s, i, k + 1, j);
  }

  lemma ParenSound(s: string, i: nat, inner: Cst, e: nat) returns (c: Cst)
    requires i <= |s| && CharAt(s, Skip(s, i), '(') && FactorAt(s, i).Ok?
    requires ExprAt(s, Skip(s, i) + 1).Ok?
    requires Skip(s, i) + 1 <= e <= ExprAt(s, Skip(s, i) + 1).value.pos == Skip(s, e)
    requires Wf(inner, Sum) && Source(inner) == s[Skip(s, i) + 1..e]
    requires Tree(inner) == ExprAt(s, Skip(s, i) + 1).value.tree
    ensures Wf(c, Factor) && Wf(c, Sum)
    ensures Source(c) == s[i..FactorAt(s, i).value.pos] && Tree(c) == FactorAt(s, i).value.tree
  {
    var k, m := Skip(s, i), Skip(s, e);
    ParenEnds(s, i);
    SkipRun(s, e);
    hide FactorAt, ExprAt, Skip;
    BlanksAreBlank(s, i);
    BlanksAreBlank(s, e);
    c := CParen(BlanksAt(s, i), inner, BlanksAt(s, e));
    ParenSource(s, i, k, e, m, c);
    hide Source;
  }

  lemma ParenEnds(s: string, i: nat)
    requires i <= |s| && CharAt(s, Skip(s, i), '(') && FactorAt(s, i).Ok?
    ensures var inner := ExprAt(s, Skip(s, i) + 1);
            && inner.Ok? && CharAt(s, Skip(s, inner.value.pos), ')')
            && FactorAt(s, i).value == Parsed(inner.value.tree, Skip(s, inner.value.pos) + 1)
  {}

  lemma ParenSource(s: string, i: nat, k: nat, e: nat, m: nat, c: Cst)
    requires i <= k < e + 1 && k + 1 <= e <= m < |s| && s[k] == '(' && s[m] == ')'
    requires c.CParen? && c.ws == s[i..k] && Source(c.inner) == s[k + 1..e] && c.closeWs == s[e..m]
    ensures Source(c) == s[i..m + 1]
  {
    GlueToken(s, i, k);
    Glue(s, i, k + 1, e);
    Glue(s, i, e, m);
    GlueToken(s, i, m);
  }

  lemma NumberSound(s: string, i: nat) returns (c: Cst)
    requires i <= |s| && FactorAt(s, i).Ok? && IsNumberChar(s[Skip(s, i)])
    ensures Wf(c, Factor) && Wf(c, Sum)
    ensures Source(c) == s[i..FactorAt(s, i).value.pos] && Tree(c) == FactorAt(s, i).value.tree
  {
    var k := Skip(s, i);
    var j := NumberEnd(s, k);
    BlanksAreBlank(s, i);
    NumberEndRun(s, k);
    c := CNum(BlanksAt(s, i), s[k..j]);
    Glue(s, i, k, j);
  }

  /** Facts about the word that starts at k. */
  lemma WordAt(s: string, k: nat)
    requires k < |s| && IsNameStart(s[k])
    ensures k < NameEnd(s, k) && IsWord(s[k..NameEnd(s, k)])
    ensures NameEnd(s, k) < |s| ==> !IsNameChar(s[NameEnd(s, k)])
  {
    NameEndRun(s, k);
  }

  lemma VariableSound(s: string, i: nat) returns (c: Cst)
    requires i <= |s| && FactorAt(s, i).Ok?
    requires s[Skip(s, i)] != '-' && s[Skip(s, i)] != '(' && !IsNumberChar(s[Skip(s, i)])
    requires !IsCallName(ToLower(s[Skip(s, i)..NameEnd(s, Skip(s, i))]))
    ensures Wf(c, Factor) && Wf(c, Sum)
    ensures Source(c) == s[i..FactorAt(s, i).value.pos] && Tree(c) == FactorAt(s, i).value.tree
  {
    var k := Skip(s, i);
    var j := NameEnd(s, k);
    BlanksAreBlank(s, i);
    WordAt(s, k);
    c := CVar(BlanksAt(s, i), s[k..j]);
    Glue(s, i, k, j);
  }

  lemma {:induction false} CallSound(s: string, i: nat) returns (c: Cst)
    requires i <= |s| && FactorAt(s, i).Ok?
    requires s[Skip(s, i)] != '-' && s[Skip(s, i)] != '(' && !IsNumberChar(s[Skip(s, i)])
    requires IsCallName(ToLower(s[Skip(s, i)..NameEnd(s, Skip(s, i))]))
    ensures Wf(c, Factor) && Wf(c, Sum)
    ensures Source(c) == s[i..FactorAt(s, i).value.pos] && Tree(c) == FactorAt(s, i).value.tree
    decreases |s| - i, 0
  {
    var k := Skip(s, i);
    var j := NameEnd(s, k);
    WordAt(s, k);
    BlanksAreBlank(s, i);
    NameUnfold(s, i, j, s[k..j]);
    Glue(s, i, k, j);
    hide Source, ToLower, IsWord, FactorAt, CallAt, ExprAt, Skip;
    c := ArgumentsSound(s, i, j, BlanksAt(s, i), s[k..j], ToLower(s[k..j]));
  }

  /** The derivation of a call, given the blanks and the name before its arguments. */
  lemma {:induction false} ArgumentsSound(s: string, from: nat, e: nat, ws: string, word: string, fn: string)
    returns (c: Cst)
    requires from <= e <= |s| && s[from..e] == ws + word && Blank(ws) && IsWord(word)
    requires fn == ToLower(word) && IsCallName(fn) && CallAt(s, e, fn).Ok?
    ensures Wf(c, Factor) && Wf(c, Sum)
    ensures Source(c) == s[from..CallAt(s, e, fn).value.pos] && Tree(c) == CallAt(s, e, fn).value.tree
    decreases |s| - e, 5
  {
    hide ToLower, IsCallName, IsWord, Wf, Tree, Source, CallAt, ExprAt, Skip;
    var k, m, n := CallTokens(s, e, fn);
    var a, pa := ExprSound(s, k + 1);
    var b, pb := ExprSound(s, m + 1);
    BlanksAreBlank(s, e);
    BlanksAreBlank(s, pa);
    BlanksAreBlank(s, pb);
    c := CallOf(ws, word, s[e..k], a, s[pa..m], b, s[pb..n]);
    CallSource(s, from, e, k, pa, m, pb, n, c);
  }

  lemma CallOf(ws: string, word: string, openWs: string, a: Cst, commaWs: string, b: Cst, closeWs: string)
    returns (c: Cst)
    requires Blank(ws) && IsWord(word) && IsCallName(ToLower(word)) && Blank(openWs) && Blank(commaWs) && Blank(closeWs)
    requires Wf(a, Sum) && Wf(b, Sum)
    ensures c == CCall(ws, word, openWs, a, commaWs, b, closeWs) && Wf(c, Factor) && Wf(c, Sum)
    ensures Tree(c) == Bin(CallOp(ToLower(word)), Tree(a), Tree(b))
  {
    c := CCall(ws, word, openWs, a, commaWs, b, closeWs);
  }

  lemma CallSource(s: string, i: nat, j: nat, k: nat, pa: nat, m: nat, pb: nat, n: nat, c: Cst)
    requires i <= j <= k < pa + 1 && k + 1 <= pa <= m < pb + 1 && m + 1 <= pb <= n < |s|
    requires s[k] == '(' && s[m] == ',' && s[n] == ')' && c.CCall?
    requires c.ws + c.word == s[i..j] && c.openWs == s[j..k] && Source(c.a) == s[k + 1..pa]
    requires c.commaWs == s[pa..m] && Source(c.b) == s[m + 1..pb] && c.closeWs == s[pb..n]
    ensures Source(c) == s[i..n + 1]
  {
    Glue(s, i, j, k);
    GlueToken(s, i, k);
    Glue(s, i, k + 1, pa);
    Glue(s, i, pa, m);
    GlueToken(s, i, m);
    Glue(s, i, m + 1, pb);
    Glue(s, i, pb, n);
    GlueToken(s, i, n);
  }

  /** Where the tokens of a successfully parsed argument list stand. */
  lemma CallTokens(s: string, e: nat, fn: string) returns (k: nat, m: nat, n: nat)
    requires e <= |s| && CallAt(s, e, fn).Ok?
    ensures e <= k == Skip(s, e) < m < n < |s| && s[k] == '(' && s[m] == ',' && s[n] == ')'
    ensures ExprAt(s, k + 1).Ok? && Skip(s, ExprAt(s, k + 1).value.pos) == m
    ensures ExprAt(s, m + 1).Ok? && Skip(s, ExprAt(s, m + 1).value.pos) == n
    ensures CallAt(s, e, fn).value
            == Parsed(Bin(CallOp(fn), ExprAt(s, k + 1).value.tree, ExprAt(s, m + 1).value.tree), n + 1)
  {
    k := Skip(s, e);
    m := Skip(s, ExprAt(s, k + 1).value.pos);
    n := Skip(s, ExprAt(s, m + 1).value.pos);
  }

  /** A successful parseTerm: the derivation ends at e, and parsing after the blanks behind it. */
  lemma {:induction false} TermSound(s: string, i: nat) returns (c: Cst, e: nat)
    requires i <= |s| && TermAt(s, i).Ok?
    ensures Wf(c, Term) && Wf(c, Sum) && i <= e <= |s| && s[i..e] == Source(c)
    ensures Tree(c) == TermAt(s, i).value.tree && Skip(s, e) == TermAt(s, i).value.pos
    decreases |s| - i, 2
  {
    var first := FactorSound(s, i);
    Loosen(first);
    TermUnfold(s, i);
    var j := FactorAt(s, i).value.pos;
    c, e := TermTailSound(s, i, j, first);
  }

  lemma {:induction false} TermTailSound(s: string, from: nat, i: nat, left: Cst) returns (c: Cst, e: nat)
    requires from < i <= |s| && s[from..i] == Source(left) && Wf(left, Term) && Wf(left, Sum)
    requires TermTail(s, i, Tree(left)).Ok?
    ensures Wf(c, Term) && Wf(c, Sum) && from <= e <= |s| && s[from..e] == Source(c)
    ensures Tree(c) == TermTail(s, i, Tree(left)).value.tree && Skip(s, e) == TermTail(s, i, Tree(left)).value.pos
    decreases |s| - i, 4
  {
    hide Source, Wf, Tree, TermTail, FactorAt, Skip, OpOf;
    var n := Skip(s, i);
    if CharAt(s, n, '*') || CharAt(s, n, '/') {
      TermGoesOn(s, i, Tree(left));
      var right := FactorSound(s, n + 1);
      var j := FactorAt(s, n + 1).value.pos;
      TermTailStep(s, i, Tree(left), Tree(right), j);
      var next := ProductSound(s, from, i, n, j, left, right);
      c, e := TermTailSound(s, from, j, next);
    } else {
      TermTailStops(s, i, Tree(left));
      c, e := left, i;
    }
  }

  lemma TermTailStops(s: string, i: nat, left: Expr)
    requires i <= |s| && !CharAt(s, Skip(s, i), '*') && !CharAt(s, Skip(s, i), '/')
    ensures TermTail(s, i, left) == Ok(Parsed(left, Skip(s, i)))
  {}

  /** A successful loop of parseTerm at a sign has parsed the factor behind it. */
  lemma TermGoesOn(s: string, i: nat, left: Expr)
    requires i <= |s| && TermTail(s, i, left).Ok?
    requires CharAt(s, Skip(s, i), '*') || CharAt(s, Skip(s, i), '/')
    ensures FactorAt(s, Skip(s, i) + 1).Ok? && Skip(s, i) + 1 < FactorAt(s, Skip(s, i) + 1).value.pos <= |s|
  {}

  /** Joining a term's text, a sign and a factor's text. */
  lemma ProductSound(s: string, from: nat, i: nat, n: nat, j: nat, left: Cst, right: Cst) returns (c: Cst)
    requires from <= i <= n < j <= |s| && Skip(s, i) == n && s[n] in {'*', '/'}
    requires Wf(left, Term) && Wf(left, Sum) && Wf(right, Factor) && Wf(right, Sum)
    requires s[from..i] == Source(left) && s[n + 1..j] == Source(right)
    ensures Wf(c, Term) && Wf(c, Sum) && Tree(c) == Bin(OpOf(s[n]), Tree(left), Tree(right)) && s[from..j] == Source(c)
  {
    BlanksAreBlank(s, i);
    c := CBin(left, BlanksAt(s, i), s[n], right);
    hide Skip;
    BinSource(s, from, i, n, j, c);
    hide Source;
    Loosen(c);
  }

  /** A sum of an expression and a term is an expression. */
  lemma BinTree(c: Cst)
    requires c.CBin? && Blank(c.ws) && c.sign in {'+', '-'} && Wf(c.left, Sum) && Wf(c.right, Term)
    ensures Wf(c, Sum) && Wf(c.right, Sum) && Tree(c) == Bin(OpOf(c.sign), Tree(c.left), Tree(c.right))
  {
    Loosen(c);
  }

  lemma BinSource(s: string, from: nat, i: nat, n: nat, j: nat, c: Cst)
    requires from <= i <= n < j <= |s|
    requires c.CBin? && c.sign == s[n] && c.ws == s[i..n]
    requires s[from..i] == Source(c.left) && s[n + 1..j] == Source(c.right)
    ensures s[from..j] == Source(c)
  {
    Glue(s, from, i, n);
    GlueToken(s, from, n);
    Glue(s, from, n + 1, j);
  }

  lemma {:induction false} ExprSound(s: string, i: nat) returns (c: Cst, e: nat)
    requires i <= |s| && ExprAt(s, i).Ok?
    ensures Wf(c, Sum) && i <= e <= |s| && s[i..e] == Source(c)
    ensures Tree(c) == ExprAt(s, i).value.tree && Skip(s, e) == ExprAt(s, i).value.pos
    decreases |s| - i, 3
  {
    var first, k := TermSound(s, i);
    ExprUnfold(s, i);
    BlanksAreBlank(s, k);
    c, e := ExprTailSound(s, i, k, Skip(s, k), first);
  }

  /** The loop of parseExpr, entered at i with the text of left ending before the blanks at k. */
  lemma {:induction false} ExprTailSound(s: string, from: nat, k: nat, i: nat, left: Cst) returns (c: Cst, e: nat)
    requires from <= k <= i <= |s| && from < i && Skip(s, k) == Skip(s, i)
    requires s[from..k] == Source(left) && Wf(left, Sum)
    requires ExprTail(s, i, Tree(left)).Ok?
    ensures Wf(c, Sum) && from <= e <= |s| && s[from..e] == Source(c)
    ensures Tree(c) == ExprTail(s, i, Tree(left)).value.tree && Skip(s, e) == ExprTail(s, i, Tree(left)).value.pos
    decreases |s| - i, 4
  {
    hide Source, Wf, Tree, ExprTail, TermAt, Skip, OpOf;
    var n := Skip(s, i);
    if CharAt(s, n, '+') || CharAt(s, n, '-') {
      ExprGoesOn(s, i, Tree(left));
      var right, m := TermSound(s, n + 1);
      var j := TermAt(s, n + 1).value.pos;
      ExprTailStep(s, i, Tree(left), Tree(right), j);
      var next := SumSound(s, from, k, n, m, left, right);
      BlanksAreBlank(s, m);
      c, e := ExprTailSound(s, from, m, j, next);
    } else {
      ExprTailStops(s, i, Tree(left));
      c, e := left, k;
    }
  }

  /** A successful loop of parseExpr at a sign has parsed the term behind it. */
  lemma ExprGoesOn(s: string, i: nat, left: Expr)
    requires i <= |s| && ExprTail(s, i, left).Ok?
    requires CharAt(s, Skip(s, i), '+') || CharAt(s, Skip(s, i), '-')
    ensures TermAt(s, Skip(s, i) + 1).Ok? && Skip(s, i) + 1 < TermAt(s, Skip(s, i) + 1).value.pos <= |s|
  {}

  /** Joining an expression's text, a sign and a term's text. */
  lemma SumSound(s: string, from: nat, k: nat, n: nat, m: nat, left: Cst, right: Cst) returns (c: Cst)
    requires from <= k <= n < m <= |s| && Skip(s, k) == n && s[n] in {'+', '-'}
    requires Wf(left, Sum) && Wf(right, Term) && Wf(right, Sum)
    requires s[from..k] == Source(left) && s[n + 1..m] == Source(right)
    ensures Wf(c, Sum) && Tree(c) == Bin(OpOf(s[n]), Tree(left), Tree(right)) && s[from..m] == Source(c)
  {
    BlanksAreBlank(s, k);
    c := CBin(left, BlanksAt(s, k), s[n], right);
    BinSource(s, from, k, n, m, c);
    BinTree(c);
  }

  // ----- The theorems -----

  /** Every derivation of the grammar, with any blanks behind it, parses to its tree. */
  lemma ParseComplete(c: Cst, trailing: string)
    requires Wf(c, Sum) && Blank(trailing)
    ensures Parse(Source(c) + trailing) == Ok(Tree(c))
  {
    var s := Source(c) + trailing;
    var j := |Source(c)|;
    assert s[0..j] == Source(c);
    SkipTo(s, j, |s|);
    ExprComplete(c, s, 0, j);
    ExprTailStops(s, j, Tree(c));
  }

  /** Every accepted input is a derivation of the grammar with blanks behind it. */
  lemma ParseSound(s: string) returns (c: Cst, trailing: string)
    requires Parse(s).Ok?
    ensures Wf(c, Sum) && Blank(trailing) && s == Source(c) + trailing && Tree(c) == Parse(s).value
  {
    var e;
    c, e := ExprSound(s, 0);
    BlanksAreBlank(s, e);
    trailing := s[e..];
    Glue(s, 0, e, |s|);
  }

  /** The parser accepts exactly the grammar, with the grammar's tree. */
  lemma ParseIffDerivation(s: string, t: Expr)
    ensures Parse(s) == Ok(t)
       <==> exists c: Cst, trailing: string ::
              Wf(c, Sum) && Blank(trailing) && s == Source(c) + trailing && Tree(c) == t
  {
    if Parse(s) == Ok(t) {
      var c, trailing := ParseSound(s);
    }
    forall c: Cst, trailing: string | Wf(c, Sum) && Blank(trailing) && s == Source(c) + trailing && Tree(c) == t
      ensures Parse(s) == Ok(t)
    {
      ParseComplete(c, trailing);
    }
  }

  /** The grammar is unambiguous: one text, one tree. */
  lemma Unambiguous(c: Cst, d: Cst)
    requires Wf(c, Sum) && Wf(d, Sum) && Source(c) == Source(d)
    ensures Tree(c) == Tree(d)
  {
    ParseComplete(c, "");
    ParseComplete(d, "");
  }
}
