/** Printing price expressions, with parentheses only where precedence needs
    them, and reading them back with any blanks between the tokens. */
module PricePrinting {
  import opened Text
  import opened PriceSyntax

  function LiteralText(digits: nat, decimals: nat): string {
    FormatNat(DropDigits(digits, decimals)) + if decimals == 0 then "" else "." + PadNat(digits, decimals)
  }

  function Sign(op: Op): char
    requires !op.Max? && !op.Min?
  {
    match op
    case Add => '+'
    case Sub => '-'
    case Mul => '*'
    case Div => '/'
  }

  /** The derivation printed for e where the grammar expects `level`, without blanks. */
  function Printed(e: Expr, level: Level): Cst {
    match e
    case Num(digits, decimals) => CNum("", LiteralText(digits, decimals))
    case Var(v) => CVar("", VariableName(v))
    case Neg(inner) => CNeg("", Printed(inner, Factor))
    case Bin(op, left, right) =>
      if op.Max? || op.Min? then
        CCall("", if op.Min? then "min" else "max", "", Printed(left, Sum), "", Printed(right, Sum), "")
      else if op.Mul? || op.Div? then
        var body := CBin(Printed(left, Term), "", Sign(op), Printed(right, Factor));
        if level == Factor then CParen("", body, "") else body
      else
        var body := CBin(Printed(left, Sum), "", Sign(op), Printed(right, Term));
        if level == Sum then body else CParen("", body, "")
  }

  lemma {:induction false} CountAppend(s: string, t: string, c: char)
    ensures Count(s + t, c) == Count(s, c) + Count(t, c)
  {
    if t == "" {
      assert s + t == s;
    } else {
      CountAppend(s, t[..|t| - 1], c);
      assert (s + t)[..|s + t| - 1] == s + t[..|t| - 1];
    }
  }

  lemma {:induction false} CountDigits(s: string)
    requires AllDigits(s)
    ensures Count(s, '.') == 0
  {
    if s != "" {
      CountDigits(s[..|s| - 1]);
    }
  }

  /** A literal made of head, a dot and tail is good and splits at that dot. */
  lemma DottedLiteral(head: string, tail: string)
    requires AllDigits(head) && AllDigits(tail) && head != "" && tail != ""
    ensures var lit := head + "." + tail;
            GoodLiteral(lit) && LiteralTree(lit) == Num(DigitsValue(head + tail), |tail|)
  {
    var lit := head + "." + tail;
    DottedCount(head, tail);
    assert lit[..|head|] == head && lit[|head| + 1..] == tail;
    IndexOfIs(lit, '.', |head|);
  }

  lemma DottedCount(head: string, tail: string)
    requires AllDigits(head) && AllDigits(tail)
    ensures Count(head + "." + tail, '.') == 1
  {
    CountDigits(head);
    CountDigits(tail);
    CountAppend(head, ".", '.');
    CountAppend(head + ".", tail, '.');
    assert Count(".", '.') == 1;
  }

  /** A printed constant reads back as the same digits and the same number of decimals. */
  lemma LiteralRoundTrip(digits: nat, decimals: nat)
    ensures GoodLiteral(LiteralText(digits, decimals))
    ensures LiteralTree(LiteralText(digits, decimals)) == Num(digits, decimals)
  {
    var head, tail := FormatNat(DropDigits(digits, decimals)), PadNat(digits, decimals);
    SplitDigitsValue(digits, decimals);
    if decimals == 0 {
      var lit := LiteralText(digits, decimals);
      assert lit == head == head + tail;
      CountDigits(lit);
      IndexOfIs(lit, '.', |lit|);
    } else {
      assert LiteralText(digits, decimals) == head + "." + tail;
      DottedLiteral(head, tail);
    }
  }

  lemma {:induction false} PrintedTree(e: Expr, level: Level)
    ensures Wf(Printed(e, level), level) && Wf(Printed(e, level), Sum)
    ensures Tree(Printed(e, level)) == e
  {
    hide ToLower, IsWord, LiteralText, GoodLiteral, LiteralTree, Sign, OpOf;
    match e
    case Num(digits, decimals) => LiteralRoundTrip(digits, decimals);
    case Var(v) => VariableNames(v);
    case Neg(inner) => PrintedTree(inner, Factor);
    case Bin(op, left, right) =>
      if op.Max? || op.Min? {
        PrintedTree(left, Sum);
        PrintedTree(right, Sum);
        CallWords();
      } else if op.Mul? || op.Div? {
        PrintedTree(left, Term);
        PrintedTree(right, Factor);
        BinaryTree(Printed(left, Term), op, Printed(right, Factor), Term);
      } else {
        PrintedTree(left, Sum);
        PrintedTree(right, Term);
        BinaryTree(Printed(left, Sum), op, Printed(right, Term), Sum);
      }
  }

  lemma CallWords()
    ensures ToLower("max") == "max" && ToLower("min") == "min" && IsWord("max") && IsWord("min")
  {}

  lemma VariableNames(v: Variable)
    ensures VariableNamed(VariableName(v)) == v
  {}

  lemma BinaryTree(left: Cst, op: Op, right: Cst, level: Level)
    requires !op.Max? && !op.Min? && level == (if op.Mul? || op.Div? then Term else Sum)
    requires Wf(left, level) && Wf(right, if level == Term then Factor else Term)
    ensures var body := CBin(left, "", Sign(op), right);
            && Wf(body, level) && Wf(body, Sum) && Wf(left, Sum) && Wf(right, Sum)
            && Tree(body) == Bin(op, Tree(left), Tree(right))
  {
    Loosen(left);
    Loosen(right);
  }

  /** c and d are the same derivation up to blanks, and all blanks of d are blank. */
  predicate Respaced(c: Cst, d: Cst) {
    match (c, d)
    case (CNum(_, lit), CNum(ws, lit')) => Blank(ws) && lit == lit'
    case (CVar(_, word), CVar(ws, word')) => Blank(ws) && word == word'
    case (CNeg(_, inner), CNeg(ws, inner')) => Blank(ws) && Respaced(inner, inner')
    case (CParen(_, inner, _), CParen(ws, inner', closeWs)) =>
      Blank(ws) && Blank(closeWs) && Respaced(inner, inner')
    case (CCall(_, word, _, a, _, b, _), CCall(ws, word', openWs, a', commaWs, b', closeWs)) =>
      && word == word' && Blank(ws) && Blank(openWs) && Blank(commaWs) && Blank(closeWs)
      && Respaced(a, a') && Respaced(b, b')
    case (CBin(left, _, sign, right), CBin(left', ws, sign', right')) =>
      sign == sign' && Blank(ws) && Respaced(left, left') && Respaced(right, right')
    case _ => false
  }

  lemma {:induction false} RespacedWf(c: Cst, d: Cst, level: Level)
    requires Respaced(c, d) && Wf(c, level)
    ensures Wf(d, level)
  {
    match c
    case CNum(_, _) =>
    case CVar(_, _) =>
    case CNeg(_, inner) => RespacedWf(inner, d.inner, Factor);
    case CParen(_, inner, _) => RespacedWf(inner, d.inner, Sum);
    case CCall(_, _, _, a, _, b, _) =>
      RespacedWf(a, d.a, Sum);
      RespacedWf(b, d.b, Sum);
    case CBin(left, _, sign, right) =>
      var tight := sign in {'*', '/'};
      RespacedWf(left, d.left, if tight then Term else Sum);
      RespacedWf(right, d.right, if tight then Factor else Term);
  }

  lemma {:induction false} RespacedTree(c: Cst, d: Cst)
    requires Respaced(c, d) && Wf(c, Sum) && Wf(d, Sum)
    ensures Tree(c) == Tree(d)
  {
    Loosen(c);
    Loosen(d);
    match c
    case CNum(_, _) =>
    case CVar(_, _) =>
    case CNeg(_, inner) => RespacedTree(inner, d.inner);
    case CParen(_, inner, _) => RespacedTree(inner, d.inner);
    case CCall(_, _, _, a, _, b, _) =>
      RespacedTree(a, d.a);
      RespacedTree(b, d.b);
    case CBin(left, _, _, right) =>
      RespacedTree(left, d.left);
      RespacedTree(right, d.right);
  }

  /** Parsing undoes printing, whatever blanks are put between the tokens. */
  lemma ParseUndoesPrinting(e: Expr, spaced: Cst, trailing: string)
    requires Respaced(Printed(e, Sum), spaced) && Blank(trailing)
    ensures Parse(Source(spaced) + trailing) == Ok(e)
  {
    PrintedTree(e, Sum);
    RespacedWf(Printed(e, Sum), spaced, Sum);
    RespacedTree(Printed(e, Sum), spaced);
    ParseComplete(spaced, trailing);
  }

  lemma {:induction false} RespacedSelf(e: Expr, level: Level)
    ensures Respaced(Printed(e, level), Printed(e, level))
  {
    match e
    case Num(_, _) =>
    case Var(_) =>
    case Neg(inner) => RespacedSelf(inner, Factor);
    case Bin(op, left, right) =>
      var call, tight := op.Max? || op.Min?, op.Mul? || op.Div?;
      RespacedSelf(left, if call || !tight then Sum else Term);
      RespacedSelf(right, if call then Sum else if tight then Factor else Term);
  }

  /** Distinct expressions print differently. */
  lemma PrintingInjective(e: Expr, f: Expr)
    requires Source(Printed(e, Sum)) == Source(Printed(f, Sum))
    ensures e == f
  {
    RespacedSelf(e, Sum);
    RespacedSelf(f, Sum);
    ParseUndoesPrinting(e, Printed(e, Sum), "");
    ParseUndoesPrinting(f, Printed(f, Sum), "");
  }
}
