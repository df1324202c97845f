/** Amounts as decimal text: the comma decimals of the accounting export and the amounts
    statement imports read (backend/internal/finance/fec.go:98-111, bankimport.go:121-163).
    Integers are 64 bits wide, wrapping as Go's do. */
module Amounts {
  import opened Integers
  import opened Options
  import opened Paths
  import opened Text

  // ----- Writing -----

  /** Go's quotient and remainder truncate toward zero. */
  function Quotient(n: int): int {
    if n < 0 then -(-n / 100) else n / 100
  }

  function Remainder(n: int): int {
    n - 100 * Quotient(n)
  }

  /** `%02d`: a minus sign counts towards the width. */
  function TwoDigits(r: int): string
    requires -100 < r < 100
  {
    if r < 0 then "-" + FormatNat(-r) else PadNat(r, 2)
  }

  function Spaces(n: nat): string {
    if n == 0 then "" else " " + Spaces(n - 1)
  }

  function Decimal(n: int): string {
    FormatInt(Quotient(n)) + "," + TwoDigits(Remainder(n))
  }

  /** Negating the least integer gives itself. */
  function SignedDecimal(minor: int): string
    requires IsInt64(minor)
  {
    if minor < 0 then "-" + Decimal(Wrap64(-minor)) else Decimal(minor)
  }

  /** fecAmount. */
  function FecAmount(minor: int): string
    requires IsInt64(minor)
  {
    var s := SignedDecimal(minor);
    if |s| < 13 then Spaces(13 - |s|) + s else s
  }

  // ----- Reading -----

  /** strconv.ParseInt(s, 10, 64). */
  function ParseInt64(s: string): (r: Option<int>)
    ensures r.Some? ==> IsInt64(r.value)
  {
    var digits := if s != "" && (s[0] == '-' || s[0] == '+') then s[1..] else s;
    if digits == "" || !AllDigits(digits) then None
    else
      var n: int := if s[0] == '-' then -(DigitsValue(digits) as int) else DigitsValue(digits);
      if IsInt64(n) then Some(n) else None
  }

  function RemoveAll(s: string, c: char): string {
    if s == "" then "" else RemoveAll(s[..|s| - 1], c) + if s[|s| - 1] == c then "" else [s[|s| - 1]]
  }

  function ReplaceFirst(s: string, c: char, d: char): string {
    var k := IndexOf(s, c);
    if k == |s| then s else s[..k] + [d] + s[k + 1..]
  }

  /** The number without its sign, with the decimal mark as a point. */
  function PointForm(s: string): string {
    if '.' in s && ',' in s then RemoveAll(s, ',') else if ',' in s then ReplaceFirst(s, ',', '.') else s
  }

  function ParseWhole(s: string): Option<int> {
    if s == "" then Some(0) else ParseInt64(s)
  }

  function PadTwo(f: string): (r: string)
    ensures |f| <= 2 && AllDigits(f) ==> |r| == 2 && AllDigits(r)
    decreases 2 - |f|
  {
    if |f| < 2 then PadTwo(f + "0") else f
  }

  function ParseFraction(f: string): Option<int> {
    if |f| > 2 then None else ParseInt64(PadTwo(f))
  }

  function ParsePoint(t: string): Option<int> {
    var k := IndexOf(t, '.');
    var whole := ParseWhole(t[..k]);
    if whole.None? then None
    else if k == |t| then Some(Wrap64(whole.value * 100))
    else
      var frac := ParseFraction(t[k + 1..]);
      if frac.None? then None else Some(Wrap64(whole.value * 100 + frac.value))
  }

  function Negated(n: Option<int>): Option<int> {
    if n.None? then None else Some(Wrap64(-n.value))
  }

  function ParseSigned(s: string): Option<int> {
    if s == "" then None
    else if s[0] == '-' then Negated(ParsePoint(PointForm(s[1..])))
    else ParsePoint(PointForm(if s[0] == '+' then s[1..] else s))
  }

  /** parseDecimalMinor; None stands for any of its errors. */
  function ParseAmount(text: string): Option<int> {
    ParseSigned(RemoveAll(TrimSpace(text), ' '))
  }

  /** parseDecimalMinor, rewriting its argument step by step. */
  method ParseDecimalMinor(text: string) returns (r: Option<int>)
    ensures r == ParseAmount(text)
  {
    hide TrimSpace, RemoveAll, IndexOf, ParseInt64, Wrap64, ReplaceFirst;
    var s := RemoveAll(TrimSpace(text), ' ');
    if s == "" {
      return None;
    }
    var neg := false;
    if s[0] == '-' {
      neg := true;
      s := s[1..];
    } else if s[0] == '+' {
      s := s[1..];
    }
    if '.' in s && ',' in s {
      s := RemoveAll(s, ',');
    } else if ',' in s {
      s := ReplaceFirst(s, ',', '.');
    }
    var v := ReadPoint(s);
    if v.None? {
      return None;
    }
    r := Some(if neg then Wrap64(-v.value) else v.value);
  }

  /** Its last part, after the sign and the decimal mark are settled. */
  method ReadPoint(s: string) returns (r: Option<int>)
    ensures r == ParsePoint(s)
  {
    var k := IndexOf(s, '.');
    var whole := 0;
    if s[..k] != "" {
      var w := ParseInt64(s[..k]);
      if w.None? {
        return None;
      }
      whole := w.value;
    }
    var frac := 0;
    if k < |s| {
      var f := s[k + 1..];
      if |f| > 2 {
        return None;
      }
      while |f| < 2
        invariant PadTwo(f) == PadTwo(s[k + 1..]) && |f| <= 2
        decreases 2 - |f|
      {
        f := f + "0";
      }
      var n := ParseInt64(f);
      if n.None? {
        return None;
      }
      frac := n.value;
    }
    r := Some(Wrap64(whole * 100 + frac));
  }

  // ----- Reading undoes writing -----

  predicate NoneOf(s: string, c: char) {
    forall i :: 0 <= i < |s| ==> s[i] != c
  }

  lemma {:induction false} RemoveNothing(s: string, c: char)
    requires NoneOf(s, c)
    ensures RemoveAll(s, c) == s
  {
    if s != "" {
      RemoveNothing(s[..|s| - 1], c);
    }
  }

  /** Left padding is trimmed off. */
  lemma {:induction false} TrimsPadding(n: nat, s: string)
    requires s != "" && Trimmed(s, Blanks)
    ensures TrimSpace(Spaces(n) + s) == s
    decreases n
  {
    if n == 0 {
      assert Spaces(0) + s == s;
      TrimIdentity(s, Blanks);
    } else {
      assert (Spaces(n) + s)[1..] == Spaces(n - 1) + s;
      TrimsPadding(n - 1, s);
    }
  }

  /** Characters of decimal text: a sign, digits, a comma. */
  predicate Plain(s: string) {
    forall i :: 0 <= i < |s| ==> IsDigit(s[i]) || s[i] == '-' || s[i] == ','
  }

  lemma PlainParts(q: int, r: int)
    requires -100 < r < 100
    ensures Plain(FormatInt(q)) && Plain(TwoDigits(r)) && NoneOf(FormatInt(q), ',') && NoneOf(TwoDigits(r), ',')
    ensures |FormatInt(q)| > 0 && |TwoDigits(r)| >= 2
    ensures q >= 0 ==> IsDigit(FormatInt(q)[0])
  {}

  lemma QuotientIs(n: int)
    requires IsInt64(n)
    ensures IsInt64(Quotient(n)) && -100 < Remainder(n) < 100 && Quotient(n) * 100 + Remainder(n) == n
    ensures n >= 0 ==> Quotient(n) >= 0 && Remainder(n) >= 0
    ensures n == INT64_MIN ==> Remainder(n) == -8
  {}

  lemma ReadsInteger(q: int)
    requires IsInt64(q)
    ensures ParseInt64(FormatInt(q)) == Some(q)
  {
    FormatIntSign(q);
    if q < 0 {
      assert FormatInt(q)[1..] == FormatNat(-q);
      FormatNatValue(-q);
    } else {
      FormatNatValue(q);
    }
  }

  /** The decimals read back, for a remainder a 64-bit amount can have. */
  lemma ReadsTwoDigits(r: int)
    requires 0 <= r < 100 || r == -8
    ensures |TwoDigits(r)| == 2 && PadTwo(TwoDigits(r)) == TwoDigits(r) && ParseInt64(TwoDigits(r)) == Some(r)
  {
    if r < 0 {
      assert FormatNat(8) == "8";
      assert "-8"[1..] == "8" && DigitsValue("8") == 8;
    } else {
      DropsAll(r);
      PadNatValue(r, 2);
      assert IsDigit(PadNat(r, 2)[0]);
    }
  }

  lemma IndexInJoin(whole: string, mark: char, frac: string)
    requires NoneOf(whole, mark)
    ensures IndexOf(whole + [mark] + frac, mark) == |whole|
  {
    var s := whole + [mark] + frac;
    assert s[..|whole|] == whole && s[|whole|] == mark;
    IndexOfIs(s, mark, |whole|);
  }

  lemma PointOf(whole: string, frac: string)
    requires Plain(whole) && Plain(frac) && NoneOf(whole, ',') && NoneOf(frac, ',')
    ensures PointForm(whole + "," + frac) == whole + "." + frac
    ensures IndexOf(whole + "." + frac, '.') == |whole|
  {
    var s, k := whole + "," + frac, |whole|;
    IndexInJoin(whole, ',', frac);
    IndexInJoin(whole, '.', frac);
    hide IndexOf;
    assert s[k] == ',' && '.' !in s;
    assert s[..k] == whole && s[k + 1..] == frac;
    hide Plain, NoneOf;
  }

  lemma ReadsDecimal(n: int)
    requires IsInt64(n) && (n >= 0 || n == INT64_MIN)
    ensures ParsePoint(PointForm(Decimal(n))) == Some(n)
  {
    hide IndexOf, PointForm, FormatInt, TwoDigits, ParseInt64, Quotient, Remainder, Plain, NoneOf, PadTwo, ParsePoint;
    var q, r := Quotient(n), Remainder(n);
    QuotientIs(n);
    PlainParts(q, r);
    PointOf(FormatInt(q), TwoDigits(r));
    ReadsInteger(q);
    ReadsTwoDigits(r);
    ReadsParts(FormatInt(q), TwoDigits(r), q, r);
  }

  lemma ReadsParts(whole: string, frac: string, q: int, r: int)
    requires IndexOf(whole + "." + frac, '.') == |whole| && |whole| > 0 && |frac| <= 2
    requires ParseInt64(whole) == Some(q) && ParseInt64(PadTwo(frac)) == Some(r)
    ensures ParsePoint(whole + "." + frac) == Some(Wrap64(q * 100 + r))
  {
    hide IndexOf, ParseInt64, Wrap64, PadTwo;
    var t := whole + "." + frac;
    assert ParseWhole(whole) == Some(q) && ParseFraction(frac) == Some(r);
    hide ParseWhole, ParseFraction;
    assert t[..|whole|] == whole && t[|whole| + 1..] == frac;
  }

  lemma PlainTrimmed(s: string)
    requires Plain(s)
    ensures Trimmed(s, Blanks) && NoneOf(s, ' ')
  {
    assert forall c: char :: IsDigit(c) || c == '-' || c == ',' ==> !Cut(Blanks, c);
  }

  lemma ReadsPadded(n: nat, s: string)
    requires Plain(s) && s != ""
    ensures ParseAmount(Spaces(n) + s) == ParseSigned(s)
  {
    PlainTrimmed(s);
    TrimsPadding(n, s);
    RemoveNothing(s, ' ');
    hide TrimSpace, RemoveAll, ParseSigned, Spaces;
  }

  lemma DecimalPlain(n: int)
    requires IsInt64(n)
    ensures Plain(Decimal(n)) && Decimal(n) != "" && (n >= 0 ==> IsDigit(Decimal(n)[0]))
  {
    QuotientIs(n);
    PlainParts(Quotient(n), Remainder(n));
  }

  lemma WrapsBack(n: int)
    requires IsInt64(n) && n < 0
    ensures Wrap64(-n) >= 0 || Wrap64(-n) == INT64_MIN
    ensures Wrap64(-Wrap64(-n)) == n
  {}

  lemma ReadsSigned(n: int)
    requires IsInt64(n)
    ensures Plain(SignedDecimal(n)) && SignedDecimal(n) != "" && ParseSigned(SignedDecimal(n)) == Some(n)
  {
    hide ParseSigned, PointForm, ParsePoint;
    if n < 0 {
      var d := Decimal(Wrap64(-n));
      WrapsBack(n);
      DecimalPlain(Wrap64(-n));
      ReadsDecimal(Wrap64(-n));
      MinusSigned(d);
    } else {
      DecimalPlain(n);
      ReadsDecimal(n);
      DigitSigned(Decimal(n));
    }
    hide Decimal, PointForm, ParsePoint, Wrap64, ParseSigned;
  }

  lemma MinusSigned(d: string)
    ensures ParseSigned("-" + d) == Negated(ParsePoint(PointForm(d)))
  {
    assert ("-" + d)[1..] == d;
    hide ParsePoint, PointForm;
  }

  lemma DigitSigned(d: string)
    requires d != "" && IsDigit(d[0])
    ensures ParseSigned(d) == ParsePoint(PointForm(d))
  {
    hide ParsePoint, PointForm;
  }

  /** Reading an exported amount gives the amount back: for every 64-bit integer, the least
      one included, where two negations wrap around. */
  lemma ReadingUndoesWriting(n: int)
    requires IsInt64(n)
    ensures ParseAmount(FecAmount(n)) == Some(n)
  {
    hide SignedDecimal, ParseSigned, ParseAmount, Plain;
    var s := SignedDecimal(n);
    ReadsSigned(n);
    ReadsPadded(if |s| < 13 then 13 - |s| else 0, s);
    assert Spaces(0) + s == s;
    hide Spaces;
  }

  /** Different amounts are written differently. */
  lemma WritingInjective(m: int, n: int)
    requires IsInt64(m) && IsInt64(n) && FecAmount(m) == FecAmount(n)
    ensures m == n
  {
    ReadingUndoesWriting(m);
    ReadingUndoesWriting(n);
  }

  lemma ReadsDigits(s: string)
    requires s != "" && AllDigits(s) && IsInt64(DigitsValue(s))
    ensures ParseInt64(s) == Some(DigitsValue(s))
  {
    assert IsDigit(s[0]);
    hide DigitsValue;
  }

  function Fraction(frac: string): nat
    requires |frac| <= 2 && AllDigits(frac)
  {
    DigitsValue(PadTwo(frac))
  }

  /** Beside a decimal point commas are ignored, wherever they stand. */
  lemma GroupedDigits(s: string, whole: string, frac: string)
    requires RemoveAll(s, ',') == whole + "." + frac && ',' in s && '.' in s
    requires whole != "" && AllDigits(whole) && AllDigits(frac) && |frac| <= 2 && IsInt64(DigitsValue(whole) * 100 + 99)
    ensures ParsePoint(PointForm(s)) == Some(DigitsValue(whole) * 100 + Fraction(frac))
  {
    hide *;
    hide DigitsValue, RemoveAll, ParsePoint, PadTwo, PointForm;
    PointIsRemoved(s);
    DigitsHaveNoPoint(whole);
    IndexInJoin(whole, '.', frac);
    FractionReads(frac);
    WholeFits(whole, Fraction(frac));
    ReadsDigits(whole);
    ReadsParts(whole, frac, DigitsValue(whole), Fraction(frac));
  }

  lemma PointIsRemoved(s: string)
    requires ',' in s && '.' in s
    ensures PointForm(s) == RemoveAll(s, ',')
  {}

  lemma DigitsHaveNoPoint(s: string)
    requires AllDigits(s)
    ensures NoneOf(s, '.')
  {}

  lemma WholeFits(whole: string, r: nat)
    requires AllDigits(whole) && r < 100 && IsInt64(DigitsValue(whole) * 100 + 99)
    ensures IsInt64(DigitsValue(whole)) && Wrap64(DigitsValue(whole) * 100 + r) == DigitsValue(whole) * 100 + r
  {
    hide DigitsValue;
  }

  lemma FractionReads(frac: string)
    requires |frac| <= 2 && AllDigits(frac)
    ensures ParseInt64(PadTwo(frac)) == Some(Fraction(frac)) && 0 <= Fraction(frac) < 100
  {
    var f := PadTwo(frac);
    TwoDigitValue(f);
    ReadsDigits(f);
  }

  lemma TwoDigitValue(f: string)
    requires |f| == 2 && AllDigits(f)
    ensures DigitsValue(f) < 100
  {
    assert f[..1] == [f[0]] && f[..1][..0] == "";
    assert DigitsValue(f) == DigitsValue(f[..1]) * 10 + DigitOf(f[1]);
    assert DigitsValue(f[..1]) == DigitOf(f[0]);
  }

  // ----- Every plain amount -----

  /** What up to two decimals are worth in hundredths: the first counts ten, the second one. */
  function Hundredths(frac: string): nat
    requires |frac| <= 2 && AllDigits(frac)
  {
    (if |frac| > 0 then 10 * DigitOf(frac[0]) else 0) + (if |frac| > 1 then DigitOf(frac[1]) else 0)
  }

  lemma FractionIsHundredths(frac: string)
    requires |frac| <= 2 && AllDigits(frac)
    ensures Fraction(frac) == Hundredths(frac)
  {
    var f := PadTwo(frac);
    assert f[..1] == [f[0]] && f[..1][..0] == "";
    assert DigitsValue(f) == DigitsValue(f[..1]) * 10 + DigitOf(f[1]);
    assert DigitsValue(f[..1]) == DigitOf(f[0]);
    if |frac| == 0 {
      assert frac == "" && "" + "0" == "0" && "0" + "0" == "00";
      assert f == PadTwo("0") == PadTwo("00") == "00";
    } else if |frac| == 1 {
      assert f == PadTwo(frac + "0") == frac + "0";
    }
  }

  /** Text without blanks is read as it is. */
  lemma BareReads(s: string)
    requires s != "" && forall i :: 0 <= i < |s| ==> !IsSpace(s[i])
    ensures ParseAmount(s) == ParseSigned(s)
  {
    TrimIdentity(s, Blanks);
    RemoveNothing(s, ' ');
    hide RemoveAll, ParseSigned, PointForm, ParsePoint;
  }

  lemma PointFormOf(whole: string, mark: string, frac: string)
    requires AllDigits(whole) && AllDigits(frac) && (mark == "." || mark == "," || (mark == "" && frac == ""))
    ensures PointForm(whole + mark + frac) == if mark == "" then whole else whole + "." + frac
  {
    var s := whole + mark + frac;
    if mark == "" {
      assert s == whole;
    } else {
      assert s[|whole|] == mark[0] && mark == [mark[0]];
      IndexInJoin(whole, mark[0], frac);
      assert s[..|whole|] == whole && s[|whole| + 1..] == frac;
      assert (',' in s) == (mark == ",") && ('.' in s) == (mark == ".");
    }
  }

  /** The whole part and up to two decimals, read exactly; more decimals are refused. */
  lemma ReadsPoint(whole: string, frac: string)
    requires AllDigits(whole) && AllDigits(frac) && IsInt64(DigitsValue(whole) * 100 + 99)
    ensures ParsePoint(whole + "." + frac)
         == if |frac| > 2 then None else Some(DigitsValue(whole) * 100 + Hundredths(frac))
  {
    hide ParseInt64, DigitsValue, IndexOf, PadTwo, Wrap64, Hundredths, Fraction;
    DigitsHaveNoPoint(whole);
    IndexInJoin(whole, '.', frac);
    WholeReads(whole);
    hide ParseWhole;
    if |frac| <= 2 {
      FractionReads(frac);
      FractionIsHundredths(frac);
      WholeFits(whole, Hundredths(frac));
    }
    assert ParseFraction(frac) == if |frac| > 2 then None else Some(Hundredths(frac));
    hide ParseFraction;
    var t := whole + "." + frac;
    assert t[..|whole|] == whole && t[|whole| + 1..] == frac;
  }

  lemma WholeReads(whole: string)
    requires AllDigits(whole) && IsInt64(DigitsValue(whole) * 100 + 99)
    ensures ParseWhole(whole) == Some(DigitsValue(whole))
  {
    if whole != "" {
      ReadsDigits(whole);
    }
  }

  lemma ReadsWholeOnly(whole: string)
    requires whole != "" && AllDigits(whole) && IsInt64(DigitsValue(whole) * 100 + 99)
    ensures ParsePoint(whole) == Some(DigitsValue(whole) * 100)
  {
    DigitsHaveNoPoint(whole);
    IndexOfIs(whole, '.', |whole|);
    assert whole[..|whole|] == whole;
    WholeReads(whole);
    WholeFits(whole, 0);
    hide ParseWhole, ParseInt64, DigitsValue, IndexOf, PadTwo;
  }

  /** An optional sign. */
  predicate IsSign(sign: string) {
    sign == "" || sign == "+" || sign == "-"
  }

  /** Every plain amount: an optional sign, digits, and, behind a point or a comma, decimals. Up
      to two decimals are read exactly, whatever is left out; more are refused. */
  lemma ReadsAmount(sign: string, whole: string, mark: string, frac: string, body: string)
    requires IsSign(sign) && body == whole + mark + frac && AllDigits(whole) && AllDigits(frac)
    requires mark == "." || mark == "," || (mark == "" && frac == "" && whole != "")
    requires IsInt64(DigitsValue(whole) * 100 + 99)
    ensures ParseAmount(sign + body)
         == if |frac| > 2 then None
            else
              var n := DigitsValue(whole) * 100 + Hundredths(frac);
              Some(if sign == "-" then -n else n)
  {
    hide ParseAmount, PointForm, ParsePoint, DigitsValue, Hundredths, IsSign, IsSpace, Wrap64;
    NoBlanks(whole, mark, frac);
    ReadsBody(whole, mark, frac);
    SignedAmount(sign, body);
    Bounded(whole, frac);
  }

  lemma ReadsBody(whole: string, mark: string, frac: string)
    requires AllDigits(whole) && AllDigits(frac) && IsInt64(DigitsValue(whole) * 100 + 99)
    requires mark == "." || mark == "," || (mark == "" && frac == "" && whole != "")
    ensures ParsePoint(PointForm(whole + mark + frac))
         == if |frac| > 2 then None else Some(DigitsValue(whole) * 100 + Hundredths(frac))
  {
    hide PointForm, ParsePoint, DigitsValue;
    PointFormOf(whole, mark, frac);
    if mark == "" {
      ReadsWholeOnly(whole);
    } else {
      hide Hundredths;
      ReadsPoint(whole, frac);
    }
  }

  /** A sign and text without blanks. */
  lemma SignedAmount(sign: string, body: string)
    requires IsSign(sign) && body != "" && body[0] != '-' && body[0] != '+'
    requires forall i :: 0 <= i < |body| ==> !IsSpace(body[i])
    ensures ParseAmount(sign + body)
         == var n := ParsePoint(PointForm(body));
            if sign == "-" && n.Some? then Some(Wrap64(-n.value)) else n
  {
    forall i | 0 <= i < |sign + body|
      ensures !IsSpace((sign + body)[i])
    {
      assert !IsSpace('-') && !IsSpace('+');
      assert i >= |sign| ==> (sign + body)[i] == body[i - |sign|];
    }
    hide ParseAmount, PointForm, ParsePoint, ParseSigned, Wrap64, IsSpace;
    BareReads(sign + body);
    SignRead(sign, body);
  }

  lemma SignRead(sign: string, body: string)
    requires IsSign(sign) && body != "" && body[0] != '-' && body[0] != '+'
    ensures ParseSigned(sign + body)
         == var n := ParsePoint(PointForm(body));
            if sign == "-" && n.Some? then Some(Wrap64(-n.value)) else n
  {
    hide PointForm, ParsePoint, Wrap64;
    assert sign != "" ==> (sign + body)[1..] == body;
    assert sign == "" ==> sign + body == body;
  }

  lemma Bounded(whole: string, frac: string)
    requires AllDigits(whole) && AllDigits(frac) && IsInt64(DigitsValue(whole) * 100 + 99)
    ensures |frac| <= 2 ==>
              var n := DigitsValue(whole) * 100 + Hundredths(frac); Wrap64(-n) == -n
    ensures |frac| == 0 ==> Hundredths(frac) == 0
  {
    hide DigitsValue;
  }

  lemma NoBlanks(whole: string, mark: string, frac: string)
    requires AllDigits(whole) && AllDigits(frac) && (mark == "." || mark == "," || (mark == "" && whole != ""))
    ensures var body := whole + mark + frac;
            && body != "" && body[0] != '-' && body[0] != '+'
            && forall i :: 0 <= i < |body| ==> !IsSpace(body[i])
  {
    assert forall c: char :: IsDigit(c) || c == '.' || c == ',' ==> !IsSpace(c);
    var body := whole + mark + frac;
    assert forall i :: 0 <= i < |body| ==> IsDigit(body[i]) || body[i] == '.' || body[i] == ',';
  }

  /** Signs inside an amount are accepted too, since each part is read as an integer of its own:
      behind the point they count against the whole part. */
  lemma SignsInside()
    ensures ParseAmount("1.-5") == Some(95) && ParseAmount("1.+5") == Some(105) && ParseAmount("--5") == Some(500)
  {
    SmallIntegers();
    hide *;
    hide ParseInt64, ParseAmount;
    OneInside("1.-5", "-5", -5);
    OneInside("1.+5", "+5", 5);
    TwoSigns();
  }

  lemma SmallIntegers()
    ensures ParseInt64("-5") == Some(-5) && ParseInt64("+5") == Some(5) && ParseInt64("1") == Some(1)
  {
    assert "5"[..0] == "" && "1"[..0] == "";
    assert DigitsValue("5") == 5 && DigitsValue("1") == 1;
    hide DigitsValue;
    assert "-5"[1..] == "5" && "+5"[1..] == "5";
  }

  lemma TwoSigns()
    requires ParseInt64("-5") == Some(-5)
    ensures ParseAmount("--5") == Some(500)
  {
    hide ParseInt64;
    IndexOfIs("-5", '.', 2);
    assert "-5"[..2] == "-5" && PointForm("-5") == "-5" && ParsePoint("-5") == Some(-500);
    hide ParsePoint, PointForm, ParseAmount;
    assert "--5"[1..] == "-5";
    BareReads("--5");
  }

  lemma OneInside(s: string, frac: string, n: int)
    requires s == "1." + frac && (frac == "-5" || frac == "+5") && -10 < n < 10
    requires ParseInt64(frac) == Some(n) && ParseInt64("1") == Some(1)
    ensures ParseAmount(s) == Some(100 + n)
  {
    hide ParseInt64;
    IndexOfIs(s, '.', 1);
    assert s[..1] == "1" && s[2..] == frac && PointForm(s) == s;
    assert ParsePoint(s) == Some(100 + n);
    UnsignedAmount(s);
  }

  /** Digit groups with commas between them, and the same without. */
  function WithCommas(groups: seq<string>): string
    requires groups != []
  {
    if |groups| == 1 then groups[0] else groups[0] + "," + WithCommas(groups[1..])
  }

  function Joined(groups: seq<string>): string
    requires groups != []
  {
    if |groups| == 1 then groups[0] else groups[0] + Joined(groups[1..])
  }

  predicate Groups(groups: seq<string>) {
    groups != [] && forall i :: 0 <= i < |groups| ==> AllDigits(groups[i])
  }

  lemma {:induction false} RemoveAllJoins(a: string, b: string, c: char)
    ensures RemoveAll(a + b, c) == RemoveAll(a, c) + RemoveAll(b, c)
  {
    if b == "" {
      assert a + b == a;
    } else {
      assert (a + b)[..|a + b| - 1] == a + b[..|b| - 1];
      RemoveAllJoins(a, b[..|b| - 1], c);
    }
  }

  lemma {:induction false} GroupsJoined(groups: seq<string>)
    requires Groups(groups)
    ensures AllDigits(Joined(groups)) && RemoveAll(WithCommas(groups), ',') == Joined(groups)
    decreases |groups|
  {
    assert AllDigits(groups[0]);
    DigitsOnly(groups[0]);
    if |groups| > 1 {
      assert Groups(groups[1..]);
      GroupsJoined(groups[1..]);
      hide RemoveAll, Groups, IsDigit;
      OneGroup(groups[0], WithCommas(groups[1..]), Joined(groups[1..]));
    }
  }

  lemma DigitsOnly(s: string)
    requires AllDigits(s)
    ensures RemoveAll(s, ',') == s
  {
    RemoveNothing(s, ',');
  }

  lemma OneGroup(group: string, rest: string, digits: string)
    requires AllDigits(group) && AllDigits(digits) && RemoveAll(group, ',') == group && RemoveAll(rest, ',') == digits
    ensures RemoveAll(group + "," + rest, ',') == group + digits && AllDigits(group + digits)
  {
    assert RemoveAll(",", ',') == "" by {
      assert ","[..0] == "";
    }
    hide RemoveAll;
    RemoveAllJoins(group + ",", rest, ',');
    RemoveAllJoins(group, ",", ',');
    assert group + "" == group;
  }

  lemma {:induction false} GroupsSpelled(groups: seq<string>)
    requires Groups(groups)
    ensures var s := WithCommas(groups);
            && (forall i :: 0 <= i < |s| ==> IsDigit(s[i]) || s[i] == ',') && (|groups| > 1 ==> ',' in s)
    decreases |groups|
  {
    assert AllDigits(groups[0]);
    if |groups| > 1 {
      assert Groups(groups[1..]);
      GroupsSpelled(groups[1..]);
      hide Groups, IsDigit;
      assert WithCommas(groups)[|groups[0]|] == ',';
    }
  }

  /** Amounts whose digits are grouped by commas before a decimal point. */
  lemma ReadsGroups(groups: seq<string>, frac: string, s: string)
    requires Groups(groups) && |groups| > 1 && AllDigits(frac) && |frac| <= 2 && s == WithCommas(groups) + "." + frac
    requires AllDigits(Joined(groups)) && Joined(groups) != "" && IsInt64(DigitsValue(Joined(groups)) * 100 + 99)
    ensures ParseAmount(s) == Some(DigitsValue(Joined(groups)) * 100 + Hundredths(frac))
  {
    hide *;
    hide DigitsValue, PointForm, ParsePoint, ParseAmount, RemoveAll, WithCommas, Joined, Fraction, Groups;
    GroupsJoined(groups);
    GroupsSpelled(groups);
    GroupedBare(WithCommas(groups), frac);
    GroupsRemoved(WithCommas(groups), Joined(groups), frac);
    GroupedDigits(s, Joined(groups), frac);
    FractionIsHundredths(frac);
    UnsignedAmount(s);
  }

  lemma UnsignedAmount(s: string)
    requires s != "" && s[0] != '-' && s[0] != '+' && forall i :: 0 <= i < |s| ==> !IsSpace(s[i])
    ensures ParseAmount(s) == ParsePoint(PointForm(s))
  {
    hide PointForm, ParsePoint, ParseAmount, IsSpace;
    BareReads(s);
  }

  lemma GroupsRemoved(whole: string, digits: string, frac: string)
    requires RemoveAll(whole, ',') == digits && AllDigits(frac)
    ensures RemoveAll(whole + "." + frac, ',') == digits + "." + frac
  {
    RemoveNothing(".", ',');
    RemoveNothing(frac, ',');
    hide RemoveAll;
    RemoveAllJoins(whole + ".", frac, ',');
    RemoveAllJoins(whole, ".", ',');
  }

  lemma GroupedBare(whole: string, frac: string)
    requires AllDigits(frac) && ',' in whole
    requires forall i :: 0 <= i < |whole| ==> IsDigit(whole[i]) || whole[i] == ','
    ensures var s := whole + "." + frac;
            && s != "" && s[0] != '-' && s[0] != '+' && ',' in s && '.' in s
            && forall i :: 0 <= i < |s| ==> !IsSpace(s[i])
  {
    assert (whole + "." + frac)[|whole|] == '.';
    var i :| 0 <= i < |whole| && whole[i] == ',';
    assert (whole + "." + frac)[i] == ',';
  }
}
