/** Characters and decimal digits, as the components below print and read them. */
module Text {

  predicate IsDigit(c: char) {
    '0' <= c <= '9'
  }

  predicate IsLetter(c: char) {
    'a' <= c <= 'z' || 'A' <= c <= 'Z'
  }

  predicate AllDigits(s: string) {
    forall i :: 0 <= i < |s| ==> IsDigit(s[i])
  }

  function DigitChar(d: nat): (c: char)
    requires d < 10
    ensures IsDigit(c)
  {
    ('0' as int + d) as char
  }

  function DigitOf(c: char): (d: nat)
    requires IsDigit(c)
    ensures d < 10
  {
    c as int - '0' as int
  }

  /** The number a string of decimal digits spells (0 for the empty string). */
  function DigitsValue(s: string): nat
    requires AllDigits(s)
  {
    if s == "" then 0 else DigitsValue(s[..|s| - 1]) * 10 + DigitOf(s[|s| - 1])
  }

  /** `%d` of a non-negative integer. */
  function FormatNat(n: nat): (s: string)
    ensures AllDigits(s) && |s| > 0
  {
    if n < 10 then [DigitChar(n)] else FormatNat(n / 10) + [DigitChar(n % 10)]
  }

  /** `%d` of any integer. */
  function FormatInt(n: int): string {
    if n < 0 then "-" + FormatNat(-n) else FormatNat(n)
  }

  /** The last `width` decimal digits of n, zero-padded. */
  function PadNat(n: nat, width: nat): (s: string)
    ensures AllDigits(s) && |s| == width
  {
    if width == 0 then "" else PadNat(n / 10, width - 1) + [DigitChar(n % 10)]
  }

  /** n without its last `width` decimal digits. */
  function DropDigits(n: nat, width: nat): nat {
    if width == 0 then n else DropDigits(n / 10, width - 1)
  }

  function Pow10(n: nat): (p: nat)
    ensures p > 0
  {
    if n == 0 then 1 else 10 * Pow10(n - 1)
  }

  /** Formatting and then reading digits gives the number back. */
  lemma {:induction false} FormatNatValue(n: nat)
    ensures DigitsValue(FormatNat(n)) == n
  {
    if n >= 10 {
      FormatNatValue(n / 10);
      assert FormatNat(n)[..|FormatNat(n)| - 1] == FormatNat(n / 10);
    }
  }

  /** Splitting a number into its leading part and a zero-padded tail loses nothing. */
  lemma {:induction false} SplitDigitsValue(n: nat, width: nat)
    ensures DigitsValue(FormatNat(DropDigits(n, width)) + PadNat(n, width)) == n
  {
    var head := FormatNat(DropDigits(n, width));
    if width == 0 {
      FormatNatValue(n);
      assert head + PadNat(n, width) == head;
    } else {
      SplitDigitsValue(n / 10, width - 1);
      var s := head + PadNat(n, width);
      assert s[..|s| - 1] == head + PadNat(n / 10, width - 1);
    }
  }

  lemma {:induction false} PadNatValue(n: nat, width: nat)
    requires DropDigits(n, width) == 0
    ensures DigitsValue(PadNat(n, width)) == n
  {
    if width > 0 {
      PadNatValue(n / 10, width - 1);
      var s := PadNat(n, width);
      assert s[..|s| - 1] == PadNat(n / 10, width - 1);
    }
  }

  lemma DropsAll(n: nat)
    ensures n < 100 ==> DropDigits(n, 2) == 0
    ensures n < 10000 ==> DropDigits(n, 4) == 0
  {
    assert DropDigits(n, 2) == DropDigits(n / 10, 1) == n / 10 / 10;
    assert DropDigits(n, 4) == DropDigits(n / 10, 3) == DropDigits(n / 10 / 10, 2);
    assert DropDigits(n / 10 / 10, 2) == DropDigits(n / 10 / 10 / 10, 1) == n / 10 / 10 / 10 / 10;
  }

  lemma FormatNatInjective(a: nat, b: nat)
    requires FormatNat(a) == FormatNat(b)
    ensures a == b
  {
    FormatNatValue(a);
    FormatNatValue(b);
  }

  /** A formatted number starts with its sign or a digit; all other characters are digits. */
  lemma FormatIntSign(a: int)
    ensures |FormatInt(a)| > 0 && AllDigits(FormatInt(a)[1..])
    ensures if a < 0 then FormatInt(a)[0] == '-' else IsDigit(FormatInt(a)[0])
  {
    if a < 0 {
      assert FormatInt(a)[1..] == FormatNat(-a);
    }
  }

  lemma FormatIntInjective(a: int, b: int)
    requires FormatInt(a) == FormatInt(b)
    ensures a == b
  {
    assert (a < 0) == (FormatInt(a)[0] == '-') == (FormatInt(b)[0] == '-') == (b < 0) by {
      FormatIntSign(a);
      FormatIntSign(b);
    }
    if a < 0 {
      assert FormatInt(a)[1..] == FormatNat(-a) && FormatInt(b)[1..] == FormatNat(-b);
      FormatNatInjective(-a, -b);
    } else {
      FormatNatInjective(a, b);
    }
  }

  /** The first position of c in s, or |s|. */
  function IndexOf(s: string, c: char): (k: nat)
    ensures k <= |s|
    ensures c !in s[..k]
    ensures k < |s| ==> s[k] == c
  {
    if s == "" || s[0] == c then 0 else 1 + IndexOf(s[1..], c)
  }

  /** The first position is the only one with no earlier occurrence. */
  lemma {:induction false} IndexOfIs(s: string, c: char, k: nat)
    requires k <= |s| && c !in s[..k]
    requires k < |s| ==> s[k] == c
    ensures IndexOf(s, c) == k
  {
    if k > 0 {
      assert s[0] == s[..k][0];
      assert s[1..][..k - 1] == s[..k][1..];
      IndexOfIs(s[1..], c, k - 1);
    }
  }

  function Count(s: string, c: char): nat {
    if s == "" then 0 else Count(s[..|s| - 1], c) + (if s[|s| - 1] == c then 1 else 0)
  }

  // ----- Splitting at a separator -----

  lemma SplitFirst(c: char, a: string, x: string, b: string, y: string)
    requires c !in a && c !in b && a + [c] + x == b + [c] + y
    ensures a == b && x == y
  {
    var s := a + [c] + x;
    assert s[..|a|] == a && s[..|b|] == b;
    assert s[|a|] == c && s[|b|] == c;
    IndexOfIs(s, c, |a|);
    IndexOfIs(s, c, |b|);
    assert s[..|a|] == a && s[..|b|] == b && s[|a| + 1..] == x && s[|b| + 1..] == y;
  }

  lemma SplitLast(c: char, a: string, x: string, b: string, y: string)
    requires c !in x && c !in y && a + [c] + x == b + [c] + y
    ensures a == b && x == y
  {
    var s := a + [c] + x;
    assert forall i :: |a| < i < |s| ==> s[i] == x[i - |a| - 1];
    assert forall i :: |b| < i < |s| ==> s[i] == y[i - |b| - 1];
    assert s[|a|] == c && s[|b|] == c;
    assert s[..|a|] == a && s[..|b|] == b && s[|a| + 1..] == x && s[|b| + 1..] == y;
  }

  /** Like SplitFirst, where the separator is the first character of the remainder, if any. */
  lemma SplitRest(a: string, x: string, b: string, y: string)
    requires '|' !in a && '|' !in b && a + x == b + y
    requires (x != "" ==> x[0] == '|') && (y != "" ==> y[0] == '|')
    ensures a == b && x == y
  {
    var s := a + x;
    assert s[..|a|] == a && s[..|b|] == b && s[|a|..] == x && s[|b|..] == y;
    IndexOfIs(s, '|', |a|);
    IndexOfIs(s, '|', |b|);
  }
}
