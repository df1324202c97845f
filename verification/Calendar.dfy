/** `time.RFC3339` in UTC: seconds since 1970 to text and back to uniqueness.
    The proleptic Gregorian calendar, with day 0 of the count at 0001-01-01. */
module Calendar {
  import opened Text

  function DaysBeforeYear(y: int): int {
    365 * (y - 1) + (y - 1) / 4 - (y - 1) / 100 + (y - 1) / 400
  }

  predicate IsLeap(y: int) {
    y % 4 == 0 && (y % 100 != 0 || y % 400 == 0)
  }

  function DaysBeforeMonth(leap: bool, m: int): int
    requires 1 <= m <= 13
  {
    var days := [0, 31, 59, 90, 120, 151, 181, 212, 243, 273, 304, 334, 365];
    days[m - 1] + if leap && m > 2 then 1 else 0
  }

  /** The days of each month. Every fourth year is a leap year, but of the full centuries only
      every fourth. */
  function DaysIn(y: int, m: int): int {
    if m in {4, 6, 9, 11} then 30
    else if m != 2 then 31
    else if y % 4 == 0 && (y % 100 != 0 || y % 400 == 0) then 29
    else 28
  }

  lemma MonthLength(y: int, m: int)
    requires 1 <= m <= 12
    ensures DaysBeforeMonth(IsLeap(y), m + 1) - DaysBeforeMonth(IsLeap(y), m) == DaysIn(y, m)
  {
    MonthLengthOf(IsLeap(y), m);
    hide DaysBeforeMonth;
  }

  lemma MonthLengthOf(leap: bool, m: int)
    requires 1 <= m <= 12
    ensures DaysBeforeMonth(leap, m + 1) - DaysBeforeMonth(leap, m)
         == if m in {4, 6, 9, 11} then 30 else if m != 2 then 31 else if leap then 29 else 28
  {}

  lemma YearLength(y: int)
    ensures DaysBeforeYear(y + 1) - DaysBeforeYear(y) == 365 + if IsLeap(y) then 1 else 0
  {
    Step(y, 4);
    Step(y, 100);
    Step(y, 400);
  }

  lemma Step(y: int, k: int)
    requires k > 1
    ensures y / k - (y - 1) / k == if y % k == 0 then 1 else 0
  {
    var q := y / k;
    assert y == q * k + y % k;
    if y % k == 0 {
      assert y - 1 == (q - 1) * k + (k - 1);
      Quotient(y - 1, k, q - 1, k - 1);
    } else {
      Quotient(y - 1, k, q, y % k - 1);
    }
  }

  lemma Quotient(x: int, k: int, q: int, r: int)
    requires k > 0 && 0 <= r < k && x == q * k + r
    ensures x / k == q
  {
    var d := x / k - q;
    assert x == (x / k) * k + x % k;
    assert d * k == r - x % k;
    assert d >= 1 ==> d * k >= k;
    assert d <= -1 ==> d * k <= -k;
  }

  /** The year of day n, searched from a guess. */
  function YearFrom(guess: int, n: int): (y: int)
    ensures DaysBeforeYear(y) <= n < DaysBeforeYear(y + 1)
    decreases if n < DaysBeforeYear(guess) then DaysBeforeYear(guess) - n
              else if n >= DaysBeforeYear(guess + 1) then n - DaysBeforeYear(guess + 1) + 1 else 0
  {
    YearLength(guess);
    YearLength(guess - 1);
    YearLength(guess + 1);
    if n < DaysBeforeYear(guess) then YearFrom(guess - 1, n)
    else if n >= DaysBeforeYear(guess + 1) then YearFrom(guess + 1, n)
    else guess
  }

  function YearOf(n: int): (y: int)
    ensures DaysBeforeYear(y) <= n < DaysBeforeYear(y + 1)
  {
    YearFrom(n / 365 + 1, n)
  }

  function MonthFrom(leap: bool, m: int, dayOfYear: int): (r: int)
    requires 1 <= m <= 12 && DaysBeforeMonth(leap, m) <= dayOfYear < DaysBeforeMonth(leap, 13)
    ensures 1 <= r <= 12 && DaysBeforeMonth(leap, r) <= dayOfYear < DaysBeforeMonth(leap, r + 1)
    decreases 12 - m
  {
    if dayOfYear < DaysBeforeMonth(leap, m + 1) then m else MonthFrom(leap, m + 1, dayOfYear)
  }

  datatype Civil = Civil(year: int, month: int, day: int, hour: int, minute: int, second: int)

  const EPOCH: int := 719162  // days before 1970-01-01

  predicate InRange(c: Civil) {
    1 <= c.month <= 12 && 1 <= c.day <= 31 && 0 <= c.hour < 24 && 0 <= c.minute < 60 && 0 <= c.second < 60
  }

  /** A day that the month has. */
  predicate Exists(c: Civil) {
    InRange(c) && c.day <= DaysIn(c.year, c.month)
  }

  /** The second a civil time denotes. */
  function SecondOf(c: Civil): int
    requires InRange(c)
  {
    var n := DaysBeforeYear(c.year) + DaysBeforeMonth(IsLeap(c.year), c.month) + c.day - 1;
    (n - EPOCH) * 86400 + c.hour * 3600 + c.minute * 60 + c.second
  }

  function CivilOf(second: int): (c: Civil)
    ensures InRange(c) && Exists(c) && SecondOf(c) == second
  {
    var s := second % 86400;
    var (y, m, d) := DateOf(second / 86400 + EPOCH);
    TimeOfDay(s);
    Civil(y, m, d, s / 3600, s % 3600 / 60, s % 60)
  }

  /** Year, month and day of day n. */
  function DateOf(n: int): (r: (int, int, int))
    ensures 1 <= r.1 <= 12 && 1 <= r.2 <= DaysIn(r.0, r.1) <= 31
    ensures DaysBeforeYear(r.0) + DaysBeforeMonth(IsLeap(r.0), r.1) + r.2 - 1 == n
  {
    var y := YearOf(n);
    YearLength(y);
    var dayOfYear := n - DaysBeforeYear(y);
    var m := MonthFrom(IsLeap(y), 1, dayOfYear);
    MonthLength(y, m);
    (y, m, dayOfYear - DaysBeforeMonth(IsLeap(y), m) + 1)
  }

  lemma TimeOfDay(s: int)
    requires 0 <= s < 86400
    ensures 0 <= s / 3600 < 24 && 0 <= s % 3600 / 60 < 60 && 0 <= s % 60 < 60
    ensures s / 3600 * 3600 + s % 3600 / 60 * 60 + s % 60 == s
  {}

  lemma {:induction false} YearsApart(y: int, z: int)
    requires y < z
    ensures DaysBeforeYear(y + 1) <= DaysBeforeYear(z)
    decreases z - y
  {
    if y + 1 < z {
      YearLength(z - 1);
      YearsApart(y, z - 1);
    }
  }

  lemma YearIs(n: int, y: int)
    requires DaysBeforeYear(y) <= n < DaysBeforeYear(y + 1)
    ensures YearOf(n) == y
  {
    var z := YearOf(n);
    hide DaysBeforeYear, YearOf;
    if z < y {
      YearsApart(z, y);
    } else if y < z {
      YearsApart(y, z);
    }
  }

  lemma MonthIs(leap: bool, m: int, dayOfYear: int)
    requires 1 <= m <= 12 && DaysBeforeMonth(leap, m) <= dayOfYear < DaysBeforeMonth(leap, m + 1)
    ensures dayOfYear < DaysBeforeMonth(leap, 13) && 0 <= dayOfYear && MonthFrom(leap, 1, dayOfYear) == m
  {
    MonthsApart(leap, m + 1, 13);
    MonthsApart(leap, 1, m);
    var r := MonthFrom(leap, 1, dayOfYear);
    hide MonthFrom, DaysBeforeMonth;
    if r < m {
      MonthsApart(leap, r + 1, m);
    } else if m < r {
      MonthsApart(leap, m + 1, r);
    }
  }

  lemma {:induction false} MonthsApart(leap: bool, m: int, k: int)
    requires 1 <= m <= k <= 13
    ensures DaysBeforeMonth(leap, m) <= DaysBeforeMonth(leap, k)
    decreases k - m
  {
    if m < k {
      MonthsApart(leap, m, k - 1);
    }
  }

  lemma DateIs(y: int, m: int, d: int)
    requires 1 <= m <= 12 && 1 <= d <= DaysBeforeMonth(IsLeap(y), m + 1) - DaysBeforeMonth(IsLeap(y), m)
    ensures DateOf(DaysBeforeYear(y) + DaysBeforeMonth(IsLeap(y), m) + d - 1) == (y, m, d)
  {
    var n := DaysBeforeYear(y) + DaysBeforeMonth(IsLeap(y), m) + d - 1;
    hide DaysBeforeYear, YearOf, MonthFrom, DaysBeforeMonth, IsLeap, DateOf, DaysIn;
    YearLength(y);
    DaysInYear(IsLeap(y));
    MonthIs(IsLeap(y), m, n - DaysBeforeYear(y));
    YearIs(n, y);
    DateFrom(n, y, m);
  }

  lemma DateFrom(n: int, y: int, m: int)
    requires YearOf(n) == y && 1 <= m <= 12
    requires var d := n - DaysBeforeYear(y);
             && DaysBeforeMonth(IsLeap(y), 1) <= d < DaysBeforeMonth(IsLeap(y), 13) && MonthFrom(IsLeap(y), 1, d) == m
    ensures DateOf(n) == (y, m, n - DaysBeforeYear(y) - DaysBeforeMonth(IsLeap(y), m) + 1)
  {
    hide DaysBeforeYear, YearOf, MonthFrom, DaysBeforeMonth, IsLeap;
  }

  lemma DaysInYear(leap: bool)
    ensures DaysBeforeMonth(leap, 1) == 0 && DaysBeforeMonth(leap, 13) == 365 + if leap then 1 else 0
    ensures forall m :: 1 <= m <= 13 ==> DaysBeforeMonth(leap, m) >= 0
  {}

  /** Reading the calendar undoes computing the second, for dates that exist. */
  lemma CivilOfSecond(c: Civil)
    requires Exists(c)
    ensures CivilOf(SecondOf(c)) == c
  {
    var n := DaysBeforeYear(c.year) + DaysBeforeMonth(IsLeap(c.year), c.month) + c.day - 1;
    hide DateOf, DaysBeforeYear, DaysBeforeMonth, IsLeap, CivilOf, SecondOf, HasClock, DaysIn;
    SecondIs(c);
    MonthLength(c.year, c.month);
    DateIs(c.year, c.month, c.day);
    ClockIs(n - EPOCH, c.hour, c.minute, c.second);
    CivilFrom(SecondOf(c), n, c);
  }

  lemma SecondIs(c: Civil)
    requires InRange(c)
    ensures var n := DaysBeforeYear(c.year) + DaysBeforeMonth(IsLeap(c.year), c.month) + c.day - 1;
            SecondOf(c) == (n - EPOCH) * 86400 + c.hour * 3600 + c.minute * 60 + c.second
  {
    hide DaysBeforeYear, DaysBeforeMonth, IsLeap;
  }

  lemma CivilFrom(second: int, n: int, c: Civil)
    requires HasClock(second, n - EPOCH, c.hour, c.minute, c.second) && DateOf(n) == (c.year, c.month, c.day)
    ensures CivilOf(second) == c
  {
    hide DateOf, SecondOf;
  }

  /** The day and the time of day of a second. */
  predicate HasClock(t: int, day: int, hour: int, minute: int, second: int) {
    && t / 86400 == day && t % 86400 / 3600 == hour
    && t % 86400 % 3600 / 60 == minute && t % 86400 % 60 == second
  }

  lemma ClockIs(day: int, hour: int, minute: int, second: int)
    requires 0 <= hour < 24 && 0 <= minute < 60 && 0 <= second < 60
    ensures HasClock(day * 86400 + hour * 3600 + minute * 60 + second, day, hour, minute, second)
  {
    var s := hour * 3600 + minute * 60 + second;
    Division(day * 86400 + s, 86400, day, s);
    Division(s, 3600, hour, minute * 60 + second);
    Division(minute * 60 + second, 60, minute, second);
    Division(s, 60, hour * 60 + minute, second);
  }

  lemma Division(x: int, k: int, q: int, r: int)
    requires k > 0 && 0 <= r < k && x == q * k + r
    ensures x / k == q && x % k == r
  {
    Quotient(x, k, q, r);
  }

  // ----- Text -----

  /** A year of at least four digits, with a minus sign when negative. */
  function YearText(y: int): string {
    if y < 0 then "-" + Digits4(-y) else Digits4(y)
  }

  function Digits4(n: nat): (s: string)
    ensures AllDigits(s) && |s| > 0
  {
    if n < 10000 then PadNat(n, 4) else FormatNat(n)
  }

  function HourText(c: Civil): (s: string)
    requires InRange(c)
    ensures ':' !in s && '|' !in s && |s| == 9
  {
    "-" + PadNat(c.month, 2) + "-" + PadNat(c.day, 2) + "T" + PadNat(c.hour, 2)
  }

  function Tail(c: Civil): (s: string)
    requires InRange(c)
    ensures |s| == 16
  {
    HourText(c) + ":" + PadNat(c.minute, 2) + ":" + PadNat(c.second, 2) + "Z"
  }

  /** date.UTC().Format(time.RFC3339) of the given second. */
  function Rfc3339(second: int): string {
    var c := CivilOf(second);
    YearText(c.year) + Tail(c)
  }

  lemma TwoDigitsInjective(a: nat, b: nat)
    requires a < 100 && b < 100 && PadNat(a, 2) == PadNat(b, 2)
    ensures a == b
  {
    DropsAll(a);
    DropsAll(b);
    PadNatValue(a, 2);
    PadNatValue(b, 2);
  }

  lemma Digits4Injective(a: nat, b: nat)
    requires Digits4(a) == Digits4(b)
    ensures a == b
  {
    DropsAll(a);
    DropsAll(b);
    if a < 10000 { PadNatValue(a, 4); } else { FormatNatValue(a); }
    if b < 10000 { PadNatValue(b, 4); } else { FormatNatValue(b); }
  }

  lemma YearSign(y: int)
    ensures |YearText(y)| > 0 && (YearText(y)[0] == '-' <==> y < 0)
  {
    var s := Digits4(if y < 0 then -y else y);
    assert IsDigit(s[0]);
  }

  lemma YearTextInjective(y: int, z: int)
    requires YearText(y) == YearText(z)
    ensures y == z
  {
    YearSign(y);
    YearSign(z);
    if y < 0 {
      assert YearText(y)[1..] == Digits4(-y) && YearText(z)[1..] == Digits4(-z);
      Digits4Injective(-y, -z);
    } else {
      Digits4Injective(y, z);
    }
  }

  lemma TailParts(c: Civil)
    requires InRange(c)
    ensures var t := Tail(c);
            && t[1..3] == PadNat(c.month, 2) && t[4..6] == PadNat(c.day, 2) && t[7..9] == PadNat(c.hour, 2)
            && t[10..12] == PadNat(c.minute, 2) && t[13..15] == PadNat(c.second, 2)
  {}

  lemma TailInjective(c: Civil, d: Civil)
    requires InRange(c) && InRange(d) && Tail(c) == Tail(d)
    ensures c.(year := d.year) == d
  {
    TailParts(c);
    TailParts(d);
    TwoDigitsInjective(c.month, d.month);
    TwoDigitsInjective(c.day, d.day);
    TwoDigitsInjective(c.hour, d.hour);
    TwoDigitsInjective(c.minute, d.minute);
    TwoDigitsInjective(c.second, d.second);
  }

  /** The text of a date that exists. */
  lemma Rfc3339Of(c: Civil)
    requires Exists(c)
    ensures Rfc3339(SecondOf(c)) == YearText(c.year) + Tail(c)
  {
    CivilOfSecond(c);
    hide CivilOf, SecondOf, YearText, Tail;
  }

  /** Formatted instants determine the instant to the second. */
  lemma Rfc3339Injective(s: int, t: int)
    requires Rfc3339(s) == Rfc3339(t)
    ensures s == t
  {
    var c, d := CivilOf(s), CivilOf(t);
    var x := Rfc3339(s);
    assert x[..|x| - 16] == YearText(c.year) == YearText(d.year);
    assert x[|x| - 16..] == Tail(c) == Tail(d);
    YearTextInjective(c.year, d.year);
    TailInjective(c, d);
  }

  /** The text up to its first colon, and the six characters behind it. */
  lemma Rfc3339Parts(second: int) returns (head: string, tail: string)
    ensures Rfc3339(second) == head + ":" + tail && |tail| == 6
    ensures ':' !in head && '|' !in head
  {
    var c := CivilOf(second);
    var minute, sec := PadNat(c.minute, 2), PadNat(c.second, 2);
    hide PadNat, Digits4, CivilOf, HourText;
    YearPlain(c.year);
    head := YearText(c.year) + HourText(c);
    tail := minute + ":" + sec + "Z";
    Regroup(YearText(c.year), HourText(c), minute, sec);
    hide YearText;
  }

  lemma YearPlain(y: int)
    ensures ':' !in YearText(y) && '|' !in YearText(y)
  {
    hide Digits4;
  }

  lemma Regroup(year: string, hour: string, minute: string, second: string)
    ensures year + (hour + ":" + minute + ":" + second + "Z") == year + hour + ":" + (minute + ":" + second + "Z")
  {}

  /** The text is made of digits and the separators of the format. */
  lemma Rfc3339Alphabet(second: int)
    ensures '|' !in Rfc3339(second)
  {}
}
