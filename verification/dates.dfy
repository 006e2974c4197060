/** Calendar dates as the tracker uses them. A transaction's date is a day of
    the proleptic Gregorian calendar; a selected month is a year and a month.
    The source keeps both as ISO strings and compares them as strings, so this
    module also models the zero-padded "YYYY-MM" key and proves that comparing
    keys as strings is comparing months in calendar order. */
module Dates {

  datatype Date = Date(year: int, month: int, day: int)

  datatype YearMonth = YearMonth(year: int, month: int)

  /** Gregorian leap-year rule. */
  predicate IsLeapYear(year: int)
  {
    year % 4 == 0 && (year % 100 != 0 || year % 400 == 0)
  }

  predicate ValidMonth(ym: YearMonth)
  {
    1 <= ym.month <= 12
  }

  /** Number of days of a month (the day before the first of the next month). */
  function DaysInMonth(ym: YearMonth): (days: int)
    requires ValidMonth(ym)
    ensures 28 <= days <= 31
  {
    if ym.month == 2 then (if IsLeapYear(ym.year) then 29 else 28)
    else if ym.month == 4 || ym.month == 6 || ym.month == 9 || ym.month == 11 then 30
    else 31
  }

  /** Days in the first `n` months of a year. */
  function DaysBeforeMonth(year: int, n: int): int
    requires 0 <= n <= 12
  {
    if n == 0 then 0 else DaysBeforeMonth(year, n - 1) + DaysInMonth(YearMonth(year, n))
  }

  /** The twelve months add up to the length of the year, and February alone
      carries the leap day. */
  lemma YearLength(year: int)
    ensures DaysBeforeMonth(year, 12) == if IsLeapYear(year) then 366 else 365
    ensures DaysInMonth(YearMonth(year, 2)) == 28 + (if IsLeapYear(year) then 1 else 0)
  {
    var leap := if IsLeapYear(year) then 1 else 0;
    assert DaysBeforeMonth(year, 1) == 31;
    assert DaysBeforeMonth(year, 2) == 59 + leap;
    assert DaysBeforeMonth(year, 3) == 90 + leap;
    assert DaysBeforeMonth(year, 4) == 120 + leap;
    assert DaysBeforeMonth(year, 5) == 151 + leap;
    assert DaysBeforeMonth(year, 6) == 181 + leap;
    assert DaysBeforeMonth(year, 7) == 212 + leap;
    assert DaysBeforeMonth(year, 8) == 243 + leap;
    assert DaysBeforeMonth(year, 9) == 273 + leap;
    assert DaysBeforeMonth(year, 10) == 304 + leap;
    assert DaysBeforeMonth(year, 11) == 334 + leap;
  }

  function MonthOf(d: Date): YearMonth
  {
    YearMonth(d.year, d.month)
  }

  /** A date the browser's date input can produce. */
  predicate ValidDate(d: Date)
  {
    1 <= d.month <= 12 && 1 <= d.day <= DaysInMonth(MonthOf(d))
  }

  /** Months counted from January of year 0. */
  function MonthIndex(ym: YearMonth): int
  {
    ym.year * 12 + (ym.month - 1)
  }

  /** Calendar order of months. */
  predicate MonthBefore(a: YearMonth, b: YearMonth)
  {
    a.year < b.year || (a.year == b.year && a.month < b.month)
  }

  /** Calendar order of days. */
  predicate DateBefore(a: Date, b: Date)
  {
    MonthBefore(MonthOf(a), MonthOf(b)) || (MonthOf(a) == MonthOf(b) && a.day < b.day)
  }

  /** A number that orders valid dates as their timestamps do. */
  function DateOrdinal(d: Date): int
  {
    MonthIndex(MonthOf(d)) * 31 + (d.day - 1)
  }

  lemma MonthIndexOrder(a: YearMonth, b: YearMonth)
    requires ValidMonth(a) && ValidMonth(b)
    ensures MonthIndex(a) < MonthIndex(b) <==> MonthBefore(a, b)
    ensures MonthIndex(a) == MonthIndex(b) <==> a == b
  {
  }

  /** Ordering dates by ordinal is ordering them by calendar day. */
  lemma DateOrdinalOrder(a: Date, b: Date)
    requires ValidDate(a) && ValidDate(b)
    ensures DateOrdinal(a) < DateOrdinal(b) <==> DateBefore(a, b)
    ensures DateOrdinal(a) == DateOrdinal(b) <==> a == b
  {
    var ia, ib := MonthIndex(MonthOf(a)), MonthIndex(MonthOf(b));
    MonthIndexOrder(MonthOf(a), MonthOf(b));
    if ia < ib {
      assert ia * 31 + 31 <= ib * 31;
    } else if ib < ia {
      assert ib * 31 + 31 <= ia * 31;
    }
  }

  // ----- The "YYYY-MM" key ------------------------------------------------

  function Pow10(n: nat): nat
  {
    if n == 0 then 1 else 10 * Pow10(n - 1)
  }

  function DigitChar(d: int): char
    requires 0 <= d <= 9
  {
    (d + 48) as char
  }

  /** `x` written with exactly `n` decimal digits, zero-padded on the left. */
  function Digits(x: nat, n: nat): (s: string)
    requires x < Pow10(n)
    ensures |s| == n
  {
    if n == 0 then []
    else
      var p := Pow10(n - 1);
      assert x / p < 10 by { DivBound(x, p, 10); }
      [DigitChar(x / p)] + Digits(x % p, n - 1)
  }

  lemma DivBound(x: nat, p: nat, k: nat)
    requires p > 0 && x < k * p
    ensures 0 <= x / p < k
  {
  }

  /** String order by code unit, the order `localeCompare` agrees with on
      strings of digits and hyphens. */
  predicate LexLess(a: string, b: string)
  {
    if |a| == 0 then |b| > 0
    else if |b| == 0 then false
    else if a[0] != b[0] then a[0] < b[0]
    else LexLess(a[1..], b[1..])
  }

  /** A smaller quotient by `p` means a smaller number, whatever the
      remainders. */
  lemma {:induction false} QuotientGap(hx: int, rx: int, hy: int, ry: int, p: int)
    requires p > 0 && 0 <= rx < p && 0 <= ry < p && hx < hy
    ensures hx * p + rx < hy * p + ry
  {
    var d := hy - hx;
    MulAtLeast(d, p);
    assert hy * p == hx * p + d * p;
  }

  lemma {:induction false} MulAtLeast(d: int, p: int)
    requires d >= 1 && p >= 0
    ensures d * p >= p
    decreases d
  {
    if d > 1 {
      MulAtLeast(d - 1, p);
      assert d * p == (d - 1) * p + p;
    }
  }

  /** Comparing two numbers is comparing their quotients by `p`, then their
      remainders. */
  lemma {:induction false} PlaceValueOrder(x: nat, y: nat, p: nat)
    requires p > 0
    ensures x < y <==> x / p < y / p || (x / p == y / p && x % p < y % p)
    ensures x == y <==> x / p == y / p && x % p == y % p
  {
    var hx, rx, hy, ry := x / p, x % p, y / p, y % p;
    assert x == hx * p + rx && y == hy * p + ry;
    if hx < hy {
      QuotientGap(hx, rx, hy, ry, p);
    } else if hy < hx {
      QuotientGap(hy, ry, hx, rx, p);
    }
  }

  lemma DigitCharOrder(a: int, b: int)
    requires 0 <= a <= 9 && 0 <= b <= 9
    ensures DigitChar(a) < DigitChar(b) <==> a < b
    ensures DigitChar(a) == DigitChar(b) <==> a == b
  {
    assert DigitChar(a) as int == a + 48 && DigitChar(b) as int == b + 48;
  }

  lemma LexLessCons(c: char, a: string, d: char, b: string)
    ensures LexLess([c] + a, [d] + b) <==> c < d || (c == d && LexLess(a, b))
  {
    assert ([c] + a)[1..] == a && ([d] + b)[1..] == b;
  }

  /** Zero-padded digit strings of one width compare as their numbers do. */
  lemma {:induction false} DigitsOrder(x: nat, y: nat, n: nat)
    requires x < Pow10(n) && y < Pow10(n)
    ensures LexLess(Digits(x, n), Digits(y, n)) <==> x < y
    ensures Digits(x, n) == Digits(y, n) <==> x == y
    decreases n
  {
    if n > 0 {
      var p := Pow10(n - 1);
      var hx, rx, hy, ry := x / p, x % p, y / p, y % p;
      DivBound(x, p, 10);
      DivBound(y, p, 10);
      PlaceValueOrder(x, y, p);
      DigitsOrder(rx, ry, n - 1);
      DigitCharOrder(hx, hy);
      var tx, ty := Digits(rx, n - 1), Digits(ry, n - 1);
      assert Digits(x, n) == [DigitChar(hx)] + tx;
      assert Digits(y, n) == [DigitChar(hy)] + ty;
      LexLessCons(DigitChar(hx), tx, DigitChar(hy), ty);
      assert [DigitChar(hx)] + tx == [DigitChar(hy)] + ty <==> DigitChar(hx) == DigitChar(hy) && tx == ty by {
        if [DigitChar(hx)] + tx == [DigitChar(hy)] + ty {
          assert ([DigitChar(hx)] + tx)[1..] == tx && ([DigitChar(hy)] + ty)[1..] == ty;
        }
      }
    }
  }

  /** The `YYYY-MM` prefix of an ISO date string, for years 0 to 9999. */
  function MonthKey(ym: YearMonth): (key: string)
    requires ValidMonth(ym) && 0 <= ym.year <= 9999
    ensures |key| == 7 && key[4] == '-'
  {
    Digits(ym.year, 4) + "-" + Digits(ym.month, 2)
  }

  lemma {:induction false} LexLessAfterEqualPrefix(p: string, a: string, b: string)
    ensures LexLess(p + a, p + b) <==> LexLess(a, b)
    decreases |p|
  {
    if |p| == 0 {
      assert p + a == a && p + b == b;
    } else {
      assert (p + a)[1..] == p[1..] + a;
      assert (p + b)[1..] == p[1..] + b;
      LexLessAfterEqualPrefix(p[1..], a, b);
    }
  }

  lemma {:induction false} LexLessDifferingPrefix(p: string, q: string, a: string, b: string)
    requires |p| == |q| && p != q
    ensures LexLess(p + a, q + b) <==> LexLess(p, q)
    decreases |p|
  {
    assert |p| > 0;
    assert (p + a)[1..] == p[1..] + a;
    assert (q + b)[1..] == q[1..] + b;
    if p[0] == q[0] {
      assert p[1..] != q[1..] by {
        assert p == [p[0]] + p[1..] && q == [q[0]] + q[1..];
      }
      LexLessDifferingPrefix(p[1..], q[1..], a, b);
    }
  }

  /** Keys of the form `y + "-" + m` with equally long parts are equal when
      both parts are. */
  lemma SplitKeyEqual(ya: string, yb: string, ma: string, mb: string)
    requires |ya| == |yb| && |ma| == |mb|
    ensures ya + "-" + ma == yb + "-" + mb <==> ya == yb && ma == mb
  {
    var ka, kb := ya + "-" + ma, yb + "-" + mb;
    assert ka[..|ya|] == ya && kb[..|yb|] == yb;
    assert ka[|ya| + 1..] == ma && kb[|yb| + 1..] == mb;
  }

  /** ... and compare by `y` first, then by `m`. */
  lemma SplitKeyLess(ya: string, yb: string, ma: string, mb: string)
    requires |ya| == |yb|
    ensures LexLess(ya + "-" + ma, yb + "-" + mb) <==> LexLess(ya, yb) || (ya == yb && LexLess(ma, mb))
  {
    if ya != yb {
      SplitKeyLessYears(ya, yb, ma, mb);
    } else {
      LexLessAfterEqualPrefix(ya + "-", ma, mb);
      LexLessIrreflexive(ya);
    }
  }

  lemma SplitKeyLessYears(ya: string, yb: string, ma: string, mb: string)
    requires |ya| == |yb| && ya != yb
    ensures LexLess(ya + "-" + ma, yb + "-" + mb) <==> LexLess(ya, yb)
  {
    assert ya + "-" + ma == ya + ("-" + ma);
    assert yb + "-" + mb == yb + ("-" + mb);
    LexLessDifferingPrefix(ya, yb, "-" + ma, "-" + mb);
  }

  lemma {:induction false} LexLessIrreflexive(s: string)
    ensures !LexLess(s, s)
    decreases |s|
  {
    if |s| > 0 {
      LexLessIrreflexive(s[1..]);
    }
  }

  /** Comparing month keys as strings is comparing months in calendar order,
      and distinct months have distinct keys. */
  lemma MonthKeyOrder(a: YearMonth, b: YearMonth)
    requires ValidMonth(a) && 0 <= a.year <= 9999
    requires ValidMonth(b) && 0 <= b.year <= 9999
    ensures LexLess(MonthKey(a), MonthKey(b)) <==> MonthBefore(a, b)
    ensures MonthKey(a) == MonthKey(b) <==> a == b
  {
    assert Pow10(2) == 100 && Pow10(4) == 10000;
    DigitsOrder(a.year, b.year, 4);
    DigitsOrder(a.month, b.month, 2);
    SplitKeyEqual(Digits(a.year, 4), Digits(b.year, 4), Digits(a.month, 2), Digits(b.month, 2));
    SplitKeyLess(Digits(a.year, 4), Digits(b.year, 4), Digits(a.month, 2), Digits(b.month, 2));
  }
}
