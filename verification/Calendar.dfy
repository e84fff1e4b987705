/// Calendar dates from days since 1970-01-01: the loops of `chrono_date_today`
/// (`src/server_pro/user_db.rs`) and `bsd_timestamp` (`src/syslog_logger.rs`), against
/// the closed day-count formula, and the order of the `YYYY-MM-DD` strings they print.
module Calendar {

  datatype Date = Date(y: nat, m: nat, d: nat)

  predicate IsLeap(y: nat) {
    y % 4 == 0 && (y % 100 != 0 || y % 400 == 0)
  }

  function YearLength(y: nat): (n: nat)
    ensures n >= 365
  {
    if IsLeap(y) then 366 else 365
  }

  function MonthLength(y: nat, m: nat): nat
    requires 1 <= m <= 12
  {
    if m == 2 then (if IsLeap(y) then 29 else 28)
    else if m == 4 || m == 6 || m == 9 || m == 11 then 30
    else 31
  }

  predicate ValidDate(t: Date) {
    1 <= t.m <= 12 && 1 <= t.d <= MonthLength(t.y, t.m)
  }

  /// Days from 1970-01-01 to a date, in closed form, with years that start in March.
  function DaysFromCivil(t: Date): int {
    var y: int := if t.m <= 2 then t.y - 1 else t.y;
    var mp := (t.m + 9) % 12;
    YearDays(y) + (153 * mp + 2) / 5 + t.d - 1 - 719468
  }

  function YearDays(y: int): int {
    365 * y + y / 4 - y / 100 + y / 400
  }

  // ---- The specification of the loops ----

  /// The year loop from year `y` on with `rest` days left.
  function YearLoop(y: nat, rest: nat): (nat, nat)
    decreases rest
  {
    if rest < YearLength(y) then (y, rest) else YearLoop(y + 1, rest - YearLength(y))
  }

  /// The month loop from month `m` on.
  function MonthLoop(y: nat, m: nat, rest: nat): (nat, nat)
    requires 1 <= m <= 12
    decreases 12 - m
  {
    if rest < MonthLength(y, m) || m == 12 then (m, rest) else MonthLoop(y, m + 1, rest - MonthLength(y, m))
  }

  function CivilFromDays(days: nat): Date {
    var (y, yearDay) := YearLoop(1970, days);
    var (m, monthDay) := MonthLoop(y, 1, yearDay);
    Date(y, m, monthDay + 1)
  }

  lemma QuotientStep(y: int, k: int)
    requires k > 1
    ensures y / k - (y - 1) / k == if y % k == 0 then 1 else 0
  {
    var q, r := y / k, y % k;
    if r == 0 { QuotientIs(y - 1, k, q - 1, k - 1); } else { QuotientIs(y - 1, k, q, r - 1); }
  }

  lemma QuotientIs(x: int, k: int, q: int, r: int)
    requires k > 1 && x == k * q + r && 0 <= r < k
    ensures x / k == q
  {
    var d := q - x / k;
    assert k * d == x % k - r;
    assert d >= 1 ==> k * d >= k;
    assert d <= -1 ==> k * d <= -k;
  }

  /// One more year in the closed form: a leap year adds one day.
  lemma YearDaysStep(y: nat)
    ensures YearDays(y) == YearDays(y - 1) + YearLength(y)
  {
    QuotientStep(y, 4);
    QuotientStep(y, 100);
    QuotientStep(y, 400);
    Multiples(y);
  }

  lemma Multiples(y: int)
    ensures y % 100 == 0 ==> y % 4 == 0
    ensures y % 400 == 0 ==> y % 100 == 0
  {
  }

  lemma YearStep(y: nat)
    ensures DaysFromCivil(Date(y + 1, 1, 1)) == DaysFromCivil(Date(y, 1, 1)) + YearLength(y)
  {
    hide YearDays, YearLength;
    YearDaysStep(y);
  }

  lemma MonthStep(y: nat, m: nat)
    requires 1 <= m < 12
    ensures DaysFromCivil(Date(y, m + 1, 1)) == DaysFromCivil(Date(y, m, 1)) + MonthLength(y, m)
  {
    hide YearDays, IsLeap;
    YearDaysStep(y);
    MonthTable(m);
  }

  /// Days before a month in a year that starts in March.
  lemma MonthTable(m: nat)
    requires 1 <= m < 12
    ensures var (u, v) := ((153 * ((m + 9) % 12) + 2) / 5, (153 * ((m + 10) % 12) + 2) / 5);
            if m == 2 then u == 337 && v == 0
            else v - u == if m == 4 || m == 6 || m == 9 || m == 11 then 30 else 31
  {
    if m <= 2 { assert (m + 9) % 12 == m + 9; } else { assert (m + 9) % 12 == m - 3; }
  }

  lemma {:induction false} YearLoopCorrect(y: nat, rest: nat)
    ensures var (y', rest') := YearLoop(y, rest);
            && y' >= y && rest' < YearLength(y')
            && DaysFromCivil(Date(y', 1, 1)) + rest' == DaysFromCivil(Date(y, 1, 1)) + rest
    decreases rest
  {
    hide DaysFromCivil, MonthLength, YearLength;
    if rest >= YearLength(y) {
      YearStep(y);
      YearLoopCorrect(y + 1, rest - YearLength(y));
    }
  }

  /// Days from the first of month `m` to the end of the year.
  function DaysLeft(y: nat, m: nat): int
    requires 1 <= m <= 12
  {
    DaysFromCivil(Date(y + 1, 1, 1)) - DaysFromCivil(Date(y, m, 1))
  }

  lemma {:induction false} MonthLoopCorrect(y: nat, m: nat, rest: nat)
    requires 1 <= m <= 12 && rest < DaysLeft(y, m)
    ensures var (m', rest') := MonthLoop(y, m, rest);
            && m <= m' <= 12 && rest' < MonthLength(y, m')
            && DaysFromCivil(Date(y, m', 1)) + rest' == DaysFromCivil(Date(y, m, 1)) + rest
    decreases 12 - m
  {
    hide DaysFromCivil, MonthLength, YearLength;
    YearStep(y);
    LastMonth(y);
    if rest >= MonthLength(y, m) && m < 12 {
      MonthStep(y, m);
      MonthLoopCorrect(y, m + 1, rest - MonthLength(y, m));
    }
    December(y);
  }

  /// Every day count gives a valid date that the closed formula maps back.
  lemma CivilCorrect(days: nat)
    ensures var t := CivilFromDays(days);
            ValidDate(t) && t.y >= 1970 && DaysFromCivil(t) == days
  {
    hide DaysFromCivil, MonthLength, YearLength;
    var (y, yearDay) := YearLoop(1970, days);
    YearLoopCorrect(1970, days);
    YearStep(y);
    MonthLoopCorrect(y, 1, yearDay);
    DayOfMonth(CivilFromDays(days));
    Epoch();
  }

  lemma Epoch()
    ensures DaysFromCivil(Date(1970, 1, 1)) == 0
  {
  }

  // ---- The loops ----

  /// `chrono_date_today`, after the division of the clock by 86400.
  method DateToday(days: nat) returns (t: Date)
    ensures t == CivilFromDays(days)
  {
    hide DaysFromCivil;
    var y: nat, remaining: nat := 1970, days;
    while true
      invariant YearLoop(y, remaining) == YearLoop(1970, days)
      decreases remaining
    {
      var leap := if y % 4 == 0 && (y % 100 != 0 || y % 400 == 0) then 366 else 365;
      if remaining < leap { break; }
      remaining := remaining - leap;
      y := y + 1;
    }
    ghost var yearDay := remaining;
    YearLoopCorrect(1970, days);
    YearStep(y);
    MonthLoopCorrect(y, 1, yearDay);
    var leap := y % 4 == 0 && (y % 100 != 0 || y % 400 == 0);
    var daysInMonths := [31, if leap then 29 else 28, 31, 30, 31, 30, 31, 31, 30, 31, 30, 31];
    var m := 0;
    for i := 0 to 12
      invariant i < 12 && m == 0
      invariant MonthLoop(y, i + 1, remaining) == MonthLoop(y, 1, yearDay)
      invariant remaining < DaysLeft(y, i + 1)
    {
      assert daysInMonths[i] == MonthLength(y, i + 1);
      if remaining < daysInMonths[i] { m := i; break; }
      if i < 11 { MonthStep(y, i + 1); }
      remaining := remaining - daysInMonths[i];
    }
    t := Date(y, m + 1, remaining + 1);
  }

  /// `bsd_timestamp`: month index and day, from its own month table.
  method BsdMonthDay(days: nat) returns (m: nat, day: nat)
    ensures m < 12 && m + 1 == CivilFromDays(days).m && day == CivilFromDays(days).d
  {
    var daysInMonths := [31, 28, 31, 30, 31, 30, 31, 31, 30, 31, 30, 31];
    hide DaysFromCivil;
    var y: nat, remaining: nat := 1970, days;
    while true
      invariant YearLoop(y, remaining) == YearLoop(1970, days)
      decreases remaining
    {
      var leap := if y % 4 == 0 && (y % 100 != 0 || y % 400 == 0) then 366 else 365;
      if remaining < leap { break; }
      remaining := remaining - leap;
      y := y + 1;
    }
    ghost var yearDay := remaining;
    YearLoopCorrect(1970, days);
    YearStep(y);
    MonthLoopCorrect(y, 1, yearDay);
    var leap := y % 4 == 0 && (y % 100 != 0 || y % 400 == 0);
    m := 0;
    for i := 0 to 12
      invariant i < 12 && m == 0
      invariant MonthLoop(y, i + 1, remaining) == MonthLoop(y, 1, yearDay)
      invariant remaining < DaysLeft(y, i + 1)
    {
      var d := daysInMonths[i];
      if i == 1 && leap { d := d + 1; }
      assert d == MonthLength(y, i + 1);
      if remaining < d { m := i; break; }
      if i < 11 { MonthStep(y, i + 1); }
      remaining := remaining - d;
    }
    day := remaining + 1;
  }

  // ---- Order of dates ----

  predicate Before(s: Date, t: Date) {
    s.y < t.y || (s.y == t.y && (s.m < t.m || (s.m == t.m && s.d < t.d)))
  }

  lemma {:induction false} YearsApart(y: nat, y': nat)
    requires y < y'
    ensures DaysFromCivil(Date(y, 1, 1)) + YearLength(y) <= DaysFromCivil(Date(y', 1, 1))
    decreases y'
  {
    hide DaysFromCivil, MonthLength, YearLength;
    YearStep(y' - 1);
    if y < y' - 1 { YearsApart(y, y' - 1); }
  }

  lemma {:induction false} MonthsApart(y: nat, m: nat, m': nat)
    requires 1 <= m < m' <= 12
    ensures DaysFromCivil(Date(y, m, 1)) + MonthLength(y, m) <= DaysFromCivil(Date(y, m', 1))
    decreases m'
  {
    hide DaysFromCivil, MonthLength, YearLength;
    MonthStep(y, m' - 1);
    if m < m' - 1 { MonthsApart(y, m, m' - 1); }
  }

  lemma DayOfMonth(t: Date)
    requires 1 <= t.m <= 12
    ensures DaysFromCivil(t) == DaysFromCivil(Date(t.y, t.m, 1)) + t.d - 1
  {
    hide YearDays;
  }

  lemma WithinYear(t: Date)
    requires ValidDate(t)
    ensures DaysFromCivil(Date(t.y, 1, 1)) <= DaysFromCivil(t) < DaysFromCivil(Date(t.y, 1, 1)) + YearLength(t.y)
    ensures var first := DaysFromCivil(Date(t.y, t.m, 1));
            first <= DaysFromCivil(t) < first + MonthLength(t.y, t.m)
  {
    hide DaysFromCivil, YearLength;
    DayOfMonth(t);
    if t.m > 1 { MonthsApart(t.y, 1, t.m); }
    LastMonth(t.y);
    if t.m < 12 { MonthsApart(t.y, t.m, 12); }
  }

  lemma December(y: nat)
    ensures MonthLength(y, 12) == 31
  {
  }

  /// December ends the year.
  lemma LastMonth(y: nat)
    ensures DaysFromCivil(Date(y, 12, 1)) + 31 == DaysFromCivil(Date(y, 1, 1)) + YearLength(y)
  {
    hide YearDays, YearLength;
    YearDaysStep(y);
  }

  lemma EarlierDate(s: Date, t: Date)
    requires ValidDate(s) && ValidDate(t) && Before(s, t)
    ensures DaysFromCivil(s) < DaysFromCivil(t)
  {
    hide DaysFromCivil, MonthLength, YearLength;
    WithinYear(s);
    WithinYear(t);
    DayOfMonth(s);
    DayOfMonth(t);
    if s.y < t.y { YearsApart(s.y, t.y); } else if s.m < t.m { MonthsApart(s.y, s.m, t.m); }
  }

  lemma CivilOrder(a: nat, b: nat)
    ensures a < b <==> Before(CivilFromDays(a), CivilFromDays(b))
  {
    hide DaysFromCivil, CivilFromDays, ValidDate;
    var s, t := CivilFromDays(a), CivilFromDays(b);
    CivilCorrect(a);
    CivilCorrect(b);
    if Before(s, t) { EarlierDate(s, t); } else if Before(t, s) { EarlierDate(t, s); } else { assert s == t; }
  }

  // ---- Order of the printed dates ----

  function Digit(n: nat): char
    requires n < 10
  {
    '0' + n as char
  }

  function Decimal(n: nat): string {
    if n < 10 then [Digit(n)] else Decimal(n / 10) + [Digit(n % 10)]
  }

  /// `{:0w}`
  function Padded(n: nat, w: nat): string {
    var s := Decimal(n);
    seq(if |s| < w then w - |s| else 0, i => '0') + s
  }

  /// `{:04}-{:02}-{:02}`
  function DateText(t: Date): string {
    Padded(t.y, 4) + "-" + Padded(t.m, 2) + "-" + Padded(t.d, 2)
  }

  /// The BINARY collation: first difference decides, a proper prefix comes first.
  predicate TextLess(s: string, t: string) {
    t != [] && (s == [] || s[0] < t[0] || (s[0] == t[0] && TextLess(s[1..], t[1..])))
  }

  lemma DecimalStep(n: nat)
    requires n >= 10
    ensures Decimal(n) == Decimal(n / 10) + [Digit(n % 10)]
  {
  }

  lemma FourDigits(n: nat)
    requires n <= 9999
    ensures Padded(n, 4) == [Digit(n / 1000), Digit(n / 100 % 10), Digit(n / 10 % 10), Digit(n % 10)]
  {
    hide Digit;
    ZeroDigit();
    NestedQuotients(n);
    if n >= 10 { DecimalStep(n); }
    if n >= 100 { DecimalStep(n / 10); }
    if n >= 1000 { DecimalStep(n / 100); }
  }

  lemma ZeroDigit()
    ensures Digit(0) == '0'
  {
  }

  lemma NestedQuotients(n: nat)
    requires n <= 9999
    ensures n / 10 / 10 == n / 100 && n / 100 / 10 == n / 1000
    ensures n < 10 ==> n / 10 == 0 && n % 10 == n
    ensures n < 100 ==> n / 100 == 0 && n / 10 % 10 == n / 10
    ensures n < 1000 ==> n / 1000 == 0 && n / 100 % 10 == n / 100
    ensures n / 1000 < 10
  {
  }

  lemma TwoDigits(n: nat)
    requires n <= 99
    ensures Padded(n, 2) == [Digit(n / 10), Digit(n % 10)]
  {
    if n < 10 { assert Decimal(n) == [Digit(n)]; } else { assert Decimal(n / 10) == [Digit(n / 10)]; }
  }

  /// The printed date as ten characters.
  lemma TenCharacters(t: Date)
    requires ValidDate(t) && t.y <= 9999
    ensures DateText(t) ==
            [Digit(t.y / 1000), Digit(t.y / 100 % 10), Digit(t.y / 10 % 10), Digit(t.y % 10), '-',
             Digit(t.m / 10), Digit(t.m % 10), '-', Digit(t.d / 10), Digit(t.d % 10)]
  {
    FourDigits(t.y);
    TwoDigits(t.m);
    TwoDigits(t.d);
  }

  function DigitValue(c: char): int {
    c as int - '0' as int
  }

  /// Year, month and day can be read off the ten characters.
  lemma DateTextReads(t: Date)
    requires ValidDate(t) && t.y <= 9999
    ensures var s := DateText(t);
            && |s| == 10 && s[4] == s[7] == '-'
            && 1000 * DigitValue(s[0]) + 100 * DigitValue(s[1]) + 10 * DigitValue(s[2]) + DigitValue(s[3]) == t.y
            && 10 * DigitValue(s[5]) + DigitValue(s[6]) == t.m && 10 * DigitValue(s[8]) + DigitValue(s[9]) == t.d
  {
    hide DateText, Digit, DigitValue, DaysFromCivil;
    TenCharacters(t);
    DigitReads(t.y / 1000);
    DigitReads(t.y / 100 % 10);
    DigitReads(t.y / 10 % 10);
    DigitReads(t.y % 10);
    DigitReads(t.m / 10);
    DigitReads(t.m % 10);
    DigitReads(t.d / 10);
    DigitReads(t.d % 10);
    FourPlaces(t.y);
  }

  lemma DigitReads(n: nat)
    requires n < 10
    ensures DigitValue(Digit(n)) == n
  {
  }

  lemma FourPlaces(n: nat)
    ensures 1000 * (n / 1000) + 100 * (n / 100 % 10) + 10 * (n / 10 % 10) + n % 10 == n
  {
    assert n / 10 / 10 == n / 100 && n / 100 / 10 == n / 1000;
  }

  /// A common first part does not matter; otherwise the first part of equal length decides.
  lemma {:induction false} PrefixDecides(a: string, b: string, s: string, t: string)
    requires |a| == |b|
    ensures TextLess(a + s, b + t) <==> TextLess(a, b) || (a == b && TextLess(s, t))
  {
    if a != [] {
      assert (a + s)[1..] == a[1..] + s && (b + t)[1..] == b[1..] + t;
      PrefixDecides(a[1..], b[1..], s, t);
      assert a == [a[0]] + a[1..] && b == [b[0]] + b[1..];
    } else {
      assert a + s == s && b + t == t;
    }
  }

  lemma DigitOrder(a: nat, b: nat)
    requires a < 10 && b < 10
    ensures TextLess([Digit(a)], [Digit(b)]) <==> a < b
    ensures Digit(a) == Digit(b) <==> a == b
  {
  }

  lemma {:induction false} PaddedOrder2(a: nat, b: nat)
    requires a <= 99 && b <= 99
    ensures |Padded(a, 2)| == |Padded(b, 2)| == 2
    ensures TextLess(Padded(a, 2), Padded(b, 2)) <==> a < b
    ensures Padded(a, 2) == Padded(b, 2) <==> a == b
  {
    TwoDigits(a);
    TwoDigits(b);
    DigitOrder(a / 10, b / 10);
    DigitOrder(a % 10, b % 10);
    PrefixDecides([Digit(a / 10)], [Digit(b / 10)], [Digit(a % 10)], [Digit(b % 10)]);
    assert Padded(a, 2) == [Digit(a / 10)] + [Digit(a % 10)];
    assert Padded(b, 2) == [Digit(b / 10)] + [Digit(b % 10)];
  }

  lemma {:induction false} PaddedOrder4(a: nat, b: nat)
    requires a <= 9999 && b <= 9999
    ensures |Padded(a, 4)| == |Padded(b, 4)| == 4
    ensures TextLess(Padded(a, 4), Padded(b, 4)) <==> a < b
    ensures Padded(a, 4) == Padded(b, 4) <==> a == b
  {
    SplitFour(a);
    SplitFour(b);
    PaddedOrder2(a / 100, b / 100);
    PaddedOrder2(a % 100, b % 100);
    PrefixDecides(Padded(a / 100, 2), Padded(b / 100, 2), Padded(a % 100, 2), Padded(b % 100, 2));
  }

  lemma SplitFour(a: nat)
    requires a <= 9999
    ensures Padded(a, 4) == Padded(a / 100, 2) + Padded(a % 100, 2)
    ensures |Padded(a / 100, 2)| == 2 && |Padded(a % 100, 2)| == 2
  {
    hide Padded, Digit;
    FourDigits(a);
    TwoDigits(a / 100);
    TwoDigits(a % 100);
    NestedDigits(a, a / 1000, a / 100 % 10, a / 10 % 10, a % 10);
  }

  lemma NestedDigits(a: nat, k: nat, h: nat, t: nat, u: nat)
    requires a <= 9999
    requires k == a / 1000 && h == a / 100 % 10 && t == a / 10 % 10 && u == a % 10
    ensures a / 100 / 10 == k && a / 100 % 10 == h && a % 100 / 10 == t && a % 100 % 10 == u
  {
    NestedQuotients(a);
    assert a == 100 * (a / 100) + (10 * t + u) && 10 * t + u < 100 by {
      assert a == 10 * (a / 10) + u && a / 10 == 10 * (a / 10 / 10) + t;
    }
    assert a % 100 == 10 * t + u;
  }

  lemma DateTextOrder(s: Date, t: Date)
    requires ValidDate(s) && ValidDate(t) && s.y <= 9999 && t.y <= 9999
    ensures TextLess(DateText(s), DateText(t)) <==> Before(s, t)
    ensures DateText(s) == DateText(t) <==> s == t
  {
    hide Padded;
    PaddedOrder4(s.y, t.y);
    PaddedOrder2(s.m, t.m);
    PaddedOrder2(s.d, t.d);
    var (sm, tm) := (Padded(s.m, 2), Padded(t.m, 2));
    var (sr, tr) := (sm + ("-" + Padded(s.d, 2)), tm + ("-" + Padded(t.d, 2)));
    PrefixDecides("-", "-", Padded(s.d, 2), Padded(t.d, 2));
    PrefixDecides(sm, tm, "-" + Padded(s.d, 2), "-" + Padded(t.d, 2));
    PrefixDecides("-", "-", sr, tr);
    PrefixDecides(Padded(s.y, 4), Padded(t.y, 4), "-" + sr, "-" + tr);
    assert DateText(s) == Padded(s.y, 4) + ("-" + sr) && DateText(t) == Padded(t.y, 4) + ("-" + tr);
    assert !TextLess("-", "-");
    if DateText(s) == DateText(t) {
      assert DateText(s)[..4] == Padded(s.y, 4) && DateText(s)[5..7] == sm && DateText(s)[8..] == Padded(s.d, 2);
      assert DateText(t)[..4] == Padded(t.y, 4) && DateText(t)[5..7] == tm && DateText(t)[8..] == Padded(t.d, 2);
    }
  }

  /// The day counts whose date has a four-digit year: up to 9999-12-31.
  const LAST_DAY: nat := 2932896

  lemma FourDigitYears(days: nat)
    ensures CivilFromDays(days).y <= 9999 <==> days <= LAST_DAY
  {
    hide CivilFromDays, ValidDate, MonthLength, YearLength, DaysFromCivil;
    CivilCorrect(days);
    var t := CivilFromDays(days);
    WithinYear(t);
    if t.y <= 9999 {
      if t.y < 9999 { YearsApart(t.y, 9999); }
    } else {
      if 10000 < t.y { YearsApart(10000, t.y); }
    }
    YearStep(9999);
    Year9999();
  }

  lemma Year9999()
    ensures YearLength(9999) == 365 && DaysFromCivil(Date(9999, 1, 1)) + 365 == LAST_DAY + 1
  {
  }

  /// What a row stores and a window compares for a day.
  function DayText(days: nat): string {
    DateText(CivilFromDays(days))
  }

  /// String order of the stored dates is day order, up to the year 9999.
  lemma DayTextOrder(a: nat, b: nat)
    requires a <= LAST_DAY && b <= LAST_DAY
    ensures TextLess(DayText(a), DayText(b)) <==> a < b
    ensures DayText(a) == DayText(b) <==> a == b
  {
    hide CivilFromDays, DateText;
    CivilCorrect(a);
    CivilCorrect(b);
    FourDigitYears(a);
    FourDigitYears(b);
    CivilOrder(a, b);
    CivilOrder(b, a);
    DateTextOrder(CivilFromDays(a), CivilFromDays(b));
  }

  /// The loops invert the closed formula on every valid date from 1970 on.
  lemma CivilInverse(t: Date)
    requires ValidDate(t) && DaysFromCivil(t) >= 0
    ensures CivilFromDays(DaysFromCivil(t)) == t
  {
    hide CivilFromDays, ValidDate, DaysFromCivil;
    var s := CivilFromDays(DaysFromCivil(t));
    CivilCorrect(DaysFromCivil(t));
    if Before(s, t) { EarlierDate(s, t); }
    if Before(t, s) { EarlierDate(t, s); }
  }

  /// Beyond the four-digit years string order fails: the day after 9999-12-31 sorts first.
  lemma FiveDigitYearSortsFirst()
    ensures TextLess(DayText(LAST_DAY + 1), DayText(LAST_DAY))
  {
    hide CivilFromDays;
    var t := Date(10000, 1, 1);
    Year10000();
    CivilInverse(t);
    CivilCorrect(LAST_DAY);
    FourDigitYears(LAST_DAY);
    TenCharacters(CivilFromDays(LAST_DAY));
    LongYear(t);
    var y := CivilFromDays(LAST_DAY).y;
    EndOf9999(CivilFromDays(LAST_DAY));
    assert y == 9999;
  }

  lemma Year10000()
    ensures DaysFromCivil(Date(10000, 1, 1)) == LAST_DAY + 1
    ensures DaysFromCivil(Date(9999, 1, 1)) <= LAST_DAY
  {
  }

  lemma EndOf9999(t: Date)
    requires ValidDate(t) && t.y <= 9999 && DaysFromCivil(t) == LAST_DAY
    ensures t.y == 9999
  {
    hide ValidDate, DaysFromCivil, MonthLength, YearLength;
    Year10000();
    WithinYear(t);
    if t.y < 9999 { YearsApart(t.y, 9999); }
  }

  lemma LongYear(t: Date)
    requires t == Date(10000, 1, 1)
    ensures |DateText(t)| > 1 && DateText(t)[0] == '1'
  {
    assert Decimal(1) == "1";
    assert Decimal(10) == Decimal(1) + "0";
    assert Decimal(100) == Decimal(10) + "0";
    assert Decimal(1000) == Decimal(100) + "0";
    assert Decimal(10000) == Decimal(1000) + "0";
  }
}
