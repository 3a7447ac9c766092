/**
 * The agency's calendar: `YYYY-MM-DD` strings moved by whole days.
 *
 * Days are counted the way ECMAScript counts them (`DayFromYear`), and a string
 * is read back from a day number by the year and month that contain it.
 */
module Calendar {
  import opened Basics
  import opened Text

  datatype Civil = Civil(year: int, month: int, day: int)

  predicate IsLeap(y: int) {
    y % 4 == 0 && (y % 100 != 0 || y % 400 == 0)
  }

  function DaysInMonth(y: int, m: int): int {
    if m == 2 then (if IsLeap(y) then 29 else 28)
    else if m == 4 || m == 6 || m == 9 || m == 11 then 30
    else 31
  }

  predicate ValidCivil(c: Civil) {
    0 <= c.year <= 9999 && 1 <= c.month <= 12 && 1 <= c.day <= DaysInMonth(c.year, c.month)
  }

  /** The day after, by the Gregorian rules alone. */
  function Successor(c: Civil): Civil {
    if c.day < DaysInMonth(c.year, c.month) then c.(day := c.day + 1)
    else if c.month < 12 then Civil(c.year, c.month + 1, 1)
    else Civil(c.year + 1, 1, 1)
  }

  predicate CivilLess(a: Civil, b: Civil) {
    a.year < b.year
    || (a.year == b.year && (a.month < b.month || (a.month == b.month && a.day < b.day)))
  }

  // ---- Day numbers ----

  function DaysInYear(y: int): int {
    if IsLeap(y) then 366 else 365
  }

  /** The day number of 1 January, counting from 1 January 1970. */
  function DayFromYear(y: nat): int {
    if y == 0 then -719528 else DayFromYear(y - 1) + DaysInYear(y - 1)
  }

  function DaysBeforeMonth(y: int, m: int): int
    requires 1 <= m <= 13
    decreases m
  {
    if m == 1 then 0 else DaysBeforeMonth(y, m - 1) + DaysInMonth(y, m - 1)
  }

  function DayNumber(c: Civil): int
    requires 0 <= c.year && 1 <= c.month <= 12
  {
    DayFromYear(c.year) + DaysBeforeMonth(c.year, c.month) + c.day - 1
  }

  /** ECMA-262's `DayFromYear`. */
  function DayFromYearClosed(y: int): int {
    365 * (y - 1970) + (y - 1969) / 4 - (y - 1901) / 100 + (y - 1601) / 400
  }

  lemma {:induction false} ClosedStep(y: int)
    ensures DayFromYearClosed(y + 1) == DayFromYearClosed(y) + DaysInYear(y)
  {
    assert (y - 1968) / 4 - (y - 1969) / 4 == if y % 4 == 0 then 1 else 0;
    assert (y - 1900) / 100 - (y - 1901) / 100 == if y % 100 == 0 then 1 else 0;
    assert (y - 1600) / 400 - (y - 1601) / 400 == if y % 400 == 0 then 1 else 0;
    LeapTests(y);
  }

  lemma {:induction false} LeapTests(y: int)
    ensures y % 400 == 0 ==> y % 100 == 0
    ensures y % 100 == 0 ==> y % 4 == 0
  {
  }

  /** Counting year by year gives ECMAScript's closed formula. */
  lemma {:induction false} DayFromYearFormula(y: nat)
    ensures DayFromYear(y) == DayFromYearClosed(y)
  {
    if y > 0 {
      DayFromYearFormula(y - 1);
      ClosedStep(y - 1);
    }
  }

  lemma {:induction false} DayFromYearMonotone(a: nat, b: nat)
    requires a <= b
    ensures DayFromYear(a) + 365 * (b - a) <= DayFromYear(b)
    decreases b - a
  {
    if a < b {
      DayFromYearMonotone(a, b - 1);

    }
  }

  lemma {:induction false} MonthsInYear(y: int)
    ensures DaysBeforeMonth(y, 13) == DaysInYear(y)
  {
    assert DaysBeforeMonth(y, 3) == 31 + DaysInMonth(y, 2);
    assert DaysBeforeMonth(y, 5) == DaysBeforeMonth(y, 3) + 61;
    assert DaysBeforeMonth(y, 7) == DaysBeforeMonth(y, 5) + 61;
    assert DaysBeforeMonth(y, 9) == DaysBeforeMonth(y, 7) + 62;
    assert DaysBeforeMonth(y, 11) == DaysBeforeMonth(y, 9) + 61;
    assert DaysBeforeMonth(y, 13) == DaysBeforeMonth(y, 11) + 61;
  }

  lemma {:induction false} DaysBeforeMonthMonotone(y: int, a: int, b: int)
    requires 1 <= a <= b <= 13
    ensures DaysBeforeMonth(y, a) + 28 * (b - a) <= DaysBeforeMonth(y, b)
    decreases b - a
  {
    if a < b {
      DaysBeforeMonthMonotone(y, a, b - 1);
    }
  }

  /** The largest year, from `y` on, that starts on or before day `n`. */
  function YearFrom(y: nat, n: int): (r: nat)
    requires DayFromYear(y) <= n
    ensures y <= r && DayFromYear(r) <= n < DayFromYear(r + 1)
    decreases n - DayFromYear(y)
  {
    if n < DayFromYear(y + 1) then y else YearFrom(y + 1, n)
  }

  /** The month, from `m` on, that contains day `d` of the year. */
  function MonthFrom(y: int, m: int, d: int): (r: int)
    requires 1 <= m <= 12 && DaysBeforeMonth(y, m) <= d < DaysInYear(y)
    ensures m <= r <= 12 && DaysBeforeMonth(y, r) <= d < DaysBeforeMonth(y, r + 1)
    decreases 12 - m
  {
    MonthsInYear(y);
    if d < DaysBeforeMonth(y, m + 1) then m else MonthFrom(y, m + 1, d)
  }

  function CivilOf(n: int): (c: Civil)
    requires DayFromYear(0) <= n
    ensures 0 <= c.year && 1 <= c.month <= 12 && 1 <= c.day <= DaysInMonth(c.year, c.month)
    ensures DayNumber(c) == n
  {
    var y := YearFrom(0, n);
    var m := MonthFrom(y, 1, n - DayFromYear(y));
    Civil(y, m, n - DayFromYear(y) - DaysBeforeMonth(y, m) + 1)
  }

  lemma {:induction false} DayNumberBounds(c: Civil)
    requires 0 <= c.year && 1 <= c.month <= 12 && 1 <= c.day <= DaysInMonth(c.year, c.month)
    ensures DayFromYear(c.year) <= DayNumber(c) < DayFromYear(c.year + 1)
  {
    DaysBeforeMonthMonotone(c.year, 1, c.month);
    DaysBeforeMonthMonotone(c.year, c.month + 1, 13);
    MonthsInYear(c.year);
  }

  /** Day numbers order dates the way the calendar does. */
  lemma {:induction false} DayNumberOrder(a: Civil, b: Civil)
    requires 0 <= a.year && 1 <= a.month <= 12 && 1 <= a.day <= DaysInMonth(a.year, a.month)
    requires 0 <= b.year && 1 <= b.month <= 12 && 1 <= b.day <= DaysInMonth(b.year, b.month)
    ensures DayNumber(a) < DayNumber(b) <==> CivilLess(a, b)
    ensures DayNumber(a) == DayNumber(b) <==> a == b
  {
    if CivilLess(a, b) {
      EarlierIsLess(a, b);
    } else if CivilLess(b, a) {
      EarlierIsLess(b, a);
    }
  }

  lemma {:induction false} EarlierIsLess(a: Civil, b: Civil)
    requires 0 <= a.year && 1 <= a.month <= 12 && 1 <= a.day <= DaysInMonth(a.year, a.month)
    requires 0 <= b.year && 1 <= b.month <= 12 && 1 <= b.day <= DaysInMonth(b.year, b.month)
    requires CivilLess(a, b)
    ensures DayNumber(a) < DayNumber(b)
  {
    DayNumberBounds(a);
    DayNumberBounds(b);
    if a.year < b.year {
      DayFromYearMonotone(a.year + 1, b.year);
    } else if a.month < b.month {
      DaysBeforeMonthMonotone(a.year, a.month + 1, b.month);
    }
  }

  lemma {:induction false} SuccessorIsNextDay(c: Civil)
    requires ValidCivil(c)
    ensures 1 <= Successor(c).month <= 12
    ensures 1 <= Successor(c).day <= DaysInMonth(Successor(c).year, Successor(c).month)
    ensures DayNumber(Successor(c)) == DayNumber(c) + 1
  {
    if c.day == DaysInMonth(c.year, c.month) && c.month == 12 {
      MonthsInYear(c.year);
    }
  }

  // ---- The text form ----

  function Digit(n: int): char
    requires 0 <= n <= 9
  {
    ('0' as int + n) as char
  }

  /** The last `w` decimal digits of `n`. */
  function Digits(n: nat, w: nat): (s: string)
    ensures |s| == w
    ensures forall i :: 0 <= i < w ==> '0' <= s[i] <= '9'
  {
    if w == 0 then "" else Digits(n / 10, w - 1) + [Digit(n % 10)]
  }

  function Pow10(w: nat): (p: nat)
    ensures p >= 1
  {
    if w == 0 then 1 else 10 * Pow10(w - 1)
  }

  function Number(s: string): nat
    requires forall i :: 0 <= i < |s| ==> '0' <= s[i] <= '9'
  {
    if |s| == 0 then 0 else 10 * Number(s[..|s| - 1]) + (s[|s| - 1] as int - '0' as int)
  }

  lemma {:induction false} NumberOfDigits(n: nat, w: nat)
    requires n < Pow10(w)
    ensures Number(Digits(n, w)) == n
  {
    if w > 0 {
      var tens, units := n / 10, n % 10;
      assert n == 10 * tens + units && tens < Pow10(w - 1);
      NumberOfDigits(tens, w - 1);
      var front := Digits(tens, w - 1);
      assert Digits(n, w) == front + [Digit(units)];
      assert (front + [Digit(units)])[..w - 1] == front;
    }
  }

  lemma {:induction false} DigitsOfNumber(s: string)
    requires forall i :: 0 <= i < |s| ==> '0' <= s[i] <= '9'
    ensures Number(s) < Pow10(|s|) && Digits(Number(s), |s|) == s
  {
    if |s| > 0 {
      var front, last := s[..|s| - 1], s[|s| - 1] as int - '0' as int;
      DigitsOfNumber(front);
      assert Number(s) == 10 * Number(front) + last && Number(s) / 10 == Number(front) && Number(s) % 10 == last;
      assert s == front + [Digit(last)];
    }
  }

  lemma {:induction false} DigitsOrder(n: nat, m: nat, w: nat)
    requires n < Pow10(w) && m < Pow10(w)
    ensures StrLess(Digits(n, w), Digits(m, w)) <==> n < m
    ensures Digits(n, w) == Digits(m, w) <==> n == m
  {
    if w > 0 {
      DigitsOrder(n / 10, m / 10, w - 1);
      var a, b := Digits(n / 10, w - 1), Digits(m / 10, w - 1);
      var x, y := [Digit(n % 10)], [Digit(m % 10)];
      StrLessConcat(a, x, b, y);
      assert StrLess(x, y) <==> n % 10 < m % 10;
      assert Digits(n, w)[..w - 1] == a && Digits(m, w)[..w - 1] == b;
    }
  }

  /** `YYYY-MM-DD`. */
  function Iso(c: Civil): string
    requires 0 <= c.year && 0 <= c.month && 0 <= c.day
  {
    Digits(c.year, 4) + ("-" + (Digits(c.month, 2) + ("-" + Digits(c.day, 2))))
  }

  predicate AllDigits(s: string) {
    forall i :: 0 <= i < |s| ==> '0' <= s[i] <= '9'
  }

  predicate IsoShaped(s: string) {
    |s| == 10 && s[4] == '-' && s[7] == '-' && AllDigits(s[..4]) && AllDigits(s[5..7]) && AllDigits(s[8..])
  }

  function CivilFrom(s: string): Civil
    requires IsoShaped(s)
  {
    Civil(Number(s[..4]), Number(s[5..7]), Number(s[8..]))
  }

  /** A real date, as the database stores one. */
  predicate IsDate(s: string) {
    IsoShaped(s) && ValidCivil(CivilFrom(s))
  }

  lemma {:induction false} Pow10s()
    ensures Pow10(2) == 100 && Pow10(4) == 10000
  {
    assert Pow10(3) == 10 * Pow10(2);
  }

  /** The text form loses nothing, in either direction. */
  lemma {:induction false} IsoRoundTrip(c: Civil)
    requires ValidCivil(c)
    ensures IsDate(Iso(c)) && CivilFrom(Iso(c)) == c
  {
    Pow10s();
    var s := Iso(c);
    NumberOfDigits(c.year, 4);
    NumberOfDigits(c.month, 2);
    NumberOfDigits(c.day, 2);
    assert s[..4] == Digits(c.year, 4);
    assert s[5..7] == Digits(c.month, 2);
    assert s[8..] == Digits(c.day, 2);
  }

  lemma {:induction false} DateParts(s: string)
    requires |s| == 10 && s[4] == '-' && s[7] == '-'
    ensures s[..4] + ("-" + (s[5..7] + ("-" + s[8..]))) == s
  {
    var day, month := "-" + s[8..], s[5..7] + ("-" + s[8..]);
    assert day == s[7..];
    assert month == s[5..];
  }

  lemma {:induction false} CivilRoundTrip(s: string)
    requires IsoShaped(s)
    ensures Iso(CivilFrom(s)) == s
  {
    hide Digits, Number;
    DigitsOfNumber(s[..4]);
    DigitsOfNumber(s[5..7]);
    DigitsOfNumber(s[8..]);
    DateParts(s);
  }

  /** A date's day number. */
  function Day(s: string): int {
    if IsDate(s) then DayNumber(CivilFrom(s)) else 0
  }

  /** String order on `YYYY-MM-DD` is date order. */
  lemma {:induction false} DateOrder(a: string, b: string)
    requires IsDate(a) && IsDate(b)
    ensures StrLess(a, b) <==> Day(a) < Day(b)
    ensures a == b <==> Day(a) == Day(b)
    ensures StrLe(a, b) <==> Day(a) <= Day(b)
  {
    IsoOrder(CivilFrom(a), CivilFrom(b));
    IsoOrder(CivilFrom(b), CivilFrom(a));
    CivilRoundTrip(a);
    CivilRoundTrip(b);
    DayNumberOrder(CivilFrom(a), CivilFrom(b));
    DayNumberOrder(CivilFrom(b), CivilFrom(a));
  }

  lemma {:induction false} IsoOrder(a: Civil, b: Civil)
    requires ValidCivil(a) && ValidCivil(b)
    ensures StrLess(Iso(a), Iso(b)) <==> CivilLess(a, b)
  {
    Pow10s();
    var (ya, ma, da) := (Digits(a.year, 4), Digits(a.month, 2), Digits(a.day, 2));
    var (yb, mb, db) := (Digits(b.year, 4), Digits(b.month, 2), Digits(b.day, 2));
    DigitsOrder(a.year, b.year, 4);
    DigitsOrder(a.month, b.month, 2);
    DigitsOrder(a.day, b.day, 2);
    StrLessConcat(ya, "-" + (ma + ("-" + da)), yb, "-" + (mb + ("-" + db)));
    StrLessConcat("-", ma + ("-" + da), "-", mb + ("-" + db));
    StrLessConcat(ma, "-" + da, mb, "-" + db);
    StrLessConcat("-", da, "-", db);
  }

  // ---- addDays and the walk over a window ----

  /** `toISOString().slice(0, 10)`: past year 9999 the year is written with a sign and six digits. */
  function IsoPrefix(c: Civil): string
    requires 0 <= c.year && 0 <= c.month && 0 <= c.day
  {
    if c.year <= 9999 then Iso(c) else "+" + Digits(c.year, 6) + "-" + Digits(c.month, 2)
  }

  /** `Date.UTC` reads a year from 0 to 99 as one of the 1900s. */
  function UtcDay(s: string): int {
    if !IsDate(s) then 0
    else
      var c := CivilFrom(s);
      DayNumber(if c.year <= 99 then c.(year := 1900 + c.year) else c)
  }

  function AddDays(s: string, days: int): string
    requires IsDate(s)
    requires DayFromYear(0) <= UtcDay(s) + days
  {
    IsoPrefix(CivilOf(UtcDay(s) + days))
  }

  /** `getUTCDay`: day 0 was a Thursday. */
  function DayOfWeek(s: string): int
    requires IsDate(s)
  {
    (UtcDay(s) + 4) % 7
  }

  /** The year of a real date, or -1. */
  function YearOf(s: string): int {
    if IsDate(s) then CivilFrom(s).year else -1
  }

  /** The dates `addDays` is right about: `Date.UTC` moves earlier years to the 1900s. */
  predicate InEra(s: string) {
    YearOf(s) >= 100
  }

  /** Moving a date moves its day number, as long as the target has a four-digit year. */
  lemma {:induction false} AddDaysShifts(s: string, days: int)
    requires InEra(s)
    requires DayFromYear(0) <= Day(s) + days < DayFromYear(FIRST_FIVE_DIGIT_YEAR)
    ensures IsDate(AddDays(s, days)) && Day(AddDays(s, days)) == Day(s) + days
  {
    hide CivilOf, Iso, DayFromYear, IsLeap, Digits, Number;
    var c := CivilOf(Day(s) + days);
    FourDigitYear(c);
    IsoRoundTrip(c);
  }

  lemma {:induction false} FourDigitYear(c: Civil)
    requires 0 <= c.year && 1 <= c.month <= 12 && 1 <= c.day <= DaysInMonth(c.year, c.month)
    requires DayNumber(c) < DayFromYear(FIRST_FIVE_DIGIT_YEAR)
    ensures c.year <= 9999
  {
    DayNumberBounds(c);
    if c.year > 9999 {
      DayFromYearMonotone(FIRST_FIVE_DIGIT_YEAR, c.year);
    }
  }

  /** 31 December 9999. */
  predicate IsLastDay(s: string) {
    IsDate(s) && CivilFrom(s) == Civil(9999, 12, 31)
  }

  /**
   * `addDays(date, 1)` is the next calendar day exactly when the year is written with
   * at least three significant digits and is not about to need five.
   */
  lemma {:induction false} AddDaysIsSuccessor(s: string)
    requires IsDate(s)
    ensures DayFromYear(0) <= UtcDay(s) + 1
    ensures AddDays(s, 1) == Iso(Successor(CivilFrom(s))) <==> CivilFrom(s).year >= 100 && !IsLastDay(s)
  {
    var c := CivilFrom(s);
    var u := if c.year <= 99 then c.(year := 1900 + c.year) else c;
    DayFromYearMonotone(0, u.year);
    DaysBeforeMonthMonotone(u.year, 1, u.month);
    SuccessorIsNextDay(c);
    var next := CivilOf(UtcDay(s) + 1);
    if c.year >= 100 {
      DayNumberOrder(next, Successor(c));
      YearRollsOver(c);
    } else {
      TwoDigitYearMoves(c, u, next);
    }
  }

  /** The sliced text of the next day is its text, except after the last four-digit year. */
  lemma {:induction false} YearRollsOver(c: Civil)
    requires ValidCivil(c) && 1 <= Successor(c).month && 1 <= Successor(c).day
    ensures IsoPrefix(Successor(c)) == Iso(Successor(c)) <==> c != Civil(9999, 12, 31)
  {
    var n := Successor(c);
    assert n.year > 9999 <==> c == Civil(9999, 12, 31);
    if n.year > 9999 {
      assert IsoPrefix(n)[0] == '+';
      assert Iso(n)[0] == Digits(n.year, 4)[0];
    }
  }

  lemma {:induction false} TwoDigitYearMoves(c: Civil, u: Civil, next: Civil)
    requires ValidCivil(c) && c.year <= 99 && u == c.(year := 1900 + c.year)
    requires DayFromYear(0) <= DayNumber(u) + 1 && next == CivilOf(DayNumber(u) + 1)
    requires 1 <= Successor(c).month <= 12 && 1 <= Successor(c).day <= 31
    ensures IsoPrefix(next) != Iso(Successor(c))
  {
    DaysBeforeMonthMonotone(u.year, 1, u.month);
    DayFromYearMonotone(1900, u.year);
    DayNumberBounds(next);
    if next.year < 1900 {
      DayFromYearMonotone(next.year + 1, 1900);
    }
    Pow10s();
    if next.year <= 9999 {
      DigitsOrder(next.year, Successor(c).year, 4);
      assert Iso(next)[..4] == Digits(next.year, 4);
      assert Iso(Successor(c))[..4] == Digits(Successor(c).year, 4);
    } else {
      assert IsoPrefix(next)[0] == '+';
      assert Iso(Successor(c))[0] == Digits(Successor(c).year, 4)[0];
    }
  }

  datatype Window = Window(from: string, to: string)

  /** A window the walk can finish: four-digit years with a day to spare. */
  predicate Walkable(w: Window) {
    InEra(w.from) && InEra(w.to) && !IsLastDay(w.to)
  }

  predicate InWindow(w: Window, date: string) {
    StrLe(w.from, date) && StrLe(date, w.to)
  }

  const HORIZON_DAYS := 365

  /** The stored window: the agency's date and the horizon after it. */
  function DepartureWindow(today: string): Window
    requires IsDate(today)
    requires DayFromYear(0) <= UtcDay(today) + HORIZON_DAYS
  {
    Window(today, AddDays(today, HORIZON_DAYS))
  }

  lemma {:induction false} NextDay(s: string)
    requires InEra(s) && !IsLastDay(s)
    ensures DayFromYear(0) <= UtcDay(s) + 1
    ensures InEra(AddDays(s, 1)) && Day(AddDays(s, 1)) == Day(s) + 1
  {
    AddDaysIsSuccessor(s);
    SuccessorIsNextDay(CivilFrom(s));
    IsoRoundTrip(Successor(CivilFrom(s)));
  }

  /** A date before one that is not the last is not the last either. */
  lemma {:induction false} BeforeLastDay(a: string, b: string)
    requires InEra(a) && InEra(b) && !IsLastDay(b) && StrLe(a, b)
    ensures !IsLastDay(a)
  {
    DateOrder(a, b);
    if IsLastDay(a) {
      DayNumberOrder(CivilFrom(a), CivilFrom(b));
    }
  }

  /** The dates the generator's loop visits: from `from`, a day at a time, while not past `to`. */
  function Walk(from: string, to: string): seq<string>
    requires InEra(from) && InEra(to) && !IsLastDay(to)
    decreases Day(to) - Day(from) + 1
  {
    DateOrder(to, from);
    if StrLess(to, from) then []
    else
      BeforeLastDay(from, to);
      NextDay(from);
      [from] + Walk(AddDays(from, 1), to)
  }

  lemma {:induction false} WalkStep(date: string, to: string)
    requires InEra(date) && InEra(to) && !IsLastDay(to) && StrLe(date, to)
    ensures DayFromYear(0) <= UtcDay(date) + 1
    ensures InEra(AddDays(date, 1)) && Day(AddDays(date, 1)) == Day(date) + 1 && Day(date) <= Day(to)
    ensures Walk(date, to) == [date] + Walk(AddDays(date, 1), to)
  {
    DateOrder(date, to);
    BeforeLastDay(date, to);
    NextDay(date);
  }

  /** Every date of the window is visited exactly once, in order, and nothing else is. */
  lemma {:induction false} WalkVisitsEachDay(from: string, to: string)
    requires InEra(from) && InEra(to) && !IsLastDay(to)
    ensures forall d :: d in Walk(from, to) <==> IsDate(d) && StrLe(from, d) && StrLe(d, to)
    ensures forall i :: 0 <= i < |Walk(from, to)| ==> InEra(Walk(from, to)[i])
    ensures forall i :: 0 <= i < |Walk(from, to)| ==> Day(Walk(from, to)[i]) == Day(from) + i
    ensures Distinct(Walk(from, to))
    ensures |Walk(from, to)| == if Day(to) < Day(from) then 0 else Day(to) - Day(from) + 1
    decreases Day(to) - Day(from) + 1
  {
    DateOrder(to, from);
    if StrLess(to, from) {
      forall d | IsDate(d) && StrLe(from, d) && StrLe(d, to) ensures false {
        StrLeTransitive(from, d, to);
      }
    } else {
      BeforeLastDay(from, to);
      NextDay(from);
      var next := AddDays(from, 1);
      WalkVisitsEachDay(next, to);
      assert Walk(from, to) == [from] + Walk(next, to);
      CountsOn(from, Walk(next, to));
      hide Walk, IsDate, StrLe, Day, InEra, IsLastDay, AddDays;
      forall d ensures d in Walk(from, to) <==> IsDate(d) && StrLe(from, d) && StrLe(d, to) {
        FromOrAfter(from, next, d);
      }
    }
  }

  lemma {:induction false} CountsOn(from: string, rest: seq<string>)
    requires InEra(from) && forall i :: 0 <= i < |rest| ==> InEra(rest[i]) && Day(rest[i]) == Day(from) + 1 + i
    ensures forall i :: 0 <= i < |rest| + 1 ==> InEra(([from] + rest)[i]) && Day(([from] + rest)[i]) == Day(from) + i
    ensures Distinct([from] + rest)
  {
    hide Day, InEra;
    var all := [from] + rest;
    forall i | 0 <= i < |all| ensures InEra(all[i]) && Day(all[i]) == Day(from) + i {
      assert i > 0 ==> all[i] == rest[i - 1];
    }
    forall i, j | 0 <= i < j < |all| ensures all[i] != all[j] {
      assert Day(all[i]) != Day(all[j]);
    }
  }

  /** From a date on is that date, or from the next one on. */
  lemma {:induction false} FromOrAfter(from: string, next: string, d: string)
    requires IsDate(from) && IsDate(next) && Day(next) == Day(from) + 1
    ensures IsDate(d) && StrLe(from, d) <==> d == from || (IsDate(d) && StrLe(next, d))
  {
    if IsDate(d) {
      DateOrder(from, d);
      DateOrder(next, d);
    }
    DateOrder(from, from);
  }

  const FIRST_FIVE_DIGIT_YEAR: nat := 10000

  lemma {:induction false} EraGoesOn(a: string, b: string)
    requires InEra(a) && IsDate(b) && Day(a) <= Day(b)
    ensures InEra(b)
  {
    DayNumberOrder(CivilFrom(b), CivilFrom(a));
  }

  lemma {:induction false} LastDayNumber(s: string)
    requires IsLastDay(s)
    ensures Day(s) + 1 == DayFromYear(FIRST_FIVE_DIGIT_YEAR)
  {
    SuccessorIsNextDay(CivilFrom(s));
  }

  lemma {:induction false} EraAfterYearZero(s: string)
    requires InEra(s)
    ensures DayFromYear(0) <= Day(s)
  {
    DayNumberBounds(CivilFrom(s));
    DayFromYearMonotone(0, CivilFrom(s).year);
  }

  /** The stored window holds the agency's date and the 365 days after it. */
  lemma {:induction false} WindowHasHorizon(today: string)
    requires InEra(today) && Day(today) + HORIZON_DAYS + 1 < DayFromYear(FIRST_FIVE_DIGIT_YEAR)
    ensures DayFromYear(0) <= UtcDay(today) + HORIZON_DAYS
    ensures Walkable(DepartureWindow(today))
    ensures DepartureWindow(today).from == today && Day(DepartureWindow(today).to) == Day(today) + 365
    ensures |Walk(today, DepartureWindow(today).to)| == 366
  {
    EraAfterYearZero(today);
    AddDaysShifts(today, HORIZON_DAYS);
    var to := AddDays(today, HORIZON_DAYS);
    EraGoesOn(today, to);
    if IsLastDay(to) {
      LastDayNumber(to);
    }
    WalkVisitsEachDay(today, to);
  }
}
