/** `departureWindows.ts`: the ranges the schedule screens ask for, 62 days at most. */
module DateWindows {
  import opened Basics
  import opened Text
  import opened Calendar

  const DEPARTURE_WINDOW_DAYS := 62

  /** `addDaysToIsoDate`: the date is parsed as written, so no year is moved to the 1900s. */
  function Shift(date: string, days: nat): string {
    if IsDate(date) && DayFromYear(0) <= Day(date) then IsoPrefix(CivilOf(Day(date) + days)) else date
  }

  /** A real date with a full window ahead of it in four-digit years. */
  predicate Served(date: string) {
    IsDate(date) && Day(date) + DEPARTURE_WINDOW_DAYS < DayFromYear(FIRST_FIVE_DIGIT_YEAR)
  }

  lemma {:induction false} DateAfterYearZero(date: string)
    requires IsDate(date)
    ensures DayFromYear(0) <= Day(date)
  {
    DayNumberBounds(CivilFrom(date));
    DayFromYearMonotone(0, CivilFrom(date).year);
  }

  lemma {:induction false} ShiftDay(date: string, days: nat)
    requires Served(date) && days <= DEPARTURE_WINDOW_DAYS
    ensures IsDate(Shift(date, days)) && Day(Shift(date, days)) == Day(date) + days
  {
    DateAfterYearZero(date);
    var c := CivilOf(Day(date) + days);
    FourDigitYear(c);
    IsoRoundTrip(c);
  }

  /** Both ends are dates, and a request serves the days between. */
  predicate IsServedWindow(w: Window) {
    IsDate(w.from) && IsDate(w.to) && Day(w.to) - Day(w.from) < 62
  }

  predicate CoversDate(windows: seq<Window>, date: string) {
    exists w :: w in windows && InWindow(w, date)
  }

  /** A set of requests that between them serve every date. */
  ghost predicate IsCover(cover: seq<Window>, dates: seq<string>) {
    && (forall w :: w in cover ==> IsServedWindow(w))
    && (forall d :: d in dates && IsoShaped(d) ==> CoversDate(cover, d))
  }

  // ---- Covering scattered dates ----

  /** Starts too far apart for one request to serve two of them. */
  ghost predicate FarApart(starts: seq<string>) {
    && (forall i :: 0 <= i < |starts| ==> IsDate(starts[i]))
    && (forall i, j :: 0 <= i < j < |starts| ==> Day(starts[i]) + DEPARTURE_WINDOW_DAYS <= Day(starts[j]))
  }

  lemma {:induction false} OneStartEach(w: Window, a: string, b: string)
    requires IsServedWindow(w) && IsDate(a) && IsDate(b) && InWindow(w, a) && InWindow(w, b)
    ensures Day(b) < Day(a) + DEPARTURE_WINDOW_DAYS
  {
    DateOrder(w.from, a);
    DateOrder(b, w.to);
  }

  lemma {:induction false} CoveredByAnother(cover: seq<Window>, k: nat, start: string, last: string)
    requires k < |cover| && IsServedWindow(cover[k]) && InWindow(cover[k], last) && CoversDate(cover, start)
    requires IsDate(start) && IsDate(last) && Day(start) + DEPARTURE_WINDOW_DAYS <= Day(last)
    ensures CoversDate(cover[..k] + cover[k + 1..], start)
  {
    hide IsDate, InWindow, IsServedWindow, Day;
    var rest := cover[..k] + cover[k + 1..];
    var x :| x in cover && InWindow(x, start);
    if x == cover[k] {
      OneStartEach(cover[k], start, last);
    } else {
      var j :| 0 <= j < |cover| && cover[j] == x;
      if j < k { assert rest[j] == x; } else { assert rest[j - 1] == x; }
    }
  }

  lemma {:induction false} ServingWindow(cover: seq<Window>, date: string) returns (k: nat)
    requires CoversDate(cover, date) && forall w :: w in cover ==> IsServedWindow(w)
    ensures k < |cover| && InWindow(cover[k], date) && IsServedWindow(cover[k])
  {
    hide InWindow, IsServedWindow;
    var w :| w in cover && InWindow(w, date);
    k :| 0 <= k < |cover| && cover[k] == w;
  }

  lemma {:induction false} AtLeastAsMany(starts: seq<string>, cover: seq<Window>)
    requires FarApart(starts) && (forall w :: w in cover ==> IsServedWindow(w))
    requires forall i :: 0 <= i < |starts| ==> CoversDate(cover, starts[i])
    ensures |starts| <= |cover|
    decreases |starts|
  {
    if |starts| > 0 {
      hide IsDate, InWindow, IsServedWindow, Day, DayFromYear;
      hide CoversDate;
      var last := starts[|starts| - 1];
      var k := ServingWindow(cover, last);
      var rest := cover[..k] + cover[k + 1..];
      forall i | 0 <= i < |starts| - 1 ensures CoversDate(rest, starts[i]) {
        assert Day(starts[i]) + DEPARTURE_WINDOW_DAYS <= Day(last);
        CoveredByAnother(cover, k, starts[i], last);
      }
      AtLeastAsMany(starts[..|starts| - 1], rest);
    }
  }

  function Starts(windows: seq<Window>): seq<string> {
    seq(|windows|, i requires 0 <= i < |windows| => windows[i].from)
  }

  method KeepDates(dates: seq<string>) returns (kept: seq<string>)
    ensures forall d :: d in kept <==> d in dates && IsoShaped(d)
  {
    hide IsoShaped;
    kept := [];
    var i := 0;
    while i < |dates|
      invariant 0 <= i <= |dates|
      invariant forall d :: d in kept <==> d in dates[..i] && IsoShaped(d)
    {
      if IsoShaped(dates[i]) {
        kept := kept + [dates[i]];
      }
      i := i + 1;
    }
    assert dates[..|dates|] == dates;
  }

  /** The requests made so far: short enough, between given dates, and too far apart to share a start. */
  ghost predicate Bounded(windows: seq<Window>, sorted: seq<string>) {
    forall w :: w in windows ==> w.from in sorted && w.to in sorted && Day(w.to) - Day(w.from) < DEPARTURE_WINDOW_DAYS
  }

  ghost predicate Spaced(windows: seq<Window>) {
    forall k, l :: 0 <= k < l < |windows| ==> Day(windows[k].from) + DEPARTURE_WINDOW_DAYS <= Day(windows[l].from)
  }

  ghost predicate CoversUpTo(windows: seq<Window>, sorted: seq<string>, i: nat) {
    forall j :: 0 <= j < i <= |sorted| ==> CoversDate(windows, sorted[j])
  }

  /** The last window ends at the date just read. */
  ghost predicate EndsAt(windows: seq<Window>, sorted: seq<string>, i: nat) {
    && i <= |sorted| && (|windows| == 0 <==> i == 0)
    && (i > 0 ==> windows[|windows| - 1].to == sorted[i - 1] && StrLe(windows[|windows| - 1].from, sorted[i - 1]))
  }

  lemma {:induction false} StretchedCovers(windows: seq<Window>, sorted: seq<string>, i: nat)
    requires i < |sorted| && |windows| > 0 && StrLe(windows[|windows| - 1].from, sorted[i]) && StrLe(windows[|windows| - 1].to, sorted[i])
    requires CoversUpTo(windows, sorted, i)
    ensures CoversUpTo(windows[|windows| - 1 := windows[|windows| - 1].(to := sorted[i])], sorted, i + 1)
  {
    var n := |windows| - 1;
    var next := windows[n := windows[n].(to := sorted[i])];
    StrLessTrichotomy(sorted[i], sorted[i]);
    assert next[n] in next && InWindow(next[n], sorted[i]);
    forall j | 0 <= j < i ensures CoversDate(next, sorted[j]) {
      assert CoversDate(windows, sorted[j]);
      var w :| w in windows && InWindow(w, sorted[j]);
      var k :| 0 <= k < |windows| && windows[k] == w;
      if k == n { StrLeTransitive(sorted[j], windows[n].to, sorted[i]); }
      assert next[k] in next && InWindow(next[k], sorted[j]);
    }
  }

  lemma {:induction false} OpenedCovers(windows: seq<Window>, sorted: seq<string>, i: nat)
    requires i < |sorted| && CoversUpTo(windows, sorted, i)
    ensures CoversUpTo(windows + [Window(sorted[i], sorted[i])], sorted, i + 1)
  {
    var next := windows + [Window(sorted[i], sorted[i])];
    StrLessTrichotomy(sorted[i], sorted[i]);
    assert next[|windows|] in next && InWindow(next[|windows|], sorted[i]);
    forall j | 0 <= j < i ensures CoversDate(next, sorted[j]) {
      assert CoversDate(windows, sorted[j]);
      var w :| w in windows && InWindow(w, sorted[j]);
      assert w in next;
    }
  }

  lemma {:induction false} StretchedBounded(windows: seq<Window>, sorted: seq<string>, date: string)
    requires |windows| > 0 && date in sorted && Bounded(windows, sorted) && Spaced(windows)
    requires Day(date) - Day(windows[|windows| - 1].from) < DEPARTURE_WINDOW_DAYS
    ensures var next := windows[|windows| - 1 := windows[|windows| - 1].(to := date)];
      Bounded(next, sorted) && Spaced(next)
  {
    hide Day;
    var n := |windows| - 1;
    var next := windows[n := windows[n].(to := date)];
    assert windows[n] in windows;
    forall w | w in next ensures w.from in sorted && w.to in sorted && Day(w.to) - Day(w.from) < DEPARTURE_WINDOW_DAYS {
      var k :| 0 <= k < |next| && next[k] == w;
      assert windows[k] in windows;
    }
    assert forall k :: 0 <= k < |next| ==> next[k].from == windows[k].from;
  }

  lemma {:induction false} OpenedBounded(windows: seq<Window>, sorted: seq<string>, date: string)
    requires date in sorted && Bounded(windows, sorted) && Spaced(windows)
    requires |windows| > 0 ==> Day(windows[|windows| - 1].from) + DEPARTURE_WINDOW_DAYS <= Day(date)
    ensures Bounded(windows + [Window(date, date)], sorted) && Spaced(windows + [Window(date, date)])
  {
    hide Day;
    var next := windows + [Window(date, date)];
    var n := |windows|;
    forall k | 0 <= k < n ensures Day(next[k].from) + DEPARTURE_WINDOW_DAYS <= Day(next[n].from) {
      if k < n - 1 {
        assert Day(windows[k].from) + DEPARTURE_WINDOW_DAYS <= Day(windows[n - 1].from);
      }
    }
    assert forall k :: 0 <= k < n ==> next[k] == windows[k];
  }

  /** One date read: it stretches the last window while that stays short enough, and else opens the next. */
  method AddDate(windows: seq<Window>, ghost sorted: seq<string>, ghost i: nat, date: string) returns (next: seq<Window>)
    requires i < |sorted| && date == sorted[i] && Sorted(sorted) && forall d :: d in sorted ==> Served(d)
    requires Bounded(windows, sorted) && Spaced(windows) && CoversUpTo(windows, sorted, i) && EndsAt(windows, sorted, i)
    ensures Bounded(next, sorted) && Spaced(next) && CoversUpTo(next, sorted, i + 1) && EndsAt(next, sorted, i + 1)
  {
    hide IsDate, Day, Shift, DayFromYear, StrLess, Bounded, Spaced, CoversUpTo;
    StrLessTrichotomy(date, date);
    assert date in sorted;
    if |windows| > 0 {
      var current := windows[|windows| - 1];
      CurrentStarts(windows, sorted);
      ShiftDay(current.from, DEPARTURE_WINDOW_DAYS - 1);
      DateOrder(date, Shift(current.from, DEPARTURE_WINDOW_DAYS - 1));
      StrLessTrichotomy(sorted[i - 1], date);
      assert StrLess(sorted[i - 1], date);
      StrLeTransitive(current.from, sorted[i - 1], date);
      if StrLe(date, Shift(current.from, DEPARTURE_WINDOW_DAYS - 1)) {
        StretchedCovers(windows, sorted, i);
        StretchedBounded(windows, sorted, date);
        return windows[|windows| - 1 := current.(to := date)];
      }
    }
    OpenedCovers(windows, sorted, i);
    OpenedBounded(windows, sorted, date);
    return windows + [Window(date, date)];
  }

  lemma {:induction false} CurrentStarts(windows: seq<Window>, sorted: seq<string>)
    requires |windows| > 0 && Bounded(windows, sorted)
    ensures windows[|windows| - 1].from in sorted
  {
    hide Day;
    assert windows[|windows| - 1] in windows;
  }

  /**
   * `windowsCoveringDates`: every date-shaped entry is served, each window starts and ends at
   * one of them, no request is too long, and no cover makes do with fewer requests.
   */
  method WindowsCoveringDates(dates: seq<string>) returns (windows: seq<Window>)
    requires forall d :: d in dates && IsoShaped(d) ==> Served(d)
    ensures IsCover(windows, dates)
    ensures forall w :: w in windows ==> w.from in dates && w.to in dates
    ensures forall cover :: IsCover(cover, dates) ==> |windows| <= |cover|
  {
    hide IsoShaped, Served, Sorted, IsCover, CoversUpTo, Day;
    var kept := KeepDates(dates);
    var sorted := SortedOnce(kept);
    windows := [];
    var i := 0;
    assert CoversUpTo(windows, sorted, 0) by { NothingCovered(sorted); }
    while i < |sorted|
      invariant 0 <= i <= |sorted|
      invariant Bounded(windows, sorted) && Spaced(windows) && CoversUpTo(windows, sorted, i) && EndsAt(windows, sorted, i)
    {
      assert sorted[i] in sorted;
      windows := AddDate(windows, sorted, i, sorted[i]);
      i := i + 1;
    }
    CoversAll(windows, dates, sorted);
  }

  lemma {:induction false} NothingCovered(sorted: seq<string>)
    ensures CoversUpTo([], sorted, 0)
  {
  }

  lemma {:induction false} CoversAll(windows: seq<Window>, dates: seq<string>, sorted: seq<string>)
    requires Bounded(windows, sorted) && Spaced(windows) && CoversUpTo(windows, sorted, |sorted|)
    requires (forall d :: d in sorted <==> d in dates && IsoShaped(d)) && forall d :: d in sorted ==> Served(d)
    ensures IsCover(windows, dates)
    ensures forall w :: w in windows ==> w.from in dates && w.to in dates
    ensures forall cover :: IsCover(cover, dates) ==> |windows| <= |cover|
  {
    hide IsoShaped, IsDate, InWindow, Day, DayFromYear, CoversDate;
    forall d | d in sorted ensures CoversDate(windows, d) {
      var j :| 0 <= j < |sorted| && sorted[j] == d;
    }
    forall i | 0 <= i < |windows| ensures windows[i].from in sorted {
      assert windows[i] in windows;
    }
    forall cover | IsCover(cover, dates) ensures |windows| <= |cover| {
      assert forall i :: 0 <= i < |windows| ==> Starts(windows)[i] == windows[i].from;
      AtLeastAsMany(Starts(windows), cover);
    }
  }

  // ---- Splitting one range ----

  /** Windows of the full length from `from` on, the last one cut at `to`. */
  function SplitFrom(from: string, to: string): seq<Window>
    requires IsDate(from) && Served(to)
    decreases Day(to) - Day(from) + DEPARTURE_WINDOW_DAYS
  {
    DateOrder(from, to);
    if !StrLe(from, to) then []
    else
      ShiftDay(from, DEPARTURE_WINDOW_DAYS - 1);
      ShiftDay(from, DEPARTURE_WINDOW_DAYS);
      var end := Shift(from, DEPARTURE_WINDOW_DAYS - 1);
      [Window(from, if StrLess(end, to) then end else to)] + SplitFrom(Shift(from, DEPARTURE_WINDOW_DAYS), to)
  }

  lemma {:induction false} SplitStep(from: string, to: string)
    requires IsDate(from) && Served(to) && StrLe(from, to)
    ensures IsDate(Shift(from, DEPARTURE_WINDOW_DAYS)) && Day(Shift(from, DEPARTURE_WINDOW_DAYS)) == Day(from) + DEPARTURE_WINDOW_DAYS
    ensures Day(from) <= Day(to)
    ensures var end := Shift(from, DEPARTURE_WINDOW_DAYS - 1);
      SplitFrom(from, to) == [Window(from, if StrLess(end, to) then end else to)] + SplitFrom(Shift(from, DEPARTURE_WINDOW_DAYS), to)
  {
    hide IsDate, Day, Shift, DayFromYear, StrLess;
    DateOrder(from, to);
    ShiftDay(from, DEPARTURE_WINDOW_DAYS);
  }

  function Split(range: Window): seq<Window>
    requires range.from != "" && range.to != "" && StrLe(range.from, range.to) ==> IsDate(range.from) && Served(range.to)
  {
    if range.from == "" || range.to == "" || StrLess(range.to, range.from) then [] else SplitFrom(range.from, range.to)
  }

  /** `splitIntoDepartureWindows`. */
  method SplitIntoDepartureWindows(range: Window) returns (windows: seq<Window>)
    requires range.from != "" && range.to != "" && StrLe(range.from, range.to) ==> IsDate(range.from) && Served(range.to)
    ensures windows == Split(range)
  {
    if range.from == "" || range.to == "" || StrLess(range.to, range.from) {
      return [];
    }
    windows := [];
    var from := range.from;
    while StrLe(from, range.to)
      invariant IsDate(from)
      invariant windows + SplitFrom(from, range.to) == SplitFrom(range.from, range.to)
      decreases Day(range.to) - Day(from) + DEPARTURE_WINDOW_DAYS
    {
      hide IsDate, Day, Shift, DayFromYear, StrLess, SplitFrom;
      SplitStep(from, range.to);
      var end := Shift(from, DEPARTURE_WINDOW_DAYS - 1);
      var w := Window(from, if StrLess(end, range.to) then end else range.to);
      AppendAssociates(windows, [w], SplitFrom(Shift(from, DEPARTURE_WINDOW_DAYS), range.to));
      windows := windows + [w];
      from := Shift(from, DEPARTURE_WINDOW_DAYS);
    }
  }

  /** Consecutive windows, none longer than a request serves, from the range's first day to its last. */
  lemma {:induction false} SplitPartitions(from: string, to: string)
    requires IsDate(from) && Served(to) && StrLe(from, to)
    ensures var ws := SplitFrom(from, to);
      && |ws| > 0 && ws[0].from == from && ws[|ws| - 1].to == to
      && (forall i :: 0 <= i < |ws| ==> IsServedWindow(ws[i]) && Day(ws[i].from) <= Day(ws[i].to))
      && (forall i :: 0 <= i < |ws| - 1 ==> Day(ws[i].to) == Day(ws[i].from) + 61)
      && (forall i :: 0 <= i < |ws| - 1 ==> Day(ws[i + 1].from) == Day(ws[i].to) + 1)
    decreases Day(to) - Day(from) + DEPARTURE_WINDOW_DAYS
  {
    hide IsDate, Day, Shift, DayFromYear, StrLess;
    DateOrder(from, to);
    ShiftDay(from, DEPARTURE_WINDOW_DAYS - 1);
    ShiftDay(from, DEPARTURE_WINDOW_DAYS);
    var end, next := Shift(from, DEPARTURE_WINDOW_DAYS - 1), Shift(from, DEPARTURE_WINDOW_DAYS);
    DateOrder(end, to);
    DateOrder(next, to);
    if StrLe(next, to) {
      SplitPartitions(next, to);
      var rest := SplitFrom(next, to);
      assert SplitFrom(from, to) == [Window(from, end)] + rest;
    } else {
      assert SplitFrom(from, to) == [Window(from, to)];
    }
  }

  /** Every date of the range is in exactly one of the windows. */
  lemma {:induction false} EachDateOnce(from: string, to: string, date: string)
    requires IsDate(from) && Served(to) && StrLe(from, to) && IsDate(date) && StrLe(from, date) && StrLe(date, to)
    ensures CoversDate(SplitFrom(from, to), date)
    ensures var ws := SplitFrom(from, to);
      forall i, j :: 0 <= i < |ws| && 0 <= j < |ws| && InWindow(ws[i], date) && InWindow(ws[j], date) ==> i == j
    decreases Day(to) - Day(from) + DEPARTURE_WINDOW_DAYS
  {
    hide IsDate, Day, Shift, DayFromYear, StrLess;
    DateOrder(from, to);
    DateOrder(from, date);
    DateOrder(date, to);
    ShiftDay(from, DEPARTURE_WINDOW_DAYS - 1);
    ShiftDay(from, DEPARTURE_WINDOW_DAYS);
    var end, next := Shift(from, DEPARTURE_WINDOW_DAYS - 1), Shift(from, DEPARTURE_WINDOW_DAYS);
    DateOrder(end, to);
    DateOrder(next, to);
    DateOrder(date, end);
    DateOrder(next, date);
    var ws := SplitFrom(from, to);
    var first := Window(from, if StrLess(end, to) then end else to);
    assert ws == [first] + SplitFrom(next, to);
    if StrLe(date, end) {
      assert InWindow(ws[0], date);
      forall i | 0 < i < |ws| ensures !InWindow(ws[i], date) {
        LaterStarts(next, to, i - 1);
        assert ws[i] == SplitFrom(next, to)[i - 1];
        DateOrder(ws[i].from, date);
      }
    } else {
      EachDateOnce(next, to, date);
      assert !InWindow(ws[0], date);
      var w :| w in SplitFrom(next, to) && InWindow(w, date);
      assert w in ws;
    }
  }

  lemma {:induction false} LaterStarts(from: string, to: string, i: nat)
    requires IsDate(from) && Served(to) && i < |SplitFrom(from, to)|
    ensures IsDate(SplitFrom(from, to)[i].from) && Day(from) <= Day(SplitFrom(from, to)[i].from)
    decreases i
  {
    hide IsDate, Day, Shift, DayFromYear, StrLess;
    DateOrder(from, to);
    ShiftDay(from, DEPARTURE_WINDOW_DAYS);
    if i > 0 {
      LaterStarts(Shift(from, DEPARTURE_WINDOW_DAYS), to, i - 1);
    }
  }

  /** A range that grows at its end keeps every window but its last, which starts where it did. */
  lemma {:induction false} GrowingKeepsWindows(from: string, to: string, later: string)
    requires IsDate(from) && Served(to) && Served(later) && StrLe(from, to) && StrLe(to, later)
    ensures var ws, more := SplitFrom(from, to), SplitFrom(from, later);
      && 0 < |ws| <= |more|
      && ws[..|ws| - 1] == more[..|ws| - 1]
      && ws[|ws| - 1].from == more[|ws| - 1].from
    decreases Day(to) - Day(from) + DEPARTURE_WINDOW_DAYS
  {
    hide IsDate, Day, Shift, DayFromYear, StrLess;
    StrLeTransitive(from, to, later);
    DateOrder(from, to);
    DateOrder(to, later);
    ShiftDay(from, DEPARTURE_WINDOW_DAYS - 1);
    ShiftDay(from, DEPARTURE_WINDOW_DAYS);
    var end, next := Shift(from, DEPARTURE_WINDOW_DAYS - 1), Shift(from, DEPARTURE_WINDOW_DAYS);
    DateOrder(end, to);
    DateOrder(end, later);
    DateOrder(next, to);
    var ws, more := SplitFrom(from, to), SplitFrom(from, later);
    assert ws == [ws[0]] + SplitFrom(next, to);
    assert more == [more[0]] + SplitFrom(next, later);
    if StrLe(next, to) {
      GrowingKeepsWindows(next, to, later);
      var a, b := SplitFrom(next, to), SplitFrom(next, later);
      assert ws[..|ws| - 1] == [ws[0]] + a[..|a| - 1];
      assert more[..|ws| - 1] == [more[0]] + b[..|a| - 1];
    }
  }
}
