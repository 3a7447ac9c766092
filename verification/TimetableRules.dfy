/**
 * What the timetable means, said of the columns of a ride, its line and its schedules: on
 * which dates a ride runs, from when to when, and where the bus stops. The generator emits
 * exactly that.
 */
module TimetableRules {
  import opened Basics
  import opened Text
  import opened Calendar
  import opened Timetable

  // ---- Weekdays ----

  /** Sunday is 0. 1970-01-01 was a Thursday, and the weekday moves on by one each day. */
  lemma {:induction false} WeekdayMeans(date: string)
    requires IsDate(date)
    ensures 0 <= Weekday(date) < 7
    ensures CivilFrom(date) == Civil(1970, 1, 1) ==> Weekday(date) == 4
    ensures InEra(date) && !IsLastDay(date) ==>
      DayFromYear(0) <= UtcDay(date) + 1 && Weekday(AddDays(date, 1)) == (Weekday(date) + 1) % 7
  {
    hide IsoShaped, ValidCivil, Day, UtcDay, InEra, IsLastDay, AddDays, DayFromYear;
    if CivilFrom(date) == Civil(1970, 1, 1) {
      EpochIsDayZero(date);
    }
    if InEra(date) && !IsLastDay(date) {
      NextDay(date);
      UtcDayIsDay(date);
      UtcDayIsDay(AddDays(date, 1));
      InEraIsDate(AddDays(date, 1));
    }
  }

  lemma {:induction false} InEraIsDate(s: string)
    requires InEra(s)
    ensures IsDate(s)
  {
  }

  lemma {:induction false} UtcDayIsDay(s: string)
    requires InEra(s)
    ensures UtcDay(s) == Day(s)
  {
  }

  lemma {:induction false} EpochIsDayZero(date: string)
    requires IsDate(date) && CivilFrom(date) == Civil(1970, 1, 1)
    ensures UtcDay(date) == 0
  {
    hide IsoShaped, CivilFrom, DayFromYear;
    DayFromYearFormula(1970);
  }

  // ---- When a ride runs ----

  /** The first schedule listed for a weekday. */
  ghost predicate FirstForDay(days: seq<DaySchedule>, k: nat, dayOfWeek: int) {
    k < |days| && days[k].dayOfWeek == dayOfWeek && forall j :: 0 <= j < k ==> days[j].dayOfWeek != dayOfWeek
  }

  /** The station with the least `orderIndex`, the first listed of several. */
  ghost predicate IsFirstStation(times: seq<StationTime>, i: nat) {
    i < |times| && forall j :: 0 <= j < |times| ==>
      times[i].orderIndex < times[j].orderIndex || (times[i].orderIndex == times[j].orderIndex && i <= j)
  }

  /** The station with the greatest `orderIndex`, the last listed of several. */
  ghost predicate IsLastStation(times: seq<StationTime>, i: nat) {
    i < |times| && forall j :: 0 <= j < |times| ==>
      times[j].orderIndex < times[i].orderIndex || (times[j].orderIndex == times[i].orderIndex && j <= i)
  }

  ghost predicate RunsBetween(times: seq<StationTime>, departureTime: string, arrivalTime: string) {
    exists i: nat, j: nat :: IsFirstStation(times, i) && IsLastStation(times, j)
      && times[i].time == Some(departureTime) && times[j].time == Some(arrivalTime)
  }

  /** Inside the dates of a recurring ride, both ends included. Without a start it has none. */
  predicate InSeason(ride: Ride, date: string) {
    && ride.recurringStartDate.Some? && StrLe(ride.recurringStartDate.value, date)
    && (ride.recurringEndDate.Some? ==> StrLe(date, ride.recurringEndDate.value))
  }

  /** A ride leaves at one time on a date of this weekday and arrives at another. */
  ghost predicate RunsAt(ride: Ride, date: string, dayOfWeek: int, departureTime: string, arrivalTime: string) {
    && departureTime != "" && arrivalTime != ""
    && match ride.kind
       case ONE_TIME =>
         && ride.oneTimeDate == Some(date)
         && ride.oneTimeDepartureTime == Some(departureTime) && ride.oneTimeArrivalTime == Some(arrivalTime)
       case RECURRING =>
         && InSeason(ride, date)
         && exists k: nat :: FirstForDay(ride.daySchedules, k, dayOfWeek)
              && RunsBetween(ride.daySchedules[k].stationTimes, departureTime, arrivalTime)
  }

  lemma {:induction false} FindDayIsFirst(days: seq<DaySchedule>, dayOfWeek: int)
    ensures FindDay(days, dayOfWeek).Some? ==>
      exists k: nat :: k < |days| && FirstForDay(days, k, dayOfWeek) && days[k] == FindDay(days, dayOfWeek).value
    ensures FindDay(days, dayOfWeek).None? ==> forall d :: d in days ==> d.dayOfWeek != dayOfWeek
  {
    if |days| > 0 {
      assert days == [days[0]] + days[1..];
      FindDayIsFirst(days[1..], dayOfWeek);
      if days[0].dayOfWeek == dayOfWeek {
        assert FirstForDay(days, 0, dayOfWeek);
      } else if FindDay(days, dayOfWeek).Some? {
        var k: nat :| k < |days[1..]| && FirstForDay(days[1..], k, dayOfWeek) && days[1..][k] == FindDay(days[1..], dayOfWeek).value;
        assert FirstForDay(days, k + 1, dayOfWeek);
      }
    }
  }

  lemma {:induction false} FirstForDayOnce(days: seq<DaySchedule>, a: nat, b: nat, dayOfWeek: int)
    requires FirstForDay(days, a, dayOfWeek) && FirstForDay(days, b, dayOfWeek)
    ensures a == b
  {
  }

  /** In key order the first station comes first and the last one last. */
  lemma {:induction false} OrderedEndsAt(times: seq<StationTime>) returns (i: nat, j: nat)
    requires |times| > 0
    ensures IsFirstStation(times, i) && IsLastStation(times, j)
    ensures |OrderedTimes(times)| == |times| && OrderedTimes(times)[0] == times[i] && OrderedTimes(times)[|times| - 1] == times[j]
  {
    var key := (t: StationTime) => t.orderIndex;
    SortByStable(times, key);
    assert OrderedTimes(times) == SortBy(times, key);
    hide SortBy, OrderedTimes, Reorders;
    var at :| Reorders(times, SortBy(times, key), key, at);
    ReordersLength(times, SortBy(times, key), key, at);
    i, j := at[0], at[|at| - 1];
    forall k | 0 <= k < |times|
      ensures times[i].orderIndex < times[k].orderIndex || (times[i].orderIndex == times[k].orderIndex && i <= k)
      ensures times[k].orderIndex < times[j].orderIndex || (times[k].orderIndex == times[j].orderIndex && k <= j)
    {
      EndsOfOrder(times, SortBy(times, key), key, at, k);
    }
    ReordersAt(times, SortBy(times, key), key, at);
  }

  lemma {:induction false} ReordersAt<T>(xs: seq<T>, ys: seq<T>, key: T -> int, at: seq<nat>)
    requires Reorders(xs, ys, key, at)
    ensures |ys| == |xs| == |at| && forall i :: 0 <= i < |at| ==> at[i] < |xs| && ys[i] == xs[at[i]]
  {
  }

  lemma {:induction false} FirstStationOnce(times: seq<StationTime>, i: nat, j: nat)
    ensures IsFirstStation(times, i) && IsFirstStation(times, j) ==> i == j
    ensures IsLastStation(times, i) && IsLastStation(times, j) ==> i == j
  {
    if i < |times| && j < |times| {
      var a, b := times[i], times[j];
    }
  }

  lemma {:induction false} RunsBetweenIff(times: seq<StationTime>, departureTime: string, arrivalTime: string)
    ensures var ordered := OrderedTimes(times);
      RunsBetween(times, departureTime, arrivalTime) <==>
        |ordered| > 0 && ordered[0].time == Some(departureTime) && ordered[|ordered| - 1].time == Some(arrivalTime)
  {
    if |times| > 0 {
      var i, j := OrderedEndsAt(times);
      hide OrderedTimes, IsFirstStation, IsLastStation;
      forall k: nat ensures (IsFirstStation(times, k) ==> k == i) && (IsLastStation(times, k) ==> k == j) {
        FirstStationOnce(times, k, i);
        FirstStationOnce(times, k, j);
      }
    }
  }

  lemma {:induction false} RecurringBase(ride: Ride, date: string, dayOfWeek: int)
    requires ride.kind == RECURRING
    ensures !InSeason(ride, date) ==> BaseInstanceForDate(ride, date, dayOfWeek) == DoesNotRun(DATE_OUTSIDE_RANGE)
    ensures InSeason(ride, date) ==>
      BaseInstanceForDate(ride, date, dayOfWeek) == (
        match FindDay(ride.daySchedules, dayOfWeek)
        case None => DoesNotRun(WEEKDAY_NOT_SCHEDULED)
        case Some(schedule) => EndsOf(OrderedTimes(schedule.stationTimes)))
  {
    hide StrLess, OrderedTimes, FindDay;
  }

  function EndsOf(ordered: seq<StationTime>): BaseOutcome {
    if |ordered| == 0 || !Given(ordered[0].time) || !Given(ordered[|ordered| - 1].time)
    then DoesNotRun(SCHEDULE_TIME_MISSING)
    else Runs(ordered[0].time.value, ordered[|ordered| - 1].time.value)
  }

  lemma {:induction false} RecurringRunsIff(ride: Ride, date: string, dayOfWeek: int, departureTime: string, arrivalTime: string)
    requires ride.kind == RECURRING && InSeason(ride, date)
    ensures BaseInstanceForDate(ride, date, dayOfWeek) == Runs(departureTime, arrivalTime)
      <==> RunsAt(ride, date, dayOfWeek, departureTime, arrivalTime)
  {
    hide OrderedTimes, FindDay, RunsBetween, FirstForDay, InSeason, BaseInstanceForDate;
    RecurringBase(ride, date, dayOfWeek);
    FindDayIsFirst(ride.daySchedules, dayOfWeek);
    if FindDay(ride.daySchedules, dayOfWeek).Some? {
      var k: nat :| k < |ride.daySchedules| && FirstForDay(ride.daySchedules, k, dayOfWeek)
        && ride.daySchedules[k] == FindDay(ride.daySchedules, dayOfWeek).value;
      RunsBetweenIff(ride.daySchedules[k].stationTimes, departureTime, arrivalTime);
      forall n: nat | FirstForDay(ride.daySchedules, n, dayOfWeek) ensures n == k {
        FirstForDayOnce(ride.daySchedules, n, k, dayOfWeek);
      }
    } else {
      forall n: nat ensures !FirstForDay(ride.daySchedules, n, dayOfWeek) {
        FirstIsThere(ride.daySchedules, n, dayOfWeek);
      }
    }
  }

  /** A ride runs from one time to another exactly as its own columns say. */
  lemma {:induction false} RunsIff(ride: Ride, date: string, dayOfWeek: int, departureTime: string, arrivalTime: string)
    ensures BaseInstanceForDate(ride, date, dayOfWeek) == Runs(departureTime, arrivalTime)
      <==> RunsAt(ride, date, dayOfWeek, departureTime, arrivalTime)
  {
    if ride.kind == RECURRING {
      hide InSeason, RunsBetween, FirstForDay, BaseInstanceForDate;
      RecurringBase(ride, date, dayOfWeek);
      if InSeason(ride, date) {
        RecurringRunsIff(ride, date, dayOfWeek, departureTime, arrivalTime);
      }
    }
  }

  lemma {:induction false} FirstIsThere(days: seq<DaySchedule>, k: nat, dayOfWeek: int)
    ensures FirstForDay(days, k, dayOfWeek) ==> exists d :: d in days && d.dayOfWeek == dayOfWeek
  {
    if k < |days| {
      assert days[k] in days;
    }
  }

  // ---- Why a ride does not run ----

  /** The gap a date is reported with when a ride does not run on it. */
  ghost predicate WhyNot(ride: Ride, date: string, dayOfWeek: int, gap: Gap) {
    match gap
    case DATE_OUTSIDE_RANGE => !(if ride.kind == ONE_TIME then ride.oneTimeDate == Some(date) else InSeason(ride, date))
    case WEEKDAY_NOT_SCHEDULED =>
      ride.kind == RECURRING && InSeason(ride, date) && forall d :: d in ride.daySchedules ==> d.dayOfWeek != dayOfWeek
    case SCHEDULE_TIME_MISSING =>
      && (if ride.kind == ONE_TIME then ride.oneTimeDate == Some(date)
          else InSeason(ride, date) && exists d :: d in ride.daySchedules && d.dayOfWeek == dayOfWeek)
      && forall departureTime, arrivalTime :: !RunsAt(ride, date, dayOfWeek, departureTime, arrivalTime)
  }

  lemma {:induction false} GapIff(ride: Ride, date: string, dayOfWeek: int, gap: Gap)
    ensures BaseInstanceForDate(ride, date, dayOfWeek) == DoesNotRun(gap) <==> WhyNot(ride, date, dayOfWeek, gap)
  {
    hide RunsAt, OrderedTimes, FindDay, StrLess;
    FindDayFinds(ride.daySchedules, dayOfWeek);
    forall a, b ensures RunsAt(ride, date, dayOfWeek, a, b) <==> BaseInstanceForDate(ride, date, dayOfWeek) == Runs(a, b) {
      RunsIff(ride, date, dayOfWeek, a, b);
    }
    if base: BaseOutcome :| base == BaseInstanceForDate(ride, date, dayOfWeek) && base.Runs? {
      assert RunsAt(ride, date, dayOfWeek, base.departureTime, base.arrivalTime);
    }
  }

  // ---- Where a bus stops ----

  ghost predicate FirstAt(stops: seq<LineStop>, k: nat, stationId: Id) {
    k < |stops| && stops[k].stationId == stationId && forall j :: 0 <= j < k ==> stops[j].stationId != stationId
  }

  /** Passengers get on and off as the line's first stop at the station says, and both where it has none. */
  ghost predicate FlaggedBy(line: Line, stop: Stop) {
    && (forall k: nat :: FirstAt(line.intermediateStops, k, stop.stationId) ==>
          stop.isBoarding == line.intermediateStops[k].isBoarding && stop.isDropoff == line.intermediateStops[k].isDropoff)
    && ((forall s :: s in line.intermediateStops ==> s.stationId != stop.stationId) ==> stop.isBoarding && stop.isDropoff)
  }

  /** First stop boarding only, last drop-off only, a stop between as the line has it. */
  ghost predicate Flagged(line: Line, stops: seq<Stop>) {
    forall i :: 0 <= i < |stops| ==>
      if i == 0 then stops[i].isBoarding && !stops[i].isDropoff
      else if i == |stops| - 1 then !stops[i].isBoarding && stops[i].isDropoff
      else FlaggedBy(line, stops[i])
  }

  /** The whole line: its ends, with the two times, and its stops between in order, without one. */
  ghost predicate LineRoute(line: Line, departureTime: string, arrivalTime: string, stops: seq<Stop>) {
    && Flagged(line, stops)
    && exists middle: seq<LineStop> :: InKeyOrder(line.intermediateStops, middle, (s: LineStop) => s.orderIndex)
         && |stops| == |middle| + 2
         && (forall i :: 0 <= i < |stops| ==> stops[i].orderIndex == i)
         && stops[0].stationId == line.departureStationId && stops[0].time == Some(departureTime)
         && stops[|middle| + 1].stationId == line.arrivalStationId && stops[|middle| + 1].time == Some(arrivalTime)
         && forall i :: 0 <= i < |middle| ==> stops[i + 1].stationId == middle[i].stationId && stops[i + 1].time == None
  }

  /** A schedule's stations in order, at their own times and numbers. */
  ghost predicate ScheduleRoute(line: Line, times: seq<StationTime>, stops: seq<Stop>) {
    Flagged(line, stops) && CallsInOrder(times, stops)
  }

  ghost predicate CallsInOrder(times: seq<StationTime>, stops: seq<Stop>) {
    exists ordered: seq<StationTime> :: InKeyOrder(times, ordered, (t: StationTime) => t.orderIndex)
      && |stops| == |ordered|
      && forall i :: 0 <= i < |ordered| ==>
           stops[i].stationId == ordered[i].stationId && stops[i].orderIndex == ordered[i].orderIndex && stops[i].time == ordered[i].time
  }

  /** The stops of a timetable departure: the line's for a one-time ride, the weekday's for a recurring one. */
  ghost predicate RouteOn(ride: Ride, dayOfWeek: int, departureTime: string, arrivalTime: string, stops: seq<Stop>) {
    match ride.kind
    case ONE_TIME => LineRoute(ride.line, departureTime, arrivalTime, stops)
    case RECURRING =>
      exists k: nat :: FirstForDay(ride.daySchedules, k, dayOfWeek) && ScheduleRoute(ride.line, ride.daySchedules[k].stationTimes, stops)
  }

  lemma {:induction false} FirstAtShifts(stops: seq<LineStop>, k: nat, stationId: Id)
    requires |stops| > 0 && stops[0].stationId != stationId && FirstAt(stops[1..], k, stationId)
    ensures FirstAt(stops, k + 1, stationId) && stops[k + 1] == stops[1..][k]
  {
    forall j | 0 <= j < k + 1 ensures stops[j].stationId != stationId {
      assert j > 0 ==> stops[j] == stops[1..][j - 1];
    }
  }

  lemma {:induction false} FindLineStopIsFirst(stops: seq<LineStop>, stationId: Id)
    ensures FindLineStop(stops, stationId).Some? ==>
      exists k: nat :: k < |stops| && FirstAt(stops, k, stationId) && stops[k] == FindLineStop(stops, stationId).value
    ensures FindLineStop(stops, stationId).None? ==> forall s :: s in stops ==> s.stationId != stationId
  {
    if |stops| > 0 {
      assert stops == [stops[0]] + stops[1..];
      FindLineStopIsFirst(stops[1..], stationId);
      if stops[0].stationId == stationId {
        assert FirstAt(stops, 0, stationId);
      } else if FindLineStop(stops, stationId).Some? {
        var k: nat :| k < |stops[1..]| && FirstAt(stops[1..], k, stationId) && stops[1..][k] == FindLineStop(stops[1..], stationId).value;
        FirstAtShifts(stops, k, stationId);
      }
    }
  }

  lemma {:induction false} FirstAtOnce(stops: seq<LineStop>, a: nat, b: nat, stationId: Id)
    ensures FirstAt(stops, a, stationId) && FirstAt(stops, b, stationId) ==> a == b
    ensures FirstAt(stops, a, stationId) ==> stops[a] in stops
  {
  }

  lemma {:induction false} FlaggedStopIs(ride: Ride, stationId: Id, orderIndex: int, time: Option<string>, position: nat, count: nat)
    ensures var stop := FlaggedStop(ride, stationId, orderIndex, time, position, count);
      && stop.stationId == stationId && stop.orderIndex == orderIndex && stop.time == time
      && (if position == 0 then stop.isBoarding && !stop.isDropoff
          else if position == count - 1 then !stop.isBoarding && stop.isDropoff
          else FlaggedBy(ride.line, stop))
  {
    hide FindLineStop, FirstAt;
    var stops := ride.line.intermediateStops;
    FindLineStopIsFirst(stops, stationId);
    if FindLineStop(stops, stationId).Some? {
      var k: nat :| k < |stops| && FirstAt(stops, k, stationId) && stops[k] == FindLineStop(stops, stationId).value;
      forall n: nat ensures FirstAt(stops, n, stationId) ==> n == k {
        FirstAtOnce(stops, n, k, stationId);
      }
      FirstAtStation(stops, k, stationId);
    } else {
      forall n: nat ensures !FirstAt(stops, n, stationId) {
        FirstAtOnce(stops, n, n, stationId);
        FirstAtStation(stops, n, stationId);
      }
    }
  }

  lemma {:induction false} FirstAtStation(stops: seq<LineStop>, k: nat, stationId: Id)
    ensures FirstAt(stops, k, stationId) ==> k < |stops| && stops[k].stationId == stationId
  {
  }

  lemma {:induction false} LineRouteIs(ride: Ride, departureTime: string, arrivalTime: string)
    ensures LineRoute(ride.line, departureTime, arrivalTime, LinePathStops(ride, departureTime, arrivalTime))
  {
    var key := (s: LineStop) => s.orderIndex;
    var stops, path, middle := LinePathStops(ride, departureTime, arrivalTime), LinePath(ride.line), SortBy(ride.line.intermediateStops, key);
    SortByStable(ride.line.intermediateStops, key);
    hide SortBy, FlaggedBy, InKeyOrder;
    forall i | 0 <= i < |stops| ensures stops[i].stationId == path[i] && stops[i].orderIndex == i
      && stops[i].time == (if i == 0 then Some(departureTime) else if i == |path| - 1 then Some(arrivalTime) else None)
      && (if i == 0 then stops[i].isBoarding && !stops[i].isDropoff
          else if i == |stops| - 1 then !stops[i].isBoarding && stops[i].isDropoff
          else FlaggedBy(ride.line, stops[i]))
    {
      FlaggedStopIs(ride, path[i], i, if i == 0 then Some(departureTime) else if i == |path| - 1 then Some(arrivalTime) else None, i, |path|);
    }
    hide LinePathStops;
    assert |stops| == |middle| + 2;
    forall i | 0 <= i < |middle| ensures path[i + 1] == middle[i].stationId {
    }
  }

  lemma {:induction false} ScheduleRouteIs(ride: Ride, schedule: DaySchedule, stops: seq<Stop>)
    requires var ordered := OrderedTimes(schedule.stationTimes);
      stops == seq(|ordered|, i requires 0 <= i < |ordered| =>
        FlaggedStop(ride, ordered[i].stationId, ordered[i].orderIndex, ordered[i].time, i, |ordered|))
    ensures ScheduleRoute(ride.line, schedule.stationTimes, stops)
  {
    hide FlaggedBy, FlaggedStop, InKeyOrder, OrderedTimes, CallsInOrder;
    var ordered := OrderedTimes(schedule.stationTimes);
    OrderedInKeyOrder(schedule.stationTimes);
    forall i | 0 <= i < |stops|
      ensures stops[i].stationId == ordered[i].stationId && stops[i].orderIndex == ordered[i].orderIndex && stops[i].time == ordered[i].time
      ensures if i == 0 then stops[i].isBoarding && !stops[i].isDropoff
          else if i == |stops| - 1 then !stops[i].isBoarding && stops[i].isDropoff
          else FlaggedBy(ride.line, stops[i])
    {
      FlaggedStopIs(ride, ordered[i].stationId, ordered[i].orderIndex, ordered[i].time, i, |ordered|);
    }
    CallsInThatOrder(schedule.stationTimes, ordered, stops);
  }

  lemma {:induction false} OrderedInKeyOrder(times: seq<StationTime>)
    ensures InKeyOrder(times, OrderedTimes(times), (t: StationTime) => t.orderIndex)
  {
    SortByStable(times, (t: StationTime) => t.orderIndex);
  }

  lemma {:induction false} CallsInThatOrder(times: seq<StationTime>, ordered: seq<StationTime>, stops: seq<Stop>)
    requires InKeyOrder(times, ordered, (t: StationTime) => t.orderIndex) && |stops| == |ordered|
    requires forall i :: 0 <= i < |ordered| ==>
      stops[i].stationId == ordered[i].stationId && stops[i].orderIndex == ordered[i].orderIndex && stops[i].time == ordered[i].time
    ensures CallsInOrder(times, stops)
  {
    hide InKeyOrder;
  }

  lemma {:induction false} RouteOnIs(ride: Ride, date: string, dayOfWeek: int, departureTime: string, arrivalTime: string)
    requires BaseInstanceForDate(ride, date, dayOfWeek) == Runs(departureTime, arrivalTime)
    ensures RouteOn(ride, dayOfWeek, departureTime, arrivalTime, ScheduleStops(ride, dayOfWeek, departureTime, arrivalTime))
  {
    hide LineRoute, ScheduleRoute, OrderedTimes, LinePathStops, FlaggedStop, StrLess, FindDay, FirstForDay;
    if ride.kind == ONE_TIME {
      LineRouteIs(ride, departureTime, arrivalTime);
    } else {
      FindDayIsFirst(ride.daySchedules, dayOfWeek);
      ScheduleRouteIs(ride, FindDay(ride.daySchedules, dayOfWeek).value, ScheduleStops(ride, dayOfWeek, departureTime, arrivalTime));
    }
  }

  // ---- What is emitted ----

  /** A departure the timetable has, column by column. */
  ghost predicate TimetableHas(ride: Ride, p: Planned) {
    && ride.status == ACTIVE && ride.line.isActive
    && RunsAt(ride, p.serviceDate, Weekday(p.serviceDate), p.departureTime, p.arrivalTime)
    && RouteOn(ride, Weekday(p.serviceDate), p.departureTime, p.arrivalTime, p.stops)
    && p.key == ScheduleKey(ride.id, p.serviceDate) && p.source == SCHEDULE && p.rideId == ride.id
    && p.lineId == ride.lineId && p.capacity == ride.capacity
    && p.rideExceptionId == None && p.cancellation == None && !p.timetableDropped
  }

  /** A ride has a departure on a date exactly when it is active on an active line and runs that date, and then with these columns. */
  lemma {:induction false} PlannedMeans(ride: Ride, date: string)
    ensures PlannedOn(ride, date).Some? ==> TimetableHas(ride, PlannedOn(ride, date).value) && PlannedOn(ride, date).value.serviceDate == date
    ensures PlannedOn(ride, date).Some? <==> ride.status == ACTIVE && ride.line.isActive && exists a, b :: RunsAt(ride, date, Weekday(date), a, b)
    ensures forall a, b :: RunsAt(ride, date, Weekday(date), a, b) && PlannedOn(ride, date).Some? ==>
      PlannedOn(ride, date).value.departureTime == a && PlannedOn(ride, date).value.arrivalTime == b
  {
    hide RunsAt, RouteOn, BaseInstanceForDate, ScheduleStops, Weekday;
    forall a, b ensures RunsAt(ride, date, Weekday(date), a, b) <==> BaseInstanceForDate(ride, date, Weekday(date)) == Runs(a, b) {
      RunsIff(ride, date, Weekday(date), a, b);
    }
    if PlannedOn(ride, date).Some? {
      var p := PlannedOn(ride, date).value;
      RouteOnIs(ride, date, Weekday(date), p.departureTime, p.arrivalTime);
    }
  }

  /**
   * Everything emitted is a departure the timetable has on one of the dates; and every active
   * ride on an active line that runs on one of them, from one time to another, has that
   * departure emitted, once.
   */
  lemma {:induction false} EmittedMeans(rides: seq<Ride>, dates: seq<string>)
    requires DistinctRides(rides) && Distinct(dates)
    ensures forall p :: p in Generated(rides, dates) ==> p.serviceDate in dates && exists ride :: ride in rides && TimetableHas(ride, p)
    ensures forall ride, d, a, b :: ride in rides && d in dates && ride.status == ACTIVE && ride.line.isActive && RunsAt(ride, d, Weekday(d), a, b) ==>
      exists p :: p in Generated(rides, dates) && TimetableHas(ride, p) && p.serviceDate == d && p.departureTime == a && p.arrivalTime == b
    ensures DistinctKeys(Generated(rides, dates))
  {
    hide PlannedOn, Generated, TimetableHas, RunsAt, Weekday;
    GeneratedExactly(rides, dates);
    forall p | p in Generated(rides, dates) ensures exists ride :: ride in rides && TimetableHas(ride, p) {
      var ride :| ride in rides && ride.id == p.rideId && PlannedOn(ride, p.serviceDate) == Some(p);
      PlannedMeans(ride, p.serviceDate);
    }
    forall ride, d, a, b | ride in rides && d in dates && ride.status == ACTIVE && ride.line.isActive && RunsAt(ride, d, Weekday(d), a, b)
      ensures exists p :: p in Generated(rides, dates) && TimetableHas(ride, p) && p.serviceDate == d && p.departureTime == a && p.arrivalTime == b
    {
      PlannedMeans(ride, d);
      assert PlannedOn(ride, d).value in Generated(rides, dates);
    }
  }
}
