/** The timetable and what it says should run: rides, lines, and the pure departure generator. */
module Timetable {
  import opened Basics
  import opened Text
  import opened Calendar

  type Id = string

  datatype Source = SCHEDULE | EXTRA | LEGACY

  datatype RideStatus = DRAFT | ACTIVE | INACTIVE

  datatype RideType = RECURRING | ONE_TIME

  datatype LineStop = LineStop(stationId: Id, orderIndex: int, isBoarding: bool, isDropoff: bool)

  datatype Line = Line(isActive: bool, departureStationId: Id, arrivalStationId: Id, intermediateStops: seq<LineStop>)

  datatype StationTime = StationTime(stationId: Id, orderIndex: int, time: Option<string>)

  datatype DaySchedule = DaySchedule(dayOfWeek: int, stationTimes: seq<StationTime>)

  datatype Ride = Ride(
    id: Id,
    lineId: Id,
    capacity: int,
    status: RideStatus,
    kind: RideType,
    recurringStartDate: Option<string>,
    recurringEndDate: Option<string>,
    oneTimeDate: Option<string>,
    oneTimeDepartureTime: Option<string>,
    oneTimeArrivalTime: Option<string>,
    line: Line,
    daySchedules: seq<DaySchedule>)

  datatype Stop = Stop(stationId: Id, orderIndex: int, time: Option<string>, isBoarding: bool, isDropoff: bool)

  datatype Cancellation = Cancellation(at: int, actor: Id)

  /** A generated departure is named by its ride and date, an extra bus by an ID. */
  datatype PlanKey = ScheduleKey(rideId: Id, serviceDate: string) | ExtraKey(id: Id)

  datatype Planned = Planned(
    key: PlanKey,
    source: Source,
    rideId: Id,
    serviceDate: string,
    lineId: Id,
    departureTime: string,
    arrivalTime: string,
    capacity: int,
    rideExceptionId: Option<Id>,
    cancellation: Option<Cancellation>,
    timetableDropped: bool,
    stops: seq<Stop>)

  // ---- Whether a ride runs on a date ----

  datatype Gap = DATE_OUTSIDE_RANGE | WEEKDAY_NOT_SCHEDULED | SCHEDULE_TIME_MISSING

  datatype BaseOutcome = Runs(departureTime: string, arrivalTime: string) | DoesNotRun(gap: Gap)

  /** A value JavaScript treats as true: present and not empty. */
  predicate Given(s: Option<string>) {
    s.Some? && s.value != ""
  }

  function FindDay(days: seq<DaySchedule>, dayOfWeek: int): Option<DaySchedule> {
    if |days| == 0 then None
    else if days[0].dayOfWeek == dayOfWeek then Some(days[0])
    else FindDay(days[1..], dayOfWeek)
  }

  function OrderedTimes(times: seq<StationTime>): seq<StationTime> {
    SortBy(times, (t: StationTime) => t.orderIndex)
  }

  /** `getUTCDay`, or -1 for the NaN an unreadable date gives. */
  function Weekday(date: string): int {
    if IsDate(date) then DayOfWeek(date) else -1
  }

  function BaseInstanceForDate(ride: Ride, date: string, dayOfWeek: int): BaseOutcome {
    if ride.kind == ONE_TIME then
      if ride.oneTimeDate != Some(date) then DoesNotRun(DATE_OUTSIDE_RANGE)
      else if !Given(ride.oneTimeDepartureTime) || !Given(ride.oneTimeArrivalTime) then DoesNotRun(SCHEDULE_TIME_MISSING)
      else Runs(ride.oneTimeDepartureTime.value, ride.oneTimeArrivalTime.value)
    else if ride.recurringStartDate.None? then DoesNotRun(DATE_OUTSIDE_RANGE)
    else if StrLess(date, ride.recurringStartDate.value)
      || (ride.recurringEndDate.Some? && StrLess(ride.recurringEndDate.value, date)) then DoesNotRun(DATE_OUTSIDE_RANGE)
    else
      match FindDay(ride.daySchedules, dayOfWeek)
      case None => DoesNotRun(WEEKDAY_NOT_SCHEDULED)
      case Some(schedule) =>
        var ordered := OrderedTimes(schedule.stationTimes);
        if |ordered| == 0 || !Given(ordered[0].time) || !Given(ordered[|ordered| - 1].time)
        then DoesNotRun(SCHEDULE_TIME_MISSING)
        else Runs(ordered[0].time.value, ordered[|ordered| - 1].time.value)
  }

  predicate RideRuns(ride: Ride) {
    ride.status == ACTIVE && ride.line.isActive
  }

  // ---- The stops a departure is stored with ----

  function FindLineStop(stops: seq<LineStop>, stationId: Id): Option<LineStop> {
    if |stops| == 0 then None
    else if stops[0].stationId == stationId then Some(stops[0])
    else FindLineStop(stops[1..], stationId)
  }

  /** First stop boarding only, last drop-off only, a stop between by its line stop. */
  function FlaggedStop(ride: Ride, stationId: Id, orderIndex: int, time: Option<string>, position: nat, count: nat): Stop {
    if position == 0 then Stop(stationId, orderIndex, time, true, false)
    else if position == count - 1 then Stop(stationId, orderIndex, time, false, true)
    else
      match FindLineStop(ride.line.intermediateStops, stationId)
      case None => Stop(stationId, orderIndex, time, true, true)
      case Some(s) => Stop(stationId, orderIndex, time, s.isBoarding, s.isDropoff)
  }

  function LinePath(line: Line): (path: seq<Id>)
    ensures |path| == |line.intermediateStops| + 2
  {
    var middle := SortBy(line.intermediateStops, (s: LineStop) => s.orderIndex);
    [line.departureStationId] + seq(|middle|, i requires 0 <= i < |middle| => middle[i].stationId) + [line.arrivalStationId]
  }

  function LinePathStops(ride: Ride, departureTime: string, arrivalTime: string): (stops: seq<Stop>)
    ensures |stops| == |ride.line.intermediateStops| + 2
  {
    var path := LinePath(ride.line);
    seq(|path|, i requires 0 <= i < |path| =>
      FlaggedStop(ride, path[i], i,
        if i == 0 then Some(departureTime) else if i == |path| - 1 then Some(arrivalTime) else None,
        i, |path|))
  }

  function ScheduleStops(ride: Ride, dayOfWeek: int, departureTime: string, arrivalTime: string): seq<Stop> {
    if ride.kind == ONE_TIME then LinePathStops(ride, departureTime, arrivalTime)
    else
      match FindDay(ride.daySchedules, dayOfWeek)
      case None => []
      case Some(schedule) =>
        var ordered := OrderedTimes(schedule.stationTimes);
        seq(|ordered|, i requires 0 <= i < |ordered| =>
          FlaggedStop(ride, ordered[i].stationId, ordered[i].orderIndex, ordered[i].time, i, |ordered|))
  }

  // ---- The generator ----

  /** What the timetable produces for one ride on one date. */
  function PlannedOn(ride: Ride, date: string): Option<Planned> {
    if !RideRuns(ride) then None
    else
      match BaseInstanceForDate(ride, date, Weekday(date))
      case DoesNotRun(_) => None
      case Runs(departureTime, arrivalTime) =>
        Some(Planned(ScheduleKey(ride.id, date), SCHEDULE, ride.id, date, ride.lineId, departureTime, arrivalTime,
                     ride.capacity, None, None, false, ScheduleStops(ride, Weekday(date), departureTime, arrivalTime)))
  }

  /** An extra bus as its ride shapes it: its line and stops are the ride's, the rest is given. */
  function PlanExtra(ride: Ride, keyId: Id, serviceDate: string, departureTime: string, arrivalTime: string,
                     capacity: int, rideExceptionId: Option<Id>): Planned {
    Planned(ExtraKey(keyId), EXTRA, ride.id, serviceDate, ride.lineId, departureTime, arrivalTime, capacity,
            rideExceptionId, None, false, LinePathStops(ride, departureTime, arrivalTime))
  }

  function RideDepartures(ride: Ride, dates: seq<string>): seq<Planned> {
    if |dates| == 0 then []
    else
      (match PlannedOn(ride, dates[0]) case Some(p) => [p] case None => []) + RideDepartures(ride, dates[1..])
  }

  function Generated(rides: seq<Ride>, dates: seq<string>): seq<Planned> {
    if |rides| == 0 then [] else RideDepartures(rides[0], dates) + Generated(rides[1..], dates)
  }

  /** `generateDepartures`: every ride that runs, every date of the window. */
  method GenerateDepartures(rides: seq<Ride>, from: string, to: string) returns (planned: seq<Planned>)
    requires InEra(from) && InEra(to) && !IsLastDay(to)
    ensures planned == Generated(rides, Walk(from, to))
  {
    planned := [];
    ghost var days := Walk(from, to);
    var i := 0;
    while i < |rides|
      invariant 0 <= i <= |rides|
      invariant planned + Generated(rides[i..], days) == Generated(rides, days)
    {
      GeneratedStep(rides, i, days);
      var mine := [];
      if RideRuns(rides[i]) {
        mine := GenerateRide(rides[i], from, to);
      } else {
        NothingWhileStopped(rides[i], days);
      }
      ghost var rest := Generated(rides[i + 1..], days);
      AppendAssociates(planned, mine, rest);
      planned := planned + mine;
      i := i + 1;
    }
  }

  /** The inner loop: one running ride, a day at a time. */
  method GenerateRide(ride: Ride, from: string, to: string) returns (planned: seq<Planned>)
    requires RideRuns(ride) && InEra(from) && InEra(to) && !IsLastDay(to)
    ensures planned == RideDepartures(ride, Walk(from, to))
  {
    hide ScheduleStops, BaseInstanceForDate;
    planned := [];
    var date := from;
    while StrLe(date, to)
      invariant InEra(date)
      invariant planned + RideDepartures(ride, Walk(date, to)) == RideDepartures(ride, Walk(from, to))
      decreases Day(to) - Day(date) + 1
    {
      RideWalkStep(ride, date, to);
      var base := BaseInstanceForDate(ride, date, Weekday(date));
      var mine := [];
      if base.Runs? {
        mine := [Planned(ScheduleKey(ride.id, date), SCHEDULE, ride.id, date, ride.lineId, base.departureTime,
                         base.arrivalTime, ride.capacity, None, None, false,
                         ScheduleStops(ride, Weekday(date), base.departureTime, base.arrivalTime))];
      }
      OneDate(ride, date);
      AppendAssociates(planned, mine, RideDepartures(ride, Walk(AddDays(date, 1), to)));
      planned := planned + mine;
      date := AddDays(date, 1);
    }
  }

  lemma {:induction false} OneDate(ride: Ride, date: string)
    ensures RideDepartures(ride, [date]) == match PlannedOn(ride, date) case Some(p) => [p] case None => []
  {
    hide PlannedOn;
    assert [date][1..] == [];
  }

  /** What one turn of the inner loop adds, and where it moves the date. */
  lemma {:induction false} RideWalkStep(ride: Ride, date: string, to: string)
    requires InEra(date) && InEra(to) && !IsLastDay(to) && StrLe(date, to)
    ensures DayFromYear(0) <= UtcDay(date) + 1
    ensures InEra(AddDays(date, 1)) && Day(AddDays(date, 1)) == Day(date) + 1 && Day(date) <= Day(to)
    ensures RideDepartures(ride, Walk(date, to))
            == RideDepartures(ride, [date]) + RideDepartures(ride, Walk(AddDays(date, 1), to))
  {
    WalkStep(date, to);
    RideStep(ride, date, Walk(AddDays(date, 1), to));
  }

  lemma {:induction false} RideStep(ride: Ride, date: string, rest: seq<string>)
    ensures RideDepartures(ride, [date] + rest)
            == RideDepartures(ride, [date]) + RideDepartures(ride, rest)
  {
    hide PlannedOn;
    assert ([date] + rest)[1..] == rest;
    assert [date][1..] == [];
  }

  lemma {:induction false} GeneratedStep(rides: seq<Ride>, i: nat, dates: seq<string>)
    requires i < |rides|
    ensures Generated(rides[i..], dates) == RideDepartures(rides[i], dates) + Generated(rides[i + 1..], dates)
  {
    assert rides[i..][1..] == rides[i + 1..];
  }

  lemma {:induction false} NothingWhileStopped(ride: Ride, dates: seq<string>)
    requires !RideRuns(ride)
    ensures RideDepartures(ride, dates) == []
  {
    if |dates| > 0 {
      NothingWhileStopped(ride, dates[1..]);
    }
  }

  ghost predicate DistinctRides(rides: seq<Ride>) {
    forall i, j :: 0 <= i < j < |rides| ==> rides[i].id != rides[j].id
  }

  ghost predicate DistinctKeys(planned: seq<Planned>) {
    forall i, j :: 0 <= i < j < |planned| ==> planned[i].key != planned[j].key
  }

  lemma {:induction false} RideDeparturesMembers(ride: Ride, dates: seq<string>)
    ensures forall p :: p in RideDepartures(ride, dates) <==> p.serviceDate in dates && PlannedOn(ride, p.serviceDate) == Some(p)
  {
    if |dates| > 0 {
      hide PlannedOn;
      PlannedNames(ride, dates[0]);
      RideDeparturesMembers(ride, dates[1..]);
      assert dates == [dates[0]] + dates[1..];
    }
  }

  lemma {:induction false} RideDeparturesExactly(ride: Ride, dates: seq<string>)
    requires Distinct(dates)
    ensures forall p :: p in RideDepartures(ride, dates) <==> p.serviceDate in dates && PlannedOn(ride, p.serviceDate) == Some(p)
    ensures DistinctKeys(RideDepartures(ride, dates))
  {
    hide PlannedOn;
    RideDeparturesMembers(ride, dates);
    if |dates| > 0 {
      var first, rest := RideDepartures(ride, [dates[0]]), RideDepartures(ride, dates[1..]);
      RideDeparturesExactly(ride, dates[1..]);
      PlannedNames(ride, dates[0]);
      assert dates == [dates[0]] + dates[1..];
      forall p | p in rest ensures p.key != ScheduleKey(ride.id, dates[0]) {
        PlannedNames(ride, p.serviceDate);
        var i :| 0 <= i < |dates[1..]| && dates[1..][i] == p.serviceDate;
        assert dates[i + 1] != dates[0];
      }
    }
  }

  lemma {:induction false} GeneratedMembers(rides: seq<Ride>, dates: seq<string>)
    requires Distinct(dates)
    ensures forall p :: p in Generated(rides, dates) ==>
      p.serviceDate in dates && exists ride :: ride in rides && ride.id == p.rideId && PlannedOn(ride, p.serviceDate) == Some(p)
    ensures forall ride, d :: ride in rides && d in dates && PlannedOn(ride, d).Some? ==>
      PlannedOn(ride, d).value in Generated(rides, dates)
  {
    if |rides| > 0 {
      hide PlannedOn, RideDepartures;
      forall r, d ensures PlannedOn(r, d).Some? ==> PlannedOn(r, d).value.serviceDate == d && PlannedOn(r, d).value.rideId == r.id {
        PlannedNames(r, d);
      }
      RideDeparturesExactly(rides[0], dates);
      GeneratedMembers(rides[1..], dates);
      assert rides == [rides[0]] + rides[1..];
    }
  }

  lemma {:induction false} KeysOfTwoRides(rides: seq<Ride>, dates: seq<string>, p: Planned, q: Planned)
    requires DistinctRides(rides) && Distinct(dates) && |rides| > 0
    requires p in RideDepartures(rides[0], dates) && q in Generated(rides[1..], dates)
    ensures p.key != q.key
  {
    hide PlannedOn;
    RideDeparturesExactly(rides[0], dates);
    GeneratedMembers(rides[1..], dates);
    var ride :| ride in rides[1..] && ride.id == q.rideId && PlannedOn(ride, q.serviceDate) == Some(q);
    var k :| 0 <= k < |rides[1..]| && rides[1..][k] == ride;
    assert rides[k + 1].id == ride.id;
    PlannedNames(rides[0], p.serviceDate);
    PlannedNames(ride, q.serviceDate);
  }

  lemma {:induction false} GeneratedKeys(rides: seq<Ride>, dates: seq<string>)
    requires DistinctRides(rides) && Distinct(dates)
    ensures DistinctKeys(Generated(rides, dates))
  {
    if |rides| > 0 {
      hide PlannedOn, RideDepartures;
      var head, tail := RideDepartures(rides[0], dates), Generated(rides[1..], dates);
      RideDeparturesExactly(rides[0], dates);
      GeneratedKeys(rides[1..], dates);
      forall i, j | 0 <= i < |head| && 0 <= j < |tail| ensures head[i].key != tail[j].key {
        KeysOfTwoRides(rides, dates, head[i], tail[j]);
      }
    }
  }

  /**
   * The generator emits exactly the departures of the rides that run, each ride and date
   * at most once.
   */
  lemma {:induction false} GeneratedExactly(rides: seq<Ride>, dates: seq<string>)
    requires DistinctRides(rides) && Distinct(dates)
    ensures forall p :: p in Generated(rides, dates) ==>
      p.serviceDate in dates && exists ride :: ride in rides && ride.id == p.rideId && PlannedOn(ride, p.serviceDate) == Some(p)
    ensures forall ride, d :: ride in rides && d in dates && PlannedOn(ride, d).Some? ==>
      PlannedOn(ride, d).value in Generated(rides, dates)
    ensures DistinctKeys(Generated(rides, dates))
  {
    hide PlannedOn, Generated;
    GeneratedMembers(rides, dates);
    GeneratedKeys(rides, dates);
  }

  /** A planned departure is named by its ride and date, carries the ride's line and capacity and the times it runs at, and no decision. */
  lemma {:induction false} PlannedNames(ride: Ride, date: string)
    ensures PlannedOn(ride, date).Some? ==>
      var p := PlannedOn(ride, date).value;
      && p.key == ScheduleKey(ride.id, date) && p.source == SCHEDULE && p.rideId == ride.id && p.serviceDate == date
      && p.rideExceptionId.None? && p.cancellation.None? && !p.timetableDropped
      && p.lineId == ride.lineId && p.capacity == ride.capacity
      && BaseInstanceForDate(ride, date, Weekday(date)) == Runs(p.departureTime, p.arrivalTime)
  {
  }

  // ---- What running means ----

  lemma {:induction false} FindDayFinds(days: seq<DaySchedule>, dayOfWeek: int)
    ensures FindDay(days, dayOfWeek).Some? ==>
      FindDay(days, dayOfWeek).value in days && FindDay(days, dayOfWeek).value.dayOfWeek == dayOfWeek
    ensures FindDay(days, dayOfWeek).None? ==> forall d :: d in days ==> d.dayOfWeek != dayOfWeek
  {
    if |days| > 0 {
      assert days == [days[0]] + days[1..];
      FindDayFinds(days[1..], dayOfWeek);
    }
  }

  /** The given time at the first station, and at the last. */
  ghost predicate EndTimes(times: seq<StationTime>, departureTime: string, arrivalTime: string) {
    exists first, last :: first in times && last in times
      && first.time == Some(departureTime) && last.time == Some(arrivalTime) && departureTime != "" && arrivalTime != ""
      && forall t :: t in times ==> first.orderIndex <= t.orderIndex <= last.orderIndex
  }

  lemma {:induction false} OrderedEnds(times: seq<StationTime>)
    requires |times| > 0
    ensures var ordered := OrderedTimes(times);
      && |ordered| > 0 && ordered[0] in times && ordered[|ordered| - 1] in times
      && forall t :: t in times ==> ordered[0].orderIndex <= t.orderIndex <= ordered[|ordered| - 1].orderIndex
  {
    var key := (t: StationTime) => t.orderIndex;
    var ordered := OrderedTimes(times);
    SortByAscending(times, key);
    assert ordered[0] in multiset(times) && ordered[|ordered| - 1] in multiset(times);
    forall t | t in times ensures ordered[0].orderIndex <= t.orderIndex <= ordered[|ordered| - 1].orderIndex {
      assert t in multiset(ordered);
      var i :| 0 <= i < |ordered| && ordered[i] == t;
      assert key(ordered[0]) <= key(ordered[i]) <= key(ordered[|ordered| - 1]);
    }
  }

  lemma {:induction false} GivenEnds(times: seq<StationTime>)
    ensures |OrderedTimes(times)| == |times|
    ensures var ordered := OrderedTimes(times);
      |times| > 0 && Given(ordered[0].time) && Given(ordered[|ordered| - 1].time) ==>
        EndTimes(times, ordered[0].time.value, ordered[|ordered| - 1].time.value)
  {
    if |times| > 0 {
      OrderedEnds(times);
      hide OrderedTimes;
    }
  }

  /** A recurring ride runs inside its dates on a weekday it has a schedule for, from its first station's time to its last's. */
  lemma {:induction false} RecurringRunMeans(ride: Ride, date: string, dayOfWeek: int)
    requires ride.kind == RECURRING && BaseInstanceForDate(ride, date, dayOfWeek).Runs?
    ensures ride.recurringStartDate.Some? && StrLe(ride.recurringStartDate.value, date)
    ensures ride.recurringEndDate.Some? ==> StrLe(date, ride.recurringEndDate.value)
    ensures var run := BaseInstanceForDate(ride, date, dayOfWeek);
      exists day :: day in ride.daySchedules && day.dayOfWeek == dayOfWeek && EndTimes(day.stationTimes, run.departureTime, run.arrivalTime)
  {
    hide StrLess, OrderedTimes, FindDay, EndTimes, Given;
    FindDayFinds(ride.daySchedules, dayOfWeek);
    GivenEnds(FindDay(ride.daySchedules, dayOfWeek).value.stationTimes);
  }

  /** The generator's output over a window. */
  function PlannedOver(rides: seq<Ride>, w: Window): seq<Planned>
    requires Walkable(w)
  {
    Generated(rides, Walk(w.from, w.to))
  }

  /** The generator's whole output over a window, as a fact about rides and dates. */
  lemma {:induction false} GeneratedOverWindow(rides: seq<Ride>, w: Window)
    requires DistinctRides(rides) && Walkable(w)
    ensures DistinctKeys(PlannedOver(rides, w))
    ensures forall p :: p in PlannedOver(rides, w) ==>
      IsDate(p.serviceDate) && InWindow(w, p.serviceDate) && p.key == ScheduleKey(p.rideId, p.serviceDate)
      && exists ride :: ride in rides && ride.id == p.rideId && PlannedOn(ride, p.serviceDate) == Some(p)
    ensures forall ride, d :: ride in rides && IsDate(d) && InWindow(w, d) && PlannedOn(ride, d).Some? ==>
      PlannedOn(ride, d).value in PlannedOver(rides, w)
  {
    WalkVisitsEachDay(w.from, w.to);
    GeneratedExactly(rides, Walk(w.from, w.to));
  }

  /** A stored route begins with a boarding-only stop at the departure time and ends with a drop-off-only stop. */
  lemma {:induction false} ExtraRouteEnds(ride: Ride, keyId: Id, date: string, departureTime: string, arrivalTime: string,
                       capacity: int, exc: Option<Id>)
    ensures var stops := PlanExtra(ride, keyId, date, departureTime, arrivalTime, capacity, exc).stops;
      && |stops| == |ride.line.intermediateStops| + 2
      && stops[0] == Stop(ride.line.departureStationId, 0, Some(departureTime), true, false)
      && stops[|stops| - 1] == Stop(ride.line.arrivalStationId, |stops| - 1, Some(arrivalTime), false, true)
      && forall i :: 0 <= i < |stops| ==> stops[i].orderIndex == i
  {
    var stops := LinePathStops(ride, departureTime, arrivalTime);
    var path := LinePath(ride.line);
    assert path[0] == ride.line.departureStationId && path[|path| - 1] == ride.line.arrivalStationId;
  }

  function Middle(ride: Ride): (r: seq<LineStop>)
    ensures |r| == |ride.line.intermediateStops|
  {
    SortBy(ride.line.intermediateStops, (s: LineStop) => s.orderIndex)
  }

  lemma {:induction false} MiddleStopAt(ride: Ride, departureTime: string, arrivalTime: string, k: nat)
    requires k < |ride.line.intermediateStops|
    ensures LinePathStops(ride, departureTime, arrivalTime)[k + 1].stationId == Middle(ride)[k].stationId
  {
    assert LinePath(ride.line)[k + 1] == Middle(ride)[k].stationId;
  }

  /** Between its ends a stored route calls at every stop of the line, in `orderIndex` order. */
  lemma {:induction false} ExtraRouteCallsEverywhere(ride: Ride, departureTime: string, arrivalTime: string, s: LineStop, t: LineStop)
    requires s in ride.line.intermediateStops && t in ride.line.intermediateStops
    requires s.orderIndex < t.orderIndex
    ensures var stops := LinePathStops(ride, departureTime, arrivalTime);
      exists i, j :: 0 < i < j < |stops| - 1 && stops[i].stationId == s.stationId && stops[j].stationId == t.stationId
  {
    var i, j := MiddlePositions(ride, s, t);
    MiddleStopAt(ride, departureTime, arrivalTime, i);
    MiddleStopAt(ride, departureTime, arrivalTime, j);
    var stops := LinePathStops(ride, departureTime, arrivalTime);
    assert stops[i + 1].stationId == s.stationId && stops[j + 1].stationId == t.stationId;
  }

  ghost predicate StationsOnce(stops: seq<LineStop>) {
    forall a, b :: a in stops && b in stops && a.stationId == b.stationId ==> a == b
  }

  lemma {:induction false} FindLineStopFinds(stops: seq<LineStop>, s: LineStop)
    requires StationsOnce(stops) && s in stops
    ensures FindLineStop(stops, s.stationId) == Some(s)
  {
    assert stops == [stops[0]] + stops[1..];
    if stops[0] != s {
      assert stops[0] in stops;
      FindLineStopFinds(stops[1..], s);
    }
  }

  /** A stop of the line is boarded and left exactly as the line says. */
  lemma {:induction false} MiddleStopFlags(ride: Ride, departureTime: string, arrivalTime: string, k: nat)
    requires k < |ride.line.intermediateStops| && StationsOnce(ride.line.intermediateStops)
    ensures var stop, line := LinePathStops(ride, departureTime, arrivalTime)[k + 1], Middle(ride)[k];
      && line in ride.line.intermediateStops
      && stop == Stop(line.stationId, k + 1, None, line.isBoarding, line.isDropoff)
  {
    var line := Middle(ride)[k];
    assert line in multiset(Middle(ride));
    FindLineStopFinds(ride.line.intermediateStops, line);
    assert LinePath(ride.line)[k + 1] == line.stationId;
  }

  /** A recurring departure calls at its weekday's stations, in order, at their times. */
  lemma {:induction false} ScheduleStopsCallAt(ride: Ride, dayOfWeek: int, departureTime: string, arrivalTime: string, i: nat)
    requires ride.kind == RECURRING && FindDay(ride.daySchedules, dayOfWeek).Some?
    requires i < |FindDay(ride.daySchedules, dayOfWeek).value.stationTimes|
    ensures var stops := ScheduleStops(ride, dayOfWeek, departureTime, arrivalTime);
      var times := OrderedTimes(FindDay(ride.daySchedules, dayOfWeek).value.stationTimes);
      && |stops| == |times|
      && stops[i].stationId == times[i].stationId && stops[i].orderIndex == times[i].orderIndex && stops[i].time == times[i].time
      && (i == 0 ==> stops[i].isBoarding && !stops[i].isDropoff)
      && (0 < i == |stops| - 1 ==> !stops[i].isBoarding && stops[i].isDropoff)
  {
  }

  lemma {:induction false} MiddlePositions(ride: Ride, s: LineStop, t: LineStop) returns (i: nat, j: nat)
    requires s in ride.line.intermediateStops && t in ride.line.intermediateStops
    requires s.orderIndex < t.orderIndex
    ensures i < j < |Middle(ride)| && Middle(ride)[i] == s && Middle(ride)[j] == t
  {
    var key := (x: LineStop) => x.orderIndex;
    SortByAscending(ride.line.intermediateStops, key);
    var middle := Middle(ride);
    assert s in multiset(middle) && t in multiset(middle);
    i :| 0 <= i < |middle| && middle[i] == s;
    j :| 0 <= j < |middle| && middle[j] == t;
  }
}
