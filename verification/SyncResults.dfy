/**
 * What a sync leaves, said of the columns of the tables: which rows are rewritten, dropped,
 * deleted and made, with what in each column, and which reservations follow their bus.
 */
module SyncResults {
  import opened Basics
  import opened Text
  import opened Calendar
  import opened Timetable
  import opened TimetableRules
  import opened Tables
  import opened SyncPlan
  import opened SyncRules
  import opened SyncApply
  import opened SyncProofs

  // ---- Stops ----

  ghost predicate InStopOrder(stops: seq<Stop>, ordered: seq<Stop>) {
    InKeyOrder(stops, ordered, (x: Stop) => x.orderIndex)
  }

  /** Two stop lists call alike: in order they are one list. */
  ghost predicate CallAlike(a: seq<Stop>, b: seq<Stop>) {
    exists ordered :: InStopOrder(a, ordered) && InStopOrder(b, ordered)
  }

  lemma {:induction false} CallAlikeIff(a: seq<Stop>, b: seq<Stop>)
    ensures SameStops(a, b) <==> CallAlike(a, b)
  {
    hide InStopOrder, SortedStops;
    SortedIsOrder(a);
    SortedIsOrder(b);
    if CallAlike(a, b) {
      var ordered :| InStopOrder(a, ordered) && InStopOrder(b, ordered);
      OneStopOrder(a, ordered, SortedStops(a));
      OneStopOrder(b, ordered, SortedStops(b));
    }
  }

  lemma {:induction false} SortedIsOrder(stops: seq<Stop>)
    ensures InStopOrder(stops, SortedStops(stops))
  {
    SortByStable(stops, (x: Stop) => x.orderIndex);
  }

  lemma {:induction false} OneStopOrder(stops: seq<Stop>, a: seq<Stop>, b: seq<Stop>)
    requires InStopOrder(stops, a) && InStopOrder(stops, b)
    ensures a == b
  {
    OneKeyOrder(stops, a, b, (x: Stop) => x.orderIndex);
  }

  /** Stops are replaced where the route no longer calls alike, and else left as they are. */
  ghost predicate StopsFollow(before: seq<Stop>, after: seq<Stop>, route: seq<Stop>) {
    after == if CallAlike(before, route) then before else route
  }

  // ---- One row ----

  predicate RideIsOn(ride: Ride) {
    ride.status == ACTIVE && ride.line.isActive
  }

  ghost predicate RunsOn(ride: Ride, date: string) {
    RideIsOn(ride) && exists a, b :: RunsAt(ride, date, Weekday(date), a, b)
  }

  /** A timetable row takes its ride's line, times, seats and route, and is not dropped. */
  ghost predicate FollowsTimetable(ride: Ride, before: Departure, after: Departure) {
    && RunsAt(ride, before.serviceDate, Weekday(before.serviceDate), after.departureTime, after.arrivalTime)
    && (exists route :: RouteOn(ride, Weekday(before.serviceDate), after.departureTime, after.arrivalTime, route)
          && StopsFollow(before.stops, after.stops, route))
    && after == before.(lineId := ride.lineId, departureTime := after.departureTime, arrivalTime := after.arrivalTime,
                        capacity := ride.capacity, droppedAt := None, stops := after.stops)
  }

  /** An extra runs while its ride is on; one that lost its ADDITIONAL and was dropped stays dropped. */
  predicate ExtraRuns(ride: Ride, row: Departure) {
    RideIsOn(ride) && (row.rideExceptionId.Some? || row.cancelled.Some? || row.droppedAt.None?)
  }

  /** An extra takes its ride's line and the line's whole route, at its own times and seats. */
  ghost predicate FollowsLine(ride: Ride, before: Departure, after: Departure, now: int) {
    && (exists route :: LineRoute(ride.line, before.departureTime, before.arrivalTime, route) && StopsFollow(before.stops, after.stops, route))
    && after == before.(lineId := ride.lineId, stops := after.stops,
                        droppedAt := if ExtraRuns(ride, before) then None else Some(OrElse(before.droppedAt, now)))
  }

  /** What becomes of a stored row: nothing where it has no departure. */
  ghost predicate RowBecomes(s: Store, w: Window, now: int, id: Id, after: Option<Departure>)
    requires id in s.departures && s.departures[id].rideId in s.rides
  {
    var row, ride := s.departures[id], s.rides[s.departures[id].rideId];
    if row.source == LEGACY || StrLess(row.serviceDate, w.from) || StrLess(w.to, row.serviceDate) then after == Some(row)
    else if row.source == EXTRA then after.Some? && FollowsLine(ride, row, after.value, now)
    else if RunsOn(ride, row.serviceDate) then after.Some? && FollowsTimetable(ride, row, after.value)
    else if row.cancelled.Some? || exists r :: r in s.reservations && s.reservations[r].departureId == Some(id)
    then after == Some(row.(droppedAt := Some(OrElse(row.droppedAt, now))))
    else after == None
  }

  function RowIn(departures: map<Id, Departure>, id: Id): Option<Departure> {
    if id in departures then Some(departures[id]) else None
  }

  // ---- New rows ----

  /** The SKIP of a date written first; of two written at once, the one with the smaller ID. */
  ghost predicate FirstSkip(s: Store, rideId: Id, date: string, e: Id) {
    && e in s.exceptions && s.exceptions[e].kind == SKIP && s.exceptions[e].rideId == rideId && s.exceptions[e].exceptionDate == date
    && forall f :: f in s.exceptions && s.exceptions[f].kind == SKIP && s.exceptions[f].rideId == rideId && s.exceptions[f].exceptionDate == date ==>
         f == e || s.exceptions[e].createdAt < s.exceptions[f].createdAt
         || (s.exceptions[e].createdAt == s.exceptions[f].createdAt && StrLess(e, f))
  }

  /** Cancelled by the date's first SKIP when it has one, at the moment that was written and by who last signed it. */
  ghost predicate CreditsSkip(s: Store, rideId: Id, date: string, cancelled: Option<Cancellation>) {
    match cancelled
    case None => forall e :: e in s.exceptions && s.exceptions[e].kind == SKIP ==> s.exceptions[e].rideId != rideId || s.exceptions[e].exceptionDate != date
    case Some(c) =>
      exists e ::
        && FirstSkip(s, rideId, date, e) && c.at == s.exceptions[e].createdAt
        && c.actor == (if s.exceptions[e].updatedBy.Some? then s.exceptions[e].updatedBy.value
                       else if s.exceptions[e].createdBy.Some? then s.exceptions[e].createdBy.value else "system")
  }

  /** A date of the window on which a ride runs and no timetable row is stored. */
  ghost predicate MissesRide(s: Store, w: Window, r: Id, date: string) {
    && r in s.rides && IsDate(date) && StrLe(w.from, date) && StrLe(date, w.to) && RunsOn(s.rides[r], date)
    && forall d :: d in s.departures && s.departures[d].source == SCHEDULE && s.departures[d].rideId == r ==> s.departures[d].serviceDate != date
  }

  ghost predicate IsNewSchedule(s: Store, r: Id, date: string, row: Departure) {
    r in s.rides && NewScheduleOf(s, s.rides[r], r, date, row)
  }

  ghost predicate NewScheduleOf(s: Store, ride: Ride, r: Id, date: string, row: Departure) {
    && RunsAt(ride, date, Weekday(date), row.departureTime, row.arrivalTime)
    && RouteOn(ride, Weekday(date), row.departureTime, row.arrivalTime, row.stops)
    && CreditsSkip(s, r, date, row.cancelled)
    && row == Departure(SCHEDULE, r, date, ride.lineId, row.departureTime, row.arrivalTime, ride.capacity, None, row.cancelled, None, row.stops)
  }

  /** An ADDITIONAL of the window with both its times, whose bus is not stored there. */
  ghost predicate MissesBus(s: Store, w: Window, e: Id) {
    && e in s.exceptions && s.exceptions[e].kind == ADDITIONAL && s.exceptions[e].departureTime.Some? && s.exceptions[e].arrivalTime.Some?
    && StrLe(w.from, s.exceptions[e].exceptionDate) && StrLe(s.exceptions[e].exceptionDate, w.to) && s.exceptions[e].rideId in s.rides
    && forall d :: d in s.departures && s.departures[d].source == EXTRA && s.departures[d].rideExceptionId == Some(e) ==>
         StrLess(s.departures[d].serviceDate, w.from) || StrLess(w.to, s.departures[d].serviceDate)
  }

  ghost predicate IsNewExtra(s: Store, e: Id, row: Departure, now: int) {
    e in s.exceptions && s.exceptions[e].rideId in s.rides && NewExtraOf(s.exceptions[e], s.rides[s.exceptions[e].rideId], e, row, now)
  }

  ghost predicate NewExtraOf(x: RideException, ride: Ride, e: Id, row: Departure, now: int) {
    && LineRoute(ride.line, row.departureTime, row.arrivalTime, row.stops)
    && x.departureTime == Some(row.departureTime) && x.arrivalTime == Some(row.arrivalTime)
    && row == Departure(EXTRA, x.rideId, x.exceptionDate, ride.lineId, row.departureTime, row.arrivalTime, ride.capacity,
                        if RideIsOn(ride) then None else Some(now), None, Some(e), row.stops)
  }

  ghost predicate MadeFor(s: Store, w: Window, row: Departure, now: int) {
    || (exists r, date :: MissesRide(s, w, r, date) && IsNewSchedule(s, r, date, row))
    || exists e :: MissesBus(s, w, e) && IsNewExtra(s, e, row, now)
  }

  /** Exactly what is missing is made, one row each. */
  ghost predicate MissingIsMade(s: Store, w: Window, now: int, after: map<Id, Departure>) {
    && (forall id :: id in after && id !in s.departures ==> MadeFor(s, w, after[id], now))
    && (forall r, date :: MissesRide(s, w, r, date) ==> exists id :: id in after && id !in s.departures && IsNewSchedule(s, r, date, after[id]))
    && (forall e :: MissesBus(s, w, e) ==> exists id :: id in after && id !in s.departures && IsNewExtra(s, e, after[id], now))
    && forall a, b ::
         a in after && b in after && a !in s.departures && b !in s.departures && after[a].rideId == after[b].rideId
         && after[a].serviceDate == after[b].serviceDate && after[a].rideExceptionId == after[b].rideExceptionId
         ==> a == b
  }

  // ---- Reservations ----

  /** A reservation takes its bus's new times when they changed, and nothing else of it changes. */
  ghost predicate RidersFollow(s: Store, after: Store) {
    && after.reservations.Keys == s.reservations.Keys
    && forall r :: r in s.reservations ==>
         after.reservations[r] ==
           match s.reservations[r].departureId
           case None => s.reservations[r]
           case Some(d) =>
             if d in s.departures && d in after.departures
               && (after.departures[d].departureTime != s.departures[d].departureTime || after.departures[d].arrivalTime != s.departures[d].arrivalTime)
             then s.reservations[r].(departureTime := after.departures[d].departureTime, arrivalTime := after.departures[d].arrivalTime)
             else s.reservations[r]
  }

  ghost predicate FullSyncLeaves(s: Store, w: Window, now: int, after: Store) {
    && after.rides == s.rides && after.exceptions == s.exceptions
    && (forall id :: id in s.departures && s.departures[id].rideId in s.rides ==> RowBecomes(s, w, now, id, RowIn(after.departures, id)))
    && MissingIsMade(s, w, now, after.departures)
    && RidersFollow(s, after)
  }

  /** The nightly insert makes what is missing and touches nothing stored. */
  ghost predicate InsertLeaves(s: Store, w: Window, now: int, after: Store) {
    && after == s.(departures := after.departures)
    && (forall id :: id in s.departures ==> id in after.departures && after.departures[id] == s.departures[id])
    && MissingIsMade(s, w, now, after.departures)
  }

  // ---- The rows a sync leaves ----

  lemma {:induction false} RunsOnIff(ride: Ride, date: string)
    ensures RunsOn(ride, date) <==> PlannedOn(ride, date).Some?
  {
    hide RunsAt, PlannedOn;
    PlannedMeans(ride, date);
  }

  /** An update, or none where nothing differs, leaves the row at its target. */
  lemma {:induction false} RowAtTarget(s: Store, id: Id, p: Planned, dropped: bool, now: int)
    requires id in s.departures && Target(s.rides, id, s.departures[id]) == Some((p, dropped))
    ensures var row := s.departures[id];
      (match UpdateWanted(s, id) case None => row case Some(u) => WrittenRow(row, u, now)) ==
        row.(lineId := p.lineId, departureTime := p.departureTime, arrivalTime := p.arrivalTime, capacity := p.capacity,
             droppedAt := if dropped then Some(OrElse(row.droppedAt, now)) else None,
             stops := if SameStops(row.stops, p.stops) then row.stops else p.stops)
  {
    hide Target, SameStops, ChangedFields, RidersOf;
    FieldsSay(s.departures[id], p, dropped);
  }

  /** Each field is listed exactly when it differs. */
  lemma {:induction false} FieldsSay(row: Departure, p: Planned, dropped: bool)
    ensures var fields := ChangedFields(row, p, dropped);
      && (LineIdField in fields <==> row.lineId != p.lineId)
      && (DepartureTimeField in fields <==> row.departureTime != p.departureTime)
      && (ArrivalTimeField in fields <==> row.arrivalTime != p.arrivalTime)
      && (CapacityField in fields <==> row.capacity != p.capacity)
      && (DroppedField in fields <==> row.droppedAt.Some? != dropped)
      && (StopsField in fields <==> !SameStops(row.stops, p.stops))
  {
    hide SameStops;
  }

  lemma {:induction false} ScheduleRowBecomes(s: Store, id: Id, now: int)
    requires id in s.departures && s.departures[id].source == SCHEDULE && s.departures[id].rideId in s.rides
    requires PlannedOn(s.rides[s.departures[id].rideId], s.departures[id].serviceDate).Some?
    ensures var row, ride := s.departures[id], s.rides[s.departures[id].rideId];
      FollowsTimetable(ride, row, match UpdateWanted(s, id) case None => row case Some(u) => WrittenRow(row, u, now))
  {
    hide RunsAt, RouteOn, PlannedOn, Weekday, SameStops, CallAlike, UpdateWanted, WrittenRow;
    var row, ride := s.departures[id], s.rides[s.departures[id].rideId];
    var p := PlannedOn(ride, row.serviceDate).value;
    PlannedMeans(ride, row.serviceDate);
    CallAlikeIff(row.stops, p.stops);
    RowAtTarget(s, id, p, false, now);
    assert StopsFollow(row.stops, if SameStops(row.stops, p.stops) then row.stops else p.stops, p.stops);
  }

  lemma {:induction false} ExtraRowBecomes(s: Store, id: Id, now: int)
    requires id in s.departures && s.departures[id].source == EXTRA && s.departures[id].rideId in s.rides
    ensures var row, ride := s.departures[id], s.rides[s.departures[id].rideId];
      FollowsLine(ride, row, match UpdateWanted(s, id) case None => row case Some(u) => WrittenRow(row, u, now), now)
  {
    hide LineRoute, LinePathStops, SameStops, CallAlike, UpdateWanted, WrittenRow;
    var row, ride := s.departures[id], s.rides[s.departures[id].rideId];
    var route := LinePathStops(ride, row.departureTime, row.arrivalTime);
    LineRouteIs(ride, row.departureTime, row.arrivalTime);
    CallAlikeIff(row.stops, route);
    var (p, dropped) := ExtraTarget(ride, id, row);
    RowAtTarget(s, id, p, dropped, now);
    assert StopsFollow(row.stops, if SameStops(row.stops, route) then row.stops else route, route);
  }

  lemma {:induction false} RowsBecome(s: Store, w: Window, now: int, after: map<Id, Departure>, id: Id)
    requires RowsSynced(s, w, now, after) && id in s.departures && s.departures[id].rideId in s.rides
    ensures RowBecomes(s, w, now, id, RowIn(after, id))
  {
    hide FollowsLine, FollowsTimetable, PlannedOn, RunsOn, StrLess, UpdateWanted, WrittenRow, PlanExtra;
    var row, ride := s.departures[id], s.rides[s.departures[id].rideId];
    RunsOnIff(ride, row.serviceDate);
    if row.source == EXTRA {
      ExtraRowBecomes(s, id, now);
    } else if row.source == SCHEDULE && RunsOn(ride, row.serviceDate) {
      ScheduleRowBecomes(s, id, now);
    } else {
      NoTargetNoUpdate(s, id);
      assert Referenced(s.reservations, id) <==> exists r :: r in s.reservations && s.reservations[r].departureId == Some(id) by {
        if Referenced(s.reservations, id) {
          var r :| r in RidersOf(s.reservations, id);
        }
        if r :| r in s.reservations && s.reservations[r].departureId == Some(id) {
          assert r in RidersOf(s.reservations, id);
        }
      }
    }
  }

  lemma {:induction false} NoTargetNoUpdate(s: Store, id: Id)
    requires id in s.departures
    ensures UpdateWanted(s, id).Some? ==> Produced(s.rides, id, s.departures[id])
  {
  }

  // ---- The rows a sync makes ----

  /** The SKIP the planner finds stands before every other of its date. */
  lemma {:induction false} SkipForFirst(records: seq<ExceptionRecord>, r: Id, d: string) returns (i: nat)
    requires SkipFor(records, r, d).Some?
    ensures i < |records| && records[i] == SkipFor(records, r, d).value && IsSkipOf(records[i].row, r, d)
    ensures forall j :: 0 <= j < i ==> !IsSkipOf(records[j].row, r, d)
  {
    if IsSkipOf(records[0].row, r, d) {
      i := 0;
    } else {
      var k := SkipForFirst(records[1..], r, d);
      i := k + 1;
      forall j | 0 <= j < i ensures !IsSkipOf(records[j].row, r, d) {
        assert j > 0 ==> records[j] == records[1..][j - 1];
      }
    }
  }

  lemma {:induction false} SkipForNone(records: seq<ExceptionRecord>, r: Id, d: string)
    requires SkipFor(records, r, d).None?
    ensures forall x :: x in records ==> !IsSkipOf(x.row, r, d)
  {
    if |records| > 0 {
      assert records == [records[0]] + records[1..];
      SkipForNone(records[1..], r, d);
    }
  }

  lemma {:induction false} SkipIsCredited(records: seq<ExceptionRecord>, s: Store, w: Window, r: Id, d: string)
    requires IsRecordLoad(records, s, w) && InWindow(w, d)
    ensures CreditsSkip(s, r, d, SkipCancellation(SkipFor(records, r, d)))
  {
    hide InWindow, StrLess;
    if SkipFor(records, r, d).None? {
      SkipForNone(records, r, d);
      assert forall e :: e in s.exceptions && s.exceptions[e].exceptionDate == d ==> ExceptionRecord(e, s.exceptions[e]) in records;
    } else {
      var i := SkipForFirst(records, r, d);
      var e := records[i].id;
      assert records[i] in records;
      forall f | f in s.exceptions && s.exceptions[f].kind == SKIP && s.exceptions[f].rideId == r && s.exceptions[f].exceptionDate == d && f != e
        ensures LoadedBefore(records[i], ExceptionRecord(f, s.exceptions[f]))
      {
        var x := ExceptionRecord(f, s.exceptions[f]);
        assert x in records;
        var j :| 0 <= j < |records| && records[j] == x;
      }
      assert FirstSkip(s, r, d, e);
    }
  }

  lemma {:induction false} MissesRideIff(s: Store, w: Window, r: Id, d: string)
    ensures MissesRide(s, w, r, d) <==> TimetableProduces(s.rides, w, r, d) && !HasSchedule(s, r, d)
  {
    hide RunsOn, PlannedOn, StrLess, IsDate;
    if r in s.rides {
      RunsOnIff(s.rides[r], d);
    }
  }

  lemma {:induction false} MissesBusIff(s: Store, w: Window, e: Id)
    ensures MissesBus(s, w, e) <==> AddsBus(s, w, e) && !HasExtra(s, w, e)
  {
    hide StrLess;
  }

  lemma {:induction false} NewScheduleIs(s: Store, w: Window, records: seq<ExceptionRecord>, r: Id, d: string, now: int)
    requires RidesNamed(s.rides) && IsRecordLoad(records, s, w) && CreateFor(s, w, records, ScheduleKey(r, d)).Some?
    ensures MissesRide(s, w, r, d) && IsNewSchedule(s, r, d, NewRow(CreateFor(s, w, records, ScheduleKey(r, d)).value, now))
  {
    hide RunsAt, RouteOn, PlannedOn, IsRecordLoad, InWindow, HasSchedule, MissesRide, CreditsSkip, SkipFor, SkipCancellation, IsDate;
    MissesRideIff(s, w, r, d);
    PlannedMeans(s.rides[r], d);
    SkipIsCredited(records, s, w, r, d);
    SkipWhenNone(PlannedOn(s.rides[r], d).value, records);
  }

  lemma {:induction false} NewExtraIs(s: Store, w: Window, records: seq<ExceptionRecord>, e: Id, now: int)
    requires RidesNamed(s.rides) && CreateFor(s, w, records, ExtraKey(e)).Some?
    ensures MissesBus(s, w, e) && IsNewExtra(s, e, NewRow(CreateFor(s, w, records, ExtraKey(e)).value, now), now)
  {
    hide LineRoute, LinePathStops, InWindow, HasExtra, MissesBus;
    MissesBusIff(s, w, e);
    var x := s.exceptions[e];
    LineRouteIs(s.rides[x.rideId], x.departureTime.value, x.arrivalTime.value);
  }

  lemma {:induction false} CreatedIsMade(s: Store, w: Window, records: seq<ExceptionRecord>, key: PlanKey, now: int)
    requires RidesNamed(s.rides) && IsRecordLoad(records, s, w) && CreateFor(s, w, records, key).Some?
    ensures var row := NewRow(CreateFor(s, w, records, key).value, now);
      && MadeFor(s, w, row, now)
      && match key
         case ScheduleKey(r, d) => row.rideId == r && row.serviceDate == d && row.rideExceptionId == None
         case ExtraKey(e) => row.rideExceptionId == Some(e)
  {
    hide MissesRide, MissesBus, CreateFor, NewRow, RunsAt, RouteOn, LineRoute, CreditsSkip, IsRecordLoad;
    match key
    case ScheduleKey(r, d) => NewScheduleIs(s, w, records, r, d, now);
    case ExtraKey(e) => NewExtraIs(s, w, records, e, now);
  }

  lemma {:induction false} CreatedRowsAreMade(s: Store, w: Window, records: seq<ExceptionRecord>, newId: PlanKey -> Id, now: int, after: map<Id, Departure>)
    requires RidesNamed(s.rides) && IsRecordLoad(records, s, w) && FreshSupply(newId, s.departures) && RowsCreated(s, w, records, newId, now, after)
    ensures MissingIsMade(s, w, now, after)
  {
    hide MissesRide, MissesBus, CreateFor, NewRow, IsNewSchedule, IsNewExtra, IsRecordLoad, MadeFor;
    forall id | id in after && id !in s.departures ensures MadeFor(s, w, after[id], now) {
      var key := CreatedBy(s, w, records, newId, now, after, id);
      CreatedIsMade(s, w, records, key, now);
    }
    forall r, d | MissesRide(s, w, r, d) ensures exists id :: id in after && id !in s.departures && IsNewSchedule(s, r, d, after[id]) {
      MissesRideIff(s, w, r, d);
      assert CreateFor(s, w, records, ScheduleKey(r, d)).Some? by { CreatedWhenMissing(s, w, records, r, d); }
      NewScheduleIs(s, w, records, r, d, now);
      assert newId(ScheduleKey(r, d)) in after;
    }
    forall e | MissesBus(s, w, e) ensures exists id :: id in after && id !in s.departures && IsNewExtra(s, e, after[id], now) {
      MissesBusIff(s, w, e);
      assert CreateFor(s, w, records, ExtraKey(e)).Some? by { BusCreatedWhenMissing(s, w, records, e); }
      NewExtraIs(s, w, records, e, now);
      assert newId(ExtraKey(e)) in after;
    }
    forall a, b | a in after && b in after && a !in s.departures && b !in s.departures && after[a].rideId == after[b].rideId
      && after[a].serviceDate == after[b].serviceDate && after[a].rideExceptionId == after[b].rideExceptionId
      ensures a == b
    {
      var j := CreatedBy(s, w, records, newId, now, after, a);
      var k := CreatedBy(s, w, records, newId, now, after, b);
      CreatedIsMade(s, w, records, j, now);
      CreatedIsMade(s, w, records, k, now);
    }
  }

  lemma {:induction false} CreatedWhenMissing(s: Store, w: Window, records: seq<ExceptionRecord>, r: Id, d: string)
    requires TimetableProduces(s.rides, w, r, d) && !HasSchedule(s, r, d)
    ensures CreateFor(s, w, records, ScheduleKey(r, d)).Some?
  {
  }

  lemma {:induction false} BusCreatedWhenMissing(s: Store, w: Window, records: seq<ExceptionRecord>, e: Id)
    requires AddsBus(s, w, e) && !HasExtra(s, w, e)
    ensures CreateFor(s, w, records, ExtraKey(e)).Some?
  {
  }

  // ---- The reservations ----

  lemma {:induction false} RetimedWhenMoved(s: Store, id: Id, p: Planned, dropped: bool)
    requires id in s.departures && Target(s.rides, id, s.departures[id]) == Some((p, dropped))
    ensures var row := s.departures[id];
      (UpdateWanted(s, id).Some? && Retimed(UpdateWanted(s, id).value)) <==> row.departureTime != p.departureTime || row.arrivalTime != p.arrivalTime
    ensures UpdateWanted(s, id).Some? ==> UpdateWanted(s, id).value.planned == p
  {
    hide Target, ChangedFields, RidersOf;
    FieldsSay(s.departures[id], p, dropped);
  }

  lemma {:induction false} RiderTakes(s: Store, w: Window, id: Id, now: int, r: Reservation)
    requires id in s.departures && r.departureId == Some(id)
    ensures var update := if Loaded(w, s.departures[id]) then UpdateWanted(s, id) else None;
      var row := SyncedRow(s, w, id, now);
      (match update case None => r case Some(u) => if Retimed(u) then WithTimes(r, u.planned.departureTime, u.planned.arrivalTime) else r) ==
        if row.departureTime != s.departures[id].departureTime || row.arrivalTime != s.departures[id].arrivalTime
        then r.(departureTime := row.departureTime, arrivalTime := row.arrivalTime) else r
  {
    hide Target, SameStops, Loaded, UpdateWanted, WrittenRow, Retimed;
    NoTargetNoUpdate(s, id);
    if Target(s.rides, id, s.departures[id]).Some? {
      var (p, dropped) := Target(s.rides, id, s.departures[id]).value;
      RowAtTarget(s, id, p, dropped, now);
      RetimedWhenMoved(s, id, p, dropped);
    }
  }

  lemma {:induction false} SyncRidersFollow(s: Store, w: Window, q: Query, newId: PlanKey -> Id, now: int)
    requires IsQuery(q, s, w) && Valid(s) && Walkable(w) && FreshSupply(newId, s.departures)
    ensures RidersFollow(s, ApplySync(s, PlanOf(q, w), newId, now, Full))
  {
    hide PlanOf, IsQuery, Valid, Walkable, FreshSupply, UpdateWanted, Loaded, SyncedRow, InsertPlanned, RowsCreated, Deleted, Retimed;
    FullSyncRows(s, w, q, newId, now);
    PlanUpdatesDistinct(q, s, w);
    var updates := PlanOf(q, w).updates;
    RetimeIsPointwise(s.reservations, updates);
    var t := ApplySync(s, PlanOf(q, w), newId, now, Full);
    assert t.reservations == RetimedRows(s.reservations, updates);
    forall r | r in s.reservations && s.reservations[r].departureId.Some?
      ensures var d := s.reservations[r].departureId.value;
        t.reservations[r] ==
          if d in s.departures && d in t.departures
            && (t.departures[d].departureTime != s.departures[d].departureTime || t.departures[d].arrivalTime != s.departures[d].arrivalTime)
          then s.reservations[r].(departureTime := t.departures[d].departureTime, arrivalTime := t.departures[d].arrivalTime)
          else s.reservations[r]
    {
      var d := s.reservations[r].departureId.value;
      UpdateOfPlan(s, w, q, d);
      if d in s.departures {
        RiderTakes(s, w, d, now, s.reservations[r]);
        DeletedHasNoRiders(s, w, r);
      }
    }
  }

  // ---- What a sync leaves ----

  /** Every table after a full sync, row by row and column by column. */
  lemma {:induction false} FullSyncMeans(s: Store, w: Window, q: Query, newId: PlanKey -> Id, now: int)
    requires IsQuery(q, s, w) && Valid(s) && Walkable(w) && FreshSupply(newId, s.departures)
    ensures FullSyncLeaves(s, w, now, ApplySync(s, PlanOf(q, w), newId, now, Full))
  {
    hide PlanOf, Valid, Walkable, FreshSupply, InsertPlanned, RowsCreated, RowsSynced, RowBecomes, MissingIsMade, RidersFollow, IsRecordLoad, IsRideLoad, IsStoredLoad;
    FullSyncRows(s, w, q, newId, now);
    var t := ApplySync(s, PlanOf(q, w), newId, now, Full);
    SyncRidersFollow(s, w, q, newId, now);
    RidesAreNamed(s);
    CreatedRowsAreMade(s, w, q.records, newId, now, t.departures);
    forall id | id in s.departures && s.departures[id].rideId in s.rides ensures RowBecomes(s, w, now, id, RowIn(t.departures, id)) {
      RowsBecome(s, w, now, t.departures, id);
    }
  }

  lemma {:induction false} RidesAreNamed(s: Store)
    requires Valid(s)
    ensures RidesNamed(s.rides)
  {
  }

  /** And after the nightly insert. */
  lemma {:induction false} InsertMeans(s: Store, w: Window, q: Query, newId: PlanKey -> Id, now: int)
    requires IsQuery(q, s, w) && Valid(s) && Walkable(w) && FreshSupply(newId, s.departures)
    ensures InsertLeaves(s, w, now, ApplySync(s, PlanOf(q, w), newId, now, InsertOnly))
  {
    hide PlanOf, Valid, Walkable, FreshSupply, InsertPlanned, RowsCreated, MissingIsMade, IsRecordLoad, IsRideLoad, IsStoredLoad;
    CreatedRows(s, w, q, newId, now);
    RidesAreNamed(s);
    CreatedRowsAreMade(s, w, q.records, newId, now, ApplySync(s, PlanOf(q, w), newId, now, InsertOnly).departures);
  }

  // ---- The difference of any two lists ----

  predicate OfOneDay(a: Departure, b: Departure) {
    a.rideId == b.rideId && a.serviceDate == b.serviceDate
  }

  /** The first row stored for its ride and date, extras apart. */
  predicate StandsFor(stored: seq<Stored>, k: nat) {
    k < |stored| && stored[k].row.source != EXTRA
    && forall j :: 0 <= j < k && stored[j].row.source != EXTRA ==> !OfOneDay(stored[j].row, stored[k].row)
  }

  /** The row a planned departure takes: the first stored for its key, by the first planned under it. */
  predicate Takes(planned: seq<Planned>, stored: seq<Stored>, i: nat, k: nat) {
    && i < |planned| && StandsFor(stored, k) && planned[i].key == ScheduleKey(stored[k].row.rideId, stored[k].row.serviceDate)
    && forall j :: 0 <= j < i ==> planned[j].key != planned[i].key
  }

  /** A row that no planned departure takes. */
  ghost predicate IsUntaken(planned: seq<Planned>, stored: seq<Stored>, x: Stored) {
    exists k: nat :: k < |stored| && stored[k] == x && x.row.source != EXTRA && forall i: nat :: !Takes(planned, stored, i, k)
  }

  /** A planned departure that takes no row. */
  ghost predicate IsLeft(planned: seq<Planned>, stored: seq<Stored>, i: nat) {
    i < |planned| && forall k: nat :: !Takes(planned, stored, i, k)
  }

  lemma {:induction false} MatchIsFirst(stored: seq<Stored>, key: PlanKey)
    ensures MatchStored(stored, key).Some? ==>
      exists k: nat :: StandsFor(stored, k) && stored[k] == MatchStored(stored, key).value && key == ScheduleKey(stored[k].row.rideId, stored[k].row.serviceDate)
    ensures MatchStored(stored, key).None? ==> forall k :: 0 <= k < |stored| && stored[k].row.source != EXTRA ==> KeyOf(stored[k].row) != key
  {
    if |stored| > 0 && !(stored[0].row.source != EXTRA && KeyOf(stored[0].row) == key) {
      var rest := stored[1..];
      MatchIsFirst(rest, key);
      assert forall j :: 0 < j < |stored| ==> stored[j] == rest[j - 1];
      if MatchStored(stored, key).Some? {
        var k: nat :| StandsFor(rest, k) && rest[k] == MatchStored(rest, key).value && key == ScheduleKey(rest[k].row.rideId, rest[k].row.serviceDate);
        assert StandsFor(stored, k + 1) && stored[k + 1] == rest[k];
      }
    }
  }

  lemma {:induction false} StandsForIff(stored: seq<Stored>, k: nat)
    requires k < |stored|
    ensures FirstStored(stored, k) <==> StandsFor(stored, k)
  {
    hide MatchStored;
    var front := stored[..k];
    MatchIsFirst(front, KeyOf(stored[k].row));
    assert forall j :: 0 <= j < k ==> front[j] == stored[j];
    if MatchStored(front, KeyOf(stored[k].row)).Some? {
      var j: nat :| StandsFor(front, j) && front[j] == MatchStored(front, KeyOf(stored[k].row)).value
        && KeyOf(stored[k].row) == ScheduleKey(front[j].row.rideId, front[j].row.serviceDate);
      assert OfOneDay(stored[j].row, stored[k].row);
    }
  }

  lemma {:induction false} FirstUnder(planned: seq<Planned>, key: PlanKey) returns (i: nat)
    requires PlannedKey(planned, key)
    ensures i < |planned| && planned[i].key == key && forall j :: 0 <= j < i ==> planned[j].key != key
  {
    i := 0;
    while planned[i].key != key
      invariant i < |planned| && forall j :: 0 <= j < i ==> planned[j].key != key
      decreases |planned| - i
    {
      i := i + 1;
    }
  }

  lemma {:induction false} GoneIff(planned: seq<Planned>, stored: seq<Stored>, x: Stored)
    ensures x in Gone(stored, planned) <==> IsUntaken(planned, stored, x)
  {
    hide FirstStored, PlannedKey, OfOneDay;
    CollectMembers(|stored|, UnmatchedAt(stored));
    CollectMembers(|stored|, LeftoverAt(stored, planned));
    forall k: nat | k < |stored| ensures FirstStored(stored, k) <==> StandsFor(stored, k) {
      StandsForIff(stored, k);
    }
    forall k: nat | k < |stored| && FirstStored(stored, k)
      ensures PlannedKey(planned, KeyOf(stored[k].row)) <==> exists i: nat :: Takes(planned, stored, i, k)
    {
      TakenIff(planned, stored, k);
    }
    if x in Gone(stored, planned) {
      var k: nat :| k < |stored| && (UnmatchedAt(stored)(k) == Some(x) || LeftoverAt(stored, planned)(k) == Some(x));
      assert stored[k] == x && x.row.source != EXTRA;
      assert forall i: nat :: !Takes(planned, stored, i, k);
    }
    if IsUntaken(planned, stored, x) {
      var k: nat :| k < |stored| && stored[k] == x && x.row.source != EXTRA && forall i: nat :: !Takes(planned, stored, i, k);
      assert UnmatchedAt(stored)(k) == Some(x) || LeftoverAt(stored, planned)(k) == Some(x);
    }
  }

  lemma {:induction false} TakenIff(planned: seq<Planned>, stored: seq<Stored>, k: nat)
    requires k < |stored| && StandsFor(stored, k)
    ensures PlannedKey(planned, KeyOf(stored[k].row)) <==> exists i: nat :: Takes(planned, stored, i, k)
  {
    hide StandsFor;
    if PlannedKey(planned, KeyOf(stored[k].row)) {
      var i := FirstUnder(planned, KeyOf(stored[k].row));
      assert Takes(planned, stored, i, k);
    }
  }

  lemma {:induction false} MatchAtIs(planned: seq<Planned>, stored: seq<Stored>, i: nat)
    requires i < |planned|
    ensures MatchAt(planned, stored, i).None? <==> forall k: nat :: !Takes(planned, stored, i, k)
    ensures forall k: nat :: Takes(planned, stored, i, k) ==> k < |stored| && MatchAt(planned, stored, i) == Some(stored[k])
  {
    hide MatchStored;
    MatchIsFirst(stored, planned[i].key);
    forall k: nat | Takes(planned, stored, i, k) ensures MatchAt(planned, stored, i) == Some(stored[k]) {
      if MatchStored(stored, planned[i].key).Some? {
        var m: nat :| StandsFor(stored, m) && stored[m] == MatchStored(stored, planned[i].key).value
          && planned[i].key == ScheduleKey(stored[m].row.rideId, stored[m].row.serviceDate);
        assert m == k;
      }
    }
    if FirstPlanned(planned, i) && MatchStored(stored, planned[i].key).Some? {
      var m: nat :| StandsFor(stored, m) && stored[m] == MatchStored(stored, planned[i].key).value
        && planned[i].key == ScheduleKey(stored[m].row.rideId, stored[m].row.serviceDate);
      assert Takes(planned, stored, i, m);
    }
  }

  /** Made from a planned departure that takes no row, credited by its SKIP. */
  ghost predicate IsMadeFrom(planned: seq<Planned>, stored: seq<Stored>, records: seq<ExceptionRecord>, c: Planned) {
    exists i: nat :: IsLeft(planned, stored, i) && c == CreateWithSkip(planned[i], records)
  }

  lemma {:induction false} MadeFromIff(planned: seq<Planned>, stored: seq<Stored>, records: seq<ExceptionRecord>, c: Planned)
    ensures c in Collect(|planned|, ScheduleCreateAt(planned, stored, records)) <==> IsMadeFrom(planned, stored, records, c)
  {
    hide Takes, CreateWithSkip, MatchAt;
    var f := ScheduleCreateAt(planned, stored, records);
    CollectMembers(|planned|, f);
    if i: nat :| i < |planned| && f(i) == Some(c) {
      MatchAtIs(planned, stored, i);
      assert IsLeft(planned, stored, i);
    }
    if IsMadeFrom(planned, stored, records, c) {
      var i: nat :| IsLeft(planned, stored, i) && c == CreateWithSkip(planned[i], records);
      MatchAtIs(planned, stored, i);
      assert f(i) == Some(c);
    }
  }

  lemma {:induction false} BusesApart(records: seq<ExceptionRecord>, stored: seq<Stored>, rides: seq<Ride>, c: Planned)
    ensures c in Collect(|records|, ExtraCreateAt(records, stored, rides)) ==> c.key.ExtraKey?
  {
    hide Linked, RideById;
    CollectMembers(|records|, ExtraCreateAt(records, stored, rides));
  }

  lemma {:induction false} DiffCreates(planned: seq<Planned>, stored: seq<Stored>, rides: seq<Ride>, records: seq<ExceptionRecord>, c: Planned)
    ensures IsMadeFrom(planned, stored, records, c) ==> c in Diff(planned, stored, rides, records).creates
    ensures c in Diff(planned, stored, rides, records).creates && c.key.ScheduleKey? ==> IsMadeFrom(planned, stored, records, c)
  {
    hide IsMadeFrom, ScheduleCreateAt, ExtraCreateAt, Gone;
    MadeFromIff(planned, stored, records, c);
    BusesApart(records, stored, rides, c);
  }

  /** The update of a row taken, where it differs. */
  ghost predicate IsRewritten(planned: seq<Planned>, stored: seq<Stored>, u: Update) {
    exists i: nat, k: nat :: Takes(planned, stored, i, k) && DepartureUpdate(stored[k], planned[i], false) == Some(u)
  }

  lemma {:induction false} RewrittenAt(planned: seq<Planned>, stored: seq<Stored>, i: nat, u: Update)
    requires i < |planned| && ScheduleUpdateAt(planned, stored)(i) == Some(u)
    ensures IsRewritten(planned, stored, u) && u.stored.row.source != EXTRA
  {
    hide ChangedFields, MatchAt;
    MatchAtIs(planned, stored, i);
  }

  lemma {:induction false} RewrittenIff(planned: seq<Planned>, stored: seq<Stored>, u: Update)
    ensures u in Collect(|planned|, ScheduleUpdateAt(planned, stored)) <==> IsRewritten(planned, stored, u)
  {
    hide DepartureUpdate, MatchAt, Takes;
    var f := ScheduleUpdateAt(planned, stored);
    CollectMembers(|planned|, f);
    if i: nat :| i < |planned| && f(i) == Some(u) {
      RewrittenAt(planned, stored, i, u);
    }
    forall i: nat, k: nat | Takes(planned, stored, i, k) ensures i < |planned| && k < |stored| {
      TakesInRange(planned, stored, i, k);
    }
    if IsRewritten(planned, stored, u) {
      var i: nat, k: nat :| Takes(planned, stored, i, k) && DepartureUpdate(stored[k], planned[i], false) == Some(u);
      MatchAtIs(planned, stored, i);
      assert f(i) == Some(u);
    }
  }

  lemma {:induction false} ExtrasApart(stored: seq<Stored>, rides: seq<Ride>, u: Update)
    ensures u in Collect(|stored|, ExtraUpdateAt(stored, rides)) ==> u.stored.row.source == EXTRA
  {
    hide ChangedFields, RideById, ExtraTarget;
    CollectMembers(|stored|, ExtraUpdateAt(stored, rides));
  }

  lemma {:induction false} DiffUpdates(planned: seq<Planned>, stored: seq<Stored>, rides: seq<Ride>, records: seq<ExceptionRecord>, u: Update)
    ensures IsRewritten(planned, stored, u) <==> u in Diff(planned, stored, rides, records).updates && u.stored.row.source != EXTRA
  {
    hide IsRewritten, ScheduleUpdateAt, ExtraUpdateAt, Gone;
    RewrittenIff(planned, stored, u);
    ExtrasApart(stored, rides, u);
    if u in Collect(|planned|, ScheduleUpdateAt(planned, stored)) {
      var i := CollectSource(|planned|, ScheduleUpdateAt(planned, stored), u);
      RewrittenAt(planned, stored, i, u);
    }
  }

  lemma {:induction false} TakesInRange(planned: seq<Planned>, stored: seq<Stored>, i: nat, k: nat)
    requires Takes(planned, stored, i, k)
    ensures i < |planned| && k < |stored|
  {
  }

  /**
   * The difference of any two lists, repeated keys included: exactly the planned departures that
   * take no stored row are made, the rows taken are rewritten where they differ, and a row that
   * is not taken goes, or is marked once where somebody is on it or it is cancelled.
   */
  lemma {:induction false} DiffMeans(planned: seq<Planned>, stored: seq<Stored>, rides: seq<Ride>, records: seq<ExceptionRecord>)
    ensures var plan := Diff(planned, stored, rides, records);
      && (forall c :: c in plan.creates && c.key.ScheduleKey? ==> IsMadeFrom(planned, stored, records, c))
      && (forall c :: IsMadeFrom(planned, stored, records, c) ==> c in plan.creates)
      && (forall u :: u in plan.updates && u.stored.row.source != EXTRA <==> IsRewritten(planned, stored, u))
      && (forall x :: x in plan.drops <==> IsUntaken(planned, stored, x) && x.row.droppedAt == None && (x.referenceCount > 0 || x.row.cancelled != None))
      && (forall x :: x in plan.deletes <==> IsUntaken(planned, stored, x) && x.referenceCount == 0 && x.row.cancelled == None)
  {
    hide IsMadeFrom, IsRewritten, ScheduleCreateAt, ExtraCreateAt, ScheduleUpdateAt, ExtraUpdateAt, Gone, IsUntaken;
    forall c
      ensures IsMadeFrom(planned, stored, records, c) ==> c in Diff(planned, stored, rides, records).creates
      ensures c in Diff(planned, stored, rides, records).creates && c.key.ScheduleKey? ==> IsMadeFrom(planned, stored, records, c)
    {
      DiffCreates(planned, stored, rides, records, c);
    }
    forall u ensures IsRewritten(planned, stored, u) <==> u in Diff(planned, stored, rides, records).updates && u.stored.row.source != EXTRA {
      DiffUpdates(planned, stored, rides, records, u);
    }
    DropMembers(Gone(stored, planned));
    forall x ensures x in Gone(stored, planned) <==> IsUntaken(planned, stored, x) {
      GoneIff(planned, stored, x);
    }
  }
}
