/**
 * What an operator's decision leaves, said of the columns of the tables: the row it is about,
 * the exception rows, who is credited, and that nothing else changes.
 */
module DecisionResults {
  import opened Basics
  import opened Text
  import opened Calendar
  import opened Timetable
  import opened TimetableRules
  import opened Tables
  import opened SyncPlan
  import opened SyncRules
  import opened SyncResults
  import opened Decisions

  // ---- When an operation is refused ----

  ghost predicate Booked(s: Store, id: Id) {
    exists r :: r in s.reservations && s.reservations[r].departureId == Some(id)
  }

  /** The operation applies to a departure in this state. */
  ghost predicate Applies(s: Store, id: Id, operation: Operation)
    requires id in s.departures
  {
    var row := s.departures[id];
    && row.source != LEGACY
    && match operation
       case CANCEL => row.cancelled.None?
       case RESTORE => row.cancelled.Some? && row.droppedAt.None?
       case EDIT_EXTRA => row.source == EXTRA
       case DELETE_EXTRA => row.source == EXTRA && !Booked(s, id)
  }

  /** The one reason an operation is refused for. */
  ghost predicate RefusedFor(s: Store, w: Window, id: Id, operation: Operation, reason: Refusal) {
    if id !in s.departures then reason == NOT_FOUND
    else
      var row := s.departures[id];
      match reason
      case DEPARTURE_LEGACY => row.source == LEGACY
      case DEPARTURE_ALREADY_CANCELLED => row.source != LEGACY && operation == CANCEL && row.cancelled.Some?
      case DEPARTURE_NOT_CANCELLED => row.source != LEGACY && operation == RESTORE && row.cancelled.None?
      case DEPARTURE_DROPPED => row.source != LEGACY && operation == RESTORE && row.cancelled.Some? && row.droppedAt.Some?
      case DEPARTURE_NOT_EXTRA => row.source == SCHEDULE && (operation == EDIT_EXTRA || operation == DELETE_EXTRA)
      case DEPARTURE_HAS_RESERVATIONS => row.source == EXTRA && operation == DELETE_EXTRA && Booked(s, id)
      case DATE_OUT_OF_WINDOW => Applies(s, id, operation) && (StrLess(row.serviceDate, w.from) || StrLess(w.to, row.serviceDate))
      case _ => false
  }

  lemma {:induction false} BookedIff(s: Store, id: Id)
    ensures Booked(s, id) <==> Referenced(s.reservations, id)
  {
    if Referenced(s.reservations, id) {
      var r :| r in RidersOf(s.reservations, id);
    }
    if r :| r in s.reservations && s.reservations[r].departureId == Some(id) {
      assert r in RidersOf(s.reservations, id);
    }
  }

  /** An operation goes ahead exactly where it applies and its date is in the window, and is otherwise refused for its one reason. */
  lemma {:induction false} PreparedIff(s: Store, w: Window, id: Id, operation: Operation)
    ensures forall reason :: Prepared(s, w, id, operation) == Err(reason) <==> RefusedFor(s, w, id, operation, reason)
    ensures forall row :: Prepared(s, w, id, operation) == Ok(row) <==>
      id in s.departures && row == s.departures[id] && Applies(s, id, operation) && StrLe(w.from, row.serviceDate) && StrLe(row.serviceDate, w.to)
  {
    hide StrLess, Booked, Referenced;
    BookedIff(s, id);
  }

  // ---- Creating an extra ----

  ghost predicate IsAdditional(x: RideException, rideId: Id, date: string, departureTime: string, arrivalTime: string, actor: Actor) {
    x == RideException(rideId, date, ADDITIONAL, Some(departureTime), Some(arrivalTime), actor.now, Some(actor.id), Some(actor.id))
  }

  /** The extra as asked for, on its ride's line, and its ADDITIONAL. */
  ghost predicate ExtraCreated(s: Store, t: Store, rideId: Id, date: string, departureTime: string, arrivalTime: string, capacity: Option<int>,
                               actor: Actor, departureId: Id)
    requires rideId in s.rides
  {
    var ride := s.rides[rideId];
    && t == s.(departures := t.departures, exceptions := t.exceptions)
    && actor.exceptionId in t.exceptions && t.exceptions == s.exceptions[actor.exceptionId := t.exceptions[actor.exceptionId]]
    && IsAdditional(t.exceptions[actor.exceptionId], rideId, date, departureTime, arrivalTime, actor)
    && departureId in t.departures && t.departures == s.departures[departureId := t.departures[departureId]]
    && var row := t.departures[departureId];
       && row.source == EXTRA && row.rideId == rideId && row.serviceDate == date
       && row.departureTime == departureTime && row.arrivalTime == arrivalTime
       && row.lineId == ride.lineId && LineRoute(ride.line, departureTime, arrivalTime, row.stops)
       && (capacity.Some? ==> row.capacity == capacity.value) && (capacity.None? ==> row.capacity == ride.capacity)
       && row.cancelled == None && row.rideExceptionId == Some(actor.exceptionId)
       && row.droppedAt == (if ride.status == ACTIVE && ride.line.isActive then None else Some(actor.now))
  }

  lemma {:induction false} CreateExtraMeans(s: Store, rideId: Id, date: string, departureTime: string, arrivalTime: string, capacity: Option<int>,
                                            actor: Actor, departureId: Id)
    requires rideId in s.rides && s.rides[rideId].id == rideId
    ensures ExtraCreated(s, AfterCreateExtra(s, rideId, date, departureTime, arrivalTime, capacity, actor, departureId),
                         rideId, date, departureTime, arrivalTime, capacity, actor, departureId)
  {
    hide LineRoute, LinePathStops;
    LineRouteIs(s.rides[rideId], departureTime, arrivalTime);
  }

  // ---- Skipping and unskipping a date ----

  ghost predicate SkipOf(s: Store, rideId: Id, date: string, e: Id) {
    e in s.exceptions && s.exceptions[e].kind == SKIP && s.exceptions[e].rideId == rideId && s.exceptions[e].exceptionDate == date
  }

  ghost predicate IsNewSkip(x: RideException, rideId: Id, date: string, actor: Actor) {
    x == RideException(rideId, date, SKIP, None, None, actor.now, Some(actor.id), Some(actor.id))
  }

  /** The date keeps its SKIP, or gets one from the operator. */
  ghost predicate SkipRecorded(s: Store, t: Store, rideId: Id, date: string, actor: Actor) {
    if exists e :: SkipOf(s, rideId, date, e) then t.exceptions == s.exceptions
    else
      && actor.exceptionId in t.exceptions && IsNewSkip(t.exceptions[actor.exceptionId], rideId, date, actor)
      && t.exceptions == s.exceptions[actor.exceptionId := t.exceptions[actor.exceptionId]]
  }

  /** Whom a cancelled date is credited to: its first SKIP's last author, or the operator. */
  ghost predicate SkipCredits(s: Store, rideId: Id, date: string, actor: Actor, credit: Cancellation) {
    if exists e :: SkipOf(s, rideId, date, e) then
      exists e :: FirstSkip(s, rideId, date, e) && credit.at == s.exceptions[e].createdAt
        && credit.actor == (if s.exceptions[e].updatedBy.Some? then s.exceptions[e].updatedBy.value
                            else if s.exceptions[e].createdBy.Some? then s.exceptions[e].createdBy.value else actor.id)
    else credit == Cancellation(actor.now, actor.id)
  }

  predicate IsTimetableOf(row: Departure, rideId: Id, date: string) {
    row.source == SCHEDULE && row.rideId == rideId && row.serviceDate == date
  }

  /** The date's timetable departure is cancelled where it ran, and everything else stays. */
  ghost predicate DateSkipped(s: Store, t: Store, rideId: Id, date: string, actor: Actor) {
    && t == s.(departures := t.departures, exceptions := t.exceptions)
    && SkipRecorded(s, t, rideId, date, actor)
    && t.departures.Keys == s.departures.Keys
    && exists credit :: SkipCredits(s, rideId, date, actor, credit) && CancelledBy(s, t, rideId, date, credit)
  }

  ghost predicate CancelledBy(s: Store, t: Store, rideId: Id, date: string, credit: Cancellation) {
    forall d :: d in s.departures ==>
      && d in t.departures
      && t.departures[d] == if IsTimetableOf(s.departures[d], rideId, date) && s.departures[d].cancelled.None?
                            then s.departures[d].(cancelled := Some(credit)) else s.departures[d]
  }

  lemma {:induction false} FirstSkipIff(s: Store, rideId: Id, date: string, found: Option<Id>)
    requires IsFirstSkip(s, rideId, date, found)
    ensures found.Some? <==> exists e :: SkipOf(s, rideId, date, e)
    ensures found.Some? ==> FirstSkip(s, rideId, date, found.value)
  {
    hide StrLess;
    assert forall e :: SkipOf(s, rideId, date, e) <==> e in SkipsOn(s.exceptions, rideId, date);
  }

  lemma {:induction false} SkipMeans(s: Store, rideId: Id, date: string, actor: Actor, found: Option<Id>)
    requires IsFirstSkip(s, rideId, date, found)
    ensures (found.Some? ==> found.value in s.exceptions) && DateSkipped(s, AfterSkip(s, rideId, date, actor, found), rideId, date, actor)
  {
    FirstSkipIff(s, rideId, date, found);
    hide IsFirstSkip, SkipOf;
    assert found.Some? ==> found.value in s.exceptions by { hide *; FirstSkipStored(s, rideId, date, found); }
    var skip := if found.Some? then s.exceptions[found.value] else NewSkip(rideId, date, actor);
    assert SkipCredits(s, rideId, date, actor, SkipCredit(skip, actor));
    assert CancelledBy(s, AfterSkip(s, rideId, date, actor, found), rideId, date, SkipCredit(skip, actor));
  }

  lemma {:induction false} FirstSkipStored(s: Store, rideId: Id, date: string, found: Option<Id>)
    requires IsFirstSkip(s, rideId, date, found)
    ensures found.Some? ==> found.value in s.exceptions
  {
  }

  /** Exception rows removed, and the links to them. */
  ghost predicate RowsRemoved(s: Store, t: Store, gone: Id -> bool) {
    && (forall e :: e in t.exceptions <==> e in s.exceptions && !gone(e))
    && (forall e :: e in t.exceptions ==> t.exceptions[e] == s.exceptions[e])
  }

  /** The row without its link, when the exception it is linked to is removed. */
  function LinkKept(row: Departure, gone: Id -> bool): Departure {
    if row.rideExceptionId.Some? && gone(row.rideExceptionId.value) then row.(rideExceptionId := None) else row
  }

  /** Every SKIP of the date goes, and its timetable departure runs. */
  ghost predicate DateUnskipped(s: Store, t: Store, rideId: Id, date: string) {
    var gone := (e: Id) => e in s.exceptions && s.exceptions[e].kind == SKIP && s.exceptions[e].rideId == rideId && s.exceptions[e].exceptionDate == date;
    && t == s.(departures := t.departures, exceptions := t.exceptions)
    && RowsRemoved(s, t, gone)
    && t.departures.Keys == s.departures.Keys
    && forall d :: d in s.departures ==>
         t.departures[d] == LinkKept(if IsTimetableOf(s.departures[d], rideId, date) then s.departures[d].(cancelled := None) else s.departures[d], gone)
  }

  lemma {:induction false} UnskipMeans(s: Store, rideId: Id, date: string)
    ensures DateUnskipped(s, AfterUnskip(s, rideId, date), rideId, date)
  {
  }

  // ---- Cancelling and restoring ----

  /** The ADDITIONAL an extra had goes, unless another extra is linked to it. */
  ghost predicate AdditionalReleased(s: Store, link: Option<Id>, id: Id, e: Id) {
    link == Some(e) && forall d :: d in s.departures && d != id && s.departures[d].source == EXTRA ==> s.departures[d].rideExceptionId != Some(e)
  }

  /** All rows but one stay, without links to the ADDITIONAL that went. */
  ghost predicate ReleasedAround(s: Store, t: Store, id: Id)
    requires id in s.departures
  {
    var link := s.departures[id].rideExceptionId;
    && t == s.(departures := t.departures, exceptions := t.exceptions)
    && (forall e :: e in t.exceptions <==> e in s.exceptions && !AdditionalReleased(s, link, id, e))
    && (forall e :: e in t.exceptions ==> t.exceptions[e] == s.exceptions[e])
    && (forall d :: d != id ==> (d in t.departures <==> d in s.departures))
    && forall d :: d in s.departures && d != id ==>
         t.departures[d] == if s.departures[d].rideExceptionId.Some? && AdditionalReleased(s, link, id, s.departures[d].rideExceptionId.value)
                            then s.departures[d].(rideExceptionId := None) else s.departures[d]
  }

  /** A cancelled departure is credited to the operator, now: with its date's SKIP, or without its ADDITIONAL. */
  ghost predicate DepartureCancelled(s: Store, t: Store, id: Id, actor: Actor)
    requires id in s.departures
  {
    var row := s.departures[id];
    if row.source == SCHEDULE then
      && t == s.(departures := s.departures[id := row.(cancelled := Some(Cancellation(actor.now, actor.id)))], exceptions := t.exceptions)
      && SkipRecorded(s, t, row.rideId, row.serviceDate, actor)
    else
      && id in t.departures && t.departures[id] == row.(cancelled := Some(Cancellation(actor.now, actor.id)), rideExceptionId := None)
      && ReleasedAround(s, t, id)
  }

  lemma {:induction false} ReleaseMeans(s: Store, u: Store, id: Id)
    requires id in s.departures
    requires u == s.(departures := u.departures)
    requires forall d :: d != id ==> (d in u.departures <==> d in s.departures) && (d in u.departures ==> u.departures[d] == s.departures[d])
    requires id in u.departures ==> u.departures[id].rideExceptionId == None
    ensures var t := AfterRelease(u, id, s.departures[id].rideExceptionId);
      ReleasedAround(s, t, id) && (id in t.departures <==> id in u.departures) && (id in u.departures ==> t.departures[id] == u.departures[id])
  {
    var link := s.departures[id].rideExceptionId;
    if link.Some? {
      assert SharedWith(u.departures, link.value, id) <==> !AdditionalReleased(s, link, id, link.value) by {
        if SharedWith(u.departures, link.value, id) {
          var d :| d in u.departures && d != id && IsExtraOf(u.departures[d], link.value);
          assert d in s.departures;
        }
        if d :| d in s.departures && d != id && s.departures[d].source == EXTRA && s.departures[d].rideExceptionId == Some(link.value) {
          assert IsExtraOf(u.departures[d], link.value);
        }
      }
    }
  }

  lemma {:induction false} CancelMeans(s: Store, id: Id, actor: Actor, found: Option<Id>)
    requires UniqueSchedule(s.departures) && id in s.departures && s.departures[id].source != LEGACY
    requires IsFirstSkip(s, s.departures[id].rideId, s.departures[id].serviceDate, found)
    ensures (found.Some? ==> found.value in s.exceptions) && DepartureCancelled(s, AfterCancel(s, id, actor, found), id, actor)
  {
    var row := s.departures[id];
    FirstSkipStored(s, row.rideId, row.serviceDate, found);
    FirstSkipIff(s, row.rideId, row.serviceDate, found);
    hide IsFirstSkip, SkipOf, AfterRelease, FirstSkip, ReleasedAround;
    var cancelled := row.(cancelled := Some(Cancellation(actor.now, actor.id)));
    if row.source == SCHEDULE {
      AlreadyCancelled(s.departures, id, cancelled, SkipCredit(if found.Some? then s.exceptions[found.value] else NewSkip(row.rideId, row.serviceDate, actor), actor));
    } else {
      ReleaseMeans(s, s.(departures := s.departures[id := cancelled.(rideExceptionId := None)]), id);
    }
  }

  /** Nothing is left to cancel for the SKIP once the date's one departure is. */
  lemma {:induction false} AlreadyCancelled(departures: map<Id, Departure>, id: Id, cancelled: Departure, credit: Cancellation)
    requires UniqueSchedule(departures) && id in departures && departures[id].source == SCHEDULE
    requires cancelled == departures[id].(cancelled := cancelled.cancelled) && cancelled.cancelled.Some?
    ensures WithCancellation(departures[id := cancelled], cancelled.rideId, cancelled.serviceDate, credit) == departures[id := cancelled]
  {
  }

  /** A restored timetable departure loses its date's SKIPs; a restored extra gets an ADDITIONAL again, at its own times. */
  ghost predicate DepartureRestored(s: Store, t: Store, id: Id, actor: Actor)
    requires id in s.departures
  {
    var row := s.departures[id];
    if row.source == SCHEDULE then DateUnskipped(s, t, row.rideId, row.serviceDate)
    else
      && t == s.(departures := s.departures[id := row.(cancelled := None, rideExceptionId := Some(actor.exceptionId))], exceptions := t.exceptions)
      && actor.exceptionId in t.exceptions && t.exceptions == s.exceptions[actor.exceptionId := t.exceptions[actor.exceptionId]]
      && IsAdditional(t.exceptions[actor.exceptionId], row.rideId, row.serviceDate, row.departureTime, row.arrivalTime, actor)
  }

  lemma {:induction false} RestoreMeans(s: Store, id: Id, actor: Actor)
    requires id in s.departures
    ensures DepartureRestored(s, AfterRestore(s, id, actor), id, actor)
  {
    hide DateUnskipped, AfterUnskip;
    if s.departures[id].source == SCHEDULE {
      UnskipMeans(s, s.departures[id].rideId, s.departures[id].serviceDate);
    }
  }

  // ---- Editing and deleting an extra ----

  /** The passengers of a departure at its new times. */
  ghost predicate RidersMoved(s: Store, t: Store, id: Id, departureTime: string, arrivalTime: string) {
    && t.reservations.Keys == s.reservations.Keys
    && forall r :: r in s.reservations ==>
         t.reservations[r] == if s.reservations[r].departureId == Some(id)
                              then s.reservations[r].(departureTime := departureTime, arrivalTime := arrivalTime) else s.reservations[r]
  }

  /** The ADDITIONAL an extra is linked to at its new times, signed by the operator. */
  ghost predicate AdditionalFollows(s: Store, t: Store, link: Option<Id>, departureTime: string, arrivalTime: string, actor: Actor) {
    && t.exceptions.Keys == s.exceptions.Keys
    && forall e :: e in s.exceptions ==>
         t.exceptions[e] == if link == Some(e)
                            then s.exceptions[e].(departureTime := Some(departureTime), arrivalTime := Some(arrivalTime), updatedBy := Some(actor.id))
                            else s.exceptions[e]
  }

  /** An extra moves with its route, its passengers and its ADDITIONAL, or only changes its seats. */
  ghost predicate ExtraEdited(s: Store, t: Store, id: Id, changes: ExtraChanges, actor: Actor)
    requires id in s.departures && s.departures[id].rideId in s.rides
  {
    var row, ride := s.departures[id], s.rides[s.departures[id].rideId];
    var departureTime := if changes.departureTime.Some? then changes.departureTime.value else row.departureTime;
    var arrivalTime := if changes.arrivalTime.Some? then changes.arrivalTime.value else row.arrivalTime;
    var capacity := if changes.capacity.Some? then changes.capacity.value else row.capacity;
    if departureTime == row.departureTime && arrivalTime == row.arrivalTime
    then t == s.(departures := s.departures[id := row.(capacity := capacity)])
    else
      && t.rides == s.rides && id in t.departures && t.departures == s.departures[id := t.departures[id]]
      && t.departures[id] == row.(lineId := ride.lineId, departureTime := departureTime, arrivalTime := arrivalTime, capacity := capacity,
                                  droppedAt := if ExtraRuns(ride, row) then None else Some(OrElse(row.droppedAt, actor.now)),
                                  stops := t.departures[id].stops)
      && (exists route :: LineRoute(ride.line, departureTime, arrivalTime, route) && StopsFollow(row.stops, t.departures[id].stops, route))
      && RidersMoved(s, t, id, departureTime, arrivalTime)
      && AdditionalFollows(s, t, row.rideExceptionId, departureTime, arrivalTime, actor)
  }

  lemma {:induction false} UpdateExtraMeans(s: Store, id: Id, changes: ExtraChanges, actor: Actor)
    requires id in s.departures && s.departures[id].rideId in s.rides
    ensures ExtraEdited(s, AfterUpdateExtra(s, id, changes, actor), id, changes, actor)
  {
    hide LineRoute, LinePathStops, SameStops, CallAlike;
    var row, ride := s.departures[id], s.rides[s.departures[id].rideId];
    var departureTime, arrivalTime := OrElse(changes.departureTime, row.departureTime), OrElse(changes.arrivalTime, row.arrivalTime);
    var route := LinePathStops(ride, departureTime, arrivalTime);
    LineRouteIs(ride, departureTime, arrivalTime);
    CallAlikeIff(row.stops, route);
    assert StopsFollow(row.stops, if SameStops(row.stops, route) then row.stops else route, route);
  }

  lemma {:induction false} DeleteExtraMeans(s: Store, id: Id)
    requires id in s.departures
    ensures id !in AfterDeleteExtra(s, id).departures && ReleasedAround(s, AfterDeleteExtra(s, id), id)
  {
    hide AfterRelease, ReleasedAround;
    ReleaseMeans(s, s.(departures := s.departures - {id}), id);
  }

  // ---- Removing an ADDITIONAL ----

  predicate IsExtraAddedBy(row: Departure, rideId: Id, e: Id) {
    row.source == EXTRA && row.rideExceptionId == Some(e) && row.rideId == rideId
  }

  /** Its extras go, or are cancelled where somebody is booked; every link to it goes too. */
  ghost predicate AdditionalRemoved(s: Store, t: Store, rideId: Id, e: Id, actor: Actor) {
    && t == s.(departures := t.departures, exceptions := s.exceptions - {e})
    && (forall d :: d in t.departures <==> d in s.departures && (IsExtraAddedBy(s.departures[d], rideId, e) ==> Booked(s, d)))
    && forall d :: d in t.departures ==>
         var row := s.departures[d];
         t.departures[d] ==
           if IsExtraAddedBy(row, rideId, e)
           then row.(rideExceptionId := None, cancelled := if row.cancelled.Some? then row.cancelled else Some(Cancellation(actor.now, actor.id)))
           else if row.rideExceptionId == Some(e) then row.(rideExceptionId := None) else row
  }

  lemma {:induction false} RemoveAdditionalMeans(s: Store, rideId: Id, e: Id, actor: Actor)
    ensures AdditionalRemoved(s, AfterRemoveAdditional(s, rideId, e, actor), rideId, e, actor)
  {
    hide Booked, Referenced;
    forall d ensures Booked(s, d) <==> Referenced(s.reservations, d) {
      BookedIff(s, d);
    }
  }

  /** What the operator is told: cancelled as soon as one of the extras stays, deleted when all go, and nothing when there was none. */
  lemma {:induction false} RemovalOutcomeIff(s: Store, rideId: Id, e: Id, outcome: Outcome)
    ensures IsOutcome(s, rideId, e, outcome) <==>
      match outcome
      case NO_EXTRA => forall d :: d in s.departures ==> !IsExtraAddedBy(s.departures[d], rideId, e)
      case CANCELLED_EXTRA => exists d :: d in s.departures && IsExtraAddedBy(s.departures[d], rideId, e) && Booked(s, d)
      case DELETED_EXTRA =>
        (exists d :: d in s.departures && IsExtraAddedBy(s.departures[d], rideId, e))
        && forall d :: d in s.departures && IsExtraAddedBy(s.departures[d], rideId, e) ==> !Booked(s, d)
  {
    hide Booked, Referenced;
    var extras := set d | d in s.departures && AddedBy(s.departures[d], rideId, e);
    forall d ensures Booked(s, d) <==> Referenced(s.reservations, d) {
      BookedIff(s, d);
    }
    assert forall d :: d in extras <==> d in s.departures && IsExtraAddedBy(s.departures[d], rideId, e);
  }

  // ---- A ride's capacity ----

  ghost predicate CapacityFollowed(s: Store, t: Store, rideId: Id, from: int, to: int, today: string) {
    && t == s.(departures := t.departures) && t.departures.Keys == s.departures.Keys
    && forall d :: d in s.departures ==>
         var row := s.departures[d];
         t.departures[d] == if row.source == EXTRA && row.rideId == rideId && StrLe(today, row.serviceDate) && row.capacity == from
                            then row.(capacity := to) else row
  }

  lemma {:induction false} CapacityMeans(s: Store, rideId: Id, from: int, to: int, today: string)
    ensures CapacityFollowed(s, AfterCapacityEdit(s, rideId, from, to, today), rideId, from, to, today)
  {
    hide StrLe;
  }

  // ---- Booking ----

  /** A seat is refused when a copy sent differs from the bus, and else when the bus does not run. */
  lemma {:induction false} BookingRefusedIff(row: Departure, rideId: Id, date: string, departureTime: string, arrivalTime: string, reason: Refusal)
    ensures BookingRefused(row, rideId, date, departureTime, arrivalTime) == Some(reason) <==>
      var same := row.rideId == rideId && row.serviceDate == date && row.departureTime == departureTime && row.arrivalTime == arrivalTime;
      || (reason == DEPARTURE_CHANGED && !same)
      || (reason == DEPARTURE_NOT_RUNNING && same && (row.source == LEGACY || row.cancelled.Some? || row.droppedAt.Some?))
  {
  }
}
