/**
 * `departure-operations.ts`: what each operator decision leaves stored. A decision is kept
 * twice, on the departure and as an exception row.
 */
module Decisions {
  import opened Basics
  import opened Text
  import opened Calendar
  import opened Timetable
  import opened Tables
  import opened SyncPlan
  import opened SyncRules
  import opened SyncApply

  datatype Refusal =
    | NOT_FOUND
    | DEPARTURE_LEGACY
    | DEPARTURE_ALREADY_CANCELLED
    | DEPARTURE_NOT_CANCELLED
    | DEPARTURE_DROPPED
    | DEPARTURE_NOT_EXTRA
    | DEPARTURE_HAS_RESERVATIONS
    | DATE_OUT_OF_WINDOW
    | SAME_TIMES
    | DEPARTURE_CHANGED
    | DEPARTURE_NOT_RUNNING

  datatype Operation = CANCEL | RESTORE | EDIT_EXTRA | DELETE_EXTRA

  /** `assertOperable`: the first refusal that applies. */
  function Refused(row: Departure, referenced: bool, operation: Operation): Option<Refusal> {
    if row.source == LEGACY then Some(DEPARTURE_LEGACY)
    else if operation == CANCEL && row.cancelled.Some? then Some(DEPARTURE_ALREADY_CANCELLED)
    else if operation == RESTORE && row.cancelled.None? then Some(DEPARTURE_NOT_CANCELLED)
    else if operation == RESTORE && row.droppedAt.Some? then Some(DEPARTURE_DROPPED)
    else if (operation == EDIT_EXTRA || operation == DELETE_EXTRA) && row.source != EXTRA then Some(DEPARTURE_NOT_EXTRA)
    else if operation == DELETE_EXTRA && referenced then Some(DEPARTURE_HAS_RESERVATIONS)
    else None
  }

  /** Reading the departure under the lock, then refusing what does not apply to it or a date nothing is decided for. */
  function Prepared(s: Store, w: Window, id: Id, operation: Operation): Result<Departure, Refusal> {
    if id !in s.departures then Err(NOT_FOUND)
    else if Refused(s.departures[id], Referenced(s.reservations, id), operation).Some?
    then Err(Refused(s.departures[id], Referenced(s.reservations, id), operation).value)
    else if !InWindow(w, s.departures[id].serviceDate) then Err(DATE_OUT_OF_WINDOW)
    else Ok(s.departures[id])
  }

  // ---- SKIPs and the timetable departure ----

  /** Who decides, when, and the ID a new exception row gets. */
  datatype Actor = Actor(id: Id, now: int, exceptionId: Id)

  function WithCancellation(departures: map<Id, Departure>, rideId: Id, date: string, credit: Cancellation): map<Id, Departure> {
    map d | d in departures ::
      if IsScheduleOf(departures[d], rideId, date) && departures[d].cancelled.None?
      then departures[d].(cancelled := Some(credit)) else departures[d]
  }

  function WithoutCancellation(departures: map<Id, Departure>, rideId: Id, date: string): map<Id, Departure> {
    map d | d in departures ::
      if IsScheduleOf(departures[d], rideId, date) then departures[d].(cancelled := None) else departures[d]
  }

  function SkipsOn(exceptions: map<Id, RideException>, rideId: Id, date: string): set<Id> {
    set e | e in exceptions && IsSkipOf(exceptions[e], rideId, date)
  }

  function NewSkip(rideId: Id, date: string, actor: Actor): RideException {
    RideException(rideId, date, SKIP, None, None, actor.now, Some(actor.id), Some(actor.id))
  }

  function NewAdditional(rideId: Id, date: string, departureTime: string, arrivalTime: string, actor: Actor): RideException {
    RideException(rideId, date, ADDITIONAL, Some(departureTime), Some(arrivalTime), actor.now, Some(actor.id), Some(actor.id))
  }

  /** `found` is the date's first SKIP, when it has one. */
  ghost predicate IsFirstSkip(s: Store, rideId: Id, date: string, found: Option<Id>) {
    if found.None? then SkipsOn(s.exceptions, rideId, date) == {}
    else
      && found.value in SkipsOn(s.exceptions, rideId, date)
      && forall e :: e in SkipsOn(s.exceptions, rideId, date) && e != found.value ==>
           LoadedBefore(ExceptionRecord(found.value, s.exceptions[found.value]), ExceptionRecord(e, s.exceptions[e]))
  }

  function SkipCredit(skip: RideException, actor: Actor): Cancellation {
    Cancellation(skip.createdAt, OrElse(skip.updatedBy, OrElse(skip.createdBy, actor.id)))
  }

  /** The SKIP, found or created, and the departure it cancels. */
  function AfterSkip(s: Store, rideId: Id, date: string, actor: Actor, found: Option<Id>): Store
    requires found.Some? ==> found.value in s.exceptions
  {
    var skip := if found.Some? then s.exceptions[found.value] else NewSkip(rideId, date, actor);
    s.(exceptions := if found.Some? then s.exceptions else s.exceptions[actor.exceptionId := skip],
       departures := WithCancellation(s.departures, rideId, date, SkipCredit(skip, actor)))
  }

  /** The departure running again, and every SKIP of the date gone. */
  function AfterUnskip(s: Store, rideId: Id, date: string): Store {
    DeleteExceptions(s.(departures := WithoutCancellation(s.departures, rideId, date)), SkipsOn(s.exceptions, rideId, date))
  }

  // ---- Extras ----

  /** Another extra still linked to an exception. */
  predicate SharedWith(departures: map<Id, Departure>, e: Id, id: Id) {
    exists d :: d in departures && d != id && IsExtraOf(departures[d], e)
  }

  /** `releaseAdditional`: the ADDITIONAL goes unless another extra still links to it. */
  function AfterRelease(s: Store, id: Id, link: Option<Id>): Store {
    if link.None? || SharedWith(s.departures, link.value, id) then s else DeleteExceptions(s, {link.value})
  }

  function AfterCancel(s: Store, id: Id, actor: Actor, found: Option<Id>): Store
    requires id in s.departures && (found.Some? ==> found.value in s.exceptions)
  {
    var row := s.departures[id];
    var credit := Cancellation(actor.now, actor.id);
    if row.source == SCHEDULE
    then AfterSkip(s.(departures := s.departures[id := row.(cancelled := Some(credit))]), row.rideId, row.serviceDate, actor, found)
    else AfterRelease(s.(departures := s.departures[id := row.(cancelled := Some(credit), rideExceptionId := None)]), id, row.rideExceptionId)
  }

  function AfterRestore(s: Store, id: Id, actor: Actor): Store
    requires id in s.departures
  {
    var row := s.departures[id];
    if row.source == SCHEDULE then AfterUnskip(s, row.rideId, row.serviceDate)
    else
      s.(exceptions := s.exceptions[actor.exceptionId :=
           NewAdditional(row.rideId, row.serviceDate, row.departureTime, row.arrivalTime, actor)],
         departures := s.departures[id := row.(cancelled := None, rideExceptionId := Some(actor.exceptionId))])
  }

  function ExtraRow(ride: Ride, date: string, departureTime: string, arrivalTime: string, capacity: int, actor: Actor): Departure {
    NewRow(PlanExtra(ride, actor.exceptionId, date, departureTime, arrivalTime, capacity, Some(actor.exceptionId))
             .(timetableDropped := !RideRuns(ride)), actor.now)
  }

  function AfterCreateExtra(s: Store, rideId: Id, date: string, departureTime: string, arrivalTime: string, capacity: Option<int>,
                        actor: Actor, departureId: Id): Store
    requires rideId in s.rides
  {
    s.(exceptions := s.exceptions[actor.exceptionId := NewAdditional(rideId, date, departureTime, arrivalTime, actor)],
       departures := s.departures[departureId :=
         ExtraRow(s.rides[rideId], date, departureTime, arrivalTime, OrElse(capacity, s.rides[rideId].capacity), actor)])
  }

  datatype ExtraChanges = ExtraChanges(departureTime: Option<string>, arrivalTime: Option<string>, capacity: Option<int>)

  /** The extra and its whole stop list at new times, in the dropped state the next sync would give it. */
  function MovedRow(ride: Ride, id: Id, row: Departure, departureTime: string, arrivalTime: string, capacity: int, now: int): Departure {
    var planned := PlanExtra(ride, id, row.serviceDate, departureTime, arrivalTime, capacity, row.rideExceptionId);
    row.(lineId := planned.lineId, departureTime := departureTime, arrivalTime := arrivalTime, capacity := capacity,
         droppedAt := if ExtraDropped(row, !RideRuns(ride)) then Some(OrElse(row.droppedAt, now)) else None,
         stops := if SameStops(row.stops, planned.stops) then row.stops else planned.stops)
  }

  function RidersRetimed(reservations: map<Id, Reservation>, id: Id, departureTime: string, arrivalTime: string): map<Id, Reservation> {
    map r | r in reservations ::
      if reservations[r].departureId == Some(id) then WithTimes(reservations[r], departureTime, arrivalTime) else reservations[r]
  }

  function AdditionalMoved(exceptions: map<Id, RideException>, link: Option<Id>, departureTime: string, arrivalTime: string, actor: Actor): map<Id, RideException> {
    if link.None? || link.value !in exceptions then exceptions
    else exceptions[link.value := exceptions[link.value].(departureTime := Some(departureTime), arrivalTime := Some(arrivalTime),
                                                          updatedBy := Some(actor.id))]
  }

  function AfterUpdateExtra(s: Store, id: Id, changes: ExtraChanges, actor: Actor): Store
    requires id in s.departures && s.departures[id].rideId in s.rides
  {
    var row := s.departures[id];
    var departureTime := OrElse(changes.departureTime, row.departureTime);
    var arrivalTime := OrElse(changes.arrivalTime, row.arrivalTime);
    var capacity := OrElse(changes.capacity, row.capacity);
    if departureTime == row.departureTime && arrivalTime == row.arrivalTime
    then s.(departures := s.departures[id := row.(capacity := capacity)])
    else
      s.(departures := s.departures[id := MovedRow(s.rides[row.rideId], id, row, departureTime, arrivalTime, capacity, actor.now)],
         reservations := RidersRetimed(s.reservations, id, departureTime, arrivalTime),
         exceptions := AdditionalMoved(s.exceptions, row.rideExceptionId, departureTime, arrivalTime, actor))
  }

  function AfterDeleteExtra(s: Store, id: Id): Store
    requires id in s.departures
  {
    AfterRelease(s.(departures := s.departures - {id}), id, s.departures[id].rideExceptionId)
  }

  /** The extras of a ride an ADDITIONAL added. */
  predicate AddedBy(row: Departure, rideId: Id, e: Id) {
    IsExtraOf(row, e) && row.rideId == rideId
  }

  datatype Outcome = DELETED_EXTRA | CANCELLED_EXTRA | NO_EXTRA

  function AfterRemoveAdditional(s: Store, rideId: Id, e: Id, actor: Actor): Store {
    var kept := map d | d in s.departures && (AddedBy(s.departures[d], rideId, e) ==> Referenced(s.reservations, d)) ::
      if AddedBy(s.departures[d], rideId, e) && s.departures[d].cancelled.None?
      then s.departures[d].(cancelled := Some(Cancellation(actor.now, actor.id))) else s.departures[d];
    DeleteExceptions(s.(departures := kept), {e})
  }

  ghost predicate IsOutcome(s: Store, rideId: Id, e: Id, outcome: Outcome) {
    var extras := set d | d in s.departures && AddedBy(s.departures[d], rideId, e);
    outcome ==
      if extras == {} then NO_EXTRA
      else if exists d :: d in extras && Referenced(s.reservations, d) then CANCELLED_EXTRA else DELETED_EXTRA
  }

  /** An extra of the ride on the agency's date or later. */
  predicate ExtraAhead(row: Departure, rideId: Id, today: string) {
    row.source == EXTRA && row.rideId == rideId && StrLe(today, row.serviceDate)
  }

  /** `followRideCapacity`: the extras still at the old capacity, from the agency's date on. */
  function AfterCapacityEdit(s: Store, rideId: Id, from: int, to: int, today: string): Store {
    if from == to then s
    else
      s.(departures := map d | d in s.departures ::
        var row := s.departures[d];
        if ExtraAhead(row, rideId, today) && row.capacity == from then row.(capacity := to) else row)
  }

  // ---- Booking ----

  /** `assertBookable`, then `assertRunning`. */
  function BookingRefused(row: Departure, rideId: Id, date: string, departureTime: string, arrivalTime: string): Option<Refusal> {
    if row.rideId != rideId || row.serviceDate != date || row.departureTime != departureTime || row.arrivalTime != arrivalTime
    then Some(DEPARTURE_CHANGED)
    else if row.source == LEGACY || row.cancelled.Some? || row.droppedAt.Some? then Some(DEPARTURE_NOT_RUNNING)
    else None
  }
}
