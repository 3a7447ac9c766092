/** `booking-departure.ts`: the departure a booking names, and the guard it passes before a seat is written. */
module Booking {
  import opened Basics
  import opened Text
  import opened Calendar
  import opened Timetable
  import opened Tables
  import opened Decisions
  import opened DepartureStore
  import opened LinkRule

  datatype BookingRefusal = TRAVEL_DATE_OUT_OF_WINDOW | DEPARTURE_NOT_FOUND | Guard(refusal: Refusal)

  /** A request as a page sends it: older pages name no departure. */
  datatype BookingRequest = BookingRequest(row: Reservation, departureId: Option<Id>)

  /** The departure a request names. The empty text names none. */
  function Named(request: BookingRequest): Option<Id> {
    if request.departureId == Some("") then None else request.departureId
  }

  /** `resolveBookingDepartureId`, from what its query of at most two rows returned. */
  function ResolveBooking(w: Window, request: BookingRequest, found: seq<Id>): Result<Id, BookingRefusal> {
    if StrLess(w.to, request.row.travelDate) then Err(TRAVEL_DATE_OUT_OF_WINDOW)
    else if Named(request).Some? then Ok(Named(request).value)
    else
      match Single(found)
      case Some(d) => Ok(d)
      case None => Err(DEPARTURE_NOT_FOUND)
  }

  /** The departure runs and carries every copy the request sent. */
  predicate Bookable(departures: map<Id, Departure>, d: Id, row: Reservation) {
    && d in departures
    && departures[d].rideId == row.rideId && departures[d].serviceDate == row.travelDate
    && departures[d].departureTime == row.departureTime && departures[d].arrivalTime == row.arrivalTime
    && departures[d].source != LEGACY && departures[d].cancelled.None? && departures[d].droppedAt.None?
  }

  /** The bus a request is for: the one it names, or else the only one its times match. */
  ghost predicate IsMeant(departures: map<Id, Departure>, request: BookingRequest, d: Id) {
    match Named(request)
    case Some(named) => d == named
    case None => CandidateSet(departures, ReservationKey(request.row)) == {d}
  }

  /** Every copy the request sent agrees with the departure. */
  predicate Agrees(bus: Departure, row: Reservation) {
    bus.rideId == row.rideId && bus.serviceDate == row.travelDate && bus.departureTime == row.departureTime && bus.arrivalTime == row.arrivalTime
  }

  predicate IsIdle(bus: Departure) {
    bus.source == LEGACY || bus.cancelled.Some? || bus.droppedAt.Some?
  }

  /** Why a booking is refused, the date before the bus, the bus before its times, and its times before whether it runs. */
  ghost predicate IsRefusedFor(departures: map<Id, Departure>, w: Window, request: BookingRequest, refusal: BookingRefusal) {
    match refusal
    case TRAVEL_DATE_OUT_OF_WINDOW => StrLess(w.to, request.row.travelDate)
    case DEPARTURE_NOT_FOUND => StrLe(request.row.travelDate, w.to) && forall d :: d in departures ==> !IsMeant(departures, request, d)
    case Guard(DEPARTURE_CHANGED) =>
      StrLe(request.row.travelDate, w.to) && exists d :: d in departures && IsMeant(departures, request, d) && !Agrees(departures[d], request.row)
    case Guard(DEPARTURE_NOT_RUNNING) =>
      StrLe(request.row.travelDate, w.to) && exists d :: d in departures && IsMeant(departures, request, d) && Agrees(departures[d], request.row) && IsIdle(departures[d])
    case Guard(_) => false
  }

  /**
   * A booking goes through exactly on the bus it is for, inside the stored window, running
   * and unchanged since the page was loaded. It is then the reservation's departure, and
   * nothing else is written.
   */
  method BookSeat(db: Database, w: Window, request: BookingRequest, found: seq<Id>, reservationId: Id) returns (outcome: Result<Id, BookingRefusal>)
    requires TakesTwo(found, CandidateSet(db.departures, ReservationKey(request.row))) && reservationId !in db.reservations
    modifies db
    ensures db.rides == old(db.rides) && db.departures == old(db.departures) && db.exceptions == old(db.exceptions)
    ensures forall d :: outcome == Ok(d) <==>
      StrLe(request.row.travelDate, w.to) && IsMeant(db.departures, request, d) && Bookable(db.departures, d, request.row)
    ensures outcome.Err? ==> IsRefusedFor(db.departures, w, request, outcome.error)
    ensures db.reservations == match outcome
      case Ok(d) => old(db.reservations)[reservationId := request.row.(departureId := Some(d))]
      case Err(_) => old(db.reservations)
  {
    forall d ensures Named(request).None? ==> (Single(found) == Some(d) <==> IsMeant(db.departures, request, d)) {
      TwoAreEnough(found, CandidateSet(db.departures, ReservationKey(request.row)), d);
    }
    hide CandidateSet, TakesTwo, StrLess;
    var resolved := ResolveBooking(w, request, found);
    if resolved.Err? {
      return Err(resolved.error);
    }
    var refusal := db.Book(resolved.value, request.row, reservationId);
    if refusal.Some? {
      return Err(if refusal.value == NOT_FOUND then DEPARTURE_NOT_FOUND else Guard(refusal.value));
    }
    return Ok(resolved.value);
  }

  /** A booked reservation's times match the bus, so the link rule sees it where it was put. */
  lemma {:induction false} BookedIsAmongMatches(departures: map<Id, Departure>, d: Id, row: Reservation)
    requires Bookable(departures, d, row)
    ensures d in CandidateSet(departures, ReservationKey(row))
  {
  }
}
