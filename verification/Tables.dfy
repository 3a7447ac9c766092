/** One tenant's stored rows, and the constraints the database keeps on them. */
module Tables {
  import opened Basics
  import opened Calendar
  import opened Timetable

  /** A departure row with its stop rows. */
  datatype Departure = Departure(
    source: Source,
    rideId: Id,
    serviceDate: string,
    lineId: Id,
    departureTime: string,
    arrivalTime: string,
    capacity: int,
    droppedAt: Option<int>,
    cancelled: Option<Cancellation>,
    rideExceptionId: Option<Id>,
    stops: seq<Stop>)

  datatype ExceptionType = SKIP | ADDITIONAL

  datatype RideException = RideException(
    rideId: Id,
    exceptionDate: string,
    kind: ExceptionType,
    departureTime: Option<string>,
    arrivalTime: Option<string>,
    createdAt: int,
    createdBy: Option<Id>,
    updatedBy: Option<Id>)

  datatype ReservationStatus = Active | Cancelled

  datatype Reservation = Reservation(
    rideId: Id,
    travelDate: string,
    departureTime: string,
    arrivalTime: string,
    seatNumber: int,
    status: ReservationStatus,
    createdAt: int,
    departureId: Option<Id>)

  datatype Store = Store(
    rides: map<Id, Ride>,
    departures: map<Id, Departure>,
    exceptions: map<Id, RideException>,
    reservations: map<Id, Reservation>)

  // ---- What the schema enforces ----

  ghost predicate UniqueSchedule(departures: map<Id, Departure>) {
    forall a, b :: a in departures && b in departures
      && departures[a].source == SCHEDULE && departures[b].source == SCHEDULE
      && departures[a].rideId == departures[b].rideId && departures[a].serviceDate == departures[b].serviceDate
      ==> a == b
  }

  ghost predicate UniqueLegacy(departures: map<Id, Departure>) {
    forall a, b :: a in departures && b in departures
      && departures[a].source == LEGACY && departures[b].source == LEGACY
      && departures[a].rideId == departures[b].rideId && departures[a].serviceDate == departures[b].serviceDate
      && departures[a].departureTime == departures[b].departureTime
      ==> a == b
  }

  ghost predicate RidesNamed(rides: map<Id, Ride>) {
    forall r :: r in rides ==> rides[r].id == r
  }

  ghost predicate DepartureKeys(s: Store) {
    forall d :: d in s.departures ==>
      && s.departures[d].rideId in s.rides
      && IsDate(s.departures[d].serviceDate)
      && (s.departures[d].rideExceptionId.Some? ==> s.departures[d].rideExceptionId.value in s.exceptions)
  }

  ghost predicate ExceptionKeys(s: Store) {
    forall e :: e in s.exceptions ==> s.exceptions[e].rideId in s.rides && IsDate(s.exceptions[e].exceptionDate)
  }

  /** The foreign key carries the ride and the date, so a linked reservation cannot disagree with its bus. */
  ghost predicate ReservationKeys(s: Store) {
    forall r :: r in s.reservations && s.reservations[r].departureId.Some? ==>
      var d := s.reservations[r].departureId.value;
      && d in s.departures
      && s.reservations[r].rideId == s.departures[d].rideId
      && s.reservations[r].travelDate == s.departures[d].serviceDate
  }

  /** Primary and foreign keys, and the two partial unique indexes. */
  ghost predicate Valid(s: Store) {
    && RidesNamed(s.rides)
    && DepartureKeys(s)
    && ExceptionKeys(s)
    && ReservationKeys(s)
    && UniqueSchedule(s.departures)
    && UniqueLegacy(s.departures)
  }

  // ---- References ----

  /** The reservations, of any status, on a departure. */
  function RidersOf(reservations: map<Id, Reservation>, departureId: Id): set<Id> {
    set r | r in reservations && reservations[r].departureId == Some(departureId)
  }

  predicate Referenced(reservations: map<Id, Reservation>, departureId: Id) {
    RidersOf(reservations, departureId) != {}
  }

  function Unlinked(row: Departure, es: set<Id>): Departure {
    if row.rideExceptionId.Some? && row.rideExceptionId.value in es then row.(rideExceptionId := None) else row
  }

  /** `ON DELETE SET NULL`: the exceptions go and every departure linked to one is unlinked. */
  function DeleteExceptions(s: Store, es: set<Id>): Store {
    s.(exceptions := s.exceptions - es,
       departures := map d | d in s.departures :: Unlinked(s.departures[d], es))
  }

  /** Every booked reservation carries its departure's current times. */
  ghost predicate TimesCurrent(s: Store) {
    forall r :: r in s.reservations && s.reservations[r].departureId.Some? && s.reservations[r].departureId.value in s.departures ==>
      var d := s.departures[s.reservations[r].departureId.value];
      s.reservations[r].departureTime == d.departureTime && s.reservations[r].arrivalTime == d.arrivalTime
  }
}
