/** `applyDepartureBackfill`: what the apply leaves stored, and what one planning reads. */
module BackfillApply {
  import opened Basics
  import opened Text
  import opened Calendar
  import opened Timetable
  import opened Tables
  import opened SyncPlan
  import opened SyncRules
  import opened SyncApply
  import opened LegacyRows
  import opened Backfill

  /** A LEGACY departure is stored without stops, decision or exception. */
  function LegacyRow(l: PlannedLegacy): Departure {
    Departure(LEGACY, l.key.rideId, l.key.date, l.lineId, l.key.departureTime, l.arrivalTime, l.capacity, None, None, None, [])
  }

  function WithLegacy(departures: map<Id, Departure>, creates: seq<PlannedLegacy>): map<Id, Departure> {
    if |creates| == 0 then departures
    else WithLegacy(departures, creates[..|creates| - 1])[creates[|creates| - 1].id := LegacyRow(creates[|creates| - 1])]
  }

  function LinkOf(links: seq<PlannedLink>, r: Id): Option<Id> {
    if |links| == 0 then None
    else if links[|links| - 1].reservationId == r then Some(links[|links| - 1].departureId)
    else LinkOf(links[..|links| - 1], r)
  }

  function LinkedRow(row: Reservation, link: Option<Id>): Reservation {
    if row.departureId.None? && link.Some? then row.(departureId := link) else row
  }

  /** An existing link is never rewritten. */
  function LinkedReservations(reservations: map<Id, Reservation>, links: seq<PlannedLink>): map<Id, Reservation> {
    map r | r in reservations :: LinkedRow(reservations[r], LinkOf(links, r))
  }

  function AfterBackfill(s: Store, plan: BackfillPlan, newId: PlanKey -> Id, now: int): Store {
    s.(departures := WithLegacy(InsertPlanned(s.departures, plan.historyCreates, newId, now), plan.legacyCreates),
       reservations := LinkedReservations(s.reservations, plan.links))
  }

  // ---- Reads ----

  ghost predicate DistinctUnlinked(rows: seq<Unlinked>) {
    forall i, j :: 0 <= i < j < |rows| ==> rows[i].id != rows[j].id
  }

  predicate IsUnlinked(s: Store, r: Id) {
    r in s.reservations && s.reservations[r].departureId.None?
  }

  /** The reservations without a departure. Their travel date is a date column. */
  ghost predicate IsUnlinkedLoad(rows: seq<Unlinked>, s: Store) {
    && DistinctUnlinked(rows)
    && (forall u :: u in rows ==> IsUnlinked(s, u.id) && s.reservations[u.id] == u.row && IsDate(u.row.travelDate))
    && (forall r :: IsUnlinked(s, r) ==> Unlinked(r, s.reservations[r]) in rows)
  }

  /** From the first travel date read to the last. */
  ghost predicate IsTravelRange(w: Window, rows: seq<Unlinked>) {
    && (forall u :: u in rows ==> InWindow(w, u.row.travelDate))
    && (|rows| > 0 ==> (exists u :: u in rows && u.row.travelDate == w.from) && exists u :: u in rows && u.row.travelDate == w.to)
  }

  ghost predicate IsStoredRows(stored: seq<StoredRow>, s: Store, w: Window) {
    && (forall i, j :: 0 <= i < j < |stored| ==> stored[i].id != stored[j].id)
    && (forall x :: x in stored ==> x.id in s.departures && s.departures[x.id] == x.row && InWindow(w, x.row.serviceDate))
    && (forall d :: d in s.departures && InWindow(w, s.departures[d].serviceDate) ==> StoredRow(d, s.departures[d]) in stored)
  }

  /** The range's days before the agency's date. */
  function PastPart(w: Window, today: string): Window {
    if !HasYesterday(today) then w
    else
      var yesterday := AddDays(today, -1);
      Window(w.from, if StrLess(w.to, yesterday) then w.to else yesterday)
  }

  predicate HasYesterday(today: string) {
    IsDate(today) && DayFromYear(0) <= UtcDay(today) - 1
  }

  ghost predicate IsHistoryRead(history: seq<Planned>, s: Store, past: Window, rides: seq<Ride>, records: seq<ExceptionRecord>) {
    if StrLe(past.from, past.to)
    then Walkable(past) && IsRideLoad(rides, s) && IsRecordLoad(records, s, past) && history == HistoryOf(rides, records, past)
    else history == []
  }

  /** The links the manual links' reservations already carry. */
  ghost predicate IsLinkedLoad(linked: map<Id, Id>, s: Store, manual: seq<ManualLink>) {
    forall m :: m in manual ==>
      (m.reservationId in linked <==> m.reservationId in s.reservations && s.reservations[m.reservationId].departureId.Some?)
      && (m.reservationId in linked ==> s.reservations[m.reservationId].departureId == Some(linked[m.reservationId]))
  }

  /** An ACTIVE reservation of the range, on a LEGACY departure. */
  predicate OnLegacyBus(s: Store, w: Window, r: Id) {
    && r in s.reservations && s.reservations[r].status == Active && InWindow(w, s.reservations[r].travelDate)
    && s.reservations[r].departureId.Some? && s.reservations[r].departureId.value in s.departures
    && s.departures[s.reservations[r].departureId.value].source == LEGACY
  }

  /** The departures and seats of these reservations, one by one. */
  ghost predicate AreSeatsOf(seats: seq<(Id, int)>, rows: seq<Id>, s: Store) {
    && |seats| == |rows| && Distinct(rows)
    && forall i :: 0 <= i < |rows| ==>
         && rows[i] in s.reservations && s.reservations[rows[i]].departureId == Some(seats[i].0)
         && s.reservations[rows[i]].seatNumber == seats[i].1
  }

  ghost predicate IsSeatLoad(seats: seq<(Id, int)>, s: Store, w: Window) {
    exists rows: seq<Id> :: AreSeatsOf(seats, rows, s) && forall r :: r in rows <==> OnLegacyBus(s, w, r)
  }

  ghost predicate FreshIds(b: Input, departures: map<Id, Departure>) {
    && FreshSupply(b.newId, departures)
    && (forall k :: b.legacyId(k) !in departures)
    && (forall j, k :: b.legacyId(j) == b.legacyId(k) ==> j == k)
    && (forall j, k :: b.newId(j) != b.legacyId(k))
  }

  /** `planDepartureBackfill`'s reads of a store, over the reservations' range `w`. */
  ghost predicate IsRead(b: Input, s: Store, w: Window, rides: seq<Ride>, records: seq<ExceptionRecord>) {
    && IsUnlinkedLoad(b.rows, s)
    && IsTravelRange(w, b.rows)
    && IsStoredRows(b.stored, s, w)
    && HasYesterday(b.today)
    && IsHistoryRead(b.history, s, PastPart(w, b.today), rides, records)
    && b.rides == s.rides
    && IsSeatLoad(b.legacySeats, s, w)
    && IsLinkedLoad(b.linked, s, b.manual)
    && FreshIds(b, s.departures)
  }

  // ---- The history, key by key ----

  /** What ran under a key: the timetable's departure of a ride and date, or an ADDITIONAL's bus. */
  function RanUnder(s: Store, key: PlanKey): Option<Planned> {
    match key
    case ScheduleKey(r, d) => if r in s.rides then PlannedOn(s.rides[r], d) else None
    case ExtraKey(e) =>
      if e in s.exceptions && IsBusAdditional(s.exceptions[e]) && s.exceptions[e].rideId in s.rides && RideRuns(s.rides[s.exceptions[e].rideId])
      then
        var row := s.exceptions[e];
        var ride := s.rides[row.rideId];
        Some(PlanExtra(ride, e, row.exceptionDate, row.departureTime.value, row.arrivalTime.value, ride.capacity, Some(e)))
      else None
  }

  predicate RanIn(s: Store, w: Window, key: PlanKey) {
    RanUnder(s, key).Some? && IsDate(RanUnder(s, key).value.serviceDate) && InWindow(w, RanUnder(s, key).value.serviceDate)
  }

  lemma {:induction false} AllInside(records: seq<ExceptionRecord>, w: Window, n: nat)
    requires n <= |records| && forall x :: x in records ==> InWindow(w, x.row.exceptionDate)
    ensures Collect(n, RecordIn(records, w.from, w.to)) == records[..n]
  {
    if n > 0 {
      AllInside(records, w, n - 1);
      assert records[n - 1] in records;
      assert records[..n] == records[..n - 1] + [records[n - 1]];
    }
  }

  lemma {:induction false} ExtraRan(rides: seq<Ride>, records: seq<ExceptionRecord>, s: Store, w: Window, i: nat)
    requires IsRideLoad(rides, s) && IsRecordLoad(records, s, w) && RidesNamed(s.rides) && ExceptionKeys(s) && i < |records|
    ensures HistoryExtraAt(records, rides)(i) == if IsBusAdditional(records[i].row) then RanUnder(s, ExtraKey(records[i].id)) else None
    ensures IsDate(records[i].row.exceptionDate) && InWindow(w, records[i].row.exceptionDate)
  {
    hide IsDate, InWindow;
    assert records[i] in records;
    RideLookup(rides, s, records[i].row.rideId);
  }

  lemma {:induction false} ScheduleRan(rides: seq<Ride>, s: Store, w: Window, p: Planned)
    requires IsRideLoad(rides, s) && RidesNamed(s.rides) && Walkable(w) && p in PlannedOver(rides, w)
    ensures RanUnder(s, p.key) == Some(p) && IsDate(p.serviceDate) && InWindow(w, p.serviceDate) && p.key.ScheduleKey? && p.cancellation.None?
  {
    hide IsDate, InWindow, Walkable, PlannedOver;
    GeneratedOverWindow(rides, w);
    var ride :| ride in rides && ride.id == p.rideId && PlannedOn(ride, p.serviceDate) == Some(p);
    PlannedNames(ride, p.serviceDate);
  }

  lemma {:induction false} RanScheduled(rides: seq<Ride>, s: Store, w: Window, r: Id, d: string)
    requires IsRideLoad(rides, s) && RidesNamed(s.rides) && Walkable(w) && RanIn(s, w, ScheduleKey(r, d))
    ensures RanUnder(s, ScheduleKey(r, d)).value in PlannedOver(rides, w)
  {
    hide IsDate, InWindow, Walkable, PlannedOver;
    GeneratedOverWindow(rides, w);
    PlannedNames(s.rides[r], d);
    assert s.rides[r] in rides;
  }

  /** How the history credits a departure: a SKIP cancels the timetable's, and never an extra. */
  function Credited(p: Planned, records: seq<ExceptionRecord>): Planned {
    if p.key.ScheduleKey? then HistorySchedule(p, records) else p
  }

  lemma {:induction false} HistoryScheduleRan(rides: seq<Ride>, records: seq<ExceptionRecord>, s: Store, w: Window, i: nat)
    requires IsRideLoad(rides, s) && RidesNamed(s.rides) && Walkable(w) && i < |PlannedOver(rides, w)|
    ensures var p := HistorySchedule(PlannedOver(rides, w)[i], records);
      RanIn(s, w, p.key) && p == Credited(RanUnder(s, p.key).value, records)
  {
    hide IsDate, InWindow, Walkable, PlannedOver, RanUnder;
    ScheduleRan(rides, s, w, PlannedOver(rides, w)[i]);
  }

  lemma {:induction false} HistoryExtraRan(rides: seq<Ride>, records: seq<ExceptionRecord>, s: Store, w: Window, p: Planned)
    requires IsRideLoad(rides, s) && IsRecordLoad(records, s, w) && RidesNamed(s.rides) && ExceptionKeys(s)
    requires p in Collect(|records|, HistoryExtraAt(records, rides))
    ensures RanIn(s, w, p.key) && p == Credited(RanUnder(s, p.key).value, records)
  {
    hide IsDate, InWindow, HistoryExtraAt;
    var i := CollectSource(|records|, HistoryExtraAt(records, rides), p);
    ExtraRan(rides, records, s, w, i);
  }

  lemma {:induction false} HistoryRan(rides: seq<Ride>, records: seq<ExceptionRecord>, s: Store, w: Window, p: Planned)
    requires IsRideLoad(rides, s) && IsRecordLoad(records, s, w) && RidesNamed(s.rides) && ExceptionKeys(s) && Walkable(w)
    requires p in HistoryOf(rides, records, w)
    ensures RanIn(s, w, p.key) && p == Credited(RanUnder(s, p.key).value, records)
  {
    hide Walkable, PlannedOver, HistoryExtraAt, RanIn, RanUnder, Credited, HistorySchedule, IsRideLoad, IsRecordLoad;
    AllInside(records, w, |records|) by { InsideAll(records, s, w); }
    assert records[..|records|] == records;
    var scheduled := PlannedOver(rides, w);
    if p in Collect(|records|, HistoryExtraAt(records, rides)) {
      HistoryExtraRan(rides, records, s, w, p);
    } else {
      var i :| 0 <= i < |scheduled| && HistorySchedule(scheduled[i], records) == p;
      HistoryScheduleRan(rides, records, s, w, i);
    }
  }

  lemma {:induction false} InsideAll(records: seq<ExceptionRecord>, s: Store, w: Window)
    requires IsRecordLoad(records, s, w)
    ensures forall x :: x in records ==> InWindow(w, x.row.exceptionDate)
  {
    hide InWindow;
  }

  lemma {:induction false} RanInHistory(rides: seq<Ride>, records: seq<ExceptionRecord>, s: Store, w: Window, key: PlanKey)
    requires IsRideLoad(rides, s) && IsRecordLoad(records, s, w) && RidesNamed(s.rides) && ExceptionKeys(s) && Walkable(w)
    requires RanIn(s, w, key)
    ensures Credited(RanUnder(s, key).value, records) in HistoryOf(rides, records, w)
  {
    hide IsDate, InWindow, Walkable, PlannedOver, PlannedOn, HistoryExtraAt;
    AllInside(records, w, |records|) by { InsideAll(records, s, w); }
    assert records[..|records|] == records;
    var scheduled, extras := PlannedOver(rides, w), Collect(|records|, HistoryExtraAt(records, rides));
    var found := RanUnder(s, key).value;
    match key
    case ScheduleKey(r, d) =>
      RanScheduled(rides, s, w, r, d);
      ScheduleRan(rides, s, w, found);
      var i :| 0 <= i < |scheduled| && scheduled[i] == found;
      assert HistoryOf(rides, records, w)[i] == HistorySchedule(found, records);
    case ExtraKey(e) =>
      assert ExceptionRecord(e, s.exceptions[e]) in records;
      var i :| 0 <= i < |records| && records[i] == ExceptionRecord(e, s.exceptions[e]);
      ExtraRan(rides, records, s, w, i);
      CollectMembers(|records|, HistoryExtraAt(records, rides));
      assert found in extras;
  }

  /**
   * The history is exactly what ran: a departure under each key the timetable or an
   * ADDITIONAL gives for a date of the window, each key once, credited by its SKIP.
   */
  lemma {:induction false} HistoryExactly(rides: seq<Ride>, records: seq<ExceptionRecord>, s: Store, w: Window)
    requires IsRideLoad(rides, s) && IsRecordLoad(records, s, w) && RidesNamed(s.rides) && ExceptionKeys(s) && Walkable(w)
    ensures forall p :: p in HistoryOf(rides, records, w) ==> RanIn(s, w, p.key) && p == Credited(RanUnder(s, p.key).value, records)
    ensures forall key :: RanIn(s, w, key) ==> Credited(RanUnder(s, key).value, records) in HistoryOf(rides, records, w)
    ensures DistinctKeys(HistoryOf(rides, records, w))
  {
    hide HistoryOf, IsDate, InWindow, RanUnder, Credited, IsRecordLoad, IsRideLoad, Walkable, ExceptionKeys, RidesNamed;
    forall p | p in HistoryOf(rides, records, w) ensures RanIn(s, w, p.key) && p == Credited(RanUnder(s, p.key).value, records) {
      HistoryRan(rides, records, s, w, p);
    }
    forall key | RanIn(s, w, key) ensures Credited(RanUnder(s, key).value, records) in HistoryOf(rides, records, w) {
      RanInHistory(rides, records, s, w, key);
    }
    HistoryKeysDistinct(rides, records, s, w);
  }

  lemma {:induction false} HistoryKeysDistinct(rides: seq<Ride>, records: seq<ExceptionRecord>, s: Store, w: Window)
    requires IsRideLoad(rides, s) && IsRecordLoad(records, s, w) && RidesNamed(s.rides) && ExceptionKeys(s) && Walkable(w)
    ensures DistinctKeys(HistoryOf(rides, records, w))
  {
    hide IsDate, InWindow, Walkable, PlannedOver, PlannedOn, HistoryExtraAt;
    AllInside(records, w, |records|) by { InsideAll(records, s, w); }
    assert records[..|records|] == records;
    var scheduled, extras := PlannedOver(rides, w), Collect(|records|, HistoryExtraAt(records, rides));
    var history := HistoryOf(rides, records, w);
    GeneratedOverWindow(rides, w);
    forall i | 0 <= i < |scheduled| ensures history[i].key.ScheduleKey? && history[i].key == scheduled[i].key {
      ScheduleRan(rides, s, w, scheduled[i]);
    }
    forall a, b | 0 <= a < b < |extras| ensures extras[a].key != extras[b].key && extras[a].key.ExtraKey? && extras[b].key.ExtraKey? {
      var i, j := CollectSources(|records|, HistoryExtraAt(records, rides), a, b);
      ExtraRan(rides, records, s, w, i);
      ExtraRan(rides, records, s, w, j);
    }
    forall a | 0 <= a < |extras| ensures extras[a].key.ExtraKey? {
      var i := CollectSource(|records|, HistoryExtraAt(records, rides), extras[a]);
      ExtraRan(rides, records, s, w, i);
    }
  }
}
