/**
 * `departure-backfill.ts`: which departure every reservation booked without one belongs to,
 * and the departures of the past that have to be written first.
 */
module Backfill {
  import opened Basics
  import opened Text
  import opened Calendar
  import opened Timetable
  import opened Tables
  import opened SyncPlan
  import opened LinkRule
  import opened LegacyRows

  datatype StoredRow = StoredRow(id: Id, row: Departure)

  /** A bus staff chose for a reservation that matches several. */
  datatype ManualLink = ManualLink(reservationId: Id, departureId: Id)

  /** What one planning reads, and the supplies of new IDs. */
  datatype Input = Input(
    today: string,
    rows: seq<Unlinked>,
    stored: seq<StoredRow>,
    history: seq<Planned>,
    rides: map<Id, Ride>,
    legacySeats: seq<(Id, int)>,
    manual: seq<ManualLink>,
    linked: map<Id, Id>,
    newId: PlanKey -> Id,
    legacyId: LinkKey -> Id)

  datatype Via = EXISTING | HISTORY | LEFTOVER | MANUAL

  datatype PlannedLink = PlannedLink(reservationId: Id, departureId: Id, via: Via)

  datatype Reason = NO_DEPARTURE | SEVERAL_DEPARTURES

  datatype Report = Report(reservationId: Id, reason: Reason, futureActive: bool, candidateIds: seq<Id>)

  datatype PlannedLegacy = PlannedLegacy(
    id: Id,
    key: LinkKey,
    arrivalTime: string,
    lineId: Id,
    capacity: int,
    reservationIds: seq<Id>,
    arrivalTimesDisagree: seq<string>,
    duplicateSeats: seq<int>)

  datatype ReusedLegacy = ReusedLegacy(id: Id, reservationIds: seq<Id>, seatsAboveCapacity: seq<int>, duplicateSeats: seq<int>)

  datatype Problem = LISTED_MORE_THAN_ONCE | LINKED_TO_ANOTHER | NOT_IN_TENANT | WRONG_DEPARTURE

  datatype BackfillPlan = BackfillPlan(
    historyCreates: seq<Planned>,
    legacyCreates: seq<PlannedLegacy>,
    legacyReused: seq<ReusedLegacy>,
    links: seq<PlannedLink>,
    reported: seq<Report>,
    manualLinksDone: nat,
    invalidManualLinks: seq<(ManualLink, Problem)>)

  // ---- History ----

  function HistorySchedule(p: Planned, records: seq<ExceptionRecord>): Planned {
    p.(cancellation := SkipCancellation(SkipFor(records, p.rideId, p.serviceDate)))
  }

  /** An extra bus of a past date, while its ride runs. */
  function HistoryExtraAt(records: seq<ExceptionRecord>, rides: seq<Ride>): nat -> Option<Planned> {
    (i: nat) =>
      if i < |records| && IsBusAdditional(records[i].row) then
        match RideById(rides, records[i].row.rideId)
        case None => None
        case Some(ride) =>
          if !RideRuns(ride) then None
          else Some(PlanExtra(ride, records[i].id, records[i].row.exceptionDate, records[i].row.departureTime.value,
                              records[i].row.arrivalTime.value, ride.capacity, Some(records[i].id)))
      else None
  }

  function RecordIn(records: seq<ExceptionRecord>, from: string, to: string): nat -> Option<ExceptionRecord> {
    (i: nat) =>
      if i < |records| && StrLe(from, records[i].row.exceptionDate) && StrLe(records[i].row.exceptionDate, to)
      then Some(records[i]) else None
  }

  function RecordsIn(records: seq<ExceptionRecord>, from: string, to: string): seq<ExceptionRecord> {
    Collect(|records|, RecordIn(records, from, to))
  }

  function HistoryOf(rides: seq<Ride>, records: seq<ExceptionRecord>, w: Window): seq<Planned>
    requires Walkable(w)
  {
    var inside := RecordsIn(records, w.from, w.to);
    var scheduled := PlannedOver(rides, w);
    seq(|scheduled|, i requires 0 <= i < |scheduled| => HistorySchedule(scheduled[i], inside))
      + Collect(|inside|, HistoryExtraAt(inside, rides))
  }

  /** `generateHistory`. */
  method GenerateHistory(rides: seq<Ride>, records: seq<ExceptionRecord>, from: string, to: string) returns (history: seq<Planned>)
    requires Walkable(Window(from, to))
    ensures history == HistoryOf(rides, records, Window(from, to))
  {
    hide PlannedOver, SkipFor, HistoryExtraAt, RecordIn;
    var inside := RecordsBetween(records, from, to);
    var ridesById := IndexRides(rides);
    var scheduled := GenerateDepartures(rides, from, to);
    var credited := CreditSkips(scheduled, inside);
    var extras := HistoryExtras(inside, rides, ridesById);
    assert scheduled == PlannedOver(rides, Window(from, to)) by { PlannedOverIsWalk(rides, from, to); }
    history := credited + extras;
  }

  lemma {:induction false} PlannedOverIsWalk(rides: seq<Ride>, from: string, to: string)
    requires Walkable(Window(from, to))
    ensures PlannedOver(rides, Window(from, to)) == Generated(rides, Walk(from, to))
  {
    hide Generated, Walk;
  }

  method RecordsBetween(records: seq<ExceptionRecord>, from: string, to: string) returns (inside: seq<ExceptionRecord>)
    ensures inside == RecordsIn(records, from, to)
  {
    inside := [];
    var i := 0;
    while i < |records|
      invariant 0 <= i <= |records|
      invariant inside == Collect(i, RecordIn(records, from, to))
    {
      if StrLe(from, records[i].row.exceptionDate) && StrLe(records[i].row.exceptionDate, to) {
        inside := inside + [records[i]];
      }
      i := i + 1;
    }
  }

  method CreditSkips(scheduled: seq<Planned>, records: seq<ExceptionRecord>) returns (credited: seq<Planned>)
    ensures credited == seq(|scheduled|, i requires 0 <= i < |scheduled| => HistorySchedule(scheduled[i], records))
  {
    var skips := SkipsByRideDate(records);
    credited := [];
    var i := 0;
    while i < |scheduled|
      invariant 0 <= i <= |scheduled|
      invariant credited == seq(i, k requires 0 <= k < i => HistorySchedule(scheduled[k], records))
    {
      var p := scheduled[i];
      var key := (p.rideId, p.serviceDate);
      assert (if key in skips then Some(skips[key]) else None) == SkipFor(records, p.rideId, p.serviceDate);
      credited := credited + [p.(cancellation := SkipCancellation(if key in skips then Some(skips[key]) else None))];
      i := i + 1;
    }
  }

  method HistoryExtras(records: seq<ExceptionRecord>, ghost rides: seq<Ride>, ridesById: map<Id, Ride>) returns (extras: seq<Planned>)
    requires forall r :: (if r in ridesById then Some(ridesById[r]) else None) == RideById(rides, r)
    ensures extras == Collect(|records|, HistoryExtraAt(records, rides))
  {
    hide RideById, PlanExtra, RideRuns;
    extras := [];
    var i := 0;
    while i < |records|
      invariant 0 <= i <= |records|
      invariant extras == Collect(i, HistoryExtraAt(records, rides))
    {
      var row := records[i].row;
      assert (if row.rideId in ridesById then Some(ridesById[row.rideId]) else None) == RideById(rides, row.rideId);
      if IsBusAdditional(row) && row.rideId in ridesById && RideRuns(ridesById[row.rideId]) {
        var ride := ridesById[row.rideId];
        extras := extras + [PlanExtra(ride, records[i].id, row.exceptionDate, row.departureTime.value, row.arrivalTime.value,
                                      ride.capacity, Some(records[i].id))];
      }
      i := i + 1;
    }
  }

  // ---- What a reservation can be linked to ----

  function PlannedLinkKey(p: Planned): LinkKey {
    LinkKey(p.rideId, p.serviceDate, p.departureTime)
  }

  /** The key the history would carry for a stored row. */
  function PlannedKeyOf(row: Departure): Option<PlanKey> {
    if row.source == SCHEDULE then Some(ScheduleKey(row.rideId, row.serviceDate))
    else if row.source == EXTRA && row.rideExceptionId.Some? then Some(ExtraKey(row.rideExceptionId.value))
    else None
  }

  predicate Wanted(rows: seq<Unlinked>, key: LinkKey) {
    exists u :: u in rows && ReservationKey(u.row) == key
  }

  predicate StoredPlanned(stored: seq<StoredRow>, key: PlanKey) {
    exists x :: x in stored && PlannedKeyOf(x.row) == Some(key)
  }

  /** A departure of the past some reservation matches, and nobody has stored. */
  predicate IsMissingHistory(b: Input, p: Planned) {
    StrLess(p.serviceDate, b.today) && !StoredPlanned(b.stored, p.key) && Wanted(b.rows, PlannedLinkKey(p))
  }

  function HistoryAt(b: Input): nat -> Option<Planned> {
    (i: nat) => if i < |b.history| && IsMissingHistory(b, b.history[i]) then Some(b.history[i]) else None
  }

  function HistoryCreates(b: Input): seq<Planned> {
    Collect(|b.history|, HistoryAt(b))
  }

  function StoredLinkAt(b: Input): nat -> Option<LinkRow> {
    (i: nat) =>
      if i < |b.stored| && Linkable(b.stored[i].row.source) then Some(LinkRow(b.stored[i].id, DepartureKey(b.stored[i].row))) else None
  }

  function CreatedLinks(b: Input, creates: seq<Planned>): seq<LinkRow> {
    seq(|creates|, i requires 0 <= i < |creates| => LinkRow(b.newId(creates[i].key), PlannedLinkKey(creates[i])))
  }

  /** The stored departures, then the history about to be written. */
  function Pool(b: Input): seq<LinkRow> {
    Collect(|b.stored|, StoredLinkAt(b)) + CreatedLinks(b, HistoryCreates(b))
  }

  function CandidateIds(b: Input, key: LinkKey): seq<Id> {
    Matching(Pool(b), key)
  }

  predicate IsHistoryId(b: Input, id: Id) {
    exists p :: p in HistoryCreates(b) && b.newId(p.key) == id
  }

  /** The last LEGACY departure stored under a key. */
  function LegacyStored(stored: seq<StoredRow>, key: LinkKey): Option<StoredRow> {
    if |stored| == 0 then None
    else
      var last := stored[|stored| - 1];
      if last.row.source == LEGACY && DepartureKey(last.row) == key then Some(last)
      else LegacyStored(stored[..|stored| - 1], key)
  }

  // ---- Manual links ----

  function RowById(rows: seq<Unlinked>, id: Id): Option<Unlinked> {
    if |rows| == 0 then None
    else if rows[|rows| - 1].id == id then Some(rows[|rows| - 1])
    else RowById(rows[..|rows| - 1], id)
  }

  datatype ManualState = ManualState(done: set<Id>, chosen: map<Id, Id>, invalid: seq<(ManualLink, Problem)>)

  function ManualProblem(b: Input, st: ManualState, link: ManualLink): Option<Problem> {
    var reservation := RowById(b.rows, link.reservationId);
    if link.reservationId in st.chosen || link.reservationId in st.done then Some(LISTED_MORE_THAN_ONCE)
    else if reservation.None? then Some(if link.reservationId in b.linked then LINKED_TO_ANOTHER else NOT_IN_TENANT)
    else if link.departureId !in CandidateIds(b, ReservationKey(reservation.value.row)) then Some(WRONG_DEPARTURE)
    else None
  }

  predicate AlreadyDone(b: Input, st: ManualState, link: ManualLink) {
    && RowById(b.rows, link.reservationId).None?
    && link.reservationId !in st.chosen && link.reservationId !in st.done
    && link.reservationId in b.linked && b.linked[link.reservationId] == link.departureId
  }

  function ManualStep(b: Input, st: ManualState, link: ManualLink): ManualState {
    if AlreadyDone(b, st, link) then st.(done := st.done + {link.reservationId})
    else
      match ManualProblem(b, st, link)
      case Some(problem) => st.(invalid := st.invalid + [(link, problem)])
      case None => st.(chosen := st.chosen[link.reservationId := link.departureId])
  }

  function ManualAfter(b: Input, links: seq<ManualLink>): ManualState {
    if |links| == 0 then ManualState({}, map[], [])
    else ManualStep(b, ManualAfter(b, links[..|links| - 1]), links[|links| - 1])
  }

  // ---- What becomes of each reservation ----

  datatype Outcome = Joins(departureId: Id, via: Via) | OnLegacy | Reported(reason: Reason, futureActive: bool)

  function OutcomeOf(b: Input, chosen: map<Id, Id>, u: Unlinked): Outcome {
    var ids := CandidateIds(b, ReservationKey(u.row));
    var past := StrLess(u.row.travelDate, b.today);
    if u.id in chosen then Joins(chosen[u.id], MANUAL)
    else if |ids| == 1 then Joins(ids[0], if IsHistoryId(b, ids[0]) then HISTORY else EXISTING)
    else if |ids| == 0 && (past || u.row.status == Cancelled) then OnLegacy
    else Reported(if |ids| == 0 then NO_DEPARTURE else SEVERAL_DEPARTURES, !past && u.row.status == Active)
  }

  function JoinAt(b: Input, chosen: map<Id, Id>): nat -> Option<PlannedLink> {
    (i: nat) =>
      if i < |b.rows| && OutcomeOf(b, chosen, b.rows[i]).Joins? then
        var outcome := OutcomeOf(b, chosen, b.rows[i]);
        Some(PlannedLink(b.rows[i].id, outcome.departureId, outcome.via))
      else None
  }

  function UnmatchedRowAt(b: Input, chosen: map<Id, Id>): nat -> Option<Unlinked> {
    (i: nat) => if i < |b.rows| && OutcomeOf(b, chosen, b.rows[i]).OnLegacy? then Some(b.rows[i]) else None
  }

  function ReportAt(b: Input, chosen: map<Id, Id>): nat -> Option<Report> {
    (i: nat) =>
      if i < |b.rows| && OutcomeOf(b, chosen, b.rows[i]).Reported? then
        var outcome := OutcomeOf(b, chosen, b.rows[i]);
        Some(Report(b.rows[i].id, outcome.reason, outcome.futureActive, CandidateIds(b, ReservationKey(b.rows[i].row))))
      else None
  }

  function Leftovers(b: Input, chosen: map<Id, Id>): seq<Unlinked> {
    Collect(|b.rows|, UnmatchedRowAt(b, chosen))
  }

  // ---- Groups on LEGACY departures ----

  function GroupKeys(rows: seq<Unlinked>): seq<LinkKey> {
    if |rows| == 0 then []
    else
      var before, key := GroupKeys(rows[..|rows| - 1]), ReservationKey(rows[|rows| - 1].row);
      if key in before then before else before + [key]
  }

  function GroupOf(rows: seq<Unlinked>, key: LinkKey): seq<Unlinked> {
    if |rows| == 0 then []
    else GroupOf(rows[..|rows| - 1], key) + if ReservationKey(rows[|rows| - 1].row) == key then [rows[|rows| - 1]] else []
  }

  /** The rows of the groups, one group after another. */
  function Grouped(keys: seq<LinkKey>, rows: seq<Unlinked>): seq<Unlinked> {
    if |keys| == 0 then []
    else Grouped(keys[..|keys| - 1], rows) + GroupOf(rows, keys[|keys| - 1])
  }

  function ReservationIds(rows: seq<Unlinked>): seq<Id> {
    seq(|rows|, i requires 0 <= i < |rows| => rows[i].id)
  }

  /** The LEGACY departure a key's leftovers go on: the stored one, or a new one. */
  function LegacyTarget(b: Input, key: LinkKey): Id {
    var stored := LegacyStored(b.stored, key);
    if stored.Some? then stored.value.id else b.legacyId(key)
  }

  function LegacyLinks(b: Input, rows: seq<Unlinked>): seq<PlannedLink> {
    seq(|rows|, i requires 0 <= i < |rows| => PlannedLink(rows[i].id, LegacyTarget(b, ReservationKey(rows[i].row)), LEFTOVER))
  }

  function SeatsOn(legacySeats: seq<(Id, int)>, departureId: Id): seq<int> {
    if |legacySeats| == 0 then []
    else
      SeatsOn(legacySeats[..|legacySeats| - 1], departureId)
      + if legacySeats[|legacySeats| - 1].0 == departureId then [legacySeats[|legacySeats| - 1].1] else []
  }

  function NewLegacy(b: Input, key: LinkKey, group: seq<Unlinked>): (legacy: PlannedLegacy)
    requires key.rideId in b.rides
    ensures legacy.id == b.legacyId(key) && legacy.key == key
  {
    PlannedLegacy(b.legacyId(key), key, LegacyArrivalOf(group), b.rides[key.rideId].lineId,
                  LegacyCapacity(b.rides[key.rideId].capacity, group), ReservationIds(group),
                  if |ArrivalTimes(group)| > 1 then ArrivalTimes(group) else [], RepeatedSeats(ActiveSeats(group)))
  }

  function Reused(b: Input, existing: StoredRow, group: seq<Unlinked>): ReusedLegacy {
    ReusedLegacy(existing.id, ReservationIds(group), SeatsAbove(group, existing.row.capacity),
                 RepeatedSeats(SeatsOn(b.legacySeats, existing.id) + ActiveSeats(group)))
  }

  function NewLegacyAt(b: Input, keys: seq<LinkKey>, rows: seq<Unlinked>): nat -> Option<PlannedLegacy> {
    (i: nat) =>
      if i < |keys| && LegacyStored(b.stored, keys[i]).None? && keys[i].rideId in b.rides
      then Some(NewLegacy(b, keys[i], GroupOf(rows, keys[i]))) else None
  }

  function ReusedAt(b: Input, keys: seq<LinkKey>, rows: seq<Unlinked>): nat -> Option<ReusedLegacy> {
    (i: nat) =>
      if i < |keys| && LegacyStored(b.stored, keys[i]).Some?
      then Some(Reused(b, LegacyStored(b.stored, keys[i]).value, GroupOf(rows, keys[i]))) else None
  }

  /** Every new LEGACY departure's ride was loaded. */
  ghost predicate RidesLoaded(b: Input, keys: seq<LinkKey>) {
    forall k :: k in keys && LegacyStored(b.stored, k).None? ==> k.rideId in b.rides
  }

  /** The manual links to apply. */
  function Chosen(b: Input): map<Id, Id> {
    ManualAfter(b, b.manual).chosen
  }

  function LeftoverKeys(b: Input): seq<LinkKey> {
    GroupKeys(Leftovers(b, Chosen(b)))
  }

  function LegacyCreates(b: Input): seq<PlannedLegacy> {
    Collect(|LeftoverKeys(b)|, NewLegacyAt(b, LeftoverKeys(b), Leftovers(b, Chosen(b))))
  }

  function LegacyReused(b: Input): seq<ReusedLegacy> {
    Collect(|LeftoverKeys(b)|, ReusedAt(b, LeftoverKeys(b), Leftovers(b, Chosen(b))))
  }

  function Links(b: Input): seq<PlannedLink> {
    Collect(|b.rows|, JoinAt(b, Chosen(b))) + LegacyLinks(b, Grouped(LeftoverKeys(b), Leftovers(b, Chosen(b))))
  }

  function Reports(b: Input): seq<Report> {
    Collect(|b.rows|, ReportAt(b, Chosen(b)))
  }

  function PlanBackfill(b: Input): BackfillPlan {
    BackfillPlan(HistoryCreates(b), LegacyCreates(b), LegacyReused(b), Links(b), Reports(b),
                 |ManualAfter(b, b.manual).done|, ManualAfter(b, b.manual).invalid)
  }
}
