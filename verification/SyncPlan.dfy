/**
 * `departure-sync.ts`, the planning half: what a sync would write, from the timetable's
 * departures, the stored window, the rides and the exception rows.
 */
module SyncPlan {
  import opened Basics
  import opened Timetable
  import opened Tables

  /** A loaded departure: its row and how many reservations reference it. */
  datatype Stored = Stored(id: Id, row: Departure, referenceCount: nat)

  datatype ExceptionRecord = ExceptionRecord(id: Id, row: RideException)

  datatype Field = LineIdField | DepartureTimeField | ArrivalTimeField | CapacityField | DroppedField | StopsField

  datatype Update = Update(stored: Stored, planned: Planned, dropped: bool, fields: set<Field>)

  datatype Plan = Plan(creates: seq<Planned>, updates: seq<Update>, drops: seq<Stored>, deletes: seq<Stored>)

  const NO_CHANGES := Plan([], [], [], [])

  // ---- Exceptions ----

  const SYSTEM_ACTOR_ID: Id := "system"

  /** The first SKIP on a ride and date, in the order the records were loaded. */
  function SkipFor(records: seq<ExceptionRecord>, rideId: Id, date: string): Option<ExceptionRecord> {
    if |records| == 0 then None
    else if IsSkipOf(records[0].row, rideId, date) then Some(records[0])
    else SkipFor(records[1..], rideId, date)
  }

  predicate IsSkipOf(row: RideException, rideId: Id, date: string) {
    row.kind == SKIP && row.rideId == rideId && row.exceptionDate == date
  }

  /** An ADDITIONAL with both times: the only kind that adds a bus. */
  predicate IsBusAdditional(row: RideException) {
    row.kind == ADDITIONAL && row.departureTime.Some? && row.arrivalTime.Some?
  }

  /** A SKIP as a cancellation, credited to its author at the moment it was written. */
  function SkipCancellation(skip: Option<ExceptionRecord>): Option<Cancellation> {
    if skip.None? then None
    else Some(Cancellation(skip.value.row.createdAt,
                           OrElse(skip.value.row.updatedBy, OrElse(skip.value.row.createdBy, SYSTEM_ACTOR_ID))))
  }

  /** `skipsByRideDate`: an index of the first SKIP on each ride and date. */
  method SkipsByRideDate(records: seq<ExceptionRecord>) returns (skips: map<(Id, string), ExceptionRecord>)
    ensures forall r, d :: (if (r, d) in skips then Some(skips[(r, d)]) else None) == SkipFor(records, r, d)
  {
    skips := map[];
    var i := 0;
    while i < |records|
      invariant 0 <= i <= |records|
      invariant forall r, d ::
        (if (r, d) in skips then Some(skips[(r, d)]) else SkipFor(records[i..], r, d)) == SkipFor(records, r, d)
    {
      var record := records[i];
      assert records[i..][1..] == records[i + 1..];
      var key := (record.row.rideId, record.row.exceptionDate);
      if record.row.kind == SKIP && key !in skips {
        skips := skips[key := record];
      }
      i := i + 1;
    }
  }

  // ---- Comparing a stored departure with its plan ----

  function SortedStops(stops: seq<Stop>): seq<Stop> {
    SortBy(stops, (s: Stop) => s.orderIndex)
  }

  predicate SameStops(left: seq<Stop>, right: seq<Stop>) {
    SortedStops(left) == SortedStops(right)
  }

  /** Stop rows with distinct order indexes are the same stops exactly when they are the same rows, in any order. */
  lemma {:induction false} SameStopsIsSameRows(left: seq<Stop>, right: seq<Stop>)
    requires KeyIdentifies(multiset(left), (s: Stop) => s.orderIndex)
    ensures SameStops(left, right) <==> multiset(left) == multiset(right)
  {
    var key := (s: Stop) => s.orderIndex;
    if multiset(left) == multiset(right) {
      SortByAscending(left, key);
      SortByAscending(right, key);
      AscendingUnique(SortBy(left, key), SortBy(right, key), key);
    }
  }

  function ChangedFields(row: Departure, planned: Planned, dropped: bool): set<Field> {
    (if row.lineId != planned.lineId then {LineIdField} else {})
    + (if row.departureTime != planned.departureTime then {DepartureTimeField} else {})
    + (if row.arrivalTime != planned.arrivalTime then {ArrivalTimeField} else {})
    + (if row.capacity != planned.capacity then {CapacityField} else {})
    + (if row.droppedAt.Some? != dropped then {DroppedField} else {})
    + (if !SameStops(row.stops, planned.stops) then {StopsField} else {})
  }

  /** While its ride does not run, and for good once it is an orphan the timetable dropped. */
  predicate ExtraDropped(row: Departure, rideDropped: bool) {
    rideDropped || (row.rideExceptionId.None? && row.cancelled.None? && row.droppedAt.Some?)
  }

  /** The update that brings a stored departure to its planned state, when anything differs. */
  function DepartureUpdate(stored: Stored, planned: Planned, dropped: bool): Option<Update> {
    var fields := ChangedFields(stored.row, planned, dropped);
    if fields != {} then Some(Update(stored, planned, dropped, fields)) else None
  }

  // ---- The diff, as a function of its four inputs ----

  function KeyOf(row: Departure): PlanKey {
    ScheduleKey(row.rideId, row.serviceDate)
  }

  /** The first timetable departure stored under a key. */
  function MatchStored(stored: seq<Stored>, key: PlanKey): Option<Stored> {
    if |stored| == 0 then None
    else if stored[0].row.source != EXTRA && KeyOf(stored[0].row) == key then Some(stored[0])
    else MatchStored(stored[1..], key)
  }

  function RideById(rides: seq<Ride>, id: Id): Option<Ride> {
    if |rides| == 0 then None
    else if rides[|rides| - 1].id == id then Some(rides[|rides| - 1])
    else RideById(rides[..|rides| - 1], id)
  }

  /** A key planned for the first time; a repeated one finds its departure already taken. */
  predicate FirstPlanned(planned: seq<Planned>, i: nat) {
    i < |planned| && forall j :: 0 <= j < i ==> planned[j].key != planned[i].key
  }

  function MatchAt(planned: seq<Planned>, stored: seq<Stored>, i: nat): Option<Stored> {
    if FirstPlanned(planned, i) then MatchStored(stored, planned[i].key) else None
  }

  function ScheduleUpdateAt(planned: seq<Planned>, stored: seq<Stored>): nat -> Option<Update> {
    (i: nat) =>
      var m := MatchAt(planned, stored, i);
      if m.Some? && i < |planned| then DepartureUpdate(m.value, planned[i], false) else None
  }

  function CreateWithSkip(p: Planned, records: seq<ExceptionRecord>): Planned {
    var skip := SkipFor(records, p.rideId, p.serviceDate);
    if skip.Some? then p.(cancellation := SkipCancellation(skip)) else p
  }

  function ScheduleCreateAt(planned: seq<Planned>, stored: seq<Stored>, records: seq<ExceptionRecord>): nat -> Option<Planned> {
    (i: nat) =>
      if i < |planned| && MatchAt(planned, stored, i).None? then Some(CreateWithSkip(planned[i], records)) else None
  }

  /** A stored extra as its ride shapes it, and whether it should be dropped. */
  function ExtraTarget(ride: Ride, id: Id, row: Departure): (Planned, bool) {
    (PlanExtra(ride, id, row.serviceDate, row.departureTime, row.arrivalTime, row.capacity, row.rideExceptionId),
     ExtraDropped(row, !RideRuns(ride)))
  }

  function ExtraUpdateAt(stored: seq<Stored>, rides: seq<Ride>): nat -> Option<Update> {
    (i: nat) =>
      if i < |stored| && stored[i].row.source == EXTRA then
        match RideById(rides, stored[i].row.rideId)
        case None => None
        case Some(ride) =>
          var (planned, dropped) := ExtraTarget(ride, stored[i].id, stored[i].row);
          DepartureUpdate(stored[i], planned, dropped)
      else None
  }

  predicate Linked(stored: seq<Stored>, exceptionId: Id) {
    exists q :: q in stored && q.row.source == EXTRA && q.row.rideExceptionId == Some(exceptionId)
  }

  function ExtraOf(ride: Ride, record: ExceptionRecord): Planned
    requires IsBusAdditional(record.row)
  {
    PlanExtra(ride, record.id, record.row.exceptionDate, record.row.departureTime.value, record.row.arrivalTime.value,
              ride.capacity, Some(record.id)).(timetableDropped := !RideRuns(ride))
  }

  function ExtraCreateAt(records: seq<ExceptionRecord>, stored: seq<Stored>, rides: seq<Ride>): nat -> Option<Planned> {
    (i: nat) =>
      if i < |records| && IsBusAdditional(records[i].row) && !Linked(stored, records[i].id) then
        match RideById(rides, records[i].row.rideId)
        case None => None
        case Some(ride) => Some(ExtraOf(ride, records[i]))
      else None
  }

  /** The first timetable row stored under its key. */
  predicate FirstStored(stored: seq<Stored>, i: nat) {
    i < |stored| && stored[i].row.source != EXTRA && MatchStored(stored[..i], KeyOf(stored[i].row)).None?
  }

  /** A second timetable row under a key, which the unique index rules out. */
  function UnmatchedAt(stored: seq<Stored>): nat -> Option<Stored> {
    (i: nat) => if i < |stored| && stored[i].row.source != EXTRA && !FirstStored(stored, i) then Some(stored[i]) else None
  }

  predicate PlannedKey(planned: seq<Planned>, key: PlanKey) {
    exists p :: p in planned && p.key == key
  }

  /** A timetable row whose key the timetable no longer produces. */
  function LeftoverAt(stored: seq<Stored>, planned: seq<Planned>): nat -> Option<Stored> {
    (i: nat) => if FirstStored(stored, i) && !PlannedKey(planned, KeyOf(stored[i].row)) then Some(stored[i]) else None
  }

  function Gone(stored: seq<Stored>, planned: seq<Planned>): seq<Stored> {
    Collect(|stored|, UnmatchedAt(stored)) + Collect(|stored|, LeftoverAt(stored, planned))
  }

  predicate Kept(q: Stored) {
    q.referenceCount > 0 || q.row.cancelled.Some?
  }

  function DropAt(gone: seq<Stored>): nat -> Option<Stored> {
    (i: nat) => if i < |gone| && Kept(gone[i]) && gone[i].row.droppedAt.None? then Some(gone[i]) else None
  }

  function DeleteAt(gone: seq<Stored>): nat -> Option<Stored> {
    (i: nat) => if i < |gone| && !Kept(gone[i]) then Some(gone[i]) else None
  }

  function Diff(planned: seq<Planned>, stored: seq<Stored>, rides: seq<Ride>, records: seq<ExceptionRecord>): Plan {
    var gone := Gone(stored, planned);
    Plan(
      Collect(|planned|, ScheduleCreateAt(planned, stored, records))
        + Collect(|records|, ExtraCreateAt(records, stored, rides)),
      Collect(|planned|, ScheduleUpdateAt(planned, stored)) + Collect(|stored|, ExtraUpdateAt(stored, rides)),
      Collect(|gone|, DropAt(gone)),
      Collect(|gone|, DeleteAt(gone)))
  }

  /** `diffDepartures`: one pass over each input, taking matched departures out of an index. */
  method DiffDepartures(planned: seq<Planned>, stored: seq<Stored>, rides: seq<Ride>, records: seq<ExceptionRecord>)
    returns (plan: Plan)
    ensures plan == Diff(planned, stored, rides, records)
  {
    var ridesById := IndexRides(rides);
    var skips := SkipsByRideDate(records);
    var storedByKey, unmatched := IndexStored(stored);
    var creates, updates, left := MatchPlanned(planned, stored, records, storedByKey, skips);
    var extraUpdates := UpdateExtras(stored, rides, ridesById);
    var extraCreates := CreateExtras(records, stored, rides, ridesById);
    forall k ensures k in left <==> MatchStored(stored, k).Some? && !PlannedKey(planned, k) {
      assert (if k in storedByKey then Some(storedByKey[k]) else None) == MatchStored(stored, k);
      assert PlannedKey(planned, k) <==> TakenBefore(planned, |planned|, k);
    }
    var remaining := Remaining(stored, planned, left);
    var gone := unmatched + remaining;
    var drops, deletes := SplitGone(gone);
    plan := Plan(creates + extraCreates, updates + extraUpdates, drops, deletes);
  }

  method IndexRides(rides: seq<Ride>) returns (byId: map<Id, Ride>)
    ensures forall r :: (if r in byId then Some(byId[r]) else None) == RideById(rides, r)
  {
    byId := map[];
    var i := 0;
    while i < |rides|
      invariant 0 <= i <= |rides|
      invariant forall r :: (if r in byId then Some(byId[r]) else None) == RideById(rides[..i], r)
    {
      byId := byId[rides[i].id := rides[i]];
      assert rides[..i + 1][..i] == rides[..i];
      i := i + 1;
    }
    assert rides[..|rides|] == rides;
  }

  lemma {:induction false} MatchStoredExtend(stored: seq<Stored>, i: nat, key: PlanKey)
    requires i < |stored|
    ensures MatchStored(stored[..i + 1], key) ==
      if MatchStored(stored[..i], key).Some? then MatchStored(stored[..i], key)
      else if stored[i].row.source != EXTRA && KeyOf(stored[i].row) == key then Some(stored[i]) else None
  {
    if i > 0 {
      MatchStoredExtend(stored[1..], i - 1, key);
      assert stored[..i + 1][1..] == stored[1..][..i];
      assert stored[..i][1..] == stored[1..][..i - 1];
    }
  }

  method IndexStored(stored: seq<Stored>) returns (byKey: map<PlanKey, Stored>, unmatched: seq<Stored>)
    ensures forall k :: (if k in byKey then Some(byKey[k]) else None) == MatchStored(stored, k)
    ensures unmatched == Collect(|stored|, UnmatchedAt(stored))
  {
    byKey, unmatched := map[], [];
    var i := 0;
    while i < |stored|
      invariant 0 <= i <= |stored|
      invariant forall k :: (if k in byKey then Some(byKey[k]) else None) == MatchStored(stored[..i], k)
      invariant unmatched == Collect(i, UnmatchedAt(stored))
    {
      var q := stored[i];
      forall k { MatchStoredExtend(stored, i, k); }
      if q.row.source != EXTRA {
        var key := KeyOf(q.row);
        if key !in byKey {
          byKey := byKey[key := q];
        } else {
          unmatched := unmatched + [q];
        }
      }
      i := i + 1;
    }
    assert stored[..|stored|] == stored;
  }

  predicate TakenBefore(planned: seq<Planned>, i: nat, key: PlanKey) {
    exists j :: 0 <= j < i && j < |planned| && planned[j].key == key
  }

  /** The index with the matches of the first `i` planned departures taken out. */
  function Untaken(byKey: map<PlanKey, Stored>, planned: seq<Planned>, i: nat): map<PlanKey, Stored> {
    map k | k in byKey && !TakenBefore(planned, i, k) :: byKey[k]
  }

  lemma {:induction false} UntakenStep(byKey: map<PlanKey, Stored>, planned: seq<Planned>, i: nat)
    requires i < |planned|
    ensures Untaken(byKey, planned, i + 1) == Untaken(byKey, planned, i) - {planned[i].key}
    ensures Untaken(byKey, planned, 0) == byKey
  {
    assert TakenBefore(planned, i + 1, planned[i].key);
  }

  lemma {:induction false} NothingTaken(byKey: map<PlanKey, Stored>, planned: seq<Planned>)
    ensures Untaken(byKey, planned, 0) == byKey
  {
  }

  lemma {:induction false} MatchAtIndex(planned: seq<Planned>, stored: seq<Stored>, i: nat, byKey: map<PlanKey, Stored>)
    requires i < |planned|
    requires forall k :: (if k in byKey then Some(byKey[k]) else None) == MatchStored(stored, k)
    ensures MatchAt(planned, stored, i)
      == var left := Untaken(byKey, planned, i); if planned[i].key in left then Some(left[planned[i].key]) else None
  {
    assert FirstPlanned(planned, i) <==> !TakenBefore(planned, i, planned[i].key);
    assert (if planned[i].key in byKey then Some(byKey[planned[i].key]) else None) == MatchStored(stored, planned[i].key);
  }

  lemma {:induction false} PlannedStep(planned: seq<Planned>, stored: seq<Stored>, records: seq<ExceptionRecord>, i: nat)
    requires i < |planned|
    ensures Collect(i + 1, ScheduleCreateAt(planned, stored, records))
      == Collect(i, ScheduleCreateAt(planned, stored, records))
         + if MatchAt(planned, stored, i).None? then [CreateWithSkip(planned[i], records)] else []
    ensures Collect(i + 1, ScheduleUpdateAt(planned, stored))
      == Collect(i, ScheduleUpdateAt(planned, stored)) + NewUpdate(MatchAt(planned, stored, i), planned[i])
  {
  }

  function NewUpdate(found: Option<Stored>, planned: Planned): seq<Update> {
    if found.None? then []
    else
      var update := DepartureUpdate(found.value, planned, false);
      if update.Some? then [update.value] else []
  }

  /** The second pass: each planned departure takes its match out of the index, or is created. */
  method MatchPlanned(planned: seq<Planned>, stored: seq<Stored>, records: seq<ExceptionRecord>,
                      byKey: map<PlanKey, Stored>, skips: map<(Id, string), ExceptionRecord>)
    returns (creates: seq<Planned>, updates: seq<Update>, left: map<PlanKey, Stored>)
    requires forall k :: (if k in byKey then Some(byKey[k]) else None) == MatchStored(stored, k)
    requires forall r, d :: (if (r, d) in skips then Some(skips[(r, d)]) else None) == SkipFor(records, r, d)
    ensures creates == Collect(|planned|, ScheduleCreateAt(planned, stored, records))
    ensures updates == Collect(|planned|, ScheduleUpdateAt(planned, stored))
    ensures left == Untaken(byKey, planned, |planned|)
  {
    hide MatchStored, MatchAt, SkipFor, DepartureUpdate, CreateWithSkip, TakenBefore, FirstPlanned, ScheduleCreateAt, ScheduleUpdateAt, Untaken;
    creates, updates, left := [], [], byKey;
    if |planned| > 0 { UntakenStep(byKey, planned, 0); } else { NothingTaken(byKey, planned); }
    var i := 0;
    while i < |planned|
      invariant 0 <= i <= |planned|
      invariant creates == Collect(i, ScheduleCreateAt(planned, stored, records))
      invariant updates == Collect(i, ScheduleUpdateAt(planned, stored))
      invariant left == Untaken(byKey, planned, i)
    {
      var departure := planned[i];
      MatchAtIndex(planned, stored, i, byKey);
      PlannedStep(planned, stored, records, i);
      UntakenStep(byKey, planned, i);
      if departure.key !in left {
        var create := ApplySkip(departure, skips, records);
        creates := creates + [create];
      } else {
        updates := updates + NewUpdate(Some(left[departure.key]), departure);
      }
      left := left - {departure.key};
      i := i + 1;
    }
  }

  method ApplySkip(departure: Planned, skips: map<(Id, string), ExceptionRecord>, ghost records: seq<ExceptionRecord>)
    returns (create: Planned)
    requires forall r, d :: (if (r, d) in skips then Some(skips[(r, d)]) else None) == SkipFor(records, r, d)
    ensures create == CreateWithSkip(departure, records)
  {
    var key := (departure.rideId, departure.serviceDate);
    assert (if key in skips then Some(skips[key]) else None) == SkipFor(records, departure.rideId, departure.serviceDate);
    create := if key in skips then departure.(cancellation := SkipCancellation(Some(skips[key]))) else departure;
  }

  method UpdateExtras(stored: seq<Stored>, rides: seq<Ride>, ridesById: map<Id, Ride>) returns (updates: seq<Update>)
    requires forall r :: (if r in ridesById then Some(ridesById[r]) else None) == RideById(rides, r)
    ensures updates == Collect(|stored|, ExtraUpdateAt(stored, rides))
  {
    hide RideById, ChangedFields, SameStops, LinePathStops, PlanExtra, RideRuns;
    updates := [];
    var i := 0;
    while i < |stored|
      invariant 0 <= i <= |stored|
      invariant updates == Collect(i, ExtraUpdateAt(stored, rides))
    {
      var extra := stored[i];
      assert (if extra.row.rideId in ridesById then Some(ridesById[extra.row.rideId]) else None) == RideById(rides, extra.row.rideId);
      if extra.row.source == EXTRA && extra.row.rideId in ridesById {
        var ride := ridesById[extra.row.rideId];
        var planned := PlanExtra(ride, extra.id, extra.row.serviceDate, extra.row.departureTime, extra.row.arrivalTime,
                                 extra.row.capacity, extra.row.rideExceptionId);
        var dropped := ExtraDropped(extra.row, !RideRuns(ride));
        var fields := ChangedFields(extra.row, planned, dropped);
        if fields != {} {
          updates := updates + [Update(extra, planned, dropped, fields)];
        }
      }
      i := i + 1;
    }
  }

  method CreateExtras(records: seq<ExceptionRecord>, stored: seq<Stored>, rides: seq<Ride>, ridesById: map<Id, Ride>)
    returns (creates: seq<Planned>)
    requires forall r :: (if r in ridesById then Some(ridesById[r]) else None) == RideById(rides, r)
    ensures creates == Collect(|records|, ExtraCreateAt(records, stored, rides))
  {
    hide RideById, ExtraOf, Linked;
    var linked := LinkedExceptions(stored);
    creates := [];
    var i := 0;
    while i < |records|
      invariant 0 <= i <= |records|
      invariant creates == Collect(i, ExtraCreateAt(records, stored, rides))
    {
      var record := records[i];
      assert (if record.row.rideId in ridesById then Some(ridesById[record.row.rideId]) else None) == RideById(rides, record.row.rideId);
      if IsBusAdditional(record.row) && record.row.rideId in ridesById && record.id !in linked {
        creates := creates + [ExtraOf(ridesById[record.row.rideId], record)];
      }
      i := i + 1;
    }
  }

  method LinkedExceptions(stored: seq<Stored>) returns (linked: set<Id>)
    ensures forall e :: e in linked <==> Linked(stored, e)
  {
    linked := set q | q in stored && q.row.source == EXTRA && q.row.rideExceptionId.Some? :: q.row.rideExceptionId.value;
  }

  /** What is left in the index, in insertion order. */
  method Remaining(stored: seq<Stored>, ghost planned: seq<Planned>, left: map<PlanKey, Stored>) returns (rest: seq<Stored>)
    requires forall k :: k in left <==> MatchStored(stored, k).Some? && !PlannedKey(planned, k)
    ensures rest == Collect(|stored|, LeftoverAt(stored, planned))
  {
    rest := [];
    var seen: set<PlanKey> := {};
    var i := 0;
    while i < |stored|
      invariant 0 <= i <= |stored|
      invariant forall k :: k in seen <==> MatchStored(stored[..i], k).Some?
      invariant rest == Collect(i, LeftoverAt(stored, planned))
    {
      var q := stored[i];
      forall k { MatchStoredExtend(stored, i, k); }
      if q.row.source != EXTRA {
        var key := KeyOf(q.row);
        MatchStoredExtend(stored, i, key);
        MatchPersists(stored, i + 1, key);
        if key !in seen && key in left {
          rest := rest + [q];
        }
        seen := seen + {key};
      }
      i := i + 1;
    }
  }

  lemma {:induction false} MatchPersists(stored: seq<Stored>, i: nat, key: PlanKey)
    requires i <= |stored| && MatchStored(stored[..i], key).Some?
    ensures MatchStored(stored, key) == MatchStored(stored[..i], key)
    decreases |stored| - i
  {
    if i == |stored| {
      assert stored[..i] == stored;
    } else {
      MatchStoredExtend(stored, i, key);
      MatchPersists(stored, i + 1, key);
    }
  }

  method SplitGone(gone: seq<Stored>) returns (drops: seq<Stored>, deletes: seq<Stored>)
    ensures drops == Collect(|gone|, DropAt(gone))
    ensures deletes == Collect(|gone|, DeleteAt(gone))
  {
    drops, deletes := [], [];
    var i := 0;
    while i < |gone|
      invariant 0 <= i <= |gone|
      invariant drops == Collect(i, DropAt(gone))
      invariant deletes == Collect(i, DeleteAt(gone))
    {
      if !Kept(gone[i]) {
        deletes := deletes + [gone[i]];
      } else if gone[i].row.droppedAt.None? {
        drops := drops + [gone[i]];
      }
      i := i + 1;
    }
  }
}
