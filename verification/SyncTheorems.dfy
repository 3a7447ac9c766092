/** Consequences of the row-by-row facts: what a store in step holds, and what whole runs of syncs keep. */
module SyncTheorems {
  import opened Basics
  import opened Calendar
  import opened Timetable
  import opened Tables
  import opened SyncPlan
  import opened SyncRules
  import opened SyncApply
  import opened SyncProofs

  // ---- The window after a sync is the timetable ----

  /** The stored columns and stops are the planned ones. */
  predicate RowMatches(row: Departure, p: Planned) {
    && row.lineId == p.lineId && row.departureTime == p.departureTime && row.arrivalTime == p.arrivalTime
    && row.capacity == p.capacity && SameStops(row.stops, p.stops)
  }

  predicate RunsAsScheduled(s: Store, w: Window, id: Id) {
    id in s.departures && s.departures[id].source == SCHEDULE && InWindow(w, s.departures[id].serviceDate)
    && s.departures[id].droppedAt.None?
  }

  predicate StoresPlanned(s: Store, w: Window, id: Id, p: Planned) {
    RunsAsScheduled(s, w, id) && IsScheduleOf(s.departures[id], p.rideId, p.serviceDate) && RowMatches(s.departures[id], p)
  }

  lemma {:induction false} ScheduledIsPlanned(s: Store, w: Window, rides: seq<Ride>, id: Id) returns (p: Planned)
    requires Valid(s) && InStep(s, w) && Walkable(w) && IsRideLoad(rides, s) && RunsAsScheduled(s, w, id)
    ensures p in PlannedOver(rides, w) && StoresPlanned(s, w, id, p)
  {
    hide PlannedOn, InWindow, Walkable, IsDate, PlannedOver, SameStops, Referenced;
    GeneratedOverWindow(rides, w);
    var row := s.departures[id];
    assert Settled(s, id);
    assert s.rides[row.rideId] in rides;
    p := PlannedOn(s.rides[row.rideId], row.serviceDate).value;
    PlannedNames(s.rides[row.rideId], row.serviceDate);
  }

  lemma {:induction false} PlannedIsProduced(s: Store, w: Window, rides: seq<Ride>, p: Planned)
    requires Walkable(w) && IsRideLoad(rides, s) && RidesNamed(s.rides) && p in PlannedOver(rides, w)
    ensures TimetableProduces(s.rides, w, p.rideId, p.serviceDate) && PlannedOn(s.rides[p.rideId], p.serviceDate) == Some(p)
  {
    hide PlannedOn, InWindow, Walkable, IsDate, PlannedOver;
    GeneratedOverWindow(rides, w);
    var ride :| ride in rides && ride.id == p.rideId && PlannedOn(ride, p.serviceDate) == Some(p);
  }

  /** A settled row that its ride produces has the produced columns and stops, and no mark. */
  lemma {:induction false} SettledMatches(s: Store, id: Id, p: Planned)
    requires id in s.departures && Settled(s, id) && IsScheduleOf(s.departures[id], p.rideId, p.serviceDate)
    requires p.rideId in s.rides && PlannedOn(s.rides[p.rideId], p.serviceDate) == Some(p)
    ensures s.departures[id].droppedAt.None? && RowMatches(s.departures[id], p)
  {
    hide PlannedOn, SameStops, Referenced;
  }

  lemma {:induction false} PlannedIsScheduled(s: Store, w: Window, rides: seq<Ride>, p: Planned) returns (id: Id)
    requires Valid(s) && InStep(s, w) && Walkable(w) && IsRideLoad(rides, s) && p in PlannedOver(rides, w)
    ensures StoresPlanned(s, w, id, p)
  {
    hide PlannedOn, InWindow, Walkable, IsDate, PlannedOver, RowMatches, Settled;
    PlannedIsProduced(s, w, rides, p);
    assert HasSchedule(s, p.rideId, p.serviceDate);
    id :| id in s.departures && IsScheduleOf(s.departures[id], p.rideId, p.serviceDate);
    SettledMatches(s, id, p);
  }

  /**
   * In a store in step the undropped timetable rows of the window are the generator's
   * departures, one to one and field by field.
   */
  lemma {:induction false} WindowIsTimetable(s: Store, w: Window, rides: seq<Ride>)
    requires Valid(s) && InStep(s, w) && Walkable(w) && IsRideLoad(rides, s)
    ensures forall id :: RunsAsScheduled(s, w, id) ==> exists p :: p in PlannedOver(rides, w) && StoresPlanned(s, w, id, p)
    ensures forall p :: p in PlannedOver(rides, w) ==> exists id :: StoresPlanned(s, w, id, p)
    ensures forall a, b, p :: StoresPlanned(s, w, a, p) && StoresPlanned(s, w, b, p) ==> a == b
    ensures DistinctKeys(PlannedOver(rides, w))
  {
    hide Valid, InStep, Walkable, IsRideLoad, PlannedOver, StoresPlanned, InWindow;
    forall id | RunsAsScheduled(s, w, id) ensures exists p :: p in PlannedOver(rides, w) && StoresPlanned(s, w, id, p) {
      var p := ScheduledIsPlanned(s, w, rides, id);
    }
    forall p | p in PlannedOver(rides, w) ensures exists id :: StoresPlanned(s, w, id, p) {
      var id := PlannedIsScheduled(s, w, rides, p);
    }
    forall a, b, p | StoresPlanned(s, w, a, p) && StoresPlanned(s, w, b, p) ensures a == b {
      OneRowForEach(s, w, a, b, p);
    }
    assert DistinctKeys(PlannedOver(rides, w)) by { RidesDistinct(rides, s); GeneratedOverWindow(rides, w); }
  }

  lemma {:induction false} RidesDistinct(rides: seq<Ride>, s: Store)
    requires IsRideLoad(rides, s)
    ensures DistinctRides(rides)
  {
  }

  lemma {:induction false} OneRowForEach(s: Store, w: Window, a: Id, b: Id, p: Planned)
    requires Valid(s) && StoresPlanned(s, w, a, p) && StoresPlanned(s, w, b, p)
    ensures a == b
  {
    hide Valid, InWindow, RowMatches;
    UniqueIn(s, a, b);
  }

  // ---- Insert only, then full ----

  lemma {:induction false} CreatedStays(s: Store, w: Window, q: Query, newId: PlanKey -> Id, now: int, again: Query, id: Id)
    requires IsQuery(q, s, w) && Valid(s) && Walkable(w) && FreshSupply(newId, s.departures)
    requires var t := ApplySync(s, PlanOf(q, w), newId, now, InsertOnly); id in t.departures && id !in s.departures
    ensures var t := ApplySync(s, PlanOf(q, w), newId, now, InsertOnly);
      UpdateWanted(t, id).None? && Produced(t.rides, id, t.departures[id])
  {
    hide PlanOf, IsQuery, Valid, Walkable, CreateFor, NewRow, FreshSupply, UpdateWanted, Produced;
    var t := ApplySync(s, PlanOf(q, w), newId, now, InsertOnly);
    CreatedRows(s, w, q, newId, now);
    var key := CreatedBy(s, w, q.records, newId, now, t.departures, id);
    CreatedIsSettled(s, t, w, q.records, newId, now, key);
  }

  lemma {:induction false} SameStoredSameUpdate(s: Store, t: Store, w: Window, id: Id, now: int)
    requires t.rides == s.rides && t.reservations == s.reservations
    requires id in s.departures && id in t.departures && t.departures[id] == s.departures[id]
    ensures UpdateWanted(t, id) == UpdateWanted(s, id)
    ensures Deleted(t, w, id) == Deleted(s, w, id)
    ensures SyncedRow(t, w, id, now) == SyncedRow(s, w, id, now)
  {
    hide Loaded, Target, DepartureUpdate, Referenced, WrittenRow;
  }

  lemma {:induction false} SettledStays(t: Store, w: Window, id: Id, now: int)
    requires id in t.departures && UpdateWanted(t, id).None? && Produced(t.rides, id, t.departures[id])
    ensures !Deleted(t, w, id) && SyncedRow(t, w, id, now) == t.departures[id]
  {
    hide Loaded, UpdateWanted, Produced;
  }

  /** A nightly insert has left nothing to create. */
  lemma {:induction false} InsertedMissesNothing(s: Store, w: Window, q: Query, newId: PlanKey -> Id, now: int)
    requires IsQuery(q, s, w) && Valid(s) && Walkable(w) && FreshSupply(newId, s.departures)
    ensures NothingMissing(ApplySync(s, PlanOf(q, w), newId, now, InsertOnly), w)
  {
    hide PlanOf, IsQuery, Valid, Walkable, CreateFor, NewRow, FreshSupply, Deleted, RowsCreated, NothingMissing;
    CreatedRows(s, w, q, newId, now);
    NothingMissingAfter(s, ApplySync(s, PlanOf(q, w), newId, now, InsertOnly), w, q.records, newId, now);
  }

  lemma {:induction false} SameDepartures(s: Store, w: Window, q: Query, newId: PlanKey -> Id, now: int, again: Query)
    requires IsQuery(q, s, w) && Valid(s) && Walkable(w) && FreshSupply(newId, s.departures)
    requires IsQuery(again, ApplySync(s, PlanOf(q, w), newId, now, InsertOnly), w)
    ensures ApplySync(ApplySync(s, PlanOf(q, w), newId, now, InsertOnly), PlanOf(again, w).(creates := []), newId, now, Full).departures
      == ApplySync(s, PlanOf(q, w), newId, now, Full).departures
  {
    hide PlanOf, IsQuery, Valid, Walkable, CreateFor, NewRow, FreshSupply, UpdateWanted, Produced, Loaded, KeptRow, RewrittenRow;
    var t := ApplySync(s, PlanOf(q, w), newId, now, InsertOnly);
    CreatedRows(s, w, q, newId, now);
    SyncKeepsValid(s, w, q, newId, now, InsertOnly);
    FullSyncRows(s, w, q, newId, now);
    DropIds(t, w, again);
    RewrittenRows(t, w, again, t.departures, now);
    var full := ApplySync(s, PlanOf(q, w), newId, now, Full).departures;
    var twice := ApplySync(t, PlanOf(again, w).(creates := []), newId, now, Full).departures;
    forall id ensures (id in twice <==> id in full) && (id in full ==> twice[id] == full[id]) {
      if id in s.departures {
        SameStoredSameUpdate(s, t, w, id, now);
        SyncedFromRewritten(t, w, id, now);
        if IsGone(t, w, id) { GoneIsNotRewritten(t, w, id, now); }
      } else if id in t.departures {
        CreatedStays(s, w, q, newId, now, again, id);
        SettledStays(t, w, id, now);
        SyncedFromRewritten(t, w, id, now);
        var key := CreatedBy(s, w, q.records, newId, now, t.departures, id);
      } else if id in full {
        var key := CreatedBy(s, w, q.records, newId, now, full, id);
        assert false;
      }
    }
  }

  /**
   * Inserting first and syncing fully after reaches the same store as one full sync: same
   * rows under the same IDs, same reservation times.
   */
  lemma {:induction false} InsertThenFullIsFull(s: Store, w: Window, q: Query, newId: PlanKey -> Id, now: int, again: Query)
    requires IsQuery(q, s, w) && Valid(s) && Walkable(w) && FreshSupply(newId, s.departures)
    requires IsQuery(again, ApplySync(s, PlanOf(q, w), newId, now, InsertOnly), w)
    ensures PlanOf(again, w).creates == []
    ensures ApplySync(ApplySync(s, PlanOf(q, w), newId, now, InsertOnly), PlanOf(again, w), newId, now, Full)
      == ApplySync(s, PlanOf(q, w), newId, now, Full)
  {
    hide PlanOf, IsQuery, Valid, Walkable, FreshSupply, UpdateWanted, Produced, Loaded, CreateFor, NewRow;
    var t := ApplySync(s, PlanOf(q, w), newId, now, InsertOnly);
    SyncKeepsValid(s, w, q, newId, now, InsertOnly);
    InsertedMissesNothing(s, w, q, newId, now);
    NothingMissingIffNoCreates(again, t, w);
    SameDepartures(s, w, q, newId, now, again);
    assert PlanOf(again, w).(creates := []) == PlanOf(again, w);
    PlanUpdatesDistinct(q, s, w);
    PlanUpdatesDistinct(again, t, w);
    RetimeIsPointwise(s.reservations, PlanOf(q, w).updates);
    RetimeIsPointwise(t.reservations, PlanOf(again, w).updates);
    CreatedRows(s, w, q, newId, now);
    forall r | r in s.reservations
      ensures RetimedRow(s.reservations[r], PlanOf(again, w).updates) == RetimedRow(s.reservations[r], PlanOf(q, w).updates)
    {
      if s.reservations[r].departureId.Some? {
        var d := s.reservations[r].departureId.value;
        LinkedInStore(s, r);
        UpdateOfPlan(s, w, q, d);
        UpdateOfPlan(t, w, again, d);
        SameStoredSameUpdate(s, t, w, d, now);
      }
    }
  }

  lemma {:induction false} LinkedInStore(s: Store, r: Id)
    requires Valid(s) && r in s.reservations && s.reservations[r].departureId.Some?
    ensures s.reservations[r].departureId.value in s.departures
  {
  }

  // ---- Booked times follow the bus ----

  lemma {:induction false} WrittenTimes(row: Departure, u: Update, now: int)
    requires u.stored.row == row && u.fields == ChangedFields(row, u.planned, u.dropped)
    ensures WrittenRow(row, u, now).departureTime == u.planned.departureTime
    ensures WrittenRow(row, u, now).arrivalTime == u.planned.arrivalTime
    ensures !Retimed(u) ==> row.departureTime == u.planned.departureTime && row.arrivalTime == u.planned.arrivalTime
  {
    hide SameStops;
  }

  lemma {:induction false} SyncKeepsTimes(s: Store, w: Window, q: Query, newId: PlanKey -> Id, now: int, mode: SyncMode)
    requires IsQuery(q, s, w) && Valid(s) && Walkable(w) && FreshSupply(newId, s.departures)
    requires TimesCurrent(s)
    ensures TimesCurrent(ApplySync(s, PlanOf(q, w), newId, now, mode))
  {
    hide PlanOf, IsQuery, Valid, Walkable, FreshSupply, UpdateWanted, Produced, Loaded, CreateFor, NewRow, WrittenRow, Deleted;
    var t := ApplySync(s, PlanOf(q, w), newId, now, mode);
    if mode == InsertOnly {
      CreatedRows(s, w, q, newId, now);
      forall r | r in s.reservations && s.reservations[r].departureId.Some? ensures s.reservations[r].departureId.value in s.departures {
        LinkedInStore(s, r);
      }
    } else {
      FullSyncRows(s, w, q, newId, now);
      PlanUpdatesDistinct(q, s, w);
      RetimeIsPointwise(s.reservations, PlanOf(q, w).updates);
      forall r | r in t.reservations && t.reservations[r].departureId.Some? && t.reservations[r].departureId.value in t.departures
        ensures var d := t.departures[t.reservations[r].departureId.value];
          t.reservations[r].departureTime == d.departureTime && t.reservations[r].arrivalTime == d.arrivalTime
      {
        LinkedInStore(s, r);
        RiderFollows(s, w, q, now, r);
      }
    }
  }

  lemma {:induction false} RiderFollows(s: Store, w: Window, q: Query, now: int, r: Id)
    requires IsQuery(q, s, w) && Valid(s) && Walkable(w) && TimesCurrent(s)
    requires r in s.reservations && s.reservations[r].departureId.Some? && s.reservations[r].departureId.value in s.departures
    ensures var d := SyncedRow(s, w, s.reservations[r].departureId.value, now);
      var after := RetimedRow(s.reservations[r], PlanOf(q, w).updates);
      after.departureTime == d.departureTime && after.arrivalTime == d.arrivalTime
  {
    hide PlanOf, IsQuery, Valid, Walkable, UpdateWanted, Produced, Loaded, Retimed, WrittenRow;
    var d := s.reservations[r].departureId.value;
    UpdateOfPlan(s, w, q, d);
    if Loaded(w, s.departures[d]) && UpdateWanted(s, d).Some? {
      WantedNames(s, d);
      WantedFields(s, d);
      WrittenTimes(s.departures[d], UpdateWanted(s, d).value, now);
    }
  }

  lemma {:induction false} WantedFields(s: Store, id: Id)
    requires id in s.departures && UpdateWanted(s, id).Some?
    ensures var u := UpdateWanted(s, id).value;
      u.stored.row == s.departures[id] && u.fields == ChangedFields(s.departures[id], u.planned, u.dropped)
  {
    hide Target, ChangedFields;
  }

  // ---- Runs of syncs ----

  /** One timetable edit and the sync that ends it, or a nightly insert under the timetable as it is. */
  datatype SyncStep = SyncStep(rides: map<Id, Ride>, w: Window, q: Query, newId: PlanKey -> Id, now: int, mode: SyncMode)

  /** The store with its timetable edited. A ride is never removed while a departure references it. */
  function Edited(s: Store, rides: map<Id, Ride>): Store {
    s.(rides := rides)
  }

  ghost predicate CanSync(s: Store, step: SyncStep) {
    && RidesNamed(step.rides) && s.rides.Keys <= step.rides.Keys
    && Walkable(step.w) && IsQuery(step.q, Edited(s, step.rides), step.w) && FreshSupply(step.newId, s.departures)
  }

  function AfterSync(s: Store, step: SyncStep): Store {
    if Walkable(step.w)
    then ApplySync(Edited(s, step.rides), PlanOf(step.q, step.w), step.newId, step.now, step.mode)
    else s
  }

  ghost predicate CanRun(s: Store, steps: seq<SyncStep>)
    decreases |steps|
  {
    if |steps| == 0 then true else CanSync(s, steps[0]) && CanRun(AfterSync(s, steps[0]), steps[1..])
  }

  function AfterRun(s: Store, steps: seq<SyncStep>): Store
    decreases |steps|
  {
    if |steps| == 0 then s else AfterRun(AfterSync(s, steps[0]), steps[1..])
  }

  lemma {:induction false} EditKeepsValid(s: Store, rides: map<Id, Ride>)
    requires Valid(s) && RidesNamed(rides) && s.rides.Keys <= rides.Keys
    ensures Valid(Edited(s, rides))
  {
    hide IsDate;
  }

  /** An extra, a cancelled departure and one a reservation references are never deleted. */
  predicate Protected(s: Store, id: Id) {
    id in s.departures && (s.departures[id].source != SCHEDULE || s.departures[id].cancelled.Some? || Referenced(s.reservations, id))
  }

  /** Every reservation is on the departure it was on, and differs in its times at most. */
  predicate SameBookings(after: map<Id, Reservation>, before: map<Id, Reservation>) {
    && after.Keys == before.Keys
    && forall r :: r in before ==> WithTimes(after[r], before[r].departureTime, before[r].arrivalTime) == before[r]
  }

  ghost predicate StepKeeps(s: Store, t: Store, w: Window) {
    && (forall id :: Protected(s, id) ==> id in t.departures)
    && (forall id :: id in s.departures && id in t.departures ==> SameDecision(t.departures[id], s.departures[id]))
    && (forall id :: id in s.departures && !Loaded(w, s.departures[id]) ==> id in t.departures && t.departures[id] == s.departures[id])
    && (forall id :: id in t.departures && id !in s.departures ==> Loaded(w, t.departures[id]))
    && (forall id :: RidersOf(t.reservations, id) == RidersOf(s.reservations, id))
    && SameBookings(t.reservations, s.reservations)
  }

  lemma {:induction false} SyncKeepsBookings(s: Store, w: Window, q: Query, newId: PlanKey -> Id, now: int, mode: SyncMode)
    requires IsQuery(q, s, w) && Valid(s) && Walkable(w)
    ensures SameBookings(ApplySync(s, PlanOf(q, w), newId, now, mode).reservations, s.reservations)
  {
    hide PlanOf, IsQuery, Valid, Walkable, InsertPlanned;
    PlanUpdatesDistinct(q, s, w);
    RetimeIsPointwise(s.reservations, PlanOf(q, w).updates);
  }

  lemma {:induction false} SyncStepKeeps(s: Store, step: SyncStep)
    requires Valid(s) && CanSync(s, step)
    ensures StepKeeps(s, AfterSync(s, step), step.w) && Valid(AfterSync(s, step))
  {
    hide PlanOf, IsQuery, Valid, Walkable, FreshSupply, UpdateWanted, Produced, CreateFor, NewRow, WrittenRow, Loaded, RidersOf, InWindow,
      SameBookings;
    EditKeepsValid(s, step.rides);
    var e := Edited(s, step.rides);
    var t := AfterSync(s, step);
    SyncKeepsValid(e, step.w, step.q, step.newId, step.now, step.mode);
    SyncKeepsBookings(e, step.w, step.q, step.newId, step.now, step.mode);
    if step.mode == Full {
      FullSyncRows(e, step.w, step.q, step.newId, step.now);
      KeptDecisions(e, step.w, step.now, t.departures);
    } else {
      CreatedRows(e, step.w, step.q, step.newId, step.now);
    }
    forall id | Protected(s, id) ensures id in t.departures {
      ProtectedNotDeleted(e, step.w, id);
    }
    forall id | id in t.departures && id !in s.departures ensures Loaded(step.w, t.departures[id]) {
      var key := CreatedBy(e, step.w, step.q.records, step.newId, step.now, t.departures, id);
      CreatedIsLoaded(e, step.w, step.q.records, key, step.now);
    }
    forall id ensures RidersOf(t.reservations, id) == RidersOf(s.reservations, id) {
      SyncKeepsRiders(e, step.w, step.q, step.newId, step.now, step.mode, id);
    }
  }

  lemma {:induction false} ProtectedNotDeleted(s: Store, w: Window, id: Id)
    requires Valid(s) && Protected(s, id)
    ensures !Deleted(s, w, id)
  {
    hide Referenced;
    if s.departures[id].source == EXTRA {
      ExtraNeverDeleted(s, w, id);
    }
  }

  lemma {:induction false} CreatedIsLoaded(s: Store, w: Window, records: seq<ExceptionRecord>, key: PlanKey, now: int)
    requires Valid(s) && CreateFor(s, w, records, key).Some?
    ensures Loaded(w, NewRow(CreateFor(s, w, records, key).value, now))
  {
    hide Valid, InWindow, CreateFor, NewRow;
    CreatedRowNames(s, w, records, key, now);
  }

  /** The departure is stored in every state of the run. */
  predicate Survives(s: Store, steps: seq<SyncStep>, id: Id)
    decreases |steps|
  {
    id in s.departures && (|steps| == 0 || Survives(AfterSync(s, steps[0]), steps[1..], id))
  }

  /**
   * Over any run of timetable edits, full syncs and nightly inserts: no extra, cancelled or
   * referenced departure is deleted, a departure that is not deleted keeps the decision stored
   * on it, a LEGACY row and one outside every window of the run are left exactly as they were,
   * and every reservation stays on its departure.
   */
  lemma {:induction false} RunKeepsDecisions(s: Store, steps: seq<SyncStep>)
    requires Valid(s) && CanRun(s, steps)
    ensures Valid(AfterRun(s, steps))
    ensures forall id :: Protected(s, id) ==> Survives(s, steps, id)
    ensures forall id :: Survives(s, steps, id) ==>
      id in AfterRun(s, steps).departures && SameDecision(AfterRun(s, steps).departures[id], s.departures[id])
    ensures forall id :: id in s.departures && (forall i :: 0 <= i < |steps| ==> !Loaded(steps[i].w, s.departures[id])) ==>
      id in AfterRun(s, steps).departures && AfterRun(s, steps).departures[id] == s.departures[id]
    ensures forall id :: id in s.departures && s.departures[id].source == LEGACY ==>
      id in AfterRun(s, steps).departures && AfterRun(s, steps).departures[id] == s.departures[id]
    ensures SameBookings(AfterRun(s, steps).reservations, s.reservations)
    decreases |steps|
  {
    hide Valid, CanSync, Loaded, AfterSync, Referenced, RidersOf, SameBookings;
    if |steps| == 0 {
      SameBookingsChain(s.reservations, s.reservations, s.reservations);
    } else {
      var t := AfterSync(s, steps[0]);
      SyncStepKeeps(s, steps[0]);
      RunKeepsDecisions(t, steps[1..]);
      SameBookingsChain(s.reservations, t.reservations, AfterRun(s, steps).reservations);
      forall id | Protected(s, id) ensures Survives(s, steps, id) {
        StillProtected(s, t, steps[0].w, id);
      }
      forall id | id in s.departures && (forall i :: 0 <= i < |steps| ==> !Loaded(steps[i].w, s.departures[id]))
        ensures id in AfterRun(s, steps).departures && AfterRun(s, steps).departures[id] == s.departures[id]
      {
        assert forall i :: 0 <= i < |steps[1..]| ==> !Loaded(steps[1..][i].w, t.departures[id]);
      }
    }
    forall id, i | id in s.departures && s.departures[id].source == LEGACY && 0 <= i < |steps| ensures !Loaded(steps[i].w, s.departures[id]) {
      LegacyNotLoaded(steps[i].w, s.departures[id]);
    }
  }

  lemma {:induction false} SameBookingsChain(a: map<Id, Reservation>, b: map<Id, Reservation>, c: map<Id, Reservation>)
    ensures SameBookings(a, a)
    ensures SameBookings(b, a) && SameBookings(c, b) ==> SameBookings(c, a)
  {
  }

  lemma {:induction false} LegacyNotLoaded(w: Window, row: Departure)
    requires row.source == LEGACY
    ensures !Loaded(w, row)
  {
  }

  lemma {:induction false} StillProtected(s: Store, t: Store, w: Window, id: Id)
    requires StepKeeps(s, t, w) && Protected(s, id)
    ensures Protected(t, id)
  {
    hide RidersOf, Loaded;
  }
}
