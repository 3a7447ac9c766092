/** What a sync guarantees: it converges, keeps every decision, and stays inside its window. */
module SyncProofs {
  import opened Basics
  import opened Calendar
  import opened Timetable
  import opened Tables
  import opened SyncPlan
  import opened SyncRules
  import opened SyncApply

  // ---- Every stored row after a full sync ----

  predicate Deleted(s: Store, w: Window, id: Id) {
    IsGone(s, w, id) && !KeptRow(s, id)
  }

  function SyncedRow(s: Store, w: Window, id: Id, now: int): Departure
    requires id in s.departures
  {
    var row := s.departures[id];
    if !Loaded(w, row) then row
    else if Produced(s.rides, id, row) then
      (match UpdateWanted(s, id) case None => row case Some(u) => WrittenRow(row, u, now))
    else if row.droppedAt.None? then row.(droppedAt := Some(now))
    else row
  }

  ghost predicate RowsSynced(s: Store, w: Window, now: int, after: map<Id, Departure>) {
    forall id :: id in s.departures ==>
      (id in after <==> !Deleted(s, w, id)) && (id in after ==> after[id] == SyncedRow(s, w, id, now))
  }

  ghost predicate RowsCreated(s: Store, w: Window, records: seq<ExceptionRecord>, newId: PlanKey -> Id, now: int, after: map<Id, Departure>) {
    && (forall key :: CreateFor(s, w, records, key).Some? ==>
          newId(key) in after && after[newId(key)] == NewRow(CreateFor(s, w, records, key).value, now))
    && (forall id :: id in after && id !in s.departures ==>
          exists key :: CreateFor(s, w, records, key).Some? && id == newId(key))
  }

  lemma {:induction false} CreatedRows(s: Store, w: Window, q: Query, newId: PlanKey -> Id, now: int)
    requires IsQuery(q, s, w) && Valid(s) && Walkable(w) && FreshSupply(newId, s.departures)
    ensures var created := InsertPlanned(s.departures, PlanOf(q, w).creates, newId, now);
      && RowsCreated(s, w, q.records, newId, now, created)
      && forall id :: id in s.departures ==> id in created && created[id] == s.departures[id]
  {
    hide PlanOf, IsQuery, Valid, Walkable, CreateFor, NewRow;
    PlanCreatesDistinct(q, s, w);
    var creates := PlanOf(q, w).creates;
    InsertPlannedExactly(s.departures, creates, newId, now);
    var created := InsertPlanned(s.departures, creates, newId, now);
    forall key | CreateFor(s, w, q.records, key).Some?
      ensures newId(key) in created && created[newId(key)] == NewRow(CreateFor(s, w, q.records, key).value, now)
    {
      MissingIsPlanned(q, s, w, key);
    }
    forall id | id in created && id !in s.departures
      ensures exists key :: CreateFor(s, w, q.records, key).Some? && id == newId(key)
    {
      var p :| p in creates && id == newId(p.key);
      PlannedCreateIsMissing(q, s, w, p);
    }
  }

  /** The wanted update of a loaded row is the one the plan holds for it. */
  lemma {:induction false} UpdateOfPlan(s: Store, w: Window, q: Query, id: Id)
    requires IsQuery(q, s, w) && Valid(s) && Walkable(w)
    ensures UpdateOf(PlanOf(q, w).updates, id)
      == if id in s.departures && Loaded(w, s.departures[id]) then UpdateWanted(s, id) else None
  {
    hide PlanOf, IsQuery, Valid, Walkable, Loaded, Target, DepartureUpdate;
    var updates := PlanOf(q, w).updates;
    PlanUpdates(q, s, w);
    PlanUpdatesDistinct(q, s, w);
    UpdateOfFinds(updates, id);
    if id in s.departures && Loaded(w, s.departures[id]) && UpdateWanted(s, id).Some? {
      WantedNames(s, id);
    }
  }

  lemma {:induction false} WantedNames(s: Store, id: Id)
    requires id in s.departures && UpdateWanted(s, id).Some?
    ensures UpdateWanted(s, id).value.stored == StoredOf(s, id)
    ensures Produced(s.rides, id, s.departures[id])
  {
  }

  lemma {:induction false} DropIds(s: Store, w: Window, q: Query)
    requires IsQuery(q, s, w) && Valid(s) && Walkable(w)
    ensures forall id :: (
      id in IdsOf(PlanOf(q, w).drops) <==> IsGone(s, w, id) && KeptRow(s, id) && s.departures[id].droppedAt.None?)
    ensures forall id :: id in IdsOf(PlanOf(q, w).deletes) <==> Deleted(s, w, id)
  {
    hide PlanOf, IsQuery, Valid, Walkable, KeptRow, Loaded, Produced;
    PlanDropsAndDeletes(q, s, w);
    forall id | IsGone(s, w, id) && KeptRow(s, id) && s.departures[id].droppedAt.None? ensures id in IdsOf(PlanOf(q, w).drops) {
      assert StoredOf(s, id).id == id;
      assert StoredOf(s, id) in PlanOf(q, w).drops;
    }
    forall id | Deleted(s, w, id) ensures id in IdsOf(PlanOf(q, w).deletes) {
      assert StoredOf(s, id).id == id;
      assert StoredOf(s, id) in PlanOf(q, w).deletes;
    }
  }

  function RewrittenRow(s: Store, w: Window, id: Id, now: int): Departure
    requires id in s.departures
  {
    if !Loaded(w, s.departures[id]) then s.departures[id]
    else match UpdateWanted(s, id) case None => s.departures[id] case Some(u) => WrittenRow(s.departures[id], u, now)
  }

  lemma {:induction false} RewrittenRows(s: Store, w: Window, q: Query, created: map<Id, Departure>, now: int)
    requires IsQuery(q, s, w) && Valid(s) && Walkable(w)
    requires forall id :: id in s.departures ==> id in created && created[id] == s.departures[id]
    ensures var written := ApplyOneByOne(created, PlanOf(q, w).updates, now);
      && written.Keys == created.Keys
      && (forall id :: id in s.departures ==> written[id] == RewrittenRow(s, w, id, now))
      && (forall id :: id in created && id !in s.departures ==> written[id] == created[id])
  {
    hide PlanOf, IsQuery, Valid, Walkable, Loaded, UpdateWanted, WrittenRow;
    PlanUpdatesDistinct(q, s, w);
    OneByOneIsPointwise(created, PlanOf(q, w).updates, now);
    forall id | id in created
      ensures UpdatedRows(created, PlanOf(q, w).updates, now)[id]
        == if id in s.departures then RewrittenRow(s, w, id, now) else created[id]
    {
      UpdateOfPlan(s, w, q, id);
    }
  }

  lemma {:induction false} GoneIsNotRewritten(s: Store, w: Window, id: Id, now: int)
    requires IsGone(s, w, id)
    ensures RewrittenRow(s, w, id, now) == s.departures[id]
  {
    if UpdateWanted(s, id).Some? {
      WantedNames(s, id);
    }
  }

  /** A full sync, row by row. */
  lemma {:induction false} FullSyncRows(s: Store, w: Window, q: Query, newId: PlanKey -> Id, now: int)
    requires IsQuery(q, s, w) && Valid(s) && Walkable(w) && FreshSupply(newId, s.departures)
    ensures var t := ApplySync(s, PlanOf(q, w), newId, now, Full);
      && RowsSynced(s, w, now, t.departures)
      && RowsCreated(s, w, q.records, newId, now, t.departures)
  {
    hide PlanOf, IsQuery, Valid, Walkable, KeptRow, Loaded, Produced, CreateFor, UpdateWanted, NewRow, WrittenRow, FreshSupply, RewrittenRow;
    var plan := PlanOf(q, w);
    CreatedRows(s, w, q, newId, now);
    DropIds(s, w, q);
    var created := InsertPlanned(s.departures, plan.creates, newId, now);
    RewrittenRows(s, w, q, created, now);
    var t := ApplySync(s, plan, newId, now, Full);
    forall id | id in s.departures
      ensures (id in t.departures <==> !Deleted(s, w, id)) && (id in t.departures ==> t.departures[id] == SyncedRow(s, w, id, now))
    {
      if IsGone(s, w, id) {
        GoneIsNotRewritten(s, w, id, now);
      }
      SyncedFromRewritten(s, w, id, now);
    }
    forall key | CreateFor(s, w, q.records, key).Some? ensures newId(key) !in s.departures {
      FreshFor(newId, s.departures, key);
    }
  }

  lemma {:induction false} FreshFor(newId: PlanKey -> Id, departures: map<Id, Departure>, key: PlanKey)
    requires FreshSupply(newId, departures)
    ensures newId(key) !in departures
  {
  }

  lemma {:induction false} SyncedFromRewritten(s: Store, w: Window, id: Id, now: int)
    requires id in s.departures
    ensures SyncedRow(s, w, id, now) ==
      if IsGone(s, w, id) && s.departures[id].droppedAt.None? then s.departures[id].(droppedAt := Some(now))
      else RewrittenRow(s, w, id, now)
  {
    if IsGone(s, w, id) {
      GoneIsNotRewritten(s, w, id, now);
    }
  }

  // ---- What a synced row keeps and what it becomes ----

  /** A sync leaves a row's identity, its decision and its link alone. */
  predicate SameDecision(a: Departure, b: Departure) {
    && a.source == b.source && a.rideId == b.rideId && a.serviceDate == b.serviceDate
    && a.cancelled == b.cancelled && a.rideExceptionId == b.rideExceptionId
  }

  lemma {:induction false} SyncedKeepsDecision(s: Store, w: Window, id: Id, now: int)
    requires id in s.departures
    ensures SameDecision(SyncedRow(s, w, id, now), s.departures[id])
  {
    hide UpdateWanted, Loaded, Produced;
  }

  /** An extra's times and capacity are the operator's. */
  lemma {:induction false} SyncedKeepsExtra(s: Store, w: Window, id: Id, now: int)
    requires id in s.departures && s.departures[id].source == EXTRA && s.departures[id].rideId in s.rides
    ensures var row := SyncedRow(s, w, id, now);
      row.departureTime == s.departures[id].departureTime && row.arrivalTime == s.departures[id].arrivalTime
      && row.capacity == s.departures[id].capacity
  {
    hide LinePathStops, ChangedFields, InWindow, RidersOf;
  }

  /** A written row has nothing left to change. */
  lemma {:induction false} WrittenHasNoChanges(row: Departure, u: Update, now: int)
    requires u.stored.row == row && u.fields == ChangedFields(row, u.planned, u.dropped)
    ensures ChangedFields(WrittenRow(row, u, now), u.planned, u.dropped) == {}
  {
    hide SameStops;
    if StopsField in u.fields {
      SameStopsReflexive(u.planned.stops);
    }
  }

  lemma {:induction false} SameStopsReflexive(stops: seq<Stop>)
    ensures SameStops(stops, stops)
  {
  }

  /** What a row should be does not change by making it so. */
  lemma {:induction false} TargetIsStable(rides: map<Id, Ride>, id: Id, row: Departure, u: Update, now: int)
    requires u.stored.id == id && u.stored.row == row
    requires Target(rides, id, row) == Some((u.planned, u.dropped))
    ensures Target(rides, id, WrittenRow(row, u, now)) == Some((u.planned, u.dropped))
  {
    hide LinePathStops, PlannedOn, RideRuns;
  }

  lemma {:induction false} SyncedIsSettled(s: Store, t: Store, w: Window, id: Id, now: int)
    requires id in s.departures && Loaded(w, s.departures[id]) && !Deleted(s, w, id)
    requires id in t.departures && t.departures[id] == SyncedRow(s, w, id, now)
    requires t.rides == s.rides && (Referenced(s.reservations, id) ==> Referenced(t.reservations, id))
    ensures Settled(t, id)
  {
    hide PlannedOn, InWindow, ChangedFields, ExtraTarget, Referenced, RidersOf, WrittenRow;
    var row := s.departures[id];
    SyncedKeepsDecision(s, w, id, now);
    if Produced(s.rides, id, row) {
      match UpdateWanted(s, id)
      case None =>
      case Some(u) =>
        TargetIsStable(s.rides, id, row, u, now);
        WrittenHasNoChanges(row, u, now);
    }
  }

  lemma {:induction false} NewScheduleIsSettled(t: Store, w: Window, id: Id, p: Planned, records: seq<ExceptionRecord>, now: int)
    requires id in t.departures && TimetableProduces(t.rides, w, p.rideId, p.serviceDate)
    requires PlannedOn(t.rides[p.rideId], p.serviceDate) == Some(p)
    requires t.departures[id] == NewRow(CreateWithSkip(p, records), now)
    ensures Settled(t, id)
  {
    hide PlannedOn, InWindow, SameStops, Referenced, RidersOf, SkipFor, SkipCancellation, IsDate;
    PlannedNames(t.rides[p.rideId], p.serviceDate);
    SameStopsReflexive(p.stops);
  }

  lemma {:induction false} NewExtraIsSettled(t: Store, id: Id, record: ExceptionRecord, now: int)
    requires id in t.departures && IsBusAdditional(record.row) && record.row.rideId in t.rides
    requires RidesNamed(t.rides)
    requires t.departures[id] == NewRow(ExtraOf(t.rides[record.row.rideId], record), now)
    ensures Settled(t, id)
  {
    hide PlannedOn, InWindow, SameStops, LinePathStops, Referenced, RidersOf, RideRuns;
    SameStopsReflexive(t.departures[id].stops);
  }

  lemma {:induction false} RetimedKeepsRiders(reservations: map<Id, Reservation>, updates: seq<Update>, id: Id)
    requires DistinctIds(updates)
    ensures RidersOf(RetimeOneByOne(reservations, updates), id) == RidersOf(reservations, id)
  {
    RetimeIsPointwise(reservations, updates);
  }

  lemma {:induction false} SyncKeepsRiders(s: Store, w: Window, q: Query, newId: PlanKey -> Id, now: int, mode: SyncMode, id: Id)
    requires IsQuery(q, s, w) && Valid(s) && Walkable(w)
    ensures RidersOf(ApplySync(s, PlanOf(q, w), newId, now, mode).reservations, id) == RidersOf(s.reservations, id)
  {
    hide PlanOf, IsQuery, Valid, Walkable, RidersOf, InsertPlanned;
    PlanUpdatesDistinct(q, s, w);
    RetimedKeepsRiders(s.reservations, PlanOf(q, w).updates, id);
  }

  /** A created row: a missing timetable departure on its date, or the linked bus of an ADDITIONAL. */
  lemma {:induction false} CreatedRowNames(s: Store, w: Window, records: seq<ExceptionRecord>, key: PlanKey, now: int)
    requires Valid(s) && CreateFor(s, w, records, key).Some?
    ensures var row := NewRow(CreateFor(s, w, records, key).value, now);
      match key
      case ScheduleKey(r, d) =>
        && IsScheduleOf(row, r, d) && TimetableProduces(s.rides, w, r, d) && !HasSchedule(s, r, d)
        && row.rideExceptionId.None? && row.cancelled == SkipCancellation(SkipFor(records, r, d))
      case ExtraKey(e) =>
        && IsExtraOf(row, e) && AddsBus(s, w, e) && !HasExtra(s, w, e)
        && row.rideId == s.exceptions[e].rideId && row.serviceDate == s.exceptions[e].exceptionDate && row.cancelled.None?
        && Some(row.departureTime) == s.exceptions[e].departureTime && Some(row.arrivalTime) == s.exceptions[e].arrivalTime
  {
    hide PlannedOn, InWindow, LinePathStops, RideRuns, IsDate, HasSchedule, HasExtra, SkipFor, SkipCancellation;
    match key
    case ScheduleKey(r, d) =>
      PlannedNames(s.rides[r], d);
      SkipWhenNone(PlannedOn(s.rides[r], d).value, records);
    case ExtraKey(e) =>
  }

  lemma {:induction false} SkipWhenNone(p: Planned, records: seq<ExceptionRecord>)
    requires p.cancellation.None?
    ensures CreateWithSkip(p, records).cancellation == SkipCancellation(SkipFor(records, p.rideId, p.serviceDate))
    ensures CreateWithSkip(p, records) == p.(cancellation := CreateWithSkip(p, records).cancellation)
  {
    hide SkipFor;
  }

  lemma {:induction false} CreatedIsSettled(s: Store, t: Store, w: Window, records: seq<ExceptionRecord>, newId: PlanKey -> Id, now: int, key: PlanKey)
    requires Valid(s) && t.rides == s.rides
    requires RowsCreated(s, w, records, newId, now, t.departures) && CreateFor(s, w, records, key).Some?
    ensures newId(key) in t.departures && Settled(t, newId(key))
    ensures Produced(t.rides, newId(key), t.departures[newId(key)])
  {
    hide PlannedOn, InWindow, LinePathStops, RideRuns, IsDate, HasSchedule, HasExtra, Settled, ExtraOf, CreateWithSkip, NewRow;
    CreatedRowNames(s, w, records, key, now);
    match key
    case ScheduleKey(r, d) =>
      PlannedNames(s.rides[r], d);
      NamedByRide(s, r);
      NewScheduleIsSettled(t, w, newId(key), PlannedOn(s.rides[r], d).value, records, now);
      ScheduleProduced(t, newId(key), w, r, d);
    case ExtraKey(e) =>
      NewExtraIsSettled(t, newId(key), ExceptionRecord(e, s.exceptions[e]), now);
      ExtraProduced(t, newId(key));
  }

  lemma {:induction false} ScheduleProduced(t: Store, id: Id, w: Window, r: Id, d: string)
    requires id in t.departures && IsScheduleOf(t.departures[id], r, d) && TimetableProduces(t.rides, w, r, d)
    ensures Produced(t.rides, id, t.departures[id])
  {
    hide PlannedOn;
  }

  lemma {:induction false} ExtraProduced(t: Store, id: Id)
    requires id in t.departures && t.departures[id].source == EXTRA && t.departures[id].rideId in t.rides
    ensures Produced(t.rides, id, t.departures[id])
  {
  }

  // ---- Convergence ----

  lemma {:induction false} NothingMissingAfter(s: Store, t: Store, w: Window, records: seq<ExceptionRecord>, newId: PlanKey -> Id, now: int)
    requires Valid(s) && t.rides == s.rides && t.exceptions == s.exceptions
    requires RowsCreated(s, w, records, newId, now, t.departures)
    requires forall id :: id in s.departures && !Deleted(s, w, id) ==>
      id in t.departures && SameDecision(t.departures[id], s.departures[id])
    ensures NothingMissing(t, w)
  {
    hide PlannedOn, InWindow, IsDate, KeptRow, ExtraOf, CreateWithSkip, NewRow, Valid;
    forall r, d | TimetableProduces(t.rides, w, r, d) ensures HasSchedule(t, r, d) {
      if HasSchedule(s, r, d) {
        var id :| id in s.departures && IsScheduleOf(s.departures[id], r, d);
        ScheduleProduced(s, id, w, r, d);
        assert IsScheduleOf(t.departures[id], r, d);
      } else {
        CreatedRowNames(s, w, records, ScheduleKey(r, d), now);
        assert IsScheduleOf(t.departures[newId(ScheduleKey(r, d))], r, d);
      }
    }
    forall e | AddsBus(t, w, e) ensures HasExtra(t, w, e) {
      if HasExtra(s, w, e) {
        var id :| id in s.departures && IsExtraOf(s.departures[id], e) && InWindow(w, s.departures[id].serviceDate);
        ExtraNeverDeleted(s, w, id);
        assert IsExtraOf(t.departures[id], e);
      } else {
        CreatedRowNames(s, w, records, ExtraKey(e), now);
        assert IsExtraOf(t.departures[newId(ExtraKey(e))], e);
      }
    }
  }

  lemma {:induction false} ExtraNeverDeleted(s: Store, w: Window, id: Id)
    requires Valid(s) && id in s.departures && s.departures[id].source == EXTRA
    ensures !Deleted(s, w, id)
  {
    hide PlannedOn, ExtraTarget;
  }

  lemma {:induction false} KeptDecisions(s: Store, w: Window, now: int, after: map<Id, Departure>)
    requires RowsSynced(s, w, now, after)
    ensures forall id :: id in s.departures && !Deleted(s, w, id) ==> id in after && SameDecision(after[id], s.departures[id])
  {
    hide Deleted, SyncedRow;
    forall id | id in s.departures && !Deleted(s, w, id) ensures id in after && SameDecision(after[id], s.departures[id]) {
      SyncedKeepsDecision(s, w, id, now);
    }
  }

  /** After a full sync of any plan, the store is in step: planning again with the same clock finds nothing to write. */
  lemma {:induction false} SyncConverges(s: Store, w: Window, q: Query, newId: PlanKey -> Id, now: int)
    requires IsQuery(q, s, w) && Valid(s) && Walkable(w) && FreshSupply(newId, s.departures)
    ensures InStep(ApplySync(s, PlanOf(q, w), newId, now, Full), w)
  {
    hide PlanOf, IsQuery, Valid, Walkable, KeptRow, Loaded, Produced, CreateFor, UpdateWanted, NewRow, WrittenRow, FreshSupply, SyncedRow, Settled, Deleted, RowsCreated;
    var t := ApplySync(s, PlanOf(q, w), newId, now, Full);
    FullSyncRows(s, w, q, newId, now);
    KeptDecisions(s, w, now, t.departures);
    NothingMissingAfter(s, t, w, q.records, newId, now);
    forall id | id in t.departures && Loaded(w, t.departures[id]) ensures Settled(t, id) {
      if id in s.departures {
        SyncedKeepsDecision(s, w, id, now);
        LoadedByDecision(w, t.departures[id], s.departures[id]);
        SyncKeepsRiders(s, w, q, newId, now, Full, id);
        SyncedIsSettled(s, t, w, id, now);
      } else {
        var key := CreatedBy(s, w, q.records, newId, now, t.departures, id);
        CreatedIsSettled(s, t, w, q.records, newId, now, key);
      }
    }
  }

  lemma {:induction false} CreatedBy(s: Store, w: Window, records: seq<ExceptionRecord>, newId: PlanKey -> Id, now: int, after: map<Id, Departure>, id: Id)
    returns (key: PlanKey)
    requires RowsCreated(s, w, records, newId, now, after) && id in after && id !in s.departures
    ensures CreateFor(s, w, records, key).Some? && id == newId(key)
    ensures after[id] == NewRow(CreateFor(s, w, records, key).value, now)
  {
    hide CreateFor, NewRow;
    key :| CreateFor(s, w, records, key).Some? && id == newId(key);
  }

  lemma {:induction false} LoadedByDecision(w: Window, a: Departure, b: Departure)
    requires SameDecision(a, b)
    ensures Loaded(w, a) <==> Loaded(w, b)
  {
    hide InWindow;
  }

  /** The same, as the planner reports it: four empty lists. */
  lemma {:induction false} SecondPlanIsEmpty(s: Store, w: Window, q: Query, newId: PlanKey -> Id, now: int, again: Query)
    requires IsQuery(q, s, w) && Valid(s) && Walkable(w) && FreshSupply(newId, s.departures)
    requires IsQuery(again, ApplySync(s, PlanOf(q, w), newId, now, Full), w)
    ensures PlanOf(again, w) == NO_CHANGES
  {
    hide PlanOf, IsQuery, Valid, Walkable, FreshSupply, ApplySync, InStep;
    var t := ApplySync(s, PlanOf(q, w), newId, now, Full);
    SyncConverges(s, w, q, newId, now);
    SyncKeepsValid(s, w, q, newId, now, Full);
    PlanEmptyIffInStep(again, t, w);
  }

  // ---- The database's constraints hold after it ----

  lemma {:induction false} CreatedKeepsUnique(s: Store, w: Window, records: seq<ExceptionRecord>, newId: PlanKey -> Id, now: int, after: map<Id, Departure>)
    requires Valid(s) && RowsCreated(s, w, records, newId, now, after)
    requires forall id :: id in s.departures && id in after ==> SameDecision(after[id], s.departures[id])
    ensures UniqueSchedule(after)
  {
    hide Valid, CreateFor, NewRow, RowsCreated, PlannedOn, InWindow, IsDate;
    forall a, b | a in after && b in after && after[a].source == SCHEDULE && after[b].source == SCHEDULE
      && after[a].rideId == after[b].rideId && after[a].serviceDate == after[b].serviceDate ensures a == b
    {
      if a in s.departures && b in s.departures {
        UniqueIn(s, a, b);
      } else if a in s.departures {
        NewScheduleIsFirst(s, w, records, newId, now, after, b, a);
      } else if b in s.departures {
        NewScheduleIsFirst(s, w, records, newId, now, after, a, b);
      } else {
        var j := CreatedBy(s, w, records, newId, now, after, a);
        var k := CreatedBy(s, w, records, newId, now, after, b);
        CreatedRowNames(s, w, records, j, now);
        CreatedRowNames(s, w, records, k, now);
      }
    }
  }

  lemma {:induction false} UniqueIn(s: Store, a: Id, b: Id)
    requires Valid(s) && a in s.departures && b in s.departures
    requires s.departures[a].source == SCHEDULE && s.departures[b].source == SCHEDULE
    requires s.departures[a].rideId == s.departures[b].rideId && s.departures[a].serviceDate == s.departures[b].serviceDate
    ensures a == b
  {
  }

  lemma {:induction false} NewScheduleIsFirst(s: Store, w: Window, records: seq<ExceptionRecord>, newId: PlanKey -> Id, now: int,
                                              after: map<Id, Departure>, id: Id, old_: Id)
    requires Valid(s) && RowsCreated(s, w, records, newId, now, after)
    requires id in after && id !in s.departures && after[id].source == SCHEDULE && old_ in s.departures
    ensures !IsScheduleOf(s.departures[old_], after[id].rideId, after[id].serviceDate)
  {
    hide Valid, CreateFor, NewRow, RowsCreated, PlannedOn, InWindow, IsDate;
    var k := CreatedBy(s, w, records, newId, now, after, id);
    CreatedRowNames(s, w, records, k, now);
  }

  lemma {:induction false} CreatedKeepsKeys(s: Store, w: Window, records: seq<ExceptionRecord>, newId: PlanKey -> Id, now: int, t: Store)
    requires Valid(s) && RowsCreated(s, w, records, newId, now, t.departures)
    requires t.rides == s.rides && t.exceptions == s.exceptions
    requires forall id :: id in s.departures && id in t.departures ==> SameDecision(t.departures[id], s.departures[id])
    ensures DepartureKeys(t)
    ensures forall id :: id in t.departures && id !in s.departures ==> t.departures[id].source != LEGACY
  {
    hide RidesNamed, ReservationKeys, UniqueSchedule, UniqueLegacy, CreateFor, NewRow, RowsCreated, PlannedOn, InWindow, IsDate;
    forall id | id in t.departures && id !in s.departures
      ensures t.departures[id].source != LEGACY && t.departures[id].rideId in s.rides && IsDate(t.departures[id].serviceDate)
        && (t.departures[id].rideExceptionId.Some? ==> t.departures[id].rideExceptionId.value in s.exceptions)
    {
      var k := CreatedBy(s, w, records, newId, now, t.departures, id);
      CreatedRowNames(s, w, records, k, now);
    }
  }

  lemma {:induction false} DeletedHasNoRiders(s: Store, w: Window, r: Id)
    requires r in s.reservations && s.reservations[r].departureId.Some?
    ensures !Deleted(s, w, s.reservations[r].departureId.value)
  {
    hide Produced, Loaded;
    var d := s.reservations[r].departureId.value;
    assert r in RidersOf(s.reservations, d);
  }

  lemma {:induction false} RetimedKeepsLinks(reservations: map<Id, Reservation>, updates: seq<Update>)
    requires DistinctIds(updates)
    ensures var after := RetimeOneByOne(reservations, updates);
      after.Keys == reservations.Keys
      && forall r :: r in reservations ==>
           && after[r].departureId == reservations[r].departureId
           && after[r].rideId == reservations[r].rideId && after[r].travelDate == reservations[r].travelDate
  {
    RetimeIsPointwise(reservations, updates);
  }

  /** A sync breaks no key, unique index or foreign key, so its plain inserts and deletes never fail. */
  lemma {:induction false} SyncKeepsValid(s: Store, w: Window, q: Query, newId: PlanKey -> Id, now: int, mode: SyncMode)
    requires IsQuery(q, s, w) && Valid(s) && Walkable(w) && FreshSupply(newId, s.departures)
    ensures Valid(ApplySync(s, PlanOf(q, w), newId, now, mode))
  {
    hide PlanOf, IsQuery, Walkable, CreateFor, NewRow, FreshSupply, SyncedRow, Deleted, RowsCreated, InsertPlanned, UniqueSchedule, RidesNamed, ExceptionKeys, DepartureKeys;
    var t := ApplySync(s, PlanOf(q, w), newId, now, mode);
    if mode == Full {
      FullSyncRows(s, w, q, newId, now);
      KeptDecisions(s, w, now, t.departures);
      PlanUpdatesDistinct(q, s, w);
      RetimedKeepsLinks(s.reservations, PlanOf(q, w).updates);
    } else {
      CreatedRows(s, w, q, newId, now);
    }
    assert forall id :: id in s.departures && id in t.departures ==> SameDecision(t.departures[id], s.departures[id]);
    CreatedKeepsUnique(s, w, q.records, newId, now, t.departures);
    CreatedKeepsKeys(s, w, q.records, newId, now, t);
    KeysOfExceptions(s, t);
    forall id | id in s.departures && id in t.departures && s.departures[id].source == LEGACY
      ensures t.departures[id] == s.departures[id]
    {
      if mode == Full {
        LegacyUntouched(s, w, id, now);
      }
    }
    forall r | r in s.reservations && s.reservations[r].departureId.Some? ensures s.reservations[r].departureId.value in t.departures {
      DeletedHasNoRiders(s, w, r);
    }
  }

  lemma {:induction false} LegacyUntouched(s: Store, w: Window, id: Id, now: int)
    requires id in s.departures && s.departures[id].source == LEGACY
    ensures SyncedRow(s, w, id, now) == s.departures[id]
  {
  }

  lemma {:induction false} KeysOfExceptions(s: Store, t: Store)
    requires ExceptionKeys(s) && t.exceptions == s.exceptions && t.rides == s.rides
    ensures ExceptionKeys(t)
  {
  }
}
