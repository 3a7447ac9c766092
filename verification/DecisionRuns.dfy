/**
 * Whole runs of operator decisions, bookings, timetable edits and nightly inserts: the
 * pairing, the database's constraints and the booked times hold after every one.
 */
module DecisionRuns {
  import opened Basics
  import opened Text
  import opened Calendar
  import opened Timetable
  import opened Tables
  import opened SyncPlan
  import opened SyncRules
  import opened SyncApply
  import opened SyncProofs
  import opened SyncTheorems
  import opened Decisions
  import opened DecisionPairing

  // ---- The remaining operations keep the pairing ----

  /** An edited extra has the times and capacity asked for, and keeps what was not asked. */
  lemma {:induction false} EditedExtraReads(s: Store, id: Id, changes: ExtraChanges, actor: Actor)
    requires id in s.departures && s.departures[id].rideId in s.rides
    ensures var row, before := AfterUpdateExtra(s, id, changes, actor).departures[id], s.departures[id];
      && row.departureTime == OrElse(changes.departureTime, before.departureTime)
      && row.arrivalTime == OrElse(changes.arrivalTime, before.arrivalTime)
      && row.capacity == OrElse(changes.capacity, before.capacity)
      && row.source == before.source && row.rideId == before.rideId && row.serviceDate == before.serviceDate
      && row.cancelled == before.cancelled && row.rideExceptionId == before.rideExceptionId
  {
    hide LinePathStops, SameStops, ExtraDropped, RidersRetimed, AdditionalMoved;
  }

  lemma {:induction false} UpdateKeepsPaired(s: Store, dates: iset<string>, id: Id, changes: ExtraChanges, actor: Actor)
    requires Sound(s, dates) && id in s.departures && s.departures[id].source == EXTRA && s.departures[id].rideId in s.rides
    ensures Paired(AfterUpdateExtra(s, id, changes, actor), dates)
  {
    hide Paired, Valid, PlanExtra, RideRuns, SameStops, RidersRetimed;
    var row := s.departures[id];
    var t := AfterUpdateExtra(s, id, changes, actor);
    var departureTime := OrElse(changes.departureTime, row.departureTime);
    var arrivalTime := OrElse(changes.arrivalTime, row.arrivalTime);
    var moved := t.departures[id];
    EditedExtraReads(s, id, changes, actor);
    LinkedExists(s, dates, id);
    if departureTime == row.departureTime && arrivalTime == row.arrivalTime {
      ResizeKeepsPaired(s, dates, id, OrElse(changes.capacity, row.capacity));
    } else if row.rideExceptionId.Some? {
      var e := row.rideExceptionId.value;
      var x := s.exceptions[e].(departureTime := Some(departureTime), arrivalTime := Some(arrivalTime), updatedBy := Some(actor.id));
      assert t.exceptions == s.exceptions[e := x] && SameTimesAs(moved, x);
      MoveKeepsPaired(s, dates, id, moved, t.exceptions, t);
    } else {
      MoveKeepsPaired(s, dates, id, moved, t.exceptions, t);
    }
  }

  lemma {:induction false} LinkedExists(s: Store, dates: iset<string>, id: Id)
    requires Sound(s, dates) && id in s.departures
    ensures s.departures[id].rideExceptionId.Some? ==> s.departures[id].rideExceptionId.value in s.exceptions
  {
    hide SkipsPaired, ExtrasPaired, AdditionalsPaired, NoSharing;
  }

  /** What the pairing reads of a row: everything but its line, capacity, dropped state and stops. */
  predicate SameRecord(a: Departure, b: Departure) {
    SameDecision(a, b) && a.departureTime == b.departureTime && a.arrivalTime == b.arrivalTime
  }

  lemma {:induction false} RowsKeepPaired(s: Store, t: Store, dates: iset<string>)
    requires Paired(s, dates) && t.exceptions == s.exceptions && t.departures.Keys == s.departures.Keys
    requires forall d :: d in s.departures ==> SameRecord(t.departures[d], s.departures[d])
    ensures Paired(t, dates)
  {
    hide HasSkip, IsBusAdditional;
    SkipsUnmoved(s, t);
    BusesStay(s, t, dates);
  }

  lemma {:induction false} ResizeKeepsPaired(s: Store, dates: iset<string>, id: Id, capacity: int)
    requires Paired(s, dates) && id in s.departures
    ensures Paired(s.(departures := s.departures[id := s.departures[id].(capacity := capacity)]), dates)
  {
    hide Paired;
    RowsKeepPaired(s, s.(departures := s.departures[id := s.departures[id].(capacity := capacity)]), dates);
  }

  lemma {:induction false} BusesStay(s: Store, t: Store, dates: iset<string>)
    requires AdditionalsPaired(s, dates) && t.exceptions == s.exceptions
    requires forall d :: d in s.departures && s.departures[d].rideExceptionId.Some? ==>
      d in t.departures && t.departures[d].source == s.departures[d].source && t.departures[d].rideExceptionId == s.departures[d].rideExceptionId
    ensures AdditionalsPaired(t, dates)
  {
    hide IsBusAdditional;
    forall e | e in t.exceptions && IsBusAdditional(t.exceptions[e]) && t.exceptions[e].exceptionDate in dates ensures HasBus(t, e) {
      var d :| d in s.departures && IsExtraOf(s.departures[d], e);
      assert IsExtraOf(t.departures[d], e);
    }
  }

  lemma {:induction false} CapacityKeepsPaired(s: Store, dates: iset<string>, rideId: Id, from: int, to: int, today: string)
    requires Paired(s, dates)
    ensures Paired(AfterCapacityEdit(s, rideId, from, to, today), dates)
  {
    hide Paired, StrLe;
    RowsKeepPaired(s, AfterCapacityEdit(s, rideId, from, to, today), dates);
  }

  /**
   * Editing a ride's capacity and editing it back leaves every extra as it was exactly when
   * none ahead was already at the new capacity: such a one cannot be told apart, and follows.
   */
  lemma {:induction false} CapacityBackAgainIff(s: Store, rideId: Id, from: int, to: int, today: string)
    ensures AfterCapacityEdit(AfterCapacityEdit(s, rideId, from, to, today), rideId, to, from, today) == s
      <==> from == to || forall d :: d in s.departures && ExtraAhead(s.departures[d], rideId, today) ==> s.departures[d].capacity != to
  {
    hide ExtraAhead;
    if from != to {
      var back := AfterCapacityEdit(AfterCapacityEdit(s, rideId, from, to, today), rideId, to, from, today);
      assert back.departures.Keys == s.departures.Keys;
      forall d | d in s.departures
        ensures back.departures[d] == s.departures[d] <==> (ExtraAhead(s.departures[d], rideId, today) ==> s.departures[d].capacity != to)
      {
        StillAhead(s.departures[d], rideId, today, to);
        StillAhead(s.departures[d], rideId, today, from);
      }
    }
  }

  lemma {:induction false} StillAhead(row: Departure, rideId: Id, today: string, capacity: int)
    ensures ExtraAhead(row.(capacity := capacity), rideId, today) == ExtraAhead(row, rideId, today)
  {
  }

  /** The linked extras go or are cancelled and unlinked; every other row stays as it is. */
  lemma {:induction false} RemoveBecomes(s: Store, rideId: Id, e: Id, actor: Actor)
    requires Linkage(s) && e in s.exceptions && s.exceptions[e].kind == ADDITIONAL && s.exceptions[e].rideId == rideId
    ensures var t := AfterRemoveAdditional(s, rideId, e, actor);
      && t.exceptions == s.exceptions - {e}
      && (forall d :: d in t.departures ==> d in s.departures)
      && (forall d :: d in s.departures && s.departures[d].rideExceptionId != Some(e) ==> d in t.departures && t.departures[d] == s.departures[d])
      && (forall d :: d in t.departures && s.departures[d].rideExceptionId == Some(e) ==>
            t.departures[d].source == EXTRA && t.departures[d].rideExceptionId.None? && t.departures[d].cancelled.Some?
            && t.departures[d].serviceDate == s.departures[d].serviceDate)
  {
    hide Referenced;
  }

  lemma {:induction false} RemoveKeepsPaired(s: Store, dates: iset<string>, rideId: Id, e: Id, actor: Actor)
    requires Paired(s, dates) && e in s.exceptions && s.exceptions[e].kind == ADDITIONAL && s.exceptions[e].rideId == rideId
    ensures Paired(AfterRemoveAdditional(s, rideId, e, actor), dates)
  {
    hide HasSkip, IsBusAdditional, AfterRemoveAdditional;
    var t := AfterRemoveAdditional(s, rideId, e, actor);
    RemoveBecomes(s, rideId, e, actor);
    SkipsUnmoved(s, t);
    forall x | x in t.exceptions && IsBusAdditional(t.exceptions[x]) && t.exceptions[x].exceptionDate in dates ensures HasBus(t, x) {
      var d :| d in s.departures && IsExtraOf(s.departures[d], x);
      assert IsExtraOf(t.departures[d], x);
    }
  }

  lemma {:induction false} SkipForFinds(records: seq<ExceptionRecord>, s: Store, w: Window, r: Id, d: string)
    requires IsRecordLoad(records, s, w) && InWindow(w, d)
    ensures SkipFor(records, r, d).Some? <==> HasSkip(s, r, d)
  {
    hide InWindow, LoadedBefore;
    SkipForMember(records, r, d);
    if SkipFor(records, r, d).Some? {
      assert SkipFor(records, r, d).value.id in SkipsOn(s.exceptions, r, d);
    }
    if HasSkip(s, r, d) {
      var e :| e in SkipsOn(s.exceptions, r, d);
      assert ExceptionRecord(e, s.exceptions[e]) in records;
    }
  }

  lemma {:induction false} SkipForMember(records: seq<ExceptionRecord>, r: Id, d: string)
    ensures SkipFor(records, r, d).Some? ==> SkipFor(records, r, d).value in records && IsSkipOf(SkipFor(records, r, d).value.row, r, d)
    ensures SkipFor(records, r, d).None? ==> forall x :: x in records ==> !IsSkipOf(x.row, r, d)
  {
    if |records| > 0 {
      SkipForMember(records[1..], r, d);
      assert records == [records[0]] + records[1..];
    }
  }

  lemma {:induction false} SyncedExtraTimes(s: Store, w: Window, now: int, after: map<Id, Departure>)
    requires RowsSynced(s, w, now, after) && DepartureKeys(s)
    ensures forall id :: id in s.departures && id in after && s.departures[id].source == EXTRA ==>
      after[id].departureTime == s.departures[id].departureTime && after[id].arrivalTime == s.departures[id].arrivalTime
  {
    hide Deleted, SyncedRow, IsDate;
    forall id | id in s.departures && id in after && s.departures[id].source == EXTRA
      ensures after[id].departureTime == s.departures[id].departureTime && after[id].arrivalTime == s.departures[id].arrivalTime
    {
      SyncedKeepsExtra(s, w, id, now);
    }
  }

  /** A linked departure of an ADDITIONAL in the window is an extra stored in the window. */
  lemma {:induction false} BusInWindow(s: Store, w: Window, e: Id, d: Id)
    requires Linkage(s) && e in s.exceptions && InWindow(w, s.exceptions[e].exceptionDate)
    requires d in s.departures && s.departures[d].rideExceptionId == Some(e)
    ensures HasExtra(s, w, e)
  {
    hide InWindow;
    assert IsExtraOf(s.departures[d], e);
  }

  lemma {:induction false} CreatedLink(s: Store, w: Window, records: seq<ExceptionRecord>, newId: PlanKey -> Id, now: int,
                                       after: map<Id, Departure>, id: Id) returns (key: PlanKey)
    requires Valid(s) && Linkage(s) && RowsCreated(s, w, records, newId, now, after) && id in after && id !in s.departures
    ensures CreateFor(s, w, records, key).Some? && id == newId(key)
    ensures after[id].rideExceptionId == (match key case ScheduleKey(_, _) => None case ExtraKey(e) => Some(e))
    ensures key.ExtraKey? ==>
      && after[id].source == EXTRA && after[id].cancelled.None? && key.id in s.exceptions && IsBusAdditional(s.exceptions[key.id])
      && s.exceptions[key.id].rideId == after[id].rideId && s.exceptions[key.id].exceptionDate == after[id].serviceDate
      && SameTimesAs(after[id], s.exceptions[key.id])
      && forall d :: d in s.departures ==> s.departures[d].rideExceptionId != Some(key.id)
    ensures key.ScheduleKey? ==>
      && after[id].source == SCHEDULE && InWindow(w, after[id].serviceDate)
      && after[id].cancelled == SkipCancellation(SkipFor(records, after[id].rideId, after[id].serviceDate))
  {
    hide Valid, InWindow, NewRow, CreateFor, RowsCreated, PlannedOn, IsDate, SkipFor;
    key := CreatedBy(s, w, records, newId, now, after, id);
    CreatedRowNames(s, w, records, key, now);
    if key.ExtraKey? {
      forall d | d in s.departures ensures s.departures[d].rideExceptionId != Some(key.id) {
        if s.departures[d].rideExceptionId == Some(key.id) {
          BusInWindow(s, w, key.id, d);
        }
      }
    }
  }

  /** A row a sync makes: linked to an ADDITIONAL that no stored departure is linked to, or as its date's SKIP says. */
  ghost predicate CreatedPaired(s: Store, row: Departure) {
    && (row.rideExceptionId.Some? ==>
          var e := row.rideExceptionId.value;
          row.source == EXTRA && e in s.exceptions && s.exceptions[e].kind == ADDITIONAL
          && s.exceptions[e].rideId == row.rideId && s.exceptions[e].exceptionDate == row.serviceDate && SameTimesAs(row, s.exceptions[e])
          && forall d :: d in s.departures ==> s.departures[d].rideExceptionId != Some(e))
    && (row.source == EXTRA ==> row.cancelled.None? && row.rideExceptionId.Some?)
    && (row.source == SCHEDULE ==> (row.cancelled.Some? <==> HasSkip(s, row.rideId, row.serviceDate)))
  }

  lemma {:induction false} CreatedIsPaired(s: Store, w: Window, records: seq<ExceptionRecord>, newId: PlanKey -> Id, now: int,
                                           after: map<Id, Departure>, id: Id)
    requires Valid(s) && Linkage(s) && IsRecordLoad(records, s, w)
    requires RowsCreated(s, w, records, newId, now, after) && id in after && id !in s.departures
    ensures CreatedPaired(s, after[id])
  {
    hide Valid, IsRecordLoad, RowsCreated, HasSkip, IsBusAdditional, InWindow, SkipFor;
    var key := CreatedLink(s, w, records, newId, now, after, id);
    if key.ScheduleKey? {
      SkipForFinds(records, s, w, after[id].rideId, after[id].serviceDate);
    } else {
      AdditionalKind(s.exceptions[key.id]);
    }
  }

  /** The rows a sync leaves, told apart from the rows it makes. */
  ghost predicate Continues(s: Store, t: Store) {
    && t.exceptions == s.exceptions
    && (forall id :: id in s.departures && id in t.departures ==> SameDecision(t.departures[id], s.departures[id]))
    && (forall id :: id in s.departures && id in t.departures && s.departures[id].source == EXTRA ==>
          t.departures[id].departureTime == s.departures[id].departureTime && t.departures[id].arrivalTime == s.departures[id].arrivalTime)
    && forall id :: id in s.departures && s.departures[id].source == EXTRA ==> id in t.departures
  }

  ghost predicate LinkedApart(s: Store, t: Store) {
    forall a, b ::
      a in t.departures && b in t.departures && a !in s.departures && b !in s.departures
      && t.departures[a].rideExceptionId.Some? && t.departures[a].rideExceptionId == t.departures[b].rideExceptionId
      ==> a == b
  }

  lemma {:induction false} RowsStayLinked(s: Store, t: Store)
    requires Linkage(s) && NoSharing(s) && Continues(s, t) && LinkedApart(s, t)
    requires forall id :: id in t.departures && id !in s.departures ==> CreatedPaired(s, t.departures[id])
    ensures Linkage(t) && NoSharing(t)
  {
    hide HasSkip;
  }

  lemma {:induction false} RowsStayPaired(s: Store, t: Store, dates: iset<string>)
    requires SkipsPaired(s, dates) && ExtrasPaired(s, dates) && Continues(s, t)
    requires forall id :: id in t.departures && id !in s.departures ==> CreatedPaired(s, t.departures[id])
    ensures SkipsPaired(t, dates) && ExtrasPaired(t, dates)
  {
    hide HasSkip;
    SkipsUnmoved(s, t);
  }

  lemma {:induction false} LinkedAreExtras(s: Store, d: Id)
    requires Linkage(s) && d in s.departures && s.departures[d].rideExceptionId.Some?
    ensures s.departures[d].source == EXTRA
  {
  }

  lemma {:induction false} SyncRowsKeepPaired(s: Store, t: Store, dates: iset<string>, w: Window, records: seq<ExceptionRecord>,
                                              newId: PlanKey -> Id, now: int)
    requires Sound(s, dates) && IsRecordLoad(records, s, w)
    requires Continues(s, t) && RowsCreated(s, w, records, newId, now, t.departures)
    ensures Paired(t, dates)
  {
    hide Valid, IsRecordLoad, RowsCreated, Linkage, NoSharing, SkipsPaired, ExtrasPaired, AdditionalsPaired, CreatedPaired, Continues, LinkedApart;
    ExtrasStay(s, t, dates);
    forall id | id in t.departures && id !in s.departures ensures CreatedPaired(s, t.departures[id]) {
      CreatedIsPaired(s, w, records, newId, now, t.departures, id);
    }
    CreatedApart(s, t, w, records, newId, now);
    RowsStayLinked(s, t);
    RowsStayPaired(s, t, dates);
  }

  lemma {:induction false} ExtrasStay(s: Store, t: Store, dates: iset<string>)
    requires Linkage(s) && AdditionalsPaired(s, dates) && Continues(s, t)
    ensures AdditionalsPaired(t, dates)
  {
    hide Linkage, AdditionalsPaired;
    forall d | d in s.departures && s.departures[d].rideExceptionId.Some? ensures s.departures[d].source == EXTRA {
      LinkedAreExtras(s, d);
    }
    BusesStay(s, t, dates);
  }

  lemma {:induction false} CreatedApart(s: Store, t: Store, w: Window, records: seq<ExceptionRecord>, newId: PlanKey -> Id, now: int)
    requires Valid(s) && Linkage(s) && RowsCreated(s, w, records, newId, now, t.departures)
    ensures LinkedApart(s, t)
  {
    hide Valid, Linkage, RowsCreated, CreateFor, IsBusAdditional, InWindow, SkipFor;
    forall a, b | a in t.departures && b in t.departures && a !in s.departures && b !in s.departures
      && t.departures[a].rideExceptionId.Some? && t.departures[a].rideExceptionId == t.departures[b].rideExceptionId
      ensures a == b
    {
      var j := CreatedLink(s, w, records, newId, now, t.departures, a);
      var k := CreatedLink(s, w, records, newId, now, t.departures, b);
    }
  }

  lemma {:induction false} AdditionalKind(x: RideException)
    requires IsBusAdditional(x)
    ensures x.kind == ADDITIONAL
  {
  }

  lemma {:induction false} SyncKeepsPaired(s: Store, dates: iset<string>, step: SyncStep)
    requires Sound(s, dates) && CanSync(s, step)
    ensures Paired(AfterSync(s, step), dates)
  {
    hide PlanOf, IsQuery, Valid, Walkable, FreshSupply, CreateFor, NewRow, RowsCreated, RowsSynced, InsertPlanned, ApplySync, Paired;
    var e := Edited(s, step.rides);
    var t := AfterSync(s, step);
    EditKeepsValid(s, step.rides);
    EditKeepsPaired(s, dates, step.rides);
    QueryRecords(step.q, e, step.w);
    SyncStepKeeps(s, step);
    assert t.exceptions == e.exceptions by { SyncKeepsExceptions(e, PlanOf(step.q, step.w), step.newId, step.now, step.mode); }
    if step.mode == Full {
      FullSyncRows(e, step.w, step.q, step.newId, step.now);
      KeysOf(e);
      SyncedExtraTimes(e, step.w, step.now, t.departures);
    } else {
      CreatedRows(e, step.w, step.q, step.newId, step.now);
      assert t.departures == InsertPlanned(e.departures, PlanOf(step.q, step.w).creates, step.newId, step.now) by {
        InsertOnlyDepartures(e, PlanOf(step.q, step.w), step.newId, step.now);
      }
    }
    SyncRowsKeepPaired(e, t, dates, step.w, step.q.records, step.newId, step.now);
  }

  lemma {:induction false} KeysOf(s: Store)
    requires Valid(s)
    ensures DepartureKeys(s)
  {
  }

  lemma {:induction false} InsertOnlyDepartures(s: Store, plan: Plan, newId: PlanKey -> Id, now: int)
    ensures ApplySync(s, plan, newId, now, InsertOnly).departures == InsertPlanned(s.departures, plan.creates, newId, now)
  {
  }

  lemma {:induction false} SyncKeepsExceptions(s: Store, plan: Plan, newId: PlanKey -> Id, now: int, mode: SyncMode)
    ensures ApplySync(s, plan, newId, now, mode).exceptions == s.exceptions
  {
  }

  lemma {:induction false} QueryRecords(q: Query, s: Store, w: Window)
    requires IsQuery(q, s, w)
    ensures IsRecordLoad(q.records, s, w)
  {
  }

  lemma {:induction false} EditKeepsPaired(s: Store, dates: iset<string>, rides: map<Id, Ride>)
    requires Paired(s, dates)
    ensures Paired(Edited(s, rides), dates)
  {
    hide Paired;
    RowsKeepPaired(s, Edited(s, rides), dates);
  }
}
