/**
 * "None of them changes the timetable, so none runs the departure sync"
 * (`departures.service.ts`): a store in step is still in step after each decision.
 */
module DecisionsNeedNoSync {
  import opened Basics
  import opened Calendar
  import opened Timetable
  import opened Tables
  import opened SyncPlan
  import opened SyncRules
  import opened SyncApply
  import opened SyncProofs
  import opened Decisions
  import opened DecisionPairing
  import opened DecisionSafety

  /** Only departure `id` differs, and only exceptions it accounts for. */
  ghost predicate OnlyRow(s: Store, t: Store, w: Window, id: Id) {
    && t.rides == s.rides
    && (forall d :: Referenced(t.reservations, d) <==> Referenced(s.reservations, d))
    && (forall d :: d != id ==> (d in t.departures <==> d in s.departures) && (d in t.departures ==> t.departures[d] == s.departures[d]))
    && (id in s.departures && s.departures[id].source == SCHEDULE ==>
          id in t.departures && SameIdentity(t.departures[id], s.departures[id]))
    && (forall e :: AddsBus(t, w, e) ==>
          || (AddsBus(s, w, e) && (id in s.departures ==> s.departures[id].rideExceptionId != Some(e)))
          || (id in t.departures && IsExtraOf(t.departures[id], e) && InWindow(w, t.departures[id].serviceDate)))
  }

  lemma {:induction false} SettledElsewhere(s: Store, t: Store, d: Id)
    requires t.rides == s.rides && d in s.departures && d in t.departures && t.departures[d] == s.departures[d]
    requires Referenced(t.reservations, d) <==> Referenced(s.reservations, d)
    ensures Settled(t, d) <==> Settled(s, d)
  {
    hide Target, Referenced, ChangedFields;
  }

  lemma {:induction false} OneRowInStep(s: Store, t: Store, w: Window, id: Id)
    requires InStep(s, w) && OnlyRow(s, t, w, id)
    requires id in t.departures && Loaded(w, t.departures[id]) ==> Settled(t, id)
    ensures InStep(t, w)
  {
    hide Settled, InWindow, AddsBus, Referenced, TimetableProduces;
    forall d | d in t.departures && Loaded(w, t.departures[d]) ensures Settled(t, d) {
      if d != id {
        SettledElsewhere(s, t, d);
      }
    }
    forall r, d | TimetableProduces(t.rides, w, r, d) ensures HasSchedule(t, r, d) {
      var x :| x in s.departures && IsScheduleOf(s.departures[x], r, d);
      assert IsScheduleOf(t.departures[x], r, d);
    }
    forall e | AddsBus(t, w, e) ensures HasExtra(t, w, e) {
      if AddsBus(s, w, e) && (id in s.departures ==> s.departures[id].rideExceptionId != Some(e)) {
        var x :| x in s.departures && IsExtraOf(s.departures[x], e) && InWindow(w, s.departures[x].serviceDate);
        assert IsExtraOf(t.departures[x], e);
      }
    }
  }

  // ---- What a row's decision has to do with being settled ----

  /** A cancellation is not a field the timetable sets. */
  lemma {:induction false} CancelledScheduleSettled(s: Store, t: Store, id: Id, credit: Option<Cancellation>)
    requires t.rides == s.rides && id in s.departures && s.departures[id].source == SCHEDULE && Settled(s, id)
    requires id in t.departures && t.departures[id] == s.departures[id].(cancelled := credit)
    requires Referenced(t.reservations, id) <==> Referenced(s.reservations, id)
    ensures Settled(t, id) <==> credit.Some? || s.departures[id].droppedAt.None? || Referenced(s.reservations, id)
  {
    hide PlannedOn, Referenced, SameStops;
  }

  /** An extra that is not an orphan is dropped exactly while its ride does not run. */
  lemma {:induction false} RelinkedExtraSettled(s: Store, t: Store, id: Id)
    requires t.rides == s.rides && id in s.departures && s.departures[id].source == EXTRA && Settled(s, id)
    requires s.departures[id].rideId in s.rides
    requires s.departures[id].rideExceptionId.Some? || s.departures[id].cancelled.Some? || s.departures[id].droppedAt.None?
    requires id in t.departures && (t.departures[id].rideExceptionId.Some? || t.departures[id].cancelled.Some?)
    requires t.departures[id] == s.departures[id].(cancelled := t.departures[id].cancelled, rideExceptionId := t.departures[id].rideExceptionId)
    ensures Settled(t, id)
  {
    hide LinePathStops, RideRuns, Referenced, SameStops;
  }

  // ---- Timetable departures ----

  lemma {:induction false} OnlyScheduleOf(s: Store, id: Id, d: Id)
    requires UniqueSchedule(s.departures) && id in s.departures && s.departures[id].source == SCHEDULE && d in s.departures
    ensures IsScheduleOf(s.departures[d], s.departures[id].rideId, s.departures[id].serviceDate) <==> d == id
  {
  }

  lemma {:induction false} LoadedIsSettled(s: Store, w: Window, id: Id)
    requires InStep(s, w) && id in s.departures && s.departures[id].source != LEGACY && InWindow(w, s.departures[id].serviceDate)
    ensures Settled(s, id)
  {
    hide InWindow, Settled;
  }

  /** The SKIP credits a departure the cancellation has just credited: nothing more to write. */
  lemma {:induction false} CancelledAlready(s: Store, id: Id, at: Option<Cancellation>, credit: Cancellation)
    requires UniqueSchedule(s.departures) && id in s.departures && s.departures[id].source == SCHEDULE && at.Some?
    ensures var u := s.departures[id := s.departures[id].(cancelled := at)];
      WithCancellation(u, s.departures[id].rideId, s.departures[id].serviceDate, credit) == u
  {
    var row := s.departures[id];
    var u := s.departures[id := row.(cancelled := at)];
    var t := WithCancellation(u, row.rideId, row.serviceDate, credit);
    forall d | d in u ensures t[d] == u[d] {
      OnlyScheduleOf(s, id, d);
    }
  }

  lemma {:induction false} CancelScheduleRow(s: Store, id: Id, actor: Actor, found: Option<Id>)
    requires UniqueSchedule(s.departures) && id in s.departures && s.departures[id].source == SCHEDULE
    requires found.Some? ==> found.value in s.exceptions
    ensures var t := AfterCancel(s, id, actor, found);
      && t.departures == s.departures[id := s.departures[id].(cancelled := Some(Cancellation(actor.now, actor.id)))]
      && t.rides == s.rides && t.reservations == s.reservations
      && t.exceptions == if found.Some? then s.exceptions
                         else s.exceptions[actor.exceptionId := NewSkip(s.departures[id].rideId, s.departures[id].serviceDate, actor)]
  {
    hide UniqueSchedule, WithCancellation;
    var row := s.departures[id];
    var skip := if found.Some? then s.exceptions[found.value] else NewSkip(row.rideId, row.serviceDate, actor);
    CancelledAlready(s, id, Some(Cancellation(actor.now, actor.id)), SkipCredit(skip, actor));
  }

  lemma {:induction false} SkipAddsNoBus(s: Store, t: Store, w: Window, id: Id, rideId: Id, date: string, actor: Actor)
    requires t.rides == s.rides
    requires t.exceptions == s.exceptions || t.exceptions == s.exceptions[actor.exceptionId := NewSkip(rideId, date, actor)]
    ensures forall e :: AddsBus(t, w, e) ==> AddsBus(s, w, e)
  {
    hide InWindow;
  }

  lemma {:induction false} CancelScheduleInStep(s: Store, w: Window, id: Id, actor: Actor, found: Option<Id>)
    requires Valid(s) && InStep(s, w) && Linkage(s)
    requires id in s.departures && s.departures[id].source == SCHEDULE && InWindow(w, s.departures[id].serviceDate)
    requires found.Some? ==> found.value in s.exceptions
    ensures InStep(AfterCancel(s, id, actor, found), w)
  {
    hide IsDate, InWindow, AfterCancel, Referenced, Settled, PlannedOn, ReservationKeys, ExceptionKeys, AddsBus, InStep,
         UniqueSchedule, UniqueLegacy, DepartureKeys, RidesNamed;
    var t := AfterCancel(s, id, actor, found);
    LoadedIsSettled(s, w, id);
    CancelScheduleRow(s, id, actor, found);
    SkipAddsNoBus(s, t, w, id, s.departures[id].rideId, s.departures[id].serviceDate, actor);
    CancelledScheduleSettled(s, t, id, Some(Cancellation(actor.now, actor.id)));
    OneRowInStep(s, t, w, id);
  }

  /** `unskipDate`, row by row: only the date's own timetable departure changes. */
  lemma {:induction false} UnskipRow(s: Store, rideId: Id, date: string, id: Id)
    requires Valid(s) && Linkage(s) && id in s.departures && IsScheduleOf(s.departures[id], rideId, date)
    ensures var t := AfterUnskip(s, rideId, date);
      && t.departures == s.departures[id := s.departures[id].(cancelled := None)]
      && t.rides == s.rides && t.reservations == s.reservations
      && (forall e :: e in t.exceptions ==> e in s.exceptions && t.exceptions[e] == s.exceptions[e])
  {
    hide IsDate, IsSkipOf, ReservationKeys, ExceptionKeys, AfterUnskip, HasSkip;
    UnskipBecomes(s, rideId, date);
    var t := AfterUnskip(s, rideId, date);
    UnskipFrame(s, rideId, date);
    var u := s.departures[id := s.departures[id].(cancelled := None)];
    forall d | d in s.departures ensures t.departures[d] == u[d] {
      OnlyScheduleOf(s, id, d);
    }
  }

  lemma {:induction false} UnskipFrame(s: Store, rideId: Id, date: string)
    ensures AfterUnskip(s, rideId, date).rides == s.rides && AfterUnskip(s, rideId, date).reservations == s.reservations
  {
  }

  /**
   * Bringing a timetable departure back needs no sync exactly when the departure still runs
   * or is booked: a dropped one nobody is on would be deleted by the next sync. That is the
   * case `DEPARTURE_DROPPED` refuses.
   */
  lemma {:induction false} UnskipNeedsSyncIff(s: Store, w: Window, rideId: Id, date: string, id: Id)
    requires Valid(s) && InStep(s, w) && Linkage(s)
    requires id in s.departures && IsScheduleOf(s.departures[id], rideId, date) && InWindow(w, date)
    ensures InStep(AfterUnskip(s, rideId, date), w) <==> s.departures[id].droppedAt.None? || Referenced(s.reservations, id)
  {
    hide IsDate, InWindow, AfterUnskip, Referenced, Settled, PlannedOn, ReservationKeys, ExceptionKeys;
    var t := AfterUnskip(s, rideId, date);
    UnskipRow(s, rideId, date, id);
    CancelledScheduleSettled(s, t, id, None);
    if Settled(t, id) {
      OneRowInStep(s, t, w, id);
    }
  }

  // ---- Extras ----

  lemma {:induction false} CancelExtraInStep(s: Store, w: Window, id: Id, actor: Actor, found: Option<Id>)
    requires Sound(s, DatesOf(w)) && InStep(s, w)
    requires id in s.departures && s.departures[id].source == EXTRA && s.departures[id].cancelled.None?
    requires InWindow(w, s.departures[id].serviceDate) && (found.Some? ==> found.value in s.exceptions)
    ensures InStep(AfterCancel(s, id, actor, found), w)
  {
    hide IsDate, InWindow, AfterRelease, Referenced, Settled, ReservationKeys, ExceptionKeys, AdditionalsPaired, SkipsPaired, IsBusAdditional, UniqueSchedule, UniqueLegacy, InStep;
    var row := s.departures[id];
    var s1 := s.(departures := s.departures[id := row.(cancelled := Some(Cancellation(actor.now, actor.id)), rideExceptionId := None)]);
    var t := AfterCancel(s, id, actor, found);
    ReleaseBecomes(s1, id, row.rideExceptionId);
    RideOf(s, id);
    LoadedIsSettled(s, w, id);
    InDates(w, row.serviceDate);
    assert ExtraPaired(s, id);
    RelinkedExtraSettled(s, t, id);
    OneRowInStep(s, t, w, id);
  }

  lemma {:induction false} InDates(w: Window, date: string)
    ensures date in DatesOf(w) <==> InWindow(w, date)
  {
    hide InWindow;
  }

  lemma {:induction false} DeleteExtraInStep(s: Store, w: Window, id: Id)
    requires Valid(s) && Linkage(s) && NoSharing(s) && InStep(s, w)
    requires id in s.departures && s.departures[id].source == EXTRA
    ensures InStep(AfterDeleteExtra(s, id), w)
  {
    hide IsDate, InWindow, AfterRelease, Referenced, Settled, ReservationKeys, ExceptionKeys, IsBusAdditional, UniqueSchedule, UniqueLegacy, InStep;
    var s1 := s.(departures := s.departures - {id});
    ReleaseBecomes(s1, id, s.departures[id].rideExceptionId);
    OneRowInStep(s, AfterDeleteExtra(s, id), w, id);
  }

  lemma {:induction false} RestoreExtraInStep(s: Store, w: Window, id: Id, actor: Actor)
    requires Valid(s) && InStep(s, w) && actor.exceptionId !in s.exceptions
    requires id in s.departures && s.departures[id].source == EXTRA && s.departures[id].cancelled.Some?
    requires s.departures[id].rideExceptionId.None? && InWindow(w, s.departures[id].serviceDate)
    ensures InStep(AfterRestore(s, id, actor), w)
  {
    hide IsDate, InWindow, Referenced, Settled, ReservationKeys, ExceptionKeys, UniqueSchedule, UniqueLegacy, InStep;
    var t := AfterRestore(s, id, actor);
    RideOf(s, id);
    LoadedIsSettled(s, w, id);
    RelinkedExtraSettled(s, t, id);
    assert IsExtraOf(t.departures[id], actor.exceptionId);
    OneRowInStep(s, t, w, id);
  }

  lemma {:induction false} NewExtraRowSettled(t: Store, id: Id, date: string, departureTime: string, arrivalTime: string, capacity: int, actor: Actor, rideId: Id)
    requires RidesNamed(t.rides) && rideId in t.rides && id in t.departures
    requires t.departures[id] == ExtraRow(t.rides[rideId], date, departureTime, arrivalTime, capacity, actor)
    ensures Settled(t, id)
  {
    hide LinePathStops, RideRuns, Referenced, SameStops;
    SameStopsReflexive(t.departures[id].stops);
  }

  lemma {:induction false} CreateExtraInStep(s: Store, w: Window, rideId: Id, date: string, departureTime: string, arrivalTime: string,
                                             capacity: Option<int>, actor: Actor, departureId: Id)
    requires Valid(s) && InStep(s, w) && rideId in s.rides && InWindow(w, date)
    requires actor.exceptionId !in s.exceptions && departureId !in s.departures
    ensures InStep(AfterCreateExtra(s, rideId, date, departureTime, arrivalTime, capacity, actor, departureId), w)
  {
    hide IsDate, InWindow, Referenced, Settled, ReservationKeys, ExceptionKeys, UniqueSchedule, UniqueLegacy, InStep, ExtraRow;
    var seats := OrElse(capacity, s.rides[rideId].capacity);
    var t := AfterCreateExtra(s, rideId, date, departureTime, arrivalTime, capacity, actor, departureId);
    ExtraRowNames(s.rides[rideId], date, departureTime, arrivalTime, seats, actor);
    NewExtraRowSettled(t, departureId, date, departureTime, arrivalTime, seats, actor, rideId);
    OneRowInStep(s, t, w, departureId);
  }

  lemma {:induction false} MovedRowSettled(s: Store, t: Store, id: Id, departureTime: string, arrivalTime: string, capacity: int, now: int)
    requires t.rides == s.rides && id in s.departures && s.departures[id].source == EXTRA && s.departures[id].rideId in s.rides
    requires id in t.departures
    requires t.departures[id] == MovedRow(s.rides[s.departures[id].rideId], id, s.departures[id], departureTime, arrivalTime, capacity, now)
    ensures Settled(t, id)
  {
    hide LinePathStops, RideRuns, Referenced, SortedStops;
  }

  lemma {:induction false} ResizedRowSettled(s: Store, t: Store, id: Id, capacity: int)
    requires t.rides == s.rides && id in s.departures && s.departures[id].source == EXTRA && s.departures[id].rideId in s.rides && Settled(s, id)
    requires id in t.departures && t.departures[id] == s.departures[id].(capacity := capacity)
    ensures Settled(t, id)
  {
    hide LinePathStops, RideRuns, Referenced, SameStops;
  }

  lemma {:induction false} UpdateKeepsRiders(s: Store, id: Id, changes: ExtraChanges, actor: Actor, d: Id)
    requires id in s.departures && s.departures[id].rideId in s.rides
    ensures Referenced(AfterUpdateExtra(s, id, changes, actor).reservations, d) <==> Referenced(s.reservations, d)
  {
    hide MovedRow, AdditionalMoved;
    var t := AfterUpdateExtra(s, id, changes, actor);
    assert RidersOf(t.reservations, d) == RidersOf(s.reservations, d);
  }

  lemma {:induction false} UpdateExtraInStep(s: Store, w: Window, id: Id, changes: ExtraChanges, actor: Actor)
    requires Sound(s, DatesOf(w)) && InStep(s, w)
    requires id in s.departures && s.departures[id].source == EXTRA && InWindow(w, s.departures[id].serviceDate)
    ensures InStep(AfterUpdateExtra(s, id, changes, actor), w)
  {
    hide InWindow, Referenced, Settled, InStep, MovedRow, RidersRetimed, AdditionalMoved, Linkage, NoSharing, SkipsPaired, ExtrasPaired, AdditionalsPaired,
      OnlyRow, Valid;
    RideOf(s, id);
    var row := s.departures[id];
    var t := AfterUpdateExtra(s, id, changes, actor);
    var departureTime := OrElse(changes.departureTime, row.departureTime);
    var arrivalTime := OrElse(changes.arrivalTime, row.arrivalTime);
    LoadedIsSettled(s, w, id);
    if departureTime == row.departureTime && arrivalTime == row.arrivalTime {
      ResizedRowSettled(s, t, id, OrElse(changes.capacity, row.capacity));
    } else {
      MovedRowSettled(s, t, id, departureTime, arrivalTime, OrElse(changes.capacity, row.capacity), actor.now);
    }
    UpdateIsOneRow(s, w, id, changes, actor);
    OneRowInStep(s, t, w, id);
  }

  lemma {:induction false} UpdateIsOneRow(s: Store, w: Window, id: Id, changes: ExtraChanges, actor: Actor)
    requires Linkage(s) && id in s.departures && s.departures[id].source == EXTRA && s.departures[id].rideId in s.rides
    requires InWindow(w, s.departures[id].serviceDate)
    ensures OnlyRow(s, AfterUpdateExtra(s, id, changes, actor), w, id)
  {
    hide IsDate, InWindow, Referenced, MovedRow, RidersRetimed;
    var row := s.departures[id];
    MovedRowNames(s.rides[row.rideId], id, row, OrElse(changes.departureTime, row.departureTime), OrElse(changes.arrivalTime, row.arrivalTime),
                  OrElse(changes.capacity, row.capacity), actor.now);
    forall d ensures Referenced(AfterUpdateExtra(s, id, changes, actor).reservations, d) <==> Referenced(s.reservations, d) {
      UpdateKeepsRiders(s, id, changes, actor, d);
    }
  }

  lemma {:induction false} MovedRowNames(ride: Ride, id: Id, row: Departure, departureTime: string, arrivalTime: string, capacity: int, now: int)
    ensures SameDecision(MovedRow(ride, id, row, departureTime, arrivalTime, capacity, now), row)
  {
    hide LinePathStops, RideRuns, SameStops;
  }

  // ---- The theorem ----

  predicate IsDecision(step: Step) {
    step.Cancel? || step.Restore? || step.CreateExtra? || step.UpdateExtra? || step.DeleteExtra?
  }

  /**
   * A store whose sync plan is empty still has an empty one after any decision on a
   * departure, refused or not.
   */
  lemma {:induction false} DecisionKeepsStep(s: Store, w: Window, step: Step)
    requires Sound(s, DatesOf(w)) && InStep(s, w)
    requires IsDecision(step) && Enabled(s, step) && step.w == w
    ensures InStep(After(s, step), w)
  {
    hide IsDate, InWindow, Prepared, IsFirstSkip, Valid, InStep, SkipsPaired, AdditionalsPaired, AfterCancel, AfterRestore,
      AfterCreateExtra, AfterUpdateExtra, AfterDeleteExtra, Referenced;
    match step
    case Cancel(_, id, actor, found) =>
      if Prepared(s, w, id, CANCEL).Ok? {
        PreparedMeans(s, w, id, CANCEL);
        FirstSkipExists(s, s.departures[id].rideId, s.departures[id].serviceDate, found);
        if s.departures[id].source == SCHEDULE {
          CancelScheduleInStep(s, w, id, actor, found);
        } else {
          CancelExtraInStep(s, w, id, actor, found);
        }
      }
    case Restore(_, id, actor) =>
      if Prepared(s, w, id, RESTORE).Ok? {
        PreparedMeans(s, w, id, RESTORE);
        if s.departures[id].source == SCHEDULE {
          UnskipNeedsSyncIff(s, w, s.departures[id].rideId, s.departures[id].serviceDate, id);
          RestoreIsUnskip(s, id, actor);
        } else {
          InDates(w, s.departures[id].serviceDate);
          assert ExtraPaired(s, id);
          RestoreExtraInStep(s, w, id, actor);
        }
      }
    case CreateExtra(_, rideId, date, departureTime, arrivalTime, capacity, actor, departureId) =>
      if rideId in s.rides && InWindow(w, date) {
        CreateExtraInStep(s, w, rideId, date, departureTime, arrivalTime, capacity, actor, departureId);
      }
    case UpdateExtra(_, id, changes, actor) =>
      if Prepared(s, w, id, EDIT_EXTRA).Ok? {
        PreparedMeans(s, w, id, EDIT_EXTRA);
        UpdateExtraInStep(s, w, id, changes, actor);
      }
    case DeleteExtra(_, id) =>
      if Prepared(s, w, id, DELETE_EXTRA).Ok? {
        PreparedMeans(s, w, id, DELETE_EXTRA);
        DeleteExtraInStep(s, w, id);
      }
  }

  lemma {:induction false} RestoreIsUnskip(s: Store, id: Id, actor: Actor)
    requires id in s.departures && s.departures[id].source == SCHEDULE
    ensures AfterRestore(s, id, actor) == AfterUnskip(s, s.departures[id].rideId, s.departures[id].serviceDate)
  {
    hide AfterUnskip;
  }

  /** The same claim as the planner sees it: four empty lists before, four empty lists after. */
  lemma {:induction false} DecisionsNeedNoSync(s: Store, w: Window, step: Step, before: Query, after: Query)
    requires Sound(s, DatesOf(w)) && Walkable(w)
    requires IsDecision(step) && Enabled(s, step) && step.w == w
    requires IsQuery(before, s, w) && PlanOf(before, w) == NO_CHANGES && IsQuery(after, After(s, step), w)
    ensures PlanOf(after, w) == NO_CHANGES
  {
    hide PlanOf, IsQuery, Walkable, InStep, Enabled, After, Paired, Valid;
    PlanEmptyIffInStep(before, s, w);
    DecisionKeepsStep(s, w, step);
    StepKeepsSound(s, step, DatesOf(w));
    PlanEmptyIffInStep(after, After(s, step), w);
  }

  /** So a run of decisions, however long, leaves the store in step and paired after each of them. */
  lemma {:induction false} DecisionRunStaysInStep(states: seq<Store>, steps: seq<Step>, w: Window)
    requires IsRun(states, steps) && Sound(states[0], DatesOf(w)) && InStep(states[0], w)
    requires forall i :: 0 <= i < |steps| ==> IsDecision(steps[i]) && steps[i].w == w
    ensures forall i :: 0 <= i < |states| ==> Sound(states[i], DatesOf(w)) && InStep(states[i], w)
  {
    hide Valid, Paired, InStep, Enabled, After, IsDecision;
    var n := 0;
    while n < |steps|
      invariant 0 <= n <= |steps|
      invariant forall i :: 0 <= i <= n ==> Sound(states[i], DatesOf(w)) && InStep(states[i], w)
    {
      DecisionKeepsStep(states[n], w, steps[n]);
      StepKeepsSound(states[n], steps[n], DatesOf(w));
      n := n + 1;
    }
  }

  /** An empty plan before a run of decisions is an empty plan after every one of them. */
  lemma {:induction false} DecisionRunNeedsNoSync(states: seq<Store>, steps: seq<Step>, w: Window, before: Query, i: nat, after: Query)
    requires IsRun(states, steps) && Sound(states[0], DatesOf(w)) && Walkable(w)
    requires forall k :: 0 <= k < |steps| ==> IsDecision(steps[k]) && steps[k].w == w
    requires IsQuery(before, states[0], w) && PlanOf(before, w) == NO_CHANGES
    requires i < |states| && IsQuery(after, states[i], w)
    ensures PlanOf(after, w) == NO_CHANGES
  {
    hide PlanOf, IsQuery, Walkable, InStep, Paired, Valid, IsRun, IsDecision;
    PlanEmptyIffInStep(before, states[0], w);
    DecisionRunStaysInStep(states, steps, w);
    PlanEmptyIffInStep(after, states[i], w);
  }

  // ---- Credits ----

  /** A SKIP credits the same author whether it is applied by an operator or by the sync, unless nobody signed it. */
  lemma {:induction false} CreditsAgreeIff(id: Id, skip: RideException, actor: Actor)
    ensures Some(SkipCredit(skip, actor)) == SkipCancellation(Some(ExceptionRecord(id, skip)))
      <==> skip.updatedBy.Some? || skip.createdBy.Some? || actor.id == SYSTEM_ACTOR_ID
  {
  }

  /** The first SKIP of a date is what its departure is credited to, by a decision or by the sync that stores it later. */
  lemma {:induction false} SkippedNowOrLater(s: Store, rideId: Id, date: string, id: Id, actor: Actor, found: Option<Id>, ride: Ride, records: seq<ExceptionRecord>, now: int)
    requires id in s.departures && IsScheduleOf(s.departures[id], rideId, date) && s.departures[id].cancelled.None?
    requires found.Some? ==> found.value in s.exceptions
    requires PlannedOn(ride, date).Some? && ride.id == rideId && SkipFor(records, rideId, date).Some?
    requires SkipFor(records, rideId, date).value.row
      == if found.Some? then s.exceptions[found.value] else NewSkip(rideId, date, actor)
    requires SkipFor(records, rideId, date).value.row.updatedBy.Some? || SkipFor(records, rideId, date).value.row.createdBy.Some?
    ensures AfterSkip(s, rideId, date, actor, found).departures[id].cancelled
      == NewRow(CreateWithSkip(PlannedOn(ride, date).value, records), now).cancelled
  {
    hide PlannedOn, SkipFor;
    PlannedNames(ride, date);
    var record := SkipFor(records, rideId, date).value;
    CreditsAgreeIff(record.id, record.row, actor);
  }
}
