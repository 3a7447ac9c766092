/** Runs of decisions, bookings and syncs: one invariant, and what the integrity check reports of it. */
module DecisionSafety {
  import opened Basics
  import opened Text
  import opened Calendar
  import opened Timetable
  import opened Tables
  import opened SyncPlan
  import opened SyncRules
  import opened SyncApply
  import opened SyncTheorems
  import opened Decisions
  import opened DecisionPairing
  import opened DecisionRuns

  // ---- The database's constraints ----

  ghost predicate RowsStay(s: Store, t: Store) {
    && t.rides == s.rides
    && (forall d :: d in t.departures && d in s.departures ==>
          && t.departures[d].source == s.departures[d].source && t.departures[d].rideId == s.departures[d].rideId
          && t.departures[d].serviceDate == s.departures[d].serviceDate
          && (s.departures[d].source == LEGACY ==> t.departures[d].departureTime == s.departures[d].departureTime))
    && (forall d :: d in t.departures && d !in s.departures ==>
          t.departures[d].source == EXTRA && t.departures[d].rideId in s.rides && IsDate(t.departures[d].serviceDate))
    && (forall d :: d in t.departures && t.departures[d].rideExceptionId.Some? ==> t.departures[d].rideExceptionId.value in t.exceptions)
  }

  ghost predicate ExceptionsStay(s: Store, t: Store) {
    forall e :: e in t.exceptions ==> t.exceptions[e].rideId in s.rides && IsDate(t.exceptions[e].exceptionDate)
  }

  ghost predicate RidersStay(s: Store, t: Store) {
    && t.reservations.Keys == s.reservations.Keys
    && (forall r :: r in s.reservations ==>
          && t.reservations[r].departureId == s.reservations[r].departureId
          && t.reservations[r].rideId == s.reservations[r].rideId && t.reservations[r].travelDate == s.reservations[r].travelDate)
    && (forall d :: d in s.departures && Referenced(s.reservations, d) ==> d in t.departures)
  }

  lemma {:induction false} StayValid(s: Store, t: Store)
    requires Valid(s) && RowsStay(s, t) && ExceptionsStay(s, t) && RidersStay(s, t)
    ensures Valid(t)
  {
    hide IsDate;
    forall r | r in s.reservations && s.reservations[r].departureId.Some? ensures s.reservations[r].departureId.value in t.departures {
      assert r in RidersOf(s.reservations, s.reservations[r].departureId.value);
    }
  }

  lemma {:induction false} SameRiders(s: Store, t: Store)
    requires t.reservations == s.reservations
    requires forall d :: d in s.departures && Referenced(s.reservations, d) ==> d in t.departures
    ensures RidersStay(s, t)
  {
    hide Referenced;
  }

  lemma {:induction false} RowKeys(s: Store)
    requires Valid(s)
    ensures DepartureKeys(s) && ExceptionKeys(s)
  {
  }

  lemma {:induction false} SkipRowsStay(s: Store, rideId: Id, date: string, actor: Actor, found: Option<Id>)
    requires DepartureKeys(s) && (found.Some? ==> found.value in s.exceptions)
    ensures RowsStay(s, AfterSkip(s, rideId, date, actor, found))
  {
    hide IsDate;
  }

  lemma {:induction false} SkipKeepsValid(s: Store, rideId: Id, date: string, actor: Actor, found: Option<Id>)
    requires Valid(s) && rideId in s.rides && IsDate(date) && (found.Some? ==> found.value in s.exceptions)
    ensures Valid(AfterSkip(s, rideId, date, actor, found))
  {
    RowKeys(s);
    hide Valid, IsDate, Referenced, RidersStay, RowsStay, DepartureKeys;
    SkipRowsStay(s, rideId, date, actor, found);
    var t := AfterSkip(s, rideId, date, actor, found);
    SameRiders(s, t);
    StayValid(s, t);
  }

  predicate SameIdentity(a: Departure, b: Departure) {
    && a.source == b.source && a.rideId == b.rideId && a.serviceDate == b.serviceDate
    && (b.source == LEGACY ==> a.departureTime == b.departureTime)
    && (a.rideExceptionId.Some? ==> a.rideExceptionId == b.rideExceptionId)
  }

  lemma {:induction false} DeleteExceptionsKeepsValid(s: Store, t: Store, es: set<Id>)
    requires Valid(s) && t.rides == s.rides && t.exceptions == s.exceptions && t.reservations == s.reservations
    requires forall d :: d in t.departures ==> d in s.departures && SameIdentity(t.departures[d], s.departures[d])
    requires forall d :: d in s.departures && Referenced(s.reservations, d) ==> d in t.departures
    ensures Valid(t) && Valid(DeleteExceptions(t, es))
  {
    hide Valid, IsDate, Referenced, RidersStay, RowsStay, ExceptionsStay, DeleteExceptions, SameIdentity, DepartureKeys, ExceptionKeys;
    RowKeys(s);
    var u := DeleteExceptions(t, es);
    SameIdentityStays(s, t);
    UnlinkedStays(s, t, es);
    SameRiders(s, t);
    SameRiders(s, u);
    StayValid(s, t);
    StayValid(s, u);
  }

  lemma {:induction false} SameIdentityStays(s: Store, t: Store)
    requires DepartureKeys(s) && ExceptionKeys(s) && t.rides == s.rides && t.exceptions == s.exceptions
    requires forall d :: d in t.departures ==> d in s.departures && SameIdentity(t.departures[d], s.departures[d])
    ensures RowsStay(s, t) && ExceptionsStay(s, t)
  {
    hide IsDate;
  }

  lemma {:induction false} UnlinkedStays(s: Store, t: Store, es: set<Id>)
    requires RowsStay(s, t) && ExceptionsStay(s, t)
    ensures var u := DeleteExceptions(t, es);
      RowsStay(s, u) && ExceptionsStay(s, u) && u.reservations == t.reservations && u.departures.Keys == t.departures.Keys
  {
    hide IsDate, Unlinked;
    forall d | d in t.departures ensures UnlinkedKeeps(t.departures[d], Unlinked(t.departures[d], es), es) {
      UnlinkedIs(t.departures[d], es);
    }
  }

  predicate UnlinkedKeeps(before: Departure, after: Departure, es: set<Id>) {
    && after.source == before.source && after.rideId == before.rideId && after.serviceDate == before.serviceDate
    && after.departureTime == before.departureTime
    && (after.rideExceptionId.Some? ==> after.rideExceptionId == before.rideExceptionId && after.rideExceptionId.value !in es)
  }

  lemma {:induction false} UnlinkedIs(row: Departure, es: set<Id>)
    ensures UnlinkedKeeps(row, Unlinked(row, es), es)
  {
  }

  lemma {:induction false} UnskipKeepsValid(s: Store, rideId: Id, date: string)
    requires Valid(s)
    ensures Valid(AfterUnskip(s, rideId, date))
  {
    hide Valid, IsDate, SkipsOn, Referenced, DeleteExceptions;
    DeleteExceptionsKeepsValid(s, s.(departures := WithoutCancellation(s.departures, rideId, date)), SkipsOn(s.exceptions, rideId, date));
  }

  lemma {:induction false} CancelKeepsValid(s: Store, id: Id, actor: Actor, found: Option<Id>)
    requires Valid(s) && id in s.departures && s.departures[id].source != LEGACY
    requires IsFirstSkip(s, s.departures[id].rideId, s.departures[id].serviceDate, found)
    ensures Valid(AfterCancel(s, id, actor, found))
  {
    FirstSkipExists(s, s.departures[id].rideId, s.departures[id].serviceDate, found);
    hide Valid, IsFirstSkip, AfterSkip, AfterRelease, IsSkipOf, SkipsOn;
    var row := s.departures[id];
    var credit := Cancellation(actor.now, actor.id);
    if row.source == SCHEDULE {
      MarkKeepsValid(s, id, credit);
      SkipKeepsValid(s.(departures := s.departures[id := row.(cancelled := Some(credit))]), row.rideId, row.serviceDate, actor, found);
    } else {
      FreedKeepsValid(s, id, credit);
    }
  }

  lemma {:induction false} MarkKeepsValid(s: Store, id: Id, credit: Cancellation)
    requires Valid(s) && id in s.departures
    ensures Valid(s.(departures := s.departures[id := s.departures[id].(cancelled := Some(credit))]))
    ensures s.departures[id].rideId in s.rides && IsDate(s.departures[id].serviceDate)
  {
    RowKeys(s);
    hide Valid, IsDate;
    OneRowKeepsValid(s, id, s.departures[id].(cancelled := Some(credit)), {});
  }

  lemma {:induction false} FreedKeepsValid(s: Store, id: Id, credit: Cancellation)
    requires Valid(s) && id in s.departures && s.departures[id].source == EXTRA
    ensures var freed := s.(departures := s.departures[id := s.departures[id].(cancelled := Some(credit), rideExceptionId := None)]);
      Valid(AfterRelease(freed, id, s.departures[id].rideExceptionId))
  {
    RowKeys(s);
    hide Valid, IsDate, DeleteExceptions, SharedWith;
    var row := s.departures[id];
    OneRowKeepsValid(s, id, row.(cancelled := Some(credit), rideExceptionId := None),
                     if row.rideExceptionId.Some? then {row.rideExceptionId.value} else {});
  }

  lemma {:induction false} OneRowKeepsValid(s: Store, id: Id, row: Departure, es: set<Id>)
    requires Valid(s) && id in s.departures && SameIdentity(row, s.departures[id])
    ensures var t := s.(departures := s.departures[id := row]); Valid(t) && Valid(DeleteExceptions(t, es))
  {
    hide Valid, Referenced, DeleteExceptions;
    DeleteExceptionsKeepsValid(s, s.(departures := s.departures[id := row]), es);
  }

  lemma {:induction false} RelinkStays(s: Store, id: Id, actor: Actor)
    requires DepartureKeys(s) && ExceptionKeys(s) && id in s.departures && s.departures[id].source == EXTRA
    ensures var t := AfterRestore(s, id, actor);
      RowsStay(s, t) && ExceptionsStay(s, t) && t.reservations == s.reservations && t.departures.Keys == s.departures.Keys
  {
    hide IsDate, AfterUnskip;
  }

  lemma {:induction false} RestoreKeepsValid(s: Store, id: Id, actor: Actor)
    requires Valid(s) && id in s.departures && s.departures[id].source != LEGACY && actor.exceptionId !in s.exceptions
    ensures Valid(AfterRestore(s, id, actor))
  {
    RowKeys(s);
    hide IsDate, AfterUnskip, Referenced, Valid, RowsStay, ExceptionsStay, RidersStay, DepartureKeys, ExceptionKeys;
    var row := s.departures[id];
    if row.source == SCHEDULE {
      UnskipKeepsValid(s, row.rideId, row.serviceDate);
    } else {
      var t := AfterRestore(s, id, actor);
      RelinkStays(s, id, actor);
      SameRiders(s, t);
      StayValid(s, t);
    }
  }

  lemma {:induction false} CreateKeepsValid(s: Store, rideId: Id, date: string, departureTime: string, arrivalTime: string,
                                            capacity: Option<int>, actor: Actor, departureId: Id)
    requires Valid(s) && rideId in s.rides && IsDate(date) && actor.exceptionId !in s.exceptions && departureId !in s.departures
    ensures Valid(AfterCreateExtra(s, rideId, date, departureTime, arrivalTime, capacity, actor, departureId))
  {
    hide IsDate, ExtraRow, Referenced;
    var t := AfterCreateExtra(s, rideId, date, departureTime, arrivalTime, capacity, actor, departureId);
    ExtraRowNames(s.rides[rideId], date, departureTime, arrivalTime, OrElse(capacity, s.rides[rideId].capacity), actor);
    SameRiders(s, t);
    StayValid(s, t);
  }

  lemma {:induction false} UpdateRowsStay(s: Store, id: Id, changes: ExtraChanges, actor: Actor)
    requires DepartureKeys(s) && id in s.departures && s.departures[id].source == EXTRA
    ensures RowsStay(s, AfterUpdateExtra(s, id, changes, actor))
  {
    hide IsDate, PlanExtra, RideRuns, SameStops, ExtraDropped, RidersRetimed;
  }

  lemma {:induction false} UpdateRidersStay(s: Store, id: Id, changes: ExtraChanges, actor: Actor)
    requires id in s.departures && s.departures[id].rideId in s.rides
    ensures RidersStay(s, AfterUpdateExtra(s, id, changes, actor))
  {
    hide MovedRow, Referenced, AdditionalMoved;
  }

  lemma {:induction false} UpdateExceptionsStay(s: Store, id: Id, changes: ExtraChanges, actor: Actor)
    requires ExceptionKeys(s) && id in s.departures && s.departures[id].rideId in s.rides
    ensures ExceptionsStay(s, AfterUpdateExtra(s, id, changes, actor))
  {
    hide IsDate, MovedRow, RidersRetimed;
  }

  lemma {:induction false} UpdateKeepsValid(s: Store, id: Id, changes: ExtraChanges, actor: Actor)
    requires Valid(s) && id in s.departures && s.departures[id].source == EXTRA
    ensures Valid(AfterUpdateExtra(s, id, changes, actor))
  {
    RowKeys(s);
    hide Valid, IsDate, AfterUpdateExtra, RowsStay, RidersStay, ExceptionsStay;
    UpdateExceptionsStay(s, id, changes, actor);
    UpdateRowsStay(s, id, changes, actor);
    UpdateRidersStay(s, id, changes, actor);
    StayValid(s, AfterUpdateExtra(s, id, changes, actor));
  }

  lemma {:induction false} DeleteKeepsValid(s: Store, id: Id)
    requires Valid(s) && id in s.departures && !Referenced(s.reservations, id)
    ensures Valid(AfterDeleteExtra(s, id))
  {
    hide Valid, IsDate, Referenced, DeleteExceptions, SharedWith;
    var link := s.departures[id].rideExceptionId;
    DeleteExceptionsKeepsValid(s, s.(departures := s.departures - {id}), if link.Some? then {link.value} else {});
  }

  lemma {:induction false} RemoveKeepsValid(s: Store, rideId: Id, e: Id, actor: Actor)
    requires Valid(s)
    ensures Valid(AfterRemoveAdditional(s, rideId, e, actor))
  {
    hide Valid, IsDate, Referenced, DeleteExceptions, AddedBy;
    var kept := map d | d in s.departures && (AddedBy(s.departures[d], rideId, e) ==> Referenced(s.reservations, d)) ::
      if AddedBy(s.departures[d], rideId, e) && s.departures[d].cancelled.None?
      then s.departures[d].(cancelled := Some(Cancellation(actor.now, actor.id))) else s.departures[d];
    DeleteExceptionsKeepsValid(s, s.(departures := kept), {e});
  }

  lemma {:induction false} ResizedRowsStay(s: Store, rideId: Id, from: int, to: int, today: string)
    requires DepartureKeys(s)
    ensures var t := AfterCapacityEdit(s, rideId, from, to, today);
      RowsStay(s, t) && t.exceptions == s.exceptions && t.reservations == s.reservations && t.departures.Keys == s.departures.Keys
  {
    hide IsDate, StrLess;
  }

  lemma {:induction false} CapacityKeepsValid(s: Store, rideId: Id, from: int, to: int, today: string)
    requires Valid(s)
    ensures Valid(AfterCapacityEdit(s, rideId, from, to, today))
  {
    RowKeys(s);
    hide Valid, AfterCapacityEdit, RowsStay, RidersStay, IsDate, Referenced, DepartureKeys;
    var t := AfterCapacityEdit(s, rideId, from, to, today);
    ResizedRowsStay(s, rideId, from, to, today);
    SameRiders(s, t);
    StayValid(s, t);
  }

  // ---- Steps ----

  datatype Step =
    | Sync(step: SyncStep)
    | Cancel(w: Window, id: Id, actor: Actor, found: Option<Id>)
    | Restore(w: Window, id: Id, actor: Actor)
    | CreateExtra(w: Window, rideId: Id, date: string, departureTime: string, arrivalTime: string, capacity: Option<int>,
                  actor: Actor, departureId: Id)
    | UpdateExtra(w: Window, id: Id, changes: ExtraChanges, actor: Actor)
    | DeleteExtra(w: Window, id: Id)
    | Skip(rideId: Id, date: string, actor: Actor, found: Option<Id>)
    | Unskip(rideId: Id, date: string)
    | RemoveAdditional(rideId: Id, exceptionId: Id, actor: Actor)
    | FollowCapacity(rideId: Id, from: int, to: int, today: string)
    | Book(departureId: Id, request: Reservation, reservationId: Id)

  /** What the database and its generators give a step: unused IDs, real dates, rows that exist, query results as stored. */
  ghost predicate Enabled(s: Store, step: Step) {
    match step
    case Sync(sync) => CanSync(s, sync)
    case Cancel(_, id, actor, found) =>
      actor.exceptionId !in s.exceptions
      && (id in s.departures ==> IsFirstSkip(s, s.departures[id].rideId, s.departures[id].serviceDate, found))
    case Restore(_, _, actor) => actor.exceptionId !in s.exceptions
    case CreateExtra(_, _, date, _, _, _, actor, departureId) =>
      IsDate(date) && actor.exceptionId !in s.exceptions && departureId !in s.departures
    case UpdateExtra(_, _, _, _) => true
    case DeleteExtra(_, _) => true
    case Skip(rideId, date, actor, found) =>
      rideId in s.rides && IsDate(date) && actor.exceptionId !in s.exceptions && IsFirstSkip(s, rideId, date, found)
    case Unskip(_, _) => true
    case RemoveAdditional(rideId, e, _) => e in s.exceptions && s.exceptions[e].kind == ADDITIONAL && s.exceptions[e].rideId == rideId
    case FollowCapacity(_, _, _, _) => true
    case Book(_, _, reservationId) => reservationId !in s.reservations
  }

  /** The store after a step. A refused step leaves it as it was. */
  ghost function After(s: Store, step: Step): Store
    requires Enabled(s, step)
  {
    match step
    case Sync(sync) => AfterSync(s, sync)
    case Cancel(w, id, actor, found) => if Prepared(s, w, id, CANCEL).Ok? then AfterCancel(s, id, actor, found) else s
    case Restore(w, id, actor) => if Prepared(s, w, id, RESTORE).Ok? then AfterRestore(s, id, actor) else s
    case CreateExtra(w, rideId, date, departureTime, arrivalTime, capacity, actor, departureId) =>
      if rideId in s.rides && InWindow(w, date) && departureTime != arrivalTime
      then AfterCreateExtra(s, rideId, date, departureTime, arrivalTime, capacity, actor, departureId) else s
    case UpdateExtra(w, id, changes, actor) =>
      if Prepared(s, w, id, EDIT_EXTRA).Ok? && s.departures[id].rideId in s.rides
         && OrElse(changes.departureTime, s.departures[id].departureTime) != OrElse(changes.arrivalTime, s.departures[id].arrivalTime)
      then AfterUpdateExtra(s, id, changes, actor) else s
    case DeleteExtra(w, id) => if Prepared(s, w, id, DELETE_EXTRA).Ok? then AfterDeleteExtra(s, id) else s
    case Skip(rideId, date, actor, found) => AfterSkip(s, rideId, date, actor, found)
    case Unskip(rideId, date) => AfterUnskip(s, rideId, date)
    case RemoveAdditional(rideId, e, actor) => AfterRemoveAdditional(s, rideId, e, actor)
    case FollowCapacity(rideId, from, to, today) => AfterCapacityEdit(s, rideId, from, to, today)
    case Book(departureId, request, reservationId) =>
      if departureId in s.departures
         && BookingRefused(s.departures[departureId], request.rideId, request.travelDate, request.departureTime, request.arrivalTime).None?
      then s.(reservations := s.reservations[reservationId := request.(departureId := Some(departureId))]) else s
  }

  lemma {:induction false} PreparedMeans(s: Store, w: Window, id: Id, operation: Operation)
    requires Prepared(s, w, id, operation).Ok?
    ensures id in s.departures && s.departures[id].source != LEGACY && InWindow(w, s.departures[id].serviceDate)
    ensures operation == CANCEL ==> s.departures[id].cancelled.None?
    ensures operation == RESTORE ==> s.departures[id].cancelled.Some? && s.departures[id].droppedAt.None?
    ensures operation == EDIT_EXTRA || operation == DELETE_EXTRA ==> s.departures[id].source == EXTRA
    ensures operation == DELETE_EXTRA ==> !Referenced(s.reservations, id)
  {
    hide InWindow, Referenced;
  }

  lemma {:induction false} StepKeepsSound(s: Store, step: Step, dates: iset<string>)
    requires Sound(s, dates) && Enabled(s, step)
    ensures Sound(After(s, step), dates)
  {
    hide Valid, Paired, IsDate, InWindow, Prepared, IsFirstSkip, CanSync, AfterSync, AfterSkip, AfterUnskip, AfterCancel, AfterRestore,
      AfterCreateExtra, AfterUpdateExtra, AfterDeleteExtra, AfterRemoveAdditional, AfterCapacityEdit, BookingRefused;
    match step
    case Sync(sync) =>
      SyncStepKeeps(s, sync);
      SyncKeepsPaired(s, dates, sync);
    case Cancel(w, id, actor, found) =>
      if Prepared(s, w, id, CANCEL).Ok? {
        PreparedMeans(s, w, id, CANCEL);
        CancelKeepsValid(s, id, actor, found);
        CancelKeepsPaired(s, dates, id, actor, found);
      }
    case Restore(w, id, actor) =>
      if Prepared(s, w, id, RESTORE).Ok? {
        PreparedMeans(s, w, id, RESTORE);
        RestoreKeepsValid(s, id, actor);
        RestoreKeepsPaired(s, dates, id, actor);
      }
    case CreateExtra(w, rideId, date, departureTime, arrivalTime, capacity, actor, departureId) =>
      if rideId in s.rides {
        CreateKeepsValid(s, rideId, date, departureTime, arrivalTime, capacity, actor, departureId);
        CreateKeepsPaired(s, dates, rideId, date, departureTime, arrivalTime, capacity, actor, departureId);
      }
    case UpdateExtra(w, id, changes, actor) =>
      if Prepared(s, w, id, EDIT_EXTRA).Ok? {
        PreparedMeans(s, w, id, EDIT_EXTRA);
        RideOf(s, id);
        UpdateKeepsValid(s, id, changes, actor);
        UpdateKeepsPaired(s, dates, id, changes, actor);
      }
    case DeleteExtra(w, id) =>
      if Prepared(s, w, id, DELETE_EXTRA).Ok? {
        PreparedMeans(s, w, id, DELETE_EXTRA);
        DeleteKeepsValid(s, id);
        DeleteKeepsPaired(s, dates, id);
      }
    case Skip(rideId, date, actor, found) =>
      FirstSkipExists(s, rideId, date, found);
      SkipKeepsValid(s, rideId, date, actor, found);
      SkipKeepsPaired(s, dates, rideId, date, actor, found);
    case Unskip(rideId, date) =>
      UnskipKeepsValid(s, rideId, date);
      UnskipKeepsPaired(s, dates, rideId, date);
    case RemoveAdditional(rideId, e, actor) =>
      RemoveKeepsValid(s, rideId, e, actor);
      RemoveKeepsPaired(s, dates, rideId, e, actor);
    case FollowCapacity(rideId, from, to, today) =>
      CapacityKeepsValid(s, rideId, from, to, today);
      CapacityKeepsPaired(s, dates, rideId, from, to, today);
    case Book(departureId, request, reservationId) =>
      BookKeepsSound(s, step, dates);
  }

  lemma {:induction false} RideOf(s: Store, id: Id)
    requires Valid(s) && id in s.departures
    ensures s.departures[id].rideId in s.rides
  {
    hide IsDate;
  }

  lemma {:induction false} BookKeepsSound(s: Store, step: Step, dates: iset<string>)
    requires Sound(s, dates) && Enabled(s, step) && step.Book?
    ensures Sound(After(s, step), dates)
  {
    hide Valid, Paired;
    var t := After(s, step);
    BookKeepsValid(s, step);
    SamePairing(s, t, dates);
  }

  lemma {:induction false} BookKeepsValid(s: Store, step: Step)
    requires Valid(s) && Enabled(s, step) && step.Book?
    ensures Valid(After(s, step))
  {
    hide IsDate, UniqueSchedule, UniqueLegacy;
  }

  lemma {:induction false} SamePairing(s: Store, t: Store, dates: iset<string>)
    requires Paired(s, dates) && t.departures == s.departures && t.exceptions == s.exceptions
    ensures Paired(t, dates)
  {
    hide Paired;
    RowsKeepPaired(s, t, dates);
  }

  // ---- Booked times ----

  /** Only a move and a sync change a departure's times, and both take its passengers along. */
  lemma {:induction false} EditKeepsTimes(s: Store, step: Step)
    requires Valid(s) && step.UpdateExtra? && TimesCurrent(s)
    ensures TimesCurrent(After(s, step))
  {
    hide Valid, IsDate, InWindow, Prepared, IsFirstSkip, Referenced, PlanExtra, SameStops, RideRuns, AdditionalMoved;
    if Prepared(s, step.w, step.id, EDIT_EXTRA).Ok? {
      PreparedMeans(s, step.w, step.id, EDIT_EXTRA);
      RideOf(s, step.id);
    }
  }

  /** No statement of these two touches a time, on a departure or on a reservation. */
  ghost predicate TimesUntouched(s: Store, t: Store) {
    && t.reservations == s.reservations
    && t.departures.Keys <= s.departures.Keys
    && (forall d :: d in t.departures ==> t.departures[d].departureTime == s.departures[d].departureTime)
    && (forall d :: d in t.departures ==> t.departures[d].arrivalTime == s.departures[d].arrivalTime)
  }

  lemma {:induction false} UntouchedStaysCurrent(s: Store, t: Store)
    requires TimesUntouched(s, t) && TimesCurrent(s)
    ensures TimesCurrent(t)
  {
  }

  lemma {:induction false} CancelTouchesNoTime(s: Store, id: Id, actor: Actor, found: Option<Id>)
    requires id in s.departures && (found.Some? ==> found.value in s.exceptions)
    ensures TimesUntouched(s, AfterCancel(s, id, actor, found))
  {
    hide SharedWith, SkipCredit, NewSkip, IsExtraOf, AfterSkip, AfterRelease, TimesUntouched;
    var row, credit := s.departures[id], Cancellation(actor.now, actor.id);
    var marked := s.(departures := s.departures[id := row.(cancelled := Some(credit))]);
    var freed := s.(departures := s.departures[id := row.(cancelled := Some(credit), rideExceptionId := None)]);
    MarkTouchesNoTime(s, id, marked, freed, credit);
    SkipTouchesNoTime(marked, row.rideId, row.serviceDate, actor, found);
    ReleaseTouchesNoTime(freed, id, row.rideExceptionId);
    UntouchedTwice(s, marked, AfterSkip(marked, row.rideId, row.serviceDate, actor, found));
    UntouchedTwice(s, freed, AfterRelease(freed, id, row.rideExceptionId));
  }

  lemma {:induction false} MarkTouchesNoTime(s: Store, id: Id, marked: Store, freed: Store, credit: Cancellation)
    requires id in s.departures
    requires marked == s.(departures := s.departures[id := s.departures[id].(cancelled := Some(credit))])
    requires freed == s.(departures := s.departures[id := s.departures[id].(cancelled := Some(credit), rideExceptionId := None)])
    ensures TimesUntouched(s, marked) && TimesUntouched(s, freed)
  {
  }

  lemma {:induction false} SkipTouchesNoTime(s: Store, rideId: Id, date: string, actor: Actor, found: Option<Id>)
    requires found.Some? ==> found.value in s.exceptions
    ensures TimesUntouched(s, AfterSkip(s, rideId, date, actor, found))
  {
    hide SkipCredit, NewSkip;
  }

  lemma {:induction false} ReleaseTouchesNoTime(s: Store, id: Id, link: Option<Id>)
    ensures TimesUntouched(s, AfterRelease(s, id, link))
  {
    hide SharedWith;
  }

  lemma {:induction false} UntouchedTwice(s: Store, t: Store, u: Store)
    ensures TimesUntouched(s, t) && TimesUntouched(t, u) ==> TimesUntouched(s, u)
  {
  }

  lemma {:induction false} RestoreTouchesNoTime(s: Store, id: Id, actor: Actor)
    requires id in s.departures
    ensures TimesUntouched(s, AfterRestore(s, id, actor))
  {
    hide SkipsOn, NewAdditional;
    var row := s.departures[id];
    if row.source == SCHEDULE {
      UnskipTouchesNoTime(s, row.rideId, row.serviceDate);
    }
  }

  lemma {:induction false} UnskipTouchesNoTime(s: Store, rideId: Id, date: string)
    ensures TimesUntouched(s, AfterUnskip(s, rideId, date))
  {
    hide SkipsOn;
  }

  lemma {:induction false} CancelKeepsTimes(s: Store, step: Step)
    requires Valid(s) && Enabled(s, step) && (step.Cancel? || step.Restore?) && TimesCurrent(s)
    ensures TimesCurrent(After(s, step))
  {
    if step.Cancel? && Prepared(s, step.w, step.id, CANCEL).Ok? {
      FirstSkipExists(s, s.departures[step.id].rideId, s.departures[step.id].serviceDate, step.found);
    }
    hide Valid, IsDate, InWindow, Prepared, IsFirstSkip, AfterCancel, AfterRestore, TimesCurrent, TimesUntouched;
    if step.Cancel? && Prepared(s, step.w, step.id, CANCEL).Ok? {
      PreparedMeans(s, step.w, step.id, CANCEL);
      CancelTouchesNoTime(s, step.id, step.actor, step.found);
      UntouchedStaysCurrent(s, After(s, step));
    }
    if step.Restore? && Prepared(s, step.w, step.id, RESTORE).Ok? {
      PreparedMeans(s, step.w, step.id, RESTORE);
      RestoreTouchesNoTime(s, step.id, step.actor);
      UntouchedStaysCurrent(s, After(s, step));
    }
  }

  lemma {:induction false} StepKeepsTimes(s: Store, step: Step)
    requires Valid(s) && Enabled(s, step) && TimesCurrent(s)
    ensures TimesCurrent(After(s, step))
  {
    hide Valid, IsDate, InWindow, Prepared, IsFirstSkip, CanSync, AfterSync, SkipsOn, IsSkipOf, Referenced, AddedBy, StrLe, ExtraRow,
      PlanExtra, SameStops, RideRuns, LoadedBefore;
    match step
    case Sync(sync) =>
      SyncStepKeepsTimes(s, sync);
    case UpdateExtra(_, _, _, _) => EditKeepsTimes(s, step);
    case Cancel(_, _, _, _) => CancelKeepsTimes(s, step);
    case Restore(_, _, _) => CancelKeepsTimes(s, step);
    case CreateExtra(w, rideId, date, departureTime, arrivalTime, capacity, actor, departureId) =>
      NobodyOnNew(s, departureId);
    case DeleteExtra(w, id) =>
      if Prepared(s, w, id, DELETE_EXTRA).Ok? { PreparedMeans(s, w, id, DELETE_EXTRA); }
    case Skip(_, _, _, _) =>
    case Unskip(_, _) =>
    case RemoveAdditional(_, _, _) =>
    case FollowCapacity(_, _, _, _) =>
    case Book(_, _, _) =>
  }

  lemma {:induction false} NobodyOnNew(s: Store, departureId: Id)
    requires Valid(s) && departureId !in s.departures
    ensures forall r :: r in s.reservations ==> s.reservations[r].departureId != Some(departureId)
  {
    hide IsDate;
  }

  lemma {:induction false} SyncStepKeepsTimes(s: Store, step: SyncStep)
    requires Valid(s) && CanSync(s, step) && TimesCurrent(s)
    ensures TimesCurrent(AfterSync(s, step))
  {
    hide Valid, IsQuery, Walkable, FreshSupply, ApplySync, PlanOf;
    EditKeepsValid(s, step.rides);
    SyncKeepsTimes(Edited(s, step.rides), step.w, step.q, step.newId, step.now, step.mode);
  }

  // ---- Runs ----

  ghost predicate IsRun(states: seq<Store>, steps: seq<Step>) {
    && |states| == |steps| + 1
    && forall i :: 0 <= i < |steps| ==> Enabled(states[i], steps[i]) && states[i + 1] == After(states[i], steps[i])
  }

  /**
   * From a store where it holds, every run of operator decisions, bookings, timetable edits
   * with their syncs and nightly inserts keeps the pairing, the database's constraints and
   * the passengers' copies of their bus's times.
   */
  lemma {:induction false} RunsKeepPairing(states: seq<Store>, steps: seq<Step>, dates: iset<string>)
    requires IsRun(states, steps) && Sound(states[0], dates) && TimesCurrent(states[0])
    ensures forall i :: 0 <= i < |states| ==> Sound(states[i], dates) && TimesCurrent(states[i])
  {
    hide Valid, Paired, TimesCurrent, Enabled, After;
    var n := 0;
    while n < |steps|
      invariant 0 <= n <= |steps|
      invariant forall i :: 0 <= i <= n ==> Sound(states[i], dates) && TimesCurrent(states[i])
    {
      StepKeepsSound(states[n], steps[n], dates);
      StepKeepsTimes(states[n], steps[n]);
      n := n + 1;
    }
  }

  // ---- The integrity check ----

  /** `departure.matchesExceptions`: what it reports of a window, reason by reason. */
  datatype MismatchReason =
    | SKIP_NOT_APPLIED
    | CANCELLED_WITHOUT_SKIP
    | ADDITIONAL_NOT_APPLIED
    | EXTRA_WITHOUT_ADDITIONAL
    | CANCELLED_EXTRA_HAS_ADDITIONAL

  predicate InRange(s: Store, w: Window, d: Id, source: Source) {
    d in s.departures && s.departures[d].source == source && InWindow(w, s.departures[d].serviceDate)
  }

  predicate SkippedIn(s: Store, w: Window, e: Id, rideId: Id, date: string) {
    e in s.exceptions && IsSkipOf(s.exceptions[e], rideId, date) && InWindow(w, date)
  }

  /** An ADDITIONAL as the check reads it: an empty time counts as none. */
  predicate Timed(x: RideException) {
    IsBusAdditional(x) && x.departureTime.value != "" && x.arrivalTime.value != ""
  }

  predicate AddsIn(s: Store, w: Window, e: Id) {
    e in s.exceptions && Timed(s.exceptions[e]) && InWindow(w, s.exceptions[e].exceptionDate)
  }

  predicate LinkAdds(s: Store, w: Window, d: Id)
    requires d in s.departures
  {
    s.departures[d].rideExceptionId.Some? && AddsIn(s, w, s.departures[d].rideExceptionId.value)
  }

  predicate ExtraOfIn(s: Store, w: Window, e: Id, d: Id) {
    InRange(s, w, d, EXTRA) && s.departures[d].rideExceptionId == Some(e)
  }

  /** The extra an ADDITIONAL is compared with: where several share it, the one loaded last, by date and then ID. */
  predicate LastExtra(s: Store, w: Window, e: Id, d: Id) {
    && ExtraOfIn(s, w, e, d)
    && forall x :: x in s.departures && x != d && ExtraOfIn(s, w, e, x) ==>
         StrLess(s.departures[x].serviceDate, s.departures[d].serviceDate)
         || (s.departures[x].serviceDate == s.departures[d].serviceDate && StrLess(x, d))
  }

  /** The index on ride and date leaves one timetable departure to compare with a SKIP. */
  ghost predicate Reported(s: Store, w: Window, reason: MismatchReason) {
    match reason
    case SKIP_NOT_APPLIED =>
      exists e, d :: InRange(s, w, d, SCHEDULE) && SkippedIn(s, w, e, s.departures[d].rideId, s.departures[d].serviceDate)
        && s.departures[d].cancelled.None?
    case CANCELLED_WITHOUT_SKIP =>
      exists d :: InRange(s, w, d, SCHEDULE) && s.departures[d].cancelled.Some?
        && forall e :: !SkippedIn(s, w, e, s.departures[d].rideId, s.departures[d].serviceDate)
    case ADDITIONAL_NOT_APPLIED =>
      exists e :: AddsIn(s, w, e) && forall d :: LastExtra(s, w, e, d) ==> !SameTimesAs(s.departures[d], s.exceptions[e])
    case EXTRA_WITHOUT_ADDITIONAL =>
      exists d :: InRange(s, w, d, EXTRA) && s.departures[d].cancelled.None? && !LinkAdds(s, w, d)
    case CANCELLED_EXTRA_HAS_ADDITIONAL =>
      exists d :: InRange(s, w, d, EXTRA) && s.departures[d].cancelled.Some? && LinkAdds(s, w, d)
  }

  ghost predicate Quiet(s: Store, w: Window) {
    forall reason :: !Reported(s, w, reason)
  }

  ghost function DatesOf(w: Window): iset<string> {
    iset d | InWindow(w, d)
  }

  /** Every ADDITIONAL of the window is stored as an extra at its times. */
  ghost predicate AdditionalsApplied(s: Store, w: Window) {
    forall e :: AddsIn(s, w, e) ==> exists d :: LastExtra(s, w, e, d) && SameTimesAs(s.departures[d], s.exceptions[e])
  }

  /** An extra of the window runs exactly while it is linked to an ADDITIONAL of the window. */
  ghost predicate ExtrasLinked(s: Store, w: Window) {
    forall d :: InRange(s, w, d, EXTRA) ==> (s.departures[d].cancelled.None? <==> LinkAdds(s, w, d))
  }

  lemma {:induction false} QuietSkips(s: Store, w: Window)
    ensures !Reported(s, w, SKIP_NOT_APPLIED) && !Reported(s, w, CANCELLED_WITHOUT_SKIP) <==> SkipsPaired(s, DatesOf(w))
  {
    hide InWindow;
    var quiet := !Reported(s, w, SKIP_NOT_APPLIED) && !Reported(s, w, CANCELLED_WITHOUT_SKIP);
    forall r, d, e ensures SkippedIn(s, w, e, r, d) <==> e in SkipsOn(s.exceptions, r, d) && InWindow(w, d) {
    }
    forall d | InRange(s, w, d, SCHEDULE)
      ensures HasSkip(s, s.departures[d].rideId, s.departures[d].serviceDate)
        <==> exists e :: SkippedIn(s, w, e, s.departures[d].rideId, s.departures[d].serviceDate)
    {
    }
    if quiet {
      forall d | d in s.departures && s.departures[d].source == SCHEDULE && s.departures[d].serviceDate in DatesOf(w)
        ensures s.departures[d].cancelled.Some? <==> HasSkip(s, s.departures[d].rideId, s.departures[d].serviceDate)
      {
        assert InRange(s, w, d, SCHEDULE);
      }
    }
  }

  lemma {:induction false} QuietExtras(s: Store, w: Window)
    ensures !Reported(s, w, EXTRA_WITHOUT_ADDITIONAL) && !Reported(s, w, CANCELLED_EXTRA_HAS_ADDITIONAL) <==> ExtrasLinked(s, w)
    ensures !Reported(s, w, ADDITIONAL_NOT_APPLIED) <==> AdditionalsApplied(s, w)
  {
    hide InWindow, LinkAdds, AddsIn, LastExtra, SameTimesAs;
  }

  /**
   * For any store: the check is quiet about a window exactly when its timetable departures
   * are cancelled where a SKIP says so, each of its ADDITIONALs is stored at its times, and
   * its extras run exactly while linked to one of them.
   */
  lemma {:induction false} QuietMeans(s: Store, w: Window)
    ensures Quiet(s, w) <==> SkipsPaired(s, DatesOf(w)) && AdditionalsApplied(s, w) && ExtrasLinked(s, w)
  {
    hide Reported, SkipsPaired, AdditionalsApplied, ExtrasLinked, DatesOf;
    QuietSkips(s, w);
    QuietExtras(s, w);
    if SkipsPaired(s, DatesOf(w)) && AdditionalsApplied(s, w) && ExtrasLinked(s, w) {
      forall reason ensures !Reported(s, w, reason) {
        match reason
        case SKIP_NOT_APPLIED =>
        case CANCELLED_WITHOUT_SKIP =>
        case ADDITIONAL_NOT_APPLIED =>
        case EXTRA_WITHOUT_ADDITIONAL =>
        case CANCELLED_EXTRA_HAS_ADDITIONAL =>
      }
    }
  }

  // ---- What the check does not see of the pairing ----

  /** No cancelled extra is linked, not even to an ADDITIONAL that adds no bus. */
  ghost predicate CancelledUnlinked(s: Store, w: Window) {
    forall d :: InRange(s, w, d, EXTRA) && s.departures[d].cancelled.Some? ==> s.departures[d].rideExceptionId.None?
  }

  /** An ADDITIONAL whose time is the empty text, which the sync does give a bus, has it. */
  ghost predicate UntimedHaveBuses(s: Store, w: Window) {
    forall e :: e in s.exceptions && InWindow(w, s.exceptions[e].exceptionDate) && IsBusAdditional(s.exceptions[e]) ==>
      Timed(s.exceptions[e]) || HasBus(s, e)
  }

  /** No extra runs at a time that is the empty text. */
  ghost predicate ExtrasTimed(s: Store, w: Window) {
    forall d :: InRange(s, w, d, EXTRA) && s.departures[d].cancelled.None? ==>
      s.departures[d].departureTime != "" && s.departures[d].arrivalTime != ""
  }

  /**
   * For any store: the check is quiet, and what it does not look at is in order, exactly when
   * the window's departures and exception rows are paired and no extra of it runs at an empty
   * time.
   */
  lemma {:induction false} CheckIsQuietIffPaired(s: Store, w: Window)
    ensures Quiet(s, w) && Linkage(s) && NoSharing(s) && CancelledUnlinked(s, w) && UntimedHaveBuses(s, w)
      <==> Paired(s, DatesOf(w)) && ExtrasTimed(s, w)
  {
    hide Quiet, Linkage, NoSharing, SkipsPaired, ExtrasPaired, AdditionalsPaired, DatesOf, CancelledUnlinked, UntimedHaveBuses, ExtrasTimed,
      AdditionalsApplied, ExtrasLinked;
    QuietMeans(s, w);
    if Quiet(s, w) && Linkage(s) && NoSharing(s) && CancelledUnlinked(s, w) && UntimedHaveBuses(s, w) {
      QuietIsPaired(s, w);
    }
    if Paired(s, DatesOf(w)) && ExtrasTimed(s, w) {
      PairedIsQuiet(s, w);
    }
  }

  lemma {:induction false} QuietIsPaired(s: Store, w: Window)
    requires AdditionalsApplied(s, w) && ExtrasLinked(s, w) && Linkage(s) && NoSharing(s) && CancelledUnlinked(s, w) && UntimedHaveBuses(s, w)
    ensures ExtrasPaired(s, DatesOf(w)) && AdditionalsPaired(s, DatesOf(w)) && ExtrasTimed(s, w)
  {
    hide InWindow, IsBusAdditional, StrLess;
    forall e | e in s.exceptions && IsBusAdditional(s.exceptions[e]) && s.exceptions[e].exceptionDate in DatesOf(w) ensures HasBus(s, e) {
      if AddsIn(s, w, e) {
        var d :| LastExtra(s, w, e, d) && SameTimesAs(s.departures[d], s.exceptions[e]);
        assert IsExtraOf(s.departures[d], e);
      }
    }
    forall d | InRange(s, w, d, EXTRA)
      ensures ExtraPaired(s, d)
      ensures s.departures[d].cancelled.None? ==> s.departures[d].departureTime != "" && s.departures[d].arrivalTime != ""
    {
      if s.departures[d].cancelled.None? {
        assert LinkAdds(s, w, d);
        var e := s.departures[d].rideExceptionId.value;
        var x :| LastExtra(s, w, e, x) && SameTimesAs(s.departures[x], s.exceptions[e]);
        assert x == d;
      }
    }
    forall d | d in s.departures && s.departures[d].source == EXTRA && s.departures[d].serviceDate in DatesOf(w) ensures ExtraPaired(s, d) {
      assert InRange(s, w, d, EXTRA);
    }
  }

  lemma {:induction false} PairedIsQuiet(s: Store, w: Window)
    requires Linkage(s) && NoSharing(s) && ExtrasPaired(s, DatesOf(w)) && AdditionalsPaired(s, DatesOf(w)) && ExtrasTimed(s, w)
    ensures AdditionalsApplied(s, w) && ExtrasLinked(s, w) && CancelledUnlinked(s, w) && UntimedHaveBuses(s, w)
  {
    hide InWindow;
    forall d | InRange(s, w, d, EXTRA)
      ensures s.departures[d].cancelled.None? <==> LinkAdds(s, w, d)
      ensures s.departures[d].cancelled.Some? ==> s.departures[d].rideExceptionId.None?
    {
      assert s.departures[d].serviceDate in DatesOf(w);
      assert ExtraPaired(s, d);
    }
    forall e | AddsIn(s, w, e)
      ensures exists d :: LastExtra(s, w, e, d) && SameTimesAs(s.departures[d], s.exceptions[e])
    {
      assert s.exceptions[e].exceptionDate in DatesOf(w);
      assert HasBus(s, e);
      var d :| d in s.departures && IsExtraOf(s.departures[d], e);
      assert InRange(s, w, d, EXTRA) && ExtraPaired(s, d);
      assert LastExtra(s, w, e, d);
    }
  }

  // ---- Two stores the check is quiet about ----

  function OneExtra(ride: Ride, date: string, cancelled: Option<Cancellation>): Departure {
    Departure(EXTRA, ride.id, date, ride.lineId, "08:00", "10:00", 50, None, cancelled, Some("e"), [])
  }

  function OneAdditional(ride: Ride, date: string, departureTime: Option<string>): RideException {
    RideException(ride.id, date, ADDITIONAL, departureTime, Some("10:00"), 0, None, None)
  }

  function TwoOnOne(ride: Ride, date: string, a: Id, b: Id): Store {
    Store(map[ride.id := ride], map[a := OneExtra(ride, date, None), b := OneExtra(ride, date, None)],
          map["e" := OneAdditional(ride, date, Some("08:00"))], map[])
  }

  function CancelledButLinked(ride: Ride, date: string): Store {
    Store(map[ride.id := ride], map["a" := OneExtra(ride, date, Some(Cancellation(0, "o")))],
          map["e" := OneAdditional(ride, date, None)], map[])
  }

  lemma {:induction false} SmallStoreIsValid(s: Store, ride: Ride, date: string)
    requires IsDate(date) && s.rides == map[ride.id := ride] && s.reservations == map[] && "e" in s.exceptions
    requires forall d :: d in s.departures ==>
      s.departures[d].source == EXTRA && s.departures[d].rideId == ride.id && s.departures[d].serviceDate == date
      && s.departures[d].rideExceptionId == Some("e")
    requires forall e :: e in s.exceptions ==> s.exceptions[e].rideId == ride.id && s.exceptions[e].exceptionDate == date
    ensures Valid(s)
  {
    hide IsDate;
  }

  /** Two running extras that share one ADDITIONAL at their times are not reported. */
  lemma {:induction false} SharedIsQuiet(ride: Ride, date: string, a: Id, b: Id)
    requires IsDate(date) && StrLess(a, b)
    ensures var s := TwoOnOne(ride, date, a, b);
      Valid(s) && Quiet(s, Window(date, date)) && Linkage(s) && !NoSharing(s)
  {
    var s := TwoOnOne(ride, date, a, b);
    var w := Window(date, date);
    hide Quiet, DatesOf, Valid, IsDate;
    SmallStoreIsValid(s, ride, date);
    StrLessTrichotomy(a, b);
    StrLessTrichotomy(date, date);
    hide StrLess;
    QuietMeans(s, w);
    assert s.departures[a].rideExceptionId == s.departures[b].rideExceptionId;
    assert LastExtra(s, w, "e", b) && SameTimesAs(s.departures[b], s.exceptions["e"]);
    assert forall e :: AddsIn(s, w, e) ==> e == "e";
  }

  /** Nor is a cancelled extra that is still linked to an ADDITIONAL without a time. */
  lemma {:induction false} LinkedWithoutTimesIsQuiet(ride: Ride, date: string)
    requires IsDate(date)
    ensures var s := CancelledButLinked(ride, date);
      Valid(s) && Quiet(s, Window(date, date)) && Linkage(s) && NoSharing(s) && !Paired(s, DatesOf(Window(date, date)))
  {
    var s := CancelledButLinked(ride, date);
    var w := Window(date, date);
    hide Quiet, Valid, IsDate;
    SmallStoreIsValid(s, ride, date);
    StrLessTrichotomy(date, date);
    hide StrLess;
    QuietMeans(s, w);
    assert forall e :: !AddsIn(s, w, e);
    assert s.departures["a"].serviceDate in DatesOf(w);
    assert !ExtraPaired(s, "a");
  }
}
