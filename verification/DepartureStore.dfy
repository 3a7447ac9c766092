/**
 * The stored tables of one tenant, and the code that writes them: the sync's applier and
 * the operator decisions, statement by statement, each proved to leave what its function says.
 */
module DepartureStore {
  import opened Basics
  import opened Text
  import opened Calendar
  import opened Timetable
  import opened Tables
  import opened SyncPlan
  import opened SyncRules
  import opened SyncApply
  import opened SyncProofs
  import opened SyncResults
  import opened Batching
  import opened Decisions

  class Database {
    var rides: map<Id, Ride>
    var departures: map<Id, Departure>
    var exceptions: map<Id, RideException>
    var reservations: map<Id, Reservation>

    constructor (s: Store)
      ensures State() == s
    {
      rides, departures, exceptions, reservations := s.rides, s.departures, s.exceptions, s.reservations;
    }

    function State(): Store
      reads this
    {
      Store(rides, departures, exceptions, reservations)
    }

    // ---- The sync ----

    /** `syncDepartures`: plans against the rows the queries returned, and applies in the same transaction. */
    method SyncDepartures(w: Window, q: Query, newId: PlanKey -> Id, now: int, mode: SyncMode)
      requires Valid(State()) && Walkable(w) && IsQuery(q, State(), w) && FreshSupply(newId, departures)
      modifies this
      ensures State() == ApplySync(old(State()), PlanOf(q, w), newId, now, mode)
      ensures Valid(State())
      ensures mode == Full ==> InStep(State(), w) && FullSyncLeaves(old(State()), w, now, State())
      ensures mode == InsertOnly ==> InsertLeaves(old(State()), w, now, State())
    {
      hide Valid, Walkable, IsQuery, FreshSupply, InStep, Snapshot, PlanOf, FullSyncLeaves, InsertLeaves;
      ghost var s := State();
      var plan := PlanDepartures(w, q);
      PlanIsSnapshot(s, w, q);
      PlanUpdatesDistinct(q, s, w);
      FreshRows(s, w, q, newId, now);
      ApplyDepartureSync(plan, newId, now, mode);
      SyncKeepsValid(s, w, q, newId, now, mode);
      if mode == Full {
        SyncConverges(s, w, q, newId, now);
        FullSyncMeans(s, w, q, newId, now);
      } else {
        InsertMeans(s, w, q, newId, now);
      }
    }

    method PlanDepartures(w: Window, q: Query) returns (plan: Plan)
      requires Walkable(w)
      ensures plan == PlanOf(q, w)
    {
      var planned := GenerateDepartures(q.rides, w.from, w.to);
      plan := DiffDepartures(planned, q.stored, q.rides, q.records);
    }

    /** `applyDepartureSync`. */
    method ApplyDepartureSync(plan: Plan, newId: PlanKey -> Id, now: int, mode: SyncMode)
      requires Snapshot(InsertPlanned(departures, plan.creates, newId, now), reservations, plan.updates)
      modifies this
      ensures State() == ApplySync(old(State()), plan, newId, now, mode)
    {
      hide Snapshot, NewRow;
      CreateDepartures(plan.creates, newId, now);
      if mode == InsertOnly {
        return;
      }
      UpdateDepartures(plan.updates, now);
      if |plan.drops| > 0 {
        departures := MarkDropped(departures, IdsOf(plan.drops), now);
      }
      if |plan.deletes| > 0 {
        departures := departures - IdsOf(plan.deletes);
      }
      NothingListed(departures, now);
      assert |plan.drops| == 0 ==> IdsOf(plan.drops) == {};
      assert |plan.deletes| == 0 ==> IdsOf(plan.deletes) == {};
    }

    method CreateDepartures(creates: seq<Planned>, newId: PlanKey -> Id, now: int)
      modifies this`departures
      ensures departures == InsertPlanned(old(departures), creates, newId, now)
    {
      var i := 0;
      while i < |creates|
        invariant 0 <= i <= |creates|
        invariant departures == InsertPlanned(old(departures), creates[..i], newId, now)
      {
        var p := creates[i];
        assert creates[..i + 1][..i] == creates[..i];
        departures := departures[newId(p.key) :=
          Departure(p.source, p.rideId, p.serviceDate, p.lineId, p.departureTime, p.arrivalTime, p.capacity,
                    if p.timetableDropped then Some(now) else None, p.cancellation, p.rideExceptionId, p.stops)];
        i := i + 1;
      }
      assert creates[..|creates|] == creates;
    }

    /** `updateDepartures`: a handful of grouped statements that amount to writing each update alone. */
    method UpdateDepartures(updates: seq<Update>, now: int)
      requires Snapshot(departures, reservations, updates)
      modifies this`departures, this`reservations
      ensures departures == ApplyOneByOne(old(departures), updates, now)
      ensures reservations == RetimeOneByOne(old(reservations), updates)
    {
      hide ChangedFields, WrittenRow, Referenced;
      OneByOneIsPointwise(departures, updates, now);
      RetimeIsPointwise(reservations, updates);
      ColumnsThenStops(departures, reservations, updates, now);
      WriteColumns(updates, now);
      RewriteReservationTimes(updates, old(departures));
      ReplaceStops(updates);
    }

    /** One `updateMany` for each distinct set of values. */
    method WriteColumns(updates: seq<Update>, now: int)
      requires DistinctIds(updates)
      modifies this`departures
      ensures departures == ColumnsWritten(old(departures), updates, now)
    {
      hide DataOf, StopsOnly, WithData, GroupsOf, WrittenUpTo, UpdateMany, ColumnsWritten;
      var groups := GroupRows(updates, now);
      var todo := groups.Keys;
      NothingWritten(departures, updates, now);
      assert groups.Keys - todo == {};
      while todo != {}
        invariant todo <= groups.Keys
        invariant departures == WrittenUpTo(old(departures), updates, now, groups.Keys - todo)
        decreases |todo|
      {
        var data :| data in todo;
        UpdateManyStep(old(departures), updates, now, groups, groups.Keys - todo, data);
        assert groups.Keys - todo + {data} == groups.Keys - (todo - {data});
        departures := UpdateMany(departures, groups[data], data);
        todo := todo - {data};
      }
      assert groups.Keys - todo == groups.Keys;
      AllGroupsWritten(old(departures), updates, now, groups);
    }

    /** One `updateMany` of reservations for each distinct pair of times. */
    method RewriteReservationTimes(updates: seq<Update>, ghost planned: map<Id, Departure>)
      requires Snapshot(planned, reservations, updates)
      modifies this`reservations
      ensures reservations == RetimedRows(old(reservations), updates)
    {
      hide TimeGroupsOf, ChangedFields, Referenced, RetimeMany, RetimedRows, RetimedUpTo;
      var groups := GroupTimes(updates);
      var todo := groups.Keys;
      NobodyRetimed(reservations, updates);
      assert groups.Keys - todo == {};
      while todo != {}
        invariant todo <= groups.Keys
        invariant reservations == RetimedUpTo(old(reservations), updates, groups.Keys - todo)
        decreases |todo|
      {
        var times :| times in todo;
        RetimeManyStep(old(reservations), updates, groups, groups.Keys - todo, times);
        assert groups.Keys - todo + {times} == groups.Keys - (todo - {times});
        reservations := RetimeMany(reservations, groups[times], times);
        todo := todo - {times};
      }
      assert groups.Keys - todo == groups.Keys;
      AllTimesWritten(planned, old(reservations), updates, groups);
    }

    /** One delete and one insert of stop rows, across every departure whose stops changed. */
    method ReplaceStops(updates: seq<Update>)
      requires DistinctIds(updates)
      modifies this`departures
      ensures departures == Restopped(old(departures), updates)
    {
      hide UpdateOf, StopsUpTo, Restopped;
      var ids := set u | u in updates && StopsField in u.fields :: u.stored.id;
      StopsCleared(departures, updates, ids);
      departures := map id | id in departures :: if id in ids then departures[id].(stops := []) else departures[id];
      var i := 0;
      while i < |updates|
        invariant 0 <= i <= |updates|
        invariant departures == StopsUpTo(old(departures), updates, i)
        invariant departures.Keys == old(departures).Keys
      {
        var u := updates[i];
        StopsStep(old(departures), updates, i);
        if StopsField in u.fields && u.stored.id in departures {
          var row := departures[u.stored.id];
          departures := departures[u.stored.id := row.(stops := row.stops + u.planned.stops)];
        }
        i := i + 1;
      }
      StopsReplaced(old(departures), updates);
    }

    // ---- Operator decisions ----

    /** `loadOperatedDeparture`, `assertOperable` and `assertDecisionDate`, in that order. */
    method Prepare(w: Window, id: Id, operation: Operation) returns (prepared: Result<Departure, Refusal>)
      ensures prepared == Prepared(State(), w, id, operation)
    {
      if id !in departures {
        return Err(NOT_FOUND);
      }
      var refusal := Refused(departures[id], Referenced(reservations, id), operation);
      if refusal.Some? {
        return Err(refusal.value);
      }
      if StrLess(departures[id].serviceDate, w.from) || StrLess(w.to, departures[id].serviceDate) {
        return Err(DATE_OUT_OF_WINDOW);
      }
      return Ok(departures[id]);
    }

    /** The timetable departure of the ride and date ends cancelled, credited to whoever cancelled it first. */
    method CancelScheduledDeparture(rideId: Id, date: string, credit: Cancellation)
      modifies this`departures
      ensures departures == WithCancellation(old(departures), rideId, date, credit)
      ensures departures.Keys == old(departures).Keys
      ensures forall d :: d in departures ==>
        var before := old(departures)[d];
        if IsScheduleOf(before, rideId, date)
        then departures[d] == before.(cancelled := Some(OrElse(before.cancelled, credit)))
        else departures[d] == before
    {
      departures := map d | d in departures ::
        if departures[d].source == SCHEDULE && departures[d].rideId == rideId && departures[d].serviceDate == date
           && departures[d].cancelled.None?
        then departures[d].(cancelled := Some(credit)) else departures[d];
    }

    /** The timetable departure of the ride and date ends running, and no other changes. */
    method RestoreScheduledDeparture(rideId: Id, date: string)
      modifies this`departures
      ensures departures == WithoutCancellation(old(departures), rideId, date)
      ensures departures.Keys == old(departures).Keys
      ensures forall d :: d in departures && IsScheduleOf(departures[d], rideId, date) ==> departures[d].cancelled.None?
      ensures forall d :: d in departures ==> departures[d].(cancelled := old(departures)[d].cancelled) == old(departures)[d]
      ensures forall d :: d in departures && !IsScheduleOf(departures[d], rideId, date) ==> departures[d] == old(departures)[d]
    {
      departures := map d | d in departures ::
        if departures[d].source == SCHEDULE && departures[d].rideId == rideId && departures[d].serviceDate == date
           && departures[d].cancelled.Some?
        then departures[d].(cancelled := None) else departures[d];
    }

    /** `skipDate`: a SKIP already there is kept as the record. */
    method SkipDate(rideId: Id, date: string, actor: Actor, found: Option<Id>)
      requires IsFirstSkip(State(), rideId, date, found)
      modifies this`departures, this`exceptions
      ensures State() == AfterSkip(old(State()), rideId, date, actor, found)
    {
      var skip: RideException;
      if found.Some? {
        skip := exceptions[found.value];
      } else {
        skip := RideException(rideId, date, SKIP, None, None, actor.now, Some(actor.id), Some(actor.id));
        exceptions := exceptions[actor.exceptionId := skip];
      }
      CancelScheduledDeparture(rideId, date, Cancellation(skip.createdAt, OrElse(skip.updatedBy, OrElse(skip.createdBy, actor.id))));
    }

    method DeleteExceptionRows(es: set<Id>)
      modifies this`departures, this`exceptions
      ensures State() == DeleteExceptions(old(State()), es)
    {
      exceptions := exceptions - es;
      departures := map d | d in departures :: Unlinked(departures[d], es);
    }

    /** `unskipDate`: every SKIP of the date goes. */
    method UnskipDate(rideId: Id, date: string)
      modifies this`departures, this`exceptions
      ensures State() == AfterUnskip(old(State()), rideId, date)
    {
      RestoreScheduledDeparture(rideId, date);
      DeleteExceptionRows(set e | e in exceptions && IsSkipOf(exceptions[e], rideId, date));
    }

    /** `releaseAdditional`, for an extra that is going away. */
    method ReleaseAdditional(id: Id, link: Option<Id>)
      modifies this`departures, this`exceptions
      ensures State() == AfterRelease(old(State()), id, link)
    {
      if link.None? {
        return;
      }
      var sharedWith := |set d | d in departures && d != id && IsExtraOf(departures[d], link.value)|;
      SharedCount(departures, link.value, id);
      if sharedWith == 0 {
        DeleteExceptionRows({link.value});
      }
    }

    method CancelDeparture(w: Window, id: Id, actor: Actor, found: Option<Id>) returns (refusal: Option<Refusal>)
      requires UniqueSchedule(departures)
      requires id in departures ==> IsFirstSkip(State(), departures[id].rideId, departures[id].serviceDate, found)
      modifies this`departures, this`exceptions
      ensures match Prepared(old(State()), w, id, CANCEL)
        case Err(e) => refusal == Some(e) && State() == old(State())
        case Ok(_) => refusal.None? && State() == AfterCancel(old(State()), id, actor, found)
    {
      hide InWindow, Referenced;
      var prepared := Prepare(w, id, CANCEL);
      if prepared.Err? {
        return Some(prepared.error);
      }
      var departure := prepared.value;
      if departure.source == SCHEDULE {
        departures := departures[id := departure.(cancelled := Some(Cancellation(actor.now, actor.id)))];
        SkipDate(departure.rideId, departure.serviceDate, actor, found);
        return None;
      }
      departures := departures[id := departure.(cancelled := Some(Cancellation(actor.now, actor.id)), rideExceptionId := None)];
      ReleaseAdditional(id, departure.rideExceptionId);
      return None;
    }

    method RestoreDeparture(w: Window, id: Id, actor: Actor) returns (refusal: Option<Refusal>)
      modifies this`departures, this`exceptions
      ensures match Prepared(old(State()), w, id, RESTORE)
        case Err(e) => refusal == Some(e) && State() == old(State())
        case Ok(_) => refusal.None? && State() == AfterRestore(old(State()), id, actor)
    {
      hide InWindow, Referenced;
      var prepared := Prepare(w, id, RESTORE);
      if prepared.Err? {
        return Some(prepared.error);
      }
      var departure := prepared.value;
      if departure.source == SCHEDULE {
        UnskipDate(departure.rideId, departure.serviceDate);
        return None;
      }
      exceptions := exceptions[actor.exceptionId :=
        RideException(departure.rideId, departure.serviceDate, ADDITIONAL, Some(departure.departureTime),
                      Some(departure.arrivalTime), actor.now, Some(actor.id), Some(actor.id))];
      departures := departures[id := departure.(cancelled := None, rideExceptionId := Some(actor.exceptionId))];
      return None;
    }

    method CreateExtra(w: Window, rideId: Id, date: string, departureTime: string, arrivalTime: string, capacity: Option<int>,
                       actor: Actor, departureId: Id) returns (refusal: Option<Refusal>)
      modifies this`departures, this`exceptions
      ensures refusal ==
        if rideId !in old(rides) then Some(NOT_FOUND)
        else if !InWindow(w, date) then Some(DATE_OUT_OF_WINDOW)
        else if departureTime == arrivalTime then Some(SAME_TIMES) else None
      ensures refusal.Some? ==> State() == old(State())
      ensures refusal.None? ==>
        State() == AfterCreateExtra(old(State()), rideId, date, departureTime, arrivalTime, capacity, actor, departureId)
    {
      hide LinePathStops;
      if rideId !in rides {
        return Some(NOT_FOUND);
      }
      if StrLess(date, w.from) || StrLess(w.to, date) {
        return Some(DATE_OUT_OF_WINDOW);
      }
      if departureTime == arrivalTime {
        return Some(SAME_TIMES);
      }
      exceptions := exceptions[actor.exceptionId :=
        RideException(rideId, date, ADDITIONAL, Some(departureTime), Some(arrivalTime), actor.now, Some(actor.id), Some(actor.id))];
      var ride := rides[rideId];
      var planned := PlanExtra(ride, actor.exceptionId, date, departureTime, arrivalTime,
                               OrElse(capacity, ride.capacity), Some(actor.exceptionId));
      var droppedAt := if RideRuns(ride) then None else Some(actor.now);
      departures := departures[departureId := NewRow(planned, actor.now).(droppedAt := droppedAt)];
      return None;
    }

    /** Moves an extra through the sync's own update writer, or changes its capacity alone. */
    method UpdateExtra(w: Window, id: Id, changes: ExtraChanges, actor: Actor) returns (refusal: Option<Refusal>)
      requires Valid(State())
      modifies this
      ensures match Prepared(old(State()), w, id, EDIT_EXTRA)
        case Err(e) => refusal == Some(e) && State() == old(State())
        case Ok(row) =>
          if OrElse(changes.departureTime, row.departureTime) == OrElse(changes.arrivalTime, row.arrivalTime)
          then refusal == Some(SAME_TIMES) && State() == old(State())
          else refusal.None? && State() == AfterUpdateExtra(old(State()), id, changes, actor)
    {
      hide InWindow, ChangedFields, PlanExtra, RideRuns, IsDate, WrittenRow, MovedRow, RidersOf;
      var prepared := Prepare(w, id, EDIT_EXTRA);
      if prepared.Err? {
        return Some(prepared.error);
      }
      var departure := prepared.value;
      var departureTime := OrElse(changes.departureTime, departure.departureTime);
      var arrivalTime := OrElse(changes.arrivalTime, departure.arrivalTime);
      var capacity := OrElse(changes.capacity, departure.capacity);
      if departureTime == arrivalTime {
        return Some(SAME_TIMES);
      }
      if departureTime == departure.departureTime && arrivalTime == departure.arrivalTime {
        if capacity != departure.capacity {
          departures := departures[id := departure.(capacity := capacity)];
        }
        return None;
      }
      var ride := rides[departure.rideId];
      var planned := PlanExtra(ride, id, departure.serviceDate, departureTime, arrivalTime, capacity, departure.rideExceptionId);
      var stored := Stored(id, departure, |RidersOf(reservations, id)|);
      var update := DepartureUpdate(stored, planned, ExtraDropped(departure, !RideRuns(ride)));
      RidersCounted(State(), id);
      MoveIsUpdate(State(), id, departureTime, arrivalTime, capacity, actor.now);
      if update.Some? {
        UpdateDepartures([update.value], actor.now);
      }
      if departure.rideExceptionId.Some? {
        var e := departure.rideExceptionId.value;
        exceptions := exceptions[e := exceptions[e].(departureTime := Some(departureTime), arrivalTime := Some(arrivalTime),
                                                     updatedBy := Some(actor.id))];
      }
      return None;
    }

    method DeleteExtra(w: Window, id: Id) returns (refusal: Option<Refusal>)
      modifies this`departures, this`exceptions
      ensures match Prepared(old(State()), w, id, DELETE_EXTRA)
        case Err(e) => refusal == Some(e) && State() == old(State())
        case Ok(_) => refusal.None? && State() == AfterDeleteExtra(old(State()), id)
    {
      hide InWindow, Referenced;
      var prepared := Prepare(w, id, DELETE_EXTRA);
      if prepared.Err? {
        return Some(prepared.error);
      }
      departures := departures - {id};
      ReleaseAdditional(id, prepared.value.rideExceptionId);
      return None;
    }

    /** `removeAdditional`: each extra deleted when nothing references it, cancelled when a reservation does. */
    method RemoveAdditional(rideId: Id, e: Id, actor: Actor) returns (outcome: Outcome)
      modifies this`departures, this`exceptions
      ensures State() == AfterRemoveAdditional(old(State()), rideId, e, actor)
      ensures IsOutcome(old(State()), rideId, e, outcome)
    {
      hide Referenced, AddedBy;
      var extras := set d | d in departures && AddedBy(departures[d], rideId, e);
      var todo := extras;
      outcome := NO_EXTRA;
      ghost var before := departures;
      while todo != {}
        invariant todo <= extras
        invariant departures == RemovedUpTo(before, reservations, extras - todo, actor)
        invariant exceptions == old(exceptions)
        invariant outcome == OutcomeOf(reservations, extras - todo)
        decreases |todo|
      {
        var d :| d in todo;
        RemoveStep(before, reservations, extras - todo, d, actor);
        assert extras - todo + {d} == extras - (todo - {d});
        if !Referenced(reservations, d) {
          departures := departures - {d};
          outcome := if outcome == NO_EXTRA then DELETED_EXTRA else outcome;
        } else {
          outcome := CANCELLED_EXTRA;
          if departures[d].cancelled.None? {
            departures := departures[d := departures[d].(cancelled := Some(Cancellation(actor.now, actor.id)))];
          }
        }
        todo := todo - {d};
      }
      assert extras - todo == extras;
      AllRemoved(old(State()), rideId, e, actor, extras);
      DeleteExceptionRows({e});
    }

    /** The extras still at the ride's old capacity follow it; one an operator resized, and one that has run, keep theirs. */
    method FollowRideCapacity(rideId: Id, from: int, to: int, today: string)
      modifies this`departures
      ensures State() == AfterCapacityEdit(old(State()), rideId, from, to, today)
      ensures departures.Keys == old(departures).Keys
      ensures forall d :: d in departures && from != to && ExtraAhead(departures[d], rideId, today) ==> departures[d].capacity != from
      ensures forall d :: d in departures && departures[d] != old(departures)[d] ==>
        ExtraAhead(old(departures)[d], rideId, today) && old(departures)[d].capacity == from
        && departures[d] == old(departures)[d].(capacity := to)
    {
      hide ExtraAhead;
      CapacityFollows(State(), rideId, from, to, today);
      if from == to {
        return;
      }
      departures := map d | d in departures ::
        var row := departures[d];
        if ExtraAhead(row, rideId, today) && row.capacity == from then row.(capacity := to) else row;
    }

    /** A booking of one seat: the departure read under its row lock, checked, and the reservation written with its copies. */
    method Book(departureId: Id, request: Reservation, reservationId: Id) returns (refusal: Option<Refusal>)
      requires reservationId !in reservations
      modifies this`reservations
      ensures refusal ==
        if departureId !in departures then Some(NOT_FOUND)
        else BookingRefused(departures[departureId], request.rideId, request.travelDate, request.departureTime, request.arrivalTime)
      ensures refusal.Some? ==> reservations == old(reservations)
      ensures refusal.None? ==> reservations == old(reservations)[reservationId := request.(departureId := Some(departureId))]
    {
      if departureId !in departures {
        return Some(NOT_FOUND);
      }
      refusal := BookingRefused(departures[departureId], request.rideId, request.travelDate, request.departureTime, request.arrivalTime);
      if refusal.None? {
        reservations := reservations[reservationId := request.(departureId := Some(departureId))];
      }
    }
  }

  lemma {:induction false} NothingWritten(departures: map<Id, Departure>, updates: seq<Update>, now: int)
    ensures WrittenUpTo(departures, updates, now, {}) == departures
  {
    hide DataOf, StopsOnly, WithData;
  }

  lemma {:induction false} NobodyRetimed(reservations: map<Id, Reservation>, updates: seq<Update>)
    ensures RetimedUpTo(reservations, updates, {}) == reservations
  {
    hide MovesRiders, WithTimes;
  }

  lemma {:induction false} SharedCount(departures: map<Id, Departure>, e: Id, id: Id)
    ensures |set d | d in departures && d != id && IsExtraOf(departures[d], e)| == 0 <==> !SharedWith(departures, e, id)
  {
    var others := set d | d in departures && d != id && IsExtraOf(departures[d], e);
    if SharedWith(departures, e, id) {
      var d :| d in departures && d != id && IsExtraOf(departures[d], e);
      assert d in others;
    }
  }

  /** Every extra ahead at the old capacity is resized, and nothing else changes. */
  lemma {:induction false} CapacityFollows(s: Store, rideId: Id, from: int, to: int, today: string)
    ensures var t := AfterCapacityEdit(s, rideId, from, to, today).departures;
      && t.Keys == s.departures.Keys
      && (forall d :: d in t && from != to && ExtraAhead(t[d], rideId, today) ==> t[d].capacity != from)
      && forall d :: d in t && t[d] != s.departures[d] ==>
        ExtraAhead(s.departures[d], rideId, today) && s.departures[d].capacity == from && t[d] == s.departures[d].(capacity := to)
  {
    hide StrLe;
  }

  // ---- Removing the extras of an ADDITIONAL one at a time ----

  function RemovedUpTo(departures: map<Id, Departure>, reservations: map<Id, Reservation>, done: set<Id>, actor: Actor): map<Id, Departure> {
    map d | d in departures && (d in done ==> Referenced(reservations, d)) ::
      if d in done && departures[d].cancelled.None?
      then departures[d].(cancelled := Some(Cancellation(actor.now, actor.id))) else departures[d]
  }

  ghost function OutcomeOf(reservations: map<Id, Reservation>, done: set<Id>): Outcome {
    if done == {} then NO_EXTRA
    else if exists d :: d in done && Referenced(reservations, d) then CANCELLED_EXTRA else DELETED_EXTRA
  }

  lemma {:induction false} RemoveStep(departures: map<Id, Departure>, reservations: map<Id, Reservation>, done: set<Id>, d: Id, actor: Actor)
    requires d in departures && d !in done
    ensures var before, after := RemovedUpTo(departures, reservations, done, actor), RemovedUpTo(departures, reservations, done + {d}, actor);
      d in before && before[d] == departures[d]
      && after == if !Referenced(reservations, d) then before - {d}
                  else if departures[d].cancelled.None?
                  then before[d := departures[d].(cancelled := Some(Cancellation(actor.now, actor.id)))] else before
    ensures OutcomeOf(reservations, done + {d}) ==
      if Referenced(reservations, d) then CANCELLED_EXTRA
      else if OutcomeOf(reservations, done) == NO_EXTRA then DELETED_EXTRA else OutcomeOf(reservations, done)
  {
    hide Referenced;
    assert d in done + {d};
  }

  lemma {:induction false} AllRemoved(s: Store, rideId: Id, e: Id, actor: Actor, extras: set<Id>)
    requires extras == set d | d in s.departures && AddedBy(s.departures[d], rideId, e)
    ensures AfterRemoveAdditional(s, rideId, e, actor)
      == DeleteExceptions(s.(departures := RemovedUpTo(s.departures, s.reservations, extras, actor)), {e})
  {
    hide Referenced, AddedBy;
    var kept := map d | d in s.departures && (AddedBy(s.departures[d], rideId, e) ==> Referenced(s.reservations, d)) ::
      if AddedBy(s.departures[d], rideId, e) && s.departures[d].cancelled.None?
      then s.departures[d].(cancelled := Some(Cancellation(actor.now, actor.id))) else s.departures[d];
    assert kept == RemovedUpTo(s.departures, s.reservations, extras, actor);
  }

  /** A move goes through one update, which writes the row, its stops and its passengers' times. */
  lemma {:induction false} MoveIsUpdate(s: Store, id: Id, departureTime: string, arrivalTime: string, capacity: int, now: int)
    requires id in s.departures && s.departures[id].source == EXTRA && s.departures[id].rideId in s.rides
    requires departureTime != s.departures[id].departureTime || arrivalTime != s.departures[id].arrivalTime
    ensures var row, ride := s.departures[id], s.rides[s.departures[id].rideId];
      var planned := PlanExtra(ride, id, row.serviceDate, departureTime, arrivalTime, capacity, row.rideExceptionId);
      var update := DepartureUpdate(StoredOf(s, id), planned, ExtraDropped(row, !RideRuns(ride)));
      && update.Some?
      && Snapshot(s.departures, s.reservations, [update.value])
      && ApplyOneByOne(s.departures, [update.value], now)
         == s.departures[id := MovedRow(ride, id, row, departureTime, arrivalTime, capacity, now)]
      && RetimeOneByOne(s.reservations, [update.value]) == RidersRetimed(s.reservations, id, departureTime, arrivalTime)
  {
    hide PlanExtra, RideRuns, SameStops, Referenced, RidersOf, ExtraDropped, ChangedFields, MovedRow, WrittenRow, ApplyOneByOne, RetimeOneByOne;
    var row, ride := s.departures[id], s.rides[s.departures[id].rideId];
    var planned := PlanExtra(ride, id, row.serviceDate, departureTime, arrivalTime, capacity, row.rideExceptionId);
    var dropped := ExtraDropped(row, !RideRuns(ride));
    PlannedTimes(ride, id, row.serviceDate, departureTime, arrivalTime, capacity, row.rideExceptionId);
    MoveChangesTimes(row, planned, dropped);
    var update := Update(StoredOf(s, id), planned, dropped, ChangedFields(row, planned, dropped));
    RidersCounted(s, id);
    OneUpdate(s.departures, s.reservations, update, now);
    MovedIsWritten(ride, row, update, now);
  }

  lemma {:induction false} PlannedTimes(ride: Ride, id: Id, date: string, departureTime: string, arrivalTime: string, capacity: int, link: Option<Id>)
    ensures var p := PlanExtra(ride, id, date, departureTime, arrivalTime, capacity, link);
      p.departureTime == departureTime && p.arrivalTime == arrivalTime && p.capacity == capacity
  {
  }

  lemma {:induction false} MoveChangesTimes(row: Departure, planned: Planned, dropped: bool)
    requires planned.departureTime != row.departureTime || planned.arrivalTime != row.arrivalTime
    ensures var fields := ChangedFields(row, planned, dropped);
      DepartureTimeField in fields || ArrivalTimeField in fields
  {
    hide SameStops;
  }

  lemma {:induction false} MovedIsWritten(ride: Ride, row: Departure, u: Update, now: int)
    requires u.stored.row == row && u.fields == ChangedFields(row, u.planned, u.dropped)
    requires u.dropped == ExtraDropped(row, !RideRuns(ride))
    requires u.planned == PlanExtra(ride, u.stored.id, row.serviceDate, u.planned.departureTime, u.planned.arrivalTime,
                                    u.planned.capacity, row.rideExceptionId)
    ensures MovedRow(ride, u.stored.id, row, u.planned.departureTime, u.planned.arrivalTime, u.planned.capacity, now)
      == WrittenRow(row, u, now)
  {
    hide LinePathStops, RideRuns, SameStops;
  }

  lemma {:induction false} OneUpdate(departures: map<Id, Departure>, reservations: map<Id, Reservation>, u: Update, now: int)
    requires u.stored.id in departures
    ensures ApplyOneByOne(departures, [u], now) == departures[u.stored.id := WrittenRow(departures[u.stored.id], u, now)]
    ensures RetimeOneByOne(reservations, [u]) == RetimeAlone(reservations, u)
  {
    hide WrittenRow;
    assert [u][..0] == [];
    assert ApplyOneByOne(departures, [], now) == departures;
  }

  lemma {:induction false} NothingListed(departures: map<Id, Departure>, now: int)
    ensures MarkDropped(departures, {}, now) == departures && departures - {} == departures
  {
  }

  /** The plan of a query is a plan against the rows it read, and stays one when departures are inserted. */
  lemma {:induction false} PlanIsSnapshot(s: Store, w: Window, q: Query)
    requires IsQuery(q, s, w) && Valid(s) && Walkable(w)
    ensures Snapshot(s.departures, s.reservations, PlanOf(q, w).updates)
  {
    hide PlanOf, IsQuery, Valid, Walkable, Loaded, UpdateWanted, Referenced;
    PlanUpdates(q, s, w);
    PlanUpdatesDistinct(q, s, w);
    forall u | u in PlanOf(q, w).updates
      ensures u.stored.row == s.departures[u.stored.id] && u.fields == ChangedFields(u.stored.row, u.planned, u.dropped)
        && (u.stored.referenceCount > 0 <==> Referenced(s.reservations, u.stored.id))
    {
      UpdateOfSnapshot(s, u.stored.id);
    }
  }

  lemma {:induction false} UpdateOfSnapshot(s: Store, id: Id)
    requires id in s.departures && UpdateWanted(s, id).Some?
    ensures var u := UpdateWanted(s, id).value;
      u.stored.row == s.departures[id] && u.fields == ChangedFields(s.departures[id], u.planned, u.dropped)
      && (u.stored.referenceCount > 0 <==> Referenced(s.reservations, id))
  {
    hide Target, ChangedFields;
    RidersCounted(s, id);
  }

  lemma {:induction false} FreshRows(s: Store, w: Window, q: Query, newId: PlanKey -> Id, now: int)
    requires IsQuery(q, s, w) && Valid(s) && Walkable(w) && FreshSupply(newId, s.departures)
    requires Snapshot(s.departures, s.reservations, PlanOf(q, w).updates)
    ensures Snapshot(InsertPlanned(s.departures, PlanOf(q, w).creates, newId, now), s.reservations, PlanOf(q, w).updates)
  {
    hide PlanOf, IsQuery, Valid, Walkable, Referenced, ChangedFields, NewRow, RowsCreated, FreshSupply;
    CreatedRows(s, w, q, newId, now);
  }
}
