/**
 * `departure-sync.ts`, the applying half, as functions on the stored rows.
 *
 * `ApplyOneByOne` writes each update alone, in turn. It is the reference the batched
 * statements of the store are proved against.
 */
module SyncApply {
  import opened Basics
  import opened Timetable
  import opened Tables
  import opened SyncPlan
  import opened SyncRules

  // ---- Inserts ----

  /** Random IDs, as a supply that never repeats one: each plan key gets its own. */
  ghost predicate FreshSupply(newId: PlanKey -> Id, departures: map<Id, Departure>) {
    (forall k :: newId(k) !in departures) && (forall j, k :: newId(j) == newId(k) ==> j == k)
  }

  function NewRow(p: Planned, now: int): Departure {
    Departure(p.source, p.rideId, p.serviceDate, p.lineId, p.departureTime, p.arrivalTime, p.capacity,
              if p.timetableDropped then Some(now) else None, p.cancellation, p.rideExceptionId, p.stops)
  }

  function InsertPlanned(departures: map<Id, Departure>, creates: seq<Planned>, newId: PlanKey -> Id, now: int): map<Id, Departure> {
    if |creates| == 0 then departures
    else
      var p := creates[|creates| - 1];
      InsertPlanned(departures, creates[..|creates| - 1], newId, now)[newId(p.key) := NewRow(p, now)]
  }

  /** Every planned departure is stored under its own new ID, and nothing stored is touched. */
  lemma {:induction false} InsertPlannedExactly(departures: map<Id, Departure>, creates: seq<Planned>, newId: PlanKey -> Id, now: int)
    requires FreshSupply(newId, departures) && DistinctKeys(creates)
    ensures var d := InsertPlanned(departures, creates, newId, now);
      && (forall id :: id in departures ==> id in d && d[id] == departures[id])
      && (forall p :: p in creates ==> newId(p.key) in d && d[newId(p.key)] == NewRow(p, now))
      && (forall id :: id in d && id !in departures ==> exists p :: p in creates && id == newId(p.key))
  {
    hide NewRow, DistinctKeys;
    if |creates| > 0 {
      var front, last := creates[..|creates| - 1], creates[|creates| - 1];
      LastKeyIsNew(creates);
      InsertPlannedExactly(departures, front, newId, now);
      assert creates == front + [last];
    }
  }

  lemma {:induction false} LastKeyIsNew(creates: seq<Planned>)
    requires DistinctKeys(creates) && |creates| > 0
    ensures DistinctKeys(creates[..|creates| - 1])
    ensures forall p :: p in creates[..|creates| - 1] ==> p.key != creates[|creates| - 1].key
  {
  }

  // ---- Updates, one at a time ----

  predicate Retimed(u: Update) {
    DepartureTimeField in u.fields || ArrivalTimeField in u.fields
  }

  /** Every column the sync owns, never the cancellation, and the stops when they changed. */
  function WrittenRow(row: Departure, u: Update, now: int): Departure {
    row.(lineId := u.planned.lineId,
         departureTime := u.planned.departureTime,
         arrivalTime := u.planned.arrivalTime,
         capacity := u.planned.capacity,
         droppedAt := if u.dropped then Some(OrElse(u.stored.row.droppedAt, now)) else None,
         stops := if StopsField in u.fields then u.planned.stops else row.stops)
  }

  function WithTimes(r: Reservation, departureTime: string, arrivalTime: string): Reservation {
    r.(departureTime := departureTime, arrivalTime := arrivalTime)
  }

  function ApplyAlone(departures: map<Id, Departure>, u: Update, now: int): map<Id, Departure> {
    if u.stored.id in departures then departures[u.stored.id := WrittenRow(departures[u.stored.id], u, now)] else departures
  }

  function RetimeAlone(reservations: map<Id, Reservation>, u: Update): map<Id, Reservation> {
    map r | r in reservations ::
      if reservations[r].departureId == Some(u.stored.id) && Retimed(u)
      then WithTimes(reservations[r], u.planned.departureTime, u.planned.arrivalTime) else reservations[r]
  }

  function ApplyOneByOne(departures: map<Id, Departure>, updates: seq<Update>, now: int): map<Id, Departure> {
    if |updates| == 0 then departures
    else ApplyAlone(ApplyOneByOne(departures, updates[..|updates| - 1], now), updates[|updates| - 1], now)
  }

  function RetimeOneByOne(reservations: map<Id, Reservation>, updates: seq<Update>): map<Id, Reservation> {
    if |updates| == 0 then reservations
    else RetimeAlone(RetimeOneByOne(reservations, updates[..|updates| - 1]), updates[|updates| - 1])
  }

  /** The update of one departure, if it has one. */
  function UpdateOf(updates: seq<Update>, id: Id): Option<Update> {
    if |updates| == 0 then None
    else if updates[|updates| - 1].stored.id == id then Some(updates[|updates| - 1])
    else UpdateOf(updates[..|updates| - 1], id)
  }

  lemma {:induction false} UpdateOfFinds(updates: seq<Update>, id: Id)
    requires DistinctIds(updates)
    ensures UpdateOf(updates, id).Some? ==> UpdateOf(updates, id).value in updates && UpdateOf(updates, id).value.stored.id == id
    ensures forall u :: u in updates && u.stored.id == id ==> UpdateOf(updates, id) == Some(u)
  {
    if |updates| > 0 {
      UpdateOfFinds(updates[..|updates| - 1], id);
      assert updates == updates[..|updates| - 1] + [updates[|updates| - 1]];
    }
  }

  function UpdatedRows(departures: map<Id, Departure>, updates: seq<Update>, now: int): map<Id, Departure> {
    map id | id in departures ::
      match UpdateOf(updates, id) case None => departures[id] case Some(u) => WrittenRow(departures[id], u, now)
  }

  function RetimedRows(reservations: map<Id, Reservation>, updates: seq<Update>): map<Id, Reservation> {
    map r | r in reservations :: RetimedRow(reservations[r], updates)
  }

  function RetimedRow(r: Reservation, updates: seq<Update>): Reservation {
    if r.departureId.None? then r
    else
      match UpdateOf(updates, r.departureId.value)
      case None => r
      case Some(u) => if Retimed(u) then WithTimes(r, u.planned.departureTime, u.planned.arrivalTime) else r
  }

  /** With one update a departure, writing them in turn writes each row once. */
  lemma {:induction false} OneByOneIsPointwise(departures: map<Id, Departure>, updates: seq<Update>, now: int)
    requires DistinctIds(updates)
    ensures ApplyOneByOne(departures, updates, now) == UpdatedRows(departures, updates, now)
  {
    hide WrittenRow;
    if |updates| == 0 {
      assert UpdatedRows(departures, updates, now) == departures;
    } else {
      var front, u := updates[..|updates| - 1], updates[|updates| - 1];
      OneByOneIsPointwise(departures, front, now);
      LastIsNew(updates);
      assert ApplyOneByOne(departures, updates, now) == ApplyAlone(UpdatedRows(departures, front, now), u, now);
      forall id | id in departures
        ensures ApplyAlone(UpdatedRows(departures, front, now), u, now)[id] == UpdatedRows(departures, updates, now)[id]
      {
      }
    }
  }

  lemma {:induction false} LastIsNew(updates: seq<Update>)
    requires DistinctIds(updates) && |updates| > 0
    ensures DistinctIds(updates[..|updates| - 1])
    ensures UpdateOf(updates[..|updates| - 1], updates[|updates| - 1].stored.id).None?
  {
    var front := updates[..|updates| - 1];
    UpdateOfFinds(front, updates[|updates| - 1].stored.id);
  }

  lemma {:induction false} RetimeIsPointwise(reservations: map<Id, Reservation>, updates: seq<Update>)
    requires DistinctIds(updates)
    ensures RetimeOneByOne(reservations, updates) == RetimedRows(reservations, updates)
  {
    hide WithTimes;
    if |updates| == 0 {
      assert RetimedRows(reservations, updates) == reservations;
    } else {
      var front, u := updates[..|updates| - 1], updates[|updates| - 1];
      RetimeIsPointwise(reservations, front);
      LastIsNew(updates);
      assert RetimeOneByOne(reservations, updates) == RetimeAlone(RetimedRows(reservations, front), u);
      forall r | r in reservations ensures RetimeAlone(RetimedRows(reservations, front), u)[r] == RetimedRow(reservations[r], updates) {
        RetimeStep(reservations[r], front, u);
      }
    }
  }

  lemma {:induction false} RetimeStep(r: Reservation, front: seq<Update>, u: Update)
    requires UpdateOf(front, u.stored.id).None?
    ensures RetimedRow(r, front).departureId == r.departureId
    ensures RetimedRow(r, front + [u])
      == if RetimedRow(r, front).departureId == Some(u.stored.id) && Retimed(u)
         then WithTimes(RetimedRow(r, front), u.planned.departureTime, u.planned.arrivalTime) else RetimedRow(r, front)
  {
    assert (front + [u])[..|front|] == front;
  }

  /** The updates were planned against these rows. */
  ghost predicate Snapshot(departures: map<Id, Departure>, reservations: map<Id, Reservation>, updates: seq<Update>) {
    && DistinctIds(updates)
    && forall u :: u in updates ==>
         && u.stored.id in departures
         && u.stored.row == departures[u.stored.id]
         && u.fields == ChangedFields(u.stored.row, u.planned, u.dropped)
         && (u.stored.referenceCount > 0 <==> Referenced(reservations, u.stored.id))
  }

  // ---- The whole sync ----

  datatype SyncMode = Full | InsertOnly

  function IdsOf(rows: seq<Stored>): set<Id> {
    set q | q in rows :: q.id
  }

  function MarkDropped(departures: map<Id, Departure>, ids: set<Id>, now: int): map<Id, Departure> {
    map id | id in departures :: if id in ids then departures[id].(droppedAt := Some(now)) else departures[id]
  }

  /** What `applyDepartureSync` leaves stored. */
  function ApplySync(s: Store, plan: Plan, newId: PlanKey -> Id, now: int, mode: SyncMode): Store {
    var created := InsertPlanned(s.departures, plan.creates, newId, now);
    if mode == InsertOnly then s.(departures := created)
    else
      s.(departures := MarkDropped(ApplyOneByOne(created, plan.updates, now), IdsOf(plan.drops), now) - IdsOf(plan.deletes),
         reservations := RetimeOneByOne(s.reservations, plan.updates))
  }
}
