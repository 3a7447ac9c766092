/**
 * The grouped statements of `updateDepartures` and `rewriteReservationTimes`, as functions
 * on the rows, and why they amount to writing each update alone.
 */
module Batching {
  import opened Basics
  import opened Timetable
  import opened Tables
  import opened SyncPlan
  import opened SyncRules
  import opened SyncApply

  /** The columns one `updateMany` sets: departures that end up with the same values share it. */
  datatype RowData = RowData(lineId: Id, departureTime: string, arrivalTime: string, capacity: int, droppedAt: Option<int>)

  predicate StopsOnly(u: Update) {
    u.fields <= {StopsField}
  }

  function DataOf(u: Update, now: int): RowData {
    RowData(u.planned.lineId, u.planned.departureTime, u.planned.arrivalTime, u.planned.capacity,
            if u.dropped then Some(OrElse(u.stored.row.droppedAt, now)) else None)
  }

  function WithData(row: Departure, data: RowData): Departure {
    row.(lineId := data.lineId, departureTime := data.departureTime, arrivalTime := data.arrivalTime,
         capacity := data.capacity, droppedAt := data.droppedAt)
  }

  function UpdateMany(departures: map<Id, Departure>, ids: seq<Id>, data: RowData): map<Id, Departure> {
    map id | id in departures :: if id in ids then WithData(departures[id], data) else departures[id]
  }

  /** The rows whose group is among those already written. */
  function WrittenUpTo(departures: map<Id, Departure>, updates: seq<Update>, now: int, done: set<RowData>): map<Id, Departure> {
    map id | id in departures ::
      match UpdateOf(updates, id)
      case None => departures[id]
      case Some(u) =>
        if !StopsOnly(u) && DataOf(u, now) in done then WithData(departures[id], DataOf(u, now)) else departures[id]
  }

  predicate InGroup(updates: seq<Update>, now: int, data: RowData, id: Id) {
    exists u :: u in updates && !StopsOnly(u) && DataOf(u, now) == data && u.stored.id == id
  }

  ghost predicate GroupsOf(groups: map<RowData, seq<Id>>, updates: seq<Update>, now: int) {
    forall data, id :: (data in groups && id in groups[data]) <==> InGroup(updates, now, data, id)
  }

  /** The rows that share an `updateMany`, in the order they were planned. */
  method GroupRows(updates: seq<Update>, now: int) returns (groups: map<RowData, seq<Id>>)
    ensures GroupsOf(groups, updates, now)
  {
    groups := map[];
    var i := 0;
    while i < |updates|
      invariant 0 <= i <= |updates|
      invariant GroupsOf(groups, updates[..i], now)
    {
      var u := updates[i];
      ghost var before := groups;
      assert updates[..i + 1] == updates[..i] + [u];
      if !StopsOnly(u) {
        var data := DataOf(u, now);
        groups := groups[data := (if data in groups then groups[data] else []) + [u.stored.id]];
        GroupStep(before, groups, updates[..i], u, now);
      } else {
        forall data, id ensures InGroup(updates[..i] + [u], now, data, id) <==> InGroup(updates[..i], now, data, id) {
          InGroupStep(updates[..i], u, now, data, id);
        }
      }
      i := i + 1;
    }
    assert updates[..|updates|] == updates;
  }

  lemma {:induction false} InGroupStep(front: seq<Update>, u: Update, now: int, data: RowData, id: Id)
    ensures InGroup(front + [u], now, data, id)
      <==> InGroup(front, now, data, id) || (!StopsOnly(u) && DataOf(u, now) == data && u.stored.id == id)
  {
    hide DataOf, StopsOnly;
    assert forall v :: v in front + [u] <==> v in front || v == u;
  }

  lemma {:induction false} GroupStep(before: map<RowData, seq<Id>>, after: map<RowData, seq<Id>>, front: seq<Update>, u: Update, now: int)
    requires GroupsOf(before, front, now) && !StopsOnly(u)
    requires after == before[DataOf(u, now) := (if DataOf(u, now) in before then before[DataOf(u, now)] else []) + [u.stored.id]]
    ensures GroupsOf(after, front + [u], now)
  {
    hide DataOf, StopsOnly, InGroup;
    forall data, id ensures (data in after && id in after[data]) <==> InGroup(front + [u], now, data, id) {
      InGroupStep(front, u, now, data, id);
    }
  }

  lemma {:induction false} UpdateManyStep(departures: map<Id, Departure>, updates: seq<Update>, now: int, groups: map<RowData, seq<Id>>,
                                          done: set<RowData>, data: RowData)
    requires DistinctIds(updates) && GroupsOf(groups, updates, now) && data in groups && data !in done
    ensures UpdateMany(WrittenUpTo(departures, updates, now, done), groups[data], data)
      == WrittenUpTo(departures, updates, now, done + {data})
  {
    hide DataOf, StopsOnly, WithData, InGroup;
    var left := UpdateMany(WrittenUpTo(departures, updates, now, done), groups[data], data);
    var right := WrittenUpTo(departures, updates, now, done + {data});
    forall id | id in departures ensures left[id] == right[id] {
      UpdateOfFinds(updates, id);
      GroupMember(updates, now, data, id);
      assert id in groups[data] <==> InGroup(updates, now, data, id);
    }
  }

  lemma {:induction false} GroupMember(updates: seq<Update>, now: int, data: RowData, id: Id)
    requires DistinctIds(updates)
    ensures InGroup(updates, now, data, id)
      <==> UpdateOf(updates, id).Some? && !StopsOnly(UpdateOf(updates, id).value) && DataOf(UpdateOf(updates, id).value, now) == data
  {
    hide DataOf, StopsOnly;
    UpdateOfFinds(updates, id);
  }

  /** Every row that changes in more than its stops is in some group. */
  lemma {:induction false} AllGroupsWritten(departures: map<Id, Departure>, updates: seq<Update>, now: int, groups: map<RowData, seq<Id>>)
    requires DistinctIds(updates) && GroupsOf(groups, updates, now)
    ensures WrittenUpTo(departures, updates, now, groups.Keys) == ColumnsWritten(departures, updates, now)
  {
    hide DataOf, StopsOnly, WithData, InGroup;
    forall id | id in departures
      ensures WrittenUpTo(departures, updates, now, groups.Keys)[id] == ColumnsWritten(departures, updates, now)[id]
    {
      UpdateOfFinds(updates, id);
      if UpdateOf(updates, id).Some? {
        var u := UpdateOf(updates, id).value;
        GroupMember(updates, now, DataOf(u, now), id);
        assert (DataOf(u, now) in groups && id in groups[DataOf(u, now)]) <==> InGroup(updates, now, DataOf(u, now), id);
      }
    }
  }

  function ColumnsWritten(departures: map<Id, Departure>, updates: seq<Update>, now: int): map<Id, Departure> {
    map id | id in departures ::
      match UpdateOf(updates, id)
      case None => departures[id]
      case Some(u) => if StopsOnly(u) then departures[id] else WithData(departures[id], DataOf(u, now))
  }

  // ---- Stops ----

  function Restopped(departures: map<Id, Departure>, updates: seq<Update>): map<Id, Departure> {
    map id | id in departures ::
      match UpdateOf(updates, id)
      case None => departures[id]
      case Some(u) => if StopsField in u.fields then departures[id].(stops := u.planned.stops) else departures[id]
  }

  /** All changed stop rows deleted, and those of the first `i` updates inserted again. */
  function StopsUpTo(departures: map<Id, Departure>, updates: seq<Update>, i: nat): map<Id, Departure>
    requires i <= |updates|
  {
    map id | id in departures ::
      match UpdateOf(updates, id)
      case None => departures[id]
      case Some(u) =>
        if StopsField !in u.fields then departures[id]
        else departures[id].(stops := if UpdateOf(updates[..i], id).Some? then u.planned.stops else [])
  }

  lemma {:induction false} StopsCleared(departures: map<Id, Departure>, updates: seq<Update>, ids: set<Id>)
    requires DistinctIds(updates) && ids == set u | u in updates && StopsField in u.fields :: u.stored.id
    ensures StopsUpTo(departures, updates, 0)
      == map id | id in departures :: if id in ids then departures[id].(stops := []) else departures[id]
  {
    forall id | id in departures ensures id in ids <==> UpdateOf(updates, id).Some? && StopsField in UpdateOf(updates, id).value.fields {
      UpdateOfFinds(updates, id);
    }
  }

  lemma {:induction false} UpdateOfPrefix(updates: seq<Update>, i: nat, id: Id)
    requires DistinctIds(updates) && i < |updates|
    ensures UpdateOf(updates[..i + 1], id) == if updates[i].stored.id == id then Some(updates[i]) else UpdateOf(updates[..i], id)
    ensures updates[i].stored.id == id ==> UpdateOf(updates[..i], id).None? && UpdateOf(updates, id) == Some(updates[i])
  {
    UpdateOfFinds(updates[..i], id);
    UpdateOfFinds(updates, id);
    assert updates[..i + 1][..i] == updates[..i];
  }

  lemma {:induction false} StopsStep(departures: map<Id, Departure>, updates: seq<Update>, i: nat)
    requires DistinctIds(updates) && i < |updates|
    ensures var u, before := updates[i], StopsUpTo(departures, updates, i);
      StopsUpTo(departures, updates, i + 1)
        == if StopsField in u.fields && u.stored.id in departures
           then before[u.stored.id := before[u.stored.id].(stops := before[u.stored.id].stops + u.planned.stops)] else before
  {
    var u := updates[i];
    var before, after := StopsUpTo(departures, updates, i), StopsUpTo(departures, updates, i + 1);
    assert [] + u.planned.stops == u.planned.stops;
    forall id | id in departures
      ensures after[id] == if StopsField in u.fields && id == u.stored.id
        then before[id].(stops := before[id].stops + u.planned.stops) else before[id]
    {
      UpdateOfPrefix(updates, i, id);
    }
  }

  lemma {:induction false} StopsReplaced(departures: map<Id, Departure>, updates: seq<Update>)
    ensures StopsUpTo(departures, updates, |updates|) == Restopped(departures, updates)
  {
    assert updates[..|updates|] == updates;
  }

  /** Columns by group, then stops: each row ends as if written alone. */
  lemma {:induction false} ColumnsThenStops(departures: map<Id, Departure>, reservations: map<Id, Reservation>, updates: seq<Update>, now: int)
    requires Snapshot(departures, reservations, updates)
    ensures Restopped(ColumnsWritten(departures, updates, now), updates) == UpdatedRows(departures, updates, now)
  {
    hide ChangedFields, WrittenRow, WithData, DataOf, StopsOnly, Referenced;
    var left, right := Restopped(ColumnsWritten(departures, updates, now), updates), UpdatedRows(departures, updates, now);
    forall id | id in departures ensures left[id] == right[id] {
      UpdateOfFinds(updates, id);
      if UpdateOf(updates, id).Some? {
        RowWrittenAlone(departures[id], UpdateOf(updates, id).value, now);
      }
    }
  }

  /** A row whose only change is its stops keeps its columns: they are the planned ones already. */
  lemma {:induction false} RowWrittenAlone(row: Departure, u: Update, now: int)
    requires u.stored.row == row && u.fields == ChangedFields(row, u.planned, u.dropped)
    ensures WrittenRow(row, u, now) ==
      var columns := if StopsOnly(u) then row else WithData(row, DataOf(u, now));
      if StopsField in u.fields then columns.(stops := u.planned.stops) else columns
  {
    hide SameStops;
  }

  // ---- Reservation times ----

  predicate MovesRiders(u: Update) {
    Retimed(u) && u.stored.referenceCount > 0
  }

  predicate InTimeGroup(updates: seq<Update>, times: (string, string), id: Id) {
    exists u :: u in updates && MovesRiders(u) && (u.planned.departureTime, u.planned.arrivalTime) == times && u.stored.id == id
  }

  ghost predicate TimeGroupsOf(groups: map<(string, string), seq<Id>>, updates: seq<Update>) {
    forall times, id :: (times in groups && id in groups[times]) <==> InTimeGroup(updates, times, id)
  }

  lemma {:induction false} InTimeGroupStep(front: seq<Update>, u: Update, times: (string, string), id: Id)
    ensures InTimeGroup(front + [u], times, id)
      <==> InTimeGroup(front, times, id)
           || (MovesRiders(u) && (u.planned.departureTime, u.planned.arrivalTime) == times && u.stored.id == id)
  {
    hide MovesRiders;
    assert forall v :: v in front + [u] <==> v in front || v == u;
  }

  method GroupTimes(updates: seq<Update>) returns (groups: map<(string, string), seq<Id>>)
    ensures TimeGroupsOf(groups, updates)
  {
    groups := map[];
    var i := 0;
    while i < |updates|
      invariant 0 <= i <= |updates|
      invariant TimeGroupsOf(groups, updates[..i])
    {
      var u := updates[i];
      ghost var before := groups;
      assert updates[..i + 1] == updates[..i] + [u];
      if MovesRiders(u) {
        var times := (u.planned.departureTime, u.planned.arrivalTime);
        groups := groups[times := (if times in groups then groups[times] else []) + [u.stored.id]];
      }
      TimeGroupStep(before, groups, updates[..i], u);
      i := i + 1;
    }
    assert updates[..|updates|] == updates;
  }

  lemma {:induction false} TimeGroupStep(before: map<(string, string), seq<Id>>, after: map<(string, string), seq<Id>>, front: seq<Update>, u: Update)
    requires TimeGroupsOf(before, front)
    requires var times := (u.planned.departureTime, u.planned.arrivalTime);
      after == if MovesRiders(u) then before[times := (if times in before then before[times] else []) + [u.stored.id]] else before
    ensures TimeGroupsOf(after, front + [u])
  {
    hide MovesRiders, InTimeGroup;
    forall times, id ensures (times in after && id in after[times]) <==> InTimeGroup(front + [u], times, id) {
      InTimeGroupStep(front, u, times, id);
      assert (times in before && id in before[times]) <==> InTimeGroup(front, times, id);
    }
  }

  function RetimeMany(reservations: map<Id, Reservation>, ids: seq<Id>, times: (string, string)): map<Id, Reservation> {
    map r | r in reservations ::
      if reservations[r].departureId.Some? && reservations[r].departureId.value in ids
      then WithTimes(reservations[r], times.0, times.1) else reservations[r]
  }

  function RetimedUpTo(reservations: map<Id, Reservation>, updates: seq<Update>, done: set<(string, string)>): map<Id, Reservation> {
    map r | r in reservations :: RetimedIn(reservations[r], updates, done)
  }

  function RetimedIn(r: Reservation, updates: seq<Update>, done: set<(string, string)>): Reservation {
    if r.departureId.None? then r
    else
      match UpdateOf(updates, r.departureId.value)
      case None => r
      case Some(u) =>
        if MovesRiders(u) && (u.planned.departureTime, u.planned.arrivalTime) in done
        then WithTimes(r, u.planned.departureTime, u.planned.arrivalTime) else r
  }

  lemma {:induction false} TimeGroupMember(updates: seq<Update>, times: (string, string), id: Id)
    requires DistinctIds(updates)
    ensures InTimeGroup(updates, times, id)
      <==> UpdateOf(updates, id).Some? && MovesRiders(UpdateOf(updates, id).value)
           && (UpdateOf(updates, id).value.planned.departureTime, UpdateOf(updates, id).value.planned.arrivalTime) == times
  {
    hide MovesRiders;
    UpdateOfFinds(updates, id);
  }

  lemma {:induction false} RetimeManyStep(reservations: map<Id, Reservation>, updates: seq<Update>, groups: map<(string, string), seq<Id>>,
                                          done: set<(string, string)>, times: (string, string))
    requires DistinctIds(updates) && TimeGroupsOf(groups, updates) && times in groups && times !in done
    ensures RetimeMany(RetimedUpTo(reservations, updates, done), groups[times], times)
      == RetimedUpTo(reservations, updates, done + {times})
  {
    hide MovesRiders, InTimeGroup;
    var left := RetimeMany(RetimedUpTo(reservations, updates, done), groups[times], times);
    forall r | r in reservations ensures left[r] == RetimedIn(reservations[r], updates, done + {times}) {
      if reservations[r].departureId.Some? {
        var id := reservations[r].departureId.value;
        TimeGroupMember(updates, times, id);
        assert id in groups[times] <==> InTimeGroup(updates, times, id);
      }
    }
  }

  /** Skipping unreferenced buses loses nothing: they have no reservations to retime. */
  lemma {:induction false} AllTimesWritten(departures: map<Id, Departure>, reservations: map<Id, Reservation>, updates: seq<Update>,
                                           groups: map<(string, string), seq<Id>>)
    requires Snapshot(departures, reservations, updates) && TimeGroupsOf(groups, updates)
    ensures RetimedUpTo(reservations, updates, groups.Keys) == RetimedRows(reservations, updates)
  {
    hide InTimeGroup, Retimed, ChangedFields;
    forall r | r in reservations ensures RetimedIn(reservations[r], updates, groups.Keys) == RetimedRow(reservations[r], updates) {
      if reservations[r].departureId.Some? {
        var id := reservations[r].departureId.value;
        UpdateOfFinds(updates, id);
        assert r in RidersOf(reservations, id);
        if UpdateOf(updates, id).Some? {
          var u := UpdateOf(updates, id).value;
          var times := (u.planned.departureTime, u.planned.arrivalTime);
          TimeGroupMember(updates, times, id);
          assert (times in groups && id in groups[times]) <==> InTimeGroup(updates, times, id);
        }
      }
    }
  }
}
