/**
 * What a plan says about the store it was read from, whatever order the rows were read in.
 *
 * `InStep` states, row by row and without any list, that a sync has nothing to do.
 * `PlanEmptyIffInStep` is the connection with the diff.
 */
module SyncRules {
  import opened Basics
  import opened Text
  import opened Calendar
  import opened Timetable
  import opened Tables
  import opened SyncPlan

  // ---- The reads of one planning ----

  datatype Query = Query(rides: seq<Ride>, stored: seq<Stored>, records: seq<ExceptionRecord>)

  /** The sync reads timetable and extra departures inside the window. */
  predicate Loaded(w: Window, row: Departure) {
    row.source != LEGACY && InWindow(w, row.serviceDate)
  }

  function StoredOf(s: Store, id: Id): Stored
    requires id in s.departures
  {
    Stored(id, s.departures[id], |RidersOf(s.reservations, id)|)
  }

  ghost predicate IsRideLoad(rides: seq<Ride>, s: Store) {
    && DistinctRides(rides)
    && (forall r :: r in rides ==> r.id in s.rides && s.rides[r.id] == r)
    && (forall k :: k in s.rides ==> s.rides[k] in rides)
  }

  ghost predicate IsStoredLoad(stored: seq<Stored>, s: Store, w: Window) {
    && (forall i, j :: 0 <= i < j < |stored| ==> stored[i].id != stored[j].id)
    && (forall q :: q in stored ==> q.id in s.departures && Loaded(w, q.row) && q == StoredOf(s, q.id))
    && (forall id :: id in s.departures && Loaded(w, s.departures[id]) ==> StoredOf(s, id) in stored)
  }

  predicate LoadedBefore(a: ExceptionRecord, b: ExceptionRecord) {
    a.row.createdAt < b.row.createdAt || (a.row.createdAt == b.row.createdAt && StrLess(a.id, b.id))
  }

  /** Exceptions of the window, oldest first, then by ID. */
  ghost predicate IsRecordLoad(records: seq<ExceptionRecord>, s: Store, w: Window) {
    && (forall i, j :: 0 <= i < j < |records| ==> records[i].id != records[j].id && LoadedBefore(records[i], records[j]))
    && (forall x :: x in records ==> x.id in s.exceptions && s.exceptions[x.id] == x.row && InWindow(w, x.row.exceptionDate))
    && (forall e :: e in s.exceptions && InWindow(w, s.exceptions[e].exceptionDate) ==> ExceptionRecord(e, s.exceptions[e]) in records)
  }

  ghost predicate IsQuery(q: Query, s: Store, w: Window) {
    IsRideLoad(q.rides, s) && IsStoredLoad(q.stored, s, w) && IsRecordLoad(q.records, s, w)
  }

  /** `planDepartureSync`, after its reads. */
  function PlanOf(q: Query, w: Window): Plan
    requires Walkable(w)
  {
    Diff(PlannedOver(q.rides, w), q.stored, q.rides, q.records)
  }

  // ---- The rules, row by row ----

  /** What a stored row should be: none when the timetable no longer produces it. */
  function Target(rides: map<Id, Ride>, id: Id, row: Departure): Option<(Planned, bool)> {
    if row.rideId !in rides then None
    else if row.source == EXTRA then Some(ExtraTarget(rides[row.rideId], id, row))
    else
      match PlannedOn(rides[row.rideId], row.serviceDate)
      case None => None
      case Some(p) => Some((p, false))
  }

  function UpdateWanted(s: Store, id: Id): Option<Update>
    requires id in s.departures
  {
    match Target(s.rides, id, s.departures[id])
    case None => None
    case Some((p, d)) => DepartureUpdate(StoredOf(s, id), p, d)
  }

  predicate Produced(rides: map<Id, Ride>, id: Id, row: Departure) {
    Target(rides, id, row).Some?
  }

  /** A departure somebody booked or cancelled is never deleted. */
  predicate KeptRow(s: Store, id: Id)
    requires id in s.departures
  {
    Referenced(s.reservations, id) || s.departures[id].cancelled.Some?
  }

  predicate Settled(s: Store, id: Id)
    requires id in s.departures
  {
    if Produced(s.rides, id, s.departures[id]) then UpdateWanted(s, id).None?
    else KeptRow(s, id) && s.departures[id].droppedAt.Some?
  }

  /** A row stays settled when passengers join it. */
  lemma {:induction false} MoreRidersSettled(s: Store, t: Store, d: Id)
    requires t.rides == s.rides && d in s.departures && d in t.departures && t.departures[d] == s.departures[d]
    requires Referenced(s.reservations, d) ==> Referenced(t.reservations, d)
    ensures Settled(s, d) ==> Settled(t, d)
  {
    hide Target, Referenced, ChangedFields;
  }

  predicate IsScheduleOf(row: Departure, rideId: Id, date: string) {
    row.source == SCHEDULE && row.rideId == rideId && row.serviceDate == date
  }

  ghost predicate HasSchedule(s: Store, rideId: Id, date: string) {
    exists id :: id in s.departures && IsScheduleOf(s.departures[id], rideId, date)
  }

  predicate IsExtraOf(row: Departure, exceptionId: Id) {
    row.source == EXTRA && row.rideExceptionId == Some(exceptionId)
  }

  ghost predicate HasExtra(s: Store, w: Window, exceptionId: Id) {
    exists id :: id in s.departures && IsExtraOf(s.departures[id], exceptionId) && InWindow(w, s.departures[id].serviceDate)
  }

  ghost predicate AllSettled(s: Store, w: Window) {
    forall id :: id in s.departures && Loaded(w, s.departures[id]) ==> Settled(s, id)
  }

  predicate TimetableProduces(rides: map<Id, Ride>, w: Window, rideId: Id, date: string) {
    rideId in rides && IsDate(date) && InWindow(w, date) && PlannedOn(rides[rideId], date).Some?
  }

  ghost predicate SchedulesStored(s: Store, w: Window) {
    forall r, d :: TimetableProduces(s.rides, w, r, d) ==> HasSchedule(s, r, d)
  }

  predicate AddsBus(s: Store, w: Window, e: Id) {
    e in s.exceptions && IsBusAdditional(s.exceptions[e]) && InWindow(w, s.exceptions[e].exceptionDate)
    && s.exceptions[e].rideId in s.rides
  }

  ghost predicate AdditionalsStored(s: Store, w: Window) {
    forall e :: AddsBus(s, w, e) ==> HasExtra(s, w, e)
  }

  /** The stored window is what the timetable and the exception rows say. */
  ghost predicate InStep(s: Store, w: Window) {
    AllSettled(s, w) && SchedulesStored(s, w) && AdditionalsStored(s, w)
  }

  // ---- Lookups in the loaded lists ----

  lemma {:induction false} RideLookup(rides: seq<Ride>, s: Store, id: Id)
    requires IsRideLoad(rides, s) && RidesNamed(s.rides)
    ensures RideById(rides, id) == if id in s.rides then Some(s.rides[id]) else None
  {
    RideByIdFinds(rides, id);
    if id in s.rides {
      assert s.rides[id] in rides;
    }
  }

  lemma {:induction false} RideByIdFinds(rides: seq<Ride>, id: Id)
    requires DistinctRides(rides)
    ensures RideById(rides, id).Some? ==> RideById(rides, id).value in rides && RideById(rides, id).value.id == id
    ensures forall r :: r in rides && r.id == id ==> RideById(rides, id) == Some(r)
  {
    if |rides| > 0 {
      RideByIdFinds(rides[..|rides| - 1], id);
      assert rides == rides[..|rides| - 1] + [rides[|rides| - 1]];
    }
  }

  lemma {:induction false} MatchFinds(stored: seq<Stored>, key: PlanKey)
    ensures MatchStored(stored, key).Some? ==>
      var q := MatchStored(stored, key).value; q in stored && q.row.source != EXTRA && KeyOf(q.row) == key
    ensures MatchStored(stored, key).None? ==> forall q :: q in stored && q.row.source != EXTRA ==> KeyOf(q.row) != key
  {
    if |stored| > 0 {
      MatchFinds(stored[1..], key);
      assert stored == [stored[0]] + stored[1..];
    }
  }

  /** A loaded timetable row is the match of its own key. */
  lemma {:induction false} MatchIsRow(stored: seq<Stored>, s: Store, w: Window, q: Stored)
    requires IsStoredLoad(stored, s, w) && UniqueSchedule(s.departures)
    requires q in stored && q.row.source == SCHEDULE
    ensures MatchStored(stored, KeyOf(q.row)) == Some(q)
  {
    MatchFinds(stored, KeyOf(q.row));
    var m := MatchStored(stored, KeyOf(q.row)).value;
    assert m.id == q.id;
  }

  lemma {:induction false} MatchSchedule(stored: seq<Stored>, s: Store, w: Window, r: Id, d: string)
    requires IsStoredLoad(stored, s, w) && UniqueSchedule(s.departures) && InWindow(w, d)
    ensures MatchStored(stored, ScheduleKey(r, d)).Some? <==> HasSchedule(s, r, d)
    ensures MatchStored(stored, ScheduleKey(r, d)).Some? ==>
      var q := MatchStored(stored, ScheduleKey(r, d)).value;
      q.id in s.departures && q == StoredOf(s, q.id) && IsScheduleOf(q.row, r, d)
  {
    MatchFinds(stored, ScheduleKey(r, d));
    if HasSchedule(s, r, d) {
      var id :| id in s.departures && IsScheduleOf(s.departures[id], r, d);
      assert StoredOf(s, id) in stored;
      assert KeyOf(StoredOf(s, id).row) == ScheduleKey(r, d);
    }
  }

  lemma {:induction false} DistinctKeysFirst(planned: seq<Planned>, i: nat)
    requires DistinctKeys(planned) && i < |planned|
    ensures FirstPlanned(planned, i)
  {
  }

  // ---- Updates ----

  ghost predicate UpdatesAreWanted(updates: seq<Update>, s: Store, w: Window) {
    && (forall u :: u in updates ==>
          u.stored.id in s.departures && Loaded(w, s.departures[u.stored.id]) && UpdateWanted(s, u.stored.id) == Some(u))
    && (forall id :: id in s.departures && Loaded(w, s.departures[id]) && UpdateWanted(s, id).Some? ==>
          UpdateWanted(s, id).value in updates)
  }

  lemma {:induction false} ScheduleUpdateIsWanted(q: Query, s: Store, w: Window, i: nat)
    requires IsQuery(q, s, w) && Valid(s) && Walkable(w)
    requires i < |PlannedOver(q.rides, w)|
    ensures var planned := PlannedOver(q.rides, w);
      var p := planned[i];
      && TimetableProduces(s.rides, w, p.rideId, p.serviceDate)
      && PlannedOn(s.rides[p.rideId], p.serviceDate) == Some(p)
      && p.key == ScheduleKey(p.rideId, p.serviceDate)
      && MatchAt(planned, q.stored, i) == MatchStored(q.stored, p.key)
  {
    GeneratedOverWindow(q.rides, w);
    var planned := PlannedOver(q.rides, w);
    var p := planned[i];
    assert p in planned;
    var ride :| ride in q.rides && ride.id == p.rideId && PlannedOn(ride, p.serviceDate) == Some(p);
    DistinctKeysFirst(planned, i);
  }

  lemma {:induction false} PlannedIndex(q: Query, s: Store, w: Window, r: Id, d: string) returns (i: nat)
    requires IsQuery(q, s, w) && Valid(s) && Walkable(w)
    requires TimetableProduces(s.rides, w, r, d)
    ensures i < |PlannedOver(q.rides, w)|
    ensures PlannedOver(q.rides, w)[i] == PlannedOn(s.rides[r], d).value
  {
    GeneratedOverWindow(q.rides, w);
    assert s.rides[r] in q.rides;
    var planned := PlannedOver(q.rides, w);
    i :| 0 <= i < |planned| && planned[i] == PlannedOn(s.rides[r], d).value;
  }

  /** The plan's updates are the wanted updates of the loaded rows, and nothing else. */
  lemma {:induction false} PlanUpdates(q: Query, s: Store, w: Window)
    requires IsQuery(q, s, w) && Valid(s) && Walkable(w)
    ensures UpdatesAreWanted(PlanOf(q, w).updates, s, w)
  {
    hide PlanOf, Loaded, UpdateWanted, IsQuery, Valid, Walkable;
    var updates := PlanOf(q, w).updates;
    forall u | u in updates
      ensures u.stored.id in s.departures && Loaded(w, s.departures[u.stored.id]) && UpdateWanted(s, u.stored.id) == Some(u)
    {
      PlannedUpdateIsWanted(q, s, w, u);
    }
    forall id | id in s.departures && Loaded(w, s.departures[id]) && UpdateWanted(s, id).Some?
      ensures UpdateWanted(s, id).value in updates
    {
      WantedUpdateIsPlanned(q, s, w, id);
    }
  }

  lemma {:induction false} PlannedUpdateIsWanted(q: Query, s: Store, w: Window, u: Update)
    requires IsQuery(q, s, w) && Valid(s) && Walkable(w) && u in PlanOf(q, w).updates
    ensures u.stored.id in s.departures && Loaded(w, s.departures[u.stored.id]) && UpdateWanted(s, u.stored.id) == Some(u)
  {
    hide PlannedOn, InWindow, Walkable, IsDate, PlannedOver, ExtraTarget, ChangedFields, Referenced, RidersOf;
    var planned := PlannedOver(q.rides, w);
    var f, g := ScheduleUpdateAt(planned, q.stored), ExtraUpdateAt(q.stored, q.rides);
    if u in Collect(|planned|, f) {
      var i := CollectSource(|planned|, f, u);
      ScheduleUpdateIsWanted(q, s, w, i);
      MatchSchedule(q.stored, s, w, planned[i].rideId, planned[i].serviceDate);
    } else {
      var i := CollectSource(|q.stored|, g, u);
      ExtraUpdateIsWanted(q, s, w, i);
    }
  }

  lemma {:induction false} WantedUpdateIsPlanned(q: Query, s: Store, w: Window, id: Id)
    requires IsQuery(q, s, w) && Valid(s) && Walkable(w)
    requires id in s.departures && Loaded(w, s.departures[id]) && UpdateWanted(s, id).Some?
    ensures UpdateWanted(s, id).value in PlanOf(q, w).updates
  {
    hide PlannedOn, InWindow, Walkable, IsDate, PlannedOver, ExtraTarget, ChangedFields, Referenced, RidersOf;
    var planned := PlannedOver(q.rides, w);
    var f, g := ScheduleUpdateAt(planned, q.stored), ExtraUpdateAt(q.stored, q.rides);
    CollectMembers(|planned|, f);
    CollectMembers(|q.stored|, g);
    assert StoredOf(s, id) in q.stored;
    if s.departures[id].source == EXTRA {
      var i :| 0 <= i < |q.stored| && q.stored[i] == StoredOf(s, id);
      ExtraUpdateIsWanted(q, s, w, i);
    } else {
      var i := PlannedIndex(q, s, w, s.departures[id].rideId, s.departures[id].serviceDate);
      ScheduleUpdateIsWanted(q, s, w, i);
      MatchIsRow(q.stored, s, w, StoredOf(s, id));
      PlannedNames(s.rides[s.departures[id].rideId], s.departures[id].serviceDate);
      assert f(i) == UpdateWanted(s, id);
    }
  }

  lemma {:induction false} ExtraUpdateIsWanted(q: Query, s: Store, w: Window, i: nat)
    requires IsQuery(q, s, w) && Valid(s) && Walkable(w) && i < |q.stored|
    ensures q.stored[i].id in s.departures && Loaded(w, s.departures[q.stored[i].id])
    ensures q.stored[i].row.source == EXTRA ==> ExtraUpdateAt(q.stored, q.rides)(i) == UpdateWanted(s, q.stored[i].id)
    ensures q.stored[i].row.source != EXTRA ==> ExtraUpdateAt(q.stored, q.rides)(i) == None
  {
    hide PlannedOn, InWindow, Walkable, IsDate, PlannedOver, ExtraTarget, ChangedFields, Referenced, RidersOf;
    assert q.stored[i] in q.stored;
    RideLookup(q.rides, s, q.stored[i].row.rideId);
  }

  ghost predicate DistinctIds(updates: seq<Update>) {
    forall a, b :: 0 <= a < b < |updates| ==> updates[a].stored.id != updates[b].stored.id
  }

  lemma {:induction false} ScheduleUpdateSource(q: Query, s: Store, w: Window, i: nat)
    requires IsQuery(q, s, w) && Valid(s) && Walkable(w)
    requires i < |PlannedOver(q.rides, w)| && ScheduleUpdateAt(PlannedOver(q.rides, w), q.stored)(i).Some?
    ensures var u := ScheduleUpdateAt(PlannedOver(q.rides, w), q.stored)(i).value;
      u.stored.row.source == SCHEDULE && KeyOf(u.stored.row) == PlannedOver(q.rides, w)[i].key
      && u.stored.id in s.departures && s.departures[u.stored.id] == u.stored.row
  {
    hide PlannedOn, InWindow, Walkable, IsDate, PlannedOver, ExtraTarget, ChangedFields, Referenced, RidersOf;
    var planned := PlannedOver(q.rides, w);
    ScheduleUpdateIsWanted(q, s, w, i);
    MatchSchedule(q.stored, s, w, planned[i].rideId, planned[i].serviceDate);
  }

  /** No departure is updated twice. */
  lemma {:induction false} PlanUpdatesDistinct(q: Query, s: Store, w: Window)
    requires IsQuery(q, s, w) && Valid(s) && Walkable(w)
    ensures DistinctIds(PlanOf(q, w).updates)
  {
    hide PlannedOn, InWindow, Walkable, IsDate, PlannedOver, ExtraTarget, ChangedFields, Referenced, RidersOf, Valid, DepartureUpdate;
    var planned := PlannedOver(q.rides, w);
    var f, g := ScheduleUpdateAt(planned, q.stored), ExtraUpdateAt(q.stored, q.rides);
    var first, second := Collect(|planned|, f), Collect(|q.stored|, g);
    forall a, b | 0 <= a < b < |first| ensures first[a].stored.id != first[b].stored.id {
      var i, j := CollectSources(|planned|, f, a, b);
      ScheduleUpdateSource(q, s, w, i);
      ScheduleUpdateSource(q, s, w, j);
      GeneratedOverWindow(q.rides, w);
    }
    forall a, b | 0 <= a < b < |second| ensures second[a].stored.id != second[b].stored.id {
      var i, j := CollectSources(|q.stored|, g, a, b);
      ExtraUpdateSource(q, s, w, i);
      ExtraUpdateSource(q, s, w, j);
    }
    forall a, b | 0 <= a < |first| && 0 <= b < |second| ensures first[a].stored.id != second[b].stored.id {
      var i := CollectSource(|planned|, f, first[a]);
      var j := CollectSource(|q.stored|, g, second[b]);
      ScheduleUpdateSource(q, s, w, i);
      ExtraUpdateSource(q, s, w, j);
    }
    DistinctJoin(first, second);
  }

  lemma {:induction false} ExtraUpdateSource(q: Query, s: Store, w: Window, i: nat)
    requires IsQuery(q, s, w) && Valid(s) && Walkable(w) && i < |q.stored|
    requires ExtraUpdateAt(q.stored, q.rides)(i).Some?
    ensures var u := ExtraUpdateAt(q.stored, q.rides)(i).value;
      u.stored == q.stored[i] && u.stored.row.source == EXTRA
      && u.stored.id in s.departures && s.departures[u.stored.id] == u.stored.row
  {
    hide PlannedOn, InWindow, Walkable, IsDate, PlannedOver, ExtraTarget, ChangedFields, Referenced, RidersOf;
    assert q.stored[i] in q.stored;
  }

  lemma {:induction false} DistinctJoin(first: seq<Update>, second: seq<Update>)
    requires DistinctIds(first) && DistinctIds(second)
    requires forall a, b :: 0 <= a < |first| && 0 <= b < |second| ==> first[a].stored.id != second[b].stored.id
    ensures DistinctIds(first + second)
  {
  }

  // ---- Drops and deletes ----

  predicate IsGone(s: Store, w: Window, id: Id) {
    id in s.departures && Loaded(w, s.departures[id]) && !Produced(s.rides, id, s.departures[id])
  }

  lemma {:induction false} ListedIsGone(q: Query, s: Store, w: Window, x: Stored)
    requires IsQuery(q, s, w) && Valid(s) && Walkable(w) && x in Gone(q.stored, PlannedOver(q.rides, w))
    ensures IsGone(s, w, x.id) && x == StoredOf(s, x.id)
  {
    hide PlannedOn, InWindow, Walkable, IsDate, PlannedOver, ExtraTarget, ChangedFields, Referenced, RidersOf, IsQuery, Valid;
    var f, g := UnmatchedAt(q.stored), LeftoverAt(q.stored, PlannedOver(q.rides, w));
    if x in Collect(|q.stored|, f) {
      var i := CollectSource(|q.stored|, f, x);
      StoredIndex(q, s, w, i);
      assert false;
    } else {
      var i := CollectSource(|q.stored|, g, x);
      StoredIndex(q, s, w, i);
    }
  }

  lemma {:induction false} GoneIsListed(q: Query, s: Store, w: Window, x: Stored)
    requires IsQuery(q, s, w) && Valid(s) && Walkable(w) && IsGone(s, w, x.id) && x == StoredOf(s, x.id)
    ensures x in Gone(q.stored, PlannedOver(q.rides, w))
  {
    hide PlannedOn, InWindow, Walkable, IsDate, PlannedOver, ExtraTarget, ChangedFields, Referenced, RidersOf, ReservationKeys, ExceptionKeys,
      UniqueSchedule, UniqueLegacy, RidesNamed, IsRideLoad, IsRecordLoad, FirstStored, PlannedKey;
    var g := LeftoverAt(q.stored, PlannedOver(q.rides, w));
    assert x in q.stored;
    var i :| 0 <= i < |q.stored| && q.stored[i] == x;
    StoredIndex(q, s, w, i);
    assert g(i) == Some(x);
    CollectMembers(|q.stored|, g);
  }

  lemma {:induction false} GoneRows(q: Query, s: Store, w: Window)
    requires IsQuery(q, s, w) && Valid(s) && Walkable(w)
    ensures forall x :: (
      x in Gone(q.stored, PlannedOver(q.rides, w)) <==> IsGone(s, w, x.id) && x == StoredOf(s, x.id))
  {
    hide Gone, Loaded, Produced, IsQuery, Valid, Walkable, PlannedOver, RidersOf;
    forall x ensures x in Gone(q.stored, PlannedOver(q.rides, w)) <==> IsGone(s, w, x.id) && x == StoredOf(s, x.id) {
      if x in Gone(q.stored, PlannedOver(q.rides, w)) {
        ListedIsGone(q, s, w, x);
      }
      if IsGone(s, w, x.id) && x == StoredOf(s, x.id) {
        GoneIsListed(q, s, w, x);
      }
    }
  }

  lemma {:induction false} StoredIndex(q: Query, s: Store, w: Window, i: nat)
    requires IsQuery(q, s, w) && Valid(s) && Walkable(w) && i < |q.stored|
    ensures q.stored[i].id in s.departures && q.stored[i] == StoredOf(s, q.stored[i].id) && Loaded(w, q.stored[i].row)
    ensures q.stored[i].row.source == SCHEDULE ==> FirstStored(q.stored, i)
    ensures q.stored[i].row.source == SCHEDULE ==>
      (PlannedKey(PlannedOver(q.rides, w), KeyOf(q.stored[i].row))
       <==> Produced(s.rides, q.stored[i].id, q.stored[i].row))
  {
    hide PlannedOn, InWindow, Walkable, IsDate, PlannedOver, ExtraTarget, ChangedFields, Referenced, RidersOf;
    var x := q.stored[i];
    assert x in q.stored;
    if x.row.source == SCHEDULE {
      MatchFinds(q.stored[..i], KeyOf(x.row));
      if MatchStored(q.stored[..i], KeyOf(x.row)).Some? {
        assert false;
      }
      GeneratedOverWindow(q.rides, w);
      var planned := PlannedOver(q.rides, w);
      if PlannedKey(planned, KeyOf(x.row)) {
        var p :| p in planned && p.key == KeyOf(x.row);
        var ride :| ride in q.rides && ride.id == p.rideId && PlannedOn(ride, p.serviceDate) == Some(p);
      }
      if Produced(s.rides, x.id, x.row) {
        PlannedNames(s.rides[x.row.rideId], x.row.serviceDate);
        assert s.rides[x.row.rideId] in q.rides;
        assert PlannedOn(s.rides[x.row.rideId], x.row.serviceDate).value in planned;
      }
    }
  }

  lemma {:induction false} DropMembers(gone: seq<Stored>)
    ensures forall x :: x in Collect(|gone|, DropAt(gone)) <==> x in gone && Kept(x) && x.row.droppedAt.None?
    ensures forall x :: x in Collect(|gone|, DeleteAt(gone)) <==> x in gone && !Kept(x)
  {
    CollectMembers(|gone|, DropAt(gone));
    CollectMembers(|gone|, DeleteAt(gone));
    forall x | x in gone && Kept(x) && x.row.droppedAt.None? ensures x in Collect(|gone|, DropAt(gone)) {
      var i :| 0 <= i < |gone| && gone[i] == x;
      assert DropAt(gone)(i) == Some(x);
    }
    forall x | x in gone && !Kept(x) ensures x in Collect(|gone|, DeleteAt(gone)) {
      var i :| 0 <= i < |gone| && gone[i] == x;
      assert DeleteAt(gone)(i) == Some(x);
    }
  }

  /** Dropped: gone, kept, and not marked yet. Deleted: gone, never cancelled and referenced by nothing. */
  lemma {:induction false} PlanDropsAndDeletes(q: Query, s: Store, w: Window)
    requires IsQuery(q, s, w) && Valid(s) && Walkable(w)
    ensures forall x :: (
      x in PlanOf(q, w).drops
      <==> IsGone(s, w, x.id) && x == StoredOf(s, x.id) && KeptRow(s, x.id) && x.row.droppedAt.None?)
    ensures forall x :: (
      x in PlanOf(q, w).deletes <==> IsGone(s, w, x.id) && x == StoredOf(s, x.id) && !KeptRow(s, x.id))
  {
    hide PlannedOn, InWindow, Walkable, IsDate, PlannedOver, ExtraTarget, ChangedFields, RidersOf, Valid;
    var gone := Gone(q.stored, PlannedOver(q.rides, w));
    GoneRows(q, s, w);
    DropMembers(gone);
    forall x: Stored | IsGone(s, w, x.id) && x == StoredOf(s, x.id) ensures Kept(x) <==> KeptRow(s, x.id) {
      RidersCounted(s, x.id);
    }
  }

  lemma {:induction false} RidersCounted(s: Store, id: Id)
    ensures |RidersOf(s.reservations, id)| > 0 <==> Referenced(s.reservations, id)
  {
  }

  // ---- Creates ----

  /** What a sync creates under a key: a missing timetable departure, or the bus of an ADDITIONAL that has none. */
  ghost function CreateFor(s: Store, w: Window, records: seq<ExceptionRecord>, key: PlanKey): Option<Planned> {
    match key
    case ScheduleKey(r, d) =>
      if TimetableProduces(s.rides, w, r, d) && !HasSchedule(s, r, d)
      then Some(CreateWithSkip(PlannedOn(s.rides[r], d).value, records)) else None
    case ExtraKey(e) =>
      if AddsBus(s, w, e) && !HasExtra(s, w, e)
      then Some(ExtraOf(s.rides[s.exceptions[e].rideId], ExceptionRecord(e, s.exceptions[e]))) else None
  }

  lemma {:induction false} CreateKey(p: Planned, records: seq<ExceptionRecord>)
    ensures CreateWithSkip(p, records).key == p.key
  {
  }

  lemma {:induction false} ScheduleCreateIsMissing(q: Query, s: Store, w: Window, i: nat)
    requires IsQuery(q, s, w) && Valid(s) && Walkable(w) && i < |PlannedOver(q.rides, w)|
    ensures var planned := PlannedOver(q.rides, w);
      ScheduleCreateAt(planned, q.stored, q.records)(i) == CreateFor(s, w, q.records, planned[i].key)
  {
    hide PlannedOn, InWindow, Walkable, IsDate, PlannedOver, ExtraTarget, ChangedFields, RidersOf, CreateWithSkip;
    ScheduleUpdateIsWanted(q, s, w, i);
    var p := PlannedOver(q.rides, w)[i];
    MatchSchedule(q.stored, s, w, p.rideId, p.serviceDate);
  }

  lemma {:induction false} LinkedIsExtra(stored: seq<Stored>, s: Store, w: Window, e: Id)
    requires IsStoredLoad(stored, s, w)
    ensures Linked(stored, e) <==> HasExtra(s, w, e)
  {
    hide InWindow, RidersOf;
    if HasExtra(s, w, e) {
      var id :| id in s.departures && IsExtraOf(s.departures[id], e) && InWindow(w, s.departures[id].serviceDate);
      assert StoredOf(s, id) in stored;
    }
  }

  lemma {:induction false} ExtraCreateIsMissing(q: Query, s: Store, w: Window, i: nat)
    requires IsQuery(q, s, w) && Valid(s) && Walkable(w) && i < |q.records|
    ensures ExtraCreateAt(q.records, q.stored, q.rides)(i) == CreateFor(s, w, q.records, ExtraKey(q.records[i].id))
  {
    hide PlannedOn, InWindow, Walkable, IsDate, PlannedOver, ExtraOf, RidersOf, HasExtra, Linked;
    var x := q.records[i];
    assert x in q.records;
    RideLookup(q.rides, s, x.row.rideId);
    LinkedIsExtra(q.stored, s, w, x.id);
  }

  lemma {:induction false} PlannedCreateIsMissing(q: Query, s: Store, w: Window, c: Planned)
    requires IsQuery(q, s, w) && Valid(s) && Walkable(w) && c in PlanOf(q, w).creates
    ensures CreateFor(s, w, q.records, c.key) == Some(c)
  {
    hide PlannedOn, InWindow, Walkable, IsDate, PlannedOver, RidersOf, Valid, CreateFor;
    var planned := PlannedOver(q.rides, w);
    var f, g := ScheduleCreateAt(planned, q.stored, q.records), ExtraCreateAt(q.records, q.stored, q.rides);
    if c in Collect(|planned|, f) {
      var i := CollectSource(|planned|, f, c);
      ScheduleCreateIsMissing(q, s, w, i);
      CreateKey(planned[i], q.records);
    } else {
      var i := CollectSource(|q.records|, g, c);
      ExtraCreateIsMissing(q, s, w, i);
    }
  }

  lemma {:induction false} MissingIsPlanned(q: Query, s: Store, w: Window, key: PlanKey)
    requires IsQuery(q, s, w) && Valid(s) && Walkable(w) && CreateFor(s, w, q.records, key).Some?
    ensures CreateFor(s, w, q.records, key).value in PlanOf(q, w).creates
    ensures CreateFor(s, w, q.records, key).value.key == key
  {
    hide PlannedOn, InWindow, Walkable, IsDate, PlannedOver, RidersOf, Valid, HasExtra, HasSchedule;
    var planned := PlannedOver(q.rides, w);
    var f, g := ScheduleCreateAt(planned, q.stored, q.records), ExtraCreateAt(q.records, q.stored, q.rides);
    CollectMembers(|planned|, f);
    CollectMembers(|q.records|, g);
    match key
    case ScheduleKey(r, d) =>
      var i := PlannedIndex(q, s, w, r, d);
      ScheduleCreateIsMissing(q, s, w, i);
      ScheduleUpdateIsWanted(q, s, w, i);
      PlannedNames(s.rides[r], d);
      NamedByRide(s, r);
      assert f(i) == CreateFor(s, w, q.records, key);
    case ExtraKey(e) =>
      assert ExceptionRecord(e, s.exceptions[e]) in q.records;
      var i :| 0 <= i < |q.records| && q.records[i] == ExceptionRecord(e, s.exceptions[e]);
      ExtraCreateIsMissing(q, s, w, i);
      assert g(i) == CreateFor(s, w, q.records, key);
  }

  lemma {:induction false} NamedByRide(s: Store, r: Id)
    requires Valid(s) && r in s.rides
    ensures s.rides[r].id == r
  {
  }

  lemma {:induction false} ScheduleCreatesDistinct(planned: seq<Planned>, stored: seq<Stored>, records: seq<ExceptionRecord>)
    requires DistinctKeys(planned)
    ensures DistinctKeys(Collect(|planned|, ScheduleCreateAt(planned, stored, records)))
    ensures forall c :: c in Collect(|planned|, ScheduleCreateAt(planned, stored, records)) ==> PlannedKey(planned, c.key)
  {
    var f := ScheduleCreateAt(planned, stored, records);
    var creates := Collect(|planned|, f);
    forall a, b | 0 <= a < b < |creates| ensures creates[a].key != creates[b].key {
      var i, j := CollectSources(|planned|, f, a, b);
    }
    forall c | c in creates ensures PlannedKey(planned, c.key) {
      var i := CollectSource(|planned|, f, c);
      assert planned[i] in planned;
    }
  }

  lemma {:induction false} ExtraCreatesDistinct(records: seq<ExceptionRecord>, stored: seq<Stored>, rides: seq<Ride>)
    requires forall i, j :: 0 <= i < j < |records| ==> records[i].id != records[j].id
    ensures DistinctKeys(Collect(|records|, ExtraCreateAt(records, stored, rides)))
    ensures forall c :: c in Collect(|records|, ExtraCreateAt(records, stored, rides)) ==> c.key.ExtraKey?
  {
    hide Linked;
    var f := ExtraCreateAt(records, stored, rides);
    var creates := Collect(|records|, f);
    forall a, b | 0 <= a < b < |creates| ensures creates[a].key != creates[b].key {
      var i, j := CollectSources(|records|, f, a, b);
    }
    forall c | c in creates ensures c.key.ExtraKey? {
      var i := CollectSource(|records|, f, c);
    }
  }

  /** No key is created twice. */
  lemma {:induction false} PlanCreatesDistinct(q: Query, s: Store, w: Window)
    requires IsQuery(q, s, w) && Valid(s) && Walkable(w)
    ensures DistinctKeys(PlanOf(q, w).creates)
  {
    hide PlannedOn, InWindow, Walkable, IsDate, PlannedOver, RidersOf, Valid, IsStoredLoad, ScheduleCreateAt, ExtraCreateAt;
    var planned := PlannedOver(q.rides, w);
    GeneratedOverWindow(q.rides, w);
    ScheduleCreatesDistinct(planned, q.stored, q.records);
    ExtraCreatesDistinct(q.records, q.stored, q.rides);
    var first := Collect(|planned|, ScheduleCreateAt(planned, q.stored, q.records));
    var second := Collect(|q.records|, ExtraCreateAt(q.records, q.stored, q.rides));
    forall a, b | 0 <= a < |first| && 0 <= b < |second| ensures first[a].key != second[b].key {
      assert first[a] in first && second[b] in second;
    }
    KeysJoin(first, second);
  }

  lemma {:induction false} KeysJoin(first: seq<Planned>, second: seq<Planned>)
    requires DistinctKeys(first) && DistinctKeys(second)
    requires forall a, b :: 0 <= a < |first| && 0 <= b < |second| ==> first[a].key != second[b].key
    ensures DistinctKeys(first + second)
  {
  }

  // ---- Nothing to do ----

  ghost predicate NothingMissing(s: Store, w: Window) {
    SchedulesStored(s, w) && AdditionalsStored(s, w)
  }

  lemma {:induction false} NothingMissingIffNoCreates(q: Query, s: Store, w: Window)
    requires IsQuery(q, s, w) && Valid(s) && Walkable(w)
    ensures PlanOf(q, w).creates == [] <==> NothingMissing(s, w)
  {
    hide PlannedOn, InWindow, Walkable, IsDate, PlanOf, RidersOf, Valid, HasExtra, HasSchedule, IsQuery, IsBusAdditional, CreateWithSkip, ExtraOf;
    if PlanOf(q, w).creates == [] {
      forall r, d | TimetableProduces(s.rides, w, r, d) ensures HasSchedule(s, r, d) {
        if !HasSchedule(s, r, d) {
          MissingIsPlanned(q, s, w, ScheduleKey(r, d));
        }
      }
      forall e | AddsBus(s, w, e) ensures HasExtra(s, w, e) {
        if !HasExtra(s, w, e) {
          MissingIsPlanned(q, s, w, ExtraKey(e));
        }
      }
    } else if NothingMissing(s, w) {
      var c := PlanOf(q, w).creates[0];
      PlannedCreateIsMissing(q, s, w, c);
    }
  }

  lemma {:induction false} AllSettledIffNoChanges(q: Query, s: Store, w: Window)
    requires IsQuery(q, s, w) && Valid(s) && Walkable(w)
    ensures PlanOf(q, w).updates == [] && PlanOf(q, w).drops == [] && PlanOf(q, w).deletes == [] <==> AllSettled(s, w)
  {
    hide PlannedOn, InWindow, Walkable, IsDate, PlanOf, RidersOf, Valid, IsQuery, DepartureUpdate, Target, Referenced;
    var plan := PlanOf(q, w);
    PlanUpdates(q, s, w);
    PlanDropsAndDeletes(q, s, w);
    if plan.updates == [] && plan.drops == [] && plan.deletes == [] {
      forall id | id in s.departures && Loaded(w, s.departures[id]) ensures Settled(s, id) {
        assert StoredOf(s, id) !in plan.drops && StoredOf(s, id) !in plan.deletes;
        assert StoredOf(s, id).id == id;
      }
    }
    if AllSettled(s, w) {
      forall u | u in plan.updates ensures false {
        UpdateMeansProduced(s, u.stored.id);
      }
      NoMembers(plan.updates);
      NoMembers(plan.drops);
      NoMembers(plan.deletes);
    }
  }

  lemma {:induction false} NoMembers<T>(xs: seq<T>)
    requires forall x :: x !in xs
    ensures xs == []
  {
    if xs != [] {
      FirstIsMember(xs);
    }
  }

  lemma {:induction false} FirstIsMember<T>(xs: seq<T>)
    requires xs != []
    ensures xs[0] in xs
  {
  }

  lemma {:induction false} UpdateMeansProduced(s: Store, id: Id)
    requires id in s.departures && UpdateWanted(s, id).Some?
    ensures Produced(s.rides, id, s.departures[id])
  {
  }

  /** The plan is empty exactly when the stored window is in step. */
  lemma {:induction false} PlanEmptyIffInStep(q: Query, s: Store, w: Window)
    requires IsQuery(q, s, w) && Valid(s) && Walkable(w)
    ensures PlanOf(q, w) == NO_CHANGES <==> InStep(s, w)
  {
    hide PlanOf, IsQuery, Valid, Walkable, AllSettled, SchedulesStored, AdditionalsStored;
    NothingMissingIffNoCreates(q, s, w);
    AllSettledIffNoChanges(q, s, w);
  }
}
