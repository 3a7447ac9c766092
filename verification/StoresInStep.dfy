/**
 * The conditions the departure theorems start from can be met together: every store the
 * database allows can be read, and every date a ride runs on has a store that is sound and in
 * step, with a timetable departure, an extra and a passenger on it.
 */
module StoresInStep {
  import opened Basics
  import opened Text
  import opened Calendar
  import opened Timetable
  import opened Tables
  import opened SyncPlan
  import opened SyncRules
  import opened SyncApply
  import opened SyncProofs
  import opened SyncTheorems
  import opened Decisions
  import opened DecisionPairing
  import opened DecisionRuns
  import opened DecisionSafety
  import opened DecisionsNeedNoSync

  // ---- Every store can be read ----

  lemma {:induction false} ListOf(ids: set<Id>) returns (list: seq<Id>)
    ensures Distinct(list) && forall id :: id in list <==> id in ids
    decreases |ids|
  {
    if ids == {} {
      list := [];
    } else {
      var id :| id in ids;
      var rest := ListOf(ids - {id});
      list := rest + [id];
    }
  }

  lemma {:induction false} LoadedBeforeTotal(a: ExceptionRecord, b: ExceptionRecord, c: ExceptionRecord)
    ensures a.id != b.id ==> LoadedBefore(a, b) || LoadedBefore(b, a)
    ensures LoadedBefore(a, b) && LoadedBefore(b, c) ==> LoadedBefore(a, c)
  {
    StrLessTrichotomy(a.id, b.id);
    if StrLess(a.id, b.id) && StrLess(b.id, c.id) {
      StrLessTransitive(a.id, b.id, c.id);
    }
  }

  ghost predicate InLoadOrder(records: seq<ExceptionRecord>) {
    forall i, j :: 0 <= i < j < |records| ==> LoadedBefore(records[i], records[j])
  }

  function InsertRecord(records: seq<ExceptionRecord>, x: ExceptionRecord): seq<ExceptionRecord> {
    if |records| == 0 || LoadedBefore(records[|records| - 1], x) then records + [x]
    else InsertRecord(records[..|records| - 1], x) + [records[|records| - 1]]
  }

  lemma {:induction false} InsertedInOrder(records: seq<ExceptionRecord>, x: ExceptionRecord)
    requires InLoadOrder(records) && forall y :: y in records ==> y.id != x.id
    ensures InLoadOrder(InsertRecord(records, x))
    ensures forall y :: y in InsertRecord(records, x) <==> y in records || y == x
  {
    hide LoadedBefore;
    if |records| > 0 {
      var front, last := records[..|records| - 1], records[|records| - 1];
      assert records == front + [last];
      if LoadedBefore(last, x) {
        forall i | 0 <= i < |records| ensures LoadedBefore(records[i], x) {
          LoadedBeforeTotal(records[i], last, x);
        }
      } else {
        assert last in records;
        LoadedBeforeTotal(last, x, x);
        InsertedInOrder(front, x);
        var r := InsertRecord(front, x);
        forall i | 0 <= i < |r| ensures LoadedBefore(r[i], last) {
          assert r[i] in r;
        }
      }
    }
  }

  lemma {:induction false} RecordsOf(exceptions: map<Id, RideException>, ids: set<Id>) returns (records: seq<ExceptionRecord>)
    requires forall e :: e in ids ==> e in exceptions
    ensures InLoadOrder(records)
    ensures forall x :: x in records <==> x.id in ids && exceptions[x.id] == x.row
    decreases |ids|
  {
    if ids == {} {
      records := [];
    } else {
      var e :| e in ids;
      var rest := RecordsOf(exceptions, ids - {e});
      InsertedInOrder(rest, ExceptionRecord(e, exceptions[e]));
      records := InsertRecord(rest, ExceptionRecord(e, exceptions[e]));
    }
  }

  lemma {:induction false} RidesCanBeRead(s: Store) returns (rides: seq<Ride>)
    requires RidesNamed(s.rides)
    ensures IsRideLoad(rides, s)
  {
    var ids := ListOf(s.rides.Keys);
    assert forall i :: 0 <= i < |ids| ==> ids[i] in ids;
    rides := seq(|ids|, i requires 0 <= i < |ids| => s.rides[ids[i]]);
    forall k | k in s.rides ensures s.rides[k] in rides {
      var i :| 0 <= i < |ids| && ids[i] == k;
      assert rides[i] == s.rides[k];
    }
  }

  lemma {:induction false} DeparturesCanBeRead(s: Store, w: Window) returns (stored: seq<Stored>)
    ensures IsStoredLoad(stored, s, w)
  {
    hide InWindow, Loaded, RidersOf;
    var inside := set d | d in s.departures && Loaded(w, s.departures[d]);
    var ids := ListOf(inside);
    assert forall i :: 0 <= i < |ids| ==> ids[i] in ids;
    stored := seq(|ids|, i requires 0 <= i < |ids| => StoredOf(s, ids[i]));
    forall d | d in s.departures && Loaded(w, s.departures[d]) ensures StoredOf(s, d) in stored {
      assert d in inside;
      var i :| 0 <= i < |ids| && ids[i] == d;
      assert stored[i] == StoredOf(s, d);
    }
  }

  lemma {:induction false} ExceptionsCanBeRead(s: Store, w: Window) returns (records: seq<ExceptionRecord>)
    ensures IsRecordLoad(records, s, w)
  {
    hide InWindow;
    records := RecordsOf(s.exceptions, set e | e in s.exceptions && InWindow(w, s.exceptions[e].exceptionDate));
    forall i, j | 0 <= i < j < |records| ensures records[i].id != records[j].id {
      StrLessTrichotomy(records[i].id, records[j].id);
      assert LoadedBefore(records[i], records[j]);
      assert records[i] in records && records[j] in records;
    }
  }

  /** Every store and window have rows that the sync's queries can return of them. */
  lemma {:induction false} StoreCanBeRead(s: Store, w: Window) returns (q: Query)
    requires RidesNamed(s.rides)
    ensures IsQuery(q, s, w)
  {
    hide IsRideLoad, IsStoredLoad, IsRecordLoad;
    var rides := RidesCanBeRead(s);
    var stored := DeparturesCanBeRead(s, w);
    var records := ExceptionsCanBeRead(s, w);
    q := Query(rides, stored, records);
  }

  // ---- A store in step ----

  /** An ID for each key, no two alike. */
  function NameOf(key: PlanKey): Id {
    match key
    case ScheduleKey(r, d) => "s" + Tally(|r|) + "|" + r + d
    case ExtraKey(e) => "e" + e
  }

  lemma {:induction false} TallyEnds(n: nat, rest: string, k: nat)
    requires k <= n
    ensures (Tally(n) + "|" + rest)[k] == '|' <==> k == n
  {
    var text := Tally(n) + "|" + rest;
    assert k < n ==> text[k] == Tally(n)[k];
  }

  lemma {:induction false} NamesDiffer(a: PlanKey, b: PlanKey)
    ensures NameOf(a) == NameOf(b) ==> a == b
  {
    if NameOf(a) == NameOf(b) {
      assert NameOf(a)[0] == NameOf(b)[0];
      if a.ExtraKey? {
        assert NameOf(a)[1..] == a.id && NameOf(b)[1..] == b.id;
      } else {
        ScheduleNamesDiffer(a.rideId, a.serviceDate, b.rideId, b.serviceDate);
      }
    }
  }

  lemma {:induction false} ScheduleNamesDiffer(r: Id, d: string, r2: Id, d2: string)
    requires NameOf(ScheduleKey(r, d)) == NameOf(ScheduleKey(r2, d2))
    ensures r == r2 && d == d2
  {
    var x, y := Tally(|r|) + "|" + (r + d), Tally(|r2|) + "|" + (r2 + d2);
    assert NameOf(ScheduleKey(r, d)) == "s" + x && NameOf(ScheduleKey(r2, d2)) == "s" + y;
    assert x == ("s" + x)[1..] && y == ("s" + y)[1..];
    var k := if |r| <= |r2| then |r| else |r2|;
    TallyEnds(|r|, r + d, k);
    TallyEnds(|r2|, r2 + d2, k);
    assert x[k + 1..] == r + d && y[k + 1..] == r2 + d2;
    assert (r + d)[..k] == r && (r2 + d2)[..k] == r2;
    assert (r + d)[k..] == d && (r2 + d2)[k..] == d2;
  }

  lemma {:induction false} UnusedId(ids: set<Id>, n: nat) returns (id: Id)
    ensures id !in ids && |id| >= n
    decreases |ids|
  {
    id := Tally(n);
    if id in ids {
      id := UnusedId(ids - {id}, n + 1);
    }
  }

  function OnlyRide(ride: Ride): Store {
    Store(map[ride.id := ride], map[], map[], map[])
  }

  /** The first sync of a tenant with one ride. */
  lemma {:induction false} FirstSync(ride: Ride, w: Window) returns (s: Store)
    requires Walkable(w)
    ensures Sound(s, DatesOf(w)) && InStep(s, w) && TimesCurrent(s)
    ensures s.rides == map[ride.id := ride] && s.exceptions == map[] && s.reservations == map[]
  {
    hide Walkable, InStep, ApplySync, PlanOf;
    var s0 := OnlyRide(ride);
    var q := Query([ride], [], []);
    forall j, k ensures NameOf(j) == NameOf(k) ==> j == k {
      NamesDiffer(j, k);
    }
    hide NameOf;
    var step := SyncStep(s0.rides, w, q, NameOf, 0, Full);
    assert Edited(s0, s0.rides) == s0;
    assert IsQuery(q, s0, w);
    assert Sound(s0, DatesOf(w));
    s := AfterSync(s0, step);
    SyncConverges(s0, w, q, NameOf, 0);
    StepKeepsSound(s0, Sync(step), DatesOf(w));
    StepKeepsTimes(s0, Sync(step));
    SyncKeepsExceptions(s0, PlanOf(q, w), NameOf, 0, Full);
    PlanUpdatesDistinct(q, s0, w);
    NothingToRetime(s0, PlanOf(q, w), NameOf);
  }

  lemma {:induction false} NothingToRetime(s: Store, plan: Plan, newId: PlanKey -> Id)
    requires s.reservations == map[] && DistinctIds(plan.updates)
    ensures ApplySync(s, plan, newId, 0, Full).reservations == map[] && ApplySync(s, plan, newId, 0, Full).rides == s.rides
  {
    RetimeIsPointwise(s.reservations, plan.updates);
  }

  /** The passenger of a bus, with the bus's own ride, date and times. */
  function Rider(row: Departure): Reservation {
    Reservation(row.rideId, row.serviceDate, row.departureTime, row.arrivalTime, 1, Active, 0, None)
  }

  lemma {:induction false} BookingStaysInStep(s: Store, w: Window, step: Step)
    requires InStep(s, w) && step.Book? && Enabled(s, step)
    ensures InStep(After(s, step), w)
  {
    hide Settled, Loaded;
    var t := After(s, step);
    assert t.rides == s.rides && t.departures == s.departures && t.exceptions == s.exceptions;
    assert forall r, d :: HasSchedule(s, r, d) ==> HasSchedule(t, r, d);
    assert forall e :: HasExtra(s, w, e) ==> HasExtra(t, w, e);
    forall d | d in s.departures && Loaded(w, s.departures[d]) ensures Settled(t, d) {
      assert RidersOf(s.reservations, d) <= RidersOf(t.reservations, d);
      MoreRidersSettled(s, t, d);
    }
  }

  /** An extra, added to a store that has none. */
  lemma {:induction false} WithExtra(s: Store, ride: Ride, date: string, w: Window, e: Id) returns (t: Store)
    requires Sound(s, DatesOf(w)) && InStep(s, w) && TimesCurrent(s)
    requires s.rides == map[ride.id := ride] && s.exceptions == map[] && s.reservations == map[]
    requires e !in s.departures && IsDate(date) && InWindow(w, date) && RideRuns(ride)
    ensures Sound(t, DatesOf(w)) && InStep(t, w) && TimesCurrent(t)
    ensures t.rides == s.rides && t.reservations == map[]
    ensures e in t.departures && IsExtraOf(t.departures[e], "x") && t.departures[e].serviceDate == date
    ensures t.departures[e].cancelled.None? && t.departures[e].droppedAt.None?
  {
    hide InStep, Paired, Valid, TimesCurrent, InWindow, IsDate;
    var actor := Actor("o", 0, "x");
    var step := CreateExtra(w, ride.id, date, "11:00", "12:00", None, actor, e);
    assert "11:00"[1] != "12:00"[1];
    t := After(s, step);
    DecisionKeepsStep(s, w, step);
    StepKeepsSound(s, step, DatesOf(w));
    SoundIsValid(s, DatesOf(w));
    StepKeepsTimes(s, step);
    ExtraRowNames(ride, date, "11:00", "12:00", ride.capacity, actor);
  }

  lemma {:induction false} SoundIsValid(s: Store, dates: iset<string>)
    requires Sound(s, dates)
    ensures Valid(s) && RidesNamed(s.rides)
  {
  }

  /** A passenger, booked on a bus that runs. */
  lemma {:induction false} WithPassenger(s: Store, w: Window, d: Id) returns (t: Store)
    requires Sound(s, DatesOf(w)) && InStep(s, w) && TimesCurrent(s) && s.reservations == map[]
    requires d in s.departures && s.departures[d].source == EXTRA && s.departures[d].cancelled.None? && s.departures[d].droppedAt.None?
    ensures Sound(t, DatesOf(w)) && InStep(t, w) && TimesCurrent(t)
    ensures t.rides == s.rides && t.departures == s.departures && Referenced(t.reservations, d)
  {
    hide InStep, Paired, Valid, TimesCurrent, InWindow;
    var step := Book(d, Rider(s.departures[d]), "p");
    t := After(s, step);
    BookingStaysInStep(s, w, step);
    StepKeepsSound(s, step, DatesOf(w));
    SoundIsValid(s, DatesOf(w));
    StepKeepsTimes(s, step);
    assert "p" in RidersOf(t.reservations, d);
  }

  /**
   * On any date a running ride departs there is a store, with its timetable departure, an
   * extra and a passenger on that extra, that is sound, in step, with current times, and of
   * which the sync's reads plan nothing.
   */
  lemma {:induction false} LivedInStoreExists(ride: Ride, date: string) returns (s: Store, q: Query, e: Id)
    requires InEra(date) && !IsLastDay(date) && PlannedOn(ride, date).Some?
    ensures var w := Window(date, date);
      Sound(s, DatesOf(w)) && InStep(s, w) && TimesCurrent(s) && IsQuery(q, s, w) && Walkable(w) && PlanOf(q, w) == NO_CHANGES
    ensures HasSchedule(s, ride.id, date)
    ensures e in s.departures && s.departures[e].source == EXTRA && s.departures[e].serviceDate == date && Referenced(s.reservations, e)
  {
    var w := Window(date, date);
    StrLessTrichotomy(date, date);
    assert InWindow(w, date) && IsDate(date) && RideRuns(ride) && Walkable(w);
    assert TimetableProduces(map[ride.id := ride], w, ride.id, date);
    hide PlannedOn, InEra, IsLastDay, IsDate, InWindow, Walkable, Paired, Valid, TimesCurrent, IsQuery, PlanOf, Referenced, AllSettled,
      AdditionalsStored, TimetableProduces, HasSchedule;
    var bare := FirstSync(ride, w);
    e := UnusedId(bare.departures.Keys, 0);
    var extended := WithExtra(bare, ride, date, w, e);
    s := WithPassenger(extended, w, e);
    SoundIsValid(s, DatesOf(w));
    q := StoreCanBeRead(s, w);
    PlanEmptyIffInStep(q, s, w);
  }
}
