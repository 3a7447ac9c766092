/**
 * The seats a backfill reports on LEGACY departures, old and new: exactly those that two
 * active reservations hold once the backfill is applied.
 */
module BackfillSeats {
  import opened Basics
  import opened Calendar
  import opened Timetable
  import opened Tables
  import opened SyncPlan
  import opened LinkRule
  import opened LegacyRows
  import opened Backfill
  import opened BackfillApply
  import opened BackfillTotal
  import opened BackfillTheorems
  import opened BackfillLinks

  predicate HoldsSeat(reservations: map<Id, Reservation>, d: Id, seat: int, r: Id) {
    r in reservations && reservations[r].departureId == Some(d) && reservations[r].status == Active && reservations[r].seatNumber == seat
  }

  function HoldersOf(reservations: map<Id, Reservation>, d: Id, seat: int): set<Id> {
    set r | r in reservations && HoldsSeat(reservations, d, seat, r)
  }

  /** Two passengers have the seat of this departure. */
  ghost predicate SoldTwice(reservations: map<Id, Reservation>, d: Id, seat: int) {
    exists a, c :: a != c && HoldsSeat(reservations, d, seat, a) && HoldsSeat(reservations, d, seat, c)
  }

  lemma {:induction false} TwoHolders(reservations: map<Id, Reservation>, d: Id, seat: int)
    ensures SoldTwice(reservations, d, seat) <==> |HoldersOf(reservations, d, seat)| >= 2
  {
    var holders := HoldersOf(reservations, d, seat);
    if |holders| >= 2 {
      var a :| a in holders;
      assert |holders - {a}| >= 1;
      var c :| c in holders - {a};
    }
    if a, c :| a != c && HoldsSeat(reservations, d, seat, a) && HoldsSeat(reservations, d, seat, c) {
      assert {a, c} <= holders && |{a, c}| == 2;
      assert |holders| == |holders - {a, c}| + |{a, c}|;
    }
  }

  // ---- The seats loaded ----

  function LoadedOn(rows: seq<Id>, s: Store, d: Id, seat: int): set<Id> {
    set r | r in rows && r in s.reservations && s.reservations[r].departureId == Some(d) && s.reservations[r].seatNumber == seat
  }

  lemma {:induction false} OneMoreLoaded(front: seq<Id>, last: Id, s: Store, d: Id, seat: int)
    requires last in s.reservations && last !in front
    ensures last !in LoadedOn(front, s, d, seat)
    ensures LoadedOn(front + [last], s, d, seat) ==
      LoadedOn(front, s, d, seat) + if s.reservations[last].departureId == Some(d) && s.reservations[last].seatNumber == seat then {last} else {}
  {
    assert forall r :: r in front + [last] <==> r in front || r == last;
  }

  lemma {:induction false} LoadedCount(rows: seq<Id>, seats: seq<(Id, int)>, s: Store, d: Id, seat: int)
    requires AreSeatsOf(seats, rows, s)
    ensures multiset(SeatsOn(seats, d))[seat] == |LoadedOn(rows, s, d, seat)|
  {
    if |rows| == 0 {
      assert LoadedOn(rows, s, d, seat) == {};
    } else {
      var front, last := rows[..|rows| - 1], rows[|rows| - 1];
      assert rows == front + [last];
      LoadedCount(front, seats[..|seats| - 1], s, d, seat);
      OneMoreLoaded(front, last, s, d, seat);
      hide LoadedOn;
    }
  }

  // ---- The seats of a group ----

  function GroupHolders(group: seq<Unlinked>, seat: int): set<Id> {
    set u | u in group && u.row.status == Active && u.row.seatNumber == seat :: u.id
  }

  lemma {:induction false} OneMoreHolder(front: seq<Unlinked>, last: Unlinked, seat: int)
    requires forall u :: u in front ==> u.id != last.id
    ensures last.id !in GroupHolders(front, seat)
    ensures GroupHolders(front + [last], seat) ==
      GroupHolders(front, seat) + if last.row.status == Active && last.row.seatNumber == seat then {last.id} else {}
  {
    forall u | u in front + [last] ensures u in front || u == last {
    }
    forall r | r in GroupHolders(front, seat) ensures r in GroupHolders(front + [last], seat) {
      var u :| u in front && u.row.status == Active && u.row.seatNumber == seat && u.id == r;
      assert u in front + [last];
    }
    assert last in front + [last];
  }

  lemma {:induction false} GroupCount(group: seq<Unlinked>, seat: int)
    requires DistinctUnlinked(group)
    ensures multiset(ActiveSeats(group))[seat] == |GroupHolders(group, seat)|
  {
    hide GroupHolders;
    if |group| == 0 {
      NoHolders(seat);
    } else {
      var front, last := group[..|group| - 1], group[|group| - 1];
      assert group == front + [last];
      GroupCount(front, seat);
      OneMoreHolder(front, last, seat);
    }
  }

  lemma {:induction false} NoHolders(seat: int)
    ensures GroupHolders([], seat) == {}
  {
  }

  lemma {:induction false} GroupMembersExactly(rows: seq<Unlinked>, key: LinkKey)
    ensures forall u :: u in GroupOf(rows, key) <==> u in rows && ReservationKey(u.row) == key
    ensures DistinctUnlinked(rows) ==> DistinctUnlinked(GroupOf(rows, key))
  {
    hide ReservationKey;
    if |rows| > 0 {
      var front, last := rows[..|rows| - 1], rows[|rows| - 1];
      assert rows == front + [last];
      GroupMembersExactly(front, key);
      if DistinctUnlinked(rows) {
        assert DistinctUnlinked(front);
        assert forall i :: 0 <= i < |front| ==> front[i].id != last.id;
      }
    }
  }

  lemma {:induction false} LeftoversExactly(b: Input)
    ensures var rows := Leftovers(b, Chosen(b)); forall u :: u in rows <==> u in b.rows && OutcomeOf(b, Chosen(b), u).OnLegacy?
    ensures DistinctUnlinked(b.rows) ==> DistinctUnlinked(Leftovers(b, Chosen(b)))
  {
    hide OutcomeOf, Chosen;
    var pick := UnmatchedRowAt(b, Chosen(b));
    var rows := Leftovers(b, Chosen(b));
    CollectMembers(|b.rows|, pick);
    forall u ensures u in rows <==> u in b.rows && OutcomeOf(b, Chosen(b), u).OnLegacy? {
      if u in b.rows && OutcomeOf(b, Chosen(b), u).OnLegacy? {
        var i :| 0 <= i < |b.rows| && b.rows[i] == u;
        assert pick(i) == Some(u);
      }
    }
    if DistinctUnlinked(b.rows) {
      forall x, y | 0 <= x < y < |rows| ensures rows[x].id != rows[y].id {
        var i, j := CollectSources(|b.rows|, pick, x, y);
      }
    }
  }

  // ---- Who is on a LEGACY departure afterwards ----

  function GroupAt(b: Input, key: LinkKey): seq<Unlinked> {
    GroupOf(Leftovers(b, Chosen(b)), key)
  }

  lemma {:induction false} JoinsTarget(b: Input, s: Store, w: Window, rides: seq<Ride>, records: seq<ExceptionRecord>, now: int, key: LinkKey, u: Unlinked)
    requires Ready(b, s, w, rides, records) && Accepted(b) && key in LeftoverKeys(b) && u in b.rows
    ensures LinkedTo(b, u) == Some(LegacyTarget(b, key)) <==> u in GroupAt(b, key)
  {
    hide Ready, Accepted, Chosen, OutcomeOf, LegacyTarget, AfterBackfill, Extends, CandidateSet, ReservationKey, IsStoredRows, Leftovers, GroupOf, GroupKeys,
      PlanBackfill;
    var t := AfterBackfill(s, PlanBackfill(b), b.newId, now).departures;
    var d := LegacyTarget(b, key);
    ReadyParts(b, s, w, rides, records);
    DeparturesAfter(b, s, w, rides, records, now);
    LeftoversExactly(b);
    GroupMembersExactly(Leftovers(b, Chosen(b)), key);
    LeftoverKeysExactly(Leftovers(b, Chosen(b)));
    var x :| x in Leftovers(b, Chosen(b)) && ReservationKey(x.row) == key;
    LegacyTargetStored(b, s, w, t, now, x);
    if LinkedTo(b, u) == Some(d) {
      LinksFollowTheRule(b, s, w, rides, records, now, u);
      if !OutcomeOf(b, Chosen(b), u).OnLegacy? {
        NotACandidate(b, t, u, d);
      }
    }
  }

  lemma {:induction false} NotACandidate(b: Input, t: map<Id, Departure>, u: Unlinked, d: Id)
    requires FollowsRule(t, u.row, LinkFor(b, Chosen(b), u)) && LinkedTo(b, u) == Some(d) && d in t && t[d].source == LEGACY
    ensures OutcomeOf(b, Chosen(b), u).OnLegacy?
  {
    hide CandidateSet, Chosen, LegacyTarget;
    if d in CandidateSet(t, ReservationKey(u.row)) {
      CandidateHasKey(t, ReservationKey(u.row), d);
    }
  }

  lemma {:induction false} HoldersAfter(b: Input, s: Store, w: Window, rides: seq<Ride>, records: seq<ExceptionRecord>, now: int, key: LinkKey, seat: int)
    requires Ready(b, s, w, rides, records) && Accepted(b) && key in LeftoverKeys(b)
    ensures var d := LegacyTarget(b, key);
      var t := AfterBackfill(s, PlanBackfill(b), b.newId, now).reservations;
      && HoldersOf(t, d, seat) == HoldersOf(s.reservations, d, seat) + GroupHolders(GroupAt(b, key), seat)
      && |HoldersOf(t, d, seat)| == |HoldersOf(s.reservations, d, seat)| + |GroupHolders(GroupAt(b, key), seat)|
  {
    hide Ready, Accepted, LegacyTarget, AfterBackfill, GroupAt, LinkedTo, LeftoverKeys, IsStoredRows, FreshIds, IsLinkedLoad, IsTravelRange, IsUnlinkedLoad,
      HoldersOf, GroupHolders, IsUnlinked;
    var d, group := LegacyTarget(b, key), GroupAt(b, key);
    var t := AfterBackfill(s, PlanBackfill(b), b.newId, now).reservations;
    ReadyParts(b, s, w, rides, records);
    ReservationsAfter(b, s, now);
    forall u | u in b.rows ensures LinkedTo(b, u) == Some(d) <==> u in group {
      JoinsTarget(b, s, w, rides, records, now, key, u);
    }
    GroupIsRead(b, key);
    JoinedHolders(s, t, b.rows, (u: Unlinked) => LinkedTo(b, u), group, d, seat);
  }

  /** The reservations read join the departures they are given; those of the group join d. */
  lemma {:induction false} JoinedHolders(s: Store, t: map<Id, Reservation>, rows: seq<Unlinked>, given: Unlinked -> Option<Id>, group: seq<Unlinked>, d: Id, seat: int)
    requires IsUnlinkedLoad(rows, s) && t.Keys == s.reservations.Keys
    requires forall r :: r in s.reservations && !IsUnlinked(s, r) ==> t[r] == s.reservations[r]
    requires forall u :: u in rows ==> u.id in t && t[u.id] == u.row.(departureId := given(u))
    requires (forall u :: u in group ==> u in rows) && forall u :: u in rows ==> (given(u) == Some(d) <==> u in group)
    ensures HoldersOf(t, d, seat) == HoldersOf(s.reservations, d, seat) + GroupHolders(group, seat)
    ensures |HoldersOf(t, d, seat)| == |HoldersOf(s.reservations, d, seat)| + |GroupHolders(group, seat)|
  {
    hide IsDate;
    forall r ensures r in HoldersOf(t, d, seat) <==> r in HoldersOf(s.reservations, d, seat) || r in GroupHolders(group, seat) {
      if IsUnlinked(s, r) {
        var u := Unlinked(r, s.reservations[r]);
        assert u in rows && t[r] == u.row.(departureId := given(u));
        assert forall v :: v in rows && v.id == r ==> v == u;
      }
    }
    assert HoldersOf(s.reservations, d, seat) !! GroupHolders(group, seat);
  }

  lemma {:induction false} GroupIsRead(b: Input, key: LinkKey)
    ensures forall u :: u in GroupAt(b, key) ==> u in b.rows
    ensures DistinctUnlinked(b.rows) ==> DistinctUnlinked(GroupAt(b, key))
  {
    hide Leftovers, GroupOf, Chosen, OutcomeOf;
    LeftoversExactly(b);
    GroupMembersExactly(Leftovers(b, Chosen(b)), key);
  }

  // ---- What is reported ----

  /** The seats loaded of a LEGACY departure the plan knows of, or of none stored, are all that are taken. */
  lemma {:induction false} TakenBefore(b: Input, s: Store, w: Window, rides: seq<Ride>, records: seq<ExceptionRecord>, d: Id, seat: int)
    requires Ready(b, s, w, rides, records)
    requires d in s.departures ==> s.departures[d].source == LEGACY && InWindow(w, s.departures[d].serviceDate)
    ensures multiset(SeatsOn(b.legacySeats, d))[seat] == |HoldersOf(s.reservations, d, seat)|
  {
    hide IsUnlinkedLoad, IsTravelRange, IsStoredRows, IsHistoryRead, IsLinkedLoad, FreshIds, UniqueSchedule, UniqueLegacy, InWindow;
    var rows: seq<Id> :| AreSeatsOf(b.legacySeats, rows, s) && forall r :: r in rows <==> OnLegacyBus(s, w, r);
    LoadedCount(rows, b.legacySeats, s, d, seat);
    assert LoadedOn(rows, s, d, seat) == HoldersOf(s.reservations, d, seat);
  }

  lemma {:induction false} ReportedSeats(b: Input, s: Store, w: Window, rides: seq<Ride>, records: seq<ExceptionRecord>, now: int, key: LinkKey, seat: int)
    requires Ready(b, s, w, rides, records) && Accepted(b) && key in LeftoverKeys(b)
    ensures seat in RepeatedSeats(SeatsOn(b.legacySeats, LegacyTarget(b, key)) + ActiveSeats(GroupAt(b, key)))
      <==> SoldTwice(AfterBackfill(s, PlanBackfill(b), b.newId, now).reservations, LegacyTarget(b, key), seat)
    ensures LegacyStored(b.stored, key).None? ==> SeatsOn(b.legacySeats, LegacyTarget(b, key)) == []
  {
    hide Accepted, AfterBackfill, GroupAt, LeftoverKeys, SoldTwice, HoldersOf, SeatsOn, ActiveSeats, RepeatedSeats, Ready;
    var d, group := LegacyTarget(b, key), GroupAt(b, key);
    ReadyParts(b, s, w, rides, records);
    LegacyStoredFinds(b.stored, key);
    TakenBefore(b, s, w, rides, records, d, seat);
    GroupIsRead(b, key);
    GroupCount(group, seat);
    HoldersAfter(b, s, w, rides, records, now, key, seat);
    TwoHolders(AfterBackfill(s, PlanBackfill(b), b.newId, now).reservations, d, seat);
    RepeatedSeatsExactly(SeatsOn(b.legacySeats, d) + ActiveSeats(group), seat);
    if LegacyStored(b.stored, key).None? {
      forall n ensures n !in SeatsOn(b.legacySeats, d) {
        TakenBefore(b, s, w, rides, records, d, n);
        NobodyOn(b, s, w, rides, records, d, n);
      }
      EmptyIffNone(SeatsOn(b.legacySeats, d));
    }
  }

  lemma {:induction false} NobodyOn(b: Input, s: Store, w: Window, rides: seq<Ride>, records: seq<ExceptionRecord>, d: Id, seat: int)
    requires Ready(b, s, w, rides, records) && d !in s.departures
    ensures HoldersOf(s.reservations, d, seat) == {}
  {
    hide IsRead, UniqueSchedule, UniqueLegacy;
  }

  lemma {:induction false} EmptyIffNone(seats: seq<int>)
    ensures seats != [] <==> exists n :: n in seats
  {
    if seats != [] {
      var n := seats[0];
      assert n in seats;
    }
  }

  lemma {:induction false} ReusedDuplicates(b: Input, s: Store, w: Window, rides: seq<Ride>, records: seq<ExceptionRecord>, now: int, seat: int, x: ReusedLegacy)
    requires Ready(b, s, w, rides, records) && Accepted(b) && x in LegacyReused(b)
    ensures seat in x.duplicateSeats <==> SoldTwice(AfterBackfill(s, PlanBackfill(b), b.newId, now).reservations, x.id, seat)
  {
    hide Ready, Accepted, AfterBackfill, SoldTwice, SeatsOn, ActiveSeats, RepeatedSeats, LeftoverKeys, LegacyArrivalOf, LegacyCapacity, ArrivalTimes, SeatsAbove,
      ReservationIds, PlanBackfill;
    var keys, rows := LeftoverKeys(b), Leftovers(b, Chosen(b));
    var i := CollectSource(|keys|, ReusedAt(b, keys, rows), x);
    ReportedSeats(b, s, w, rides, records, now, keys[i], seat);
  }

  lemma {:induction false} CreatedDuplicates(b: Input, s: Store, w: Window, rides: seq<Ride>, records: seq<ExceptionRecord>, now: int, seat: int, x: PlannedLegacy)
    requires Ready(b, s, w, rides, records) && Accepted(b) && x in LegacyCreates(b)
    ensures seat in x.duplicateSeats <==> SoldTwice(AfterBackfill(s, PlanBackfill(b), b.newId, now).reservations, x.id, seat)
  {
    hide Ready, Accepted, AfterBackfill, SoldTwice, SeatsOn, ActiveSeats, RepeatedSeats, LeftoverKeys, LegacyArrivalOf, LegacyCapacity, ArrivalTimes, SeatsAbove,
      ReservationIds, PlanBackfill;
    var keys, rows := LeftoverKeys(b), Leftovers(b, Chosen(b));
    var i := CollectSource(|keys|, NewLegacyAt(b, keys, rows), x);
    ReportedSeats(b, s, w, rides, records, now, keys[i], seat);
    assert [] + ActiveSeats(GroupAt(b, keys[i])) == ActiveSeats(GroupAt(b, keys[i]));
  }

  /**
   * Of every LEGACY departure the backfill makes or adds passengers to, the seats reported as
   * duplicate are exactly those that two active reservations hold after the apply.
   */
  lemma {:induction false} DuplicatesAreSoldTwice(b: Input, s: Store, w: Window, rides: seq<Ride>, records: seq<ExceptionRecord>, now: int, seat: int)
    requires Ready(b, s, w, rides, records) && Accepted(b)
    ensures var t := AfterBackfill(s, PlanBackfill(b), b.newId, now).reservations;
      && (forall x :: x in LegacyReused(b) ==> (seat in x.duplicateSeats <==> SoldTwice(t, x.id, seat)))
      && (forall x :: x in LegacyCreates(b) ==> (seat in x.duplicateSeats <==> SoldTwice(t, x.id, seat)))
  {
    hide Ready, Accepted, AfterBackfill, SoldTwice, LegacyReused, LegacyCreates, PlanBackfill;
    var t := AfterBackfill(s, PlanBackfill(b), b.newId, now).reservations;
    forall x | x in LegacyReused(b) ensures seat in x.duplicateSeats <==> SoldTwice(t, x.id, seat) {
      ReusedDuplicates(b, s, w, rides, records, now, seat, x);
    }
    forall x | x in LegacyCreates(b) ensures seat in x.duplicateSeats <==> SoldTwice(t, x.id, seat) {
      CreatedDuplicates(b, s, w, rides, records, now, seat, x);
    }
  }
}
