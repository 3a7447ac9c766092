/**
 * `duplicate-passenger-merge.ts`: the several rows one human ended up with, collapsed into
 * one. This module plans; what the plan promises is proved in `MergeSafety`.
 */
module PassengerMerge {
  import opened Basics
  import opened Text
  import opened Timetable
  import opened Segments
  import opened Grouping

  datatype PassengerType = ADULT | CHILD | STUDENT | SENIOR

  datatype Passenger = Passenger(
    tenantId: Id,
    firstName: string,
    lastName: string,
    phone: string,
    email: Option<string>,
    notes: Option<string>,
    passengerType: PassengerType,
    isActive: bool,
    createdAt: int)

  datatype Ticket = Ticket(
    passengerId: Id,
    rideId: Id,
    travelDate: string,
    departureTime: string,
    seatNumber: int,
    departureStationId: Id,
    arrivalStationId: Id,
    active: bool)

  datatype People = People(passengers: map<Id, Passenger>, tickets: map<Id, Ticket>, routes: map<Id, Route>)

  /** `tenant : nameKey : phoneKey`. */
  datatype Human = Human(tenantId: Id, nameKey: string, phoneKey: string)

  /** The two folds a row is recognised by. They are given: another file defines them. */
  datatype Folds = Folds(nameKey: (string, string) -> string, phoneKey: string -> string)

  datatype Row = Row(id: Id, row: Passenger, reservations: nat)

  datatype Held = Held(id: Id, row: Ticket)

  datatype SeatKey = SeatKey(rideId: Id, travelDate: string, departureTime: string, seatNumber: int)

  datatype Collision = Collision(seat: SeatKey, reservationIds: seq<Id>)

  datatype Field = TYPE | EMAIL | NOTES

  datatype Group = Group(canonical: Id, retired: seq<Id>, filled: map<Field, string>, reactivate: bool, reservationsToRepoint: nat)

  datatype Verdict = Alone | FieldDisagreement(fields: set<Field>) | SeatCollision(collisions: seq<Collision>) | Merge(group: Group)

  // ---- The row the others fold into ----

  /** More reservations, then older, then by ID. */
  predicate Preferred(a: Row, b: Row) {
    a.reservations > b.reservations
    || (a.reservations == b.reservations
        && (a.row.createdAt < b.row.createdAt || (a.row.createdAt == b.row.createdAt && StrLess(a.id, b.id))))
  }

  function CanonicalOf(rows: seq<Row>): Row
    requires |rows| > 0
  {
    if |rows| == 1 then rows[0]
    else
      var best := CanonicalOf(rows[..|rows| - 1]);
      if Preferred(rows[|rows| - 1], best) then rows[|rows| - 1] else best
  }

  lemma {:induction false} PreferredIsOrder(a: Row, b: Row, c: Row)
    ensures !Preferred(a, a)
    ensures Preferred(a, b) && Preferred(b, c) ==> Preferred(a, c)
    ensures Preferred(a, b) || Preferred(b, a) || a.id == b.id
  {
    StrLessTrichotomy(a.id, a.id);
    StrLessTrichotomy(a.id, b.id);
    if StrLess(a.id, b.id) && StrLess(b.id, c.id) {
      StrLessTransitive(a.id, b.id, c.id);
    }
  }

  ghost predicate DistinctRowIds(rows: seq<Row>) {
    forall i, j :: 0 <= i < j < |rows| ==> rows[i].id != rows[j].id
  }

  /** Whatever order the rows come in, the canonical one is preferred to every other. */
  lemma {:induction false} CanonicalIsPreferred(rows: seq<Row>)
    requires |rows| > 0 && DistinctRowIds(rows)
    ensures CanonicalOf(rows) in rows
    ensures forall x :: x in rows && x.id != CanonicalOf(rows).id ==> Preferred(CanonicalOf(rows), x)
  {
    if |rows| > 1 {
      var front, last := rows[..|rows| - 1], rows[|rows| - 1];
      assert rows == front + [last];
      CanonicalIsPreferred(front);
      var best := CanonicalOf(front);
      PreferredIsOrder(last, best, best);
      forall x | x in front && Preferred(last, best) ensures x.id != last.id ==> Preferred(last, x) {
        PreferredIsOrder(last, best, x);
      }
    }
  }

  // ---- Seat collisions ----

  function SeatKeyOf(x: Held): SeatKey {
    SeatKey(x.row.rideId, x.row.travelDate, x.row.departureTime, x.row.seatNumber)
  }

  /** A station dropped from the route since the sale counts as the route's end. */
  function SegmentOf(route: Route, row: Ticket): Segment {
    Segment(OrElse(OrderOn(route, row.departureStationId), 0), OrElse(OrderOn(route, row.arrivalStationId), |route.stops| + 1))
  }

  function RouteOf(routes: map<Id, Route>, rideId: Id): Route {
    if rideId in routes then routes[rideId] else Route("", "", [])
  }

  /** Two rows of different passengers, on the bus at the same time. */
  predicate Clash(routes: map<Id, Route>, a: Held, b: Held) {
    a.row.passengerId != b.row.passengerId
    && Overlap(SegmentOf(RouteOf(routes, a.row.rideId), a.row), SegmentOf(RouteOf(routes, b.row.rideId), b.row))
  }

  predicate ClashesIn(routes: map<Id, Route>, held: seq<Held>, x: Held) {
    exists y :: y in held && Clash(routes, x, y)
  }

  function ClashingAt(routes: map<Id, Route>, held: seq<Held>): nat -> Option<Id> {
    (i: nat) => if i < |held| && ClashesIn(routes, held, held[i]) then Some(held[i].id) else None
  }

  function ClashingIds(routes: map<Id, Route>, held: seq<Held>): seq<Id> {
    Collect(|held|, ClashingAt(routes, held))
  }

  function CollisionAt(routes: map<Id, Route>, rows: seq<Held>, seats: seq<SeatKey>): nat -> Option<Collision> {
    (i: nat) =>
      if i < |seats| then
        var ids := ClashingIds(routes, RowsUnder(rows, SeatKeyOf, seats[i]));
        if ids != [] then Some(Collision(seats[i], ids)) else None
      else None
  }

  function CollisionsOf(routes: map<Id, Route>, rows: seq<Held>): seq<Collision> {
    var seats := KeysOf(rows, SeatKeyOf);
    Collect(|seats|, CollisionAt(routes, rows, seats))
  }

  lemma {:induction false} ClashIsMutual(routes: map<Id, Route>, a: Held, b: Held)
    ensures Clash(routes, a, b) <==> Clash(routes, b, a)
  {
  }

  ghost predicate DistinctHeld(held: seq<Held>) {
    forall i, j :: 0 <= i < j < |held| ==> held[i].id != held[j].id
  }

  /** The nested loops: every pair once, both of a clashing pair marked. */
  method MarkClashing(routes: map<Id, Route>, held: seq<Held>) returns (overlapping: set<Id>)
    requires DistinctHeld(held)
    ensures forall i :: 0 <= i < |held| ==> (held[i].id in overlapping <==> ClashesIn(routes, held, held[i]))
  {
    hide Clash;
    overlapping := {};
    var left := 0;
    while left < |held|
      invariant 0 <= left <= |held|
      invariant forall i :: 0 <= i < |held| ==> (held[i].id in overlapping <==> MarkedBefore(routes, held, left, left + 1, i))
    {
      var right := left + 1;
      forall i | 0 <= i < |held| ensures MarkedBefore(routes, held, left, left + 1, i) <==> MarkedBefore(routes, held, left, right, i) {
      }
      while right < |held|
        invariant left < right <= |held|
        invariant forall i :: 0 <= i < |held| ==> (held[i].id in overlapping <==> MarkedBefore(routes, held, left, right, i))
      {
        forall i | 0 <= i < |held| { MarkStep(routes, held, left, right, i); }
        if Clash(routes, held[left], held[right]) {
          overlapping := overlapping + {held[left].id, held[right].id};
        }
        right := right + 1;
      }
      forall i | 0 <= i < |held| { NextLeft(routes, held, left, i); }
      left := left + 1;
    }
    forall i | 0 <= i < |held| { AllPairs(routes, held, i); }
  }

  /** Marked by a pair the loops have been through: below `left`, or `left` with one below `right`. */
  ghost predicate MarkedBefore(routes: map<Id, Route>, held: seq<Held>, left: nat, right: nat, i: nat)
    requires i < |held|
  {
    exists j :: 0 <= j < |held| && j != i && Clash(routes, held[i], held[j])
      && (Min(i, j) < left || (Min(i, j) == left && Max(i, j) < right))
  }

  lemma {:induction false} MarkStep(routes: map<Id, Route>, held: seq<Held>, left: nat, right: nat, i: nat)
    requires left < right < |held| && i < |held|
    ensures MarkedBefore(routes, held, left, right + 1, i) <==>
      MarkedBefore(routes, held, left, right, i) || (Clash(routes, held[left], held[right]) && (i == left || i == right))
  {
    ClashIsMutual(routes, held[left], held[right]);
    hide Clash;
    if Clash(routes, held[left], held[right]) && (i == left || i == right) {
      var j := if i == left then right else left;
      assert Clash(routes, held[i], held[j]);
    }
  }

  lemma {:induction false} NextLeft(routes: map<Id, Route>, held: seq<Held>, left: nat, i: nat)
    requires left < |held| && i < |held|
    ensures MarkedBefore(routes, held, left + 1, left + 2, i) <==> MarkedBefore(routes, held, left, |held|, i)
  {
    hide Clash;
  }

  lemma {:induction false} AllPairs(routes: map<Id, Route>, held: seq<Held>, i: nat)
    requires i < |held|
    ensures MarkedBefore(routes, held, |held|, |held| + 1, i) <==> ClashesIn(routes, held, held[i])
  {
    assert !Clash(routes, held[i], held[i]);
    hide Clash;
    if ClashesIn(routes, held, held[i]) {
      var y :| y in held && Clash(routes, held[i], y);
      var j :| 0 <= j < |held| && held[j] == y;
    }
    if MarkedBefore(routes, held, |held|, |held| + 1, i) {
      var j :| 0 <= j < |held| && j != i && Clash(routes, held[i], held[j]);
      assert held[j] in held;
    }
  }

  /** The tickets of one seat that another of them clashes with. */
  method OverlappingIds(routes: map<Id, Route>, held: seq<Held>) returns (ids: seq<Id>)
    requires DistinctHeld(held)
    ensures ids == ClashingIds(routes, held)
  {
    hide ClashesIn;
    if |held| < 2 {
      TooFewToClash(routes, held);
      return [];
    }
    var overlapping := MarkClashing(routes, held);
    if |overlapping| > 0 {
      ids := InOrderOf(routes, held, overlapping);
    } else {
      NobodyClashes(routes, held, overlapping);
      ids := [];
    }
  }

  /** `seatCollisionsOf`, over the live tickets of a group's members. */
  method SeatCollisionsOf(routes: map<Id, Route>, rows: seq<Held>) returns (collisions: seq<Collision>)
    requires DistinctHeld(rows)
    ensures collisions == CollisionsOf(routes, rows)
  {
    hide ClashingIds, DistinctHeld, RowsUnder, KeysOf;
    var seats, bySeat := GroupBy(rows, SeatKeyOf);
    collisions := [];
    var i := 0;
    while i < |seats|
      invariant 0 <= i <= |seats|
      invariant collisions == Collect(i, CollisionAt(routes, rows, seats))
    {
      HeldDistinct(rows, seats[i]);
      var ids := OverlappingIds(routes, bySeat[seats[i]]);
      if |ids| > 0 {
        collisions := collisions + [Collision(seats[i], ids)];
      }
      i := i + 1;
    }
  }

  lemma {:induction false} HeldDistinct(rows: seq<Held>, seat: SeatKey)
    requires DistinctHeld(rows)
    ensures DistinctHeld(RowsUnder(rows, SeatKeyOf, seat))
  {
    if |rows| > 0 {
      var front, last := rows[..|rows| - 1], rows[|rows| - 1];
      HeldDistinct(front, seat);
      RowsExactly(front, SeatKeyOf, seat);
      var before := RowsUnder(front, SeatKeyOf, seat);
      forall i | 0 <= i < |before| ensures before[i].id != last.id {
        assert before[i] in before;
        var k :| 0 <= k < |front| && front[k] == before[i];
        assert rows[k].id != rows[|front|].id;
      }
    }
  }

  lemma {:induction false} TooFewToClash(routes: map<Id, Route>, held: seq<Held>)
    requires |held| < 2
    ensures ClashingIds(routes, held) == []
  {
    if |held| == 1 {
      assert forall y :: y in held ==> y == held[0];
      assert !ClashesIn(routes, held, held[0]);
      assert Collect(1, ClashingAt(routes, held)) == Collect(0, ClashingAt(routes, held));
    }
  }

  method InOrderOf(routes: map<Id, Route>, held: seq<Held>, overlapping: set<Id>) returns (ids: seq<Id>)
    requires forall i :: 0 <= i < |held| ==> (held[i].id in overlapping <==> ClashesIn(routes, held, held[i]))
    ensures ids == ClashingIds(routes, held)
  {
    ids := [];
    var i := 0;
    while i < |held|
      invariant 0 <= i <= |held|
      invariant ids == Collect(i, ClashingAt(routes, held))
    {
      if held[i].id in overlapping {
        ids := ids + [held[i].id];
      }
      i := i + 1;
    }
  }

  lemma {:induction false} NobodyClashes(routes: map<Id, Route>, held: seq<Held>, overlapping: set<Id>)
    requires |overlapping| == 0
    requires forall i :: 0 <= i < |held| ==> (held[i].id in overlapping <==> ClashesIn(routes, held, held[i]))
    ensures ClashingIds(routes, held) == []
  {
    hide ClashesIn;
    assert overlapping == {};
    NoneCollected(routes, held, |held|);
  }

  lemma {:induction false} NoneCollected(routes: map<Id, Route>, held: seq<Held>, n: nat)
    requires n <= |held| && forall i :: 0 <= i < |held| ==> !ClashesIn(routes, held, held[i])
    ensures Collect(n, ClashingAt(routes, held)) == []
  {
    hide ClashesIn;
    if n > 0 {
      NoneCollected(routes, held, n - 1);
    }
  }

  ghost predicate TwoClash(routes: map<Id, Route>, rows: seq<Held>) {
    exists a, b :: a in rows && b in rows && SeatKeyOf(a) == SeatKeyOf(b) && Clash(routes, a, b)
  }

  lemma {:induction false} ClashIsReported(routes: map<Id, Route>, rows: seq<Held>, a: Held, b: Held)
    requires a in rows && b in rows && SeatKeyOf(a) == SeatKeyOf(b) && Clash(routes, a, b)
    ensures CollisionsOf(routes, rows) != []
  {
    hide Clash;
    var seats := KeysOf(rows, SeatKeyOf);
    KeysExactly(rows, SeatKeyOf);
    CollectMembers(|seats|, CollisionAt(routes, rows, seats));
    var key: Held -> SeatKey := SeatKeyOf;
    assert key(a) == SeatKeyOf(a);
    assert SeatKeyOf(a) in seats;
    var i :| 0 <= i < |seats| && seats[i] == SeatKeyOf(a);
    var held := RowsUnder(rows, SeatKeyOf, seats[i]);
    RowsExactly(rows, SeatKeyOf, seats[i]);
    assert a in held && b in held;
    ClashingHas(routes, held, a);
    assert CollisionAt(routes, rows, seats)(i).Some?;
    assert CollisionAt(routes, rows, seats)(i).value in CollisionsOf(routes, rows);
  }

  lemma {:induction false} ListedClashes(routes: map<Id, Route>, held: seq<Held>) returns (x: Held)
    requires ClashingIds(routes, held) != []
    ensures x in held && ClashesIn(routes, held, x)
  {
    hide ClashesIn;
    var k := CollectSource(|held|, ClashingAt(routes, held), ClashingIds(routes, held)[0]);
    x := held[k];
  }

  lemma {:induction false} ReportedClashes(routes: map<Id, Route>, rows: seq<Held>)
    requires CollisionsOf(routes, rows) != []
    ensures TwoClash(routes, rows)
  {
    hide Clash;
    var seats := KeysOf(rows, SeatKeyOf);
    var i := CollectSource(|seats|, CollisionAt(routes, rows, seats), CollisionsOf(routes, rows)[0]);
    var held := RowsUnder(rows, SeatKeyOf, seats[i]);
    RowsExactly(rows, SeatKeyOf, seats[i]);
    var x := ListedClashes(routes, held);
    var y :| y in held && Clash(routes, x, y);
  }

  /** A group is reported exactly when two of its rows hold one seat of one bus at the same time. */
  lemma {:induction false} CollisionsIff(routes: map<Id, Route>, rows: seq<Held>)
    ensures CollisionsOf(routes, rows) != [] <==>
      exists a, b :: a in rows && b in rows && SeatKeyOf(a) == SeatKeyOf(b) && Clash(routes, a, b)
  {
    hide Clash, CollisionsOf;
    if a, b :| a in rows && b in rows && SeatKeyOf(a) == SeatKeyOf(b) && Clash(routes, a, b) {
      ClashIsReported(routes, rows, a, b);
    }
    if CollisionsOf(routes, rows) != [] {
      ReportedClashes(routes, rows);
    }
  }

  lemma {:induction false} ClashingHas(routes: map<Id, Route>, held: seq<Held>, a: Held)
    requires a in held && ClashesIn(routes, held, a)
    ensures ClashingIds(routes, held) != []
  {
    hide ClashesIn;
    CollectMembers(|held|, ClashingAt(routes, held));
    var i :| 0 <= i < |held| && held[i] == a;
    assert ClashingAt(routes, held)(i) == Some(a.id);
  }
}
