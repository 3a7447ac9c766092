/**
 * The merge of duplicate passengers, said of the columns of the tables: whose records are
 * merged, which are reported and why, and what every row is afterwards.
 */
module MergeResults {
  import opened Basics
  import opened Text
  import opened Timetable
  import opened Segments
  import opened Grouping
  import opened PassengerMerge
  import opened MergePlan
  import opened MergeSafety
  import opened MergeAgain

  // ---- What a record says ----

  /** `t` is `s` from character `i` up to `j`: the white space around it left off. */
  predicate TrimmedAt(s: string, t: string, i: nat, j: nat) {
    && i <= j <= |s| && t == s[i..j]
    && (forall k :: 0 <= k < |s| && (k < i || j <= k) ==> IsSpace(s[k]))
    && (i < j ==> !IsSpace(s[i]) && !IsSpace(s[j - 1]))
  }

  ghost predicate IsTrimmed(s: string, t: string) {
    exists i: nat, j: nat :: TrimmedAt(s, t, i, j)
  }

  lemma {:induction false} TrimmedInside(s: string, t: string, i: nat, j: nat)
    ensures |s| > 0 && IsSpace(s[0]) && TrimmedAt(s[1..], t, i, j) ==> TrimmedAt(s, t, i + 1, j + 1)
    ensures |s| > 0 && IsSpace(s[|s| - 1]) && TrimmedAt(s[..|s| - 1], t, i, j) ==> TrimmedAt(s, t, i, j)
  {
    hide IsSpace;
    if |s| > 0 && TrimmedAt(s[1..], t, i, j) {
      assert forall k :: 0 < k < |s| ==> s[k] == s[1..][k - 1];
      assert s[1..][i..j] == s[i + 1..j + 1];
    }
    if |s| > 0 && TrimmedAt(s[..|s| - 1], t, i, j) {
      assert s[..|s| - 1][i..j] == s[i..j];
    }
  }

  lemma {:induction false} TrimIsTrimmed(s: string) returns (i: nat, j: nat)
    ensures TrimmedAt(s, Trim(s), i, j)
    decreases |s|
  {
    hide IsSpace;
    if |s| == 0 {
      i, j := 0, 0;
    } else if IsSpace(s[0]) {
      i, j := TrimIsTrimmed(s[1..]);
      TrimmedInside(s, Trim(s), i, j);
      i, j := i + 1, j + 1;
    } else if IsSpace(s[|s| - 1]) {
      i, j := TrimIsTrimmed(s[..|s| - 1]);
      TrimmedInside(s, Trim(s), i, j);
    } else {
      i, j := 0, |s|;
    }
  }

  lemma {:induction false} TrimIs(s: string, t: string)
    ensures IsTrimmed(s, t) <==> t == Trim(s)
  {
    var a, b := TrimIsTrimmed(s);
    if i: nat, j: nat :| TrimmedAt(s, t, i, j) {
      OneTrim(s, t, i, j, Trim(s), a, b);
    }
  }

  lemma {:induction false} OneTrim(s: string, t: string, i: nat, j: nat, u: string, a: nat, b: nat)
    requires TrimmedAt(s, t, i, j) && TrimmedAt(s, u, a, b)
    ensures t == u
  {
    hide IsSpace;
    forall k | 0 <= k < |s| && !IsSpace(s[k]) ensures i <= k < j && a <= k < b {
    }
  }

  /** The column holds `v`, white space apart, and `v` is not empty. */
  ghost predicate Says(column: Option<string>, v: string) {
    v != "" && column.Some? && IsTrimmed(column.value, v)
  }

  /** Both columns say something, and not the same. */
  ghost predicate SayDifferent(a: Option<string>, b: Option<string>) {
    exists u, v :: Says(a, u) && Says(b, v) && u != v
  }

  /** Two records that cannot be one passenger's as they are. */
  ghost predicate Differ(a: Passenger, b: Passenger, f: Field) {
    match f
    case TYPE => a.passengerType != b.passengerType
    case EMAIL => SayDifferent(a.email, b.email)
    case NOTES => SayDifferent(a.notes, b.notes)
  }

  lemma {:induction false} SaysIff(column: Option<string>, v: string)
    ensures Says(column, v) <==> v != "" && v == Trim(OrElse(column, ""))
  {
    hide IsTrimmed;
    TrimIs(OrElse(column, ""), v);
  }

  lemma {:induction false} SayDifferentIff(a: Option<string>, b: Option<string>)
    ensures SayDifferent(a, b) <==> Trim(OrElse(a, "")) != "" && Trim(OrElse(b, "")) != "" && Trim(OrElse(a, "")) != Trim(OrElse(b, ""))
  {
    hide Says, Trim;
    var u, v := Trim(OrElse(a, "")), Trim(OrElse(b, ""));
    forall x { SaysIff(a, x); }
    forall x { SaysIff(b, x); }
    if u != "" && v != "" && u != v {
      assert Says(a, u) && Says(b, v);
    }
  }

  lemma {:induction false} TypeNames(t: PassengerType)
    ensures Trim(TypeName(t)) == TypeName(t)
  {
  }

  lemma {:induction false} DifferIff(a: Passenger, b: Passenger, f: Field)
    ensures Differ(a, b, f) <==> ValueOf(a, f) != "" && ValueOf(b, f) != "" && ValueOf(a, f) != ValueOf(b, f)
  {
    hide SayDifferent, Trim;
    TypeNames(a.passengerType);
    TypeNames(b.passengerType);
    SayDifferentIff(a.email, b.email);
    SayDifferentIff(a.notes, b.notes);
  }

  lemma {:induction false} TwoValues(values: set<string>)
    ensures |values| > 1 <==> exists u, v :: u in values && v in values && u != v
  {
    if u, v :| u in values && v in values && u != v {
      assert |values - {u}| == |values| - 1 && v in values - {u};
    }
    if |values| > 1 {
      var u :| u in values;
      assert |values - {u}| == |values| - 1;
      var v :| v in values - {u};
    }
  }

  /** A field is reported exactly when two of the records differ in it. */
  lemma {:induction false} DisagreeIff(members: seq<Row>, f: Field)
    ensures f in Disagreeing(members) <==> exists a, b :: a in members && b in members && Differ(a.row, b.row, f)
  {
    hide Differ, ValueOf;
    var values := ValuesOf(members, f);
    assert f in ALL_FIELDS;
    TwoValues(values);
    if a, b :| a in members && b in members && Differ(a.row, b.row, f) {
      DifferIff(a.row, b.row, f);
      assert ValueOf(a.row, f) in values && ValueOf(b.row, f) in values;
    }
    if u, v :| u in values && v in values && u != v {
      var a :| a in members && ValueOf(a.row, f) == u;
      var b :| b in members && ValueOf(b.row, f) == v;
      DifferIff(a.row, b.row, f);
    }
  }

  // ---- Whose records ----

  /** A record of the human: live or booked under, with a name and enough of a phone number to go by. */
  ghost predicate IsOf(s: People, folds: Folds, p: Id, h: Human) {
    && p in s.passengers
    && (s.passengers[p].isActive || exists t :: t in s.tickets && s.tickets[t].passengerId == p)
    && s.passengers[p].tenantId == h.tenantId
    && folds.nameKey(s.passengers[p].firstName, s.passengers[p].lastName) == h.nameKey && folds.phoneKey(s.passengers[p].phone) == h.phoneKey
    && h.nameKey != "" && |h.phoneKey| >= 8
  }

  lemma {:induction false} MembersAre(q: Read, s: People, h: Human, m: Row)
    requires IsMergeRead(q, s)
    ensures m in MembersOf(q.folds, q.rows, h) <==> IsOf(s, q.folds, m.id, h) && m == RowFor(s, m.id)
  {
    hide IsTicketLoad;
    MembersDistinct(q.folds, q.rows, h);
    if m.id in s.passengers {
      var mine := TicketsOf(s.tickets, m.id);
      assert forall t :: t in mine <==> t in s.tickets && s.tickets[t].passengerId == m.id;
      assert |mine| > 0 <==> mine != {};
      ReadRow(q, s, m.id);
    }
  }

  lemma {:induction false} TwoMembers(q: Read, s: People, h: Human)
    requires IsMergeRead(q, s)
    ensures |MembersOf(q.folds, q.rows, h)| >= 2 <==> exists p, r :: p != r && IsOf(s, q.folds, p, h) && IsOf(s, q.folds, r, h)
  {
    hide IsOf, MembersOf, IsMergeRead;
    var members := MembersOf(q.folds, q.rows, h);
    ReadRows(q, s);
    MembersDistinct(q.folds, q.rows, h);
    if |members| >= 2 {
      MembersAre(q, s, h, members[0]);
      MembersAre(q, s, h, members[1]);
    }
    if p, r :| p != r && IsOf(s, q.folds, p, h) && IsOf(s, q.folds, r, h) {
      IsOfParts(s, q.folds, p, h);
      IsOfParts(s, q.folds, r, h);
      MembersAre(q, s, h, RowFor(s, p));
      MembersAre(q, s, h, RowFor(s, r));
    }
  }

  lemma {:induction false} IsOfParts(s: People, folds: Folds, p: Id, h: Human)
    requires IsOf(s, folds, p, h)
    ensures p in s.passengers && RowFor(s, p).id == p && RowFor(s, p).row == s.passengers[p]
  {
  }

  /** Two of the human's records differ in a field. */
  ghost predicate RecordsDiffer(s: People, folds: Folds, h: Human, f: Field) {
    exists p, r :: IsOf(s, folds, p, h) && IsOf(s, folds, r, h) && Differ(s.passengers[p], s.passengers[r], f)
  }

  lemma {:induction false} RecordsDifferIff(q: Read, s: People, h: Human, f: Field)
    requires IsMergeRead(q, s)
    ensures f in Disagreeing(MembersOf(q.folds, q.rows, h)) <==> RecordsDiffer(s, q.folds, h, f)
  {
    hide IsOf, MembersOf, IsMergeRead, Differ, Disagreeing;
    var members := MembersOf(q.folds, q.rows, h);
    DisagreeIff(members, f);
    forall p | IsOf(s, q.folds, p, h) ensures p in s.passengers { IsOfParts(s, q.folds, p, h); }
    if a, b :| a in members && b in members && Differ(a.row, b.row, f) {
      MembersAre(q, s, h, a);
      MembersAre(q, s, h, b);
    }
    if p, r :| IsOf(s, q.folds, p, h) && IsOf(s, q.folds, r, h) && Differ(s.passengers[p], s.passengers[r], f) {
      IsOfParts(s, q.folds, p, h);
      IsOfParts(s, q.folds, r, h);
      MembersAre(q, s, h, RowFor(s, p));
      MembersAre(q, s, h, RowFor(s, r));
    }
  }

  // ---- Tickets that cannot be one human's ----

  /** On the bus over a leg. A station the route no longer passes counts as the route's end. */
  ghost predicate IsOnLeg(route: Route, t: Ticket, leg: int) {
    && (if IsOnRoute(route, t.departureStationId) then exists from :: PassesAt(route, t.departureStationId, from) && from <= leg else 0 <= leg)
    && (if IsOnRoute(route, t.arrivalStationId) then exists to :: PassesAt(route, t.arrivalStationId, to) && leg < to else leg <= |route.stops|)
  }

  lemma {:induction false} OnLegIff(route: Route, t: Ticket, leg: int)
    ensures IsOnLeg(route, t, leg) <==> Covers(SegmentOf(route, t), leg)
  {
    hide OrderOn, PassesAt, IsOnRoute;
    OrderOnIs(route, t.departureStationId);
    OrderOnIs(route, t.arrivalStationId);
    if IsOnRoute(route, t.departureStationId) {
      assert PassesAt(route, t.departureStationId, OrderOn(route, t.departureStationId).value);
    }
    if IsOnRoute(route, t.arrivalStationId) {
      assert PassesAt(route, t.arrivalStationId, OrderOn(route, t.arrivalStationId).value);
    }
  }

  ghost predicate RideTogether(route: Route, a: Ticket, b: Ticket) {
    exists leg :: IsOnLeg(route, a, leg) && IsOnLeg(route, b, leg)
  }

  /** Two passengers' live tickets for one seat of one bus, on it together over some leg of the route. */
  ghost predicate ShareSeat(routes: map<Id, Route>, a: Ticket, b: Ticket) {
    && a.passengerId != b.passengerId
    && a.rideId == b.rideId && a.travelDate == b.travelDate && a.departureTime == b.departureTime && a.seatNumber == b.seatNumber
    && RideTogether(if a.rideId in routes then routes[a.rideId] else Route("", "", []), a, b)
  }

  lemma {:induction false} SharedLegIff(route: Route, a: Ticket, b: Ticket)
    ensures RideTogether(route, a, b) <==> Overlap(SegmentOf(route, a), SegmentOf(route, b))
  {
    hide IsOnLeg, SegmentOf, Overlap, Covers;
    forall leg ensures IsOnLeg(route, a, leg) <==> Covers(SegmentOf(route, a), leg) { OnLegIff(route, a, leg); }
    forall leg ensures IsOnLeg(route, b, leg) <==> Covers(SegmentOf(route, b), leg) { OnLegIff(route, b, leg); }
    OverlapIsSharedLeg(SegmentOf(route, a), SegmentOf(route, b));
    if leg :| Covers(SegmentOf(route, a), leg) && Covers(SegmentOf(route, b), leg) {
      assert IsOnLeg(route, a, leg) && IsOnLeg(route, b, leg);
    }
  }

  lemma {:induction false} ShareSeatIff(routes: map<Id, Route>, a: Held, b: Held)
    ensures ShareSeat(routes, a.row, b.row) <==> SeatKeyOf(a) == SeatKeyOf(b) && Clash(routes, a, b)
  {
    hide RideTogether, SegmentOf, Overlap;
    SharedLegIff(RouteOf(routes, a.row.rideId), a.row, b.row);
  }

  /** A live ticket of one of the human's records. */
  ghost predicate IsTicketOf(s: People, folds: Folds, h: Human, x: Id) {
    x in s.tickets && s.tickets[x].active && IsOf(s, folds, s.tickets[x].passengerId, h)
  }

  /** Another of the human's records holds the ticket's seat at the same time. */
  ghost predicate SeatHeldTwice(s: People, folds: Folds, h: Human, x: Id) {
    IsTicketOf(s, folds, h, x) && exists y :: IsTicketOf(s, folds, h, y) && ShareSeat(s.routes, s.tickets[x], s.tickets[y])
  }

  lemma {:induction false} HeldAre(q: Read, s: People, h: Human, x: Held)
    requires IsMergeRead(q, s) && |MembersOf(q.folds, q.rows, h)| >= 2
    ensures x in HeldBy(MembersOf(q.folds, q.rows, h), q.tickets) <==> IsTicketOf(s, q.folds, h, x.id) && x.row == s.tickets[x.id]
    ensures DistinctHeld(HeldBy(MembersOf(q.folds, q.rows, h), q.tickets))
  {
    hide MembersOf, IsPassengerLoad, HeldBy, IsOf;
    var members := MembersOf(q.folds, q.rows, h);
    ReadRows(q, s);
    MembersDistinct(q.folds, q.rows, h);
    HeldByDistinct(members, q.tickets);
    var p := x.row.passengerId;
    if m :| m in members && m.id == p {
      MembersAre(q, s, h, m);
      assert IsMember(q, h, p) && Shares(q, p);
    }
    if IsOf(s, q.folds, p, h) {
      IsOfParts(s, q.folds, p, h);
      MembersAre(q, s, h, RowFor(s, p));
      assert IsMember(q, h, p) && Shares(q, p);
    }
  }

  lemma {:induction false} CollisionIff(q: Read, s: People, h: Human)
    requires IsMergeRead(q, s) && |MembersOf(q.folds, q.rows, h)| >= 2
    ensures CollisionsOf(q.routes, HeldBy(MembersOf(q.folds, q.rows, h), q.tickets)) != [] <==> exists x :: SeatHeldTwice(s, q.folds, h, x)
  {
    hide MembersOf, IsPassengerLoad, IsTicketLoad, CollisionsOf, HeldBy, IsTicketOf, ShareSeat, Clash;
    var held := HeldBy(MembersOf(q.folds, q.rows, h), q.tickets);
    CollisionsIff(q.routes, held);
    forall x | IsTicketOf(s, q.folds, h, x) ensures x in s.tickets { TicketParts(s, q.folds, h, x); }
    if a, b :| a in held && b in held && SeatKeyOf(a) == SeatKeyOf(b) && Clash(q.routes, a, b) {
      HeldAre(q, s, h, a);
      HeldAre(q, s, h, b);
      ShareSeatIff(q.routes, a, b);
      assert SeatHeldTwice(s, q.folds, h, a.id);
    }
    if x :| SeatHeldTwice(s, q.folds, h, x) {
      var y :| IsTicketOf(s, q.folds, h, y) && ShareSeat(s.routes, s.tickets[x], s.tickets[y]);
      var a, b := Held(x, s.tickets[x]), Held(y, s.tickets[y]);
      HeldAre(q, s, h, a);
      HeldAre(q, s, h, b);
      ShareSeatIff(q.routes, a, b);
    }
  }

  lemma {:induction false} TicketParts(s: People, folds: Folds, h: Human, x: Id)
    requires IsTicketOf(s, folds, h, x)
    ensures x in s.tickets
  {
  }

  // ---- Who is merged ----

  /** Several records of one human that say nothing different and hold no seat twice. */
  ghost predicate CanBeMerged(s: People, folds: Folds, h: Human) {
    && (exists p, r :: p != r && IsOf(s, folds, p, h) && IsOf(s, folds, r, h))
    && (forall f :: !RecordsDiffer(s, folds, h, f)) && (forall x :: !SeatHeldTwice(s, folds, h, x))
  }

  /** A human's records are merged exactly when they can be, seen from the tables alone. */
  lemma {:induction false} MergedIff(q: Read, s: People, h: Human)
    requires IsMergeRead(q, s)
    ensures VerdictFor(q, h).Merge? <==> CanBeMerged(s, q.folds, h)
  {
    hide IsMergeRead, MembersOf, Disagreeing, CollisionsOf, HeldBy, RecordsDiffer, SeatHeldTwice, IsOf, GroupFor;
    var members := MembersOf(q.folds, q.rows, h);
    TwoMembers(q, s, h);
    forall f ensures f in Disagreeing(members) <==> RecordsDiffer(s, q.folds, h, f) {
      RecordsDifferIff(q, s, h, f);
    }
    assert Disagreeing(members) == {} <==> forall f :: f !in Disagreeing(members);
    if |members| >= 2 {
      CollisionIff(q, s, h);
    }
  }

  // ---- What is reported ----

  predicate IsSeat(t: Ticket, seat: SeatKey) {
    t.rideId == seat.rideId && t.travelDate == seat.travelDate && t.departureTime == seat.departureTime && t.seatNumber == seat.seatNumber
  }

  /** The human's tickets for one seat that others of theirs overlap. */
  ghost predicate CollisionTold(s: People, folds: Folds, h: Human, c: Collision) {
    && c.reservationIds != [] && Distinct(c.reservationIds)
    && forall r :: r in c.reservationIds <==> SeatHeldTwice(s, folds, h, r) && r in s.tickets && IsSeat(s.tickets[r], c.seat)
  }

  ghost predicate AllCollisionsTold(s: People, folds: Folds, h: Human, collisions: seq<Collision>) {
    && (forall c :: c in collisions ==> CollisionTold(s, folds, h, c))
    && (forall x :: SeatHeldTwice(s, folds, h, x) ==> exists c :: c in collisions && x in c.reservationIds)
    && forall i, j :: 0 <= i < j < |collisions| ==> collisions[i].seat != collisions[j].seat
  }

  lemma {:induction false} CollisionsAre(routes: map<Id, Route>, rows: seq<Held>)
    ensures forall c :: c in CollisionsOf(routes, rows) <==> c.reservationIds != [] && c.reservationIds == ClashingIds(routes, RowsUnder(rows, SeatKeyOf, c.seat))
    ensures forall i, j :: 0 <= i < j < |CollisionsOf(routes, rows)| ==> CollisionsOf(routes, rows)[i].seat != CollisionsOf(routes, rows)[j].seat
  {
    hide ClashingIds;
    var seats := KeysOf(rows, SeatKeyOf);
    var f := CollisionAt(routes, rows, seats);
    CollectMembers(|seats|, f);
    KeysExactly(rows, SeatKeyOf);
    forall c: Collision | c.reservationIds != [] && c.reservationIds == ClashingIds(routes, RowsUnder(rows, SeatKeyOf, c.seat)) ensures c in CollisionsOf(routes, rows) {
      SeatIsKey(routes, rows, c.seat);
      var i :| 0 <= i < |seats| && seats[i] == c.seat;
      assert f(i) == Some(c);
    }
    forall i, j | 0 <= i < j < |CollisionsOf(routes, rows)| ensures CollisionsOf(routes, rows)[i].seat != CollisionsOf(routes, rows)[j].seat {
      var a, b := CollectSources(|seats|, f, i, j);
    }
  }

  lemma {:induction false} SeatIsKey(routes: map<Id, Route>, rows: seq<Held>, seat: SeatKey)
    requires ClashingIds(routes, RowsUnder(rows, SeatKeyOf, seat)) != []
    ensures seat in KeysOf(rows, SeatKeyOf)
  {
    hide ClashesIn, ClashingIds;
    var x := ListedClashes(routes, RowsUnder(rows, SeatKeyOf, seat));
    RowsExactly(rows, SeatKeyOf, seat);
    KeysExactly(rows, SeatKeyOf);
    var key: Held -> SeatKey := SeatKeyOf;
    assert key(x) == seat;
  }

  lemma {:induction false} ClashingIdsAre(routes: map<Id, Route>, held: seq<Held>)
    requires DistinctHeld(held)
    ensures forall r :: r in ClashingIds(routes, held) <==> exists x :: x in held && x.id == r && ClashesIn(routes, held, x)
    ensures Distinct(ClashingIds(routes, held))
  {
    hide ClashesIn;
    var f := ClashingAt(routes, held);
    CollectMembers(|held|, f);
    forall x | x in held && ClashesIn(routes, held, x) ensures x.id in ClashingIds(routes, held) {
      var i :| 0 <= i < |held| && held[i] == x;
      assert f(i) == Some(x.id);
    }
    forall i, j | 0 <= i < j < |ClashingIds(routes, held)| ensures ClashingIds(routes, held)[i] != ClashingIds(routes, held)[j] {
      var a, b := CollectSources(|held|, f, i, j);
    }
  }

  /** Who clashes on one seat, from the tables. */
  lemma {:induction false} ClashesTold(q: Read, s: People, h: Human, x: Held, seat: SeatKey)
    requires IsMergeRead(q, s) && |MembersOf(q.folds, q.rows, h)| >= 2
    ensures var held := RowsUnder(HeldBy(MembersOf(q.folds, q.rows, h), q.tickets), SeatKeyOf, seat);
      x in held && ClashesIn(q.routes, held, x) <==> SeatHeldTwice(s, q.folds, h, x.id) && x.id in s.tickets && x.row == s.tickets[x.id] && IsSeat(x.row, seat)
  {
    hide MembersOf, HeldBy, IsTicketOf, ShareSeat, Clash, IsPassengerLoad, IsTicketLoad;
    var all := HeldBy(MembersOf(q.folds, q.rows, h), q.tickets);
    var held := RowsUnder(all, SeatKeyOf, seat);
    RowsExactly(all, SeatKeyOf, seat);
    HeldAre(q, s, h, x);
    forall y | IsTicketOf(s, q.folds, h, y) ensures y in s.tickets { TicketParts(s, q.folds, h, y); }
    if x in held && ClashesIn(q.routes, held, x) {
      var y :| y in held && Clash(q.routes, x, y);
      HeldAre(q, s, h, y);
      ShareSeatIff(q.routes, x, y);
    }
    if SeatHeldTwice(s, q.folds, h, x.id) && x.id in s.tickets && x.row == s.tickets[x.id] && IsSeat(x.row, seat) {
      var y :| IsTicketOf(s, q.folds, h, y) && ShareSeat(s.routes, s.tickets[x.id], s.tickets[y]);
      var b := Held(y, s.tickets[y]);
      HeldAre(q, s, h, b);
      ShareSeatIff(q.routes, x, b);
      assert b in held;
    }
  }

  lemma {:induction false} SeatTold(q: Read, s: People, h: Human, seat: SeatKey)
    requires IsMergeRead(q, s) && |MembersOf(q.folds, q.rows, h)| >= 2
    ensures var ids := ClashingIds(q.routes, RowsUnder(HeldBy(MembersOf(q.folds, q.rows, h), q.tickets), SeatKeyOf, seat));
      && Distinct(ids) && forall r :: r in ids <==> SeatHeldTwice(s, q.folds, h, r) && r in s.tickets && IsSeat(s.tickets[r], seat)
  {
    hide MembersOf, HeldBy, ClashesIn, ClashingIds, SeatHeldTwice, IsSeat, IsMergeRead;
    var all := HeldBy(MembersOf(q.folds, q.rows, h), q.tickets);
    var held := RowsUnder(all, SeatKeyOf, seat);
    HeldAre(q, s, h, Held("", Ticket("", "", "", "", 0, "", "", false)));
    HeldDistinct(all, seat);
    ClashingIdsAre(q.routes, held);
    var ids := ClashingIds(q.routes, held);
    forall r ensures r in ids <==> SeatHeldTwice(s, q.folds, h, r) && r in s.tickets && IsSeat(s.tickets[r], seat) {
      if r in ids {
        var x :| x in held && x.id == r && ClashesIn(q.routes, held, x);
        ClashesTold(q, s, h, x, seat);
      }
      if SeatHeldTwice(s, q.folds, h, r) && r in s.tickets && IsSeat(s.tickets[r], seat) {
        ClashesTold(q, s, h, Held(r, s.tickets[r]), seat);
      }
    }
  }

  lemma {:induction false} CollisionsTold(q: Read, s: People, h: Human)
    requires IsMergeRead(q, s) && |MembersOf(q.folds, q.rows, h)| >= 2
    ensures AllCollisionsTold(s, q.folds, h, CollisionsOf(q.routes, HeldBy(MembersOf(q.folds, q.rows, h), q.tickets)))
  {
    hide MembersOf, HeldBy, CollisionsOf, ClashingIds, RowsUnder, IsMergeRead, IsTicketOf, ShareSeat;
    var all := HeldBy(MembersOf(q.folds, q.rows, h), q.tickets);
    CollisionsAre(q.routes, all);
    forall c | c in CollisionsOf(q.routes, all) ensures CollisionTold(s, q.folds, h, c) {
      SeatTold(q, s, h, c.seat);
    }
    forall x | SeatHeldTwice(s, q.folds, h, x) ensures exists c :: c in CollisionsOf(q.routes, all) && x in c.reservationIds {
      TicketParts(s, q.folds, h, x);
      var t := s.tickets[x];
      var seat := SeatKey(t.rideId, t.travelDate, t.departureTime, t.seatNumber);
      SeatTold(q, s, h, seat);
      var c := Collision(seat, ClashingIds(q.routes, RowsUnder(all, SeatKeyOf, seat)));
      assert x in c.reservationIds;
      assert c in CollisionsOf(q.routes, all);
    }
  }

  ghost predicate ListsRecords(s: People, folds: Folds, h: Human, ids: seq<Id>) {
    Distinct(ids) && forall p :: p in ids <==> IsOf(s, folds, p, h)
  }

  /** Why a human's records were left alone: every field they differ in, or else every seat they hold twice. */
  ghost predicate ConflictTold(s: People, folds: Folds, c: Conflict) {
    && ListsRecords(s, folds, c.human, c.passengerIds)
    && match c.why
       case FieldDisagreement(fields) => fields != {} && forall f :: f in fields <==> RecordsDiffer(s, folds, c.human, f)
       case SeatCollision(collisions) => collisions != [] && (forall f :: !RecordsDiffer(s, folds, c.human, f)) && AllCollisionsTold(s, folds, c.human, collisions)
       case Alone => false
       case Merge(_) => false
  }

  lemma {:induction false} RecordsListed(q: Read, s: People, h: Human)
    requires IsMergeRead(q, s)
    ensures ListsRecords(s, q.folds, h, RowIds(MembersOf(q.folds, q.rows, h)))
  {
    hide MembersOf, IsOf, IsMergeRead;
    var members := MembersOf(q.folds, q.rows, h);
    var ids := RowIds(members);
    ReadRows(q, s);
    MembersDistinct(q.folds, q.rows, h);
    forall p ensures p in ids <==> IsOf(s, q.folds, p, h) {
      if p in ids {
        var i :| 0 <= i < |members| && members[i].id == p;
        MembersAre(q, s, h, members[i]);
      }
      if IsOf(s, q.folds, p, h) {
        IsOfParts(s, q.folds, p, h);
        MembersAre(q, s, h, RowFor(s, p));
        var i :| 0 <= i < |members| && members[i] == RowFor(s, p);
        assert ids[i] == p;
      }
    }
  }

  lemma {:induction false} ReportTold(q: Read, s: People, h: Human)
    requires IsMergeRead(q, s) && (VerdictFor(q, h).FieldDisagreement? || VerdictFor(q, h).SeatCollision?)
    ensures ConflictTold(s, q.folds, Conflict(h, RowIds(MembersOf(q.folds, q.rows, h)), VerdictFor(q, h)))
  {
    hide MembersOf, IsMergeRead, Disagreeing, CollisionsOf, HeldBy, RecordsDiffer, AllCollisionsTold, ListsRecords, RowIds;
    var members := MembersOf(q.folds, q.rows, h);
    RecordsListed(q, s, h);
    forall f ensures f in Disagreeing(members) <==> RecordsDiffer(s, q.folds, h, f) {
      RecordsDifferIff(q, s, h, f);
    }
    CollisionsTold(q, s, h);
  }

  /** Every human with several records is merged or reported, never both, and reported once with the whole reason. */
  lemma {:induction false} ReportsMean(q: Read, s: People)
    requires IsMergeRead(q, s)
    ensures var conflicts := PlanMerge(q).conflicts;
      && (forall c :: c in conflicts ==> ConflictTold(s, q.folds, c))
      && (forall h :: (exists c :: c in conflicts && c.human == h) <==>
            !CanBeMerged(s, q.folds, h) && exists p, r :: p != r && IsOf(s, q.folds, p, h) && IsOf(s, q.folds, r, h))
      && (forall i, j :: 0 <= i < j < |conflicts| ==> conflicts[i].human != conflicts[j].human)
  {
    hide MembersOf, IsMergeRead, VerdictFor, ConflictTold, CanBeMerged, IsOf, Candidates, RowIds;
    var humans := HumansOf(q);
    var conflicts := PlanMerge(q).conflicts;
    var f := ConflictAt(q, humans);
    KeysExactly(Candidates(q.folds, q.rows), HumanKey(q.folds));
    CollectMembers(|humans|, f);
    forall c | c in conflicts ensures ConflictTold(s, q.folds, c) {
      var i: nat :| i < |humans| && f(i) == Some(c);
      ReportTold(q, s, humans[i]);
    }
    forall h ensures (exists c :: c in conflicts && c.human == h) <==>
      !CanBeMerged(s, q.folds, h) && exists p, r :: p != r && IsOf(s, q.folds, p, h) && IsOf(s, q.folds, r, h)
    {
      MergedIff(q, s, h);
      TwoMembers(q, s, h);
      VerdictCases(q, h);
      if c :| c in conflicts && c.human == h {
        var i: nat :| i < |humans| && f(i) == Some(c);
      }
      if !VerdictFor(q, h).Merge? && |MembersOf(q.folds, q.rows, h)| >= 2 {
        MemberHasHuman(q, h);
        var i :| 0 <= i < |humans| && humans[i] == h;
        assert f(i) == Some(Conflict(h, RowIds(MembersOf(q.folds, q.rows, h)), VerdictFor(q, h)));
      }
    }
    forall i, j | 0 <= i < j < |conflicts| ensures conflicts[i].human != conflicts[j].human {
      var a, b := CollectSources(|humans|, f, i, j);
    }
  }

  lemma {:induction false} VerdictCases(q: Read, h: Human)
    ensures |MembersOf(q.folds, q.rows, h)| < 2 <==> VerdictFor(q, h).Alone?
  {
    hide MembersOf, Disagreeing, CollisionsOf, HeldBy, GroupFor;
  }

  lemma {:induction false} MemberHasHuman(q: Read, h: Human)
    requires |MembersOf(q.folds, q.rows, h)| > 0
    ensures h in HumansOf(q)
  {
    hide Candidates, HumanKey;
    var candidates := Candidates(q.folds, q.rows);
    RowsExactly(candidates, HumanKey(q.folds), h);
    KeysExactly(candidates, HumanKey(q.folds));
    assert MembersOf(q.folds, q.rows, h)[0] in RowsUnder(candidates, HumanKey(q.folds), h);
  }

  // ---- What every row is afterwards ----

  function ReservationsUnder(s: People, p: Id): set<Id> {
    set t | t in s.tickets && s.tickets[t].passengerId == p
  }

  /** More reservations, or as many on an older record, or by ID. */
  predicate GoesBefore(s: People, c: Id, p: Id)
    requires c in s.passengers && p in s.passengers
  {
    var mine, theirs := |ReservationsUnder(s, c)|, |ReservationsUnder(s, p)|;
    || mine > theirs
    || (mine == theirs && s.passengers[c].createdAt < s.passengers[p].createdAt)
    || (mine == theirs && s.passengers[c].createdAt == s.passengers[p].createdAt && StrLess(c, p))
  }

  /** The record that the human's others fold into. */
  ghost predicate IsKept(s: People, folds: Folds, h: Human, c: Id) {
    IsOf(s, folds, c, h) && forall p :: IsOf(s, folds, p, h) && p != c ==> p in s.passengers && c in s.passengers && GoesBefore(s, c, p)
  }

  function Column(row: Passenger, f: Field): Option<string> {
    match f
    case TYPE => None
    case EMAIL => row.email
    case NOTES => row.notes
  }

  /** The record kept says what it said; where it said nothing, what another of the human's records did. */
  ghost predicate IsFilled(s: People, folds: Folds, h: Human, c: Id, f: Field, after: Option<string>)
    requires c in s.passengers
  {
    if !(exists v :: Says(Column(s.passengers[c], f), v)) && exists p, v :: IsOf(s, folds, p, h) && Says(Column(s.passengers[p], f), v) then
      exists p, v :: IsOf(s, folds, p, h) && Says(Column(s.passengers[p], f), v) && after == Some(v)
    else after == Column(s.passengers[c], f)
  }

  /** The record kept: empty columns filled, live when any of the human's was, and nothing else changed. */
  ghost predicate IsKeptRow(s: People, folds: Folds, h: Human, c: Id, row: Passenger)
    requires c in s.passengers
  {
    && IsFilled(s, folds, h, c, EMAIL, row.email) && IsFilled(s, folds, h, c, NOTES, row.notes)
    && (row.isActive <==> exists p :: IsOf(s, folds, p, h) && s.passengers[p].isActive)
    && row == s.passengers[c].(email := row.email, notes := row.notes, isActive := row.isActive)
  }

  /** A merged human's records and reservations: one kept record, the others retired, every reservation on the kept one. */
  ghost predicate IsMerged(s: People, t: People, folds: Folds, h: Human, c: Id)
    requires t.passengers.Keys == s.passengers.Keys && t.tickets.Keys == s.tickets.Keys
  {
    && IsKept(s, folds, h, c) && c in s.passengers && IsKeptRow(s, folds, h, c, t.passengers[c])
    && (forall p :: p in s.passengers && IsOf(s, folds, p, h) && p != c ==> t.passengers[p] == s.passengers[p].(isActive := false))
    && forall x :: x in s.tickets && IsOf(s, folds, s.tickets[x].passengerId, h) ==> t.tickets[x] == s.tickets[x].(passengerId := c)
  }

  /** Nothing else is touched. */
  ghost predicate OthersStay(s: People, t: People, folds: Folds)
    requires t.passengers.Keys == s.passengers.Keys && t.tickets.Keys == s.tickets.Keys
  {
    && t.routes == s.routes
    && (forall p :: p in s.passengers && (forall h :: CanBeMerged(s, folds, h) ==> !IsOf(s, folds, p, h)) ==>
          t.passengers[p] == s.passengers[p] && forall x :: x in s.tickets && s.tickets[x].passengerId == p ==> t.tickets[x] == s.tickets[x])
  }

  lemma {:induction false} PreferredMeans(s: People, a: Id, b: Id)
    requires a in s.passengers && b in s.passengers
    ensures Preferred(RowFor(s, a), RowFor(s, b)) <==> GoesBefore(s, a, b)
  {
    assert TicketsOf(s.tickets, a) == ReservationsUnder(s, a) && TicketsOf(s.tickets, b) == ReservationsUnder(s, b);
  }

  lemma {:induction false} CanonicalIsKept(q: Read, s: People, h: Human)
    requires IsMergeRead(q, s) && |MembersOf(q.folds, q.rows, h)| > 0
    ensures var c := CanonicalOf(MembersOf(q.folds, q.rows, h));
      c in MembersOf(q.folds, q.rows, h) && c.id in s.passengers && c == RowFor(s, c.id) && IsKept(s, q.folds, h, c.id)
  {
    hide MembersOf, IsMergeRead, IsOf, Preferred, GoesBefore, RowFor;
    var members := MembersOf(q.folds, q.rows, h);
    ReadRows(q, s);
    MembersDistinct(q.folds, q.rows, h);
    CanonicalIsPreferred(members);
    var c := CanonicalOf(members);
    MembersAre(q, s, h, c);
    IsOfParts(s, q.folds, c.id, h);
    forall p | IsOf(s, q.folds, p, h) && p != c.id ensures p in s.passengers && GoesBefore(s, c.id, p) {
      IsOfParts(s, q.folds, p, h);
      MembersAre(q, s, h, RowFor(s, p));
      PreferredMeans(s, c.id, p);
    }
  }

  lemma {:induction false} ValueSays(row: Passenger, f: Field)
    requires f != TYPE
    ensures forall v :: Says(Column(row, f), v) <==> v != "" && v == ValueOf(row, f)
  {
    hide Says, Trim;
    forall v ensures Says(Column(row, f), v) <==> v != "" && v == ValueOf(row, f) {
      SaysIff(Column(row, f), v);
    }
  }

  /** The kept record's column, as the plan fills it. */
  lemma {:induction false} FilledColumn(q: Read, s: People, h: Human, c: Row, f: Field)
    requires IsMergeRead(q, s) && f != TYPE && c in MembersOf(q.folds, q.rows, h)
    ensures var filled := FilledFields(c.row, Others(MembersOf(q.folds, q.rows, h), c.id));
      c.id in s.passengers && IsFilled(s, q.folds, h, c.id, f, if f in filled then Some(filled[f]) else Column(c.row, f))
  {
    hide MembersOf, IsMergeRead, IsOf, Says, ValueOf, Others, FirstValue, Column, FilledFields;
    var members := MembersOf(q.folds, q.rows, h);
    var others := Others(members, c.id);
    MembersAre(q, s, h, c);
    IsOfParts(s, q.folds, c.id, h);
    ValueSays(c.row, f);
    FirstValueFinds(others, f);
    OthersExactly(members, c.id);
    FilledAt(c.row, others, f);
    forall p | IsOf(s, q.folds, p, h)
      ensures p in s.passengers && (forall v :: Says(Column(s.passengers[p], f), v) <==> v != "" && v == ValueOf(s.passengers[p], f))
      ensures p != c.id ==> RowFor(s, p) in others && RowFor(s, p).row == s.passengers[p]
    {
      IsOfParts(s, q.folds, p, h);
      ValueSays(s.passengers[p], f);
      MembersAre(q, s, h, RowFor(s, p));
    }
    if ValueOf(c.row, f) != "" {
      assert Says(Column(s.passengers[c.id], f), ValueOf(c.row, f));
    } else if FirstValue(others, f) != "" {
      var m :| m in others && ValueOf(m.row, f) == FirstValue(others, f);
      MembersAre(q, s, h, m);
      IsOfParts(s, q.folds, m.id, h);
      assert IsOf(s, q.folds, m.id, h) && Says(Column(s.passengers[m.id], f), FirstValue(others, f));
    } else {
      forall p, v | IsOf(s, q.folds, p, h) ensures !Says(Column(s.passengers[p], f), v) {
      }
    }
  }

  lemma {:induction false} FilledAt(row: Passenger, others: seq<Row>, f: Field)
    requires f != TYPE
    ensures f in FilledFields(row, others) <==> ValueOf(row, f) == "" && FirstValue(others, f) != ""
    ensures f in FilledFields(row, others) ==> FilledFields(row, others)[f] == FirstValue(others, f)
  {
    hide ValueOf, FirstValue;
  }

  lemma {:induction false} KeptRowIs(q: Read, s: People, h: Human, g: Group)
    requires IsMergeRead(q, s) && IsGroupOf(q, h, g) && g.canonical in s.passengers && g.canonical !in g.retired
    ensures IsKeptRow(s, q.folds, h, g.canonical, MergedRow(g.canonical, s.passengers[g.canonical], g))
  {
    hide MembersOf, IsMergeRead, IsOf, IsFilled, FilledFields, Others, TotalReservations, RowIds, VerdictFor;
    var members := MembersOf(q.folds, q.rows, h);
    MergeHasMembers(q, h);
    ReadRows(q, s);
    GroupMembers(q, h, g);
    CanonicalIsKept(q, s, h);
    var c := CanonicalOf(members);
    FilledColumn(q, s, h, c, EMAIL);
    FilledColumn(q, s, h, c, NOTES);
    ActiveMember(q, s, h);
  }

  lemma {:induction false} ActiveMember(q: Read, s: People, h: Human)
    requires IsMergeRead(q, s)
    ensures (exists m :: m in MembersOf(q.folds, q.rows, h) && m.row.isActive) <==> exists p :: IsOf(s, q.folds, p, h) && s.passengers[p].isActive
  {
    hide MembersOf, IsMergeRead, IsOf;
    var members := MembersOf(q.folds, q.rows, h);
    forall p | IsOf(s, q.folds, p, h) ensures p in s.passengers && RowFor(s, p) in members && RowFor(s, p).row == s.passengers[p] {
      IsOfParts(s, q.folds, p, h);
      MembersAre(q, s, h, RowFor(s, p));
    }
    if m :| m in members && m.row.isActive {
      MembersAre(q, s, h, m);
      IsOfParts(s, q.folds, m.id, h);
    }
    if p :| IsOf(s, q.folds, p, h) && s.passengers[p].isActive {
      assert RowFor(s, p) in members;
    }
  }

  /** The records of a planned group are the human's. */
  lemma {:induction false} GroupIsOf(q: Read, s: People, h: Human, g: Group, p: Id)
    requires IsMergeRead(q, s) && IsGroupOf(q, h, g)
    ensures Involves(g, p) <==> IsOf(s, q.folds, p, h)
    ensures g.canonical !in g.retired && g.canonical in s.passengers && IsKept(s, q.folds, h, g.canonical)
  {
    hide MembersOf, IsMergeRead, IsOf, VerdictFor, IsKept, Others, FilledFields, RowIds, TotalReservations;
    var members := MembersOf(q.folds, q.rows, h);
    ReadRows(q, s);
    GroupMembers(q, h, g);
    MergeHasMembers(q, h);
    CanonicalIsKept(q, s, h);
    assert g.canonical == CanonicalOf(members).id;
    if Involves(g, p) {
      var m :| m in members && m.id == p;
      MembersAre(q, s, h, m);
    }
    if IsOf(s, q.folds, p, h) {
      IsOfParts(s, q.folds, p, h);
      MembersAre(q, s, h, RowFor(s, p));
    }
  }

  lemma {:induction false} HumanIsMerged(q: Read, s: People, h: Human, g: Group)
    requires IsMergeRead(q, s) && IsGroupOf(q, h, g) && g in PlanMerge(q).groups
    ensures var t := AfterMerge(s, PlanMerge(q).groups);
      t.passengers.Keys == s.passengers.Keys && t.tickets.Keys == s.tickets.Keys && IsMerged(s, t, q.folds, h, g.canonical)
  {
    hide PlanMerge, IsMergeRead, IsGroupOf, IsOf, IsKept, IsKeptRow, WithFields;
    var groups := PlanMerge(q).groups;
    var t := AfterMerge(s, groups);
    PlannedApart(q, s);
    TicketsAfter(s, groups);
    GroupIsOf(q, s, h, g, g.canonical);
    PassengerAfter(s, groups, g.canonical);
    KeptRowIs(q, s, h, g);
    forall p | p in s.passengers && IsOf(s, q.folds, p, h) && p != g.canonical ensures t.passengers[p] == s.passengers[p].(isActive := false) {
      GroupIsOf(q, s, h, g, p);
      PassengerAfter(s, groups, p);
    }
    forall x | x in s.tickets && IsOf(s, q.folds, s.tickets[x].passengerId, h) ensures t.tickets[x] == s.tickets[x].(passengerId := g.canonical) {
      GroupIsOf(q, s, h, g, s.tickets[x].passengerId);
      NewOwnerIs(groups, s.tickets[x].passengerId);
      OwnerInGroup(groups, g, s.tickets[x].passengerId);
    }
  }

  lemma {:induction false} OwnerInGroup(groups: seq<Group>, g: Group, p: Id)
    requires Apart(groups) && g in groups && Involves(g, p)
    ensures NewOwner(groups, p) == g.canonical
  {
    NewOwnerIs(groups, p);
    if p !in g.retired {
      var j :| 0 <= j < |groups| && groups[j] == g;
      forall f | f in groups ensures p !in f.retired {
        var i :| 0 <= i < |groups| && groups[i] == f;
        if i < j {
          assert Involves(groups[j], p);
        } else if j < i {
          assert Involves(groups[j], p);
        }
      }
    }
  }

  /**
   * A plan applied: the records of exactly the humans that can be merged are, each onto the
   * record that goes before all their others, and nothing else in the tables changes.
   */
  lemma {:induction false} MergeMeans(q: Read, s: People)
    requires IsMergeRead(q, s)
    ensures var t := AfterMerge(s, PlanMerge(q).groups);
      && t.passengers.Keys == s.passengers.Keys && t.tickets.Keys == s.tickets.Keys
      && (forall h :: CanBeMerged(s, q.folds, h) ==> exists c :: IsMerged(s, t, q.folds, h, c))
      && OthersStay(s, t, q.folds)
  {
    hide PlanMerge, IsMergeRead, IsMerged, IsOf, CanBeMerged, VerdictFor, AfterMerge;
    var groups := PlanMerge(q).groups;
    var t := AfterMerge(s, groups);
    PlannedApart(q, s);
    TicketsAfter(s, groups);
    forall h | CanBeMerged(s, q.folds, h) ensures exists c :: IsMerged(s, t, q.folds, h, c) {
      MergedIff(q, s, h);
      EveryMergeIsPlanned(q, h);
      HumanIsMerged(q, s, h, VerdictFor(q, h).group);
    }
    forall p | p in s.passengers && forall h :: CanBeMerged(s, q.folds, h) ==> !IsOf(s, q.folds, p, h)
      ensures t.passengers[p] == s.passengers[p] && forall x :: x in s.tickets && s.tickets[x].passengerId == p ==> t.tickets[x] == s.tickets[x]
    {
      StaysAsItWas(q, s, p);
    }
  }

  lemma {:induction false} StaysAsItWas(q: Read, s: People, p: Id)
    requires IsMergeRead(q, s) && p in s.passengers && forall h :: CanBeMerged(s, q.folds, h) ==> !IsOf(s, q.folds, p, h)
    ensures var t := AfterMerge(s, PlanMerge(q).groups);
      && p in t.passengers && t.passengers[p] == s.passengers[p]
      && forall x :: x in s.tickets && s.tickets[x].passengerId == p ==> x in t.tickets && t.tickets[x] == s.tickets[x]
  {
    hide PlanMerge, IsMergeRead, IsOf, CanBeMerged, VerdictFor, AfterMerge;
    var groups := PlanMerge(q).groups;
    PlannedGroups(q);
    PlannedApart(q, s);
    forall g | g in groups ensures !Involves(g, p) {
      var h :| IsGroupOf(q, h, g);
      MergedIff(q, s, h);
      GroupIsOf(q, s, h, g, p);
    }
    PassengerAfter(s, groups, p);
    TicketsAfter(s, groups);
    NewOwnerIs(groups, p);
  }

  /** There is one record to keep: the others all come after it. */
  lemma {:induction false} OneIsKept(s: People, folds: Folds, h: Human, c: Id, d: Id)
    requires IsKept(s, folds, h, c) && IsKept(s, folds, h, d)
    ensures c == d
  {
    StrLessTrichotomy(c, d);
  }

  // ---- What is counted ----

  /** The records a merge keeps, and the ones it retires. */
  ghost function KeptRecords(s: People, folds: Folds): set<Id> {
    set p | p in s.passengers && exists h :: CanBeMerged(s, folds, h) && IsKept(s, folds, h, p)
  }

  ghost function RetiredRecords(s: People, folds: Folds): set<Id> {
    set p | p in s.passengers && exists h :: CanBeMerged(s, folds, h) && IsOf(s, folds, p, h) && !IsKept(s, folds, h, p)
  }

  function IdSet(ids: seq<Id>): set<Id> {
    set p | p in ids
  }

  lemma {:induction false} IdsCounted(ids: seq<Id>)
    requires Distinct(ids)
    ensures |IdSet(ids)| == |ids|
  {
    if |ids| > 0 {
      var front, last := ids[..|ids| - 1], ids[|ids| - 1];
      assert ids == front + [last];
      IdsCounted(front);
      assert IdSet(ids) == IdSet(front) + {last};
    }
  }

  function CanonicalsOf(groups: seq<Group>): set<Id> {
    set g | g in groups :: g.canonical
  }

  function RetiredOf(groups: seq<Group>): set<Id> {
    if |groups| == 0 then {} else RetiredOf(groups[..|groups| - 1]) + IdSet(groups[|groups| - 1].retired)
  }

  lemma {:induction false} RetiredOfIs(groups: seq<Group>)
    ensures forall p :: p in RetiredOf(groups) <==> exists g :: g in groups && p in g.retired
  {
    if |groups| > 0 {
      RetiredOfIs(groups[..|groups| - 1]);
      assert groups == groups[..|groups| - 1] + [groups[|groups| - 1]];
    }
  }

  lemma {:induction false} GroupsCounted(groups: seq<Group>)
    requires Apart(groups) && forall g :: g in groups ==> Distinct(g.retired)
    ensures |CanonicalsOf(groups)| == |groups| && |RetiredOf(groups)| == RetiredInAll(groups)
  {
    if |groups| > 0 {
      var front, last := groups[..|groups| - 1], groups[|groups| - 1];
      assert groups == front + [last];
      ApartFront(groups);
      GroupsCounted(front);
      IdsCounted(last.retired);
      RetiredOfIs(front);
      forall g, p | g in front && Involves(g, p) ensures !Involves(last, p) {
        var i :| 0 <= i < |front| && front[i] == g;
        assert groups[i] == g && Involves(groups[i], p);
      }
      LastApart(front, last);
    }
  }

  lemma {:induction false} LastApart(front: seq<Group>, last: Group)
    requires forall g, p :: g in front && Involves(g, p) ==> !Involves(last, p)
    ensures |CanonicalsOf(front + [last])| == |CanonicalsOf(front)| + 1
    ensures RetiredOf(front) !! IdSet(last.retired)
  {
    assert CanonicalsOf(front + [last]) == CanonicalsOf(front) + {last.canonical};
    RetiredOfIs(front);
    assert forall g :: g in front ==> Involves(g, g.canonical);
    assert Involves(last, last.canonical);
    forall p | p in RetiredOf(front) ensures p !in last.retired {
      var g :| g in front && p in g.retired;
      assert Involves(g, p);
    }
  }

  lemma {:induction false} RetiredDistinct(q: Read, s: People, h: Human, g: Group)
    requires IsMergeRead(q, s) && IsGroupOf(q, h, g)
    ensures Distinct(g.retired)
  {
    hide MembersOf, IsMergeRead, VerdictFor, Others, FilledFields, TotalReservations;
    var members := MembersOf(q.folds, q.rows, h);
    ReadRows(q, s);
    GroupMembers(q, h, g);
    MembersDistinct(q.folds, q.rows, h);
    OthersDistinct(members, g.canonical);
  }

  /** As many humans are reported merged as records are kept, and as many rows retired as are. */
  lemma {:induction false} MergeCounts(q: Read, s: People)
    requires IsMergeRead(q, s)
    ensures var groups := PlanMerge(q).groups;
      |groups| == |KeptRecords(s, q.folds)| && RetiredInAll(groups) == |RetiredRecords(s, q.folds)|
  {
    hide PlanMerge, IsMergeRead, IsGroupOf, IsOf, IsKept, CanBeMerged, Distinct, VerdictFor;
    var groups := PlanMerge(q).groups;
    PlannedGroups(q);
    PlannedApart(q, s);
    forall g | g in groups ensures Distinct(g.retired) {
      var h :| IsGroupOf(q, h, g);
      RetiredDistinct(q, s, h, g);
    }
    GroupsCounted(groups);
    RetiredOfIs(groups);
    forall p ensures p in KeptRecords(s, q.folds) <==> p in CanonicalsOf(groups) {
      KeptIff(q, s, p);
    }
    forall p ensures p in RetiredRecords(s, q.folds) <==> p in RetiredOf(groups) {
      RetiredIff(q, s, p);
    }
    assert KeptRecords(s, q.folds) == CanonicalsOf(groups) && RetiredRecords(s, q.folds) == RetiredOf(groups);
  }

  lemma {:induction false} GroupOfHuman(q: Read, s: People, h: Human) returns (g: Group)
    requires IsMergeRead(q, s) && CanBeMerged(s, q.folds, h)
    ensures g in PlanMerge(q).groups && IsGroupOf(q, h, g)
  {
    hide PlanMerge, IsMergeRead, VerdictFor, CanBeMerged;
    MergedIff(q, s, h);
    EveryMergeIsPlanned(q, h);
    g := VerdictFor(q, h).group;
  }

  lemma {:induction false} HumanOfGroup(q: Read, s: People, g: Group) returns (h: Human)
    requires IsMergeRead(q, s) && g in PlanMerge(q).groups
    ensures IsGroupOf(q, h, g) && CanBeMerged(s, q.folds, h)
  {
    hide PlanMerge, IsMergeRead, VerdictFor, CanBeMerged;
    PlannedGroups(q);
    h :| IsGroupOf(q, h, g);
    MergedIff(q, s, h);
  }

  lemma {:induction false} KeptIff(q: Read, s: People, p: Id)
    requires IsMergeRead(q, s)
    ensures p in KeptRecords(s, q.folds) <==> p in CanonicalsOf(PlanMerge(q).groups)
  {
    hide PlanMerge, IsMergeRead, IsGroupOf, IsOf, IsKept, CanBeMerged;
    if p in KeptRecords(s, q.folds) {
      var h :| CanBeMerged(s, q.folds, h) && IsKept(s, q.folds, h, p);
      var g := GroupOfHuman(q, s, h);
      GroupIsOf(q, s, h, g, p);
      OneIsKept(s, q.folds, h, p, g.canonical);
    }
    if g :| g in PlanMerge(q).groups && g.canonical == p {
      var h := HumanOfGroup(q, s, g);
      GroupIsOf(q, s, h, g, p);
    }
  }

  lemma {:induction false} RetiredIff(q: Read, s: People, p: Id)
    requires IsMergeRead(q, s)
    ensures p in RetiredRecords(s, q.folds) <==> p in RetiredOf(PlanMerge(q).groups)
  {
    hide PlanMerge, IsMergeRead, IsGroupOf, IsOf, IsKept, CanBeMerged, RetiredOf;
    RetiredOfIs(PlanMerge(q).groups);
    if p in RetiredRecords(s, q.folds) {
      var h :| CanBeMerged(s, q.folds, h) && IsOf(s, q.folds, p, h) && !IsKept(s, q.folds, h, p);
      var g := GroupOfHuman(q, s, h);
      GroupIsOf(q, s, h, g, p);
    }
    if g :| g in PlanMerge(q).groups && p in g.retired {
      var h := HumanOfGroup(q, s, g);
      GroupIsOf(q, s, h, g, p);
      KeptIsOf(s, q.folds, h, p);
      if IsKept(s, q.folds, h, p) {
        OneIsKept(s, q.folds, h, p, g.canonical);
      }
    }
  }

  lemma {:induction false} KeptIsOf(s: People, folds: Folds, h: Human, p: Id)
    ensures IsOf(s, folds, p, h) ==> p in s.passengers
  {
  }

  // ---- A read with a group ----

  lemma {:induction false} NothingDiffers(row: Passenger, f: Field)
    ensures !Differ(row, row, f)
  {
    hide ValueOf, Differ;
    DifferIff(row, row, f);
  }

  /** Two live records of a passenger with no reservations. */
  function Twins(row: Passenger, routes: map<Id, Route>): People {
    People(map["a" := row, "b" := row], map[], routes)
  }

  lemma {:induction false} TwinsCanBeMerged(row: Passenger, folds: Folds, routes: map<Id, Route>) returns (h: Human)
    requires folds.nameKey(row.firstName, row.lastName) != "" && |folds.phoneKey(row.phone)| >= 8 && row.isActive
    ensures CanBeMerged(Twins(row, routes), folds, h) && IsKept(Twins(row, routes), folds, h, "a")
    ensures forall p :: IsOf(Twins(row, routes), folds, p, h) <==> p == "a" || p == "b"
  {
    hide Differ;
    var s := Twins(row, routes);
    h := Human(row.tenantId, folds.nameKey(row.firstName, row.lastName), folds.phoneKey(row.phone));
    assert forall p :: IsOf(s, folds, p, h) <==> p == "a" || p == "b";
    assert "a"[0] != "b"[0] && IsOf(s, folds, "a", h) && IsOf(s, folds, "b", h);
    forall f ensures !RecordsDiffer(s, folds, h, f) {
      NothingDiffers(row, f);
    }
    assert ReservationsUnder(s, "a") == {} && ReservationsUnder(s, "b") == {};
    assert GoesBefore(s, "a", "b");
  }

  lemma {:induction false} TwinStays(row: Passenger, folds: Folds, routes: map<Id, Route>, h: Human, f: Field, after: Option<string>)
    requires forall p :: IsOf(Twins(row, routes), folds, p, h) <==> p == "a" || p == "b"
    requires IsFilled(Twins(row, routes), folds, h, "a", f, after)
    ensures after == Column(row, f)
  {
    hide IsOf, Says, Column;
  }

  lemma {:induction false} TwinsRead(row: Passenger, folds: Folds, routes: map<Id, Route>) returns (q: Read)
    ensures IsMergeRead(q, Twins(row, routes)) && q.folds == folds
  {
    var s := Twins(row, routes);
    q := Read([RowFor(s, "a"), RowFor(s, "b")], [], routes, folds);
  }

  /** Whoever can be recognised, two such records of theirs are merged: one is kept as it was, and the other retired. */
  lemma {:induction false} TwinsAreMerged(row: Passenger, folds: Folds, routes: map<Id, Route>) returns (q: Read)
    requires folds.nameKey(row.firstName, row.lastName) != "" && |folds.phoneKey(row.phone)| >= 8 && row.isActive
    ensures IsMergeRead(q, Twins(row, routes)) && q.folds == folds && PlanMerge(q).groups != []
    ensures AfterMerge(Twins(row, routes), PlanMerge(q).groups).passengers == map["a" := row, "b" := row.(isActive := false)]
  {
    hide IsMergeRead, PlanMerge, AfterMerge, IsOf, CanBeMerged, VerdictFor, IsFilled, IsKept;
    var s := Twins(row, routes);
    q := TwinsRead(row, folds, routes);
    var h := TwinsCanBeMerged(row, folds, routes);
    MergedIff(q, s, h);
    EveryMergeIsPlanned(q, h);
    MergeMeans(q, s);
    var t := AfterMerge(s, PlanMerge(q).groups);
    var c :| IsMerged(s, t, folds, h, c);
    TwinsAfter(row, folds, routes, h, t, c);
  }

  lemma {:induction false} TwinsAfter(row: Passenger, folds: Folds, routes: map<Id, Route>, h: Human, t: People, c: Id)
    requires row.isActive && IsKept(Twins(row, routes), folds, h, "a") && forall p :: IsOf(Twins(row, routes), folds, p, h) <==> p == "a" || p == "b"
    requires t.passengers.Keys == {"a", "b"} && t.tickets == map[] && IsMerged(Twins(row, routes), t, folds, h, c)
    ensures t.passengers == map["a" := row, "b" := row.(isActive := false)]
  {
    hide IsOf, IsFilled, IsKept;
    OneIsKept(Twins(row, routes), folds, h, "a", c);
    TwinStays(row, folds, routes, h, EMAIL, t.passengers["a"].email);
    TwinStays(row, folds, routes, h, NOTES, t.passengers["a"].notes);
    assert "a"[0] != "b"[0];
    assert t.passengers["a"] == row && t.passengers["b"] == row.(isActive := false);
  }
}
