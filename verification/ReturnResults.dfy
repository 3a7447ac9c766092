/**
 * Seats for the way back, said of stations, reservations and numbers: when the call refuses and
 * why, and which seat each request is given.
 */
module ReturnResults {
  import opened Basics
  import opened Timetable
  import opened Segments
  import opened ReturnSeats

  // ---- Stations ----

  /** The line's departure station, its stops by their order, and its arrival station, numbered from 0. */
  ghost predicate ListsStations(line: Line, stations: seq<Station>) {
    exists middle: seq<LineStop> :: InKeyOrder(line.intermediateStops, middle, (s: LineStop) => s.orderIndex)
      && |stations| == |middle| + 2
      && stations[0] == Station(line.departureStationId, 0, true, false)
      && stations[|middle| + 1] == Station(line.arrivalStationId, |middle| + 1, false, true)
      && forall i :: 0 <= i < |middle| ==> stations[i + 1] == Station(middle[i].stationId, i + 1, middle[i].isBoarding, middle[i].isDropoff)
  }

  lemma {:induction false} StationsAreListed(line: Line)
    ensures ListsStations(line, OrderedStations(line))
  {
    var key := (s: LineStop) => s.orderIndex;
    SortByStable(line.intermediateStops, key);
    var middle := SortBy(line.intermediateStops, key);
    hide SortBy, InKeyOrder;
    assert middle == Intermediate(line.intermediateStops);
  }

  /** The first station listed under an ID. */
  predicate IsFound(stations: seq<Station>, id: Id, found: Station) {
    exists i :: 0 <= i < |stations| && stations[i] == found && found.stationId == id && forall j :: 0 <= j < i ==> stations[j].stationId != id
  }

  lemma {:induction false} FoundIs(stations: seq<Station>, id: Id)
    ensures FindStation(stations, id).Some? <==> exists st :: st in stations && st.stationId == id
    ensures forall st :: FindStation(stations, id) == Some(st) <==> IsFound(stations, id, st)
  {
    if |stations| > 0 && stations[0].stationId != id {
      FoundIs(stations[1..], id);
      assert stations == [stations[0]] + stations[1..];
      forall st ensures IsFound(stations, id, st) <==> IsFound(stations[1..], id, st) {
        FoundLater(stations, id, st);
      }
    }
  }

  lemma {:induction false} FoundLater(stations: seq<Station>, id: Id, st: Station)
    requires |stations| > 0 && stations[0].stationId != id
    ensures IsFound(stations, id, st) <==> IsFound(stations[1..], id, st)
  {
    var rest := stations[1..];
    assert forall j :: 0 < j < |stations| ==> stations[j] == rest[j - 1];
    if IsFound(rest, id, st) {
      var i :| 0 <= i < |rest| && rest[i] == st && st.stationId == id && forall j :: 0 <= j < i ==> rest[j].stationId != id;
      assert stations[i + 1] == st;
    }
    if IsFound(stations, id, st) {
      var i :| 0 <= i < |stations| && stations[i] == st && st.stationId == id && forall j :: 0 <= j < i ==> stations[j].stationId != id;
      assert rest[i - 1] == st;
      assert forall j :: 0 <= j < i - 1 ==> rest[j] == stations[j + 1];
    }
  }

  // ---- Whose seat is taken ----

  /** Between two stations of the line, in its order. */
  ghost predicate Runs(stations: seq<Station>, from: Id, to: Id, a: int, b: int) {
    exists x, y :: IsFound(stations, from, x) && IsFound(stations, to, y) && x.order == a && y.order == b
  }

  /**
   * A live reservation of the seat is in the way: over some leg of this journey, or, when it is
   * for a journey backwards, when it lies within this one.
   */
  ghost predicate IsInTheWay(hold: SeatHold, seat: int, leg: Leg) {
    && hold.active && hold.seatNumber == seat
    && exists a, b, c, d ::
         && Runs(leg.stations, leg.departureStationId, leg.arrivalStationId, a, b)
         && Runs(leg.stations, hold.departureStationId, hold.arrivalStationId, c, d)
         && if c < d then exists n :: Covers(Segment(a, b), n) && Covers(Segment(c, d), n) else a <= c && d <= b
  }

  lemma {:induction false} RunsIs(stations: seq<Station>, from: Id, to: Id)
    ensures forall a, b :: Runs(stations, from, to, a, b) <==>
      FindStation(stations, from).Some? && FindStation(stations, to).Some? && FindStation(stations, from).value.order == a && FindStation(stations, to).value.order == b
  {
    hide FindStation, IsFound;
    FoundIs(stations, from);
    FoundIs(stations, to);
  }

  lemma {:induction false} ThreeWayMeans(a: int, b: int, c: int, d: int)
    requires a < b
    ensures ThreeWay(a, b, c, d) <==> if c < d then exists n :: Covers(Segment(a, b), n) && Covers(Segment(c, d), n) else a <= c && d <= b
  {
    ThreeWayIsOverlapIff(a, b, c, d);
    OverlapIsSharedLeg(Segment(a, b), Segment(c, d));
  }

  lemma {:induction false} MeetsIff(hold: SeatHold, seat: int, leg: Leg)
    requires IsForward(leg)
    ensures Meets(hold, seat, FindStation(leg.stations, leg.departureStationId).value.order, FindStation(leg.stations, leg.arrivalStationId).value.order, leg.stations)
      <==> IsInTheWay(hold, seat, leg)
  {
    hide FindStation, Runs, ThreeWay;
    RunsIs(leg.stations, leg.departureStationId, leg.arrivalStationId);
    RunsIs(leg.stations, hold.departureStationId, hold.arrivalStationId);
    var a, b := FindStation(leg.stations, leg.departureStationId).value.order, FindStation(leg.stations, leg.arrivalStationId).value.order;
    if FindStation(leg.stations, hold.departureStationId).Some? && FindStation(leg.stations, hold.arrivalStationId).Some? {
      var c, d := FindStation(leg.stations, hold.departureStationId).value.order, FindStation(leg.stations, hold.arrivalStationId).value.order;
      ThreeWayMeans(a, b, c, d);
      assert Runs(leg.stations, leg.departureStationId, leg.arrivalStationId, a, b) && Runs(leg.stations, hold.departureStationId, hold.arrivalStationId, c, d);
    }
  }

  /** No reservation is in the way, and no earlier request of the call was given the seat. */
  ghost predicate IsFree(reservations: seq<SeatHold>, leg: Leg, given: seq<int>, seat: int) {
    seat !in given && forall hold :: hold in reservations ==> !IsInTheWay(hold, seat, leg)
  }

  lemma {:induction false} TakenIff(reservations: seq<SeatHold>, seat: int, leg: Leg)
    requires IsForward(leg)
    ensures Taken(Collect(|reservations|, ActiveAt(reservations)), seat, leg) <==> exists hold :: hold in reservations && IsInTheWay(hold, seat, leg)
  {
    hide FindStation, Meets, IsInTheWay;
    var holds := Collect(|reservations|, ActiveAt(reservations));
    CollectMembers(|reservations|, ActiveAt(reservations));
    var dep, arr := FindStation(leg.stations, leg.departureStationId).value.order, FindStation(leg.stations, leg.arrivalStationId).value.order;
    forall hold ensures Meets(hold, seat, dep, arr, leg.stations) <==> IsInTheWay(hold, seat, leg) {
      MeetsIff(hold, seat, leg);
    }
    forall hold ensures hold in holds <==> hold in reservations && hold.active {
      if hold in reservations && hold.active {
        var i :| 0 <= i < |reservations| && reservations[i] == hold;
        assert ActiveAt(reservations)(i) == Some(hold);
      }
    }
    forall hold | IsInTheWay(hold, seat, leg) ensures hold.active {
      InTheWayIsLive(hold, seat, leg);
    }
  }

  lemma {:induction false} InTheWayIsLive(hold: SeatHold, seat: int, leg: Leg)
    requires IsInTheWay(hold, seat, leg)
    ensures hold.active
  {
  }

  /** The request's own seat when that is free, and else the lowest free seat of the bus. */
  ghost predicate IsGiven(reservations: seq<SeatHold>, leg: Leg, given: seq<int>, preferred: int, seat: int) {
    && IsFree(reservations, leg, given, seat)
    && if IsFree(reservations, leg, given, preferred) then seat == preferred
       else 1 <= seat <= leg.capacity && forall n :: 1 <= n < seat ==> !IsFree(reservations, leg, given, n)
  }

  /** The first requests' seats, each given in turn. */
  ghost predicate AreGiven(reservations: seq<SeatHold>, leg: Leg, outbound: seq<Outbound>, seats: seq<int>) {
    |seats| <= |outbound| && forall i :: 0 <= i < |seats| ==> IsGiven(reservations, leg, seats[..i], outbound[i].seatNumber, seats[i])
  }

  /** The next request finds neither its own seat free nor any of the bus. */
  ghost predicate IsFull(reservations: seq<SeatHold>, leg: Leg, outbound: seq<Outbound>, seats: seq<int>) {
    && |seats| < |outbound| && !IsFree(reservations, leg, seats, outbound[|seats|].seatNumber)
    && forall n :: 1 <= n <= leg.capacity ==> !IsFree(reservations, leg, seats, n)
  }

  lemma {:induction false} BlockedIff(reservations: seq<SeatHold>, leg: Leg, given: seq<int>, seat: int)
    requires IsForward(leg)
    ensures Blocked(Collect(|reservations|, ActiveAt(reservations)), given, seat, leg) <==> !IsFree(reservations, leg, given, seat)
  {
    hide Taken, IsInTheWay, IsForward;
    TakenIff(reservations, seat, leg);
  }

  lemma {:induction false} RightIsGiven(reservations: seq<SeatHold>, leg: Leg, given: seq<int>, preferred: int, seat: int)
    requires IsForward(leg) && SeatRight(Collect(|reservations|, ActiveAt(reservations)), given, preferred, seat, leg)
    ensures IsGiven(reservations, leg, given, preferred, seat)
  {
    hide Taken, IsForward, IsFree;
    forall n ensures Blocked(Collect(|reservations|, ActiveAt(reservations)), given, n, leg) <==> !IsFree(reservations, leg, given, n) {
      BlockedIff(reservations, leg, given, n);
    }
  }

  lemma {:induction false} SeatsAreGiven(reservations: seq<SeatHold>, leg: Leg, outbound: seq<Outbound>)
    requires IsForward(leg) && Allocate(Collect(|reservations|, ActiveAt(reservations)), outbound, leg).Some?
    ensures AreGiven(reservations, leg, outbound, Allocate(Collect(|reservations|, ActiveAt(reservations)), outbound, leg).value)
  {
    hide SeatRight, IsForward, IsGiven, Allocate;
    var holds := Collect(|reservations|, ActiveAt(reservations));
    AllSeatsRight(holds, outbound, leg);
    var seats := Allocate(holds, outbound, leg).value;
    forall i | 0 <= i < |seats| ensures IsGiven(reservations, leg, seats[..i], outbound[i].seatNumber, seats[i]) {
      RightIsGiven(reservations, leg, seats[..i], outbound[i].seatNumber, seats[i]);
    }
  }

  lemma {:induction false} FullIs(reservations: seq<SeatHold>, leg: Leg, outbound: seq<Outbound>, k: nat) returns (seats: seq<int>)
    requires IsForward(leg) && FillsUp(Collect(|reservations|, ActiveAt(reservations)), outbound, leg, k)
    ensures AreGiven(reservations, leg, outbound, seats) && IsFull(reservations, leg, outbound, seats)
  {
    hide Taken, IsForward, IsFree, IsGiven, Blocked, Allocate;
    var holds := Collect(|reservations|, ActiveAt(reservations));
    seats := Allocate(holds, outbound[..k], leg).value;
    SeatsAreGiven(reservations, leg, outbound[..k]);
    forall n ensures Blocked(holds, seats, n, leg) <==> !IsFree(reservations, leg, seats, n) {
      BlockedIff(reservations, leg, seats, n);
    }
  }

  // ---- The call ----

  /** Both stations are on the line, in this order. */
  ghost predicate IsServed(leg: Leg) {
    exists a, b :: Runs(leg.stations, leg.departureStationId, leg.arrivalStationId, a, b) && a < b
  }

  ghost predicate MayBoard(leg: Leg) {
    exists st :: IsFound(leg.stations, leg.departureStationId, st) && st.isBoarding
  }

  ghost predicate MayLeave(leg: Leg) {
    exists st :: IsFound(leg.stations, leg.arrivalStationId, st) && st.isDropoff
  }

  lemma {:induction false} ServedIff(leg: Leg)
    ensures IsForward(leg) <==> IsServed(leg)
    ensures IsForward(leg) ==>
      (FindStation(leg.stations, leg.departureStationId).value.isBoarding <==> MayBoard(leg)) && (FindStation(leg.stations, leg.arrivalStationId).value.isDropoff <==> MayLeave(leg))
  {
    hide FindStation, IsFound, Runs;
    RunsIs(leg.stations, leg.departureStationId, leg.arrivalStationId);
    FoundIs(leg.stations, leg.departureStationId);
    FoundIs(leg.stations, leg.arrivalStationId);
    if IsForward(leg) {
      var a, b := FindStation(leg.stations, leg.departureStationId).value, FindStation(leg.stations, leg.arrivalStationId).value;
      assert Runs(leg.stations, leg.departureStationId, leg.arrivalStationId, a.order, b.order);
    }
  }

  /** Each request goes back for its passenger, and is linked by its place in the list unless it is linked by reservation. */
  ghost predicate GoBack(outbound: seq<Outbound>, requests: seq<ReturnRequest>) {
    |requests| == |outbound| && forall i: nat :: i < |outbound| ==>
      && requests[i].passengerId == outbound[i].passengerId
      && requests[i].returnOfIndex == if outbound[i].returnOfReservationId == None then Some(i) else None
  }

  /** What the call answers, and why. */
  lemma {:induction false} ReturnsMean(outbound: seq<Outbound>, leg: Leg, reservations: seq<SeatHold>)
    ensures match Returns(outbound, leg, reservations)
      case Ok(requests) =>
        && IsServed(leg) && MayBoard(leg) && MayLeave(leg) && GoBack(outbound, requests)
        && AreGiven(reservations, leg, outbound, seq(|requests|, i requires 0 <= i < |requests| => requests[i].seatNumber))
      case Err(STATIONS_NOT_SERVED) => !IsServed(leg)
      case Err(NOT_A_BOARDING_STATION) => IsServed(leg) && !MayBoard(leg)
      case Err(NOT_A_DROPOFF_STATION) => IsServed(leg) && MayBoard(leg) && !MayLeave(leg)
      case Err(NO_SEAT) =>
        && IsServed(leg) && MayBoard(leg) && MayLeave(leg)
        && exists seats :: AreGiven(reservations, leg, outbound, seats) && IsFull(reservations, leg, outbound, seats)
  {
    hide IsForward, FindStation, Allocate, AreGiven, IsFull, FillsUp, IsServed, MayBoard, MayLeave;
    ServedIff(leg);
    if IsForward(leg) {
      var holds := Collect(|reservations|, ActiveAt(reservations));
      var seats := Allocate(holds, outbound, leg);
      if seats.Some? {
        SeatsAreGiven(reservations, leg, outbound);
        var requests := seq(|outbound|, i requires 0 <= i < |outbound| => LinkBack(outbound[i], seats.value[i], i));
        assert seq(|requests|, i requires 0 <= i < |requests| => requests[i].seatNumber) == seats.value;
      } else {
        NoSeatIff(holds, outbound, leg);
        var k :| FillsUp(holds, outbound, leg, k);
        var full := FullIs(reservations, leg, outbound, k);
      }
    }
  }

  /** The seats of a call are settled: two ways of giving them agree as far as both go. */
  lemma {:induction false} OneWayToGive(reservations: seq<SeatHold>, leg: Leg, outbound: seq<Outbound>, a: seq<int>, b: seq<int>, n: nat)
    requires AreGiven(reservations, leg, outbound, a) && AreGiven(reservations, leg, outbound, b) && n <= |a| && n <= |b|
    ensures a[..n] == b[..n]
  {
    hide IsFree;
    if n > 0 {
      OneWayToGive(reservations, leg, outbound, a, b, n - 1);
      assert IsGiven(reservations, leg, a[..n - 1], outbound[n - 1].seatNumber, a[n - 1]);
      assert IsGiven(reservations, leg, a[..n - 1], outbound[n - 1].seatNumber, b[n - 1]);
    }
  }
}
