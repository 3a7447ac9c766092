/** `seatHelpers.ts` and `reservationReturnHelpers.ts`: seats for the way back. */
module ReturnSeats {
  import opened Basics
  import opened Timetable
  import opened Segments

  datatype Station = Station(stationId: Id, order: int, isBoarding: bool, isDropoff: bool)

  datatype SeatHold = SeatHold(seatNumber: int, departureStationId: Id, arrivalStationId: Id, active: bool)

  datatype Outbound = Outbound(passengerId: Id, seatNumber: int, returnOfReservationId: Option<Id>)

  /** The request for the way back: linked by reservation when there is one, and by place in the list otherwise. */
  datatype ReturnRequest = ReturnRequest(passengerId: Id, seatNumber: int, returnOfIndex: Option<nat>)

  datatype Refusal = STATIONS_NOT_SERVED | NOT_A_BOARDING_STATION | NOT_A_DROPOFF_STATION | NO_SEAT

  // ---- Stations ----

  function Intermediate(stops: seq<LineStop>): seq<LineStop> {
    SortBy(stops, (s: LineStop) => s.orderIndex)
  }

  /** `getOrderedStations`. */
  function OrderedStations(line: Line): (stations: seq<Station>)
    ensures |stations| == |line.intermediateStops| + 2
    ensures forall i :: 0 <= i < |stations| ==> stations[i].order == i
    ensures stations[0].isBoarding && !stations[0].isDropoff
    ensures !stations[|stations| - 1].isBoarding && stations[|stations| - 1].isDropoff
  {
    var middle := Intermediate(line.intermediateStops);
    [Station(line.departureStationId, 0, true, false)]
      + seq(|middle|, i requires 0 <= i < |middle| => Station(middle[i].stationId, i + 1, middle[i].isBoarding, middle[i].isDropoff))
      + [Station(line.arrivalStationId, |middle| + 1, false, true)]
  }

  function FindStation(stations: seq<Station>, id: Id): Option<Station> {
    if |stations| == 0 then None
    else if stations[0].stationId == id then Some(stations[0])
    else FindStation(stations[1..], id)
  }

  // ---- Conflicts ----

  /** The three ways the source asks whether two journeys meet. */
  predicate ThreeWay(dep: int, arr: int, otherDep: int, otherArr: int) {
    || (dep >= otherDep && dep < otherArr)
    || (arr > otherDep && arr <= otherArr)
    || (dep <= otherDep && arr >= otherArr)
  }

  /**
   * For a journey forwards, the three tests together are half-open overlap exactly when the
   * other journey is forwards too, or is not wrapped by this one.
   */
  lemma {:induction false} ThreeWayIsOverlapIff(dep: int, arr: int, otherDep: int, otherArr: int)
    requires dep < arr
    ensures (ThreeWay(dep, arr, otherDep, otherArr) <==> Overlap(Segment(dep, arr), Segment(otherDep, otherArr)))
      <==> otherDep < otherArr || dep > otherDep || arr < otherArr
  {
  }

  /** A live holding of the seat whose stations are known and whose journey meets this one. */
  predicate Meets(hold: SeatHold, seat: int, dep: int, arr: int, stations: seq<Station>) {
    && hold.seatNumber == seat && hold.active
    && FindStation(stations, hold.departureStationId).Some? && FindStation(stations, hold.arrivalStationId).Some?
    && ThreeWay(dep, arr, FindStation(stations, hold.departureStationId).value.order, FindStation(stations, hold.arrivalStationId).value.order)
  }

  predicate SeatConflict(holds: seq<SeatHold>, seat: int, departureStationId: Id, arrivalStationId: Id, stations: seq<Station>) {
    var dep, arr := FindStation(stations, departureStationId), FindStation(stations, arrivalStationId);
    dep.Some? && arr.Some? && exists hold :: hold in holds && Meets(hold, seat, dep.value.order, arr.value.order, stations)
  }

  method Find(stations: seq<Station>, id: Id) returns (found: Option<Station>)
    ensures found == FindStation(stations, id)
  {
    var i := 0;
    while i < |stations|
      invariant 0 <= i <= |stations|
      invariant FindStation(stations[i..], id) == FindStation(stations, id)
    {
      if stations[i].stationId == id {
        return Some(stations[i]);
      }
      assert stations[i..][1..] == stations[i + 1..];
      i := i + 1;
    }
    return None;
  }

  /** `checkSeatConflict`. */
  method CheckSeatConflict(holds: seq<SeatHold>, seat: int, departureStationId: Id, arrivalStationId: Id, stations: seq<Station>) returns (conflict: bool)
    ensures conflict == SeatConflict(holds, seat, departureStationId, arrivalStationId, stations)
  {
    hide FindStation;
    var dep := Find(stations, departureStationId);
    var arr := Find(stations, arrivalStationId);
    if dep.None? || arr.None? {
      return false;
    }
    var i := 0;
    while i < |holds|
      invariant 0 <= i <= |holds|
      invariant forall k :: 0 <= k < i ==> !Meets(holds[k], seat, dep.value.order, arr.value.order, stations)
    {
      var hold := holds[i];
      if hold.seatNumber == seat && hold.active {
        var otherDep := Find(stations, hold.departureStationId);
        var otherArr := Find(stations, hold.arrivalStationId);
        if otherDep.Some? && otherArr.Some?
           && ThreeWay(dep.value.order, arr.value.order, otherDep.value.order, otherArr.value.order) {
          assert hold in holds && Meets(hold, seat, dep.value.order, arr.value.order, stations);
          return true;
        }
      }
      i := i + 1;
    }
    return false;
  }

  // ---- Allocation ----

  /** The way back every request of one call rides. */
  datatype Leg = Leg(departureStationId: Id, arrivalStationId: Id, stations: seq<Station>, capacity: nat)

  predicate IsForward(leg: Leg) {
    var dep, arr := FindStation(leg.stations, leg.departureStationId), FindStation(leg.stations, leg.arrivalStationId);
    dep.Some? && arr.Some? && dep.value.order < arr.value.order
  }

  predicate Taken(holds: seq<SeatHold>, seat: int, leg: Leg) {
    SeatConflict(holds, seat, leg.departureStationId, leg.arrivalStationId, leg.stations)
  }

  function FirstFree(holds: seq<SeatHold>, seat: nat, leg: Leg): Option<int>
    decreases leg.capacity - seat
  {
    if seat >= leg.capacity then None
    else if !Taken(holds, seat + 1, leg) then Some(seat + 1)
    else FirstFree(holds, seat + 1, leg)
  }

  /** The seat of the way there when it is free, and the first free one otherwise. */
  function SeatFor(holds: seq<SeatHold>, preferred: int, leg: Leg): Option<int> {
    if !Taken(holds, preferred, leg) then Some(preferred) else FirstFree(holds, 0, leg)
  }

  function Planned(seat: int, leg: Leg): SeatHold {
    SeatHold(seat, leg.departureStationId, leg.arrivalStationId, true)
  }

  function Allocate(holds: seq<SeatHold>, requests: seq<Outbound>, leg: Leg): (seats: Option<seq<int>>)
    ensures seats.Some? ==> |seats.value| == |requests|
    decreases |requests|
  {
    if |requests| == 0 then Some([])
    else
      match SeatFor(holds, requests[0].seatNumber, leg)
      case None => None
      case Some(seat) =>
        match Allocate(holds + [Planned(seat, leg)], requests[1..], leg)
        case None => None
        case Some(rest) => Some([seat] + rest)
  }

  method FindFreeSeat(holds: seq<SeatHold>, leg: Leg) returns (seat: Option<int>)
    ensures seat == FirstFree(holds, 0, leg)
  {
    var n := 0;
    while n < leg.capacity
      invariant 0 <= n <= leg.capacity
      invariant FirstFree(holds, n, leg) == FirstFree(holds, 0, leg)
    {
      var taken := CheckSeatConflict(holds, n + 1, leg.departureStationId, leg.arrivalStationId, leg.stations);
      if !taken {
        return Some(n + 1);
      }
      n := n + 1;
    }
    return None;
  }

  function LinkBack(request: Outbound, seat: int, i: nat): ReturnRequest {
    ReturnRequest(request.passengerId, seat, if request.returnOfReservationId.None? then Some(i) else None)
  }

  function ActiveAt(holds: seq<SeatHold>): nat -> Option<SeatHold> {
    (i: nat) => if i < |holds| && holds[i].active then Some(holds[i]) else None
  }

  /** What the call refuses before it looks at a seat. */
  function StationsRefused(leg: Leg): Option<Refusal> {
    if !IsForward(leg) then Some(STATIONS_NOT_SERVED)
    else if !FindStation(leg.stations, leg.departureStationId).value.isBoarding then Some(NOT_A_BOARDING_STATION)
    else if !FindStation(leg.stations, leg.arrivalStationId).value.isDropoff then Some(NOT_A_DROPOFF_STATION)
    else None
  }

  /** The requests for the way back, or the first refusal that applies. */
  function Returns(outbound: seq<Outbound>, leg: Leg, reservations: seq<SeatHold>): Result<seq<ReturnRequest>, Refusal> {
    if StationsRefused(leg).Some? then Err(StationsRefused(leg).value)
    else
      match Allocate(Collect(|reservations|, ActiveAt(reservations)), outbound, leg)
      case None => Err(NO_SEAT)
      case Some(seats) => Ok(seq(|outbound|, i requires 0 <= i < |outbound| => LinkBack(outbound[i], seats[i], i)))
  }

  /** `buildReturnRequests`. */
  method BuildReturnRequests(outbound: seq<Outbound>, line: Line, capacity: nat, departureStationId: Id, arrivalStationId: Id, reservations: seq<SeatHold>)
    returns (result: Result<seq<ReturnRequest>, Refusal>)
    ensures result == Returns(outbound, Leg(departureStationId, arrivalStationId, OrderedStations(line), capacity), reservations)
  {
    hide FindStation, Taken, FirstFree;
    var stations := OrderedStations(line);
    var leg := Leg(departureStationId, arrivalStationId, stations, capacity);
    var dep := Find(stations, departureStationId);
    var arr := Find(stations, arrivalStationId);
    if dep.None? || arr.None? || arr.value.order <= dep.value.order {
      return Err(STATIONS_NOT_SERVED);
    }
    if !dep.value.isBoarding {
      return Err(NOT_A_BOARDING_STATION);
    }
    if !arr.value.isDropoff {
      return Err(NOT_A_DROPOFF_STATION);
    }
    var working := KeepActive(reservations);
    var seats := AllocateSeats(working, outbound, leg);
    if seats.None? {
      return Err(NO_SEAT);
    }
    return Ok(seq(|outbound|, i requires 0 <= i < |outbound| => LinkBack(outbound[i], seats.value[i], i)));
  }

  method KeepActive(reservations: seq<SeatHold>) returns (active: seq<SeatHold>)
    ensures active == Collect(|reservations|, ActiveAt(reservations))
  {
    active := [];
    var i := 0;
    while i < |reservations|
      invariant 0 <= i <= |reservations|
      invariant active == Collect(i, ActiveAt(reservations))
    {
      if reservations[i].active {
        active := active + [reservations[i]];
      }
      i := i + 1;
    }
  }

  /** The loop over the requests: each given seat is held before the next is looked for. */
  method AllocateSeats(existing: seq<SeatHold>, requests: seq<Outbound>, leg: Leg) returns (seats: Option<seq<int>>)
    ensures seats == Allocate(existing, requests, leg)
  {
    hide FirstFree;
    var working, given := existing, [];
    var i := 0;
    assert requests[0..] == requests;
    assert forall rest: seq<int> :: [] + rest == rest;
    while i < |requests|
      invariant 0 <= i <= |requests|
      invariant Allocate(existing, requests, leg) ==
        match Allocate(working, requests[i..], leg) case None => None case Some(rest) => Some(given + rest)
    {
      assert requests[i..][1..] == requests[i + 1..] && requests[i..][0] == requests[i];
      var seat := requests[i].seatNumber;
      var taken := CheckSeatConflict(working, seat, leg.departureStationId, leg.arrivalStationId, leg.stations);
      if taken {
        var free := FindFreeSeat(working, leg);
        if free.None? {
          return None;
        }
        seat := free.value;
      }
      var rest := Allocate(working + [Planned(seat, leg)], requests[i + 1..], leg);
      if rest.Some? {
        AppendAssociates(given, [seat], rest.value);
      }
      working := working + [Planned(seat, leg)];
      given := given + [seat];
      i := i + 1;
    }
    assert requests[i..] == [] && given + [] == given;
    return Some(given);
  }

  // ---- What an allocation promises ----

  lemma {:induction false} FirstFreeFinds(holds: seq<SeatHold>, seat: nat, leg: Leg)
    ensures var free := FirstFree(holds, seat, leg);
      && (free.Some? ==> seat < free.value <= leg.capacity && !Taken(holds, free.value, leg) && forall n :: seat < n < free.value ==> Taken(holds, n, leg))
      && (free.None? <==> forall n :: seat < n <= leg.capacity ==> Taken(holds, n, leg))
    decreases leg.capacity - seat
  {
    hide Taken;
    if seat < leg.capacity {
      FirstFreeFinds(holds, seat + 1, leg);
    }
  }

  /** One more planned seat takes exactly that seat. */
  lemma {:induction false} PlannedTakes(holds: seq<SeatHold>, seat: int, leg: Leg, n: int)
    requires IsForward(leg)
    ensures Taken(holds + [Planned(seat, leg)], n, leg) <==> Taken(holds, n, leg) || n == seat
  {
    hide FindStation;
    var more := holds + [Planned(seat, leg)];
    assert more[|holds|] in more;
    if Taken(holds, n, leg) {
      var dep, arr := FindStation(leg.stations, leg.departureStationId).value.order, FindStation(leg.stations, leg.arrivalStationId).value.order;
      var hold :| hold in holds && Meets(hold, n, dep, arr, leg.stations);
      assert hold in more;
    }
  }

  /** What is free to a request: not held on the way back, and not just given to another request. */
  predicate Blocked(holds: seq<SeatHold>, given: seq<int>, seat: int, leg: Leg) {
    Taken(holds, seat, leg) || seat in given
  }

  /** The seat given to a request: free, not given before, and the preferred one unless that is blocked. */
  predicate SeatRight(holds: seq<SeatHold>, given: seq<int>, preferred: int, seat: int, leg: Leg) {
    && !Taken(holds, seat, leg) && seat !in given
    && (seat == preferred || 1 <= seat <= leg.capacity)
    && (seat == preferred <==> !Blocked(holds, given, preferred, leg))
    && (seat != preferred ==> forall n :: 1 <= n < seat ==> Blocked(holds, given, n, leg))
  }

  lemma {:induction false} RightBesides(holds: seq<SeatHold>, first: int, given: seq<int>, preferred: int, seat: int, leg: Leg)
    requires IsForward(leg) && SeatRight(holds + [Planned(first, leg)], given, preferred, seat, leg)
    ensures SeatRight(holds, [first] + given, preferred, seat, leg)
  {
    hide Taken, IsForward;
    forall n
      ensures Taken(holds + [Planned(first, leg)], n, leg) <==> Taken(holds, n, leg) || n == first
      ensures Blocked(holds + [Planned(first, leg)], given, n, leg) <==> Blocked(holds, [first] + given, n, leg)
    {
      PlannedTakes(holds, first, leg, n);
    }
    hide Blocked;
  }

  lemma {:induction false} AllSeatsRight(holds: seq<SeatHold>, requests: seq<Outbound>, leg: Leg)
    requires IsForward(leg) && Allocate(holds, requests, leg).Some?
    ensures var seats := Allocate(holds, requests, leg).value;
      |seats| == |requests| && forall i :: 0 <= i < |seats| ==> SeatRight(holds, seats[..i], requests[i].seatNumber, seats[i], leg)
    decreases |requests|
  {
    hide Taken, FirstFree, IsForward;
    if |requests| > 0 {
      var seat := SeatFor(holds, requests[0].seatNumber, leg).value;
      var more := holds + [Planned(seat, leg)];
      FirstFreeFinds(holds, 0, leg);
      AllSeatsRight(more, requests[1..], leg);
      var seats, rest := Allocate(holds, requests, leg).value, Allocate(more, requests[1..], leg).value;
      assert SeatRight(holds, [], requests[0].seatNumber, seat, leg);
      hide SeatRight;
      assert seats == [seat] + rest && seats[..0] == [];
      forall i | 0 < i < |seats| ensures SeatRight(holds, seats[..i], requests[i].seatNumber, seats[i], leg) {
        assert SeatRight(more, rest[..i - 1], requests[1..][i - 1].seatNumber, rest[i - 1], leg);
        assert seats[..i] == [seat] + rest[..i - 1];
        RightBesides(holds, seat, rest[..i - 1], requests[i].seatNumber, rest[i - 1], leg);
      }
    }
  }

  /**
   * The seats are all different, none meets an existing holding, and each is the seat of the
   * way there unless that one is blocked, and then a seat of the bus.
   */
  lemma {:induction false} SeatsAreFree(holds: seq<SeatHold>, requests: seq<Outbound>, leg: Leg)
    requires IsForward(leg) && Allocate(holds, requests, leg).Some?
    ensures |Allocate(holds, requests, leg).value| == |requests|
    ensures var seats := Allocate(holds, requests, leg).value;
      && Distinct(seats)
      && (forall i :: 0 <= i < |seats| ==> !Taken(holds, seats[i], leg))
      && (forall i :: 0 <= i < |seats| ==> seats[i] == requests[i].seatNumber || 1 <= seats[i] <= leg.capacity)
      && (forall i :: 0 <= i < |seats| ==>
            (seats[i] == requests[i].seatNumber <==> !Blocked(holds, seats[..i], requests[i].seatNumber, leg)))
  {
    hide Taken, Blocked, Allocate, IsForward;
    AllSeatsRight(holds, requests, leg);
    var seats := Allocate(holds, requests, leg).value;
    forall i, j | 0 <= i < j < |seats| ensures seats[i] != seats[j] {
      assert seats[..j][i] == seats[i];
    }
  }

  /** Every seat of the bus, and the request's own, is held or already given. */
  ghost predicate Full(holds: seq<SeatHold>, given: seq<int>, preferred: int, leg: Leg) {
    Blocked(holds, given, preferred, leg) && forall n :: 1 <= n <= leg.capacity ==> Blocked(holds, given, n, leg)
  }

  ghost predicate FillsUp(holds: seq<SeatHold>, requests: seq<Outbound>, leg: Leg, k: nat) {
    && k < |requests| && Allocate(holds, requests[..k], leg).Some?
    && Full(holds, Allocate(holds, requests[..k], leg).value, requests[k].seatNumber, leg)
  }

  lemma {:induction false} FullShifts(holds: seq<SeatHold>, seat: int, given: seq<int>, preferred: int, leg: Leg)
    requires IsForward(leg)
    ensures Full(holds, [seat] + given, preferred, leg) <==> Full(holds + [Planned(seat, leg)], given, preferred, leg)
  {
    hide Taken, IsForward;
    forall n ensures Blocked(holds, [seat] + given, n, leg) <==> Blocked(holds + [Planned(seat, leg)], given, n, leg) {
      PlannedTakes(holds, seat, leg, n);
    }
  }

  /** "No seat" is said exactly when, at some request, every seat from 1 to the capacity is held or given. */
  lemma {:induction false} NoSeatIff(holds: seq<SeatHold>, requests: seq<Outbound>, leg: Leg)
    requires IsForward(leg)
    ensures Allocate(holds, requests, leg).None? <==> exists k :: FillsUp(holds, requests, leg, k)
    decreases |requests|
  {
    hide Taken, FirstFree, IsForward, Full;
    if |requests| > 0 {
      FirstFull(holds, requests, leg);
      var first := SeatFor(holds, requests[0].seatNumber, leg);
      if first.Some? {
        var more := holds + [Planned(first.value, leg)];
        NoSeatIff(more, requests[1..], leg);
        forall k: nat ensures FillsUp(more, requests[1..], leg, k) <==> FillsUp(holds, requests, leg, k + 1) {
          LaterFull(holds, requests, leg, k);
        }
        if exists k: nat :: FillsUp(holds, requests, leg, k) {
          var k: nat :| FillsUp(holds, requests, leg, k);
          assert k > 0;
          assert FillsUp(more, requests[1..], leg, k - 1);
        }
      }
    }
  }

  lemma {:induction false} FirstFull(holds: seq<SeatHold>, requests: seq<Outbound>, leg: Leg)
    requires |requests| > 0
    ensures SeatFor(holds, requests[0].seatNumber, leg).None? <==> FillsUp(holds, requests, leg, 0)
  {
    hide Taken;
    FirstFreeFinds(holds, 0, leg);
    assert requests[..0] == [];
    forall n ensures Blocked(holds, [], n, leg) <==> Taken(holds, n, leg) {
    }
  }

  lemma {:induction false} LaterFull(holds: seq<SeatHold>, requests: seq<Outbound>, leg: Leg, k: nat)
    requires IsForward(leg) && |requests| > 0 && SeatFor(holds, requests[0].seatNumber, leg).Some?
    ensures var more := holds + [Planned(SeatFor(holds, requests[0].seatNumber, leg).value, leg)];
      FillsUp(more, requests[1..], leg, k) <==> FillsUp(holds, requests, leg, k + 1)
  {
    hide Taken, FirstFree, IsForward, Full, SeatFor;
    var seat := SeatFor(holds, requests[0].seatNumber, leg).value;
    var more := holds + [Planned(seat, leg)];
    if k + 1 < |requests| {
      assert requests[..k + 1][1..] == requests[1..][..k];
      assert requests[..k + 1][0] == requests[0];
      var rest := Allocate(more, requests[1..][..k], leg);
      if rest.Some? {
        FullShifts(holds, seat, rest.value, requests[k + 1].seatNumber, leg);
      }
    }
  }

  /** A seat the allocator gives carries nobody else on any leg the passenger rides, among forward holdings with known stations. */
  lemma {:induction false} FreeMeansNoOverlap(holds: seq<SeatHold>, seat: int, leg: Leg, hold: SeatHold)
    requires IsForward(leg) && !Taken(holds, seat, leg) && hold in holds && hold.active && hold.seatNumber == seat
    requires IsForward(leg.(departureStationId := hold.departureStationId, arrivalStationId := hold.arrivalStationId))
    ensures var dep, arr := FindStation(leg.stations, leg.departureStationId), FindStation(leg.stations, leg.arrivalStationId);
      var otherDep, otherArr := FindStation(leg.stations, hold.departureStationId), FindStation(leg.stations, hold.arrivalStationId);
      !Overlap(Segment(dep.value.order, arr.value.order), Segment(otherDep.value.order, otherArr.value.order))
  {
    hide FindStation;
  }
}
