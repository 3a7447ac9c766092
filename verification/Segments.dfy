/** `route-segment.ts`: the stretch of a route one reservation holds its seat for. */
module Segments {
  import opened Basics
  import opened Timetable

  /** A line's stations, its stops already in order. */
  datatype Route = Route(departureStationId: Id, arrivalStationId: Id, stops: seq<Id>)

  datatype Segment = Segment(departureOrder: int, arrivalOrder: int)

  /** The last stop at a station wins, as a map keeps the last value set. */
  function StopIndex(stops: seq<Id>, station: Id): Option<nat> {
    if |stops| == 0 then None
    else if stops[|stops| - 1] == station then Some(|stops| - 1)
    else StopIndex(stops[..|stops| - 1], station)
  }

  /** `routeStationOrder`: the departure station 0, the stops from 1, the arrival station last. */
  function OrderOn(route: Route, station: Id): Option<int> {
    if station == route.arrivalStationId then Some(|route.stops| + 1)
    else
      match StopIndex(route.stops, station)
      case Some(i) => Some(i + 1)
      case None => if station == route.departureStationId then Some(0) else None
  }

  predicate IsOnRoute(route: Route, station: Id) {
    station == route.departureStationId || station in route.stops || station == route.arrivalStationId
  }

  /** Where a route passes a station: last at its end, else at the last stop there, else first, where it starts. */
  ghost predicate PassesAt(route: Route, station: Id, place: int) {
    if station == route.arrivalStationId then place == |route.stops| + 1
    else if station in route.stops then
      exists i :: 0 <= i < |route.stops| && route.stops[i] == station && place == i + 1 && forall j :: i < j < |route.stops| ==> route.stops[j] != station
    else station == route.departureStationId && place == 0
  }

  lemma {:induction false} StopIndexIs(stops: seq<Id>, station: Id)
    ensures StopIndex(stops, station).Some? <==> station in stops
    ensures forall i: nat :: StopIndex(stops, station) == Some(i) <==>
      i < |stops| && stops[i] == station && forall j :: i < j < |stops| ==> stops[j] != station
  {
    if |stops| > 0 {
      assert stops == stops[..|stops| - 1] + [stops[|stops| - 1]];
      StopIndexIs(stops[..|stops| - 1], station);
    }
  }

  lemma {:induction false} OrderOnIs(route: Route, station: Id)
    ensures OrderOn(route, station).Some? <==> IsOnRoute(route, station)
    ensures forall place :: PassesAt(route, station, place) <==> OrderOn(route, station) == Some(place)
  {
    hide StopIndex;
    StopIndexIs(route.stops, station);
  }

  method RouteStationOrder(route: Route) returns (order: map<Id, int>)
    ensures forall st :: (if st in order then Some(order[st]) else None) == OrderOn(route, st)
    ensures forall st :: st in order <==> IsOnRoute(route, st)
    ensures forall st :: st in order ==> PassesAt(route, st, order[st])
  {
    forall st ensures OrderOn(route, st).Some? ==> PassesAt(route, st, OrderOn(route, st).value) {
      OrderOnIs(route, st);
    }
    forall st ensures OrderOn(route, st).Some? <==> IsOnRoute(route, st) {
      OrderOnIs(route, st);
    }
    hide PassesAt, IsOnRoute;
    order := map[route.departureStationId := 0];
    var i := 0;
    while i < |route.stops|
      invariant 0 <= i <= |route.stops|
      invariant forall st :: (if st in order then Some(order[st]) else None)
                          == match StopIndex(route.stops[..i], st)
                             case Some(k) => Some(k + 1)
                             case None => if st == route.departureStationId then Some(0) else None
    {
      assert route.stops[..i + 1][..i] == route.stops[..i];
      order := order[route.stops[i] := i + 1];
      i := i + 1;
    }
    assert route.stops[..|route.stops|] == route.stops;
    order := order[route.arrivalStationId := |route.stops| + 1];
  }

  function Max(a: int, b: int): int { if a < b then b else a }

  function Min(a: int, b: int): int { if a < b then a else b }

  /** `segmentsOverlap`. */
  predicate Overlap(a: Segment, b: Segment) {
    Max(a.departureOrder, b.departureOrder) < Min(a.arrivalOrder, b.arrivalOrder)
  }

  /** `segmentCoversLeg`. */
  predicate Covers(s: Segment, leg: int) {
    s.departureOrder <= leg < s.arrivalOrder
  }

  /** Two passengers are on the bus together exactly when some leg carries both. */
  lemma {:induction false} OverlapIsSharedLeg(a: Segment, b: Segment)
    ensures Overlap(a, b) <==> exists leg :: Covers(a, leg) && Covers(b, leg)
    ensures Overlap(a, b) <==> Overlap(b, a)
  {
    if Overlap(a, b) {
      var leg := Max(a.departureOrder, b.departureOrder);
      assert Covers(a, leg) && Covers(b, leg);
    }
  }
}
