/** Paired lines, said of stations, numbers and flags: what a sync and an edit write into each direction. */
module PairResults {
  import opened Basics
  import opened Timetable
  import opened PairedRoutes

  predicate IsEnd(line: PairLine, station: Id) {
    station == line.departureStationId || station == line.arrivalStationId
  }

  // ---- A sync ----

  /** The last stop listed at a station. */
  ghost predicate IsStopAt(stops: seq<RouteStop>, station: Id, x: RouteStop) {
    exists i :: 0 <= i < |stops| && stops[i] == x && x.stationId == station && forall j :: i < j < |stops| ==> stops[j].stationId != station
  }

  predicate CallsAt(line: PairLine, station: Id) {
    exists x :: x in line.stops && x.stationId == station
  }

  /** A stop keeps what the line let passengers do there; from the other direction's, boarding and getting off change places; a new one allows both. */
  ghost predicate HasFlags(line: PairLine, opposite: PairLine, stop: RouteStop) {
    if CallsAt(line, stop.stationId) then
      exists x :: IsStopAt(line.stops, stop.stationId, x) && stop.isBoarding == x.isBoarding && stop.isDropoff == x.isDropoff
    else if CallsAt(opposite, stop.stationId) then
      exists x :: IsStopAt(opposite.stops, stop.stationId, x) && stop.isBoarding == x.isDropoff && stop.isDropoff == x.isBoarding
    else stop.isBoarding && stop.isDropoff
  }

  /** The order's stations that are no end of the line, in that order, numbered from 1. */
  ghost predicate AreWritten(line: PairLine, opposite: PairLine, order: seq<Id>, stops: seq<RouteStop>) {
    && (exists places: seq<nat> :: PickedAt(order, StationsOf(stops), places) && forall i: nat :: i < |order| ==> (i in places <==> !IsEnd(line, order[i])))
    && (forall i :: 0 <= i < |stops| ==> stops[i].orderIndex == i + 1 && HasFlags(line, opposite, stops[i]))
  }

  lemma {:induction false} StopAtIs(stops: seq<RouteStop>, station: Id)
    ensures StopAt(stops, station).Some? <==> exists x :: x in stops && x.stationId == station
    ensures forall x :: IsStopAt(stops, station, x) <==> StopAt(stops, station) == Some(x)
  {
    if |stops| > 0 {
      var front, last := stops[..|stops| - 1], stops[|stops| - 1];
      assert stops == front + [last];
      StopAtIs(front, station);
      if last.stationId == station {
        assert IsStopAt(stops, station, last);
      } else {
        forall x ensures IsStopAt(stops, station, x) <==> IsStopAt(front, station, x) {
          OneStopLess(front, last, station, x);
        }
      }
    }
  }

  lemma {:induction false} OneStopLess(front: seq<RouteStop>, last: RouteStop, station: Id, x: RouteStop)
    requires last.stationId != station
    ensures IsStopAt(front + [last], station, x) <==> IsStopAt(front, station, x)
  {
    var stops := front + [last];
    if IsStopAt(stops, station, x) {
      var i :| 0 <= i < |stops| && stops[i] == x && x.stationId == station && forall j :: i < j < |stops| ==> stops[j].stationId != station;
      assert front[i] == x;
      assert forall j :: 0 <= j < |front| ==> front[j] == stops[j];
    }
    if IsStopAt(front, station, x) {
      var i :| 0 <= i < |front| && front[i] == x && x.stationId == station && forall j :: i < j < |front| ==> front[j].stationId != station;
      assert stops[i] == x;
      assert forall j :: i < j < |stops| ==> stops[j].stationId != station;
    }
  }

  lemma {:induction false} FlagsAre(line: PairLine, opposite: PairLine, station: Id, orderIndex: int)
    ensures HasFlags(line, opposite, FlagsFor(line, opposite, station, orderIndex))
  {
    hide StopAt, IsStopAt;
    StopAtIs(line.stops, station);
    StopAtIs(opposite.stops, station);
  }

  lemma {:induction false} KeptPicks(stations: seq<Id>, drop: set<Id>) returns (places: seq<nat>)
    ensures PickedAt(stations, Kept(stations, drop), places)
    ensures forall i: nat :: i in places <==> i < |stations| && stations[i] !in drop
  {
    if |stations| == 0 {
      places := [];
    } else {
      var front, last := stations[..|stations| - 1], stations[|stations| - 1];
      var before := KeptPicks(front, drop);
      assert stations == front + [last];
      PickedFromMore(front, last, Kept(front, drop), before);
      places := if last in drop then before else before + [|front|];
      MorePlaces(stations, drop, before);
      if last !in drop {
        PickOneMore(stations, Kept(front, drop), before, |front|);
      }
    }
  }

  lemma {:induction false} MorePlaces(stations: seq<Id>, drop: set<Id>, before: seq<nat>)
    requires |stations| > 0 && forall i: nat :: i in before <==> i < |stations| - 1 && stations[..|stations| - 1][i] !in drop
    ensures var n := |stations| - 1;
      && (forall k :: 0 <= k < |before| ==> before[k] < n)
      && forall i: nat :: i in (if stations[n] in drop then before else before + [n]) <==> i < |stations| && stations[i] !in drop
  {
    assert forall k :: 0 <= k < |before| ==> before[k] in before;
  }

  lemma {:induction false} PickedFromMore<T>(front: seq<T>, last: T, ys: seq<T>, places: seq<nat>)
    requires PickedAt(front, ys, places)
    ensures PickedAt(front + [last], ys, places)
  {
  }

  lemma {:induction false} WrittenAre(line: PairLine, opposite: PairLine, order: seq<Id>)
    ensures AreWritten(line, opposite, order, Numbered(line, opposite, Kept(order, Ends(line))))
  {
    hide FlagsFor, HasFlags, Kept, PickedAt;
    var stations := Kept(order, Ends(line));
    var stops := Numbered(line, opposite, stations);
    var places := KeptPicks(order, Ends(line));
    forall i | 0 <= i < |stops| ensures stops[i].orderIndex == i + 1 && stops[i].stationId == stations[i] && HasFlags(line, opposite, stops[i]) {
      FlagsAre(line, opposite, stations[i], i + 1);
      FlagsSite(line, opposite, stations[i], i + 1);
    }
    assert StationsOf(stops) == stations;
  }

  lemma {:induction false} FlagsSite(line: PairLine, opposite: PairLine, station: Id, orderIndex: int)
    ensures FlagsFor(line, opposite, station, orderIndex).stationId == station && FlagsFor(line, opposite, station, orderIndex).orderIndex == orderIndex
  {
  }

  /** The other way round. */
  predicate IsBackwards<T(==)>(xs: seq<T>, ys: seq<T>) {
    |xs| == |ys| && forall i :: 0 <= i < |xs| ==> ys[i] == xs[|xs| - 1 - i]
  }

  /** What a sync writes: the merged order into the line out, the same backwards into the line back, and nothing but stops. */
  lemma {:induction false} SyncMeans(outbound: PairLine, inbound: PairLine, merged: seq<Id>)
    ensures var (o, i) := Synced(outbound, inbound, merged);
      && o == outbound.(stops := o.stops) && AreWritten(outbound, inbound, merged, o.stops)
      && i == inbound.(stops := i.stops) && exists back :: IsBackwards(merged, back) && AreWritten(inbound, outbound, back, i.stops)
  {
    hide AreWritten, Numbered, Kept;
    WrittenAre(outbound, inbound, merged);
    WrittenAre(inbound, outbound, Reverse(merged));
    assert IsBackwards(merged, Reverse(merged));
  }

  /** A direction as it is compared: its stops' stations by their order. */
  ghost predicate IsOrderOf(line: PairLine, stations: seq<Id>) {
    exists ordered: seq<RouteStop> :: InKeyOrder(line.stops, ordered, (s: RouteStop) => s.orderIndex) && stations == StationsOf(ordered)
  }

  lemma {:induction false} OrderMeans(line: PairLine)
    ensures IsOrderOf(line, OrderedStopIds(line))
    ensures IsBackwards(OrderedStopIds(line), InboundReversed(line))
  {
    SortByStable(line.stops, (s: RouteStop) => s.orderIndex);
    hide SortBy, InKeyOrder;
    assert InKeyOrder(line.stops, InOrder(line.stops), (s: RouteStop) => s.orderIndex);
  }

  // ---- An edit ----

  function TurnedRound(stop: RouteStop, orderIndex: int): RouteStop {
    LineStop(stop.stationId, orderIndex, stop.isDropoff, stop.isBoarding)
  }

  /** The edited stops from the last to the first, without the line's own ends, numbered from 1, boarding and getting off exchanged. */
  ghost predicate AreMirrored(line: PairLine, edited: seq<RouteStop>, stops: seq<RouteStop>) {
    exists sorted: seq<RouteStop>, places: seq<nat> ::
      && InKeyOrder(edited, sorted, (s: RouteStop) => -s.orderIndex) && |places| == |stops| && Increasing(places)
      && (forall i: nat :: i in places <==> i < |sorted| && !IsEnd(line, sorted[i].stationId))
      && forall i :: 0 <= i < |stops| ==> places[i] < |sorted| && stops[i] == TurnedRound(sorted[places[i]], i + 1)
  }

  lemma {:induction false} KeptStopsPicks(stops: seq<RouteStop>, drop: set<Id>) returns (places: seq<nat>)
    ensures PickedAt(stops, KeptStops(stops, drop), places)
    ensures forall i: nat :: i in places <==> i < |stops| && stops[i].stationId !in drop
  {
    if |stops| == 0 {
      places := [];
    } else {
      var front, last := stops[..|stops| - 1], stops[|stops| - 1];
      var before := KeptStopsPicks(front, drop);
      assert stops == front + [last];
      PickedFromMore(front, last, KeptStops(front, drop), before);
      places := if last.stationId in drop then before else before + [|front|];
      MorePlaces(StationsOf(stops), drop, before);
      if last.stationId !in drop {
        PickOneMore(stops, KeptStops(front, drop), before, |front|);
      }
    }
  }

  /** What an edit writes into every other line of the pair. */
  lemma {:induction false} MirrorMeans(paired: PairLine, edited: seq<RouteStop>)
    ensures AreMirrored(paired, edited, Mirrored(paired, edited))
  {
    var key := (s: RouteStop) => -s.orderIndex;
    SortByStable(edited, key);
    var sorted := SortBy(edited, key);
    hide SortBy, InKeyOrder, KeptStops;
    assert InKeyOrder(edited, sorted, key);
    var back := ReversedStops(edited);
    assert back == Flipped(sorted);
    var places := KeptStopsPicks(back, Ends(paired));
    MirroredFrom(paired, sorted, back, places);
  }

  lemma {:induction false} MirroredFrom(paired: PairLine, sorted: seq<RouteStop>, back: seq<RouteStop>, places: seq<nat>)
    requires back == Flipped(sorted) && PickedAt(back, KeptStops(back, Ends(paired)), places)
    requires forall i: nat :: i in places <==> i < |back| && back[i].stationId !in Ends(paired)
    ensures var stops := Renumbered(KeptStops(back, Ends(paired)));
      && |places| == |stops| && Increasing(places)
      && (forall i: nat :: i in places <==> i < |sorted| && !IsEnd(paired, sorted[i].stationId))
      && forall i :: 0 <= i < |stops| ==> places[i] < |sorted| && stops[i] == TurnedRound(sorted[places[i]], i + 1)
  {
    hide KeptStops;
  }
}
