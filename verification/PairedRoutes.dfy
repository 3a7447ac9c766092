/** `line-pair-alignment.ts` and the mirroring of `lines.service.ts`: one physical route travelled both ways. */
module PairedRoutes {
  import opened Basics
  import opened Timetable

  /** A stop as a pair of directions compares it. */
  type RouteStop = LineStop

  datatype PairLine = PairLine(departureStationId: Id, arrivalStationId: Id, stops: seq<RouteStop>)

  function StationsOf(stops: seq<RouteStop>): seq<Id> {
    seq(|stops|, i requires 0 <= i < |stops| => stops[i].stationId)
  }

  function InOrder(stops: seq<RouteStop>): seq<RouteStop> {
    SortBy(stops, (s: RouteStop) => s.orderIndex)
  }

  /** `orderedStopIds`. */
  function OrderedStopIds(line: PairLine): seq<Id> {
    StationsOf(InOrder(line.stops))
  }

  function Reverse<T>(xs: seq<T>): (r: seq<T>)
    ensures |r| == |xs|
    ensures forall i :: 0 <= i < |xs| ==> r[i] == xs[|xs| - 1 - i]
  {
    seq(|xs|, i requires 0 <= i < |xs| => xs[|xs| - 1 - i])
  }

  // ---- Subsequences ----

  /** Places in the haystack, from left to right, that spell the needle. */
  ghost predicate Spells<T>(needle: seq<T>, haystack: seq<T>, places: seq<nat>) {
    && |places| == |needle|
    && (forall i :: 0 <= i < |places| ==> places[i] < |haystack| && haystack[places[i]] == needle[i])
    && (forall i, j :: 0 <= i < j < |places| ==> places[i] < places[j])
  }

  ghost predicate Embeds<T>(needle: seq<T>, haystack: seq<T>) {
    exists places :: Spells(needle, haystack, places)
  }

  lemma {:induction false} EmbedsShorter<T>(needle: seq<T>, haystack: seq<T>, k: nat)
    requires k <= |needle| && Embeds(needle, haystack)
    ensures Embeds(needle[..k], haystack)
  {
    var places :| Spells(needle, haystack, places);
    assert Spells(needle[..k], haystack, places[..k]);
  }

  lemma {:induction false} EmbedsMore<T>(needle: seq<T>, haystack: seq<T>, x: T)
    requires Embeds(needle, haystack)
    ensures Embeds(needle, haystack + [x])
  {
    var places :| Spells(needle, haystack, places);
    assert Spells(needle, haystack + [x], places);
  }

  lemma {:induction false} EmbedsNext<T>(needle: seq<T>, haystack: seq<T>, x: T)
    requires Embeds(needle, haystack)
    ensures Embeds(needle + [x], haystack + [x])
  {
    var places: seq<nat> :| Spells(needle, haystack, places);
    assert Spells(needle + [x], haystack + [x], places + [|haystack|]);
  }

  /** What reading one more element can spell. */
  lemma {:induction false} EmbedsStep<T>(needle: seq<T>, haystack: seq<T>, x: T)
    requires |needle| > 0 && Embeds(needle, haystack + [x]) && !Embeds(needle, haystack)
    ensures needle[|needle| - 1] == x && Embeds(needle[..|needle| - 1], haystack)
  {
    var places :| Spells(needle, haystack + [x], places);
    var last := places[|places| - 1];
    assert last < |haystack| ==> Spells(needle, haystack, places);
    assert Spells(needle[..|needle| - 1], haystack, places[..|places| - 1]);
  }

  /** `isSubsequence`: the greedy scan finds the needle exactly when it is there. */
  method IsSubsequence<T(==)>(needle: seq<T>, haystack: seq<T>) returns (found: bool)
    ensures found <==> Embeds(needle, haystack)
  {
    hide Embeds;
    var cursor := 0;
    var i := 0;
    assert Embeds(needle[..0], haystack[..0]) by { EmptyEmbeds(haystack[..0]); assert needle[..0] == []; }
    if |needle| > 0 { NothingToSpell(needle[..1]); }
    while i < |haystack|
      invariant 0 <= i <= |haystack| && cursor <= |needle|
      invariant Embeds(needle[..cursor], haystack[..i])
      invariant cursor < |needle| ==> !Embeds(needle[..cursor + 1], haystack[..i])
    {
      var x := haystack[i];
      assert haystack[..i + 1] == haystack[..i] + [x];
      if cursor < |needle| && needle[cursor] == x {
        assert needle[..cursor + 1] == needle[..cursor] + [x];
        EmbedsNext(needle[..cursor], haystack[..i], x);
        if cursor + 1 < |needle| { NotTwoAtOnce(needle, cursor + 1, haystack[..i], x); }
        cursor := cursor + 1;
      } else {
        EmbedsMore(needle[..cursor], haystack[..i], x);
        if cursor < |needle| { NotThisOne(needle[..cursor + 1], haystack[..i], x); }
      }
      i := i + 1;
    }
    assert haystack[..|haystack|] == haystack;
    if cursor == |needle| {
      assert needle[..cursor] == needle;
    } else if Embeds(needle, haystack) {
      EmbedsShorter(needle, haystack, cursor + 1);
      assert false;
    }
    return cursor == |needle|;
  }

  lemma {:induction false} EmptyEmbeds<T>(haystack: seq<T>)
    ensures Embeds([], haystack)
  {
    assert Spells([], haystack, []);
  }

  lemma {:induction false} NothingToSpell<T>(needle: seq<T>)
    requires |needle| > 0
    ensures !Embeds(needle, [])
  {
    forall places: seq<nat> ensures !Spells(needle, [], places) {
      assert |places| > 0 ==> places[0] >= 0;
    }
  }

  lemma {:induction false} NotThisOne<T>(needle: seq<T>, haystack: seq<T>, x: T)
    requires |needle| > 0 && !Embeds(needle, haystack) && needle[|needle| - 1] != x
    ensures !Embeds(needle, haystack + [x])
  {
    hide Embeds;
    if Embeds(needle, haystack + [x]) {
      EmbedsStep(needle, haystack, x);
    }
  }

  lemma {:induction false} NotTwoAtOnce<T>(needle: seq<T>, k: nat, haystack: seq<T>, x: T)
    requires k < |needle| && !Embeds(needle[..k], haystack)
    ensures !Embeds(needle[..k + 1], haystack + [x])
  {
    hide Embeds;
    assert needle[..k + 1][..k] == needle[..k];
    if Embeds(needle[..k + 1], haystack + [x]) {
      if Embeds(needle[..k + 1], haystack) {
        EmbedsShorter(needle[..k + 1], haystack, k);
      } else {
        EmbedsStep(needle[..k + 1], haystack, x);
      }
    }
  }

  lemma {:induction false} EmbedsItself<T>(xs: seq<T>)
    ensures Embeds(xs, xs)
  {
    var places: seq<nat> := seq(|xs|, i => i);
    assert Spells(xs, xs, places);
  }

  // ---- Merging two directions ----

  /** The order both directions fit in, when one side's is the other's with stops missing. */
  ghost predicate IsMerge(forward: seq<Id>, oppositeReversed: seq<Id>, merged: Option<seq<Id>>) {
    match merged
    case None => !Embeds(forward, oppositeReversed) && !Embeds(oppositeReversed, forward)
    case Some(m) =>
      if Embeds(oppositeReversed, forward) then m == forward
      else m == oppositeReversed && Embeds(forward, oppositeReversed)
  }

  /** `mergePairedRoutes`. */
  method MergePairedRoutes(forward: seq<Id>, oppositeReversed: seq<Id>) returns (merged: Option<seq<Id>>)
    ensures IsMerge(forward, oppositeReversed, merged)
  {
    hide Embeds;
    var missing := IsSubsequence(oppositeReversed, forward);
    if missing {
      return Some(forward);
    }
    var richer := IsSubsequence(forward, oppositeReversed);
    return if richer then Some(oppositeReversed) else None;
  }

  /** A merged order is one side's own, and both sides embed in it. Only when neither embeds in the other is there none. */
  lemma {:induction false} MergeHoldsBoth(forward: seq<Id>, oppositeReversed: seq<Id>, merged: Option<seq<Id>>)
    requires IsMerge(forward, oppositeReversed, merged)
    ensures merged.None? <==> !Embeds(forward, oppositeReversed) && !Embeds(oppositeReversed, forward)
    ensures merged.Some? ==>
      && Embeds(forward, merged.value) && Embeds(oppositeReversed, merged.value)
      && (merged.value == forward || merged.value == oppositeReversed)
  {
    hide Embeds;
    EmbedsItself(forward);
    EmbedsItself(oppositeReversed);
  }

  // ---- Writing the merged order back ----

  function Kept(stations: seq<Id>, drop: set<Id>): seq<Id> {
    if |stations| == 0 then []
    else Kept(stations[..|stations| - 1], drop) + if stations[|stations| - 1] in drop then [] else [stations[|stations| - 1]]
  }

  function Ends(line: PairLine): set<Id> {
    {line.departureStationId, line.arrivalStationId}
  }

  /** The last stop at a station, which is the one a map keeps. */
  function StopAt(stops: seq<RouteStop>, station: Id): Option<RouteStop> {
    if |stops| == 0 then None
    else if stops[|stops| - 1].stationId == station then Some(stops[|stops| - 1])
    else StopAt(stops[..|stops| - 1], station)
  }

  /** A stop keeps its own flags, takes the other direction's flipped, or serves both roles. */
  function FlagsFor(line: PairLine, opposite: PairLine, station: Id, orderIndex: int): RouteStop {
    var own, mirrored := StopAt(line.stops, station), StopAt(opposite.stops, station);
    if own.Some? then LineStop(station, orderIndex, own.value.isBoarding, own.value.isDropoff)
    else if mirrored.Some? then LineStop(station, orderIndex, mirrored.value.isDropoff, mirrored.value.isBoarding)
    else LineStop(station, orderIndex, true, true)
  }

  function Numbered(line: PairLine, opposite: PairLine, stations: seq<Id>): seq<RouteStop> {
    seq(|stations|, i requires 0 <= i < |stations| => FlagsFor(line, opposite, stations[i], i + 1))
  }

  /** `stopsForDirection`. */
  function StopsForDirection(line: PairLine, merged: seq<Id>, reverse: bool, opposite: PairLine): seq<RouteStop> {
    Numbered(line, opposite, Kept(if reverse then Reverse(merged) else merged, Ends(line)))
  }

  /** Both directions written from one merged order, each judged by the flags stored before. */
  function Synced(outbound: PairLine, inbound: PairLine, merged: seq<Id>): (PairLine, PairLine) {
    (outbound.(stops := StopsForDirection(outbound, merged, false, inbound)),
     inbound.(stops := StopsForDirection(inbound, merged, true, outbound)))
  }

  function InboundReversed(inbound: PairLine): seq<Id> {
    Reverse(OrderedStopIds(inbound))
  }

  lemma {:induction false} KeptExactly(stations: seq<Id>, drop: set<Id>)
    ensures forall st :: st in Kept(stations, drop) <==> st in stations && st !in drop
  {
    if |stations| > 0 {
      KeptExactly(stations[..|stations| - 1], drop);
      assert stations == stations[..|stations| - 1] + [stations[|stations| - 1]];
    }
  }

  lemma {:induction false} KeptAll(stations: seq<Id>, drop: set<Id>)
    requires forall st :: st in stations ==> st !in drop
    ensures Kept(stations, drop) == stations
  {
    if |stations| > 0 {
      assert stations == stations[..|stations| - 1] + [stations[|stations| - 1]];
      KeptAll(stations[..|stations| - 1], drop);
    }
  }

  lemma {:induction false} KeptTwice(stations: seq<Id>, a: set<Id>, b: set<Id>)
    ensures Kept(Kept(stations, a), b) == Kept(stations, a + b)
  {
    if |stations| > 0 {
      var front, last := stations[..|stations| - 1], stations[|stations| - 1];
      KeptTwice(front, a, b);
      var k := Kept(front, a);
      assert (k + [last])[..|k|] == k && k + [] == k && Kept(k, b) + [] == Kept(k, b);
      assert Kept(front, a + b) + [] == Kept(front, a + b);
    }
  }

  lemma {:induction false} KeptEmbeds(stations: seq<Id>, drop: set<Id>)
    ensures Embeds(Kept(stations, drop), stations)
  {
    hide Embeds;
    if |stations| == 0 {
      EmptyEmbeds<Id>([]);
    } else {
      var front, last := stations[..|stations| - 1], stations[|stations| - 1];
      assert stations == front + [last];
      KeptEmbeds(front, drop);
      EmbedsMore(Kept(front, drop), front, last);
      EmbedsNext(Kept(front, drop), front, last);
      assert Kept(front, drop) + [] == Kept(front, drop);
    }
  }

  lemma {:induction false} EmbeddedMember<T>(needle: seq<T>, haystack: seq<T>, x: T)
    requires Embeds(needle, haystack) && x in needle
    ensures x in haystack
  {
    var places :| Spells(needle, haystack, places);
    var i :| 0 <= i < |needle| && needle[i] == x;
    assert haystack[places[i]] == x;
  }

  lemma {:induction false} KeptReversed(stations: seq<Id>, drop: set<Id>)
    ensures Kept(Reverse(stations), drop) == Reverse(Kept(stations, drop))
  {
    if |stations| > 0 {
      var front, last := stations[..|stations| - 1], stations[|stations| - 1];
      KeptReversed(front, drop);
      assert Reverse(stations) == [last] + Reverse(front);
      KeptCons(last, Reverse(front), drop);
      var k := Kept(front, drop);
      assert Reverse(k + [last]) == [last] + Reverse(k);
      assert k + [] == k;
    }
  }

  lemma {:induction false} KeptCons(first: Id, rest: seq<Id>, drop: set<Id>)
    ensures Kept([first] + rest, drop) == (if first in drop then [] else [first]) + Kept(rest, drop)
  {
    if |rest| == 0 {
      assert [first] + rest == [first];
      assert [first][..0] == [];
    } else {
      var front, last := rest[..|rest| - 1], rest[|rest| - 1];
      KeptCons(first, front, drop);
      assert ([first] + rest)[..|rest|] == [first] + front;
    }
  }

  /** Stops written in order are read back in order. */
  lemma {:induction false} NumberedIsOrdered(stops: seq<RouteStop>)
    requires forall i :: 0 <= i < |stops| ==> stops[i].orderIndex == i + 1
    ensures InOrder(stops) == stops
  {
    var key := (s: RouteStop) => s.orderIndex;
    SortByAscending(stops, key);
    forall x, y | x in multiset(stops) && y in multiset(stops) && key(x) == key(y) ensures x == y {
      var i :| 0 <= i < |stops| && stops[i] == x;
      var j :| 0 <= j < |stops| && stops[j] == y;
    }
    AscendingUnique(SortBy(stops, key), stops, key);
  }

  lemma {:induction false} WrittenOrder(line: PairLine, opposite: PairLine, stations: seq<Id>)
    ensures InOrder(Numbered(line, opposite, stations)) == Numbered(line, opposite, stations)
    ensures StationsOf(Numbered(line, opposite, stations)) == stations
  {
    NumberedIsOrdered(Numbered(line, opposite, stations));
  }

  /** What each direction reads as after a sync. */
  lemma {:induction false} SyncedOrders(outbound: PairLine, inbound: PairLine, merged: seq<Id>)
    ensures var (o, i) := Synced(outbound, inbound, merged);
      OrderedStopIds(o) == Kept(merged, Ends(outbound)) && InboundReversed(i) == Kept(merged, Ends(inbound))
  {
    hide InOrder, FlagsFor, Numbered, Kept;
    WrittenOrder(outbound, inbound, Kept(merged, Ends(outbound)));
    WrittenOrder(inbound, outbound, Kept(Reverse(merged), Ends(inbound)));
    KeptReversed(merged, Ends(inbound));
    ReverseTwice(Kept(merged, Ends(inbound)));
  }

  lemma {:induction false} ReverseTwice<T>(xs: seq<T>)
    ensures Reverse(Reverse(xs)) == xs
  {
  }

  /** Stops of the merged order that only this direction must leave out. */
  ghost predicate LeavesOut(merged: seq<Id>, line: PairLine, other: PairLine) {
    exists st :: st in merged && st in Ends(line) && st !in Ends(other)
  }

  lemma {:induction false} KeptEmbedsIff(merged: seq<Id>, line: PairLine, other: PairLine)
    ensures Embeds(Kept(merged, Ends(other)), Kept(merged, Ends(line))) <==> !LeavesOut(merged, line, other)
  {
    hide Embeds;
    KeptExactly(merged, Ends(line));
    KeptExactly(merged, Ends(other));
    if LeavesOut(merged, line, other) {
      var st :| st in merged && st in Ends(line) && st !in Ends(other);
      if Embeds(Kept(merged, Ends(other)), Kept(merged, Ends(line))) {
        EmbeddedMember(Kept(merged, Ends(other)), Kept(merged, Ends(line)), st);
      }
    } else {
      SameKept(merged, Ends(line) + Ends(other), Ends(other));
      KeptTwice(merged, Ends(line), Ends(other));
      KeptEmbeds(Kept(merged, Ends(line)), Ends(other));
    }
  }

  lemma {:induction false} SameKept(stations: seq<Id>, a: set<Id>, b: set<Id>)
    requires forall st :: st in stations ==> (st in a <==> st in b)
    ensures Kept(stations, a) == Kept(stations, b)
  {
    if |stations| > 0 {
      assert stations == stations[..|stations| - 1] + [stations[|stations| - 1]];
      SameKept(stations[..|stations| - 1], a, b);
    }
  }

  /**
   * After a sync the two directions conflict exactly when the merged order holds a stop only
   * the outbound line must leave out and one only the inbound line must.
   */
  lemma {:induction false} SecondMergeConflictsIff(outbound: PairLine, inbound: PairLine, merged: seq<Id>, again: Option<seq<Id>>)
    requires var (o, i) := Synced(outbound, inbound, merged); IsMerge(OrderedStopIds(o), InboundReversed(i), again)
    ensures again.None? <==> LeavesOut(merged, outbound, inbound) && LeavesOut(merged, inbound, outbound)
  {
    hide Embeds, Synced, LeavesOut;
    SyncedOrders(outbound, inbound, merged);
    KeptEmbedsIff(merged, outbound, inbound);
    KeptEmbedsIff(merged, inbound, outbound);
  }

  /** A line whose stops never repeat its own departure or arrival. */
  ghost predicate AvoidsEnds(line: PairLine) {
    forall s :: s in line.stops ==> s.stationId !in Ends(line)
  }

  lemma {:induction false} OrderedMembers(line: PairLine)
    ensures forall st :: st in OrderedStopIds(line) <==> exists s :: s in line.stops && s.stationId == st
  {
    var ordered := InOrder(line.stops);
    forall st ensures st in OrderedStopIds(line) <==> exists s :: s in line.stops && s.stationId == st {
      if st in OrderedStopIds(line) {
        var i :| 0 <= i < |ordered| && OrderedStopIds(line)[i] == st;
        assert ordered[i] in multiset(line.stops);
      }
      if s :| s in line.stops && s.stationId == st {
        assert s in multiset(ordered);
        var i :| 0 <= i < |ordered| && ordered[i] == s;
        assert OrderedStopIds(line)[i] == st;
      }
    }
  }

  /** With lines that avoid their own endpoints, a synced pair always merges again. */
  lemma {:induction false} SyncedPairAgrees(outbound: PairLine, inbound: PairLine, merged: seq<Id>, again: Option<seq<Id>>)
    requires AvoidsEnds(outbound) && AvoidsEnds(inbound)
    requires IsMerge(OrderedStopIds(outbound), InboundReversed(inbound), Some(merged))
    requires var (o, i) := Synced(outbound, inbound, merged); IsMerge(OrderedStopIds(o), InboundReversed(i), again)
    ensures again.Some?
  {
    hide Synced, IsMerge;
    MergeHoldsBoth(OrderedStopIds(outbound), InboundReversed(inbound), Some(merged));
    SecondMergeConflictsIff(outbound, inbound, merged, again);
    OrderedMembers(outbound);
    OrderedMembers(inbound);
    if merged == InboundReversed(inbound) {
      ReversedMembers(OrderedStopIds(inbound));
    }
  }

  lemma {:induction false} ReversedMembers<T>(xs: seq<T>)
    ensures forall x :: x in Reverse(xs) <==> x in xs
  {
    forall x ensures x in Reverse(xs) <==> x in xs {
      if x in xs {
        var i :| 0 <= i < |xs| && xs[i] == x;
        assert Reverse(xs)[|xs| - 1 - i] == x;
      }
    }
  }

  // ---- Idempotence ----

  lemma {:induction false} WrittenFlags(line: PairLine, opposite: PairLine, stations: seq<Id>, station: Id)
    requires station in stations
    ensures var own := StopAt(Numbered(line, opposite, stations), station);
      own.Some? && own.value.(orderIndex := 0) == FlagsFor(line, opposite, station, 0)
  {
    var stops := Numbered(line, opposite, stations);
    var front, last := stations[..|stations| - 1], stations[|stations| - 1];
    assert stations == front + [last];
    assert stops[..|stops| - 1] == Numbered(line, opposite, front);
    if last != station {
      WrittenFlags(line, opposite, front, station);
    }
  }

  /** Stops written again with their own flags are the stops already there. */
  lemma {:induction false} RewrittenSame(line: PairLine, opposite: PairLine, other: PairLine, stations: seq<Id>)
    ensures Numbered(line.(stops := Numbered(line, opposite, stations)), other, stations) == Numbered(line, opposite, stations)
  {
    var written := line.(stops := Numbered(line, opposite, stations));
    forall i | 0 <= i < |stations|
      ensures FlagsFor(written, other, stations[i], i + 1) == FlagsFor(line, opposite, stations[i], i + 1)
    {
      WrittenFlags(line, opposite, stations, stations[i]);
    }
  }

  /** A second sync, with whatever order the second merge settles on, writes both lines exactly as they are, flags and numbers included. */
  lemma {:induction false} SyncIsIdempotent(outbound: PairLine, inbound: PairLine, merged: seq<Id>, again: seq<Id>)
    requires var (o, i) := Synced(outbound, inbound, merged); IsMerge(OrderedStopIds(o), InboundReversed(i), Some(again))
    ensures var (o, i) := Synced(outbound, inbound, merged); Synced(o, i, again) == (o, i)
  {
    hide Embeds, InOrder, FlagsFor, Numbered, LeavesOut;
    var (o, i) := Synced(outbound, inbound, merged);
    SyncedOrders(outbound, inbound, merged);
    var mine, theirs := Kept(merged, Ends(outbound)), Kept(merged, Ends(inbound));
    SameOrders(outbound, inbound, merged, again);
    KeptReversed(again, Ends(inbound));
    KeptReversed(merged, Ends(inbound));
    RewrittenSame(outbound, inbound, i, mine);
    RewrittenSame(inbound, outbound, o, Kept(Reverse(merged), Ends(inbound)));
  }

  lemma {:induction false} SameOrders(outbound: PairLine, inbound: PairLine, merged: seq<Id>, again: seq<Id>)
    requires IsMerge(Kept(merged, Ends(outbound)), Kept(merged, Ends(inbound)), Some(again))
    ensures Kept(again, Ends(outbound)) == Kept(merged, Ends(outbound)) && Kept(again, Ends(inbound)) == Kept(merged, Ends(inbound))
  {
    hide Embeds;
    var mine, theirs := Kept(merged, Ends(outbound)), Kept(merged, Ends(inbound));
    KeptExactly(merged, Ends(outbound));
    KeptExactly(merged, Ends(inbound));
    KeptAll(mine, Ends(outbound));
    KeptAll(theirs, Ends(inbound));
    KeptTwice(merged, Ends(outbound), Ends(inbound));
    KeptTwice(merged, Ends(inbound), Ends(outbound));
    KeptEmbedsIff(merged, outbound, inbound);
    KeptEmbedsIff(merged, inbound, outbound);
    if again == mine {
      if !LeavesOut(merged, outbound, inbound) {
        SameKept(merged, Ends(outbound) + Ends(inbound), Ends(inbound));
      }
    }
    if again == theirs {
      if !LeavesOut(merged, inbound, outbound) {
        SameKept(merged, Ends(inbound) + Ends(outbound), Ends(outbound));
      }
    }
  }

  // ---- Mirroring an edited line ----

  /** `buildReversedStops`: last stop first, numbered again, boarding and drop-off exchanged. */
  function ReversedStops(stops: seq<RouteStop>): seq<RouteStop> {
    Flipped(SortBy(stops, (s: RouteStop) => -s.orderIndex))
  }

  function Flipped(sorted: seq<RouteStop>): seq<RouteStop> {
    seq(|sorted|, i requires 0 <= i < |sorted| => LineStop(sorted[i].stationId, i + 1, sorted[i].isDropoff, sorted[i].isBoarding))
  }

  ghost predicate IsNumbered(stops: seq<RouteStop>) {
    forall i :: 0 <= i < |stops| ==> stops[i].orderIndex == i + 1
  }

  lemma {:induction false} SortedDown(stops: seq<RouteStop>, route: seq<RouteStop>)
    requires IsNumbered(route) && multiset(stops) == multiset(route)
    ensures SortBy(stops, (s: RouteStop) => -s.orderIndex) == Reverse(route)
  {
    var key := (s: RouteStop) => -s.orderIndex;
    SortByAscending(stops, key);
    SameMultiset(route);
    forall x, y | x in multiset(route) && y in multiset(route) && key(x) == key(y) ensures x == y {
      var i :| 0 <= i < |route| && route[i] == x;
      var j :| 0 <= j < |route| && route[j] == y;
    }
    AscendingUnique(SortBy(stops, key), Reverse(route), key);
  }

  lemma {:induction false} SameMultiset<T>(xs: seq<T>)
    ensures multiset(Reverse(xs)) == multiset(xs)
  {
    if |xs| > 0 {
      var front, last := xs[..|xs| - 1], xs[|xs| - 1];
      SameMultiset(front);
      assert Reverse(xs) == [last] + Reverse(front);
      assert xs == front + [last];
    }
  }

  /** Turned round twice, a route numbered from 1 is itself again, whatever order its stops were listed in. */
  lemma {:induction false} ReversedTwice(stops: seq<RouteStop>, route: seq<RouteStop>)
    requires IsNumbered(route) && multiset(stops) == multiset(route)
    ensures ReversedStops(ReversedStops(stops)) == route
  {
    hide ReversedStops;
    ReversedIsNumbered(stops);
    var back := ReversedStops(stops);
    var again := ReversedStops(back);
    LengthOfReversed(stops, route);
    LengthOfReversed(back, back);
    forall i | 0 <= i < |route| ensures again[i] == route[i] {
      ReversedStopAt(stops, route, i);
      ReversedStopAt(back, back, |route| - 1 - i);
    }
  }

  lemma {:induction false} ReversedIsNumbered(stops: seq<RouteStop>)
    ensures IsNumbered(ReversedStops(stops))
  {
  }

  lemma {:induction false} LengthOfReversed(stops: seq<RouteStop>, route: seq<RouteStop>)
    requires multiset(stops) == multiset(route)
    ensures |ReversedStops(stops)| == |route|
  {
    assert |multiset(stops)| == |stops| && |multiset(route)| == |route|;
  }

  /** A journey the route serves: boarded at one place and left at a later one. */
  predicate Serves(stops: seq<RouteStop>, from: nat, to: nat) {
    from < to < |stops| && stops[from].isBoarding && stops[to].isDropoff
  }

  lemma {:induction false} ReversedStopAt(stops: seq<RouteStop>, route: seq<RouteStop>, i: nat)
    requires IsNumbered(route) && multiset(stops) == multiset(route) && i < |route|
    ensures |ReversedStops(stops)| == |route|
    ensures ReversedStops(stops)[|route| - 1 - i] == LineStop(route[i].stationId, |route| - i, route[i].isDropoff, route[i].isBoarding)
  {
    ReversedIsFlipped(stops, route);
    FlippedAt(route, i);
  }

  lemma {:induction false} ReversedIsFlipped(stops: seq<RouteStop>, route: seq<RouteStop>)
    requires IsNumbered(route) && multiset(stops) == multiset(route)
    ensures ReversedStops(stops) == Flipped(Reverse(route))
  {
    hide Flipped, Reverse, SortBy, IsNumbered;
    SortedDown(stops, route);
  }

  lemma {:induction false} FlippedAt(route: seq<RouteStop>, i: nat)
    requires i < |route|
    ensures |Flipped(Reverse(route))| == |route|
    ensures Flipped(Reverse(route))[|route| - 1 - i] == LineStop(route[i].stationId, |route| - i, route[i].isDropoff, route[i].isBoarding)
  {
  }

  /** Every journey out, and no other, is served the other way round on the way back. */
  lemma {:induction false} ReturnsServeTheSameJourneys(stops: seq<RouteStop>, route: seq<RouteStop>, from: nat, to: nat)
    requires IsNumbered(route) && multiset(stops) == multiset(route) && from < |route| && to < |route|
    ensures var back := ReversedStops(stops);
      var n := |route| - 1;
      && |back| == |route|
      && back[n - to].stationId == route[to].stationId && back[n - from].stationId == route[from].stationId
      && (Serves(route, from, to) <==> Serves(back, n - to, n - from))
  {
    hide ReversedStops, IsNumbered;
    ReversedStopAt(stops, route, from);
    ReversedStopAt(stops, route, to);
  }

  function KeptStops(stops: seq<RouteStop>, drop: set<Id>): seq<RouteStop> {
    if |stops| == 0 then []
    else KeptStops(stops[..|stops| - 1], drop) + if stops[|stops| - 1].stationId in drop then [] else [stops[|stops| - 1]]
  }

  function Renumbered(stops: seq<RouteStop>): seq<RouteStop> {
    seq(|stops|, i requires 0 <= i < |stops| => stops[i].(orderIndex := i + 1))
  }

  /** What a paired line is given when the other direction is edited. */
  function Mirrored(paired: PairLine, stops: seq<RouteStop>): seq<RouteStop> {
    Renumbered(KeptStops(ReversedStops(stops), Ends(paired)))
  }

  /** `syncPairedLineStopsTx`: every other line of the pair is rewritten from the edited stops. */
  method SyncPairedLines(lines: map<Id, PairLine>, paired: seq<Id>, stops: seq<RouteStop>) returns (after: map<Id, PairLine>)
    requires forall l :: l in paired ==> l in lines
    ensures after.Keys == lines.Keys
    ensures forall l :: l in lines ==> after[l] == if l in paired then lines[l].(stops := Mirrored(lines[l], stops)) else lines[l]
  {
    after := lines;
    var i := 0;
    while i < |paired|
      invariant 0 <= i <= |paired|
      invariant after.Keys == lines.Keys
      invariant forall l :: l in lines ==> after[l] == if l in paired[..i] then lines[l].(stops := Mirrored(lines[l], stops)) else lines[l]
    {
      var mirrored := Mirrored(lines[paired[i]], stops);
      after := after[paired[i] := lines[paired[i]].(stops := mirrored)];
      i := i + 1;
    }
    assert paired[..|paired|] == paired;
  }

  lemma {:induction false} KeptStopsStations(stops: seq<RouteStop>, drop: set<Id>)
    ensures StationsOf(KeptStops(stops, drop)) == Kept(StationsOf(stops), drop)
  {
    if |stops| > 0 {
      var front, last := stops[..|stops| - 1], stops[|stops| - 1];
      KeptStopsStations(front, drop);
      assert StationsOf(stops)[..|stops| - 1] == StationsOf(front);
      assert StationsOf(KeptStops(front, drop) + [last]) == StationsOf(KeptStops(front, drop)) + [last.stationId];
      assert KeptStops(front, drop) + [] == KeptStops(front, drop);
    }
  }

  lemma {:induction false} ReversedStations(stops: seq<RouteStop>, route: seq<RouteStop>)
    requires IsNumbered(route) && multiset(stops) == multiset(route)
    ensures StationsOf(ReversedStops(stops)) == Reverse(StationsOf(route))
  {
    ReversedIsFlipped(stops, route);
    FlippedStations(route);
  }

  lemma {:induction false} FlippedStations(route: seq<RouteStop>)
    ensures StationsOf(Flipped(Reverse(route))) == Reverse(StationsOf(route))
  {
  }

  lemma {:induction false} RenumberedStations(stops: seq<RouteStop>)
    ensures StationsOf(InOrder(Renumbered(stops))) == StationsOf(stops)
  {
    NumberedIsOrdered(Renumbered(stops));
    hide InOrder;
  }

  /** The mirrored line calls at the edited line's stops backwards, without its own endpoints, so the pair always merges. */
  lemma {:induction false} MirroredOrder(paired: PairLine, edited: PairLine, route: seq<RouteStop>)
    requires IsNumbered(route) && multiset(edited.stops) == multiset(route)
    ensures var mirror := paired.(stops := Mirrored(paired, edited.stops));
      && OrderedStopIds(edited) == StationsOf(route)
      && InboundReversed(mirror) == Kept(OrderedStopIds(edited), Ends(paired))
      && Embeds(InboundReversed(mirror), OrderedStopIds(edited))
  {
    hide InOrder, ReversedStops, Renumbered, KeptStops, Kept, Reverse, StationsOf, Embeds, IsNumbered;
    var back := ReversedStops(edited.stops);
    SortedUp(edited.stops, route);
    ReversedStations(edited.stops, route);
    KeptStopsStations(back, Ends(paired));
    KeptReversed(StationsOf(route), Ends(paired));
    RenumberedStations(KeptStops(back, Ends(paired)));
    ReverseTwice(Kept(StationsOf(route), Ends(paired)));
    KeptEmbeds(StationsOf(route), Ends(paired));
  }

  lemma {:induction false} SortedUp(stops: seq<RouteStop>, route: seq<RouteStop>)
    requires IsNumbered(route) && multiset(stops) == multiset(route)
    ensures InOrder(stops) == route
  {
    var key := (s: RouteStop) => s.orderIndex;
    SortByAscending(stops, key);
    forall x, y | x in multiset(route) && y in multiset(route) && key(x) == key(y) ensures x == y {
      var i :| 0 <= i < |route| && route[i] == x;
      var j :| 0 <= j < |route| && route[j] == y;
    }
    AscendingUnique(SortBy(stops, key), route, key);
  }
}
