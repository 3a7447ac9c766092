/** `applyDepartureBackfill` on the stored tables: inserts, then one `updateMany` for each departure. */
module BackfillStore {
  import opened Basics
  import opened Timetable
  import opened Tables
  import opened Calendar
  import opened SyncPlan
  import opened SyncRules
  import opened DepartureStore
  import opened Backfill
  import opened BackfillCompute
  import opened BackfillTotal
  import opened BackfillApply
  import opened BackfillTheorems
  import opened BackfillLinks
  import opened BackfillKeeps

  /** The reservations to put on one departure, in the order the plan lists them. */
  function JoinersOf(links: seq<PlannedLink>, d: Id): seq<Id> {
    if |links| == 0 then []
    else JoinersOf(links[..|links| - 1], d) + if links[|links| - 1].departureId == d then [links[|links| - 1].reservationId] else []
  }

  ghost predicate EachOnceAmong(links: seq<PlannedLink>, done: set<Id>) {
    forall i, j :: 0 <= i < j < |links| && links[i].departureId in done && links[j].departureId in done ==>
      links[i].reservationId != links[j].reservationId
  }

  predicate Free(reservations: map<Id, Reservation>, r: Id) {
    r in reservations && reservations[r].departureId.None?
  }

  ghost predicate FreeAmong(links: seq<PlannedLink>, reservations: map<Id, Reservation>, done: set<Id>) {
    forall l :: l in links && l.departureId in done ==> Free(reservations, l.reservationId)
  }

  /** Every planned reservation is stored, unlinked, and planned once. */
  ghost predicate CanLink(links: seq<PlannedLink>, reservations: map<Id, Reservation>) {
    EachOnceAmong(links, Departures(links)) && FreeAmong(links, reservations, Departures(links))
  }

  /** No reservation is listed twice, and each is stored and on no departure. */
  ghost predicate EachIsFree(links: seq<PlannedLink>, reservations: map<Id, Reservation>) {
    && (forall i, j :: 0 <= i < j < |links| ==> links[i].reservationId != links[j].reservationId)
    && forall l :: l in links ==> l.reservationId in reservations && reservations[l.reservationId].departureId == None
  }

  /** Each reservation listed is on its departure and otherwise as it was, and so is every other. */
  ghost predicate LinksWritten(links: seq<PlannedLink>, before: map<Id, Reservation>, after: map<Id, Reservation>) {
    && after.Keys == before.Keys
    && (forall l :: l in links ==> l.reservationId in before && after[l.reservationId] == before[l.reservationId].(departureId := Some(l.departureId)))
    && forall r :: r in before && (forall l :: l in links ==> l.reservationId != r) ==> after[r] == before[r]
  }

  lemma {:induction false} CanLinkIff(links: seq<PlannedLink>, reservations: map<Id, Reservation>)
    ensures CanLink(links, reservations) <==> EachIsFree(links, reservations)
  {
    assert forall i :: 0 <= i < |links| ==> links[i] in links && links[i].departureId in Departures(links);
  }

  lemma {:induction false} LinkOfIs(links: seq<PlannedLink>, r: Id)
    requires forall i, j :: 0 <= i < j < |links| ==> links[i].reservationId != links[j].reservationId
    ensures forall l :: l in links && l.reservationId == r ==> LinkOf(links, r) == Some(l.departureId)
    ensures (forall l :: l in links ==> l.reservationId != r) ==> LinkOf(links, r) == None
  {
    if |links| > 0 {
      var front, last := links[..|links| - 1], links[|links| - 1];
      assert links == front + [last];
      LinkOfIs(front, r);
      forall l | l in front ensures l.reservationId != last.reservationId {
        var i :| 0 <= i < |front| && front[i] == l;
        assert links[i].reservationId != links[|front|].reservationId;
      }
    }
  }

  lemma {:induction false} LinkedIsWritten(links: seq<PlannedLink>, reservations: map<Id, Reservation>)
    requires EachIsFree(links, reservations)
    ensures LinksWritten(links, reservations, LinkedReservations(reservations, links))
  {
    hide LinkOf;
    forall r | r in reservations
      ensures forall l :: l in links && l.reservationId == r ==> LinkOf(links, r) == Some(l.departureId)
      ensures (forall l :: l in links ==> l.reservationId != r) ==> LinkOf(links, r) == None
    {
      LinkOfIs(links, r);
    }
  }

  function Departures(links: seq<PlannedLink>): set<Id> {
    set l | l in links :: l.departureId
  }

  /** The last link of a reservation to one of these departures. */
  function LinkAmong(links: seq<PlannedLink>, done: set<Id>, r: Id): Option<Id> {
    if |links| == 0 then None
    else if links[|links| - 1].reservationId == r && links[|links| - 1].departureId in done then Some(links[|links| - 1].departureId)
    else LinkAmong(links[..|links| - 1], done, r)
  }

  function LinkedAmong(reservations: map<Id, Reservation>, links: seq<PlannedLink>, done: set<Id>): map<Id, Reservation> {
    map r | r in reservations :: LinkedRow(reservations[r], LinkAmong(links, done, r))
  }

  lemma {:induction false} LinkAmongFinds(links: seq<PlannedLink>, done: set<Id>, r: Id)
    ensures LinkAmong(links, done, r).Some? ==>
      exists l :: l in links && l.reservationId == r && l.departureId in done && LinkAmong(links, done, r) == Some(l.departureId)
    ensures LinkAmong(links, done, r).None? ==> forall l :: l in links && l.departureId in done ==> l.reservationId != r
  {
    if |links| > 0 {
      LinkAmongFinds(links[..|links| - 1], done, r);
      assert links == links[..|links| - 1] + [links[|links| - 1]];
    }
  }

  lemma {:induction false} LinkAmongAll(links: seq<PlannedLink>, done: set<Id>, r: Id)
    requires forall l :: l in links ==> l.departureId in done
    ensures LinkAmong(links, done, r) == LinkOf(links, r)
  {
    if |links| > 0 {
      var front := links[..|links| - 1];
      assert links == front + [links[|links| - 1]];
      LinkAmongAll(front, done, r);
    }
  }

  lemma {:induction false} AppendDistinct(ids: seq<Id>, x: Id)
    ensures Distinct(ids + [x]) <==> Distinct(ids) && x !in ids
  {
    var all := ids + [x];
    assert forall i :: 0 <= i < |ids| ==> all[i] == ids[i];
    assert all[|ids|] == x;
  }

  lemma {:induction false} EachOnceStep(links: seq<PlannedLink>, l: PlannedLink, d: Id)
    ensures EachOnceAmong(links + [l], {d}) <==>
      EachOnceAmong(links, {d}) && (l.departureId == d ==> forall x :: x in links && x.departureId == d ==> x.reservationId != l.reservationId)
  {
    var all := links + [l];
    assert forall i :: 0 <= i < |links| ==> all[i] == links[i];
    assert all[|links|] == l;
  }

  lemma {:induction false} JoinersExactly(links: seq<PlannedLink>, d: Id)
    ensures forall r :: r in JoinersOf(links, d) <==> exists l :: l in links && l.departureId == d && l.reservationId == r
    ensures Distinct(JoinersOf(links, d)) <==> EachOnceAmong(links, {d})
  {
    hide EachOnceAmong, Distinct;
    if |links| > 0 {
      var front, last := links[..|links| - 1], links[|links| - 1];
      assert links == front + [last];
      JoinersExactly(front, d);
      EachOnceStep(front, last, d);
      AppendDistinct(JoinersOf(front, d), last.reservationId);
      assert JoinersOf(front, d) + [] == JoinersOf(front, d);
    } else {
      NobodyJoins(d);
    }
  }

  lemma {:induction false} NobodyJoins(d: Id)
    ensures JoinersOf([], d) == [] && Distinct(JoinersOf([], d)) && EachOnceAmong([], {d})
  {
  }

  /** As many rows matched as IDs asked for: each ID once, and each of them matching. */
  lemma {:induction false} CountTells(ids: seq<Id>, matched: set<Id>)
    requires forall r :: r in matched ==> r in ids
    ensures |matched| <= |ids|
    ensures |matched| == |ids| <==> Distinct(ids) && forall r :: r in ids ==> r in matched
  {
    if |ids| == 0 {
      assert matched == {};
    } else {
      var front, last := ids[..|ids| - 1], ids[|ids| - 1];
      assert ids == front + [last];
      if last in front {
        CountTells(front, matched);
        var k :| 0 <= k < |front| && front[k] == last;
        assert ids[k] == ids[|front|];
      } else {
        CountTells(front, matched - {last});
        assert last in matched ==> |matched| == |matched - {last}| + 1;
        assert last !in matched ==> matched - {last} == matched;
      }
    }
  }

  /** One group written: its reservations are linked, and the rest are as they were. */
  lemma {:induction false} GroupWritten(before: map<Id, Reservation>, links: seq<PlannedLink>, done: set<Id>, d: Id, r: Id)
    requires d !in done && r in before
    requires EachOnceAmong(links, done + {d})
    ensures LinkedRow(before[r], LinkAmong(links, done + {d}, r))
      == if Free(before, r) && LinkAmong(links, done, r).None? && r in JoinersOf(links, d) then before[r].(departureId := Some(d))
         else LinkedRow(before[r], LinkAmong(links, done, r))
  {
    JoinersExactly(links, d);
    LinkAmongFinds(links, done, r);
    LinkAmongFinds(links, done + {d}, r);
    if x :| x in links && x.reservationId == r && x.departureId in done + {d} && LinkAmong(links, done + {d}, r) == Some(x.departureId) {
      forall y | y in links && y.reservationId == r && y.departureId in done + {d} ensures y == x {
        var i :| 0 <= i < |links| && links[i] == x;
        var j :| 0 <= j < |links| && links[j] == y;
        assert i == j;
      }
    }
  }

  /** What the count of one group says about the whole plan. */
  lemma {:induction false} GroupCounts(before: map<Id, Reservation>, links: seq<PlannedLink>, done: set<Id>, d: Id, matched: set<Id>)
    requires d !in done && d in Departures(links)
    requires EachOnceAmong(links, done) && FreeAmong(links, before, done)
    requires forall r :: r in matched <==> r in JoinersOf(links, d) && Free(before, r) && LinkAmong(links, done, r).None?
    ensures |matched| == |JoinersOf(links, d)| ==> EachOnceAmong(links, done + {d}) && FreeAmong(links, before, done + {d})
    ensures |matched| != |JoinersOf(links, d)| ==> !CanLink(links, before)
  {
    var ids := JoinersOf(links, d);
    CountTells(ids, matched);
    JoinersExactly(links, d);
    forall r ensures LinkAmong(links, done, r).None? <==> forall l :: l in links && l.departureId in done ==> l.reservationId != r {
      LinkAmongFinds(links, done, r);
    }
    if |matched| == |ids| {
      forall i, j | 0 <= i < |links| && 0 <= j < |links| && links[i].departureId in done && links[j].departureId == d
        ensures links[i].reservationId != links[j].reservationId
      {
        assert links[i] in links && links[j] in links && links[j].reservationId in ids;
      }
      assert EachOnceAmong(links, {d});
    } else if CanLink(links, before) {
      EachGroupCounts(before, links, done, d, matched);
      assert false;
    }
  }

  lemma {:induction false} EachGroupCounts(before: map<Id, Reservation>, links: seq<PlannedLink>, done: set<Id>, d: Id, matched: set<Id>)
    requires d !in done && d in Departures(links) && CanLink(links, before)
    requires forall r :: r in matched <==> r in JoinersOf(links, d) && Free(before, r) && LinkAmong(links, done, r).None?
    ensures |matched| == |JoinersOf(links, d)|
  {
    var ids := JoinersOf(links, d);
    JoinersExactly(links, d);
    assert EachOnceAmong(links, {d}) by {
      assert forall i :: 0 <= i < |links| ==> links[i] in links;
    }
    forall r | r in ids ensures r in matched {
      var l :| l in links && l.departureId == d && l.reservationId == r;
      LinkAmongFinds(links, done, r);
    }
    CountTells(ids, matched);
  }

  lemma {:induction false} JoinersStep(links: seq<PlannedLink>, i: nat, d: Id)
    requires i < |links|
    ensures JoinersOf(links[..i + 1], d) == JoinersOf(links[..i], d) + if links[i].departureId == d then [links[i].reservationId] else []
  {
    assert links[..i + 1][..i] == links[..i];
  }

  method GroupLinks(links: seq<PlannedLink>) returns (groups: map<Id, seq<Id>>)
    ensures groups.Keys == Departures(links)
    ensures forall d :: Listed(groups, d) == JoinersOf(links, d)
  {
    hide JoinersOf;
    groups := map[];
    forall d ensures JoinersOf([], d) == [] { NobodyJoins(d); }
    var i := 0;
    while i < |links|
      invariant 0 <= i <= |links|
      invariant groups.Keys == Departures(links[..i])
      invariant forall d :: Listed(groups, d) == JoinersOf(links[..i], d)
    {
      assert Departures(links[..i + 1]) == Departures(links[..i]) + {links[i].departureId};
      ghost var before := groups;
      groups := AddTo(groups, links[i].departureId, links[i].reservationId);
      forall d ensures Listed(groups, d) == JoinersOf(links[..i + 1], d) {
        JoinersStep(links, i, d);
        assert Listed(before, d) == JoinersOf(links[..i], d);
      }
      i := i + 1;
    }
    assert links[..|links|] == links;
  }

  /** One `updateMany`: the reservations asked for that have no departure. */
  method LinkGroup(db: Database, d: Id, ids: seq<Id>, ghost before: map<Id, Reservation>, ghost links: seq<PlannedLink>, ghost done: set<Id>)
    returns (complete: bool)
    requires ids == JoinersOf(links, d) && d !in done && d in Departures(links)
    requires db.reservations == LinkedAmong(before, links, done) && EachOnceAmong(links, done) && FreeAmong(links, before, done)
    modifies db`reservations
    ensures complete ==> db.reservations == LinkedAmong(before, links, done + {d}) && EachOnceAmong(links, done + {d}) && FreeAmong(links, before, done + {d})
    ensures !complete ==> !CanLink(links, before)
  {
    hide JoinersOf, LinkAmong, EachOnceAmong, FreeAmong, CanLink, Departures;
    var matched := set r | r in ids && r in db.reservations && db.reservations[r].departureId.None?;
    forall r ensures r in matched <==> r in JoinersOf(links, d) && Free(before, r) && LinkAmong(links, done, r).None? {
    }
    GroupCounts(before, links, done, d, matched);
    complete := |matched| == |ids|;
    if complete {
      forall r | r in before { GroupWritten(before, links, done, d, r); }
      db.reservations := map r | r in db.reservations ::
        if r in matched then db.reservations[r].(departureId := Some(d)) else db.reservations[r];
    }
  }

  /**
   * Every link, a departure at a time. Each statement skips reservations that have a
   * departure, and one that matched fewer rows than it was given throws, which rolls back.
   */
  method LinkReservations(db: Database, links: seq<PlannedLink>) returns (complete: bool)
    modifies db`reservations
    ensures complete <==> CanLink(links, old(db.reservations))
    ensures db.reservations == if complete then LinkedReservations(old(db.reservations), links) else old(db.reservations)
  {
    hide JoinersOf, LinkAmong, EachOnceAmong, FreeAmong, Departures, LinkOf;
    var snapshot := db.reservations;
    var groups := GroupLinks(links);
    var todo := groups.Keys;
    NothingLinked(snapshot, links);
    assert groups.Keys - todo == {};
    while todo != {}
      invariant todo <= groups.Keys
      invariant db.reservations == LinkedAmong(snapshot, links, groups.Keys - todo)
      invariant EachOnceAmong(links, groups.Keys - todo) && FreeAmong(links, snapshot, groups.Keys - todo)
      decreases |todo|
    {
      var d :| d in todo;
      assert Listed(groups, d) == JoinersOf(links, d);
      assert groups.Keys - (todo - {d}) == groups.Keys - todo + {d};
      var linked := LinkGroup(db, d, groups[d], snapshot, links, groups.Keys - todo);
      if !linked {
        db.reservations := snapshot;
        return false;
      }
      todo := todo - {d};
    }
    assert groups.Keys - todo == Departures(links);
    AllLinked(snapshot, links);
    return true;
  }

  lemma {:induction false} AllLinked(reservations: map<Id, Reservation>, links: seq<PlannedLink>)
    ensures LinkedAmong(reservations, links, Departures(links)) == LinkedReservations(reservations, links)
  {
    forall r | r in reservations ensures LinkAmong(links, Departures(links), r) == LinkOf(links, r) {
      LinkAmongAll(links, Departures(links), r);
    }
  }

  lemma {:induction false} NothingLinked(reservations: map<Id, Reservation>, links: seq<PlannedLink>)
    ensures LinkedAmong(reservations, links, {}) == reservations
    ensures EachOnceAmong(links, {}) && FreeAmong(links, reservations, {})
  {
    forall r | r in reservations ensures LinkAmong(links, {}, r).None? {
      LinkAmongFinds(links, {}, r);
    }
  }

  method InsertLegacy(db: Database, creates: seq<PlannedLegacy>)
    modifies db`departures
    ensures db.departures == WithLegacy(old(db.departures), creates)
  {
    var i := 0;
    while i < |creates|
      invariant 0 <= i <= |creates|
      invariant db.departures == WithLegacy(old(db.departures), creates[..i])
    {
      var l := creates[i];
      assert creates[..i + 1][..i] == creates[..i];
      db.departures := db.departures[l.id :=
        Departure(LEGACY, l.key.rideId, l.key.date, l.lineId, l.key.departureTime, l.arrivalTime, l.capacity, None, None, None, [])];
      i := i + 1;
    }
    assert creates[..|creates|] == creates;
  }

  /** `applyDepartureBackfill`: refused whole when a manual link is invalid. */
  method ApplyDepartureBackfill(db: Database, plan: BackfillPlan, newId: PlanKey -> Id, now: int) returns (applied: bool)
    modifies db
    ensures applied <==> plan.invalidManualLinks == [] && EachIsFree(plan.links, old(db.reservations))
    ensures applied ==> LinksWritten(plan.links, old(db.reservations), db.reservations)
    ensures db.State() == if applied then AfterBackfill(old(db.State()), plan, newId, now) else old(db.State())
  {
    hide CanLink, EachIsFree, LinksWritten;
    CanLinkIff(plan.links, db.reservations);
    if |plan.invalidManualLinks| > 0 {
      return false;
    }
    if EachIsFree(plan.links, db.reservations) {
      LinkedIsWritten(plan.links, db.reservations);
    }
    var snapshot := db.departures;
    db.CreateDepartures(plan.historyCreates, newId, now);
    if |plan.legacyCreates| > 0 {
      InsertLegacy(db, plan.legacyCreates);
    }
    applied := LinkReservations(db, plan.links);
    if !applied {
      db.departures := snapshot;
    }
  }

  /** Under the lock the count check never fails: a plan links stored, unlinked reservations, once each. */
  lemma {:induction false} PlannedLinksCanBeMade(b: Input, s: Store)
    requires IsUnlinkedLoad(b.rows, s)
    ensures EachIsFree(Links(b), s.reservations)
  {
    hide Links, LinkFor, Chosen;
    forall l | l in Links(b) ensures l.reservationId in s.reservations && s.reservations[l.reservationId].departureId == None {
      LinksExactly(b, l);
      var u :| u in b.rows && LinkFor(b, Chosen(b), u) == Some(l);
      LinkForNames(b, u);
    }
    LinksOnce(b);
    var ids := LinkedIds(Links(b));
    forall i, j | 0 <= i < j < |Links(b)| ensures Links(b)[i].reservationId != Links(b)[j].reservationId {
      assert ids[i] != ids[j];
    }
  }

  lemma {:induction false} LinksOnce(b: Input)
    requires DistinctUnlinked(b.rows)
    ensures Distinct(LinkedIds(Links(b)))
  {
    hide Links, Reports, HistoryCreates, LegacyCreates, LegacyReused, ManualAfter, LinkedIds, ReportedIds;
    EveryReservationOnce(b);
    var ids := LinkedIds(Links(b));
    DistinctAsMultiset(ReservationIds(b.rows), ids);
  }

  lemma {:induction false} DistinctAsMultiset(all: seq<Id>, some: seq<Id>)
    requires Distinct(all) && multiset(some) <= multiset(all)
    ensures Distinct(some)
  {
    forall i, j | 0 <= i < j < |some| ensures some[i] != some[j] {
      if some[i] == some[j] {
        assert some == some[..i] + [some[i]] + some[i + 1..j] + [some[j]] + some[j + 1..];
        assert multiset(some)[some[i]] >= 2;
        OnceEach(all, some[i]);
      }
    }
  }

  lemma {:induction false} OnceEach(all: seq<Id>, x: Id)
    requires Distinct(all)
    ensures multiset(all)[x] <= 1
  {
    if |all| > 0 {
      var front, last := all[..|all| - 1], all[|all| - 1];
      assert all == front + [last];
      OnceEach(front, x);
      assert forall i :: 0 <= i < |front| ==> front[i] == all[i];
    }
  }

  datatype BackfillRefusal = OUT_OF_STEP | RIDE_NOT_LOADED | INVALID_MANUAL_LINKS

  /**
   * `backfillDepartures`: refused whole unless the stored window is in step, every ride was
   * loaded and every manual link is good. What it writes leaves the window in step.
   */
  method BackfillDepartures(db: Database, window: Window, q: Query, b: Input, now: int, ghost w: Window, ghost rides: seq<Ride>,
                            ghost records: seq<ExceptionRecord>)
    returns (refusal: Option<BackfillRefusal>)
    requires Ready(b, db.State(), w, rides, records)
    requires Walkable(window) && window.from == b.today && IsQuery(q, db.State(), window)
    modifies db
    ensures refusal.None? <==> InStep(old(db.State()), window) && Accepted(b)
    ensures refusal == Some(OUT_OF_STEP) <==> !InStep(old(db.State()), window)
    ensures refusal == Some(INVALID_MANUAL_LINKS) ==> PlanBackfill(b).invalidManualLinks != []
    ensures db.State() == if refusal.None? then AfterBackfill(old(db.State()), PlanBackfill(b), b.newId, now) else old(db.State())
    ensures refusal.None? ==> Valid(db.State()) && InStep(db.State(), window)
  {
    hide Ready, Walkable, IsQuery, InStep, PlanOf, Links, HistoryCreates, LegacyCreates, LegacyReused, Reports, ManualAfter, EachIsFree, LinksWritten, RidesLoaded, AfterBackfill, Valid;
    ghost var s := db.State();
    ReadyIsValid(b, s, w, rides, records);
    var sync := db.PlanDepartures(window, q);
    PlanEmptyIffInStep(q, s, window);
    if |sync.creates| + |sync.updates| + |sync.drops| + |sync.deletes| > 0 {
      return Some(OUT_OF_STEP);
    }
    assert sync == NO_CHANGES;
    var result := ComputeDepartureBackfill(b);
    if result.Err? {
      return Some(RIDE_NOT_LOADED);
    }
    PlannedLinksCanBeMade(b, s);
    var applied := ApplyDepartureBackfill(db, result.value, b.newId, now);
    if !applied {
      return Some(INVALID_MANUAL_LINKS);
    }
    BackfillKeepsValid(b, s, w, rides, records, now);
    BackfillKeepsStep(b, s, w, rides, records, now, window);
    return None;
  }

  lemma {:induction false} ReadyIsValid(b: Input, s: Store, w: Window, rides: seq<Ride>, records: seq<ExceptionRecord>)
    requires Ready(b, s, w, rides, records)
    ensures Valid(s) && IsUnlinkedLoad(b.rows, s)
  {
    hide Valid, IsUnlinkedLoad, IsRead;
    ReadyParts(b, s, w, rides, records);
  }
}
