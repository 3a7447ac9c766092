/** Where a backfill puts each reservation, as the link rule sees it afterwards. */
module BackfillLinks {
  import opened Basics
  import opened Calendar
  import opened Timetable
  import opened Tables
  import opened SyncPlan
  import opened SyncApply
  import opened LinkRule
  import opened LegacyRows
  import opened Backfill
  import opened BackfillTotal
  import opened BackfillApply
  import opened BackfillTheorems

  /** A plan the apply writes: no manual link refused, every ride loaded. */
  ghost predicate Accepted(b: Input) {
    PlanBackfill(b).invalidManualLinks == [] && RidesLoaded(b, LeftoverKeys(b))
  }

  // ---- Looking one reservation up ----

  lemma {:induction false} LinkOfMember(links: seq<PlannedLink>, r: Id)
    ensures LinkOf(links, r).Some? ==> exists l :: l in links && l.reservationId == r && LinkOf(links, r) == Some(l.departureId)
    ensures LinkOf(links, r).None? ==> forall l :: l in links ==> l.reservationId != r
  {
    if |links| > 0 {
      LinkOfMember(links[..|links| - 1], r);
      assert links == links[..|links| - 1] + [links[|links| - 1]];
    }
  }

  function LinkedTo(b: Input, u: Unlinked): Option<Id> {
    match LinkFor(b, Chosen(b), u)
    case Some(l) => Some(l.departureId)
    case None => None
  }

  lemma {:induction false} LinkForNames(b: Input, u: Unlinked)
    ensures LinkFor(b, Chosen(b), u).Some? ==> LinkFor(b, Chosen(b), u).value.reservationId == u.id
  {
    hide Chosen, OutcomeOf, LegacyTarget;
  }

  lemma {:induction false} LinkOfRow(b: Input, u: Unlinked)
    requires DistinctUnlinked(b.rows) && u in b.rows
    ensures LinkOf(Links(b), u.id) == LinkedTo(b, u)
  {
    hide Links, LinkFor, Chosen;
    LinkOfMember(Links(b), u.id);
    LinkForNames(b, u);
    if LinkFor(b, Chosen(b), u).Some? {
      LinksExactly(b, LinkFor(b, Chosen(b), u).value);
    }
    if l :| l in Links(b) && l.reservationId == u.id && LinkOf(Links(b), u.id) == Some(l.departureId) {
      LinksExactly(b, l);
      var x :| x in b.rows && LinkFor(b, Chosen(b), x) == Some(l);
      LinkForNames(b, x);
    }
  }

  /** The apply, reservation by reservation. */
  lemma {:induction false} ReservationsAfter(b: Input, s: Store, now: int)
    requires IsUnlinkedLoad(b.rows, s)
    ensures var t := AfterBackfill(s, PlanBackfill(b), b.newId, now).reservations;
      && t.Keys == s.reservations.Keys
      && (forall r :: r in s.reservations && !IsUnlinked(s, r) ==> t[r] == s.reservations[r])
      && (forall u :: u in b.rows ==> u.id in t && t[u.id] == u.row.(departureId := LinkedTo(b, u)))
  {
    hide Links, LinkedTo, HistoryCreates, LegacyCreates, LegacyReused, Reports, ManualAfter, WithLegacy, InsertPlanned;
    forall u | u in b.rows ensures LinkOf(Links(b), u.id) == LinkedTo(b, u) {
      LinkOfRow(b, u);
    }
  }

  // ---- Where each link leads ----

  lemma {:induction false} RowByIdFinds(rows: seq<Unlinked>, u: Unlinked)
    requires DistinctUnlinked(rows) && u in rows
    ensures RowById(rows, u.id) == Some(u)
  {
    if |rows| > 0 {
      var front, last := rows[..|rows| - 1], rows[|rows| - 1];
      assert rows == front + [last];
      if u != last {
        RowByIdFinds(front, u);
        var i :| 0 <= i < |front| && front[i] == u;
        assert rows[i].id != rows[|front|].id;
      }
    }
  }

  lemma {:induction false} RowByIdAbsent(rows: seq<Unlinked>, r: Id)
    ensures RowById(rows, r).None? <==> forall u :: u in rows ==> u.id != r
    ensures RowById(rows, r).Some? ==> RowById(rows, r).value in rows && RowById(rows, r).value.id == r
  {
    if |rows| > 0 {
      RowByIdAbsent(rows[..|rows| - 1], r);
      assert rows == rows[..|rows| - 1] + [rows[|rows| - 1]];
    }
  }

  lemma {:induction false} ChosenIsCandidate(b: Input, u: Unlinked)
    requires DistinctUnlinked(b.rows) && u in b.rows && PlanBackfill(b).invalidManualLinks == [] && u.id in Chosen(b)
    ensures Chosen(b)[u.id] in CandidateIds(b, ReservationKey(u.row))
  {
    hide CandidateIds, HistoryCreates, LegacyCreates, LegacyReused, Links, Reports, ManualAfter, RowById;
    ManualLinksAccepted(b, b.manual);
    RowByIdFinds(b.rows, u);
    var m :| m in b.manual && m.reservationId == u.id && RowById(b.rows, u.id).Some?;
    assert IsGoodChoice(b, m);
  }

  lemma {:induction false} LegacyStoredFinds(stored: seq<StoredRow>, key: LinkKey)
    ensures LegacyStored(stored, key).Some? ==>
      var x := LegacyStored(stored, key).value; x in stored && x.row.source == LEGACY && DepartureKey(x.row) == key
    ensures LegacyStored(stored, key).None? ==> forall x :: x in stored && x.row.source == LEGACY ==> DepartureKey(x.row) != key
  {
    if |stored| > 0 {
      LegacyStoredFinds(stored[..|stored| - 1], key);
      assert stored == stored[..|stored| - 1] + [stored[|stored| - 1]];
    }
  }

  lemma {:induction false} LeftoverKeysExactly(rows: seq<Unlinked>)
    ensures forall k :: k in GroupKeys(rows) <==> exists u :: u in rows && ReservationKey(u.row) == k
  {
    if |rows| > 0 {
      LeftoverKeysExactly(rows[..|rows| - 1]);
      assert rows == rows[..|rows| - 1] + [rows[|rows| - 1]];
    }
  }

  lemma {:induction false} LeftoverHasKey(b: Input, u: Unlinked)
    requires u in b.rows && OutcomeOf(b, Chosen(b), u).OnLegacy?
    ensures ReservationKey(u.row) in LeftoverKeys(b)
  {
    hide Chosen, OutcomeOf, GroupKeys;
    CollectMembers(|b.rows|, UnmatchedRowAt(b, Chosen(b)));
    var i :| 0 <= i < |b.rows| && b.rows[i] == u;
    assert UnmatchedRowAt(b, Chosen(b))(i) == Some(u);
    LeftoverKeysExactly(Leftovers(b, Chosen(b)));
  }

  lemma {:induction false} NewLegacyComplete(b: Input, key: LinkKey)
    requires key in LeftoverKeys(b) && LegacyStored(b.stored, key).None? && key.rideId in b.rides
    ensures exists l :: l in LegacyCreates(b) && l.key == key && l.id == b.legacyId(key)
  {
    hide LeftoverKeys, Leftovers, Chosen, GroupOf, LegacyStored, NewLegacy;
    var keys, rows := LeftoverKeys(b), Leftovers(b, Chosen(b));
    var i :| 0 <= i < |keys| && keys[i] == key;
    CollectMembers(|keys|, NewLegacyAt(b, keys, rows));
    assert NewLegacyAt(b, keys, rows)(i) == Some(NewLegacy(b, key, GroupOf(rows, key)));
  }

  /** A leftover's LEGACY departure is stored after the apply, under the reservation's own key. */
  lemma {:induction false} LegacyTargetStored(b: Input, s: Store, w: Window, t: map<Id, Departure>, now: int, u: Unlinked)
    requires IsStoredRows(b.stored, s, w) && Extends(b, s, t, now) && Accepted(b)
    requires u in b.rows && OutcomeOf(b, Chosen(b), u).OnLegacy?
    ensures var d := LegacyTarget(b, ReservationKey(u.row));
      d in t && t[d].source == LEGACY && DepartureKey(t[d]) == ReservationKey(u.row)
  {
    hide OutcomeOf, Chosen, HistoryCreates, LegacyCreates, LeftoverKeys, PlanBackfill, LegacyStored, InWindow;
    var key := ReservationKey(u.row);
    LeftoverHasKey(b, u);
    LegacyStoredFinds(b.stored, key);
    if LegacyStored(b.stored, key).None? {
      NewLegacyComplete(b, key);
    }
  }

  /** What the link rule says of a reservation that was given `link`. */
  ghost predicate FollowsRule(t: map<Id, Departure>, row: Reservation, link: Option<PlannedLink>) {
    var matches := CandidateSet(t, ReservationKey(row));
    match link
    case None => forall d :: matches != {d}
    case Some(l) =>
      && l.departureId in t && DepartureKey(t[l.departureId]) == ReservationKey(row)
      && match l.via
         case EXISTING => matches == {l.departureId}
         case HISTORY => matches == {l.departureId}
         case MANUAL => l.departureId in matches
         case LEFTOVER => matches == {} && t[l.departureId].source == LEGACY
  }

  lemma {:induction false} PoolMatches(b: Input, s: Store, w: Window, rides: seq<Ride>, records: seq<ExceptionRecord>, now: int, key: LinkKey)
    requires Ready(b, s, w, rides, records) && InWindow(w, key.date)
    ensures var matches := CandidateSet(AfterBackfill(s, PlanBackfill(b), b.newId, now).departures, key);
      && (forall d :: d in CandidateIds(b, key) <==> d in matches)
      && (forall d :: Single(CandidateIds(b, key)) == Some(d) <==> matches == {d})
      && |CandidateIds(b, key)| == |matches|
  {
    hide Ready, InWindow, AfterBackfill, PlanBackfill, Pool, CandidateSet, Matching;
    PoolIsLinkRule(b, s, w, rides, records, now, key);
    MatchingExactly(Pool(b), key);
    var matches := CandidateSet(AfterBackfill(s, PlanBackfill(b), b.newId, now).departures, key);
    forall d ensures Single(CandidateIds(b, key)) == Some(d) <==> matches == {d} {
      SingleMeansOnly(CandidateIds(b, key), matches, d);
    }
    DistinctSize(CandidateIds(b, key), matches);
  }

  /**
   * After the apply, an EXISTING or HISTORY link is exactly what the booking rule resolves
   * to, a chosen one is among its matches, a LEGACY one is only given where there is no
   * match, and a reservation left alone resolves to nothing.
   */
  lemma {:induction false} LinksFollowTheRule(b: Input, s: Store, w: Window, rides: seq<Ride>, records: seq<ExceptionRecord>, now: int, u: Unlinked)
    requires Ready(b, s, w, rides, records) && Accepted(b) && u in b.rows
    ensures FollowsRule(AfterBackfill(s, PlanBackfill(b), b.newId, now).departures, u.row, LinkFor(b, Chosen(b), u))
  {
    hide Ready, AfterBackfill, CandidateIds, LegacyTarget, HistoryCreates, LegacyCreates, LegacyReused, Links, Reports, ManualAfter, InWindow, Extends, Chosen,
      CandidateSet, IsStoredRows, IsLinkedLoad, FreshIds, RidesLoaded, LeftoverKeys;
    var t := AfterBackfill(s, PlanBackfill(b), b.newId, now).departures;
    var key := ReservationKey(u.row);
    ReadyParts(b, s, w, rides, records);
    PoolMatches(b, s, w, rides, records, now, key);
    DeparturesAfter(b, s, w, rides, records, now);
    if u.id in Chosen(b) {
      ChosenIsCandidate(b, u);
      CandidateHasKey(t, key, Chosen(b)[u.id]);
    } else if |CandidateIds(b, key)| == 1 {
      CandidateHasKey(t, key, CandidateIds(b, key)[0]);
    } else if OutcomeOf(b, Chosen(b), u).OnLegacy? {
      LegacyTargetStored(b, s, w, t, now, u);
    }
  }

  lemma {:induction false} CandidateHasKey(t: map<Id, Departure>, key: LinkKey, d: Id)
    requires d in CandidateSet(t, key)
    ensures d in t && DepartureKey(t[d]) == key && Linkable(t[d].source)
  {
  }
}
