/** Every reservation the backfill reads is linked or reported, once. */
module BackfillTotal {
  import opened Basics
  import opened Timetable
  import opened Tables
  import opened LinkRule
  import opened LegacyRows
  import opened Backfill
  import opened BackfillCompute

  function LinkedIds(links: seq<PlannedLink>): seq<Id> {
    seq(|links|, i requires 0 <= i < |links| => links[i].reservationId)
  }

  function ReportedIds(reports: seq<Report>): seq<Id> {
    seq(|reports|, i requires 0 <= i < |reports| => reports[i].reservationId)
  }

  // ---- Grouping loses nobody ----

  lemma {:induction false} OneMoreIn(before: seq<Unlinked>, after: seq<Unlinked>, group: seq<Unlinked>, u: Unlinked, inFront: bool, inGroup: bool)
    requires multiset(after) == multiset(before) + (if inFront then multiset{u} else multiset{}) && !(inFront && inGroup)
    ensures multiset(after + if inGroup then group + [u] else group)
      == multiset(before + group) + if inFront || inGroup then multiset{u} else multiset{}
  {
  }

  lemma {:induction false} GroupGrows(rows: seq<Unlinked>, u: Unlinked, key: LinkKey)
    ensures GroupOf(rows + [u], key) == if ReservationKey(u.row) == key then GroupOf(rows, key) + [u] else GroupOf(rows, key)
  {
    assert (rows + [u])[..|rows|] == rows;
  }

  lemma {:induction false} GroupedAppend(keys: seq<LinkKey>, rows: seq<Unlinked>, u: Unlinked)
    requires Distinct(keys)
    ensures multiset(Grouped(keys, rows + [u])) == multiset(Grouped(keys, rows)) + if ReservationKey(u.row) in keys then multiset{u} else multiset{}
  {
    hide GroupOf, ReservationKey;
    if |keys| > 0 {
      var front, last, key := keys[..|keys| - 1], keys[|keys| - 1], ReservationKey(u.row);
      assert keys == front + [last];
      GroupedAppend(front, rows, u);
      GroupGrows(rows, u, last);
      OneMoreIn(Grouped(front, rows), Grouped(front, rows + [u]), GroupOf(rows, last), u, key in front, key == last);
    }
  }

  lemma {:induction false} GroupedHoldsAll(rows: seq<Unlinked>)
    ensures multiset(Grouped(GroupKeys(rows), rows)) == multiset(rows)
  {
    if |rows| > 0 {
      var front, last := rows[..|rows| - 1], rows[|rows| - 1];
      var key, keys := ReservationKey(last.row), GroupKeys(front);
      assert rows == front + [last];
      GroupedHoldsAll(front);
      NoKeyNoGroup(front, key);
      GroupStep(front, last);
      GroupedAppend(keys, front, last);
      if key !in keys {
        assert (keys + [key])[..|keys|] == keys;
        assert GroupOf(rows, key) == [last];
        assert Grouped(keys + [key], rows) == Grouped(keys, rows) + [last];
      }
    }
  }

  lemma {:induction false} WithoutOne(rows: seq<Unlinked>, k: nat) returns (rest: seq<Unlinked>)
    requires k < |rows|
    ensures |rest| == |rows| - 1
    ensures multiset(rest) == multiset(rows) - multiset{rows[k]}
    ensures multiset(ReservationIds(rows)) == multiset(ReservationIds(rest)) + multiset{rows[k].id}
  {
    var before, after := rows[..k], rows[k + 1..];
    rest := before + after;
    assert rows == before + [rows[k]] + after;
    assert ReservationIds(rows) == ReservationIds(before) + [rows[k].id] + ReservationIds(after);
    assert ReservationIds(rest) == ReservationIds(before) + ReservationIds(after);
  }

  lemma {:induction false} SameIds(a: seq<Unlinked>, b: seq<Unlinked>)
    requires multiset(a) == multiset(b)
    ensures multiset(ReservationIds(a)) == multiset(ReservationIds(b))
    decreases |a|
  {
    if |a| == 0 {
      assert |multiset(b)| == 0;
    } else {
      hide ReservationIds;
      assert a[0] in multiset(b);
      var k :| 0 <= k < |b| && b[k] == a[0];
      var x := WithoutOne(a, 0);
      var y := WithoutOne(b, k);
      SameIds(x, y);
    }
  }

  // ---- Totality ----

  lemma {:induction false} LinkedIdsPlus(links: seq<PlannedLink>, l: PlannedLink)
    ensures LinkedIds(links + [l]) == LinkedIds(links) + [l.reservationId]
  {
  }

  lemma {:induction false} ReservationIdsPlus(rows: seq<Unlinked>, u: Unlinked)
    ensures ReservationIds(rows + [u]) == ReservationIds(rows) + [u.id]
  {
  }

  lemma {:induction false} ReportedIdsPlus(reports: seq<Report>, r: Report)
    ensures ReportedIds(reports + [r]) == ReportedIds(reports) + [r.reservationId]
  {
  }

  /** The reservations placed among the first `n`, in whichever list. */
  function PlacedIds(b: Input, chosen: map<Id, Id>, n: nat): multiset<Id> {
    multiset(LinkedIds(Collect(n, JoinAt(b, chosen)))) + multiset(ReservationIds(Collect(n, UnmatchedRowAt(b, chosen))))
      + multiset(ReportedIds(Collect(n, ReportAt(b, chosen))))
  }

  lemma {:induction false} PlacedStep(b: Input, chosen: map<Id, Id>, n: nat)
    requires n < |b.rows|
    ensures PlacedIds(b, chosen, n + 1) == PlacedIds(b, chosen, n) + multiset{b.rows[n].id}
  {
    hide JoinAt, UnmatchedRowAt, ReportAt, OutcomeOf, CandidateIds, LinkedIds, ReservationIds, ReportedIds, Collect;
    JoinedIdsStep(b, chosen, n);
    LeftIdsStep(b, chosen, n);
    ReportedIdsStep(b, chosen, n);
  }

  lemma {:induction false} JoinedIdsStep(b: Input, chosen: map<Id, Id>, n: nat)
    requires n < |b.rows|
    ensures LinkedIds(Collect(n + 1, JoinAt(b, chosen))) == LinkedIds(Collect(n, JoinAt(b, chosen)))
      + if OutcomeOf(b, chosen, b.rows[n]).Joins? then [b.rows[n].id] else []
  {
    hide OutcomeOf, LinkedIds;
    var before := Collect(n, JoinAt(b, chosen));
    match OutcomeOf(b, chosen, b.rows[n])
    case Joins(d, via) => LinkedIdsPlus(before, PlannedLink(b.rows[n].id, d, via));
    case _ => assert LinkedIds(before) + [] == LinkedIds(before);
  }

  lemma {:induction false} LeftIdsStep(b: Input, chosen: map<Id, Id>, n: nat)
    requires n < |b.rows|
    ensures ReservationIds(Collect(n + 1, UnmatchedRowAt(b, chosen))) == ReservationIds(Collect(n, UnmatchedRowAt(b, chosen)))
      + if OutcomeOf(b, chosen, b.rows[n]).OnLegacy? then [b.rows[n].id] else []
  {
    hide OutcomeOf, ReservationIds;
    var before := Collect(n, UnmatchedRowAt(b, chosen));
    ReservationIdsPlus(before, b.rows[n]);
    assert ReservationIds(before) + [] == ReservationIds(before);
  }

  lemma {:induction false} ReportedIdsStep(b: Input, chosen: map<Id, Id>, n: nat)
    requires n < |b.rows|
    ensures ReportedIds(Collect(n + 1, ReportAt(b, chosen))) == ReportedIds(Collect(n, ReportAt(b, chosen)))
      + if OutcomeOf(b, chosen, b.rows[n]).Reported? then [b.rows[n].id] else []
  {
    hide OutcomeOf, ReportedIds, CandidateIds;
    var before := Collect(n, ReportAt(b, chosen));
    match OutcomeOf(b, chosen, b.rows[n])
    case Reported(reason, fa) => ReportedIdsPlus(before, Report(b.rows[n].id, reason, fa, CandidateIds(b, ReservationKey(b.rows[n].row))));
    case _ => assert ReportedIds(before) + [] == ReportedIds(before);
  }

  lemma {:induction false} NothingPlaced(b: Input, chosen: map<Id, Id>)
    ensures PlacedIds(b, chosen, 0) == multiset{} && ReservationIds([]) == []
  {
    hide JoinAt, UnmatchedRowAt, ReportAt;
  }

  lemma {:induction false} SortedIds(b: Input, chosen: map<Id, Id>, n: nat)
    requires n <= |b.rows|
    ensures PlacedIds(b, chosen, n) == multiset(ReservationIds(b.rows[..n]))
  {
    hide PlacedIds, ReservationIds;
    if n == 0 {
      NothingPlaced(b, chosen);
    } else {
      SortedIds(b, chosen, n - 1);
      PlacedStep(b, chosen, n - 1);
      assert b.rows[..n] == b.rows[..n - 1] + [b.rows[n - 1]];
      ReservationIdsPlus(b.rows[..n - 1], b.rows[n - 1]);
    }
  }

  /** The backfill is total: each reservation it reads is in exactly one place of exactly one of the two lists. */
  lemma {:induction false} EveryReservationOnce(b: Input)
    ensures multiset(LinkedIds(PlanBackfill(b).links)) + multiset(ReportedIds(PlanBackfill(b).reported)) == multiset(ReservationIds(b.rows))
  {
    hide JoinAt, UnmatchedRowAt, ReportAt, Chosen, GroupKeys, Grouped, LegacyTarget, LegacyCreates, LegacyReused, HistoryCreates, ManualAfter;
    var joins, rows := Collect(|b.rows|, JoinAt(b, Chosen(b))), Leftovers(b, Chosen(b));
    var grouped := Grouped(GroupKeys(rows), rows);
    SortedIds(b, Chosen(b), |b.rows|);
    assert b.rows[..|b.rows|] == b.rows;
    GroupedHoldsAll(rows);
    SameIds(grouped, rows);
    assert LinkedIds(LegacyLinks(b, grouped)) == ReservationIds(grouped);
    assert LinkedIds(joins + LegacyLinks(b, grouped)) == LinkedIds(joins) + LinkedIds(LegacyLinks(b, grouped));
  }

  // ---- Which link each reservation gets ----

  /** The one link planned for a reservation, if any. */
  function LinkFor(b: Input, chosen: map<Id, Id>, u: Unlinked): Option<PlannedLink> {
    match OutcomeOf(b, chosen, u)
    case Joins(d, via) => Some(PlannedLink(u.id, d, via))
    case OnLegacy => Some(PlannedLink(u.id, LegacyTarget(b, ReservationKey(u.row)), LEFTOVER))
    case Reported(_, _) => None
  }

  lemma {:induction false} LinkIsOutcome(b: Input, l: PlannedLink) returns (u: Unlinked)
    requires l in Links(b)
    ensures u in b.rows && LinkFor(b, Chosen(b), u) == Some(l)
  {
    hide Chosen, GroupKeys, Grouped, LegacyTarget, OutcomeOf;
    var chosen := Chosen(b);
    var rows := Leftovers(b, chosen);
    if l in Collect(|b.rows|, JoinAt(b, chosen)) {
      var i := CollectSource(|b.rows|, JoinAt(b, chosen), l);
      u := b.rows[i];
    } else {
      var grouped := Grouped(GroupKeys(rows), rows);
      GroupedHoldsAll(rows);
      var k :| 0 <= k < |grouped| && LegacyLinks(b, grouped)[k] == l;
      assert grouped[k] in multiset(rows);
      var i := CollectSource(|b.rows|, UnmatchedRowAt(b, chosen), grouped[k]);
      u := b.rows[i];
    }
  }

  lemma {:induction false} OutcomeIsLinked(b: Input, u: Unlinked, l: PlannedLink)
    requires u in b.rows && LinkFor(b, Chosen(b), u) == Some(l)
    ensures l in Links(b)
  {
    hide Chosen, GroupKeys, Grouped, LegacyTarget, OutcomeOf;
    var chosen := Chosen(b);
    var i :| 0 <= i < |b.rows| && b.rows[i] == u;
    if OutcomeOf(b, chosen, u).Joins? {
      CollectMembers(|b.rows|, JoinAt(b, chosen));
      assert JoinAt(b, chosen)(i) == Some(l);
    } else {
      var rows := Leftovers(b, chosen);
      var grouped := Grouped(GroupKeys(rows), rows);
      CollectMembers(|b.rows|, UnmatchedRowAt(b, chosen));
      assert UnmatchedRowAt(b, chosen)(i) == Some(u);
      GroupedHoldsAll(rows);
      assert u in multiset(grouped);
      var k :| 0 <= k < |grouped| && grouped[k] == u;
      assert LegacyLinks(b, grouped)[k] == l;
    }
  }

  lemma {:induction false} LinksExactly(b: Input, l: PlannedLink)
    ensures l in Links(b) <==> exists u :: u in b.rows && LinkFor(b, Chosen(b), u) == Some(l)
  {
    hide Chosen, Links, LinkFor;
    if l in Links(b) {
      var u := LinkIsOutcome(b, l);
    }
    if u :| u in b.rows && LinkFor(b, Chosen(b), u) == Some(l) {
      OutcomeIsLinked(b, u, l);
    }
  }

  // ---- Manual links ----

  ghost predicate EachOnce(links: seq<ManualLink>) {
    forall i, j :: 0 <= i < j < |links| ==> links[i].reservationId != links[j].reservationId
  }

  /** Already applied, or a choice among the reservation's candidates. */
  predicate IsGoodChoice(b: Input, link: ManualLink) {
    var reservation := RowById(b.rows, link.reservationId);
    if reservation.None? then link.reservationId in b.linked && b.linked[link.reservationId] == link.departureId
    else link.departureId in CandidateIds(b, ReservationKey(reservation.value.row))
  }

  ghost predicate ManualExact(b: Input, links: seq<ManualLink>) {
    var st := ManualAfter(b, links);
    && (forall r :: r in st.done <==> ListsRow(b, links, r, false))
    && (forall r :: r in st.chosen <==> ListsRow(b, links, r, true))
    && (forall m :: m in links && m.reservationId in st.chosen ==> st.chosen[m.reservationId] == m.departureId)
    && |st.done| + |st.chosen| == |links|
  }

  lemma {:induction false} FirstInvalidStays(b: Input, links: seq<ManualLink>, i: nat)
    requires i <= |links|
    ensures ManualAfter(b, links).invalid == [] ==> ManualAfter(b, links[..i]).invalid == []
  {
    hide CandidateIds;
    if i < |links| {
      FirstInvalidStays(b, links[..|links| - 1], i);
      assert links[..|links| - 1][..i] == links[..i];
    } else {
      assert links[..i] == links;
    }
  }

  /** No manual link is refused exactly when each is good and no reservation is listed twice. */
  lemma {:induction false} ManualLinksAccepted(b: Input, links: seq<ManualLink>)
    ensures ManualAfter(b, links).invalid == [] <==> EachOnce(links) && (forall m :: m in links ==> IsGoodChoice(b, m))
    ensures ManualAfter(b, links).invalid == [] ==> ManualExact(b, links)
  {
    hide CandidateIds;
    if |links| > 0 {
      var front, last := links[..|links| - 1], links[|links| - 1];
      assert links == front + [last];
      ManualLinksAccepted(b, front);
      if ManualAfter(b, front).invalid == [] {
        LastManualLink(b, front, last);
      }
    }
  }

  /** A manual link is accepted when its reservation was not listed before and the choice is good. */
  lemma {:induction false} ManualStepAccepts(b: Input, st: ManualState, link: ManualLink)
    requires st.invalid == []
    ensures var next := ManualStep(b, st, link);
      && (next.invalid == [] <==> link.reservationId !in st.chosen && link.reservationId !in st.done && IsGoodChoice(b, link))
      && (next.invalid == [] ==>
            next == if RowById(b.rows, link.reservationId).None? then st.(done := st.done + {link.reservationId})
                    else st.(chosen := st.chosen[link.reservationId := link.departureId]))
  {
    hide CandidateIds, RowById;
  }

  lemma {:induction false} ListedBefore(b: Input, front: seq<ManualLink>, last: ManualLink)
    requires ManualExact(b, front) && EachOnce(front)
    ensures var st := ManualAfter(b, front);
      EachOnce(front + [last]) <==> last.reservationId !in st.chosen && last.reservationId !in st.done
  {
    hide ManualAfter, RowById;
    var st := ManualAfter(b, front);
    if m :| m in front && m.reservationId == last.reservationId {
      var i :| 0 <= i < |front| && front[i] == m;
      assert (front + [last])[i] == m && (front + [last])[|front|] == last;
    }
  }

  /** Listed, and naming a reservation that was read or one that was not. */
  ghost predicate ListsRow(b: Input, links: seq<ManualLink>, r: Id, unlinked: bool) {
    exists m :: m in links && m.reservationId == r && RowById(b.rows, r).Some? == unlinked
  }

  lemma {:induction false} ListsMore(b: Input, front: seq<ManualLink>, last: ManualLink, r: Id, unlinked: bool)
    ensures ListsRow(b, front + [last], r, unlinked) <==>
      ListsRow(b, front, r, unlinked) || (r == last.reservationId && RowById(b.rows, r).Some? == unlinked)
  {
    hide RowById;
    var links := front + [last];
    assert links[|front|] == last;
    if m :| m in links && m.reservationId == r && RowById(b.rows, r).Some? == unlinked {
      assert m in front || m == last;
    }
    if m :| m in front && m.reservationId == r && RowById(b.rows, r).Some? == unlinked {
      assert m in links;
    }
  }

  lemma {:induction false} ExactStep(b: Input, front: seq<ManualLink>, last: ManualLink)
    requires ManualExact(b, front) && EachOnce(front + [last])
    requires last.reservationId !in ManualAfter(b, front).chosen && last.reservationId !in ManualAfter(b, front).done
    requires var st := ManualAfter(b, front);
      ManualAfter(b, front + [last]) == if RowById(b.rows, last.reservationId).None? then st.(done := st.done + {last.reservationId})
                                        else st.(chosen := st.chosen[last.reservationId := last.departureId])
    ensures ManualExact(b, front + [last])
  {
    hide ManualAfter, RowById, ListsRow;
    var links := front + [last];
    forall r, unlinked
      ensures ListsRow(b, links, r, unlinked) <==> ListsRow(b, front, r, unlinked) || (r == last.reservationId && RowById(b.rows, r).Some? == unlinked)
    {
      ListsMore(b, front, last, r, unlinked);
    }
    forall m | m in links && m.reservationId in ManualAfter(b, links).chosen
      ensures ManualAfter(b, links).chosen[m.reservationId] == m.departureId
    {
      assert m in front || m == last;
      if m != last { DifferentReservations(front, last, m); }
    }
  }

  lemma {:induction false} DifferentReservations(front: seq<ManualLink>, last: ManualLink, m: ManualLink)
    requires EachOnce(front + [last]) && m in front
    ensures m.reservationId != last.reservationId
  {
    var i :| 0 <= i < |front| && front[i] == m;
    assert (front + [last])[i] == m && (front + [last])[|front|] == last;
  }

  lemma {:induction false} LastManualLink(b: Input, front: seq<ManualLink>, last: ManualLink)
    requires ManualAfter(b, front).invalid == [] && ManualExact(b, front) && EachOnce(front) && forall m :: m in front ==> IsGoodChoice(b, m)
    ensures var links := front + [last];
      && (ManualAfter(b, links).invalid == [] <==> EachOnce(links) && IsGoodChoice(b, last))
      && (ManualAfter(b, links).invalid == [] ==> ManualExact(b, links))
  {
    var links := front + [last];
    assert links[..|front|] == front;
    assert ManualAfter(b, links) == ManualStep(b, ManualAfter(b, front), last);
    hide CandidateIds, ManualAfter, ManualStep, ManualExact, IsGoodChoice, EachOnce;
    ManualStepAccepts(b, ManualAfter(b, front), last);
    ListedBefore(b, front, last);
    if ManualAfter(b, links).invalid == [] {
      ExactStep(b, front, last);
    }
  }
}
