/**
 * What a backfill decides about each reservation it reads, and about each link staff chose,
 * said of the reservation and of the departures stored once it is applied.
 */
module BackfillResults {
  import opened Basics
  import opened Text
  import opened Calendar
  import opened Timetable
  import opened Tables
  import opened SyncPlan
  import opened LinkRule
  import opened LegacyRows
  import opened Backfill
  import opened BackfillApply
  import opened BackfillTotal
  import opened BackfillTheorems
  import opened BackfillLinks

  // ---- One reservation ----

  /** The departures with a reservation's ride, date and departure time, LEGACY ones aside. */
  function Matches(departures: map<Id, Departure>, row: Reservation): set<Id> {
    set d | d in departures && departures[d].source != LEGACY
      && departures[d].rideId == row.rideId && departures[d].serviceDate == row.travelDate && departures[d].departureTime == row.departureTime
  }

  predicate IsLinkedAs(plan: BackfillPlan, r: Id, d: Id, via: Via) {
    PlannedLink(r, d, via) in plan.links
  }

  ghost predicate IsReportedFor(plan: BackfillPlan, r: Id, reason: Reason) {
    exists x :: x in plan.reported && x.reservationId == r && x.reason == reason
  }

  /** The departure on which a leftover goes: LEGACY, and of its ride, date and time. */
  predicate IsLegacyFor(departures: map<Id, Departure>, d: Id, row: Reservation) {
    d in departures && departures[d].source == LEGACY
    && departures[d].rideId == row.rideId && departures[d].serviceDate == row.travelDate && departures[d].departureTime == row.departureTime
  }

  /** The only match is the reservation's bus: of the history when it was not stored before. */
  ghost predicate JoinsOnlyMatch(plan: BackfillPlan, before: map<Id, Departure>, after: map<Id, Departure>, u: Unlinked) {
    forall d ::
      && (IsLinkedAs(plan, u.id, d, EXISTING) <==> Matches(after, u.row) == {d} && d in before)
      && (IsLinkedAs(plan, u.id, d, HISTORY) <==> Matches(after, u.row) == {d} && d !in before)
  }

  /** Without a match it goes on a LEGACY departure when it is past or cancelled, and else staff are told. */
  ghost predicate UnmatchedIsKept(plan: BackfillPlan, after: map<Id, Departure>, u: Unlinked, today: string) {
    var none, past := Matches(after, u.row) == {}, StrLess(u.row.travelDate, today);
    && ((exists d :: IsLinkedAs(plan, u.id, d, LEFTOVER)) <==> none && (past || u.row.status == Cancelled))
    && (IsReportedFor(plan, u.id, NO_DEPARTURE) <==> none && !past && u.row.status == Active)
  }

  /** Of several matches none is chosen: they are reported. */
  ghost predicate SeveralAreReported(plan: BackfillPlan, after: map<Id, Departure>, u: Unlinked) {
    IsReportedFor(plan, u.id, SEVERAL_DEPARTURES) <==> |Matches(after, u.row)| >= 2
  }

  /** A report lists the matches, and says whether somebody is still to travel. */
  ghost predicate ReportsSay(plan: BackfillPlan, after: map<Id, Departure>, u: Unlinked, today: string) {
    forall x :: x in plan.reported && x.reservationId == u.id ==>
      && (x.futureActive <==> !StrLess(u.row.travelDate, today) && u.row.status == Active)
      && (forall d :: d in x.candidateIds <==> d in Matches(after, u.row)) && |x.candidateIds| == |Matches(after, u.row)|
  }

  lemma {:induction false} MatchesAreCandidates(departures: map<Id, Departure>, row: Reservation)
    ensures Matches(departures, row) == CandidateSet(departures, ReservationKey(row))
  {
  }

  lemma {:induction false} ChosenAreManual(b: Input, links: seq<ManualLink>)
    ensures forall r :: r in ManualAfter(b, links).chosen ==> exists m :: m in links && m.reservationId == r && m.departureId == ManualAfter(b, links).chosen[r]
  {
    hide ManualProblem, AlreadyDone;
    if |links| > 0 {
      var front, last := links[..|links| - 1], links[|links| - 1];
      assert links == front + [last];
      ChosenAreManual(b, front);
      forall r | r in ManualAfter(b, links).chosen
        ensures exists m :: m in links && m.reservationId == r && m.departureId == ManualAfter(b, links).chosen[r]
      {
        if r in ManualAfter(b, front).chosen && ManualAfter(b, front).chosen[r] == ManualAfter(b, links).chosen[r] {
          var m :| m in front && m.reservationId == r && m.departureId == ManualAfter(b, front).chosen[r];
          assert m in links;
        } else {
          assert last in links;
        }
      }
    }
  }

  /** Where the plan puts a reservation no manual link names, from its matches. */
  ghost predicate OutcomeFrom(before: map<Id, Departure>, matches: set<Id>, u: Unlinked, today: string, outcome: Outcome) {
    var past := StrLess(u.row.travelDate, today);
    match outcome
    case Joins(d, via) => matches == {d} && via == (if d in before then EXISTING else HISTORY)
    case OnLegacy => matches == {} && (past || u.row.status == Cancelled)
    case Reported(reason, futureActive) =>
      && (if reason == NO_DEPARTURE then matches == {} && !past && u.row.status == Active else |matches| >= 2)
      && (futureActive <==> !past && u.row.status == Active)
  }

  lemma {:induction false} OutcomeMeans(b: Input, s: Store, w: Window, rides: seq<Ride>, records: seq<ExceptionRecord>, now: int, u: Unlinked)
    requires Ready(b, s, w, rides, records) && u in b.rows && u.id !in Chosen(b)
    ensures OutcomeFrom(s.departures, Matches(AfterBackfill(s, PlanBackfill(b), b.newId, now).departures, u.row), u, b.today, OutcomeOf(b, Chosen(b), u))
  {
    hide Ready, Chosen, CandidateIds, AfterBackfill, CandidateSet, PlanBackfill, IsStoredRows, FreshIds, IsLinkedLoad, StrLess, HistoryCreates, Matches;
    var t := AfterBackfill(s, PlanBackfill(b), b.newId, now).departures;
    var key := ReservationKey(u.row);
    MatchesAreCandidates(t, u.row);
    ReadyParts(b, s, w, rides, records);
    PoolMatches(b, s, w, rides, records, now, key);
    if |CandidateIds(b, key)| == 1 {
      var d := CandidateIds(b, key)[0];
      HistoryIdIsNew(b, s, w, rides, records, key, d);
    }
  }

  /** A candidate is new exactly when it is one of the history's. */
  lemma {:induction false} HistoryIdIsNew(b: Input, s: Store, w: Window, rides: seq<Ride>, records: seq<ExceptionRecord>, key: LinkKey, d: Id)
    requires Ready(b, s, w, rides, records) && d in CandidateIds(b, key)
    ensures IsHistoryId(b, d) <==> d !in s.departures
  {
    hide Ready, HistoryCreates, IsLinkedLoad, Pool, IsUnlinkedLoad;
    ReadyParts(b, s, w, rides, records);
    MatchingExactly(Pool(b), key);
    PoolRows(b);
    if IsHistoryId(b, d) {
      var p :| p in HistoryCreates(b) && b.newId(p.key) == d;
    }
  }

  lemma {:induction false} ReportsExactly(b: Input, x: Report)
    ensures x in Reports(b) <==> exists u :: u in b.rows && ReportFor(b, u) == Some(x)
  {
    hide Chosen, CandidateIds, OutcomeOf;
    CollectMembers(|b.rows|, ReportAt(b, Chosen(b)));
    if x in Reports(b) {
      var i := CollectSource(|b.rows|, ReportAt(b, Chosen(b)), x);
      assert b.rows[i] in b.rows;
    }
    if u :| u in b.rows && ReportFor(b, u) == Some(x) {
      var i :| 0 <= i < |b.rows| && b.rows[i] == u;
      assert ReportAt(b, Chosen(b))(i) == Some(x);
    }
  }

  function ReportFor(b: Input, u: Unlinked): Option<Report> {
    match OutcomeOf(b, Chosen(b), u)
    case Reported(reason, futureActive) => Some(Report(u.id, reason, futureActive, CandidateIds(b, ReservationKey(u.row))))
    case _ => None
  }

  lemma {:induction false} OwnLinks(b: Input, u: Unlinked, d: Id, via: Via)
    requires DistinctUnlinked(b.rows) && u in b.rows
    ensures PlannedLink(u.id, d, via) in Links(b) <==> LinkFor(b, Chosen(b), u) == Some(PlannedLink(u.id, d, via))
  {
    hide Links, LinkFor, Chosen;
    LinksExactly(b, PlannedLink(u.id, d, via));
    if PlannedLink(u.id, d, via) in Links(b) {
      var x :| x in b.rows && LinkFor(b, Chosen(b), x) == Some(PlannedLink(u.id, d, via));
      LinkForNames(b, x);
      SameRow(b.rows, x, u);
    }
  }

  lemma {:induction false} SameRow(rows: seq<Unlinked>, x: Unlinked, u: Unlinked)
    requires DistinctUnlinked(rows) && x in rows && u in rows && x.id == u.id
    ensures x == u
  {
  }

  lemma {:induction false} OwnReport(b: Input, u: Unlinked, x: Report)
    requires DistinctUnlinked(b.rows) && u in b.rows && x.reservationId == u.id
    ensures x in Reports(b) <==> ReportFor(b, u) == Some(x)
  {
    hide Reports, OutcomeOf, Chosen, CandidateIds;
    ReportsExactly(b, x);
    if v :| v in b.rows && ReportFor(b, v) == Some(x) {
      SameRow(b.rows, v, u);
    }
  }

  lemma {:induction false} NotChosen(b: Input, u: Unlinked)
    requires forall m :: m in b.manual ==> m.reservationId != u.id
    ensures u.id !in Chosen(b)
  {
    hide ManualAfter;
    ChosenAreManual(b, b.manual);
  }

  lemma {:induction false} OwnParts(b: Input, u: Unlinked)
    requires DistinctUnlinked(b.rows) && u in b.rows
    ensures var outcome := OutcomeOf(b, Chosen(b), u);
      && (forall d, via :: IsLinkedAs(PlanBackfill(b), u.id, d, via) <==>
            outcome == Joins(d, via) || (outcome == OnLegacy && via == LEFTOVER && d == LegacyTarget(b, ReservationKey(u.row))))
      && (forall x :: x in PlanBackfill(b).reported && x.reservationId == u.id <==>
            outcome.Reported? && x == Report(u.id, outcome.reason, outcome.futureActive, CandidateIds(b, ReservationKey(u.row))))
  {
    hide Links, Reports, OutcomeOf, Chosen, LegacyTarget, CandidateIds, HistoryCreates, LegacyCreates, LegacyReused, ManualAfter;
    forall d, via ensures PlannedLink(u.id, d, via) in Links(b) <==> LinkFor(b, Chosen(b), u) == Some(PlannedLink(u.id, d, via)) {
      OwnLinks(b, u, d, via);
    }
    forall x: Report ensures x in Reports(b) && x.reservationId == u.id <==> ReportFor(b, u) == Some(x) {
      if x.reservationId == u.id {
        OwnReport(b, u, x);
      }
    }
  }

  lemma {:induction false} OutcomeIsNeverLeftover(b: Input, u: Unlinked)
    ensures OutcomeOf(b, Chosen(b), u).Joins? ==> OutcomeOf(b, Chosen(b), u).via != LEFTOVER
  {
    hide Chosen, CandidateIds, IsHistoryId;
  }

  lemma {:induction false} MatchesCounted(b: Input, s: Store, w: Window, rides: seq<Ride>, records: seq<ExceptionRecord>, now: int, u: Unlinked)
    requires Ready(b, s, w, rides, records) && u in b.rows
    ensures var matches := Matches(AfterBackfill(s, PlanBackfill(b), b.newId, now).departures, u.row);
      var ids := CandidateIds(b, ReservationKey(u.row));
      (forall d :: d in ids <==> d in matches) && |ids| == |matches|
  {
    hide Ready, CandidateIds, AfterBackfill, CandidateSet, PlanBackfill, IsStoredRows, FreshIds, IsLinkedLoad, Matches;
    MatchesAreCandidates(AfterBackfill(s, PlanBackfill(b), b.newId, now).departures, u.row);
    ReadyParts(b, s, w, rides, records);
    PoolMatches(b, s, w, rides, records, now, ReservationKey(u.row));
  }

  /**
   * A reservation no manual link names, from its date, its status and the departures stored
   * after the apply: its only match is its bus, without one it goes on a LEGACY departure or
   * is reported, and with several it is reported, each exactly then.
   */
  lemma {:induction false} EachReservationGoes(b: Input, s: Store, w: Window, rides: seq<Ride>, records: seq<ExceptionRecord>, now: int, u: Unlinked)
    requires Ready(b, s, w, rides, records) && u in b.rows && forall m :: m in b.manual ==> m.reservationId != u.id
    ensures var plan := PlanBackfill(b);
      var t := AfterBackfill(s, plan, b.newId, now).departures;
      JoinsOnlyMatch(plan, s.departures, t, u) && UnmatchedIsKept(plan, t, u, b.today) && SeveralAreReported(plan, t, u) && ReportsSay(plan, t, u, b.today)
  {
    hide Ready, OutcomeOf, Chosen, CandidateIds, AfterBackfill, PlanBackfill, LegacyTarget, IsStoredRows, FreshIds, IsLinkedLoad, StrLess, Matches, IsLinkedAs,
      IsTravelRange;
    var t := AfterBackfill(s, PlanBackfill(b), b.newId, now).departures;
    ReadyParts(b, s, w, rides, records);
    NotChosen(b, u);
    OutcomeMeans(b, s, w, rides, records, now, u);
    MatchesCounted(b, s, w, rides, records, now, u);
    OutcomeIsNeverLeftover(b, u);
    OwnParts(b, u);
    OnlyMatchJoined(b, s.departures, t, u);
    LeftoverOrTold(b, s.departures, t, u);
  }

  lemma {:induction false} OnlyMatchJoined(b: Input, before: map<Id, Departure>, t: map<Id, Departure>, u: Unlinked)
    requires DistinctUnlinked(b.rows) && u in b.rows && OutcomeFrom(before, Matches(t, u.row), u, b.today, OutcomeOf(b, Chosen(b), u))
    ensures JoinsOnlyMatch(PlanBackfill(b), before, t, u)
  {
    hide OutcomeOf, Chosen, CandidateIds, PlanBackfill, LegacyTarget, StrLess, Matches, IsLinkedAs;
    OwnParts(b, u);
    forall d
      ensures IsLinkedAs(PlanBackfill(b), u.id, d, EXISTING) <==> Matches(t, u.row) == {d} && d in before
      ensures IsLinkedAs(PlanBackfill(b), u.id, d, HISTORY) <==> Matches(t, u.row) == {d} && d !in before
    {
      if Matches(t, u.row) == {d} {
        assert |Matches(t, u.row)| == 1;
      }
    }
  }

  lemma {:induction false} LeftoverOrTold(b: Input, before: map<Id, Departure>, t: map<Id, Departure>, u: Unlinked)
    requires DistinctUnlinked(b.rows) && u in b.rows && OutcomeFrom(before, Matches(t, u.row), u, b.today, OutcomeOf(b, Chosen(b), u))
    requires (forall d :: d in CandidateIds(b, ReservationKey(u.row)) <==> d in Matches(t, u.row)) && |CandidateIds(b, ReservationKey(u.row))| == |Matches(t, u.row)|
    ensures UnmatchedIsKept(PlanBackfill(b), t, u, b.today) && SeveralAreReported(PlanBackfill(b), t, u) && ReportsSay(PlanBackfill(b), t, u, b.today)
  {
    hide OutcomeOf, Chosen, CandidateIds, PlanBackfill, LegacyTarget, StrLess, Matches, IsLinkedAs;
    OwnParts(b, u);
    OutcomeIsNeverLeftover(b, u);
    var outcome, matches := OutcomeOf(b, Chosen(b), u), Matches(t, u.row);
    if outcome == OnLegacy {
      assert IsLinkedAs(PlanBackfill(b), u.id, LegacyTarget(b, ReservationKey(u.row)), LEFTOVER);
    }
    if outcome.Reported? {
      var x := Report(u.id, outcome.reason, outcome.futureActive, CandidateIds(b, ReservationKey(u.row)));
      assert x in PlanBackfill(b).reported && x.reservationId == u.id;
    }
    if outcome.Joins? {
      assert |matches| == 1;
    }
  }

  /** Where staff chose a bus it is the reservation's, and one of its matches. */
  lemma {:induction false} ChoiceIsFollowed(b: Input, s: Store, w: Window, rides: seq<Ride>, records: seq<ExceptionRecord>, now: int, u: Unlinked, m: ManualLink)
    requires Ready(b, s, w, rides, records) && Accepted(b) && u in b.rows && m in b.manual && m.reservationId == u.id
    ensures var plan := PlanBackfill(b);
      IsLinkedAs(plan, u.id, m.departureId, MANUAL) && m.departureId in Matches(AfterBackfill(s, plan, b.newId, now).departures, u.row)
  {
    hide Ready, CandidateIds, AfterBackfill, IsStoredRows, FreshIds, IsLinkedLoad, StrLess, Matches, IsLinkedAs, IsTravelRange, LeftoverKeys, ManualAfter, Links,
      LegacyCreates, LegacyReused, Reports, HistoryCreates, RowById;
    ReadyParts(b, s, w, rides, records);
    ManualLinksAccepted(b, b.manual);
    RowByIdFinds(b.rows, u);
    assert ListsRow(b, b.manual, u.id, true);
    ChosenIsCandidate(b, u);
    MatchesCounted(b, s, w, rides, records, now, u);
    OwnParts(b, u);
  }

  /** A leftover goes on the LEGACY departure of its own ride, date and time. */
  lemma {:induction false} LeftoverHasItsBus(b: Input, s: Store, w: Window, rides: seq<Ride>, records: seq<ExceptionRecord>, now: int, u: Unlinked, d: Id)
    requires Ready(b, s, w, rides, records) && Accepted(b) && u in b.rows && IsLinkedAs(PlanBackfill(b), u.id, d, LEFTOVER)
    ensures IsLegacyFor(AfterBackfill(s, PlanBackfill(b), b.newId, now).departures, d, u.row)
  {
    hide Ready, Accepted, OutcomeOf, Chosen, CandidateIds, AfterBackfill, PlanBackfill, LegacyTarget, IsStoredRows, FreshIds, IsLinkedLoad, IsLinkedAs, Extends,
      IsTravelRange;
    ReadyParts(b, s, w, rides, records);
    DeparturesAfter(b, s, w, rides, records, now);
    OwnParts(b, u);
    OutcomeIsNeverLeftover(b, u);
    LegacyTargetStored(b, s, w, AfterBackfill(s, PlanBackfill(b), b.newId, now).departures, now, u);
  }

  // ---- Links staff chose ----

  /** The choice is one of the reservation's matches. */
  ghost predicate CanBeChosen(b: Input, after: map<Id, Departure>, m: ManualLink) {
    exists u :: u in b.rows && u.id == m.reservationId && m.departureId in Matches(after, u.row)
  }

  /** The reservation is on the departure chosen. */
  predicate IsOnChoice(s: Store, m: ManualLink) {
    m.reservationId in s.reservations && s.reservations[m.reservationId].departureId == Some(m.departureId)
  }

  /** A good choice for the same reservation stands earlier in the list. */
  ghost predicate ListedAlready(b: Input, s: Store, after: map<Id, Departure>, i: nat) {
    i < |b.manual| && exists j ::
      && 0 <= j < i && b.manual[j].reservationId == b.manual[i].reservationId
      && (CanBeChosen(b, after, b.manual[j]) || IsOnChoice(s, b.manual[j]))
  }

  /** The reason a link staff chose is refused for. */
  ghost predicate ChoiceRefused(b: Input, s: Store, after: map<Id, Departure>, i: nat, problem: Problem)
    requires i < |b.manual|
  {
    var m := b.manual[i];
    if ListedAlready(b, s, after, i) then problem == LISTED_MORE_THAN_ONCE
    else
      && !IsOnChoice(s, m) && !CanBeChosen(b, after, m)
      && problem ==
           if m.reservationId !in s.reservations then NOT_IN_TENANT
           else if s.reservations[m.reservationId].departureId.Some? then LINKED_TO_ANOTHER else WRONG_DEPARTURE
  }

  predicate IsDone(b: Input, m: ManualLink) {
    RowById(b.rows, m.reservationId).None? && m.reservationId in b.linked && b.linked[m.reservationId] == m.departureId
  }

  predicate IsChoosable(b: Input, m: ManualLink) {
    var row := RowById(b.rows, m.reservationId);
    row.Some? && m.departureId in CandidateIds(b, ReservationKey(row.value.row))
  }

  predicate GoodBefore(b: Input, links: seq<ManualLink>, i: nat) {
    i < |links| && exists j :: 0 <= j < i && links[j].reservationId == links[i].reservationId && (IsDone(b, links[j]) || IsChoosable(b, links[j]))
  }

  function ProblemAt(b: Input, links: seq<ManualLink>): nat -> Option<(ManualLink, Problem)> {
    (i: nat) =>
      if i >= |links| then None
      else if GoodBefore(b, links, i) then Some((links[i], LISTED_MORE_THAN_ONCE))
      else if IsDone(b, links[i]) || IsChoosable(b, links[i]) then None
      else if RowById(b.rows, links[i].reservationId).Some? then Some((links[i], WRONG_DEPARTURE))
      else if links[i].reservationId in b.linked then Some((links[i], LINKED_TO_ANOTHER))
      else Some((links[i], NOT_IN_TENANT))
  }

  ghost predicate ListedGood(b: Input, links: seq<ManualLink>, r: Id, done: bool) {
    exists m :: m in links && m.reservationId == r && (if done then IsDone(b, m) else IsChoosable(b, m))
  }

  lemma {:induction false} SameProblems(b: Input, links: seq<ManualLink>, more: seq<ManualLink>, n: nat)
    requires n <= |links| <= |more| && more[..|links|] == links
    ensures Collect(n, ProblemAt(b, more)) == Collect(n, ProblemAt(b, links))
  {
    hide IsDone, IsChoosable, RowById;
    if n > 0 {
      SameProblems(b, links, more, n - 1);
      assert forall j :: 0 <= j < n ==> more[j] == links[j];
      assert GoodBefore(b, more, n - 1) <==> GoodBefore(b, links, n - 1);
    }
  }

  lemma {:induction false} GoodBeforeListed(b: Input, front: seq<ManualLink>, last: ManualLink)
    ensures GoodBefore(b, front + [last], |front|) <==> ListedGood(b, front, last.reservationId, true) || ListedGood(b, front, last.reservationId, false)
  {
    hide IsDone, IsChoosable;
    var links := front + [last];
    if GoodBefore(b, links, |front|) {
      var j :| 0 <= j < |front| && links[j].reservationId == last.reservationId && (IsDone(b, links[j]) || IsChoosable(b, links[j]));
      assert links[j] == front[j] && front[j] in front;
    }
    forall done | ListedGood(b, front, last.reservationId, done) ensures GoodBefore(b, links, |front|) {
      var m :| m in front && m.reservationId == last.reservationId && (if done then IsDone(b, m) else IsChoosable(b, m));
      var j :| 0 <= j < |front| && front[j] == m;
      assert links[j] == m;
    }
  }

  lemma {:induction false} ListedMore(b: Input, front: seq<ManualLink>, last: ManualLink, r: Id, done: bool)
    ensures ListedGood(b, front + [last], r, done) <==>
      ListedGood(b, front, r, done) || (last.reservationId == r && if done then IsDone(b, last) else IsChoosable(b, last))
  {
    hide IsDone, IsChoosable;
    assert forall m :: m in front + [last] <==> m in front || m == last;
  }

  ghost predicate StateOf(b: Input, links: seq<ManualLink>, st: ManualState) {
    && (forall r :: r in st.done <==> ListedGood(b, links, r, true))
    && (forall r :: r in st.chosen <==> ListedGood(b, links, r, false))
    && st.invalid == Collect(|links|, ProblemAt(b, links))
  }

  lemma {:induction false} ManualStateIs(b: Input, links: seq<ManualLink>)
    ensures StateOf(b, links, ManualAfter(b, links))
  {
    if |links| > 0 {
      var front, last := links[..|links| - 1], links[|links| - 1];
      assert links == front + [last];
      ManualStateIs(b, front);
      ManualStateStep(b, front, last, ManualAfter(b, front));
    }
  }

  lemma {:induction false} StepByGood(b: Input, st: ManualState, last: ManualLink)
    ensures var next := ManualStep(b, st, last);
      var seen := last.reservationId in st.chosen || last.reservationId in st.done;
      && next.done == (if !seen && IsDone(b, last) then st.done + {last.reservationId} else st.done)
      && next.chosen.Keys == (if !seen && IsChoosable(b, last) then st.chosen.Keys + {last.reservationId} else st.chosen.Keys)
      && next.invalid == st.invalid + (
           if seen then [(last, LISTED_MORE_THAN_ONCE)]
           else if IsDone(b, last) || IsChoosable(b, last) then []
           else if RowById(b.rows, last.reservationId).Some? then [(last, WRONG_DEPARTURE)]
           else if last.reservationId in b.linked then [(last, LINKED_TO_ANOTHER)]
           else [(last, NOT_IN_TENANT)])
  {
    hide CandidateIds, RowById;
  }

  lemma {:induction false} GoodOneWay(b: Input, front: seq<ManualLink>, m: ManualLink)
    ensures IsDone(b, m) ==> !ListedGood(b, front, m.reservationId, false)
    ensures IsChoosable(b, m) ==> !ListedGood(b, front, m.reservationId, true)
  {
    hide CandidateIds, RowById;
  }

  lemma {:induction false} ManualStateStep(b: Input, front: seq<ManualLink>, last: ManualLink, st: ManualState)
    requires StateOf(b, front, st)
    ensures StateOf(b, front + [last], ManualStep(b, st, last))
  {
    hide IsDone, IsChoosable, RowById, ManualStep, ListedGood, GoodBefore;
    var links, next := front + [last], ManualStep(b, st, last);
    StepByGood(b, st, last);
    GoodBeforeListed(b, front, last);
    GoodOneWay(b, front, last);
    SameProblems(b, front, links, |front|);
    forall r, done ensures ListedGood(b, links, r, done) <==>
      ListedGood(b, front, r, done) || (last.reservationId == r && if done then IsDone(b, last) else IsChoosable(b, last))
    {
      ListedMore(b, front, last, r, done);
    }
  }

  lemma {:induction false} ChoosableIff(b: Input, s: Store, w: Window, rides: seq<Ride>, records: seq<ExceptionRecord>, now: int, m: ManualLink)
    requires Ready(b, s, w, rides, records) && m in b.manual
    ensures IsChoosable(b, m) <==> CanBeChosen(b, AfterBackfill(s, PlanBackfill(b), b.newId, now).departures, m)
    ensures IsDone(b, m) <==> IsOnChoice(s, m)
    ensures RowById(b.rows, m.reservationId).Some? <==> m.reservationId in s.reservations && s.reservations[m.reservationId].departureId.None?
    ensures m.reservationId in b.linked <==> m.reservationId in s.reservations && s.reservations[m.reservationId].departureId.Some?
  {
    hide Ready, AfterBackfill, PlanBackfill, CandidateIds, Matches, FreshIds, IsStoredRows, IsTravelRange, IsDate;
    ReadyParts(b, s, w, rides, records);
    RowByIdAbsent(b.rows, m.reservationId);
    forall u | u in b.rows && u.id == m.reservationId
      ensures RowById(b.rows, m.reservationId) == Some(u)
      ensures m.departureId in CandidateIds(b, ReservationKey(u.row)) <==> m.departureId in Matches(AfterBackfill(s, PlanBackfill(b), b.newId, now).departures, u.row)
    {
      RowByIdFinds(b.rows, u);
      MatchesCounted(b, s, w, rides, records, now, u);
    }
    if m.reservationId in s.reservations && s.reservations[m.reservationId].departureId.None? {
      assert IsUnlinked(s, m.reservationId);
    }
  }

  /** Each link staff chose is refused exactly for its one reason, and for none when it is good and the first for its reservation. */
  lemma {:induction false} ChoicesRefusedIff(b: Input, s: Store, w: Window, rides: seq<Ride>, records: seq<ExceptionRecord>, now: int)
    requires Ready(b, s, w, rides, records)
    ensures var plan := PlanBackfill(b);
      var t := AfterBackfill(s, plan, b.newId, now).departures;
      && (forall m, problem :: (m, problem) in plan.invalidManualLinks <==>
            exists i: nat :: i < |b.manual| && b.manual[i] == m && ChoiceRefused(b, s, t, i, problem))
      && plan.manualLinksDone == |set m | m in b.manual && IsOnChoice(s, m) :: m.reservationId|
  {
    hide Ready, AfterBackfill, IsDone, IsChoosable, RowById, CanBeChosen, IsOnChoice, ManualAfter, HistoryCreates, LegacyCreates, LegacyReused, Links, Reports,
      StateOf, ListedGood;
    var t := AfterBackfill(s, PlanBackfill(b), b.newId, now).departures;
    ManualStateIs(b, b.manual);
    StateParts(b, b.manual, ManualAfter(b, b.manual));
    forall m | m in b.manual
      ensures IsChoosable(b, m) <==> CanBeChosen(b, t, m)
      ensures IsDone(b, m) <==> IsOnChoice(s, m)
      ensures RowById(b.rows, m.reservationId).Some? <==> m.reservationId in s.reservations && s.reservations[m.reservationId].departureId.None?
      ensures m.reservationId in b.linked <==> m.reservationId in s.reservations && s.reservations[m.reservationId].departureId.Some?
    {
      ChoosableIff(b, s, w, rides, records, now, m);
    }
    forall i: nat, problem | i < |b.manual| ensures ProblemAt(b, b.manual)(i) == Some((b.manual[i], problem)) <==> ChoiceRefused(b, s, t, i, problem) {
      assert b.manual[i] in b.manual;
      assert GoodBefore(b, b.manual, i) <==> ListedAlready(b, s, t, i);
    }
    CollectMembers(|b.manual|, ProblemAt(b, b.manual));
    assert ManualAfter(b, b.manual).done == set m | m in b.manual && IsOnChoice(s, m) :: m.reservationId by {
      forall r ensures ListedGood(b, b.manual, r, true) <==> exists m :: m in b.manual && IsOnChoice(s, m) && m.reservationId == r {
        DoneListed(b, b.manual, r);
      }
    }
  }

  lemma {:induction false} DoneListed(b: Input, links: seq<ManualLink>, r: Id)
    ensures ListedGood(b, links, r, true) <==> exists m :: m in links && IsDone(b, m) && m.reservationId == r
  {
    hide IsDone, IsChoosable;
  }

  lemma {:induction false} StateParts(b: Input, links: seq<ManualLink>, st: ManualState)
    requires StateOf(b, links, st)
    ensures st.invalid == Collect(|links|, ProblemAt(b, links)) && forall r :: r in st.done <==> ListedGood(b, links, r, true)
  {
  }
}
