/** A second backfill, with the same manual links, has nothing to write. */
module BackfillAgain {
  import opened Basics
  import opened Text
  import opened Calendar
  import opened Timetable
  import opened Tables
  import opened SyncPlan
  import opened SyncRules
  import opened SyncApply
  import opened DecisionPairing
  import opened LinkRule
  import opened LegacyRows
  import opened Backfill
  import opened BackfillTotal
  import opened BackfillApply
  import opened BackfillTheorems
  import opened BackfillLinks

  /** Two readings of one history: the second after the first was applied, over the range that is left. */
  ghost predicate ReadAgain(b: Input, s: Store, w: Window, rides: seq<Ride>, records: seq<ExceptionRecord>, now: int,
                            b2: Input, w2: Window, rides2: seq<Ride>, records2: seq<ExceptionRecord>)
  {
    && Ready(b, s, w, rides, records) && Accepted(b)
    && Ready(b2, AfterBackfill(s, PlanBackfill(b), b.newId, now), w2, rides2, records2)
    && b2.today == b.today && b2.manual == b.manual
  }

  /** `backfillWrites` is false. */
  predicate WritesNothing(plan: BackfillPlan) {
    plan.historyCreates == [] && plan.legacyCreates == [] && plan.links == []
  }

  // ---- Who is left ----

  lemma {:induction false} StillUnlinked(b: Input, s: Store, now: int, b2: Input, u: Unlinked)
    requires IsUnlinkedLoad(b.rows, s) && IsUnlinkedLoad(b2.rows, AfterBackfill(s, PlanBackfill(b), b.newId, now))
    ensures u in b2.rows <==> u in b.rows && OutcomeOf(b, Chosen(b), u).Reported?
  {
    hide PlanBackfill, OutcomeOf, Chosen, AfterBackfill, LegacyTarget;
    var t := AfterBackfill(s, PlanBackfill(b), b.newId, now);
    ReservationsAfter(b, s, now);
    if u in b2.rows {
      assert IsUnlinked(s, u.id);
      var x := Unlinked(u.id, s.reservations[u.id]);
      assert x in b.rows;
    }
    if u in b.rows && OutcomeOf(b, Chosen(b), u).Reported? {
      assert IsUnlinked(t, u.id);
    }
  }

  lemma {:induction false} RangeShrinks(w: Window, w2: Window, rows: seq<Unlinked>, rows2: seq<Unlinked>, today: string, date: string)
    requires IsTravelRange(w, rows) && IsTravelRange(w2, rows2) && |rows2| > 0 && forall u :: u in rows2 ==> u in rows
    requires HasYesterday(today)
    ensures InWindow(w2, date) ==> InWindow(w, date)
    ensures InWindow(PastPart(w2, today), date) ==> InWindow(PastPart(w, today), date) && InWindow(w2, date)
  {
    hide IsDate, UtcDay, AddDays, StrLess;
    var first :| first in rows2 && first.row.travelDate == w2.from;
    var last :| last in rows2 && last.row.travelDate == w2.to;
    OrderOf(w.from, w2.from, date);
    OrderOf(date, w2.to, w.to);
    var yesterday := AddDays(today, -1);
    StrLessTrichotomy(w.to, yesterday);
    StrLessTrichotomy(w2.to, yesterday);
    OrderOf(date, w2.to, yesterday);
    OrderOf(date, yesterday, w.to);
    OrderOf(date, yesterday, w2.to);
  }

  lemma {:induction false} OrderOf(a: string, b: string, c: string)
    ensures StrLe(a, b) && StrLe(b, c) ==> StrLe(a, c)
  {
    if StrLe(a, b) && StrLe(b, c) {
      StrLeTransitive(a, b, c);
    }
  }

  // ---- No history is missing any more ----

  /** A stored departure of the past keeps its key's date. */
  lemma {:induction false} KeyNamesDate(s: Store, d: Id, p: Planned)
    requires Linkage(s) && d in s.departures && PlannedKeyOf(s.departures[d]) == Some(p.key) && HistoryNamed(s, p)
    ensures s.departures[d].serviceDate == p.serviceDate
  {
    hide IsDate;
  }

  lemma {:induction false} NewRowKey(s: Store, p: Planned, now: int)
    requires HistoryNamed(s, p)
    ensures PlannedKeyOf(NewRow(p, now)) == Some(p.key) && NewRow(p, now).serviceDate == p.serviceDate
  {
    hide IsDate;
  }

  lemma {:induction false} SameRan(s: Store, t: Store, key: PlanKey)
    requires t.rides == s.rides && t.exceptions == s.exceptions
    ensures RanUnder(t, key) == RanUnder(s, key)
  {
    hide PlannedOn, PlanExtra;
  }

  /** What ran under a key the first plan wanted is stored after it. */
  lemma {:induction false} HistoryIsStored(b: Input, s: Store, w: Window, rides: seq<Ride>, records: seq<ExceptionRecord>, now: int, key: PlanKey) returns (d: Id)
    requires Ready(b, s, w, rides, records) && RanIn(s, PastPart(w, b.today), key)
    requires var p := RanUnder(s, key).value; StrLess(p.serviceDate, b.today) && Wanted(b.rows, PlannedLinkKey(p))
    ensures var t := AfterBackfill(s, PlanBackfill(b), b.newId, now);
      d in t.departures && PlannedKeyOf(t.departures[d]) == Some(key) && t.departures[d].serviceDate == RanUnder(s, key).value.serviceDate
  {
    hide AfterBackfill, PlanBackfill, HistoryCreates, LegacyCreates, IsUnlinkedLoad, IsTravelRange, IsLinkedLoad, FreshIds, IsDate, RanUnder,
      Valid, Linkage, IsStoredRows, IsHistoryRead, HasYesterday, PastPart, InWindow, Wanted;
    ReadyLinkage(b, s, w, rides, records);
    RanNamed(s, key);
    var p := HistoryListed(b, s, w, rides, records, key);
    CreatedHistory(b, s, w, rides, records);
    DeparturesAfter(b, s, w, rides, records, now);
    if StoredPlanned(b.stored, key) {
      var x :| x in b.stored && PlannedKeyOf(x.row) == Some(key);
      d := x.id;
      StoredIsStored(b, s, w, rides, records, x);
      KeyNamesDate(s, d, p);
    } else {
      assert IsMissingHistory(b, p);
      d := b.newId(p.key);
      NewRowKey(s, p, now);
    }
  }

  lemma {:induction false} ReadyLinkage(b: Input, s: Store, w: Window, rides: seq<Ride>, records: seq<ExceptionRecord>)
    requires Ready(b, s, w, rides, records)
    ensures Linkage(s) && Valid(s) && RidesNamed(s.rides) && HasYesterday(b.today) && IsHistoryRead(b.history, s, PastPart(w, b.today), rides, records)
  {
    hide Linkage, RidesNamed, DepartureKeys, ExceptionKeys, ReservationKeys, UniqueSchedule, UniqueLegacy, IsUnlinkedLoad, IsTravelRange, IsStoredRows,
      IsHistoryRead, IsLinkedLoad, FreshIds, HasYesterday, PastPart;
  }

  lemma {:induction false} StoredIsStored(b: Input, s: Store, w: Window, rides: seq<Ride>, records: seq<ExceptionRecord>, x: StoredRow)
    requires Ready(b, s, w, rides, records) && x in b.stored
    ensures x.id in s.departures && s.departures[x.id] == x.row
  {
    hide Ready, InWindow;
    ReadyParts(b, s, w, rides, records);
  }

  lemma {:induction false} HistoryListed(b: Input, s: Store, w: Window, rides: seq<Ride>, records: seq<ExceptionRecord>, key: PlanKey) returns (p: Planned)
    requires Ready(b, s, w, rides, records) && RanIn(s, PastPart(w, b.today), key) && RanUnder(s, key).value.key == key
    ensures p in b.history && p.key == key && PlannedLinkKey(p) == PlannedLinkKey(RanUnder(s, key).value) && HistoryNamed(s, p)
    ensures p.serviceDate == RanUnder(s, key).value.serviceDate
  {
    hide Ready, IsDate, RanUnder, PastPart, IsRideLoad, IsRecordLoad, Walkable, HistoryOf, RanPast, HistoryNamed, HasYesterday;
    ReadyLinkage(b, s, w, rides, records);
    var past := PastPart(w, b.today);
    OrderOf(past.from, RanUnder(s, key).value.serviceDate, past.to);
    hide StrLess;
    HistoryExactly(rides, records, s, past);
    p := Credited(RanUnder(s, key).value, records);
    HistoryIsNamed(b, s, w, rides, records);
  }

  lemma {:induction false} NoHistoryLeft(b: Input, s: Store, w: Window, rides: seq<Ride>, records: seq<ExceptionRecord>, now: int,
                                         b2: Input, w2: Window, rides2: seq<Ride>, records2: seq<ExceptionRecord>, p: Planned)
    requires ReadAgain(b, s, w, rides, records, now, b2, w2, rides2, records2) && p in b2.history
    ensures !IsMissingHistory(b2, p)
  {
    hide Ready, AfterBackfill, PlanBackfill, RanUnder, IsDate, PastPart, Accepted, FreshIds, IsLinkedLoad, HistoryNamed, OutcomeOf, Chosen, HasYesterday, IsHistoryRead;
    var t := AfterBackfill(s, PlanBackfill(b), b.newId, now);
    ReadyParts(b, s, w, rides, records);
    ReadyParts(b2, t, w2, rides2, records2);
    ReadyLinkage(b, s, w, rides, records);
    if IsMissingHistory(b2, p) {
      HistoryIsNamed(b2, t, w2, rides2, records2);
      FrameAfter(b, s, now);
      SameRan(s, t, p.key);
      var u2 :| u2 in b2.rows && ReservationKey(u2.row) == PlannedLinkKey(p);
      forall u | u in b2.rows ensures u in b.rows {
        StillUnlinked(b, s, now, b2, u);
      }
      var found := RanUnder(s, p.key).value;
      RangeShrinks(w, w2, b.rows, b2.rows, b.today, found.serviceDate);
      assert u2 in b.rows && ReservationKey(u2.row) == PlannedLinkKey(found);
      var d := HistoryIsStored(b, s, w, rides, records, now, p.key);
    }
  }

  lemma {:induction false} FrameAfter(b: Input, s: Store, now: int)
    ensures AfterBackfill(s, PlanBackfill(b), b.newId, now).rides == s.rides
    ensures AfterBackfill(s, PlanBackfill(b), b.newId, now).exceptions == s.exceptions
  {
    hide PlanBackfill;
  }

  // ---- The second plan ----

  lemma {:induction false} NothingToCreate(b: Input, s: Store, w: Window, rides: seq<Ride>, records: seq<ExceptionRecord>, now: int,
                                           b2: Input, w2: Window, rides2: seq<Ride>, records2: seq<ExceptionRecord>)
    requires ReadAgain(b, s, w, rides, records, now, b2, w2, rides2, records2)
    ensures HistoryCreates(b2) == []
  {
    hide ReadAgain, IsMissingHistory;
    forall p | p in b2.history ensures !IsMissingHistory(b2, p) {
      NoHistoryLeft(b, s, w, rides, records, now, b2, w2, rides2, records2, p);
    }
    if |HistoryCreates(b2)| > 0 {
      var i := CollectSource(|b2.history|, HistoryAt(b2), HistoryCreates(b2)[0]);
    }
  }

  /** The departures the first plan wrote stay as they are in the second apply's eyes. */
  lemma {:induction false} SameCandidates(b: Input, s: Store, w: Window, rides: seq<Ride>, records: seq<ExceptionRecord>, now: int,
                                          b2: Input, w2: Window, rides2: seq<Ride>, records2: seq<ExceptionRecord>, u: Unlinked)
    requires ReadAgain(b, s, w, rides, records, now, b2, w2, rides2, records2) && u in b2.rows
    ensures u in b.rows && |CandidateIds(b2, ReservationKey(u.row))| == |CandidateIds(b, ReservationKey(u.row))|
  {
    hide Ready, AfterBackfill, PlanBackfill, Accepted, CandidateIds, CandidateSet, OutcomeOf, Chosen, FreshIds, IsLinkedLoad, InWindow, HistoryCreates, Extends,
      IsStoredRows;
    var key := ReservationKey(u.row);
    var t := AfterBackfill(s, PlanBackfill(b), b.newId, now);
    ReadyParts(b, s, w, rides, records);
    ReadyParts(b2, t, w2, rides2, records2);
    StillUnlinked(b, s, now, b2, u);
    PoolMatches(b, s, w, rides, records, now, key);
    PoolMatches(b2, t, w2, rides2, records2, now, key);
    var t2 := AfterBackfill(t, PlanBackfill(b2), b2.newId, now);
    NothingToCreate(b, s, w, rides, records, now, b2, w2, rides2, records2);
    DeparturesAfter(b2, t, w2, rides2, records2, now);
    MatchesUnmoved(b2, t, t2.departures, now, key);
  }

  lemma {:induction false} MatchesUnmoved(b: Input, s: Store, t: map<Id, Departure>, now: int, key: LinkKey)
    requires Extends(b, s, t, now) && HistoryCreates(b) == []
    ensures CandidateSet(t, key) == CandidateSet(s.departures, key)
  {
    hide HistoryCreates, LegacyCreates;
    forall d ensures d in CandidateSet(t, key) <==> d in CandidateSet(s.departures, key) {
      if d in t && d !in s.departures {
        assert IsAdded(b, d, t[d], now);
      }
    }
  }

  /** Every manual link is recognised as done. */
  lemma {:induction false} ManualIsDone(b: Input, s: Store, w: Window, rides: seq<Ride>, records: seq<ExceptionRecord>, now: int,
                                        b2: Input, w2: Window, rides2: seq<Ride>, records2: seq<ExceptionRecord>, m: ManualLink)
    requires ReadAgain(b, s, w, rides, records, now, b2, w2, rides2, records2) && m in b.manual
    ensures RowById(b2.rows, m.reservationId).None? && m.reservationId in b2.linked && b2.linked[m.reservationId] == m.departureId
  {
    hide Ready, AfterBackfill, RidesLoaded, CandidateIds, Links, HistoryCreates, LegacyCreates, LegacyReused, Reports, ManualAfter, RowById, FreshIds, IsStoredRows,
      IsTravelRange;
    var t := AfterBackfill(s, PlanBackfill(b), b.newId, now);
    ReadyParts(b, s, w, rides, records);
    ReadyParts(b2, t, w2, rides2, records2);
    ManualLinksAccepted(b, b.manual);
    assert IsGoodChoice(b, m);
    ReservationsAfter(b, s, now);
    RowByIdAbsent(b.rows, m.reservationId);
    RowByIdAbsent(b2.rows, m.reservationId);
    if RowById(b.rows, m.reservationId).Some? {
      var u := RowById(b.rows, m.reservationId).value;
      assert t.reservations[u.id].departureId == Some(m.departureId);
    } else {
      LinkedStaysLinked(b, s, t, m.reservationId);
    }
  }

  lemma {:induction false} LinkedStaysLinked(b: Input, s: Store, t: Store, r: Id)
    requires IsUnlinkedLoad(b.rows, s) && (forall u :: u in b.rows ==> u.id != r) && r in s.reservations
    requires forall x :: x in s.reservations && !IsUnlinked(s, x) ==> x in t.reservations && t.reservations[x] == s.reservations[x]
    ensures r in t.reservations && t.reservations[r] == s.reservations[r] && t.reservations[r].departureId.Some?
  {
    hide IsDate;
  }

  lemma {:induction false} AllDone(b2: Input, links: seq<ManualLink>)
    requires EachOnce(links)
    requires forall m :: m in links ==>
      RowById(b2.rows, m.reservationId).None? && m.reservationId in b2.linked && b2.linked[m.reservationId] == m.departureId
    ensures ManualAfter(b2, links).chosen == map[] && ManualAfter(b2, links).invalid == [] && |ManualAfter(b2, links).done| == |links|
    ensures forall r :: r in ManualAfter(b2, links).done <==> exists m :: m in links && m.reservationId == r
  {
    hide CandidateIds, RowById;
    if |links| > 0 {
      var front, last := links[..|links| - 1], links[|links| - 1];
      assert links == front + [last];
      AllDone(b2, front);
      var st := ManualAfter(b2, front);
      forall m | m in front ensures m.reservationId != last.reservationId {
        DifferentReservations(front, last, m);
      }
      assert ManualAfter(b2, links) == ManualStep(b2, st, last);
      assert last in links;
      hide ManualAfter, ManualProblem;
      assert ManualAfter(b2, links) == st.(done := st.done + {last.reservationId});
    }
  }

  lemma {:induction false} NothingChosen(b: Input, s: Store, w: Window, rides: seq<Ride>, records: seq<ExceptionRecord>, now: int,
                                         b2: Input, w2: Window, rides2: seq<Ride>, records2: seq<ExceptionRecord>)
    requires ReadAgain(b, s, w, rides, records, now, b2, w2, rides2, records2)
    ensures Chosen(b2) == map[] && PlanBackfill(b2).invalidManualLinks == [] && PlanBackfill(b2).manualLinksDone == |b.manual|
  {
    hide Ready, AfterBackfill, RidesLoaded, Links, HistoryCreates, LegacyCreates, LegacyReused, Reports, ManualAfter, RowById;
    forall m | m in b.manual
      ensures RowById(b2.rows, m.reservationId).None? && m.reservationId in b2.linked && b2.linked[m.reservationId] == m.departureId
    {
      ManualIsDone(b, s, w, rides, records, now, b2, w2, rides2, records2, m);
    }
    ManualLinksAccepted(b, b.manual);
    AllDone(b2, b.manual);
  }

  lemma {:induction false} ReportedAgain(b: Input, s: Store, w: Window, rides: seq<Ride>, records: seq<ExceptionRecord>, now: int,
                                         b2: Input, w2: Window, rides2: seq<Ride>, records2: seq<ExceptionRecord>, u: Unlinked)
    requires ReadAgain(b, s, w, rides, records, now, b2, w2, rides2, records2) && u in b2.rows
    ensures OutcomeOf(b2, Chosen(b2), u).Reported? && OutcomeOf(b2, Chosen(b2), u) == OutcomeOf(b, Chosen(b), u)
  {
    hide Ready, AfterBackfill, PlanBackfill, Accepted, CandidateIds, Chosen, FreshIds, IsLinkedLoad, IsStoredRows, IsHistoryId, IsTravelRange;
    ReadyParts(b, s, w, rides, records);
    ReadyParts(b2, AfterBackfill(s, PlanBackfill(b), b.newId, now), w2, rides2, records2);
    NothingChosen(b, s, w, rides, records, now, b2, w2, rides2, records2);
    SameCandidates(b, s, w, rides, records, now, b2, w2, rides2, records2, u);
    StillUnlinked(b, s, now, b2, u);
  }

  lemma {:induction false} AllReported(b: Input)
    requires forall u :: u in b.rows ==> OutcomeOf(b, Chosen(b), u).Reported?
    ensures Links(b) == [] && LegacyCreates(b) == [] && LeftoverKeys(b) == [] && |Reports(b)| == |b.rows|
  {
    hide OutcomeOf, Chosen, CandidateIds, NewLegacyAt;
    NoneCollected(b, |b.rows|);
  }

  lemma {:induction false} NoneCollected(b: Input, n: nat)
    requires n <= |b.rows| && forall u :: u in b.rows ==> OutcomeOf(b, Chosen(b), u).Reported?
    ensures Collect(n, JoinAt(b, Chosen(b))) == [] && Collect(n, UnmatchedRowAt(b, Chosen(b))) == [] && |Collect(n, ReportAt(b, Chosen(b)))| == n
  {
    hide OutcomeOf, Chosen, CandidateIds;
    if n > 0 {
      NoneCollected(b, n - 1);
      assert b.rows[n - 1] in b.rows;
    }
  }

  /**
   * Backfilling is idempotent: read again after its apply, with the same manual links, the
   * plan writes nothing, counts every manual link as done and refuses none, and reports the
   * same reservations for the same reasons.
   */
  lemma {:induction false} SecondRunWritesNothing(b: Input, s: Store, w: Window, rides: seq<Ride>, records: seq<ExceptionRecord>, now: int,
                                                  b2: Input, w2: Window, rides2: seq<Ride>, records2: seq<ExceptionRecord>)
    requires ReadAgain(b, s, w, rides, records, now, b2, w2, rides2, records2)
    ensures var again := PlanBackfill(b2);
      WritesNothing(again) && again.invalidManualLinks == [] && again.manualLinksDone == |b.manual| && |again.reported| == |b2.rows|
    ensures forall u :: u in b2.rows <==> u in b.rows && OutcomeOf(b, Chosen(b), u).Reported?
    ensures forall u :: u in b2.rows ==> OutcomeOf(b2, Chosen(b2), u) == OutcomeOf(b, Chosen(b), u)
  {
    hide ReadAgain, OutcomeOf, Chosen, LeftoverKeys, Links, HistoryCreates, LegacyCreates, LegacyReused, Reports, ManualAfter;
    NothingToCreate(b, s, w, rides, records, now, b2, w2, rides2, records2);
    NothingChosen(b, s, w, rides, records, now, b2, w2, rides2, records2);
    forall u | u in b2.rows ensures OutcomeOf(b2, Chosen(b2), u).Reported? && OutcomeOf(b2, Chosen(b2), u) == OutcomeOf(b, Chosen(b), u) {
      ReportedAgain(b, s, w, rides, records, now, b2, w2, rides2, records2, u);
    }
    AllReported(b2);
    forall u ensures u in b2.rows <==> u in b.rows && OutcomeOf(b, Chosen(b), u).Reported? {
      LeftAre(b, s, w, rides, records, now, b2, w2, rides2, records2, u);
    }
  }

  lemma {:induction false} LeftAre(b: Input, s: Store, w: Window, rides: seq<Ride>, records: seq<ExceptionRecord>, now: int,
                                   b2: Input, w2: Window, rides2: seq<Ride>, records2: seq<ExceptionRecord>, u: Unlinked)
    requires ReadAgain(b, s, w, rides, records, now, b2, w2, rides2, records2)
    ensures u in b2.rows <==> u in b.rows && OutcomeOf(b, Chosen(b), u).Reported?
  {
    hide Ready, AfterBackfill, PlanBackfill, OutcomeOf, Chosen, Accepted;
    ReadyParts(b, s, w, rides, records);
    ReadyParts(b2, AfterBackfill(s, PlanBackfill(b), b.newId, now), w2, rides2, records2);
    StillUnlinked(b, s, now, b2, u);
  }
}
