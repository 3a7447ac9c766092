/** A backfill keeps the schema's constraints, the paired decisions, and a store in step. */
module BackfillKeeps {
  import opened Basics
  import opened Text
  import opened Calendar
  import opened Timetable
  import opened Tables
  import opened SyncPlan
  import opened SyncRules
  import opened SyncApply
  import opened DecisionPairing
  import opened LinkRule
  import opened LegacyRows
  import opened Backfill
  import opened BackfillTotal
  import opened BackfillApply
  import opened BackfillTheorems
  import opened BackfillLinks
  import opened BackfillAgain

  // ---- What is new does not clash with what is stored ----

  /** A departure of the past about to be written, inside the range that was read. */
  lemma {:induction false} HistoryInRange(b: Input, s: Store, w: Window, rides: seq<Ride>, records: seq<ExceptionRecord>, p: Planned)
    requires Ready(b, s, w, rides, records) && p in HistoryCreates(b)
    ensures HistoryNamed(s, p) && InWindow(w, p.serviceDate) && StrLess(p.serviceDate, b.today) && !StoredPlanned(b.stored, p.key)
  {
    hide Ready, HistoryCreates, IsDate, RanUnder, HistoryNamed, StrLess, Wanted;
    CreatedHistory(b, s, w, rides, records);
    HistoryIsNamed(b, s, w, rides, records);
    ReadyLinkage(b, s, w, rides, records);
    InsidePast(w, b.today, RanUnder(s, p.key).value.serviceDate);
  }

  lemma {:induction false} InsidePast(w: Window, today: string, date: string)
    requires InWindow(PastPart(w, today), date)
    ensures InWindow(w, date)
  {
    hide IsDate, UtcDay, AddDays, StrLess;
    if HasYesterday(today) {
      var yesterday := AddDays(today, -1);
      StrLessTrichotomy(w.to, yesterday);
      OrderOf(date, yesterday, w.to);
    }
  }

  /** A stored departure the range covers is one the plan knew of. */
  lemma {:induction false} NotStoredTwice(b: Input, s: Store, w: Window, rides: seq<Ride>, records: seq<ExceptionRecord>, p: Planned, d: Id)
    requires Ready(b, s, w, rides, records) && p in HistoryCreates(b) && d in s.departures
    ensures PlannedKeyOf(s.departures[d]) != Some(p.key)
  {
    hide Ready, HistoryCreates, HistoryNamed, IsDate, InWindow, FreshIds, IsUnlinkedLoad, IsTravelRange, IsLinkedLoad;
    ReadyParts(b, s, w, rides, records);
    ReadyLinkage(b, s, w, rides, records);
    HistoryInRange(b, s, w, rides, records, p);
    if PlannedKeyOf(s.departures[d]) == Some(p.key) {
      KeyNamesDate(s, d, p);
    }
  }

  lemma {:induction false} LegacyInRange(b: Input, s: Store, w: Window, rides: seq<Ride>, records: seq<ExceptionRecord>, l: PlannedLegacy)
    requires Ready(b, s, w, rides, records) && l in LegacyCreates(b)
    ensures l.key.rideId in s.rides && IsDate(l.key.date) && InWindow(w, l.key.date) && LegacyStored(b.stored, l.key).None?
  {
    hide Ready, IsDate, InWindow, LegacyCreates, Chosen, LegacyStored, OutcomeOf, FreshIds, IsStoredRows, IsLinkedLoad, GroupKeys;
    ReadyParts(b, s, w, rides, records);
    CreatedLegacy(b);
    LeftoverKeysExactly(Leftovers(b, Chosen(b)));
    var u :| u in Leftovers(b, Chosen(b)) && ReservationKey(u.row) == l.key;
    var i := CollectSource(|b.rows|, UnmatchedRowAt(b, Chosen(b)), u);
    assert b.rows[i] in b.rows;
  }

  lemma {:induction false} NotLegacyTwice(b: Input, s: Store, w: Window, rides: seq<Ride>, records: seq<ExceptionRecord>, l: PlannedLegacy, d: Id)
    requires Ready(b, s, w, rides, records) && l in LegacyCreates(b) && d in s.departures && s.departures[d].source == LEGACY
    ensures DepartureKey(s.departures[d]) != l.key
  {
    hide Ready, LegacyCreates, IsDate, InWindow, FreshIds, IsUnlinkedLoad, IsTravelRange, IsLinkedLoad, LegacyStored;
    ReadyParts(b, s, w, rides, records);
    LegacyInRange(b, s, w, rides, records, l);
    LegacyStoredFinds(b.stored, l.key);
  }

  ghost predicate IsHistoryRow(b: Input, id: Id, row: Departure, now: int) {
    exists p :: p in HistoryCreates(b) && id == b.newId(p.key) && row == NewRow(p, now) && PlannedKeyOf(row) == Some(p.key)
  }

  /** The key a departure of the backfill is unique under. */
  lemma {:induction false} AddedRow(b: Input, s: Store, w: Window, rides: seq<Ride>, records: seq<ExceptionRecord>, now: int, id: Id, row: Departure)
    requires Ready(b, s, w, rides, records) && IsAdded(b, id, row, now)
    ensures row.rideId in s.rides && IsDate(row.serviceDate)
    ensures row.source == LEGACY ==> exists l :: l in LegacyCreates(b) && id == l.id && row == LegacyRow(l)
    ensures row.source != LEGACY ==> StrLess(row.serviceDate, b.today) && IsHistoryRow(b, id, row, now)
  {
    hide Ready, HistoryCreates, LegacyCreates, IsDate, StrLess, InWindow;
    if p :| p in HistoryCreates(b) && id == b.newId(p.key) && row == NewRow(p, now) {
      HistoryInRange(b, s, w, rides, records, p);
      NewRowKey(s, p, now);
    } else {
      var l :| l in LegacyCreates(b) && id == l.id && row == LegacyRow(l);
      LegacyInRange(b, s, w, rides, records, l);
    }
  }

  /** Two departures under one planned key, or one LEGACY key, are one departure. */
  lemma {:induction false} AddedAlone(b: Input, s: Store, w: Window, rides: seq<Ride>, records: seq<ExceptionRecord>, now: int, t: map<Id, Departure>, x: Id, y: Id)
    requires Ready(b, s, w, rides, records) && Extends(b, s, t, now) && x in t && y in t && x !in s.departures
    ensures t[x].source != LEGACY && PlannedKeyOf(t[y]) == PlannedKeyOf(t[x]) ==> x == y
    ensures t[x].source == LEGACY && t[y].source == LEGACY && DepartureKey(t[y]) == DepartureKey(t[x]) ==> x == y
  {
    hide Ready, HistoryCreates, LegacyCreates, IsDate, StrLess, InWindow, NewRow, PlannedKeyOf;
    assert IsAdded(b, x, t[x], now);
    AddedRow(b, s, w, rides, records, now, x, t[x]);
    if t[x].source == LEGACY {
      var l :| l in LegacyCreates(b) && x == l.id && t[x] == LegacyRow(l);
      if y in s.departures {
        if t[y].source == LEGACY { NotLegacyTwice(b, s, w, rides, records, l, y); }
      } else {
        assert IsAdded(b, y, t[y], now);
        AddedRow(b, s, w, rides, records, now, y, t[y]);
        CreatedLegacy(b);
      }
    } else {
      var p :| p in HistoryCreates(b) && x == b.newId(p.key) && t[x] == NewRow(p, now) && PlannedKeyOf(t[x]) == Some(p.key);
      if y in s.departures {
        NotStoredTwice(b, s, w, rides, records, p, y);
      } else {
        assert IsAdded(b, y, t[y], now);
        AddedRow(b, s, w, rides, records, now, y, t[y]);
        if t[y].source == LEGACY { LegacyHasNoPlannedKey(t[y]); }
      }
    }
  }

  lemma {:induction false} LegacyHasNoPlannedKey(row: Departure)
    requires row.source == LEGACY
    ensures PlannedKeyOf(row).None?
  {
  }

  // ---- The schema's constraints ----

  lemma {:induction false} StoredUnique(b: Input, s: Store, w: Window, rides: seq<Ride>, records: seq<ExceptionRecord>)
    requires Ready(b, s, w, rides, records)
    ensures UniqueSchedule(s.departures) && UniqueLegacy(s.departures)
  {
    hide UniqueSchedule, UniqueLegacy, IsRead, Linkage, DepartureKeys, ExceptionKeys, ReservationKeys, RidesNamed;
  }

  lemma {:induction false} KeepsOneSchedule(b: Input, s: Store, w: Window, rides: seq<Ride>, records: seq<ExceptionRecord>, now: int, t: map<Id, Departure>)
    requires Ready(b, s, w, rides, records) && Extends(b, s, t, now) && UniqueSchedule(s.departures)
    ensures UniqueSchedule(t)
  {
    hide Ready, IsAdded, HistoryCreates, LegacyCreates, DepartureKey, NewRow, LegacyRow;
    forall x, y | x in t && y in t && x !in s.departures && t[x].source == SCHEDULE && t[y].source == SCHEDULE
      && t[x].rideId == t[y].rideId && t[x].serviceDate == t[y].serviceDate
      ensures x == y
    {
      AddedAlone(b, s, w, rides, records, now, t, x, y);
    }
  }

  lemma {:induction false} KeepsOneLegacy(b: Input, s: Store, w: Window, rides: seq<Ride>, records: seq<ExceptionRecord>, now: int, t: map<Id, Departure>)
    requires Ready(b, s, w, rides, records) && Extends(b, s, t, now) && UniqueLegacy(s.departures)
    ensures UniqueLegacy(t)
  {
    hide Ready, IsAdded, HistoryCreates, LegacyCreates, PlannedKeyOf, NewRow, LegacyRow;
    forall x, y | x in t && y in t && x !in s.departures && t[x].source == LEGACY && t[y].source == LEGACY && DepartureKey(t[y]) == DepartureKey(t[x])
      ensures x == y
    {
      AddedAlone(b, s, w, rides, records, now, t, x, y);
    }
  }

  lemma {:induction false} KeepsUnique(b: Input, s: Store, w: Window, rides: seq<Ride>, records: seq<ExceptionRecord>, now: int, t: map<Id, Departure>)
    requires Ready(b, s, w, rides, records) && Extends(b, s, t, now)
    ensures UniqueSchedule(t) && UniqueLegacy(t)
  {
    hide Ready, Extends, Valid, UniqueSchedule, UniqueLegacy;
    StoredUnique(b, s, w, rides, records);
    KeepsOneSchedule(b, s, w, rides, records, now, t);
    KeepsOneLegacy(b, s, w, rides, records, now, t);
  }

  lemma {:induction false} KeepsDepartureKeys(b: Input, s: Store, w: Window, rides: seq<Ride>, records: seq<ExceptionRecord>, now: int, t: Store)
    requires Ready(b, s, w, rides, records) && Extends(b, s, t.departures, now) && t.rides == s.rides && t.exceptions == s.exceptions
    ensures DepartureKeys(t) && Linkage(t)
  {
    hide Ready, Valid, IsAdded, HistoryCreates, LegacyCreates, AddedLinks, Linkage, DepartureKeys, IsHistoryRead, HasYesterday, PastPart;
    ReadyLinkage(b, s, w, rides, records);
    forall d | d in t.departures && d !in s.departures ensures AddedLinks(t, t.departures[d]) {
      AddedRowLinks(b, s, w, rides, records, now, d, t.departures[d], t);
    }
    ValidKeys(s);
    LinksAdded(s, t);
  }

  lemma {:induction false} ValidKeys(s: Store)
    requires Valid(s)
    ensures DepartureKeys(s)
  {
    hide DepartureKeys;
  }

  lemma {:induction false} LinksAdded(s: Store, t: Store)
    requires DepartureKeys(s) && Linkage(s) && t.rides == s.rides && t.exceptions == s.exceptions
    requires forall d :: d in s.departures ==> d in t.departures && t.departures[d] == s.departures[d]
    requires forall d :: d in t.departures && d !in s.departures ==> AddedLinks(t, t.departures[d])
    ensures DepartureKeys(t) && Linkage(t)
  {
    hide IsDate;
  }

  predicate AddedLinks(t: Store, row: Departure) {
    && row.rideId in t.rides && IsDate(row.serviceDate)
    && (row.rideExceptionId.Some? ==>
          var e := row.rideExceptionId.value;
          && row.source == EXTRA && e in t.exceptions && t.exceptions[e].kind == ADDITIONAL
          && t.exceptions[e].rideId == row.rideId && t.exceptions[e].exceptionDate == row.serviceDate)
  }

  lemma {:induction false} AddedRowLinks(b: Input, s: Store, w: Window, rides: seq<Ride>, records: seq<ExceptionRecord>, now: int, id: Id, row: Departure, t: Store)
    requires Ready(b, s, w, rides, records) && IsAdded(b, id, row, now) && t.rides == s.rides && t.exceptions == s.exceptions
    ensures AddedLinks(t, row)
  {
    hide Ready, HistoryCreates, LegacyCreates, IsDate, StrLess, InWindow;
    if p :| p in HistoryCreates(b) && id == b.newId(p.key) && row == NewRow(p, now) {
      HistoryInRange(b, s, w, rides, records, p);
    } else {
      var l :| l in LegacyCreates(b) && id == l.id && row == LegacyRow(l);
      LegacyInRange(b, s, w, rides, records, l);
    }
  }

  lemma {:induction false} KeepsReservationKeys(b: Input, s: Store, w: Window, rides: seq<Ride>, records: seq<ExceptionRecord>, now: int)
    requires Ready(b, s, w, rides, records) && Accepted(b)
    ensures ReservationKeys(AfterBackfill(s, PlanBackfill(b), b.newId, now))
  {
    hide Ready, AfterBackfill, PlanBackfill, LinkFor, Chosen, DepartureKeys, ExceptionKeys, UniqueSchedule, UniqueLegacy, Linkage, HasYesterday, IsHistoryRead,
      FreshIds, IsStoredRows, IsTravelRange, IsLinkedLoad, PastPart, Accepted, IsAdded, CandidateSet;
    var t := AfterBackfill(s, PlanBackfill(b), b.newId, now);
    ReadyParts(b, s, w, rides, records);
    ReadyLinkage(b, s, w, rides, records);
    ReservationsAfter(b, s, now);
    DeparturesAfter(b, s, w, rides, records, now);
    forall r | r in t.reservations && t.reservations[r].departureId.Some?
      ensures var d := t.reservations[r].departureId.value;
        d in t.departures && t.reservations[r].rideId == t.departures[d].rideId && t.reservations[r].travelDate == t.departures[d].serviceDate
    {
      if IsUnlinked(s, r) {
        var u := Unlinked(r, s.reservations[r]);
        assert u in b.rows;
        LinksFollowTheRule(b, s, w, rides, records, now, u);
      }
    }
  }

  /** Every foreign key and unique index still holds, so none of the writes is refused. */
  lemma {:induction false} BackfillKeepsValid(b: Input, s: Store, w: Window, rides: seq<Ride>, records: seq<ExceptionRecord>, now: int)
    requires Ready(b, s, w, rides, records) && Accepted(b)
    ensures Valid(AfterBackfill(s, PlanBackfill(b), b.newId, now)) && Linkage(AfterBackfill(s, PlanBackfill(b), b.newId, now))
  {
    hide Ready, Accepted, AfterBackfill, PlanBackfill, Extends, ReservationKeys, DepartureKeys, UniqueSchedule, UniqueLegacy, Linkage, IsHistoryRead, HasYesterday, IsDate, PastPart;
    var t := AfterBackfill(s, PlanBackfill(b), b.newId, now);
    FrameAfter(b, s, now);
    ReadyLinkage(b, s, w, rides, records);
    DeparturesAfter(b, s, w, rides, records, now);
    KeepsUnique(b, s, w, rides, records, now, t.departures);
    KeepsDepartureKeys(b, s, w, rides, records, now, t);
    KeepsReservationKeys(b, s, w, rides, records, now);
  }

  // ---- Decisions and the stored window ----

  /** What the backfill writes is before the agency's date, or LEGACY, so decisions of the dates ahead are untouched. */
  lemma {:induction false} AddedIsBehind(b: Input, s: Store, w: Window, rides: seq<Ride>, records: seq<ExceptionRecord>, now: int, t: map<Id, Departure>, d: Id)
    requires Ready(b, s, w, rides, records) && Extends(b, s, t, now) && d in t && d !in s.departures
    ensures t[d].source == LEGACY || StrLess(t[d].serviceDate, b.today)
  {
    hide Ready, IsAdded, HistoryCreates, LegacyCreates, StrLess, IsDate, PlannedKeyOf;
    AddedRow(b, s, w, rides, records, now, d, t[d]);
  }

  lemma {:induction false} KeepsNoSharing(b: Input, s: Store, w: Window, rides: seq<Ride>, records: seq<ExceptionRecord>, now: int, t: Store)
    requires Ready(b, s, w, rides, records) && Extends(b, s, t.departures, now) && NoSharing(s) && Linkage(t)
    ensures NoSharing(t)
  {
    hide Ready, IsAdded, HistoryCreates, LegacyCreates;
    forall x, y | x in t.departures && y in t.departures && x !in s.departures && t.departures[x].rideExceptionId.Some?
      && t.departures[x].rideExceptionId == t.departures[y].rideExceptionId
      ensures x == y
    {
      AddedAlone(b, s, w, rides, records, now, t.departures, x, y);
    }
  }

  /** From the agency's date on, the departures and the exception rows still tell the same story. */
  lemma {:induction false} BackfillKeepsPaired(b: Input, s: Store, w: Window, rides: seq<Ride>, records: seq<ExceptionRecord>, now: int, dates: iset<string>)
    requires Ready(b, s, w, rides, records) && Accepted(b) && Paired(s, dates)
    requires forall d :: d in dates ==> StrLe(b.today, d)
    ensures Sound(AfterBackfill(s, PlanBackfill(b), b.newId, now), dates)
  {
    hide Ready, Accepted, AfterBackfill, PlanBackfill, Valid, HistoryCreates, LegacyCreates, IsAdded, HasSkip, SameTimesAs, IsBusAdditional, StrLess, NoSharing, Linkage;
    var t := AfterBackfill(s, PlanBackfill(b), b.newId, now);
    FrameAfter(b, s, now);
    BackfillKeepsValid(b, s, w, rides, records, now);
    DeparturesAfter(b, s, w, rides, records, now);
    KeepsNoSharing(b, s, w, rides, records, now, t);
    forall d | d in t.departures && t.departures[d].source != LEGACY && t.departures[d].serviceDate in dates ensures d in s.departures {
      if d !in s.departures { AddedIsBehind(b, s, w, rides, records, now, t.departures, d); }
    }
    SameSkips(s, t);
    forall e | HasBus(s, e) ensures HasBus(t, e) {
      var d :| d in s.departures && IsExtraOf(s.departures[d], e);
      assert IsExtraOf(t.departures[d], e);
    }
  }

  lemma {:induction false} SameSkips(s: Store, t: Store)
    requires t.exceptions == s.exceptions
    ensures forall r, d :: HasSkip(t, r, d) <==> HasSkip(s, r, d)
  {
  }

  lemma {:induction false} RidersOnlyJoin(s: Store, t: Store, d: Id)
    requires forall r :: r in s.reservations && s.reservations[r].departureId.Some? ==> r in t.reservations && t.reservations[r] == s.reservations[r]
    ensures Referenced(s.reservations, d) ==> Referenced(t.reservations, d)
  {
    if Referenced(s.reservations, d) {
      var r :| r in RidersOf(s.reservations, d);
      assert r in RidersOf(t.reservations, d);
    }
  }

  /** An empty sync plan is still empty after a backfill. */
  lemma {:induction false} BackfillKeepsStep(b: Input, s: Store, w: Window, rides: seq<Ride>, records: seq<ExceptionRecord>, now: int, window: Window)
    requires Ready(b, s, w, rides, records) && Accepted(b) && InStep(s, window) && window.from == b.today
    ensures InStep(AfterBackfill(s, PlanBackfill(b), b.newId, now), window)
  {
    hide Ready, Accepted, AfterBackfill, PlanBackfill, HistoryCreates, LegacyCreates, IsAdded, Settled, Referenced, IsBusAdditional, StrLess, PlannedOn, IsDate,
      FreshIds, IsStoredRows, IsTravelRange, IsLinkedLoad, LinkedTo;
    var t := AfterBackfill(s, PlanBackfill(b), b.newId, now);
    FrameAfter(b, s, now);
    ReadyParts(b, s, w, rides, records);
    ReservationsAfter(b, s, now);
    DeparturesAfter(b, s, w, rides, records, now);
    forall d | d in t.departures && Loaded(window, t.departures[d]) ensures Settled(t, d) {
      if d !in s.departures { AddedIsBehind(b, s, w, rides, records, now, t.departures, d); }
      RidersOnlyJoin(s, t, d);
      MoreRidersSettled(s, t, d);
    }
    forall r, d | TimetableProduces(t.rides, window, r, d) ensures HasSchedule(t, r, d) {
      var x :| x in s.departures && IsScheduleOf(s.departures[x], r, d);
      assert IsScheduleOf(t.departures[x], r, d);
    }
    forall e | AddsBus(t, window, e) ensures HasExtra(t, window, e) {
      assert AddsBus(s, window, e);
      var x :| x in s.departures && IsExtraOf(s.departures[x], e) && InWindow(window, s.departures[x].serviceDate);
      assert IsExtraOf(t.departures[x], e);
    }
  }
}
