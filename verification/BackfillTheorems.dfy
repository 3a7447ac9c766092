/** What a backfill keeps, and why a second run writes nothing. */
module BackfillTheorems {
  import opened Basics
  import opened Text
  import opened Calendar
  import opened Timetable
  import opened Tables
  import opened SyncPlan
  import opened SyncRules
  import opened SyncApply
  import opened DecisionPairing
  import opened LinkRule
  import opened LegacyRows
  import opened Backfill
  import opened BackfillCompute
  import opened BackfillApply

  /** A store whose links are in order, read for a backfill. */
  ghost predicate Ready(b: Input, s: Store, w: Window, rides: seq<Ride>, records: seq<ExceptionRecord>) {
    Valid(s) && Linkage(s) && IsRead(b, s, w, rides, records)
  }

  lemma {:induction false} ReadyParts(b: Input, s: Store, w: Window, rides: seq<Ride>, records: seq<ExceptionRecord>)
    requires Ready(b, s, w, rides, records)
    ensures FreshIds(b, s.departures) && IsStoredRows(b.stored, s, w)
    ensures IsUnlinkedLoad(b.rows, s) && IsTravelRange(w, b.rows) && b.rides == s.rides && IsLinkedLoad(b.linked, s, b.manual)
  {
    hide Valid, Linkage, FreshIds, IsStoredRows, IsUnlinkedLoad, IsTravelRange, IsHistoryRead, IsLinkedLoad, HasYesterday, PastPart;
  }

  // ---- The departures a backfill adds ----

  predicate HistoryNamed(s: Store, p: Planned) {
    && p.rideId in s.rides && IsDate(p.serviceDate)
    && match p.key
       case ScheduleKey(r, d) => p.source == SCHEDULE && r == p.rideId && d == p.serviceDate && p.rideExceptionId.None?
       case ExtraKey(e) =>
         && p.source == EXTRA && p.rideExceptionId == Some(e)
         && e in s.exceptions && s.exceptions[e].kind == ADDITIONAL
         && s.exceptions[e].rideId == p.rideId && s.exceptions[e].exceptionDate == p.serviceDate
  }

  lemma {:induction false} RanNamed(s: Store, key: PlanKey)
    requires RanUnder(s, key).Some? && IsDate(RanUnder(s, key).value.serviceDate) && RidesNamed(s.rides)
    ensures RanUnder(s, key).value.key == key && HistoryNamed(s, RanUnder(s, key).value)
  {
    hide IsDate;
    match key
    case ScheduleKey(r, d) => PlannedNames(s.rides[r], d);
    case ExtraKey(e) =>
  }

  predicate RanPast(b: Input, s: Store, w: Window, p: Planned) {
    RanIn(s, PastPart(w, b.today), p.key) && PlannedLinkKey(p) == PlannedLinkKey(RanUnder(s, p.key).value)
  }

  lemma {:induction false} HistoryIsNamed(b: Input, s: Store, w: Window, rides: seq<Ride>, records: seq<ExceptionRecord>)
    requires Ready(b, s, w, rides, records)
    ensures forall p :: p in b.history ==> HistoryNamed(s, p) && RanPast(b, s, w, p)
    ensures DistinctKeys(b.history)
  {
    hide IsDate, InWindow, RanUnder, IsRecordLoad, IsRideLoad, Walkable, DepartureKeys, ReservationKeys, UniqueSchedule, UniqueLegacy, Linkage,
      IsUnlinkedLoad, IsTravelRange, IsStoredRows, IsLinkedLoad, FreshIds, HistoryOf;
    var past := PastPart(w, b.today);
    if StrLe(past.from, past.to) {
      HistoryExactly(rides, records, s, past);
      forall p | p in b.history
        ensures HistoryNamed(s, p) && RanPast(b, s, w, p)
      {
        RanNamed(s, p.key);
      }
    }
  }

  lemma {:induction false} FilteredHistory(b: Input)
    requires DistinctKeys(b.history)
    ensures forall p :: p in HistoryCreates(b) <==> p in b.history && IsMissingHistory(b, p)
    ensures DistinctKeys(HistoryCreates(b))
  {
    hide IsMissingHistory;
    CollectMembers(|b.history|, HistoryAt(b));
    forall p ensures p in HistoryCreates(b) <==> p in b.history && IsMissingHistory(b, p) {
      if p in HistoryCreates(b) {
        var i := CollectSource(|b.history|, HistoryAt(b), p);
      }
      if p in b.history && IsMissingHistory(b, p) {
        var i :| 0 <= i < |b.history| && b.history[i] == p;
        assert HistoryAt(b)(i) == Some(p);
      }
    }
    forall i, j | 0 <= i < j < |HistoryCreates(b)| ensures HistoryCreates(b)[i].key != HistoryCreates(b)[j].key {
      var x, y := CollectSources(|b.history|, HistoryAt(b), i, j);
    }
  }

  lemma {:induction false} CreatedHistory(b: Input, s: Store, w: Window, rides: seq<Ride>, records: seq<ExceptionRecord>)
    requires Ready(b, s, w, rides, records)
    ensures forall p :: p in HistoryCreates(b) <==> p in b.history && IsMissingHistory(b, p)
    ensures forall p :: p in HistoryCreates(b) ==> HistoryNamed(s, p)
    ensures DistinctKeys(HistoryCreates(b))
  {
    hide IsMissingHistory, HistoryNamed, RanPast, Ready, HistoryCreates;
    HistoryIsNamed(b, s, w, rides, records);
    FilteredHistory(b);
  }

  ghost predicate DistinctLegacies(creates: seq<PlannedLegacy>) {
    forall i, j :: 0 <= i < j < |creates| ==> creates[i].key != creates[j].key
  }

  lemma {:induction false} NewLegacies(b: Input, keys: seq<LinkKey>, rows: seq<Unlinked>)
    requires Distinct(keys)
    ensures var creates := Collect(|keys|, NewLegacyAt(b, keys, rows));
      && (forall l :: l in creates ==> l.key in keys && LegacyStored(b.stored, l.key).None? && l.key.rideId in b.rides && l.id == b.legacyId(l.key))
      && DistinctLegacies(creates)
  {
    hide GroupOf, LegacyStored, NewLegacy;
    var f := NewLegacyAt(b, keys, rows);
    var creates := Collect(|keys|, f);
    forall l | l in creates
      ensures l.key in keys && LegacyStored(b.stored, l.key).None? && l.key.rideId in b.rides && l.id == b.legacyId(l.key)
    {
      var i := CollectSource(|keys|, f, l);
    }
    forall i, j | 0 <= i < j < |creates| ensures creates[i].key != creates[j].key {
      var x, y := CollectSources(|keys|, f, i, j);
    }
  }

  lemma {:induction false} CreatedLegacy(b: Input)
    ensures forall l :: l in LegacyCreates(b) ==>
      l.key in LeftoverKeys(b) && LegacyStored(b.stored, l.key).None? && l.key.rideId in b.rides && l.id == b.legacyId(l.key)
    ensures DistinctLegacies(LegacyCreates(b))
  {
    hide GroupKeys, Leftovers, Chosen, LegacyStored, NewLegacyAt, Collect, DistinctLegacies;
    var rows := Leftovers(b, Chosen(b));
    NoKeyNoGroup(rows, LinkKey("", "", ""));
    NewLegacies(b, LeftoverKeys(b), rows);
  }

  lemma {:induction false} WithLegacyExactly(departures: map<Id, Departure>, creates: seq<PlannedLegacy>)
    requires forall i, j :: 0 <= i < j < |creates| ==> creates[i].id != creates[j].id
    requires forall l :: l in creates ==> l.id !in departures
    ensures var d := WithLegacy(departures, creates);
      && (forall id :: id in departures ==> id in d && d[id] == departures[id])
      && (forall l :: l in creates ==> l.id in d && d[l.id] == LegacyRow(l))
      && (forall id :: id in d && id !in departures ==> exists l :: l in creates && id == l.id)
  {
    if |creates| > 0 {
      var front, last := creates[..|creates| - 1], creates[|creates| - 1];
      forall l | l in front ensures l.id != last.id {
        var i :| 0 <= i < |front| && front[i] == l;
        assert creates[i] == l;
      }
      assert creates == front + [last];
      WithLegacyExactly(departures, front);
      hide WithLegacy, LegacyRow;
      assert WithLegacy(departures, creates) == WithLegacy(departures, front)[last.id := LegacyRow(last)] by {
        LastLegacy(departures, creates);
      }
    }
  }

  lemma {:induction false} LastLegacy(departures: map<Id, Departure>, creates: seq<PlannedLegacy>)
    requires |creates| > 0
    ensures var last := creates[|creates| - 1];
      WithLegacy(departures, creates) == WithLegacy(departures, creates[..|creates| - 1])[last.id := LegacyRow(last)]
  {
    hide LegacyRow;
  }

  /** A departure the backfill adds: a missing one of the past, or a LEGACY one. */
  ghost predicate IsAdded(b: Input, id: Id, row: Departure, now: int) {
    || (exists p :: p in HistoryCreates(b) && id == b.newId(p.key) && row == NewRow(p, now))
    || (exists l :: l in LegacyCreates(b) && id == l.id && row == LegacyRow(l))
  }

  /** Nothing stored is changed, and what is new is what was planned. */
  ghost predicate Extends(b: Input, s: Store, t: map<Id, Departure>, now: int) {
    && (forall d :: d in s.departures ==> d in t && t[d] == s.departures[d])
    && (forall p :: p in HistoryCreates(b) ==> b.newId(p.key) in t && t[b.newId(p.key)] == NewRow(p, now))
    && (forall l :: l in LegacyCreates(b) ==> l.id in t && t[l.id] == LegacyRow(l))
    && (forall d :: d in t && d !in s.departures ==> IsAdded(b, d, t[d], now))
  }

  lemma {:induction false} Written(b: Input, departures: map<Id, Departure>, creates: seq<Planned>, legacies: seq<PlannedLegacy>, now: int)
    requires FreshIds(b, departures) && DistinctKeys(creates)
    requires forall l :: l in legacies ==> l.id == b.legacyId(l.key)
    requires DistinctLegacies(legacies)
    ensures var t := WithLegacy(InsertPlanned(departures, creates, b.newId, now), legacies);
      && (forall d :: d in departures ==> d in t && t[d] == departures[d])
      && (forall p :: p in creates ==> b.newId(p.key) in t && t[b.newId(p.key)] == NewRow(p, now))
      && (forall l :: l in legacies ==> l.id in t && t[l.id] == LegacyRow(l))
      && (forall d :: d in t && d !in departures ==>
            (exists p :: p in creates && d == b.newId(p.key)) || (exists l :: l in legacies && d == l.id))
  {
    hide NewRow, LegacyRow;
    InsertPlannedExactly(departures, creates, b.newId, now);
    var inserted := InsertPlanned(departures, creates, b.newId, now);
    forall i, j | 0 <= i < j < |legacies| ensures legacies[i].id != legacies[j].id {
      assert legacies[i] in legacies && legacies[j] in legacies;
    }
    WithLegacyExactly(inserted, legacies);
  }

  lemma {:induction false} DeparturesAfter(b: Input, s: Store, w: Window, rides: seq<Ride>, records: seq<ExceptionRecord>, now: int)
    requires Ready(b, s, w, rides, records)
    ensures Extends(b, s, AfterBackfill(s, PlanBackfill(b), b.newId, now).departures, now)
  {
    hide HistoryNamed, IsMissingHistory, Ready, FreshIds, LegacyReused, Links, Reports, ManualAfter, HistoryCreates, LegacyCreates, NewRow, LegacyRow, LegacyStored, DistinctLegacies, LeftoverKeys, Extends;
    ReadyParts(b, s, w, rides, records);
    CreatedHistory(b, s, w, rides, records);
    CreatedLegacy(b);
    WrittenExtends(b, s, now);
  }

  lemma {:induction false} WrittenExtends(b: Input, s: Store, now: int)
    requires FreshIds(b, s.departures) && DistinctKeys(HistoryCreates(b)) && DistinctLegacies(LegacyCreates(b))
    requires forall l :: l in LegacyCreates(b) ==> l.id == b.legacyId(l.key)
    ensures Extends(b, s, WithLegacy(InsertPlanned(s.departures, HistoryCreates(b), b.newId, now), LegacyCreates(b)), now)
  {
    hide FreshIds, HistoryCreates, LegacyCreates, NewRow, LegacyRow, DistinctLegacies, InsertPlanned, WithLegacy;
    Written(b, s.departures, HistoryCreates(b), LegacyCreates(b), now);
  }

  // ---- The list of candidates is the link rule after the apply ----

  lemma {:induction false} PoolRows(b: Input)
    ensures forall id, key :: LinkRow(id, key) in Pool(b) <==>
      || (exists x :: x in b.stored && x.id == id && Linkable(x.row.source) && DepartureKey(x.row) == key)
      || (exists p :: p in HistoryCreates(b) && b.newId(p.key) == id && PlannedLinkKey(p) == key)
  {
    hide HistoryCreates;
    var stored, creates := Collect(|b.stored|, StoredLinkAt(b)), HistoryCreates(b);
    CollectMembers(|b.stored|, StoredLinkAt(b));
    forall id, key
      ensures LinkRow(id, key) in stored <==> exists x :: x in b.stored && x.id == id && Linkable(x.row.source) && DepartureKey(x.row) == key
      ensures LinkRow(id, key) in CreatedLinks(b, creates) <==> exists p :: p in creates && b.newId(p.key) == id && PlannedLinkKey(p) == key
    {
      if x :| x in b.stored && x.id == id && Linkable(x.row.source) && DepartureKey(x.row) == key {
        var i :| 0 <= i < |b.stored| && b.stored[i] == x;
        assert StoredLinkAt(b)(i) == Some(LinkRow(id, key));
      }
      if p :| p in creates && b.newId(p.key) == id && PlannedLinkKey(p) == key {
        var i :| 0 <= i < |creates| && creates[i] == p;
        assert CreatedLinks(b, creates)[i] == LinkRow(id, key);
      }
      if LinkRow(id, key) in CreatedLinks(b, creates) {
        var i :| 0 <= i < |creates| && CreatedLinks(b, creates)[i] == LinkRow(id, key);
        assert creates[i] in creates;
      }
    }
  }

  lemma {:induction false} StoredLinksDistinct(b: Input, s: Store, w: Window)
    requires IsStoredRows(b.stored, s, w)
    ensures var stored := Collect(|b.stored|, StoredLinkAt(b));
      DistinctRows(stored) && forall i :: 0 <= i < |stored| ==> stored[i].id in s.departures
  {
    hide InWindow;
    var stored := Collect(|b.stored|, StoredLinkAt(b));
    forall i | 0 <= i < |stored| ensures stored[i].id in s.departures {
      var x := CollectSource(|b.stored|, StoredLinkAt(b), stored[i]);
      assert b.stored[x] in b.stored;
    }
    forall i, j | 0 <= i < j < |stored| ensures stored[i].id != stored[j].id {
      var x, y := CollectSources(|b.stored|, StoredLinkAt(b), i, j);
    }
  }

  lemma {:induction false} JoinedRowsDistinct(a: seq<LinkRow>, b: seq<LinkRow>, ids: set<Id>)
    requires DistinctRows(a) && DistinctRows(b)
    requires forall i :: 0 <= i < |a| ==> a[i].id in ids
    requires forall i :: 0 <= i < |b| ==> b[i].id !in ids
    ensures DistinctRows(a + b)
  {
  }

  lemma {:induction false} PoolDistinct(b: Input, s: Store, w: Window, rides: seq<Ride>, records: seq<ExceptionRecord>)
    requires Ready(b, s, w, rides, records)
    ensures DistinctRows(Pool(b))
  {
    hide HistoryNamed, IsMissingHistory, Ready, IsStoredRows, HistoryCreates, Collect, StoredLinkAt, PlannedLinkKey;
    ReadyParts(b, s, w, rides, records);
    CreatedHistory(b, s, w, rides, records);
    StoredLinksDistinct(b, s, w);
    var stored, creates := Collect(|b.stored|, StoredLinkAt(b)), HistoryCreates(b);
    var created := CreatedLinks(b, creates);
    forall i, j | 0 <= i < j < |creates| ensures created[i].id != created[j].id {
      assert creates[i].key != creates[j].key;
    }
    forall i | 0 <= i < |created| ensures created[i].id !in s.departures.Keys {
      assert b.newId(creates[i].key) !in s.departures;
    }
    JoinedRowsDistinct(stored, created, s.departures.Keys);
  }

  /** On the reservations' dates, the candidates listed are the departures the query would find once the history is written. */
  lemma {:induction false} PoolIsLinkRule(b: Input, s: Store, w: Window, rides: seq<Ride>, records: seq<ExceptionRecord>, now: int, key: LinkKey)
    requires Ready(b, s, w, rides, records) && InWindow(w, key.date)
    ensures Enumerates(Pool(b), AfterBackfill(s, PlanBackfill(b), b.newId, now).departures, key)
  {
    hide AfterBackfill, PlanBackfill, Pool, DistinctRows, Ready, InWindow, Extends, CandidateSet, IsStoredRows;
    DeparturesAfter(b, s, w, rides, records, now);
    PoolDistinct(b, s, w, rides, records);
    var t := AfterBackfill(s, PlanBackfill(b), b.newId, now).departures;
    forall d ensures LinkRow(d, key) in Pool(b) <==> d in CandidateSet(t, key) {
      if d in s.departures {
        StoredCandidate(b, s, w, rides, records, t, now, key, d);
      } else {
        AddedCandidate(b, s, w, rides, records, t, now, key, d);
      }
    }
  }

  lemma {:induction false} StoredCandidate(b: Input, s: Store, w: Window, rides: seq<Ride>, records: seq<ExceptionRecord>, t: map<Id, Departure>, now: int,
                                           key: LinkKey, d: Id)
    requires Ready(b, s, w, rides, records) && InWindow(w, key.date) && Extends(b, s, t, now) && d in s.departures
    ensures LinkRow(d, key) in Pool(b) <==> d in CandidateSet(t, key)
  {
    hide Pool, Ready, InWindow, HistoryCreates;
    ReadyParts(b, s, w, rides, records);
    PoolRows(b);
    if d in CandidateSet(t, key) {
      assert StoredRow(d, s.departures[d]) in b.stored;
    }
  }

  lemma {:induction false} AddedCandidate(b: Input, s: Store, w: Window, rides: seq<Ride>, records: seq<ExceptionRecord>, t: map<Id, Departure>, now: int,
                                          key: LinkKey, d: Id)
    requires Ready(b, s, w, rides, records) && Extends(b, s, t, now) && d !in s.departures
    ensures LinkRow(d, key) in Pool(b) <==> d in CandidateSet(t, key)
  {
    hide Pool, Ready, InWindow, HistoryCreates, LegacyCreates, IsMissingHistory, IsDate, FreshIds, IsUnlinkedLoad, IsLinkedLoad, IsTravelRange;
    ReadyParts(b, s, w, rides, records);
    CreatedHistory(b, s, w, rides, records);
    PoolRows(b);
    if LinkRow(d, key) in Pool(b) {
      var p :| p in HistoryCreates(b) && b.newId(p.key) == d && PlannedLinkKey(p) == key;
      assert HistoryNamed(s, p);
    }
    if d in CandidateSet(t, key) {
      assert IsAdded(b, d, t[d], now);
    }
  }
}
