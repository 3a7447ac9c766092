/**
 * The departures a backfill adds, said of the columns of the tables: which of the past are
 * recorded and how, and what a LEGACY departure is made of.
 */
module BackfillRows {
  import opened Basics
  import opened Text
  import opened Calendar
  import opened Timetable
  import opened TimetableRules
  import opened Tables
  import opened SyncPlan
  import opened SyncRules
  import opened SyncApply
  import opened SyncResults
  import opened DecisionPairing
  import opened LinkRule
  import opened LegacyRows
  import opened Backfill
  import opened BackfillApply
  import opened BackfillTheorems
  import opened BackfillLinks
  import opened BackfillKeeps
  import opened BackfillSeats
  import opened BackfillAgain
  import opened BackfillResults

  // ---- The past, recorded ----

  /** Between the first reservation's date and the last one's, and gone by. */
  predicate IsPast(w: Window, today: string, date: string)
    requires HasYesterday(today)
  {
    && IsDate(date) && StrLe(w.from, date) && StrLe(date, w.to)
    && StrLess(date, today) && StrLe(date, AddDays(today, -1))
  }

  /** Some reservation read is for a ride's date at this time. */
  ghost predicate IsAskedFor(b: Input, r: Id, date: string, departureTime: string) {
    exists u :: u in b.rows && u.row.rideId == r && u.row.travelDate == date && u.row.departureTime == departureTime
  }

  /** A timetable departure of the past that is not stored and some reservation is for. */
  ghost predicate RanUnrecorded(b: Input, s: Store, w: Window, r: Id, date: string, row: Departure)
    requires HasYesterday(b.today)
  {
    && r in s.rides && IsPast(w, b.today, date) && RunsOn(s.rides[r], date) && IsNewSchedule(s, r, date, row)
    && (forall d :: d in s.departures && s.departures[d].source == SCHEDULE && s.departures[d].rideId == r ==> s.departures[d].serviceDate != date)
    && IsAskedFor(b, r, date, row.departureTime)
  }

  /** An ADDITIONAL's bus of the past, of a ride that is on. */
  ghost predicate BusUnrecorded(b: Input, s: Store, w: Window, e: Id, row: Departure)
    requires HasYesterday(b.today)
  {
    && e in s.exceptions && s.exceptions[e].kind == ADDITIONAL && s.exceptions[e].rideId in s.rides && RideIsOn(s.rides[s.exceptions[e].rideId])
    && IsPast(w, b.today, s.exceptions[e].exceptionDate) && IsNewExtra(s, e, row, 0)
    && (forall d :: d in s.departures && s.departures[d].source == EXTRA ==> s.departures[d].rideExceptionId != Some(e))
    && IsAskedFor(b, s.exceptions[e].rideId, s.exceptions[e].exceptionDate, row.departureTime)
  }

  /** What ran under a key, as the row it would be stored as. */
  lemma {:induction false} RanScheduleIs(s: Store, w: Window, records: seq<ExceptionRecord>, r: Id, d: string, now: int)
    requires RidesNamed(s.rides) && IsRecordLoad(records, s, w) && RanIn(s, w, ScheduleKey(r, d))
    ensures r in s.rides && RunsOn(s.rides[r], d)
    ensures IsNewSchedule(s, r, d, NewRow(Credited(RanUnder(s, ScheduleKey(r, d)).value, records), now))
  {
    hide RunsAt, RouteOn, PlannedOn, IsRecordLoad, InWindow, CreditsSkip, SkipFor, SkipCancellation, IsDate, RunsOn;
    PlannedMeans(s.rides[r], d);
    RunsOnIff(s.rides[r], d);
    SkipIsCredited(records, s, w, r, d);
  }

  lemma {:induction false} RanExtraIs(s: Store, w: Window, records: seq<ExceptionRecord>, e: Id, now: int)
    requires RidesNamed(s.rides) && RanIn(s, w, ExtraKey(e))
    ensures e in s.exceptions && s.exceptions[e].kind == ADDITIONAL && s.exceptions[e].rideId in s.rides && RideIsOn(s.rides[s.exceptions[e].rideId])
    ensures IsNewExtra(s, e, NewRow(Credited(RanUnder(s, ExtraKey(e)).value, records), now), 0)
    ensures RanUnder(s, ExtraKey(e)).value.serviceDate == s.exceptions[e].exceptionDate
  {
    hide LineRoute, LinePathStops, InWindow, IsDate;
    var x := s.exceptions[e];
    LineRouteIs(s.rides[x.rideId], x.departureTime.value, x.arrivalTime.value);
  }

  lemma {:induction false} PastIff(w: Window, today: string, date: string)
    requires HasYesterday(today) && IsDate(date)
    ensures IsPast(w, today, date) <==> InWindow(PastPart(w, today), date) && StrLess(date, today)
  {
    hide IsDate, UtcDay, AddDays, StrLess, DayFromYear;
    var yesterday := AddDays(today, -1);
    StrLessTrichotomy(w.to, yesterday);
    OrderOf(date, yesterday, w.to);
    OrderOf(date, w.to, yesterday);
  }

  lemma {:induction false} StoredScheduleIff(b: Input, s: Store, w: Window, r: Id, date: string)
    requires IsStoredRows(b.stored, s, w) && InWindow(w, date)
    ensures StoredPlanned(b.stored, ScheduleKey(r, date)) <==>
      exists d :: d in s.departures && s.departures[d].source == SCHEDULE && s.departures[d].rideId == r && s.departures[d].serviceDate == date
  {
    hide InWindow;
    if d :| d in s.departures && s.departures[d].source == SCHEDULE && s.departures[d].rideId == r && s.departures[d].serviceDate == date {
      assert StoredRow(d, s.departures[d]) in b.stored;
      assert PlannedKeyOf(s.departures[d]) == Some(ScheduleKey(r, date));
    }
  }

  lemma {:induction false} StoredExtraIff(b: Input, s: Store, w: Window, e: Id)
    requires IsStoredRows(b.stored, s, w) && e in s.exceptions && InWindow(w, s.exceptions[e].exceptionDate)
    requires forall d :: d in s.departures && s.departures[d].rideExceptionId == Some(e) ==> s.departures[d].serviceDate == s.exceptions[e].exceptionDate
    ensures StoredPlanned(b.stored, ExtraKey(e)) <==>
      exists d :: d in s.departures && s.departures[d].source == EXTRA && s.departures[d].rideExceptionId == Some(e)
  {
    hide InWindow;
    if d :| d in s.departures && s.departures[d].source == EXTRA && s.departures[d].rideExceptionId == Some(e) {
      assert StoredRow(d, s.departures[d]) in b.stored;
      assert PlannedKeyOf(s.departures[d]) == Some(ExtraKey(e));
    }
  }

  lemma {:induction false} AskedForIff(b: Input, r: Id, date: string, departureTime: string)
    ensures Wanted(b.rows, LinkKey(r, date, departureTime)) <==> IsAskedFor(b, r, date, departureTime)
  {
    if u :| u in b.rows && u.row.rideId == r && u.row.travelDate == date && u.row.departureTime == departureTime {
      assert ReservationKey(u.row) == LinkKey(r, date, departureTime);
    }
  }

  lemma {:induction false} LinksKeepDates(s: Store, e: Id)
    requires Linkage(s) && e in s.exceptions
    ensures forall d :: d in s.departures && s.departures[d].rideExceptionId == Some(e) ==> s.departures[d].serviceDate == s.exceptions[e].exceptionDate
  {
  }

  /** One key of the history, in the terms of the tables. */
  ghost predicate RecordedAs(b: Input, s: Store, w: Window, key: PlanKey, row: Departure)
    requires HasYesterday(b.today)
  {
    match key
    case ScheduleKey(r, date) => RanUnrecorded(b, s, w, r, date, row)
    case ExtraKey(e) => BusUnrecorded(b, s, w, e, row)
  }

  lemma {:induction false} RecordedIff(b: Input, s: Store, w: Window, rides: seq<Ride>, records: seq<ExceptionRecord>, now: int, key: PlanKey)
    requires Ready(b, s, w, rides, records) && RanIn(s, PastPart(w, b.today), key) && StrLe(PastPart(w, b.today).from, PastPart(w, b.today).to)
    ensures HasYesterday(b.today)
    ensures var p := Credited(RanUnder(s, key).value, records);
      p.key == key && (IsMissingHistory(b, p) <==> RecordedAs(b, s, w, key, NewRow(p, now)))
  {
    hide Ready, InWindow, RunsOn, RanUnder, IsNewSchedule, IsNewExtra, IsDate, StrLess, Wanted, StoredPlanned, IsAskedFor, FreshIds, IsUnlinkedLoad, IsLinkedLoad,
      IsTravelRange, IsStoredRows, Linkage, Valid, PastPart, AddDays;
    ReadyParts(b, s, w, rides, records);
    ReadyLinkage(b, s, w, rides, records);
    RanNamed(s, key);
    var p := RanUnder(s, key).value;
    HistoryLoads(b, s, w, rides, records);
    PastIff(w, b.today, p.serviceDate);
    InsidePast(w, b.today, p.serviceDate);
    AskedForIff(b, p.rideId, p.serviceDate, p.departureTime);
    match key
    case ScheduleKey(r, date) =>
      RanScheduleIs(s, PastPart(w, b.today), records, r, date, now);
      StoredScheduleIff(b, s, w, r, date);
    case ExtraKey(e) =>
      RanExtraIs(s, PastPart(w, b.today), records, e, now);
      LinksKeepDates(s, e);
      StoredExtraIff(b, s, w, e);
  }

  lemma {:induction false} HistoryLoads(b: Input, s: Store, w: Window, rides: seq<Ride>, records: seq<ExceptionRecord>)
    requires Ready(b, s, w, rides, records) && StrLe(PastPart(w, b.today).from, PastPart(w, b.today).to)
    ensures IsRecordLoad(records, s, PastPart(w, b.today)) && IsRideLoad(rides, s) && Walkable(PastPart(w, b.today))
    ensures b.history == HistoryOf(rides, records, PastPart(w, b.today))
  {
    hide Valid, Linkage, FreshIds, IsStoredRows, IsUnlinkedLoad, IsTravelRange, IsLinkedLoad, HasYesterday, PastPart, IsRecordLoad, IsRideLoad, HistoryOf;
  }

  lemma {:induction false} RecordedRan(b: Input, s: Store, w: Window, key: PlanKey, row: Departure)
    requires HasYesterday(b.today) && RidesNamed(s.rides) && RecordedAs(b, s, w, key, row)
    ensures RanIn(s, PastPart(w, b.today), key) && StrLe(PastPart(w, b.today).from, PastPart(w, b.today).to)
  {
    hide InWindow, IsDate, StrLess, PlannedOn, RunsOn, RunsAt, RouteOn, LineRoute, CreditsSkip, IsAskedFor, LinePathStops, AddDays, PastPart;
    match key
    case ScheduleKey(r, date) =>
      RunsOnIff(s.rides[r], date);
      PlannedNames(s.rides[r], date);
      PastIff(w, b.today, date);
      WindowIsForward(PastPart(w, b.today), date);
    case ExtraKey(e) =>
      PastIff(w, b.today, s.exceptions[e].exceptionDate);
      WindowIsForward(PastPart(w, b.today), s.exceptions[e].exceptionDate);
  }

  lemma {:induction false} WindowIsForward(w: Window, date: string)
    requires InWindow(w, date)
    ensures StrLe(w.from, w.to)
  {
    StrLeTransitive(w.from, date, w.to);
  }

  /** Exactly the unrecorded past that some reservation is for is recorded. */
  ghost predicate PastRecorded(b: Input, s: Store, w: Window, after: map<Id, Departure>)
    requires HasYesterday(b.today)
  {
    && (forall id :: id in after && id !in s.departures && after[id].source != LEGACY ==> exists key :: RecordedAs(b, s, w, key, after[id]))
    && forall key, row :: RecordedAs(b, s, w, key, row) ==> exists id :: id in after && id !in s.departures && RecordedAs(b, s, w, key, after[id])
  }

  lemma {:induction false} HistoryOnlyWhenForward(b: Input, s: Store, w: Window, rides: seq<Ride>, records: seq<ExceptionRecord>, p: Planned)
    requires Ready(b, s, w, rides, records) && p in b.history
    ensures StrLe(PastPart(w, b.today).from, PastPart(w, b.today).to)
  {
    hide Valid, Linkage, FreshIds, IsStoredRows, IsUnlinkedLoad, IsTravelRange, IsLinkedLoad, HasYesterday, PastPart, IsRecordLoad, IsRideLoad, HistoryOf, StrLe;
  }

  lemma {:induction false} CreatedIsRecorded(b: Input, s: Store, w: Window, rides: seq<Ride>, records: seq<ExceptionRecord>, now: int, p: Planned)
    requires Ready(b, s, w, rides, records) && p in HistoryCreates(b)
    ensures HasYesterday(b.today) && RecordedAs(b, s, w, p.key, NewRow(p, now)) && p.source != LEGACY
  {
    hide Ready, HistoryCreates, RecordedAs, HistoryOf, RanIn, RanUnder, Credited, IsMissingHistory, IsRecordLoad, IsRideLoad, Walkable, PastPart, NewRow, StrLe;
    ReadyLinkage(b, s, w, rides, records);
    CreatedHistory(b, s, w, rides, records);
    HistoryOnlyWhenForward(b, s, w, rides, records, p);
    HistoryLoads(b, s, w, rides, records);
    StoreKeys(s);
    HistoryExactly(rides, records, s, PastPart(w, b.today));
    RecordedIff(b, s, w, rides, records, now, p.key);
  }

  lemma {:induction false} StoreKeys(s: Store)
    requires Valid(s)
    ensures RidesNamed(s.rides) && ExceptionKeys(s)
  {
  }

  lemma {:induction false} RecordedIsCreated(b: Input, s: Store, w: Window, rides: seq<Ride>, records: seq<ExceptionRecord>, now: int, key: PlanKey, row: Departure)
    requires Ready(b, s, w, rides, records) && HasYesterday(b.today) && RecordedAs(b, s, w, key, row)
    ensures RanUnder(s, key).Some? && Credited(RanUnder(s, key).value, records) in HistoryCreates(b)
    ensures RecordedAs(b, s, w, key, NewRow(Credited(RanUnder(s, key).value, records), now))
    ensures Credited(RanUnder(s, key).value, records).key == key
  {
    hide Ready, HistoryCreates, RecordedAs, HistoryOf, RanUnder, Credited, IsMissingHistory, IsRecordLoad, IsRideLoad, Walkable, PastPart, NewRow, StrLe, InWindow,
      IsDate;
    ReadyLinkage(b, s, w, rides, records);
    StoreKeys(s);
    RecordedRan(b, s, w, key, row);
    HistoryLoads(b, s, w, rides, records);
    HistoryExactly(rides, records, s, PastPart(w, b.today));
    CreatedHistory(b, s, w, rides, records);
    RecordedIff(b, s, w, rides, records, now, key);
    RanRowIs(s, PastPart(w, b.today), records, key, now);
    SameRecord(b, s, w, key, row, NewRow(Credited(RanUnder(s, key).value, records), now));
  }

  lemma {:induction false} RanRowIs(s: Store, w: Window, records: seq<ExceptionRecord>, key: PlanKey, now: int)
    requires RidesNamed(s.rides) && IsRecordLoad(records, s, w) && RanIn(s, w, key)
    ensures var ran := NewRow(Credited(RanUnder(s, key).value, records), now);
      match key case ScheduleKey(r, date) => IsNewSchedule(s, r, date, ran) case ExtraKey(e) => IsNewExtra(s, e, ran, 0)
  {
    hide RanIn, RanUnder, Credited, NewRow, IsNewSchedule, IsNewExtra, IsRecordLoad;
    match key
    case ScheduleKey(r, date) => RanScheduleIs(s, w, records, r, date, now);
    case ExtraKey(e) => RanExtraIs(s, w, records, e, now);
  }

  /** A key that is unrecorded for one row is unrecorded for the row that ran. */
  lemma {:induction false} SameRecord(b: Input, s: Store, w: Window, key: PlanKey, row: Departure, ran: Departure)
    requires HasYesterday(b.today) && RidesNamed(s.rides) && RecordedAs(b, s, w, key, row)
    requires match key case ScheduleKey(r, date) => IsNewSchedule(s, r, date, ran) case ExtraKey(e) => IsNewExtra(s, e, ran, 0)
    ensures RecordedAs(b, s, w, key, ran)
  {
    hide IsPast, RunsOn, RouteOn, LineRoute, CreditsSkip, RunsAt, IsAskedFor;
    match key
    case ScheduleKey(r, date) =>
      OneTimePair(s.rides[r], date, row.departureTime, row.arrivalTime, ran.departureTime, ran.arrivalTime);
    case ExtraKey(e) =>
  }

  lemma {:induction false} OneTimePair(ride: Ride, date: string, a: string, b: string, c: string, d: string)
    requires RunsAt(ride, date, Weekday(date), a, b) && RunsAt(ride, date, Weekday(date), c, d)
    ensures a == c && b == d
  {
    hide RunsAt, BaseInstanceForDate, Weekday;
    RunsIff(ride, date, Weekday(date), a, b);
    RunsIff(ride, date, Weekday(date), c, d);
  }

  /** The timetable departures and buses of the past that reservations are for, and none but those, are stored after a backfill. */
  lemma {:induction false} PastIsRecorded(b: Input, s: Store, w: Window, rides: seq<Ride>, records: seq<ExceptionRecord>, now: int)
    requires Ready(b, s, w, rides, records)
    ensures HasYesterday(b.today) && PastRecorded(b, s, w, AfterBackfill(s, PlanBackfill(b), b.newId, now).departures)
  {
    hide Ready, HistoryCreates, LegacyCreates, AfterBackfill, PlanBackfill, RecordedAs, NewRow, LegacyRow, IsStoredRows, IsUnlinkedLoad, IsTravelRange, IsLinkedLoad;
    var t := AfterBackfill(s, PlanBackfill(b), b.newId, now).departures;
    ReadyParts(b, s, w, rides, records);
    ReadyLinkage(b, s, w, rides, records);
    DeparturesAfter(b, s, w, rides, records, now);
    forall id | id in t && id !in s.departures && t[id].source != LEGACY ensures exists key :: RecordedAs(b, s, w, key, t[id]) {
      assert IsAdded(b, id, t[id], now);
      if l :| l in LegacyCreates(b) && id == l.id && t[id] == LegacyRow(l) {
        LegacyRowIsLegacy(l);
      }
      var p :| p in HistoryCreates(b) && id == b.newId(p.key) && t[id] == NewRow(p, now);
      CreatedIsRecorded(b, s, w, rides, records, now, p);
    }
    forall key, row | RecordedAs(b, s, w, key, row) ensures exists id :: id in t && id !in s.departures && RecordedAs(b, s, w, key, t[id]) {
      RecordedIsCreated(b, s, w, rides, records, now, key, row);
      var p := Credited(RanUnder(s, key).value, records);
      assert b.newId(p.key) in t && t[b.newId(p.key)] == NewRow(p, now);
    }
  }

  lemma {:induction false} LegacyRowIsLegacy(l: PlannedLegacy)
    ensures LegacyRow(l).source == LEGACY
  {
  }

  // ---- LEGACY departures ----

  /** The reservations put on a LEGACY departure of one ride, date and time. */
  ghost predicate IsLeftover(b: Input, key: LinkKey, u: Unlinked) {
    && u in b.rows && u.row.rideId == key.rideId && u.row.travelDate == key.date && u.row.departureTime == key.departureTime
    && exists d :: IsLinkedAs(PlanBackfill(b), u.id, d, LEFTOVER)
  }

  function Members(group: seq<Unlinked>): set<Unlinked> {
    set u | u in group
  }

  function SoldAt(group: set<Unlinked>, time: string): set<Unlinked> {
    set u | u in group && u.row.arrivalTime == time
  }

  /** The arrival time most of the group was sold, and of several the one first sold. */
  ghost predicate MostSold(group: set<Unlinked>, time: string) {
    && SoldAt(group, time) != {}
    && forall other :: other != time ==>
         || |SoldAt(group, other)| < |SoldAt(group, time)|
         || (|SoldAt(group, other)| == |SoldAt(group, time)| && exists u :: u in SoldAt(group, time) && forall v :: v in SoldAt(group, other) ==>
               u.row.createdAt < v.row.createdAt || (u.row.createdAt == v.row.createdAt && !StrLess(v.id, u.id)))
  }

  /** The greater of the ride's seats and the highest seat sold. */
  ghost predicate SeatsEverybody(group: set<Unlinked>, seats: int, capacity: int) {
    && capacity >= seats && (forall u :: u in group ==> capacity >= u.row.seatNumber)
    && (capacity == seats || exists u :: u in group && u.row.seatNumber == capacity)
  }

  lemma {:induction false} TimeCountIsSet(group: seq<Unlinked>, time: string)
    requires DistinctUnlinked(group)
    ensures TimeCount(group, time) == |SoldAt(Members(group), time)|
  {
    if |group| == 0 {
      assert SoldAt(Members(group), time) == {};
    } else {
      var front, last := group[..|group| - 1], group[|group| - 1];
      assert group == front + [last];
      TimeCountIsSet(front, time);
      assert last !in front;
      assert SoldAt(Members(group), time) == SoldAt(Members(front), time) + if last.row.arrivalTime == time then {last} else {};
    }
  }

  lemma {:induction false} ArrivalIsMostSold(group: seq<Unlinked>)
    requires |group| > 0 && DistinctUnlinked(group)
    ensures MostSold(Members(group), LegacyArrivalOf(group))
  {
    hide LegacyArrivalOf, TimeCount, StrLess;
    var all, chosen := Members(group), LegacyArrivalOf(group);
    LegacyArrivalIsMostSold(group);
    TimeCountIsSet(group, chosen);
    var x :| x in group && x.row.arrivalTime == chosen;
    assert x in SoldAt(all, chosen);
    forall other | other != chosen
      ensures |SoldAt(all, other)| < |SoldAt(all, chosen)|
        || (|SoldAt(all, other)| == |SoldAt(all, chosen)| && exists u :: u in SoldAt(all, chosen) && forall v :: v in SoldAt(all, other) ==>
              u.row.createdAt < v.row.createdAt || (u.row.createdAt == v.row.createdAt && !StrLess(v.id, u.id)))
    {
      TimeCountIsSet(group, other);
      if TimeCount(group, other) == TimeCount(group, chosen) {
        var u :| u in group && u.row.arrivalTime == chosen && forall v :: v in group && v.row.arrivalTime == other ==> SoldBefore(u, v);
        assert u in SoldAt(all, chosen);
      }
    }
  }

  ghost function LeftoverSet(b: Input, key: LinkKey): set<Unlinked> {
    set u | u in b.rows && IsLeftover(b, key, u)
  }

  /** The leftovers of a key are the group that is placed. */
  lemma {:induction false} LeftoversAreGroup(b: Input, key: LinkKey)
    requires DistinctUnlinked(b.rows)
    ensures var group := GroupOf(Leftovers(b, Chosen(b)), key);
      LeftoverSet(b, key) == Members(group) && DistinctUnlinked(group)
  {
    hide Leftovers, Chosen, OutcomeOf, PlanBackfill, LegacyTarget, GroupOf, DistinctUnlinked, IsLinkedAs;
    var group := GroupOf(Leftovers(b, Chosen(b)), key);
    LeftoversExactly(b);
    GroupMembersExactly(Leftovers(b, Chosen(b)), key);
    forall u | u in b.rows ensures IsLeftover(b, key, u) <==> OutcomeOf(b, Chosen(b), u).OnLegacy? && ReservationKey(u.row) == key {
      OwnParts(b, u);
      OutcomeIsNeverLeftover(b, u);
      if OutcomeOf(b, Chosen(b), u).OnLegacy? {
        assert IsLinkedAs(PlanBackfill(b), u.id, LegacyTarget(b, ReservationKey(u.row)), LEFTOVER);
      }
    }
  }

  /** A LEGACY departure made for a key that has none, from the reservations put on it. */
  ghost predicate LegacyMadeFor(b: Input, s: Store, key: LinkKey, row: Departure) {
    && LeftoverSet(b, key) != {} && key.rideId in s.rides
    && (forall d :: d in s.departures && s.departures[d].source == LEGACY ==> DepartureKey(s.departures[d]) != key)
    && row == Departure(LEGACY, key.rideId, key.date, s.rides[key.rideId].lineId, key.departureTime, row.arrivalTime, row.capacity, None, None, None, [])
    && MostSold(LeftoverSet(b, key), row.arrivalTime)
    && SeatsEverybody(LeftoverSet(b, key), s.rides[key.rideId].capacity, row.capacity)
  }

  /** The different arrival times of a group, when there are several. */
  ghost predicate TimesToldOf(group: set<Unlinked>, times: seq<string>) {
    && Distinct(times) && (forall t :: t in times ==> SoldAt(group, t) != {})
    && (|times| == 0 || forall u :: u in group ==> u.row.arrivalTime in times)
    && (|times| == 0 <==> forall u, v :: u in group && v in group ==> u.row.arrivalTime == v.row.arrivalTime)
  }

  ghost predicate ListsIds(ids: seq<Id>, group: set<Unlinked>) {
    Distinct(ids) && (set r | r in ids) == (set u | u in group :: u.id)
  }

  /** What a new LEGACY departure's entry in the plan tells. */
  ghost predicate MadeIsTold(b: Input, l: PlannedLegacy) {
    ListsIds(l.reservationIds, LeftoverSet(b, l.key)) && TimesToldOf(LeftoverSet(b, l.key), l.arrivalTimesDisagree)
  }

  /** What a stored LEGACY departure's entry in the plan tells: who joins it, and the seats it does not have. */
  ghost predicate ReuseIsTold(b: Input, s: Store, x: ReusedLegacy) {
    && x.id in s.departures && s.departures[x.id].source == LEGACY
    && var group := LeftoverSet(b, DepartureKey(s.departures[x.id]));
    && group != {} && ListsIds(x.reservationIds, group) && Increasing(x.seatsAboveCapacity)
    && forall seat :: seat in x.seatsAboveCapacity <==> seat > s.departures[x.id].capacity && exists u :: u in group && u.row.seatNumber == seat
  }

  lemma {:induction false} IdsOfGroup(group: seq<Unlinked>)
    requires DistinctUnlinked(group)
    ensures ListsIds(ReservationIds(group), Members(group))
  {
    var ids, all := ReservationIds(group), Members(group);
    forall r ensures r in ids <==> exists u :: u in all && u.id == r {
      if r in ids {
        var i :| 0 <= i < |ids| && ids[i] == r;
        assert group[i] in all;
      }
      if u :| u in all && u.id == r {
        var i :| 0 <= i < |group| && group[i] == u;
        assert ids[i] == r;
      }
    }
  }

  lemma {:induction false} TimeListed(group: seq<Unlinked>, t: string)
    ensures t in ArrivalTimes(group) <==> exists u :: u in Members(group) && u.row.arrivalTime == t
  {
    hide Times, SaleOrder;
    assert forall u :: u in SaleOrder(group) <==> u in multiset(group);
    if u :| u in Members(group) && u.row.arrivalTime == t {
      assert u in SaleOrder(group);
    }
  }

  lemma {:induction false} TimesOfGroup(group: seq<Unlinked>)
    ensures TimesToldOf(Members(group), if |ArrivalTimes(group)| > 1 then ArrivalTimes(group) else [])
  {
    hide Times, SaleOrder, Members;
    var all, times := Members(group), ArrivalTimes(group);
    assert Distinct(times) by { TimesDistinct(SaleOrder(group)); }
    forall t ensures t in times <==> exists u :: u in all && u.row.arrivalTime == t {
      TimeListed(group, t);
    }
    if |times| > 1 {
      assert times[0] in times && times[1] in times;
      var u :| u in all && u.row.arrivalTime == times[0];
      var v :| v in all && v.row.arrivalTime == times[1];
      forall t | t in times ensures SoldAt(all, t) != {} {
        var x :| x in all && x.row.arrivalTime == t;
        assert x in SoldAt(all, t);
      }
    } else {
      forall u, v | u in all && v in all ensures u.row.arrivalTime == v.row.arrivalTime {
        assert u.row.arrivalTime in times && v.row.arrivalTime in times;
      }
    }
  }

  lemma {:induction false} MadeParts(b: Input, l: PlannedLegacy)
    requires l in LegacyCreates(b)
    ensures var group := GroupOf(Leftovers(b, Chosen(b)), l.key);
      && |group| > 0 && l.key.rideId in b.rides && LegacyStored(b.stored, l.key).None? && l == NewLegacy(b, l.key, group)
  {
    hide Leftovers, Chosen, GroupOf, GroupKeys, NewLegacy, LegacyStored;
    var rows := Leftovers(b, Chosen(b));
    var keys := LeftoverKeys(b);
    var i := CollectSource(|keys|, NewLegacyAt(b, keys, rows), l);
    LeftoverKeysExactly(rows);
    GroupMembersExactly(rows, keys[i]);
    assert keys[i] in GroupKeys(rows);
    var u :| u in rows && ReservationKey(u.row) == keys[i];
    assert u in GroupOf(rows, keys[i]);
  }

  lemma {:induction false} ReusedParts(b: Input, x: ReusedLegacy) returns (key: LinkKey)
    requires x in LegacyReused(b)
    ensures var group := GroupOf(Leftovers(b, Chosen(b)), key);
      && |group| > 0 && LegacyStored(b.stored, key).Some? && x == Reused(b, LegacyStored(b.stored, key).value, group)
  {
    hide Leftovers, Chosen, GroupOf, GroupKeys, Reused, LegacyStored;
    var rows := Leftovers(b, Chosen(b));
    var keys := LeftoverKeys(b);
    var i := CollectSource(|keys|, ReusedAt(b, keys, rows), x);
    key := keys[i];
    LeftoverKeysExactly(rows);
    GroupMembersExactly(rows, key);
    assert key in GroupKeys(rows);
    var u :| u in rows && ReservationKey(u.row) == key;
    assert u in GroupOf(rows, key);
  }

  lemma {:induction false} MadeMeans(b: Input, s: Store, w: Window, rides: seq<Ride>, records: seq<ExceptionRecord>, l: PlannedLegacy)
    requires Ready(b, s, w, rides, records) && l in LegacyCreates(b)
    ensures LegacyMadeFor(b, s, l.key, LegacyRow(l)) && MadeIsTold(b, l)
  {
    hide Ready, LegacyCreates, LeftoverSet, Leftovers, Chosen, GroupOf, ReservationIds, ArrivalTimes, LegacyArrivalOf, LegacyCapacity, RepeatedSeats, ActiveSeats,
      MostSold, TimesToldOf, ListsIds, IsStoredRows, FreshIds, IsTravelRange, IsLinkedLoad, DistinctUnlinked, LegacyStored;
    ReadyParts(b, s, w, rides, records);
    RowsDistinct(b, s);
    var group := GroupOf(Leftovers(b, Chosen(b)), l.key);
    MadeParts(b, l);
    LeftoversAreGroup(b, l.key);
    assert group[0] in group && group[0] in LeftoverSet(b, l.key);
    ArrivalIsMostSold(group);
    IdsOfGroup(group);
    TimesOfGroup(group);
    forall d | d in s.departures && s.departures[d].source == LEGACY ensures DepartureKey(s.departures[d]) != l.key {
      NotLegacyTwice(b, s, w, rides, records, l, d);
    }
  }

  lemma {:induction false} RowsDistinct(b: Input, s: Store)
    requires IsUnlinkedLoad(b.rows, s)
    ensures DistinctUnlinked(b.rows)
  {
  }

  lemma {:induction false} ReuseMeans(b: Input, s: Store, w: Window, rides: seq<Ride>, records: seq<ExceptionRecord>, x: ReusedLegacy)
    requires Ready(b, s, w, rides, records) && x in LegacyReused(b)
    ensures ReuseIsTold(b, s, x)
  {
    hide Ready, LegacyReused, LeftoverSet, Leftovers, Chosen, GroupOf, ReservationIds, SeatsAbove, RepeatedSeats, ActiveSeats, SeatsOn, ListsIds, FreshIds,
      IsTravelRange, IsLinkedLoad, DistinctUnlinked, LegacyStored, InWindow;
    ReadyParts(b, s, w, rides, records);
    RowsDistinct(b, s);
    var key := ReusedParts(b, x);
    var group := GroupOf(Leftovers(b, Chosen(b)), key);
    LegacyStoredFinds(b.stored, key);
    LeftoversAreGroup(b, key);
    assert group[0] in group && group[0] in LeftoverSet(b, key);
    IdsOfGroup(group);
  }

  /** Every LEGACY departure a backfill adds, and everything the plan tells about those it adds or joins. */
  lemma {:induction false} LegacyIsMade(b: Input, s: Store, w: Window, rides: seq<Ride>, records: seq<ExceptionRecord>, now: int)
    requires Ready(b, s, w, rides, records)
    ensures var plan := PlanBackfill(b);
      var t := AfterBackfill(s, plan, b.newId, now).departures;
      && (forall d :: d in t && d !in s.departures && t[d].source == LEGACY ==> LegacyMadeFor(b, s, DepartureKey(t[d]), t[d]))
      && (forall l :: l in plan.legacyCreates ==> l.id in t && l.id !in s.departures && t[l.id].source == LEGACY && DepartureKey(t[l.id]) == l.key && MadeIsTold(b, l))
      && (forall x :: x in plan.legacyReused ==> ReuseIsTold(b, s, x))
  {
    hide Ready, LegacyCreates, LegacyReused, HistoryCreates, AfterBackfill, LegacyMadeFor, MadeIsTold, ReuseIsTold, NewRow, IsStoredRows, IsUnlinkedLoad, IsTravelRange,
      IsLinkedLoad, Leftovers, Chosen, GroupKeys, Grouped;
    var t := AfterBackfill(s, PlanBackfill(b), b.newId, now).departures;
    ReadyParts(b, s, w, rides, records);
    DeparturesAfter(b, s, w, rides, records, now);
    CreatedLegacy(b);
    forall d | d in t && d !in s.departures && t[d].source == LEGACY ensures LegacyMadeFor(b, s, DepartureKey(t[d]), t[d]) {
      AddedRow(b, s, w, rides, records, now, d, t[d]);
      var l :| l in LegacyCreates(b) && d == l.id && t[d] == LegacyRow(l);
      MadeMeans(b, s, w, rides, records, l);
    }
    forall l | l in LegacyCreates(b) ensures MadeIsTold(b, l) {
      MadeMeans(b, s, w, rides, records, l);
    }
    forall x | x in LegacyReused(b) ensures ReuseIsTold(b, s, x) {
      ReuseMeans(b, s, w, rides, records, x);
    }
  }
}
