/**
 * The lists of invariants that guarded writes pass, and what each lets through. Where
 * bookings can be repaired, `reservation.departureTimeKept` comes first on purpose: a repair
 * links a booking to a bus, and judged afterwards that booking would look like a passenger
 * whose bus the edit moved. So it is never asked about the bookings a repair links.
 */
module TimesKept {
  import opened Basics
  import opened Text
  import opened GuardedWrite
  import opened GuardTheorems
  import opened GuardLimits

  // ---- The lists ----

  const TIMES_KEPT := Slot("reservation.departureTimeKept", false)
  const REACHABLE := Slot("reservation.reachable", true)
  const STATIONS := Slot("reservation.stationsOnRoute", false)
  const SEGMENT := Slot("reservation.segmentValid", false)
  const CAPACITY := Slot("reservation.seatWithinCapacity", false)
  const OVERBOOKED := Slot("instance.notOverbooked", false)

  datatype GuardedEdit = LINE_UPDATE | RIDE_UPDATE | RIDE_EXCEPTION | DEPARTURE_CANCEL | EXTRA_UPDATE | STATION_OFF | PASSENGER_OFF

  function ShapeOf(edit: GuardedEdit): seq<Slot> {
    match edit
    case LINE_UPDATE => [TIMES_KEPT, REACHABLE, STATIONS, SEGMENT, Slot("ride.lineActive", false)]
    case RIDE_UPDATE => [TIMES_KEPT, REACHABLE, CAPACITY, OVERBOOKED, STATIONS, SEGMENT]
    case RIDE_EXCEPTION => [REACHABLE]
    case DEPARTURE_CANCEL => [REACHABLE]
    case EXTRA_UPDATE => [TIMES_KEPT, REACHABLE, CAPACITY, OVERBOOKED]
    case STATION_OFF => [Slot("route.stationsActive", false)]
    case PASSENGER_OFF => [Slot("reservation.passengerActive", false)]
  }

  /** Line and ride edits change the timetable; the others say they do not. */
  predicate Syncs(edit: GuardedEdit) {
    edit == LINE_UPDATE || edit == RIDE_UPDATE || edit == RIDE_EXCEPTION
  }

  // ---- One date of a ride ----

  datatype Times = Times(departure: string, arrival: string)

  datatype Bus = Bus(id: string, times: Times)

  /** An active reservation: its bus, when it is linked to one, and the times it carries. */
  datatype Booking = Booking(id: string, busId: Option<string>, times: Times)

  /** The bookings, the stored buses, none cancelled or dropped, and what the timetable runs. */
  datatype Day = Day(bookings: seq<Booking>, buses: seq<Bus>, instances: seq<Times>)

  function BusById(buses: seq<Bus>, id: string): Option<Bus> {
    if |buses| == 0 then None else if buses[0].id == id then Some(buses[0]) else BusById(buses[1..], id)
  }

  function BusOf(day: Day, b: Booking): Option<Bus> {
    if b.busId.None? then None else BusById(day.buses, b.busId.value)
  }

  /** `reservation.departureTimeKept`: every linked booking, under its bus's times. */
  function ListedAt(day: Day): nat -> Option<Violation> {
    (i: nat) =>
      if i < |day.bookings| && BusOf(day, day.bookings[i]).Some? then
        var times := BusOf(day, day.bookings[i]).value.times;
        Some(Violation("reservation", day.bookings[i].id + "@" + times.departure + "-" + times.arrival, None, false))
      else None
  }

  function TimesListed(day: Day): seq<Violation> {
    Collect(|day.bookings|, ListedAt(day))
  }

  predicate RunsAt(instances: seq<Times>, departure: string) {
    exists i :: 0 <= i < |instances| && instances[i].departure == departure
  }

  /** A linked booking is reached through its bus, any other through an instance at its time. */
  predicate Stranded(day: Day, b: Booking) {
    BusOf(day, b).None? && !RunsAt(day.instances, b.times.departure)
  }

  function BusesAt(buses: seq<Bus>, departure: string): seq<Bus> {
    if |buses| == 0 then []
    else (if buses[0].times.departure == departure then [buses[0]] else []) + BusesAt(buses[1..], departure)
  }

  /** The only instance of the day, unless several buses share its time. */
  predicate HasTarget(day: Day) {
    |day.instances| == 1 && |BusesAt(day.buses, day.instances[0].departure)| <= 1
  }

  function StrandedAt(day: Day): nat -> Option<Violation> {
    (i: nat) =>
      if i < |day.bookings| && Stranded(day, day.bookings[i])
      then Some(Violation("reservation", day.bookings[i].id, None, HasTarget(day))) else None
  }

  /** `reservation.reachable`. */
  function Unreachable(day: Day): seq<Violation> {
    Collect(|day.bookings|, StrandedAt(day))
  }

  /** Its repair: each booking asked for is moved onto the day's only instance, and linked to the bus stored for it. */
  function Moved(day: Day, ids: set<string>, b: Booking): Booking {
    if b.id in ids && Stranded(day, b) && HasTarget(day) then
      var target := BusesAt(day.buses, day.instances[0].departure);
      Booking(b.id, if |target| == 1 then Some(target[0].id) else None, day.instances[0])
    else b
  }

  function Repaired(day: Day, ids: set<string>): Day {
    day.(bookings := seq(|day.bookings|, i requires 0 <= i < |day.bookings| => Moved(day, ids, day.bookings[i])))
  }

  /** The sync of a date with one timetable bus: the bus takes the instance's times, and its passengers theirs. */
  function Synced(day: Day): Day {
    if |day.instances| != 1 || |day.buses| != 1 then day
    else
      var bus := day.buses[0].(times := day.instances[0]);
      day.(buses := [bus], bookings := seq(|day.bookings|, i requires 0 <= i < |day.bookings| =>
        if day.bookings[i].busId == Some(bus.id) then day.bookings[i].(times := bus.times) else day.bookings[i]))
  }

  function TimesKeptCheck(): Invariant<Day> {
    Invariant(TIMES_KEPT.key, TimesListed, None, None)
  }

  /** Its assessment names the same bookings with the same verdicts, so none is given. */
  function ReachableCheck(): Invariant<Day> {
    Invariant(REACHABLE.key, Unreachable, None, Some(Repaired))
  }

  // ---- What the checks list, and what the repair leaves ----

  /** The booking is linked to this stored bus. */
  ghost predicate IsOn(day: Day, b: Booking, bus: Bus) {
    exists i :: 0 <= i < |day.buses| && day.buses[i] == bus && b.busId == Some(bus.id) && forall j :: 0 <= j < i ==> day.buses[j].id != bus.id
  }

  /** Nothing shows the booking: no bus of its own, and no instance at its time. */
  ghost predicate IsUnseen(day: Day, b: Booking) {
    (forall bus :: !IsOn(day, b, bus)) && forall t :: t in day.instances ==> t.departure != b.times.departure
  }

  /** One instance runs on the day, and no two buses leave at its time. */
  ghost predicate HasOneTarget(day: Day) {
    && |day.instances| == 1
    && forall i, j :: 0 <= i < j < |day.buses| ==> day.buses[i].times.departure != day.instances[0].departure || day.buses[j].times.departure != day.instances[0].departure
  }

  lemma {:induction false} BusByIdIs(buses: seq<Bus>, id: string, bus: Bus)
    ensures BusById(buses, id) == Some(bus) <==> exists i :: 0 <= i < |buses| && buses[i] == bus && bus.id == id && forall j :: 0 <= j < i ==> buses[j].id != id
  {
    if |buses| > 0 && buses[0].id != id {
      var rest := buses[1..];
      BusByIdIs(rest, id, bus);
      assert forall j :: 0 < j < |buses| ==> buses[j] == rest[j - 1];
      if BusById(buses, id) == Some(bus) {
        var i :| 0 <= i < |rest| && rest[i] == bus && bus.id == id && forall j :: 0 <= j < i ==> rest[j].id != id;
        assert buses[i + 1] == bus;
      }
      if i :| 0 <= i < |buses| && buses[i] == bus && bus.id == id && forall j :: 0 <= j < i ==> buses[j].id != id {
        assert rest[i - 1] == bus;
        assert forall j :: 0 <= j < i - 1 ==> rest[j] == buses[j + 1];
      }
    }
  }

  lemma {:induction false} BusOfIs(day: Day, b: Booking)
    ensures forall bus :: BusOf(day, b) == Some(bus) <==> IsOn(day, b, bus)
    ensures Stranded(day, b) <==> IsUnseen(day, b)
  {
    hide BusById;
    forall bus ensures BusOf(day, b) == Some(bus) <==> IsOn(day, b, bus) {
      if b.busId.Some? {
        BusByIdIs(day.buses, b.busId.value, bus);
      }
    }
    hide IsOn;
    assert BusOf(day, b).None? <==> forall bus :: !IsOn(day, b, bus);
  }

  lemma {:induction false} BusesAtAre(buses: seq<Bus>, departure: string)
    ensures |BusesAt(buses, departure)| <= 1 <==>
      forall i, j :: 0 <= i < j < |buses| ==> buses[i].times.departure != departure || buses[j].times.departure != departure
    ensures forall bus :: bus in BusesAt(buses, departure) <==> bus in buses && bus.times.departure == departure
  {
    if |buses| > 0 {
      var rest := buses[1..];
      BusesAtAre(rest, departure);
      assert forall j :: 0 < j < |buses| ==> buses[j] == rest[j - 1];
      assert buses == [buses[0]] + rest;
      assert BusesAt(rest, departure) != [] ==> BusesAt(rest, departure)[0] in BusesAt(rest, departure);
      if buses[0].times.departure == departure && |BusesAt(rest, departure)| > 0 {
        var other := BusesAt(rest, departure)[0];
        var k :| 0 <= k < |rest| && rest[k] == other;
        assert buses[k + 1] == other;
      }
      if buses[0].times.departure == departure && |BusesAt(rest, departure)| == 0 {
        forall k | 0 <= k < |rest| ensures rest[k].times.departure != departure {
          assert rest[k] in rest;
        }
      }
    }
  }

  function UnderTimes(b: Booking, bus: Bus): Violation {
    Violation("reservation", b.id + "@" + bus.times.departure + "-" + bus.times.arrival, None, false)
  }

  /** The one check lists every booking on a stored bus, under its bus's times. */
  lemma {:induction false} TimesListedMeans(day: Day, v: Violation)
    ensures v in TimesListed(day) <==> exists b, bus :: b in day.bookings && IsOn(day, b, bus) && v == UnderTimes(b, bus)
  {
    hide IsOn, BusById;
    forall b | b in day.bookings ensures forall bus :: BusOf(day, b) == Some(bus) <==> IsOn(day, b, bus) {
      BusOfIs(day, b);
    }
    hide BusOf;
    CollectMembers(|day.bookings|, ListedAt(day));
    if b, bus :| b in day.bookings && IsOn(day, b, bus) && v == UnderTimes(b, bus) {
      var i :| 0 <= i < |day.bookings| && day.bookings[i] == b;
      assert ListedAt(day)(i) == Some(v);
    }
  }

  lemma {:induction false} OneTargetIff(day: Day)
    ensures HasTarget(day) <==> HasOneTarget(day)
  {
    hide BusesAt;
    if |day.instances| == 1 {
      BusesAtAre(day.buses, day.instances[0].departure);
    }
  }

  /** The other lists every unseen booking, as repairable exactly when the day has one target. */
  lemma {:induction false} UnreachableMeans(day: Day, v: Violation)
    ensures v in Unreachable(day) <==> exists b :: b in day.bookings && IsUnseen(day, b) && v == Violation("reservation", b.id, None, HasOneTarget(day))
  {
    forall b | b in day.bookings ensures Stranded(day, b) <==> IsUnseen(day, b) {
      BusOfIs(day, b);
    }
    OneTargetIff(day);
    hide IsUnseen, Stranded, HasTarget, HasOneTarget;
    CollectMembers(|day.bookings|, StrandedAt(day));
    if b :| b in day.bookings && IsUnseen(day, b) && v == Violation("reservation", b.id, None, HasOneTarget(day)) {
      var i :| 0 <= i < |day.bookings| && day.bookings[i] == b;
      assert StrandedAt(day)(i) == Some(v);
    }
  }

  /** The repair moves the unseen bookings asked for onto the day's one instance and the bus stored for it, if there is one, and nothing else. */
  lemma {:induction false} RepairMeans(day: Day, ids: set<string>, i: nat)
    requires i < |day.bookings|
    ensures var t := Repaired(day, ids);
      var b := day.bookings[i];
      && t.buses == day.buses && t.instances == day.instances && |t.bookings| == |day.bookings|
      && if b.id in ids && IsUnseen(day, b) && HasOneTarget(day) then
           && t.bookings[i].id == b.id && t.bookings[i].times == day.instances[0]
           && (t.bookings[i].busId == None <==> forall bus :: bus in day.buses ==> bus.times.departure != day.instances[0].departure)
           && (t.bookings[i].busId != None ==> exists bus :: bus in day.buses && bus.times.departure == day.instances[0].departure && t.bookings[i].busId == Some(bus.id))
         else t.bookings[i] == b
  {
    hide IsOn, BusesAt, BusById, BusOf;
    BusOfIs(day, day.bookings[i]);
    hide IsUnseen, Stranded;
    if |day.instances| == 1 {
      BusesAtAre(day.buses, day.instances[0].departure);
      var target := BusesAt(day.buses, day.instances[0].departure);
      if |target| == 1 {
        assert target[0] in target;
      }
    }
  }

  // ---- Bookings a repair is asked for ----

  function StrandedIds(ids: seq<string>): seq<Violation> {
    seq(|ids|, i requires 0 <= i < |ids| => Violation("reservation", ids[i], None, true))
  }

  /** The consent asks for a repair of some reservations: of exactly those a check of theirs would list. */
  ghost predicate AsksToRepair(consent: Consent) {
    exists ids: seq<string> :: ids != [] && TokenFor(REACHABLE.key, StrandedIds(ids)) in consent.repairs
  }

  lemma {:induction false} SameShown(a: seq<Violation>, b: seq<Violation>)
    requires |a| == |b| && forall i :: 0 <= i < |a| ==> Shown(a[i]) == Shown(b[i])
    ensures SortedShown(a) == SortedShown(b)
  {
    if |a| > 0 {
      SameShown(a[..|a| - 1], b[..|b| - 1]);
    }
  }

  lemma {:induction false} UnreachableNames(day: Day)
    ensures forall v :: v in Unreachable(day) ==> v.subjectType == "reservation" && v.magnitude.None?
  {
    CollectMembers(|day.bookings|, StrandedAt(day));
  }

  lemma {:induction false} AddedAreAfter(before: seq<Violation>, after: seq<Violation>)
    ensures forall v :: v in Added(before, after) ==> v in after
  {
    CollectMembers(|after|, AddedAt(before, after));
  }

  lemma {:induction false} ReservationsAskedFor(added: seq<Violation>, consent: Consent)
    requires added != [] && TokenFor(REACHABLE.key, added) in consent.repairs
    requires forall v :: v in added ==> v.subjectType == "reservation" && v.magnitude.None?
    ensures AsksToRepair(consent)
  {
    var ids := seq(|added|, i requires 0 <= i < |added| => added[i].subjectId);
    forall i | 0 <= i < |added| ensures Shown(added[i]) == Shown(StrandedIds(ids)[i]) {
      assert added[i] in added;
    }
    SameShown(added, StrandedIds(ids));
    assert TokenFor(REACHABLE.key, StrandedIds(ids)) in consent.repairs;
  }

  /** What `reservation.reachable` is asked to repair is a set of reservations. */
  lemma {:induction false} RepairsReservations(before: seq<Violation>, day: Day, consent: Consent)
    requires Repairs(ReachableCheck(), before, day, consent)
    ensures AsksToRepair(consent)
  {
    hide Added, Unreachable, TokenFor, AsksToRepair;
    UnreachableNames(day);
    AddedAreAfter(before, Unreachable(day));
    ReservationsAskedFor(Added(before, Unreachable(day)), consent);
  }

  // ---- Bookings a repair links are not asked about ----

  const EIGHT := Times("08:00", "10:00")

  function BookedAs(ids: seq<string>, busId: Option<string>, times: Times): seq<Booking> {
    seq(|ids|, i requires 0 <= i < |ids| => Booking(ids[i], busId, times))
  }

  /** Bookings from before links were stored, and the bus they are for. */
  function Unlinked(ids: seq<string>, times: Times): Day {
    Day(BookedAs(ids, None, EIGHT), [Bus("d1", times)], [times])
  }

  function Linked(ids: seq<string>, times: Times): Day {
    Day(BookedAs(ids, Some("d1"), times), [Bus("d1", times)], [times])
  }

  function ListedIds(ids: seq<string>, times: Times): seq<Violation> {
    seq(|ids|, i requires 0 <= i < |ids| => Violation("reservation", ids[i] + "@" + times.departure + "-" + times.arrival, None, false))
  }

  /** A timetable edit moves the ride's time, and its sync the bus; an edit of an extra moves both. */
  function Retime(edit: GuardedEdit, times: Times): Day -> Day {
    (day: Day) => if Syncs(edit) then day.(instances := [times]) else day.(instances := [times], buses := [Bus("d1", times)])
  }

  lemma {:induction false} CollectAll<B>(n: nat, f: nat -> Option<B>, ys: seq<B>)
    requires n <= |ys| && forall i: nat :: i < n ==> f(i) == Some(ys[i])
    ensures Collect(n, f) == ys[..n]
  {
    if n > 0 {
      CollectAll(n - 1, f, ys);
      assert ys[..n] == ys[..n - 1] + [ys[n - 1]];
    }
  }

  lemma {:induction false} CollectNothing<B>(n: nat, f: nat -> Option<B>)
    requires forall i: nat :: i < n ==> f(i) == None
    ensures Collect(n, f) == []
  {
    if n > 0 {
      CollectNothing(n - 1, f);
    }
  }

  lemma {:induction false} UnlinkedLists(ids: seq<string>, times: Times)
    ensures TimesListed(Unlinked(ids, times)) == []
    ensures Unreachable(Unlinked(ids, times)) == if times.departure == EIGHT.departure then [] else StrandedIds(ids)
    ensures Synced(Unlinked(ids, times)) == Unlinked(ids, times)
  {
    var day := Unlinked(ids, times);
    CollectNothing(|ids|, ListedAt(day));
    assert day.instances[0] == times;
    assert BusesAt(day.buses, times.departure) == [Bus("d1", times)];
    if times.departure == EIGHT.departure {
      CollectNothing(|ids|, StrandedAt(day));
    } else {
      CollectAll(|ids|, StrandedAt(day), StrandedIds(ids));
      assert StrandedIds(ids)[..|ids|] == StrandedIds(ids);
    }
    assert Synced(day).bookings == day.bookings;
  }

  lemma {:induction false} LinkedLists(ids: seq<string>, times: Times)
    ensures TimesListed(Linked(ids, times)) == ListedIds(ids, times) && Unreachable(Linked(ids, times)) == []
    ensures Synced(Linked(ids, times)) == Linked(ids, times)
  {
    var day := Linked(ids, times);
    assert BusById(day.buses, "d1") == Some(Bus("d1", times));
    CollectAll(|ids|, ListedAt(day), ListedIds(ids, times));
    assert ListedIds(ids, times)[..|ids|] == ListedIds(ids, times);
    CollectNothing(|ids|, StrandedAt(day));
    assert Synced(day).bookings == day.bookings;
  }

  lemma {:induction false} RepairLinks(ids: seq<string>, times: Times)
    requires times.departure != EIGHT.departure
    ensures Repaired(Unlinked(ids, times), SubjectIds(StrandedIds(ids))) == Linked(ids, times)
  {
    var day := Unlinked(ids, times);
    var asked := SubjectIds(StrandedIds(ids));
    assert BusesAt(day.buses, times.departure) == [Bus("d1", times)];
    forall i | 0 <= i < |ids| ensures Moved(day, asked, day.bookings[i]) == Booking(ids[i], Some("d1"), times) {
      assert StrandedIds(ids)[i] in StrandedIds(ids);
    }
    assert Repaired(day, asked).bookings == Linked(ids, times).bookings;
  }

  lemma {:induction false} RetimeProposes(edit: GuardedEdit, ids: seq<string>, times: Times)
    ensures Proposed(Unlinked(ids, EIGHT), Retime(edit, times), Synced, Syncs(edit)) == Unlinked(ids, times)
  {
    if Syncs(edit) {
      var day := Retime(edit, times)(Unlinked(ids, EIGHT));
      assert Synced(day).bookings == Unlinked(ids, times).bookings;
    }
  }

  // ---- The lists, with the checks that repair and that repairs can break ----

  /** The list of an edit: these two are the code's own, and the others any checks. */
  ghost predicate OwnList(invariants: seq<Invariant<Day>>, edit: GuardedEdit) {
    var shape := ShapeOf(edit);
    && OfShape(invariants, shape)
    && forall k :: 0 <= k < |shape| ==>
         (shape[k] == TIMES_KEPT ==> invariants[k] == TimesKeptCheck()) && (shape[k] == REACHABLE ==> invariants[k] == ReachableCheck())
  }

  /** The list with other checks that never find anything. */
  function QuietList(edit: GuardedEdit): seq<Invariant<Day>> {
    var shape := ShapeOf(edit);
    seq(|shape|, k requires 0 <= k < |shape| =>
      if shape[k] == TIMES_KEPT then TimesKeptCheck()
      else if shape[k] == REACHABLE then ReachableCheck()
      else Invariant(shape[k].key, (day: Day) => [], None, None))
  }

  lemma {:induction false} QuietIsOwn(edit: GuardedEdit)
    ensures OwnList(QuietList(edit), edit)
  {
    var shape := ShapeOf(edit);
    forall k | 0 <= k < |shape| ensures QuietList(edit)[k].key == shape[k].key && QuietList(edit)[k].repair.Some? == shape[k].repairs {
    }
  }

  predicate LooksAtTimesFirst(edit: GuardedEdit) {
    edit == LINE_UPDATE || edit == RIDE_UPDATE || edit == EXTRA_UPDATE
  }

  lemma {:induction false} JudgedInTurn(ids: seq<string>, times: Times, consent: Consent)
    requires ids != [] && times.departure != EIGHT.departure && TokenFor(REACHABLE.key, StrandedIds(ids)) in consent.repairs
    ensures Judge(TimesKeptCheck(), TimesKeptCheck().check(Unlinked(ids, EIGHT)), Unlinked(ids, times), consent) == Passes(Unlinked(ids, times), false)
    ensures Judge(ReachableCheck(), ReachableCheck().check(Unlinked(ids, EIGHT)), Unlinked(ids, times), consent) == Passes(Linked(ids, times), true)
  {
    hide TokenFor, TimesListed, Unreachable, Repaired, Unlinked, Linked;
    UnlinkedLists(ids, EIGHT);
    UnlinkedLists(ids, times);
    LinkedLists(ids, times);
    RepairLinks(ids, times);
    AddedToNothing([]);
    AddedToNothing(StrandedIds(ids));
    hide Added;
    assert |StrandedIds(ids)| == |ids|;
  }

  /** The first two checks of such a list, with nothing wrong for the others. */
  ghost predicate TimesThenRepair(list: seq<Invariant<Day>>, start: Day, linked: Day) {
    && |list| >= 2 && list[0] == TimesKeptCheck() && list[1] == ReachableCheck()
    && forall k :: 2 <= k < |list| ==> Added(list[k].check(start), list[k].check(linked)) == []
  }

  lemma {:induction false} QuietAfterTwo(edit: GuardedEdit, start: Day, linked: Day)
    requires LooksAtTimesFirst(edit)
    ensures TimesThenRepair(QuietList(edit), start, linked)
  {
    AddedToNothing([]);
    hide Added;
  }

  lemma {:induction false} LinkedTimesAreNew(ids: seq<string>, times: Times, consent: Consent)
    requires ids != [] && TokenFor(TIMES_KEPT.key, ListedIds(ids, times)) !in consent.confirmations
    ensures !CleanOrConfirmed(TimesKeptCheck(), Unlinked(ids, EIGHT), Linked(ids, times), consent)
  {
    hide TokenFor, TimesListed, Unlinked, Linked;
    LinkedLists(ids, times);
    UnlinkedLists(ids, EIGHT);
    AddedToNothing(ListedIds(ids, times));
    hide Added;
    assert |ListedIds(ids, times)| == |ids|;
  }

  lemma {:induction false} RunsThroughRepair(list: seq<Invariant<Day>>, ids: seq<string>, times: Times, consent: Consent)
    requires ids != [] && times.departure != EIGHT.departure && TokenFor(REACHABLE.key, StrandedIds(ids)) in consent.repairs
    requires TimesThenRepair(list, Unlinked(ids, EIGHT), Linked(ids, times))
    ensures RunFrom(list, Unlinked(ids, EIGHT), 0, Unlinked(ids, times), false, consent) == Through(Linked(ids, times), true)
  {
    hide Added, TokenFor, Judge, TimesListed, Unreachable, Repaired, Unlinked, Linked;
    var start, proposed, linked := Unlinked(ids, EIGHT), Unlinked(ids, times), Linked(ids, times);
    JudgedInTurn(ids, times, consent);
    CleanPasses(list, start, 2, |list|, linked, true, consent);
    assert RunFrom(list, start, |list|, linked, true, consent) == Through(linked, true);
    assert RunFrom(list, start, 1, proposed, false, consent) == RunFrom(list, start, 2, linked, true, consent);
    assert RunFrom(list, start, 0, proposed, false, consent) == RunFrom(list, start, 1, proposed, false, consent);
  }

  /**
   * A time moves from under bookings that are linked to no bus, and their repair is asked for.
   * The write commits with each of them on a bus whose new times nobody confirmed.
   */
  lemma {:induction false} LinkedBookingsAreNotAskedAbout(edit: GuardedEdit, ids: seq<string>, times: Times, consent: Consent)
    requires LooksAtTimesFirst(edit) && ids != [] && times.departure != EIGHT.departure
    requires TokenFor(REACHABLE.key, StrandedIds(ids)) in consent.repairs
    requires TokenFor(TIMES_KEPT.key, ListedIds(ids, times)) !in consent.confirmations
    ensures Guarded(QuietList(edit), Unlinked(ids, EIGHT), Retime(edit, times), Synced, Syncs(edit), consent) == Committed(Linked(ids, times))
    ensures QuietList(edit)[0] == TimesKeptCheck() && !CleanOrConfirmed(TimesKeptCheck(), Unlinked(ids, EIGHT), Linked(ids, times), consent)
  {
    hide TokenFor, Unlinked, Linked, Retime, Synced, CleanOrConfirmed, RunFrom, TimesListed, Unreachable, Repaired;
    QuietAfterTwo(edit, Unlinked(ids, EIGHT), Linked(ids, times));
    hide QuietList;
    RetimeProposes(edit, ids, times);
    RunsThroughRepair(QuietList(edit), ids, times, consent);
    LinkedLists(ids, times);
    LinkedTimesAreNew(ids, times, consent);
  }

  /** In the other order the same consent would be refused over those times. */
  lemma {:induction false} OtherOrderRefuses(ids: seq<string>, times: Times, consent: Consent)
    requires ids != [] && times.departure != EIGHT.departure
    requires TokenFor(REACHABLE.key, StrandedIds(ids)) in consent.repairs
    requires TokenFor(TIMES_KEPT.key, ListedIds(ids, times)) !in consent.confirmations
    ensures var swapped := [ReachableCheck(), TimesKeptCheck()];
      var outcome := Guarded(swapped, Unlinked(ids, EIGHT), Retime(RIDE_UPDATE, times), Synced, true, consent);
      outcome.Refused? && outcome.refusal.key == TIMES_KEPT.key
  {
    var swapped := [ReachableCheck(), TimesKeptCheck()];
    var start, proposed, linked := Unlinked(ids, EIGHT), Unlinked(ids, times), Linked(ids, times);
    RetimeProposes(RIDE_UPDATE, ids, times);
    JudgedInTurn(ids, times, consent);
    LinkedLists(ids, times);
    UnlinkedLists(ids, EIGHT);
    AddedToNothing(ListedIds(ids, times));
    assert |ListedIds(ids, times)| == |ids|;
    hide Added, TokenFor, TimesListed, Unreachable, Repaired, Synced, Unlinked, Linked, Retime;
    assert Judge(TimesKeptCheck(), TimesKeptCheck().check(start), linked, consent).Refuses?;
    assert Judge(TimesKeptCheck(), TimesKeptCheck().check(start), linked, consent).refusal.key == TIMES_KEPT.key;
    hide Judge;
    assert RunFrom(swapped, start, 1, linked, true, consent).Stopped?;
  }

  // ---- Exactly when each list commits what was agreed ----

  function NineTo(n: nat): Times {
    Times("09:00", Tally(n))
  }

  lemma {:induction false} TallyStarts(a: string, n: nat, k: nat)
    requires k <= n
    ensures var x := a + "-" + Tally(n); x[|x| - 1 - k] == '-' <==> k == n
  {
    var x := a + "-" + Tally(n);
    assert k < n ==> x[|x| - 1 - k] == Tally(n)[n - 1 - k];
  }

  /** The last mark of a text tells how many letters follow it. */
  lemma {:induction false} TallyFollows(a: string, n: nat, b: string, m: nat)
    requires a + "-" + Tally(n) == b + "-" + Tally(m)
    ensures n == m
  {
    var k := if n <= m then n else m;
    TallyStarts(a, n, k);
    TallyStarts(b, m, k);
  }

  /** A listed booking's subject ends in the bus's arrival. */
  lemma {:induction false} ListedSubject(id: string, n: nat)
    ensures "reservation" + ":" + (id + "@" + "09:00" + "-" + Tally(n)) == ("reservation" + ":" + id + "@" + "09:00") + "-" + Tally(n)
  {
  }

  lemma {:induction false} InsertedMembers(shown: seq<(string, Option<int>)>, x: (string, Option<int>))
    ensures forall y :: y in InsertShown(shown, x) <==> y in shown || y == x
  {
    if |shown| > 0 {
      assert shown == shown[..|shown| - 1] + [shown[|shown| - 1]];
      InsertedMembers(shown[..|shown| - 1], x);
    }
  }

  lemma {:induction false} ShownMembers(vs: seq<Violation>)
    ensures forall y :: y in SortedShown(vs) <==> exists v :: v in vs && Shown(v) == y
  {
    if |vs| > 0 {
      assert vs == vs[..|vs| - 1] + [vs[|vs| - 1]];
      ShownMembers(vs[..|vs| - 1]);
      InsertedMembers(SortedShown(vs[..|vs| - 1]), Shown(vs[|vs| - 1]));
    }
  }

  lemma {:induction false} ListedApart(ids: seq<string>, n: nat, m: nat)
    requires ids != [] && TokenFor(TIMES_KEPT.key, ListedIds(ids, NineTo(n))) == TokenFor(TIMES_KEPT.key, ListedIds(ids, NineTo(m)))
    ensures n == m
  {
    var xs, ys := ListedIds(ids, NineTo(n)), ListedIds(ids, NineTo(m));
    ShownMembers(xs);
    ShownMembers(ys);
    hide SortedShown;
    assert |xs| == |ids| > 0 && xs[0] in xs;
    assert Shown(xs[0]) in SortedShown(ys);
    var v :| v in ys && Shown(v) == Shown(xs[0]);
    var j :| 0 <= j < |ys| && ys[j] == v;
    ListedSubject(ids[0], n);
    ListedSubject(ids[j], m);
    TallyFollows("reservation" + ":" + ids[0] + "@" + "09:00", n, "reservation" + ":" + ids[j] + "@" + "09:00", m);
  }

  /** Consent is finite: some times of the bus are confirmed by none of it. */
  lemma {:induction false} UnconfirmedTimes(ids: seq<string>, tokens: set<Token>, from: nat) returns (n: nat)
    requires ids != []
    ensures n >= from && TokenFor(TIMES_KEPT.key, ListedIds(ids, NineTo(n))) !in tokens
    decreases |tokens|
  {
    n := from;
    var t := TokenFor(TIMES_KEPT.key, ListedIds(ids, NineTo(from)));
    if t in tokens {
      n := UnconfirmedTimes(ids, tokens - {t}, from + 1);
      if TokenFor(TIMES_KEPT.key, ListedIds(ids, NineTo(n))) == t {
        ListedApart(ids, n, from);
      }
    }
  }

  lemma {:induction false} SyncedTwice(day: Day)
    ensures Synced(Synced(day)) == Synced(day)
  {
    var once := Synced(day);
    if |day.instances| == 1 && |day.buses| == 1 {
      assert Synced(once).bookings == once.bookings;
    }
  }

  /** A repair moves bookings to the bus of the day's instance, so a day in step stays in step. */
  lemma {:induction false} RepairStaysInStep(day: Day, ids: set<string>)
    requires Synced(day) == day
    ensures Synced(Repaired(day, ids)) == Repaired(day, ids)
  {
    var t := Repaired(day, ids);
    if |day.instances| == 1 && |day.buses| == 1 {
      var bus, instance := day.buses[0], day.instances[0];
      assert Synced(day).buses[0].times == instance;
      forall i | 0 <= i < |t.bookings| && t.bookings[i].busId == Some(bus.id) ensures t.bookings[i].times == instance {
        assert Synced(day).bookings[i] == day.bookings[i];
      }
      assert Synced(t).bookings == t.bookings && Synced(t).buses == t.buses;
    }
  }

  lemma {:induction false} DaysKeepStep(invariants: seq<Invariant<Day>>, edit: GuardedEdit)
    requires OwnList(invariants, edit)
    ensures KeepsStep(invariants, Synced, (day: Day) => Synced(day) == day)
  {
    hide Synced, Repaired;
    var shape := ShapeOf(edit);
    forall day: Day ensures Synced(Synced(day)) == Synced(day) {
      SyncedTwice(day);
    }
    forall k, day: Day, ids | 0 <= k < |invariants| && invariants[k].repair.Some? && Synced(day) == day
      ensures Synced(invariants[k].repair.value(day, ids)) == invariants[k].repair.value(day, ids)
    {
      assert shape[k].repairs && shape[k] == REACHABLE && invariants[k] == ReachableCheck();
      RepairStaysInStep(day, ids);
    }
  }

  /** Whatever the day, the edit and the other checks are, a commit leaves every check clean or confirmed in the day it commits. */
  ghost predicate CommitsAsAgreed(edit: GuardedEdit, consent: Consent) {
    forall invariants: seq<Invariant<Day>>, start: Day, write: Day -> Day ::
      OwnList(invariants, edit) && Guarded(invariants, start, write, Synced, Syncs(edit), consent).Committed? ==>
        AllCleanOrConfirmed(invariants, start, 0, Guarded(invariants, start, write, Synced, Syncs(edit), consent).world, consent)
  }

  lemma {:induction false} OwnListAsAgreed(invariants: seq<Invariant<Day>>, edit: GuardedEdit, start: Day, write: Day -> Day, consent: Consent)
    requires OwnList(invariants, edit) && Guarded(invariants, start, write, Synced, Syncs(edit), consent).Committed?
    requires LooksAtTimesFirst(edit) ==> !AsksToRepair(consent)
    ensures AllCleanOrConfirmed(invariants, start, 0, Guarded(invariants, start, write, Synced, Syncs(edit), consent).world, consent)
  {
    hide AsksToRepair, Guarded, AllCleanOrConfirmed, Synced, KeepsStep, AsksFor;
    var shape := ShapeOf(edit);
    if LooksAtTimesFirst(edit) {
      var w := Proposed(start, write, Synced, Syncs(edit));
      forall k | 0 <= k < |invariants| ensures !Repairs(invariants[k], invariants[k].check(start), w, consent) {
        if Repairs(invariants[k], invariants[k].check(start), w, consent) {
          assert shape[k].repairs && shape[k] == REACHABLE && invariants[k] == ReachableCheck();
          RepairsReservations(ReachableCheck().check(start), w, consent);
        }
      }
      CommitsWithoutRepairsIff(invariants, start, write, Synced, Syncs(edit), consent);
    } else {
      DaysKeepStep(invariants, edit);
      CommitsWhatWasAgreedInStep(invariants, shape, start, write, Synced, Syncs(edit), (day: Day) => Synced(day) == day, consent);
    }
  }

  /**
   * A ride exception, a cancelled departure, a station and a passenger switched off always
   * commit what was agreed, repairs and all. A line, a ride and an extra do so if and only if
   * the consent asks for no repair of reservations.
   */
  lemma {:induction false} ListsAsAgreedIff(edit: GuardedEdit, consent: Consent)
    ensures CommitsAsAgreed(edit, consent) <==> !LooksAtTimesFirst(edit) || !AsksToRepair(consent)
  {
    if LooksAtTimesFirst(edit) && AsksToRepair(consent) {
      var ids: seq<string> :| ids != [] && TokenFor(REACHABLE.key, StrandedIds(ids)) in consent.repairs;
      hide Guarded, CleanOrConfirmed, TokenFor, Synced, Unlinked, Linked, Retime, ListedIds, StrandedIds, QuietList, OwnList;
      var n := UnconfirmedTimes(ids, consent.confirmations, 0);
      assert NineTo(n).departure != EIGHT.departure by {
        assert "09:00"[1] != "08:00"[1];
      }
      QuietIsOwn(edit);
      LinkedBookingsAreNotAskedAbout(edit, ids, NineTo(n), consent);
      OwnListIsNotEmpty(edit);
      assert !AllCleanOrConfirmed(QuietList(edit), Unlinked(ids, EIGHT), 0, Linked(ids, NineTo(n)), consent);
    } else {
      hide OwnList, Guarded, AllCleanOrConfirmed;
      forall invariants: seq<Invariant<Day>>, start: Day, write: Day -> Day
        | OwnList(invariants, edit) && Guarded(invariants, start, write, Synced, Syncs(edit), consent).Committed?
        ensures AllCleanOrConfirmed(invariants, start, 0, Guarded(invariants, start, write, Synced, Syncs(edit), consent).world, consent)
      {
        OwnListAsAgreed(invariants, edit, start, write, consent);
      }
    }
  }

  lemma {:induction false} OwnListIsNotEmpty(edit: GuardedEdit)
    ensures |QuietList(edit)| > 0
  {
  }
}
