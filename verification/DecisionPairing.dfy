/**
 * Every decision is recorded twice, and the two records never part: what each operation
 * keeps of the pairing between departures and exception rows.
 */
module DecisionPairing {
  import opened Basics
  import opened Calendar
  import opened Timetable
  import opened Tables
  import opened SyncPlan
  import opened SyncRules
  import opened Decisions

  /** Only an extra is linked, to an ADDITIONAL of its own ride and date. */
  ghost predicate Linkage(s: Store) {
    forall d :: d in s.departures && s.departures[d].rideExceptionId.Some? ==>
      var row, e := s.departures[d], s.departures[d].rideExceptionId.value;
      && row.source == EXTRA && e in s.exceptions && s.exceptions[e].kind == ADDITIONAL
      && s.exceptions[e].rideId == row.rideId && s.exceptions[e].exceptionDate == row.serviceDate
  }

  /** No two extras share an ADDITIONAL. */
  ghost predicate NoSharing(s: Store) {
    forall a, b ::
      a in s.departures && b in s.departures && s.departures[a].rideExceptionId.Some?
      && s.departures[a].rideExceptionId == s.departures[b].rideExceptionId
      ==> a == b
  }

  predicate HasSkip(s: Store, rideId: Id, date: string) {
    SkipsOn(s.exceptions, rideId, date) != {}
  }

  /** A timetable departure is cancelled exactly when its ride and date has a SKIP. */
  ghost predicate SkipsPaired(s: Store, dates: iset<string>) {
    forall d :: d in s.departures && s.departures[d].source == SCHEDULE && s.departures[d].serviceDate in dates ==>
      (s.departures[d].cancelled.Some? <==> HasSkip(s, s.departures[d].rideId, s.departures[d].serviceDate))
  }

  predicate SameTimesAs(row: Departure, exception: RideException) {
    exception.departureTime == Some(row.departureTime) && exception.arrivalTime == Some(row.arrivalTime)
  }

  predicate ExtraPaired(s: Store, d: Id)
    requires d in s.departures
  {
    var row := s.departures[d];
    if row.cancelled.Some? then row.rideExceptionId.None?
    else row.rideExceptionId.Some? && row.rideExceptionId.value in s.exceptions && SameTimesAs(row, s.exceptions[row.rideExceptionId.value])
  }

  /** A running extra has its own ADDITIONAL with the same times, and a cancelled one has none. */
  ghost predicate ExtrasPaired(s: Store, dates: iset<string>) {
    forall d :: d in s.departures && s.departures[d].source == EXTRA && s.departures[d].serviceDate in dates ==> ExtraPaired(s, d)
  }

  ghost predicate HasBus(s: Store, e: Id) {
    exists d :: d in s.departures && IsExtraOf(s.departures[d], e)
  }

  /** Every ADDITIONAL that adds a bus has its extra. */
  ghost predicate AdditionalsPaired(s: Store, dates: iset<string>) {
    forall e :: e in s.exceptions && IsBusAdditional(s.exceptions[e]) && s.exceptions[e].exceptionDate in dates ==> HasBus(s, e)
  }

  /** The departures and the exception rows of these dates tell the same story. */
  ghost predicate Paired(s: Store, dates: iset<string>) {
    Linkage(s) && NoSharing(s) && SkipsPaired(s, dates) && ExtrasPaired(s, dates) && AdditionalsPaired(s, dates)
  }

  ghost predicate Sound(s: Store, dates: iset<string>) {
    Valid(s) && Paired(s, dates)
  }

  // ---- One cancellation ----

  /** Cancelling a date twice leaves it credited to the first. */
  lemma {:induction false} FirstCreditStands(departures: map<Id, Departure>, rideId: Id, date: string, first: Cancellation, second: Cancellation)
    ensures WithCancellation(WithCancellation(departures, rideId, date, first), rideId, date, second)
      == WithCancellation(departures, rideId, date, first)
  {
  }

  /** Restoring a date undoes its cancelling exactly when the timetable departure was running before. */
  lemma {:induction false} RestoreUndoesCancelIff(departures: map<Id, Departure>, rideId: Id, date: string, credit: Cancellation)
    ensures WithoutCancellation(WithCancellation(departures, rideId, date, credit), rideId, date) == departures
      <==> forall d :: d in departures && IsScheduleOf(departures[d], rideId, date) ==> departures[d].cancelled.None?
  {
    var back := WithoutCancellation(WithCancellation(departures, rideId, date, credit), rideId, date);
    assert back.Keys == departures.Keys;
    forall d | d in departures
      ensures back[d] == departures[d] <==> (IsScheduleOf(departures[d], rideId, date) ==> departures[d].cancelled.None?)
    {
    }
  }

  /** At most one departure is touched, and one is exactly when the date's timetable departure is stored and running. */
  lemma {:induction false} CancelTouchesOne(departures: map<Id, Departure>, rideId: Id, date: string, credit: Cancellation)
    requires UniqueSchedule(departures)
    ensures var after := WithCancellation(departures, rideId, date, credit);
      && (forall a, b :: a in departures && b in departures && after[a] != departures[a] && after[b] != departures[b] ==> a == b)
      && (after != departures <==> exists d :: d in departures && IsScheduleOf(departures[d], rideId, date) && departures[d].cancelled.None?)
  {
    var after := WithCancellation(departures, rideId, date, credit);
    assert after.Keys == departures.Keys;
    if d :| d in departures && IsScheduleOf(departures[d], rideId, date) && departures[d].cancelled.None? {
      assert after[d].cancelled.Some?;
    }
  }

  // ---- SKIP and restore ----

  lemma {:induction false} SkipsOnAdd(s: Store, rideId: Id, date: string, actor: Actor, r: Id, d: string)
    requires actor.exceptionId !in s.exceptions
    ensures var after := s.exceptions[actor.exceptionId := NewSkip(rideId, date, actor)];
      SkipsOn(after, r, d) == SkipsOn(s.exceptions, r, d) + if r == rideId && d == date then {actor.exceptionId} else {}
  {
  }

  lemma {:induction false} FirstSkipExists(s: Store, rideId: Id, date: string, found: Option<Id>)
    requires IsFirstSkip(s, rideId, date, found)
    ensures found.Some? ==> found.value in s.exceptions && IsSkipOf(s.exceptions[found.value], rideId, date)
  {
    hide LoadedBefore;
  }

  /** Only timetable departures changed, in whether they are cancelled, and no ADDITIONAL did. */
  ghost predicate OnlySchedulesDecided(s: Store, t: Store) {
    && t.departures.Keys == s.departures.Keys
    && (forall d :: d in s.departures && s.departures[d].source != SCHEDULE ==> t.departures[d] == s.departures[d])
    && (forall d :: d in s.departures && s.departures[d].source == SCHEDULE ==>
          t.departures[d].source == SCHEDULE && t.departures[d].rideExceptionId == s.departures[d].rideExceptionId)
    && (forall e :: e in s.exceptions && s.exceptions[e].kind == ADDITIONAL ==> e in t.exceptions && t.exceptions[e] == s.exceptions[e])
    && (forall e :: e in t.exceptions && t.exceptions[e].kind == ADDITIONAL ==> e in s.exceptions && s.exceptions[e] == t.exceptions[e])
  }

  lemma {:induction false} LinksStay(s: Store, t: Store)
    requires OnlySchedulesDecided(s, t) && Linkage(s) && NoSharing(s)
    ensures Linkage(t) && NoSharing(t)
  {
  }

  lemma {:induction false} ExtrasStayPaired(s: Store, t: Store, dates: iset<string>)
    requires OnlySchedulesDecided(s, t) && Linkage(s) && ExtrasPaired(s, dates)
    ensures ExtrasPaired(t, dates)
  {
    hide SameTimesAs;
  }

  lemma {:induction false} AdditionalsStayPaired(s: Store, t: Store, dates: iset<string>)
    requires OnlySchedulesDecided(s, t) && AdditionalsPaired(s, dates)
    ensures AdditionalsPaired(t, dates)
  {
    forall e | e in t.exceptions && IsBusAdditional(t.exceptions[e]) && t.exceptions[e].exceptionDate in dates ensures HasBus(t, e) {
      var d :| d in s.departures && IsExtraOf(s.departures[d], e);
      assert IsExtraOf(t.departures[d], e);
    }
  }

  lemma {:induction false} SkipDecidesSchedules(s: Store, rideId: Id, date: string, actor: Actor, found: Option<Id>)
    requires actor.exceptionId !in s.exceptions && (found.Some? ==> found.value in s.exceptions)
    ensures OnlySchedulesDecided(s, AfterSkip(s, rideId, date, actor, found))
  {
  }

  lemma {:induction false} SkipCancels(s: Store, dates: iset<string>, rideId: Id, date: string, actor: Actor, found: Option<Id>)
    requires SkipsPaired(s, dates) && (found.Some? ==> found.value in s.exceptions)
    requires forall r, d :: HasSkip(AfterSkip(s, rideId, date, actor, found), r, d) <==> HasSkip(s, r, d) || (r == rideId && d == date)
    ensures SkipsPaired(AfterSkip(s, rideId, date, actor, found), dates)
  {
    hide HasSkip;
  }

  lemma {:induction false} SkipKeepsPaired(s: Store, dates: iset<string>, rideId: Id, date: string, actor: Actor, found: Option<Id>)
    requires Paired(s, dates) && actor.exceptionId !in s.exceptions && IsFirstSkip(s, rideId, date, found)
    ensures Paired(AfterSkip(s, rideId, date, actor, found), dates)
  {
    FirstSkipExists(s, rideId, date, found);
    hide AfterSkip, IsFirstSkip, HasSkip, OnlySchedulesDecided, Linkage, NoSharing, SkipsPaired, ExtrasPaired, AdditionalsPaired;
    var t := AfterSkip(s, rideId, date, actor, found);
    SkipBecomes(s, rideId, date, actor, found);
    SkipDecidesSchedules(s, rideId, date, actor, found);
    SkipCancels(s, dates, rideId, date, actor, found);
    LinksStay(s, t);
    ExtrasStayPaired(s, t, dates);
    AdditionalsStayPaired(s, t, dates);
  }

  lemma {:induction false} SkipBecomes(s: Store, rideId: Id, date: string, actor: Actor, found: Option<Id>)
    requires actor.exceptionId !in s.exceptions && IsFirstSkip(s, rideId, date, found)
    ensures var t := AfterSkip(s, rideId, date, actor, found);
      forall r, d :: HasSkip(t, r, d) <==> HasSkip(s, r, d) || (r == rideId && d == date)
  {
    hide LoadedBefore;
    var t := AfterSkip(s, rideId, date, actor, found);
    forall r, d ensures HasSkip(t, r, d) <==> HasSkip(s, r, d) || (r == rideId && d == date) {
      SkipsOnAdd(s, rideId, date, actor, r, d);
    }
  }

  lemma {:induction false} UnskipBecomes(s: Store, rideId: Id, date: string)
    requires Linkage(s)
    ensures var t := AfterUnskip(s, rideId, date);
      && (forall r, d :: HasSkip(t, r, d) <==> HasSkip(s, r, d) && !(r == rideId && d == date))
      && t.departures == WithoutCancellation(s.departures, rideId, date)
      && (forall e :: e in t.exceptions <==> e in s.exceptions && !IsSkipOf(s.exceptions[e], rideId, date))
      && (forall e :: e in t.exceptions ==> t.exceptions[e] == s.exceptions[e])
  {
    var t := AfterUnskip(s, rideId, date);
    var es := SkipsOn(s.exceptions, rideId, date);
    forall d | d in s.departures ensures t.departures[d] == WithoutCancellation(s.departures, rideId, date)[d] {
      assert s.departures[d].rideExceptionId.Some? ==> s.departures[d].rideExceptionId.value !in es;
    }
    forall r, d ensures HasSkip(t, r, d) <==> HasSkip(s, r, d) && !(r == rideId && d == date) {
      if r == rideId && d == date {
        assert SkipsOn(t.exceptions, r, d) == {};
      } else {
        assert SkipsOn(t.exceptions, r, d) == SkipsOn(s.exceptions, r, d);
      }
    }
  }

  lemma {:induction false} UnskipDecidesSchedules(s: Store, rideId: Id, date: string)
    requires Linkage(s)
    ensures OnlySchedulesDecided(s, AfterUnskip(s, rideId, date))
  {
    hide AfterUnskip, HasSkip;
    UnskipBecomes(s, rideId, date);
  }

  lemma {:induction false} UnskipRestores(s: Store, dates: iset<string>, rideId: Id, date: string)
    requires Linkage(s) && SkipsPaired(s, dates)
    ensures SkipsPaired(AfterUnskip(s, rideId, date), dates)
  {
    hide AfterUnskip, HasSkip;
    UnskipBecomes(s, rideId, date);
  }

  lemma {:induction false} UnskipKeepsPaired(s: Store, dates: iset<string>, rideId: Id, date: string)
    requires Paired(s, dates)
    ensures Paired(AfterUnskip(s, rideId, date), dates)
  {
    hide AfterUnskip, OnlySchedulesDecided, Linkage, NoSharing, SkipsPaired, ExtrasPaired, AdditionalsPaired;
    var t := AfterUnskip(s, rideId, date);
    UnskipDecidesSchedules(s, rideId, date);
    UnskipRestores(s, dates, rideId, date);
    LinksStay(s, t);
    ExtrasStayPaired(s, t, dates);
    AdditionalsStayPaired(s, t, dates);
  }

  // ---- Exceptions other than SKIPs ----

  /** Adding, moving or deleting an ADDITIONAL leaves every SKIP alone. */
  lemma {:induction false} SkipsUnmoved(s: Store, t: Store)
    requires forall e :: e in s.exceptions && s.exceptions[e].kind == SKIP ==> e in t.exceptions && t.exceptions[e] == s.exceptions[e]
    requires forall e :: e in t.exceptions && t.exceptions[e].kind == SKIP ==> e in s.exceptions && s.exceptions[e] == t.exceptions[e]
    ensures forall r, d :: HasSkip(t, r, d) <==> HasSkip(s, r, d)
  {
    forall r, d ensures HasSkip(t, r, d) <==> HasSkip(s, r, d) {
      assert SkipsOn(t.exceptions, r, d) == SkipsOn(s.exceptions, r, d) by {
        forall e ensures e in SkipsOn(t.exceptions, r, d) <==> e in SkipsOn(s.exceptions, r, d) {
        }
      }
    }
  }

  // ---- An extra going away ----

  lemma {:induction false} ReleaseBecomes(s: Store, id: Id, link: Option<Id>)
    requires Linkage(s) && NoSharing(s)
    requires link.Some? ==> forall d :: d in s.departures && d != id ==> s.departures[d].rideExceptionId != link
    requires id in s.departures ==> s.departures[id].rideExceptionId.None?
    ensures AfterRelease(s, id, link).departures == s.departures
    ensures AfterRelease(s, id, link).exceptions == if link.Some? then s.exceptions - {link.value} else s.exceptions
    ensures AfterRelease(s, id, link).rides == s.rides && AfterRelease(s, id, link).reservations == s.reservations
  {
  }

  /** The row as `cancelDeparture` and `deleteExtra` leave it before its ADDITIONAL is released: unlinked and cancelled, or gone. */
  ghost predicate Unlinks(s: Store, t: Store, id: Id) {
    && id in s.departures && s.departures[id].source == EXTRA && t.rides == s.rides && t.exceptions == s.exceptions
    && (forall d :: d != id ==> (d in t.departures <==> d in s.departures) && (d in t.departures ==> t.departures[d] == s.departures[d]))
    && (id in t.departures ==>
          t.departures[id].source == EXTRA && t.departures[id].rideExceptionId.None? && t.departures[id].cancelled.Some?)
  }

  lemma {:induction false} ReleaseKeepsAdditionals(s: Store, t: Store, dates: iset<string>, id: Id)
    requires Linkage(s) && NoSharing(s) && AdditionalsPaired(s, dates) && Unlinks(s, t, id)
    ensures AdditionalsPaired(AfterRelease(t, id, s.departures[id].rideExceptionId), dates)
  {
    hide AfterRelease, IsBusAdditional;
    var link := s.departures[id].rideExceptionId;
    var u := AfterRelease(t, id, link);
    ReleaseBecomes(t, id, link);
    forall e | e in u.exceptions && IsBusAdditional(u.exceptions[e]) && u.exceptions[e].exceptionDate in dates ensures HasBus(u, e) {
      var d :| d in s.departures && IsExtraOf(s.departures[d], e);
      assert IsExtraOf(u.departures[d], e);
    }
  }

  lemma {:induction false} ReleaseKeepsRows(s: Store, t: Store, dates: iset<string>, id: Id)
    requires Linkage(s) && NoSharing(s) && SkipsPaired(s, dates) && ExtrasPaired(s, dates) && Unlinks(s, t, id)
    ensures var u := AfterRelease(t, id, s.departures[id].rideExceptionId);
      Linkage(u) && NoSharing(u) && SkipsPaired(u, dates) && ExtrasPaired(u, dates)
  {
    hide HasSkip, AfterRelease;
    var link := s.departures[id].rideExceptionId;
    ReleaseBecomes(t, id, link);
    SkipsUnmoved(s, AfterRelease(t, id, link));
  }

  /** The row is unlinked or removed first, then its ADDITIONAL released. */
  lemma {:induction false} ReleaseKeepsPaired(s: Store, t: Store, dates: iset<string>, id: Id)
    requires Paired(s, dates) && Unlinks(s, t, id)
    ensures Paired(AfterRelease(t, id, s.departures[id].rideExceptionId), dates)
  {
    hide AfterRelease, Linkage, NoSharing, SkipsPaired, ExtrasPaired, AdditionalsPaired;
    ReleaseKeepsAdditionals(s, t, dates, id);
    ReleaseKeepsRows(s, t, dates, id);
  }

  lemma {:induction false} CancelExtraKeepsPaired(s: Store, dates: iset<string>, id: Id, actor: Actor)
    requires Paired(s, dates) && id in s.departures && s.departures[id].source == EXTRA
    ensures Paired(AfterCancel(s, id, actor, None), dates)
  {
    hide Paired, AfterRelease;
    var row := s.departures[id];
    var t := s.(departures := s.departures[id := row.(cancelled := Some(Cancellation(actor.now, actor.id)), rideExceptionId := None)]);
    ReleaseKeepsPaired(s, t, dates, id);
  }

  lemma {:induction false} CancelKeepsPaired(s: Store, dates: iset<string>, id: Id, actor: Actor, found: Option<Id>)
    requires Sound(s, dates) && id in s.departures && s.departures[id].source != LEGACY
    requires actor.exceptionId !in s.exceptions
    requires IsFirstSkip(s, s.departures[id].rideId, s.departures[id].serviceDate, found)
    ensures Paired(AfterCancel(s, id, actor, found), dates)
  {
    var row := s.departures[id];
    FirstSkipExists(s, row.rideId, row.serviceDate, found);
    hide IsFirstSkip, SkipsOn, Paired, AfterSkip, AfterRelease, IsDate;
    if row.source == SCHEDULE {
      CancelIsSkip(s, id, actor, found);
      SkipKeepsPaired(s, dates, row.rideId, row.serviceDate, actor, found);
      CreditIsImmaterial(AfterSkip(s, row.rideId, row.serviceDate, actor, found), dates, id, Cancellation(actor.now, actor.id));
    } else {
      CancelExtraKeepsPaired(s, dates, id, actor);
    }
  }

  /** Cancelling the departure before the SKIP is applied, or after, differs only in whom it credits. */
  lemma {:induction false} CreditedFirst(departures: map<Id, Departure>, id: Id, first: Cancellation, second: Cancellation)
    requires id in departures && departures[id].source == SCHEDULE
    ensures var row := departures[id];
      var t := WithCancellation(departures, row.rideId, row.serviceDate, second);
      && id in t && t[id].cancelled.Some? && t[id].(cancelled := row.cancelled) == row
      && WithCancellation(departures[id := row.(cancelled := Some(first))], row.rideId, row.serviceDate, second)
        == t[id := row.(cancelled := Some(first))]
  {
  }

  /** Cancelling a timetable departure is skipping its date, credited to the operator. */
  lemma {:induction false} CancelIsSkip(s: Store, id: Id, actor: Actor, found: Option<Id>)
    requires UniqueSchedule(s.departures) && id in s.departures && s.departures[id].source == SCHEDULE
    requires IsFirstSkip(s, s.departures[id].rideId, s.departures[id].serviceDate, found)
    ensures var row, credit := s.departures[id], Cancellation(actor.now, actor.id);
      var t := AfterSkip(s, row.rideId, row.serviceDate, actor, found);
      id in t.departures && t.departures[id].cancelled.Some?
      && AfterCancel(s, id, actor, found) == t.(departures := t.departures[id := row.(cancelled := Some(credit))])
      && t.departures[id].(cancelled := row.cancelled) == row
  {
    var row, credit := s.departures[id], Cancellation(actor.now, actor.id);
    FirstSkipExists(s, row.rideId, row.serviceDate, found);
    hide SkipsOn, LoadedBefore, IsFirstSkip, WithCancellation;
    var skip := if found.Some? then s.exceptions[found.value] else NewSkip(row.rideId, row.serviceDate, actor);
    CreditedFirst(s.departures, id, credit, SkipCredit(skip, actor));
  }

  lemma {:induction false} CreditIsImmaterial(t: Store, dates: iset<string>, id: Id, credit: Cancellation)
    requires Paired(t, dates) && id in t.departures && t.departures[id].source == SCHEDULE && t.departures[id].cancelled.Some?
    ensures Paired(t.(departures := t.departures[id := t.departures[id].(cancelled := Some(credit))]), dates)
  {
    hide SkipsOn, IsBusAdditional;
    var u := t.(departures := t.departures[id := t.departures[id].(cancelled := Some(credit))]);
    forall r, d ensures HasSkip(u, r, d) == HasSkip(t, r, d) {
    }
    forall e | e in u.exceptions && IsBusAdditional(u.exceptions[e]) && u.exceptions[e].exceptionDate in dates ensures HasBus(u, e) {
      var d :| d in t.departures && IsExtraOf(t.departures[d], e);
      assert IsExtraOf(u.departures[d], e);
    }
  }

  lemma {:induction false} DeleteKeepsPaired(s: Store, dates: iset<string>, id: Id)
    requires Paired(s, dates) && id in s.departures && s.departures[id].source == EXTRA
    ensures Paired(AfterDeleteExtra(s, id), dates)
  {
    hide Paired, AfterRelease;
    ReleaseKeepsPaired(s, s.(departures := s.departures - {id}), dates, id);
  }

  // ---- An extra coming back, or new ----

  /** An extra row under a new ADDITIONAL with its own ride, date and times. */
  /** A new ADDITIONAL, and a running extra linked to it: a new row, or one that was cancelled. */
  ghost predicate LinksNew(s: Store, id: Id, row: Departure, e: Id, exception: RideException) {
    && e !in s.exceptions && row.source == EXTRA && row.cancelled.None? && row.rideExceptionId == Some(e)
    && (id in s.departures ==>
          s.departures[id].source == EXTRA && s.departures[id].cancelled.Some? && s.departures[id].serviceDate == row.serviceDate)
    && exception.kind == ADDITIONAL && exception.rideId == row.rideId && exception.exceptionDate == row.serviceDate
    && SameTimesAs(row, exception)
  }

  function LinkedStore(s: Store, id: Id, row: Departure, e: Id, exception: RideException): Store {
    s.(departures := s.departures[id := row], exceptions := s.exceptions[e := exception])
  }

  lemma {:induction false} LinkKeepsAdditionals(s: Store, dates: iset<string>, id: Id, row: Departure, e: Id, exception: RideException)
    requires Linkage(s) && AdditionalsPaired(s, dates) && ExtrasPaired(s, dates) && LinksNew(s, id, row, e, exception)
    ensures AdditionalsPaired(LinkedStore(s, id, row, e, exception), dates)
  {
    hide IsBusAdditional;
    var t := LinkedStore(s, id, row, e, exception);
    assert IsExtraOf(t.departures[id], e);
    forall x | x in s.exceptions && x != e && IsBusAdditional(s.exceptions[x]) && s.exceptions[x].exceptionDate in dates ensures HasBus(t, x) {
      var d :| d in s.departures && IsExtraOf(s.departures[d], x);
      assert IsExtraOf(t.departures[d], x);
    }
  }

  lemma {:induction false} LinkKeepsRows(s: Store, dates: iset<string>, id: Id, row: Departure, e: Id, exception: RideException)
    requires Linkage(s) && NoSharing(s) && SkipsPaired(s, dates) && ExtrasPaired(s, dates) && DepartureKeys(s)
    requires LinksNew(s, id, row, e, exception)
    ensures var t := LinkedStore(s, id, row, e, exception);
      Linkage(t) && NoSharing(t) && SkipsPaired(t, dates) && ExtrasPaired(t, dates)
  {
    hide HasSkip, IsDate;
    SkipsUnmoved(s, LinkedStore(s, id, row, e, exception));
  }

  lemma {:induction false} LinkKeepsPaired(s: Store, dates: iset<string>, id: Id, row: Departure, e: Id, exception: RideException)
    requires Paired(s, dates) && DepartureKeys(s) && LinksNew(s, id, row, e, exception)
    ensures Paired(s.(departures := s.departures[id := row], exceptions := s.exceptions[e := exception]), dates)
  {
    hide Linkage, NoSharing, SkipsPaired, ExtrasPaired, AdditionalsPaired, DepartureKeys;
    LinkKeepsAdditionals(s, dates, id, row, e, exception);
    LinkKeepsRows(s, dates, id, row, e, exception);
  }

  lemma {:induction false} RestoreKeepsPaired(s: Store, dates: iset<string>, id: Id, actor: Actor)
    requires Sound(s, dates) && id in s.departures && s.departures[id].source != LEGACY && s.departures[id].cancelled.Some?
    requires actor.exceptionId !in s.exceptions
    ensures Paired(AfterRestore(s, id, actor), dates)
  {
    hide Linkage, NoSharing, SkipsPaired, ExtrasPaired, AdditionalsPaired, AfterUnskip, IsDate;
    var row := s.departures[id];
    if row.source == SCHEDULE {
      UnskipKeepsPaired(s, dates, row.rideId, row.serviceDate);
    } else {
      LinkKeepsPaired(s, dates, id, row.(cancelled := None, rideExceptionId := Some(actor.exceptionId)), actor.exceptionId,
                      NewAdditional(row.rideId, row.serviceDate, row.departureTime, row.arrivalTime, actor));
    }
  }

  lemma {:induction false} ExtraRowNames(ride: Ride, date: string, departureTime: string, arrivalTime: string, capacity: int, actor: Actor)
    ensures var row := ExtraRow(ride, date, departureTime, arrivalTime, capacity, actor);
      && row.source == EXTRA && row.rideId == ride.id && row.serviceDate == date && row.cancelled.None?
      && row.rideExceptionId == Some(actor.exceptionId) && row.departureTime == departureTime && row.arrivalTime == arrivalTime
  {
  }

  lemma {:induction false} CreateKeepsPaired(s: Store, dates: iset<string>, rideId: Id, date: string, departureTime: string, arrivalTime: string,
                                             capacity: Option<int>, actor: Actor, departureId: Id)
    requires Sound(s, dates) && rideId in s.rides && actor.exceptionId !in s.exceptions && departureId !in s.departures
    ensures Paired(AfterCreateExtra(s, rideId, date, departureTime, arrivalTime, capacity, actor, departureId), dates)
  {
    hide Linkage, NoSharing, SkipsPaired, ExtrasPaired, AdditionalsPaired, ExtraRow, IsDate;
    var row := ExtraRow(s.rides[rideId], date, departureTime, arrivalTime, OrElse(capacity, s.rides[rideId].capacity), actor);
    ExtraRowNames(s.rides[rideId], date, departureTime, arrivalTime, OrElse(capacity, s.rides[rideId].capacity), actor);
    LinkKeepsPaired(s, dates, departureId, row, actor.exceptionId, NewAdditional(rideId, date, departureTime, arrivalTime, actor));
  }

  // ---- An extra moved ----

  lemma {:induction false} MoveKeepsPaired(s: Store, dates: iset<string>, id: Id, row: Departure, exceptions: map<Id, RideException>, t: Store)
    requires Sound(s, dates) && id in s.departures && s.departures[id].source == EXTRA
    requires row.source == EXTRA && row.rideId == s.departures[id].rideId && row.serviceDate == s.departures[id].serviceDate
    requires row.cancelled == s.departures[id].cancelled && row.rideExceptionId == s.departures[id].rideExceptionId
    requires t.departures == s.departures[id := row] && t.exceptions == exceptions
    requires row.rideExceptionId.None? ==>
      exceptions == s.exceptions
    requires row.rideExceptionId.Some? && row.rideExceptionId.value in s.exceptions ==>
      exists x :: exceptions == s.exceptions[row.rideExceptionId.value := x]
        && x.kind == s.exceptions[row.rideExceptionId.value].kind && x.rideId == s.exceptions[row.rideExceptionId.value].rideId
        && x.exceptionDate == s.exceptions[row.rideExceptionId.value].exceptionDate && SameTimesAs(row, x)
    ensures Paired(t, dates)
  {
    hide HasSkip, IsBusAdditional, IsDate, AdditionalsPaired, SkipsPaired, Valid;
    MovedSkips(s, dates, id, row, t);
    if row.rideExceptionId.Some? {
      MovedAdditional(s, dates, id, row, t);
    } else {
      SameAdditionals(s, dates, id, row, t);
    }
  }

  lemma {:induction false} MovedSkips(s: Store, dates: iset<string>, id: Id, row: Departure, t: Store)
    requires Sound(s, dates) && id in s.departures && s.departures[id].source == EXTRA && row.source == EXTRA
    requires t.departures == s.departures[id := row] && row.rideExceptionId == s.departures[id].rideExceptionId
    requires row.rideExceptionId.None? ==> t.exceptions == s.exceptions
    requires row.rideExceptionId.Some? && row.rideExceptionId.value in s.exceptions ==>
      exists x :: t.exceptions == s.exceptions[row.rideExceptionId.value := x] && x.kind == s.exceptions[row.rideExceptionId.value].kind
    ensures SkipsPaired(t, dates)
  {
    hide HasSkip, IsDate, NoSharing, ExtrasPaired, AdditionalsPaired;
    SkipsUnmoved(s, t);
  }

  lemma {:induction false} SameAdditionals(s: Store, dates: iset<string>, id: Id, row: Departure, t: Store)
    requires AdditionalsPaired(s, dates) && id in s.departures && t.departures == s.departures[id := row] && t.exceptions == s.exceptions
    requires row.source == s.departures[id].source && row.rideExceptionId == s.departures[id].rideExceptionId
    ensures AdditionalsPaired(t, dates)
  {
    hide IsBusAdditional;
    forall x | x in t.exceptions && IsBusAdditional(t.exceptions[x]) && t.exceptions[x].exceptionDate in dates ensures HasBus(t, x) {
      var d :| d in s.departures && IsExtraOf(s.departures[d], x);
      assert IsExtraOf(t.departures[d], x);
    }
  }

  lemma {:induction false} MovedAdditional(s: Store, dates: iset<string>, id: Id, row: Departure, t: Store)
    requires Sound(s, dates) && id in s.departures && s.departures[id].source == EXTRA && row.rideExceptionId.Some?
    requires row.rideExceptionId == s.departures[id].rideExceptionId && row.source == EXTRA
    requires t.departures == s.departures[id := row]
    requires var e := row.rideExceptionId.value;
      exists x :: t.exceptions == s.exceptions[e := x] && x.kind == s.exceptions[e].kind && x.exceptionDate == s.exceptions[e].exceptionDate
    ensures AdditionalsPaired(t, dates)
  {
    hide HasSkip, IsDate;
    forall x | x in t.exceptions && IsBusAdditional(t.exceptions[x]) && t.exceptions[x].exceptionDate in dates ensures HasBus(t, x) {
      if x == row.rideExceptionId.value {
        assert IsExtraOf(t.departures[id], x);
      } else {
        var d :| d in s.departures && IsExtraOf(s.departures[d], x);
        assert IsExtraOf(t.departures[d], x);
      }
    }
  }
}
