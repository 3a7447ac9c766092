/**
 * A guarded edit of the timetable on the stored departures. It syncs before its checks are
 * measured again, and once more after a repair. The one repair there is, of reservations that
 * cannot be reached, links reservations that have no departure, so the second sync finds
 * nothing to write.
 */
module GuardedSync {
  import opened Basics
  import opened Text
  import opened Timetable
  import opened Calendar
  import opened Tables
  import opened SyncPlan
  import opened SyncRules
  import opened SyncApply
  import opened SyncProofs
  import opened StoresInStep
  import opened GuardedWrite
  import opened GuardTheorems
  import opened GuardLimits
  import opened TimesKept

  // ---- The repair ----

  /** Where the scan would move a reservation: a departure, when one is stored, its times and a seat. */
  datatype Target = Target(departureId: Option<Id>, departureTime: string, arrivalTime: string, seatNumber: int)

  /** Only a reservation without a departure is ever given a target: one on a departure is on the right bus. */
  function Relinked(s: Store, ids: set<string>, targetOf: (Store, Id) -> Option<Target>): Store {
    s.(reservations := map r | r in s.reservations ::
      var row := s.reservations[r];
      if r in ids && row.departureId.None? && targetOf(s, r).Some? then
        var target := targetOf(s, r).value;
        row.(departureId := target.departureId, departureTime := target.departureTime, arrivalTime := target.arrivalTime,
             seatNumber := target.seatNumber)
      else row)
  }

  /** Nothing but reservations without a departure changed. */
  ghost predicate OnlyLinks(s: Store, t: Store) {
    && t == s.(reservations := t.reservations) && t.reservations.Keys == s.reservations.Keys
    && forall r :: r in s.reservations && s.reservations[r].departureId.Some? ==> t.reservations[r] == s.reservations[r]
  }

  lemma {:induction false} RelinkedOnlyLinks(s: Store, ids: set<string>, targetOf: (Store, Id) -> Option<Target>)
    ensures OnlyLinks(s, Relinked(s, ids, targetOf))
  {
  }

  lemma {:induction false} LinkingStaysInStep(s: Store, t: Store, w: Window)
    requires InStep(s, w) && OnlyLinks(s, t)
    ensures InStep(t, w)
  {
    hide Settled, Loaded;
    assert forall r, d :: HasSchedule(s, r, d) ==> HasSchedule(t, r, d);
    assert forall e :: HasExtra(s, w, e) ==> HasExtra(t, w, e);
    forall d | d in s.departures && Loaded(w, s.departures[d]) ensures Settled(t, d) {
      assert RidersOf(s.reservations, d) <= RidersOf(t.reservations, d);
      MoreRidersSettled(s, t, d);
    }
  }

  lemma {:induction false} NothingToApply(s: Store, newId: PlanKey -> Id, now: int)
    ensures ApplySync(s, NO_CHANGES, newId, now, Full) == s
  {
    assert IdsOf([]) == {};
    assert MarkDropped(s.departures, {}, now) == s.departures && s.departures - {} == s.departures;
  }

  /** In a store in step, a sync writes nothing. */
  lemma {:induction false} InStepSyncsToItself(s: Store, w: Window, q: Query, newId: PlanKey -> Id, now: int)
    requires InStep(s, w) && Valid(s) && Walkable(w) && IsQuery(q, s, w)
    ensures ApplySync(s, PlanOf(q, w), newId, now, Full) == s
  {
    hide PlanOf, IsQuery, Walkable, Valid, InStep, ApplySync;
    PlanEmptyIffInStep(q, s, w);
    NothingToApply(s, newId, now);
  }

  /**
   * After a full sync and then any repair of unlinked reservations that the database takes, a
   * second sync changes nothing, whatever the departures and the reservations are.
   */
  lemma {:induction false} SecondSyncChangesNothing(s: Store, w: Window, first: Query, newId: PlanKey -> Id, now: int,
                                                    ids: set<string>, targetOf: (Store, Id) -> Option<Target>,
                                                    second: Query, otherId: PlanKey -> Id, later: int)
    requires Valid(s) && Walkable(w) && IsQuery(first, s, w) && FreshSupply(newId, s.departures)
    requires var t := Relinked(ApplySync(s, PlanOf(first, w), newId, now, Full), ids, targetOf); Valid(t) && IsQuery(second, t, w)
    ensures var t := Relinked(ApplySync(s, PlanOf(first, w), newId, now, Full), ids, targetOf);
      ApplySync(t, PlanOf(second, w), otherId, later, Full) == t
  {
    hide PlanOf, IsQuery, Walkable, Valid, InStep, ApplySync, FreshSupply, Relinked;
    SyncConverges(s, w, first, newId, now);
    var synced := ApplySync(s, PlanOf(first, w), newId, now, Full);
    RelinkedOnlyLinks(synced, ids, targetOf);
    LinkingStaysInStep(synced, Relinked(synced, ids, targetOf), w);
    InStepSyncsToItself(Relinked(synced, ids, targetOf), w, second, otherId, later);
  }

  // ---- The guard ----

  /** A full sync of a window leaves t, from something its queries return and under some unused IDs. */
  ghost predicate SyncLeaves(s: Store, w: Window, t: Store)
    requires Walkable(w)
  {
    exists q, newId, now :: IsQuery(q, s, w) && FreshSupply(newId, s.departures) && t == ApplySync(s, PlanOf(q, w), newId, now, Full)
  }

  /** The sync of a window. A store the database would not take is left alone. */
  ghost predicate IsSync(sync: Store -> Store, w: Window)
    requires Walkable(w)
  {
    forall s :: if Valid(s) then SyncLeaves(s, w, sync(s)) else sync(s) == s
  }

  lemma {:induction false} LongerThan(ids: set<Id>) returns (n: nat)
    ensures forall id :: id in ids ==> |id| < n
    decreases |ids|
  {
    if ids == {} {
      n := 0;
    } else {
      var id :| id in ids;
      var rest := LongerThan(ids - {id});
      n := if |id| < rest then rest else |id| + 1;
      forall x | x in ids ensures |x| < n {
        assert x == id || x in ids - {id};
      }
    }
  }

  /** IDs longer than every stored one are unused. */
  lemma {:induction false} SupplyExists(departures: map<Id, Departure>) returns (newId: PlanKey -> Id)
    ensures FreshSupply(newId, departures)
  {
    var n := LongerThan(departures.Keys);
    newId := (k: PlanKey) => Tally(n) + NameOf(k);
    forall j, k | newId(j) == newId(k) ensures j == k {
      assert newId(j)[n..] == NameOf(j) && newId(k)[n..] == NameOf(k);
      NamesDiffer(j, k);
    }
  }

  ghost function SyncOf(s: Store, w: Window): (t: Store)
    requires Walkable(w) && Valid(s)
    ensures SyncLeaves(s, w, t)
  {
    assert exists q, newId :: IsQuery(q, s, w) && FreshSupply(newId, s.departures) by {
      var q := StoreCanBeRead(s, w);
      var newId := SupplyExists(s.departures);
    }
    var q, newId :| IsQuery(q, s, w) && FreshSupply(newId, s.departures);
    ApplySync(s, PlanOf(q, w), newId, 0, Full)
  }

  /** Every window has such a sync. */
  lemma {:induction false} SyncsExist(w: Window) returns (sync: Store -> Store)
    requires Walkable(w)
    ensures IsSync(sync, w)
  {
    hide SyncLeaves, Valid, Walkable;
    sync := (s: Store) => if Valid(s) then SyncOf(s, w) else s;
  }

  ghost predicate RelinksBy(repair: (Store, set<string>) -> Store, targetOf: (Store, Id) -> Option<Target>) {
    forall s, ids :: repair(s, ids) == Relinked(s, ids, targetOf)
  }

  /** A repair, where there is one, relinks reservations. */
  ghost predicate RepairsRelink(invariants: seq<Invariant<Store>>) {
    forall k :: 0 <= k < |invariants| && invariants[k].repair.Some? ==>
      exists targetOf: (Store, Id) -> Option<Target> :: RelinksBy(invariants[k].repair.value, targetOf)
  }

  ghost function StepOf(w: Window): Store -> bool {
    (s: Store) => Valid(s) ==> InStep(s, w)
  }

  /** Linking a reservation that had no departure repairs no other key. */
  lemma {:induction false} ValidBefore(s: Store, t: Store)
    requires OnlyLinks(s, t) && Valid(t)
    ensures Valid(s)
  {
    hide UniqueSchedule, UniqueLegacy, IsDate;
    forall r | r in s.reservations && s.reservations[r].departureId.Some?
      ensures var d := s.reservations[r].departureId.value;
        d in s.departures && s.reservations[r].rideId == s.departures[d].rideId && s.reservations[r].travelDate == s.departures[d].serviceDate
    {
      assert t.reservations[r] == s.reservations[r];
    }
  }

  lemma {:induction false} SyncKeepsStep(sync: Store -> Store, w: Window, s: Store)
    requires Walkable(w) && IsSync(sync, w)
    ensures StepOf(w)(sync(s)) && (StepOf(w)(s) ==> sync(s) == s)
  {
    if Valid(s) {
      var q, newId, now :| IsQuery(q, s, w) && FreshSupply(newId, s.departures) && sync(s) == ApplySync(s, PlanOf(q, w), newId, now, Full);
      hide IsSync, PlanOf, IsQuery, Walkable, Valid, InStep, ApplySync, FreshSupply;
      SyncConverges(s, w, q, newId, now);
      if InStep(s, w) {
        InStepSyncsToItself(s, w, q, newId, now);
      }
    }
  }

  lemma {:induction false} RelinkKeepsStep(w: Window, s: Store, ids: set<string>, targetOf: (Store, Id) -> Option<Target>)
    requires StepOf(w)(s)
    ensures StepOf(w)(Relinked(s, ids, targetOf))
  {
    hide Valid, InStep, Relinked, OnlyLinks;
    var t := Relinked(s, ids, targetOf);
    RelinkedOnlyLinks(s, ids, targetOf);
    if Valid(t) {
      ValidBefore(s, t);
      LinkingStaysInStep(s, t, w);
    }
  }

  lemma {:induction false} DeparturesKeepStep(invariants: seq<Invariant<Store>>, sync: Store -> Store, w: Window)
    requires Walkable(w) && IsSync(sync, w) && RepairsRelink(invariants)
    ensures KeepsStep(invariants, sync, StepOf(w))
  {
    hide Walkable, IsSync, StepOf, Relinked;
    forall s: Store ensures StepOf(w)(sync(s)) && (StepOf(w)(s) ==> sync(s) == s) {
      SyncKeepsStep(sync, w, s);
    }
    forall k, s: Store, ids | 0 <= k < |invariants| && invariants[k].repair.Some? && StepOf(w)(s)
      ensures StepOf(w)(invariants[k].repair.value(s, ids))
    {
      var targetOf: (Store, Id) -> Option<Target> :| RelinksBy(invariants[k].repair.value, targetOf);
      RelinkKeepsStep(w, s, ids, targetOf);
    }
  }

  /**
   * On the stored departures, with any checks: a list whose one repair comes first, as a ride
   * exception's does, commits what was agreed whatever the consent asks for, for the sync after
   * the repair changes nothing.
   */
  lemma {:induction false} RideExceptionsCommitAsAgreed(invariants: seq<Invariant<Store>>, start: Store, write: Store -> Store, sync: Store -> Store,
                                                        w: Window, consent: Consent)
    requires Walkable(w) && IsSync(sync, w) && RepairsRelink(invariants) && OfShape(invariants, ShapeOf(RIDE_EXCEPTION))
    requires Guarded(invariants, start, write, sync, true, consent).Committed?
    ensures AllCleanOrConfirmed(invariants, start, 0, Guarded(invariants, start, write, sync, true, consent).world, consent)
  {
    hide Walkable, IsSync, StepOf, RepairsRelink, Guarded, AllCleanOrConfirmed, KeepsStep, AsksFor;
    DeparturesKeepStep(invariants, sync, w);
    CommitsWhatWasAgreedInStep(invariants, ShapeOf(RIDE_EXCEPTION), start, write, sync, true, StepOf(w), consent);
  }

  /** And with any list, it does where no reservation repair is asked for after the first check. */
  lemma {:induction false} EditsCommitAsAgreed(edit: GuardedEdit, invariants: seq<Invariant<Store>>, start: Store, write: Store -> Store,
                                               sync: Store -> Store, w: Window, consent: Consent)
    requires Walkable(w) && IsSync(sync, w) && RepairsRelink(invariants) && OfShape(invariants, ShapeOf(edit))
    requires LooksAtTimesFirst(edit) ==> !AsksFor(REACHABLE.key, consent)
    requires Guarded(invariants, start, write, sync, Syncs(edit), consent).Committed?
    ensures AllCleanOrConfirmed(invariants, start, 0, Guarded(invariants, start, write, sync, Syncs(edit), consent).world, consent)
  {
    hide Walkable, IsSync, StepOf, RepairsRelink, Guarded, AllCleanOrConfirmed, KeepsStep, AsksFor;
    var shape := ShapeOf(edit);
    assert forall k :: 0 < k < |shape| && shape[k].repairs ==> shape[k] == REACHABLE && LooksAtTimesFirst(edit);
    DeparturesKeepStep(invariants, sync, w);
    CommitsWhatWasAgreedInStep(invariants, shape, start, write, sync, Syncs(edit), StepOf(w), consent);
  }
}
