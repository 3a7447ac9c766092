/**
 * Where a commit can leave an invariant broken that nobody confirmed, and exactly when it
 * cannot. Each invariant is judged once, so what a later repair breaks goes unasked. So would
 * what the sync after the repairs breaks, for a sync that a repair leaves something to do.
 */
module GuardLimits {
  import opened Basics
  import opened GuardedWrite
  import opened GuardTheorems

  /** An invariant as a list of them names it: its key, and whether it has a repair. */
  datatype Slot = Slot(key: string, repairs: bool)

  ghost predicate OfShape<W>(invariants: seq<Invariant<W>>, shape: seq<Slot>) {
    |invariants| == |shape| && forall k :: 0 <= k < |shape| ==> invariants[k].key == shape[k].key && invariants[k].repair.Some? == shape[k].repairs
  }

  /**
   * The consent asks for a repair whose outcome nobody judges: any repair where the write
   * syncs, and else a repair of any invariant but the first.
   */
  ghost predicate Overreaches(shape: seq<Slot>, syncs: bool, consent: Consent) {
    exists k :: 0 <= k < |shape| && shape[k].repairs && (syncs || k > 0) && AsksFor(shape[k].key, consent)
  }

  // ---- A consent that does not overreach ----

  /** A commit leaves every invariant clean or confirmed in the very world it commits. */
  lemma {:induction false} CommitsWhatWasAgreed<W>(invariants: seq<Invariant<W>>, shape: seq<Slot>, start: W, write: W -> W, sync: W -> W,
                                                   syncs: bool, consent: Consent)
    requires OfShape(invariants, shape) && !Overreaches(shape, syncs, consent)
    requires Guarded(invariants, start, write, sync, syncs, consent).Committed?
    ensures AllCleanOrConfirmed(invariants, start, 0, Guarded(invariants, start, write, sync, syncs, consent).world, consent)
  {
    hide Judge, CleanOrConfirmed, AsksFor;
    var w := Proposed(start, write, sync, syncs);
    forall k | 0 <= k < |invariants| && (syncs || k > 0) && invariants[k].repair.Some? ensures !AsksFor(invariants[k].key, consent) {
      assert shape[k].repairs;
    }
    if syncs || |invariants| == 0 {
      AskedForNothing(invariants, start, 0, w, consent);
      CommitsWithoutRepairsIff(invariants, start, write, sync, syncs, consent);
    } else {
      var judged := Judge(invariants[0], invariants[0].check(start), w, consent);
      FirstIsSettled(invariants[0], start, w, consent);
      AskedForNothing(invariants, start, 1, judged.world, consent);
      RunWithoutRepairs(invariants, start, 1, judged.world, judged.repaired, consent);
    }
  }

  lemma {:induction false} FirstIsSettled<W>(inv: Invariant<W>, start: W, w: W, consent: Consent)
    ensures Judge(inv, inv.check(start), w, consent).Passes? ==>
      CleanOrConfirmed(inv, start, Judge(inv, inv.check(start), w, consent).world, consent)
  {
    hide Added, TokenFor, Assessed, FullyRepairable;
  }

  // ---- A sync that a repair leaves nothing to do ----

  /** A sync leaves the world in step, changes nothing in one that is, and no repair takes it out of step. */
  ghost predicate KeepsStep<W(!new)>(invariants: seq<Invariant<W>>, sync: W -> W, inStep: W -> bool) {
    && (forall w :: inStep(sync(w)))
    && (forall w :: inStep(w) ==> sync(w) == w)
    && (forall k, w, ids :: 0 <= k < |invariants| && invariants[k].repair.Some? && inStep(w) ==> inStep(invariants[k].repair.value(w, ids)))
  }

  /** Then only a repair of an invariant after the first goes unjudged, whether the write syncs or not. */
  lemma {:induction false} CommitsWhatWasAgreedInStep<W(!new)>(invariants: seq<Invariant<W>>, shape: seq<Slot>, start: W, write: W -> W, sync: W -> W,
                                                               syncs: bool, inStep: W -> bool, consent: Consent)
    requires OfShape(invariants, shape) && KeepsStep(invariants, sync, inStep) && !Overreaches(shape, false, consent)
    requires Guarded(invariants, start, write, sync, syncs, consent).Committed?
    ensures AllCleanOrConfirmed(invariants, start, 0, Guarded(invariants, start, write, sync, syncs, consent).world, consent)
  {
    hide Judge, CleanOrConfirmed, AsksFor;
    var w := Proposed(start, write, sync, syncs);
    if !syncs || |invariants| == 0 {
      CommitsWhatWasAgreed(invariants, shape, start, write, sync, false, consent);
    } else {
      forall k | 1 <= k < |invariants| && invariants[k].repair.Some? ensures !AsksFor(invariants[k].key, consent) {
        assert shape[k].repairs;
      }
      var judged := Judge(invariants[0], invariants[0].check(start), w, consent);
      FirstIsSettled(invariants[0], start, w, consent);
      RepairedByRepair(invariants[0], invariants[0].check(start), w, consent);
      AskedForNothing(invariants, start, 1, judged.world, consent);
      RunWithoutRepairs(invariants, start, 1, judged.world, judged.repaired, consent);
    }
  }

  lemma {:induction false} RepairedByRepair<W>(inv: Invariant<W>, before: seq<Violation>, w: W, consent: Consent)
    ensures var judged := Judge(inv, before, w, consent);
      judged.Passes? ==> judged.world == w || (inv.repair.Some? && exists ids :: judged.world == inv.repair.value(w, ids))
  {
    hide Added, TokenFor, Assessed, FullyRepairable;
  }

  // ---- A consent that does ----

  function MadeRepairable(added: seq<Violation>): (r: seq<Violation>)
    ensures |r| == |added|
  {
    if |added| == 0 then [] else MadeRepairable(added[..|added| - 1]) + [added[|added| - 1].(canRepair := true)]
  }

  lemma {:induction false} RepairableAlike(added: seq<Violation>)
    ensures SortedShown(MadeRepairable(added)) == SortedShown(added)
    ensures forall v :: v in MadeRepairable(added) ==> v.canRepair
  {
    if |added| > 0 {
      RepairableAlike(added[..|added| - 1]);
      var made := MadeRepairable(added);
      assert made[..|made| - 1] == MadeRepairable(added[..|added| - 1]);
      assert made[|made| - 1] == added[|added| - 1].(canRepair := true);
    }
  }

  lemma {:induction false} AllAreAdded(after: seq<Violation>, n: nat)
    requires n <= |after|
    ensures Collect(n, AddedAt([], after)) == after[..n]
  {
    if n > 0 {
      AllAreAdded(after, n - 1);
      assert after[..n] == after[..n - 1] + [after[n - 1]];
    }
  }

  lemma {:induction false} AddedToNothing(after: seq<Violation>)
    ensures Added([], after) == after
  {
    AllAreAdded(after, |after|);
    assert after[..|after|] == after;
  }

  /** One violation of one subject, told apart by its magnitude. */
  function Drift(n: int): seq<Violation> {
    [Violation("", "", Some(n), false)]
  }

  lemma {:induction false} DriftTokens(key: string, n: int)
    ensures TokenFor(key, Drift(n)) == Token(key, [(":", Some(n))])
  {
    var v := Drift(n)[0];
    assert SubjectOf(v) == ":";
    assert Drift(n)[..0] == [] && SortedShown([]) == [];
    assert SortedShown(Drift(n)) == InsertShown(SortedShown(Drift(n)[..0]), Shown(v));
  }

  /** Consent is finite: some drift is confirmed by none of it. */
  lemma {:induction false} UnconfirmedDrift(key: string, tokens: set<Token>, from: int) returns (n: int)
    ensures n >= from && TokenFor(key, Drift(n)) !in tokens
    decreases |tokens|
  {
    n := from;
    DriftTokens(key, from);
    var t := TokenFor(key, Drift(from));
    if t in tokens {
      n := UnconfirmedDrift(key, tokens - {t}, from + 1);
      DriftTokens(key, n);
    }
  }

  /**
   * Invariants of one number: the write makes it 1, which the `asked` one sees and repairs to
   * 2. The `broken` one is drifted in the world that is committed.
   */
  function Breaker(shape: seq<Slot>, asked: nat, added: seq<Violation>, broken: nat, committed: int, drift: seq<Violation>): seq<Invariant<int>> {
    seq(|shape|, k requires 0 <= k < |shape| => Invariant(
      shape[k].key,
      (w: int) => if k == asked && w == 1 then added else if k == broken && w == committed then drift else [],
      None,
      if shape[k].repairs then Some((w: int, ids: set<string>) => 2) else None))
  }

  function Unchanged(w: int): int {
    w
  }

  /** A write that syncs is synced again after a repair, here to 3. */
  function Resync(w: int): int {
    if w == 2 then 3 else w
  }

  lemma {:induction false} CleanPasses<W>(invariants: seq<Invariant<W>>, start: W, i: nat, j: nat, w: W, repaired: bool, consent: Consent)
    requires i <= j <= |invariants|
    requires forall k :: i <= k < j ==> Added(invariants[k].check(start), invariants[k].check(w)) == []
    ensures RunFrom(invariants, start, i, w, repaired, consent) == RunFrom(invariants, start, j, w, repaired, consent)
    decreases j - i
  {
    hide Added, TokenFor, Assessed, FullyRepairable;
    if i < j {
      CleanPasses(invariants, start, i + 1, j, w, repaired, consent);
    }
  }

  lemma {:induction false} AskedIsRepaired(inv: Invariant<int>, added: seq<Violation>, consent: Consent)
    requires inv.check(0) == [] && inv.check(1) == added && inv.check(2) == []
    requires added != [] && TokenFor(inv.key, added) in consent.repairs && (forall v :: v in added ==> v.canRepair)
    requires inv.assessRepair.None? && inv.repair.Some? && forall ids :: inv.repair.value(1, ids) == 2
    ensures Judge(inv, inv.check(0), 1, consent) == Passes(2, true)
  {
    hide TokenFor;
    AddedToNothing(added);
    AddedToNothing([]);
    hide Added;
  }

  lemma {:induction false} RepairedOnTheWay(invariants: seq<Invariant<int>>, asked: nat, consent: Consent)
    requires asked < |invariants| && Judge(invariants[asked], invariants[asked].check(0), 1, consent) == Passes(2, true)
    requires forall k :: 0 <= k < asked ==> Added(invariants[k].check(0), invariants[k].check(1)) == []
    requires forall k :: asked < k < |invariants| ==> Added(invariants[k].check(0), invariants[k].check(2)) == []
    ensures RunFrom(invariants, 0, 0, 1, false, consent) == Through(2, true)
  {
    hide Added, Judge;
    CleanPasses(invariants, 0, 0, asked, 1, false, consent);
    CleanPasses(invariants, 0, asked + 1, |invariants|, 2, true, consent);
    assert RunFrom(invariants, 0, |invariants|, 2, true, consent) == Through(2, true);
    assert RunFrom(invariants, 0, asked, 1, false, consent) == RunFrom(invariants, 0, asked + 1, 2, true, consent);
  }

  /** Violations the consent asks to have repaired, each of which can be. */
  lemma {:induction false} AskedSet(key: string, consent: Consent) returns (added: seq<Violation>)
    requires AsksFor(key, consent)
    ensures added != [] && TokenFor(key, added) in consent.repairs && forall v :: v in added ==> v.canRepair
  {
    var named :| named != [] && TokenFor(key, named) in consent.repairs;
    added := MadeRepairable(named);
    RepairableAlike(named);
  }

  lemma {:induction false} BreakerRuns(shape: seq<Slot>, asked: nat, added: seq<Violation>, broken: nat, committed: int, drift: seq<Violation>,
                                       consent: Consent)
    requires asked < |shape| && shape[asked].repairs && committed >= 2 && (committed == 2 ==> broken < asked)
    requires added != [] && TokenFor(shape[asked].key, added) in consent.repairs && forall v :: v in added ==> v.canRepair
    ensures RunFrom(Breaker(shape, asked, added, broken, committed, drift), 0, 0, 1, false, consent) == Through(2, true)
  {
    hide Added, TokenFor, Judge, RunFrom;
    var invariants := Breaker(shape, asked, added, broken, committed, drift);
    AddedToNothing([]);
    AskedIsRepaired(invariants[asked], added, consent);
    RepairedOnTheWay(invariants, asked, consent);
  }

  /**
   * A requested repair can leave an earlier invariant neither clean nor confirmed, and the
   * repaired one itself under a sync that it leaves something to do.
   */
  lemma {:induction false} OverreachingBreaks(shape: seq<Slot>, asked: nat, broken: nat, syncs: bool, resyncs: bool, consent: Consent)
    returns (invariants: seq<Invariant<int>>)
    requires asked < |shape| && shape[asked].repairs && AsksFor(shape[asked].key, consent)
    requires if resyncs then syncs && broken == asked else broken < asked
    ensures OfShape(invariants, shape)
    ensures var outcome := Guarded(invariants, 0, (w: int) => 1, if resyncs then Resync else Unchanged, syncs, consent);
      outcome.Committed? && !CleanOrConfirmed(invariants[broken], 0, outcome.world, consent)
  {
    var added := AskedSet(shape[asked].key, consent);
    var n := UnconfirmedDrift(shape[broken].key, consent.confirmations, 0);
    var committed := if resyncs then 3 else 2;
    invariants := Breaker(shape, asked, added, broken, committed, Drift(n));
    hide TokenFor, Judge, AsksFor, RunFrom, Drift, CleanOrConfirmed;
    BreakerRuns(shape, asked, added, broken, committed, Drift(n), consent);
    DriftBreaks(invariants[broken], committed, n, consent);
  }

  lemma {:induction false} DriftBreaks(inv: Invariant<int>, w: int, n: int, consent: Consent)
    requires inv.check(0) == [] && inv.check(w) == Drift(n) && TokenFor(inv.key, Drift(n)) !in consent.confirmations
    ensures !CleanOrConfirmed(inv, 0, w, consent)
  {
    AddedToNothing(Drift(n));
    hide Added, TokenFor;
  }

  // ---- The exact condition ----

  /** Whatever the checks, repairs, write and sync are, a commit leaves every invariant clean or confirmed in the world it commits. */
  ghost predicate AlwaysAsAgreed(shape: seq<Slot>, syncs: bool, consent: Consent) {
    forall invariants: seq<Invariant<int>>, start: int, write: int -> int, sync: int -> int ::
      OfShape(invariants, shape) && Guarded(invariants, start, write, sync, syncs, consent).Committed? ==>
        AllCleanOrConfirmed(invariants, start, 0, Guarded(invariants, start, write, sync, syncs, consent).world, consent)
  }

  /**
   * For every list of invariants and every consent: a commit always leaves each invariant
   * clean or confirmed if and only if the consent asks for no repair that goes unjudged.
   */
  lemma {:induction false} AsAgreedIff(shape: seq<Slot>, syncs: bool, consent: Consent)
    ensures AlwaysAsAgreed(shape, syncs, consent) <==> !Overreaches(shape, syncs, consent)
  {
    hide Guarded, AsksFor, CleanOrConfirmed;
    if Overreaches(shape, syncs, consent) {
      var k :| 0 <= k < |shape| && shape[k].repairs && (syncs || k > 0) && AsksFor(shape[k].key, consent);
      var broken := if syncs then k else 0;
      var invariants := OverreachingBreaks(shape, k, broken, syncs, syncs, consent);
    } else {
      forall invariants: seq<Invariant<int>>, start: int, write: int -> int, sync: int -> int
        | OfShape(invariants, shape) && Guarded(invariants, start, write, sync, syncs, consent).Committed?
        ensures AllCleanOrConfirmed(invariants, start, 0, Guarded(invariants, start, write, sync, syncs, consent).world, consent)
      {
        CommitsWhatWasAgreed(invariants, shape, start, write, sync, syncs, consent);
      }
    }
  }

  /** The same, for syncs that a repair leaves nothing to do. */
  ghost predicate AlwaysAsAgreedInStep(shape: seq<Slot>, syncs: bool, consent: Consent) {
    forall invariants: seq<Invariant<int>>, start: int, write: int -> int, sync: int -> int, inStep: int -> bool ::
      OfShape(invariants, shape) && KeepsStep(invariants, sync, inStep)
      && Guarded(invariants, start, write, sync, syncs, consent).Committed? ==>
        AllCleanOrConfirmed(invariants, start, 0, Guarded(invariants, start, write, sync, syncs, consent).world, consent)
  }

  /** With such a sync, a commit always is what was agreed if and only if no invariant but the first is asked to be repaired. */
  lemma {:induction false} AsAgreedInStepIff(shape: seq<Slot>, syncs: bool, consent: Consent)
    ensures AlwaysAsAgreedInStep(shape, syncs, consent) <==> !Overreaches(shape, false, consent)
  {
    hide Guarded, AsksFor, CleanOrConfirmed;
    if Overreaches(shape, false, consent) {
      var k :| 0 <= k < |shape| && shape[k].repairs && k > 0 && AsksFor(shape[k].key, consent);
      var invariants := OverreachingBreaks(shape, k, 0, syncs, false, consent);
      assert KeepsStep(invariants, Unchanged, (w: int) => true);
    } else {
      hide AllCleanOrConfirmed, KeepsStep, Overreaches;
      forall invariants: seq<Invariant<int>>, start: int, write: int -> int, sync: int -> int, inStep: int -> bool
        | OfShape(invariants, shape) && KeepsStep(invariants, sync, inStep) && Guarded(invariants, start, write, sync, syncs, consent).Committed?
        ensures AllCleanOrConfirmed(invariants, start, 0, Guarded(invariants, start, write, sync, syncs, consent).world, consent)
      {
        CommitsWhatWasAgreedInStep(invariants, shape, start, write, sync, syncs, inStep, consent);
      }
    }
  }
}
