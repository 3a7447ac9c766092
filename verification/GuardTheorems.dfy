/** What a commit of a guarded write means, and how many answers it takes. */
module GuardTheorems {
  import opened Basics
  import opened GuardedWrite

  // ---- Consent ----

  /** The invariant's repair is what settles it: it added something, and the consent asks for exactly that to be repaired. */
  predicate Repairs<W>(inv: Invariant<W>, before: seq<Violation>, w: W, consent: Consent) {
    var added := Added(before, inv.check(w));
    added != [] && TokenFor(inv.key, added) in consent.repairs && inv.repair.Some?
  }

  /** From `w` to `next`, the invariant was repaired to none where that was asked, and was else clean, or confirmed as measured. */
  predicate Consented<W(==)>(inv: Invariant<W>, before: seq<Violation>, w: W, next: W, consent: Consent) {
    var added := Added(before, inv.check(w));
    if Repairs(inv, before, w, consent) then
      FullyRepairable(inv, Assessed(inv, w, added))
      && next == inv.repair.value(w, SubjectIds(Assessed(inv, w, added))) && Added(before, inv.check(next)) == []
    else
      next == w && (added == [] || TokenFor(inv.key, added) in consent.confirmations)
  }

  lemma {:induction false} JudgedConsented<W>(inv: Invariant<W>, before: seq<Violation>, w: W, consent: Consent)
    ensures Judge(inv, before, w, consent).Passes? ==>
      Consented(inv, before, w, Judge(inv, before, w, consent).world, consent)
      && Judge(inv, before, w, consent).repaired == Repairs(inv, before, w, consent)
  {
    hide Added, TokenFor, Assessed, FullyRepairable;
  }

  ghost predicate ConsentedThrough<W>(invariants: seq<Invariant<W>>, start: W, i: nat, worlds: seq<W>, consent: Consent) {
    && |worlds| == |invariants| - i + 1
    && forall k :: i <= k < |invariants| ==>
         Consented(invariants[k], invariants[k].check(start), worlds[k - i], worlds[k - i + 1], consent)
  }

  /** Some invariant on the way was settled by its repair. */
  ghost predicate RepairedThrough<W>(invariants: seq<Invariant<W>>, start: W, i: nat, worlds: seq<W>, consent: Consent)
    requires |worlds| == |invariants| - i + 1
  {
    exists k :: i <= k < |invariants| && Repairs(invariants[k], invariants[k].check(start), worlds[k - i], consent)
  }

  lemma {:induction false} RunConsented<W>(invariants: seq<Invariant<W>>, start: W, i: nat, w: W, repaired: bool, consent: Consent) returns (worlds: seq<W>)
    requires i <= |invariants| && RunFrom(invariants, start, i, w, repaired, consent).Through?
    ensures ConsentedThrough(invariants, start, i, worlds, consent)
    ensures worlds[0] == w && worlds[|worlds| - 1] == RunFrom(invariants, start, i, w, repaired, consent).world
    ensures RunFrom(invariants, start, i, w, repaired, consent).repaired
      <==> repaired || RepairedThrough(invariants, start, i, worlds, consent)
    decreases |invariants| - i
  {
    hide Judge, Consented, Repairs;
    if i == |invariants| {
      worlds := [w];
    } else {
      var judged := Judge(invariants[i], invariants[i].check(start), w, consent);
      JudgedConsented(invariants[i], invariants[i].check(start), w, consent);
      var rest := RunConsented(invariants, start, i + 1, judged.world, repaired || judged.repaired, consent);
      worlds := [w] + rest;
      assert forall j :: 0 <= j < |rest| ==> worlds[j + 1] == rest[j];
      assert Repairs(invariants[i], invariants[i].check(start), worlds[i - i], consent) == judged.repaired;
    }
  }

  /**
   * A commit means that every invariant, judged in turn on the world the ones before it left,
   * had nothing added, had exactly what it added confirmed, or was repaired to nothing. What
   * is committed is the last of those worlds, synced once more exactly when the write syncs
   * and something was repaired.
   */
  lemma {:induction false} CommitMeansConsent<W>(invariants: seq<Invariant<W>>, start: W, write: W -> W, sync: W -> W, syncs: bool, consent: Consent)
    returns (worlds: seq<W>)
    requires Guarded(invariants, start, write, sync, syncs, consent).Committed?
    ensures ConsentedThrough(invariants, start, 0, worlds, consent)
    ensures worlds[0] == Proposed(start, write, sync, syncs)
    ensures var last := worlds[|worlds| - 1];
      Guarded(invariants, start, write, sync, syncs, consent).world
        == if syncs && RepairedThrough(invariants, start, 0, worlds, consent) then sync(last) else last
  {
    hide Judge, Consented, Repairs;
    worlds := RunConsented(invariants, start, 0, Proposed(start, write, sync, syncs), false, consent);
  }

  // ---- Consent that asks for no repair ----

  predicate CleanOrConfirmed<W>(inv: Invariant<W>, start: W, w: W, consent: Consent) {
    var added := Added(inv.check(start), inv.check(w));
    added == [] || TokenFor(inv.key, added) in consent.confirmations
  }

  /** What the guard is for: each invariant is clean or confirmed, all in one world. */
  ghost predicate AllCleanOrConfirmed<W>(invariants: seq<Invariant<W>>, start: W, i: nat, w: W, consent: Consent) {
    forall k :: i <= k < |invariants| ==> CleanOrConfirmed(invariants[k], start, w, consent)
  }

  /** The consent asks for a repair of some non-empty set of violations of an invariant. */
  ghost predicate AsksFor(key: string, consent: Consent) {
    exists added :: added != [] && TokenFor(key, added) in consent.repairs
  }

  /** No invariant from `i` on has a repair the consent can ask for. */
  ghost predicate AsksNothing<W>(invariants: seq<Invariant<W>>, i: nat, consent: Consent) {
    forall k :: i <= k < |invariants| && invariants[k].repair.Some? ==> !AsksFor(invariants[k].key, consent)
  }

  /** In this world no invariant from `i` on is settled by its repair. */
  ghost predicate NoneRepairs<W>(invariants: seq<Invariant<W>>, start: W, i: nat, w: W, consent: Consent) {
    forall k :: i <= k < |invariants| ==> !Repairs(invariants[k], invariants[k].check(start), w, consent)
  }

  lemma {:induction false} AskedForNothing<W>(invariants: seq<Invariant<W>>, start: W, i: nat, w: W, consent: Consent)
    requires AsksNothing(invariants, i, consent)
    ensures NoneRepairs(invariants, start, i, w, consent)
  {
    hide Added, TokenFor;
  }

  /** Where no repair is asked for of what was added, a write commits exactly when each invariant is clean or its added set confirmed, all in one world. */
  lemma {:induction false} CommitsWithoutRepairsIff<W>(invariants: seq<Invariant<W>>, start: W, write: W -> W, sync: W -> W, syncs: bool, consent: Consent)
    requires NoneRepairs(invariants, start, 0, Proposed(start, write, sync, syncs), consent)
    ensures var w := Proposed(start, write, sync, syncs);
      && (Guarded(invariants, start, write, sync, syncs, consent).Committed? <==> AllCleanOrConfirmed(invariants, start, 0, w, consent))
      && (Guarded(invariants, start, write, sync, syncs, consent).Committed? ==>
            Guarded(invariants, start, write, sync, syncs, consent).world == w)
  {
    hide Judge, CleanOrConfirmed, Repairs;
    RunWithoutRepairs(invariants, start, 0, Proposed(start, write, sync, syncs), false, consent);
  }

  lemma {:induction false} RunWithoutRepairs<W>(invariants: seq<Invariant<W>>, start: W, i: nat, w: W, repaired: bool, consent: Consent)
    requires i <= |invariants| && NoneRepairs(invariants, start, i, w, consent)
    ensures RunFrom(invariants, start, i, w, repaired, consent).Through? <==> AllCleanOrConfirmed(invariants, start, i, w, consent)
    ensures RunFrom(invariants, start, i, w, repaired, consent).Through? ==>
      RunFrom(invariants, start, i, w, repaired, consent) == Through(w, repaired)
    decreases |invariants| - i
  {
    hide Judge, CleanOrConfirmed, Repairs;
    if i < |invariants| {
      JudgeWithoutRepairs(invariants[i], start, w, consent);
      RunWithoutRepairs(invariants, start, i + 1, w, repaired, consent);
    }
  }

  lemma {:induction false} JudgeWithoutRepairs<W>(inv: Invariant<W>, start: W, w: W, consent: Consent)
    requires !Repairs(inv, inv.check(start), w, consent)
    ensures Judge(inv, inv.check(start), w, consent).Passes? <==> CleanOrConfirmed(inv, start, w, consent)
    ensures Judge(inv, inv.check(start), w, consent).Passes? ==> Judge(inv, inv.check(start), w, consent) == Passes(w, false)
  {
    hide Added, TokenFor, Assessed, FullyRepairable;
  }

  /** A write that changes no invariant's list commits whatever is broken already, and asks nothing. */
  lemma {:induction false} OldDriftNeverBlocks<W>(invariants: seq<Invariant<W>>, start: W, write: W -> W, sync: W -> W, syncs: bool, consent: Consent)
    requires forall k :: 0 <= k < |invariants| ==>
      DistinctSubjects(invariants[k].check(start)) && invariants[k].check(Proposed(start, write, sync, syncs)) == invariants[k].check(start)
    ensures Guarded(invariants, start, write, sync, syncs, consent) == Committed(Proposed(start, write, sync, syncs))
  {
    var w := Proposed(start, write, sync, syncs);
    forall k | 0 <= k < |invariants| ensures Added(invariants[k].check(start), invariants[k].check(w)) == [] {
      NothingAddedToItself(invariants[k].check(start));
    }
    RunClean(invariants, start, 0, w, consent);
  }

  lemma {:induction false} RunClean<W>(invariants: seq<Invariant<W>>, start: W, i: nat, w: W, consent: Consent)
    requires i <= |invariants| && forall k :: 0 <= k < |invariants| ==> Added(invariants[k].check(start), invariants[k].check(w)) == []
    ensures RunFrom(invariants, start, i, w, false, consent) == Through(w, false)
    decreases |invariants| - i
  {
    hide Added;
    if i < |invariants| {
      RunClean(invariants, start, i + 1, w, consent);
    }
  }

  // ---- Answering refusals ----

  /** Confirms what was refused instead of repairing it. */
  function Answer(consent: Consent, refusal: Refusal): Consent {
    consent.(confirmations := consent.confirmations + {refusal.token}, repairs := consent.repairs - {refusal.token})
  }

  ghost predicate Agree(a: Consent, b: Consent, key: string) {
    && a.fromStaleClient == b.fromStaleClient
    && forall t: Token :: t.key == key ==> (t in a.confirmations <==> t in b.confirmations) && (t in a.repairs <==> t in b.repairs)
  }

  lemma {:induction false} JudgeAgrees<W>(inv: Invariant<W>, before: seq<Violation>, w: W, a: Consent, b: Consent)
    requires Agree(a, b, inv.key)
    ensures Judge(inv, before, w, a) == Judge(inv, before, w, b)
  {
    hide Added, Assessed, FullyRepairable, SortedShown;
  }

  lemma {:induction false} RefusalNamesInvariant<W>(inv: Invariant<W>, before: seq<Violation>, w: W, consent: Consent)
    ensures Judge(inv, before, w, consent).Refuses? ==>
      Judge(inv, before, w, consent).refusal.token == TokenFor(inv.key, Added(before, inv.check(w)))
    ensures Judge(inv, before, w, consent).Refuses? ==>
      Judge(inv, before, w, Answer(consent, Judge(inv, before, w, consent).refusal)) == Passes(w, false)
  {
    hide Added, Assessed, FullyRepairable, SortedShown;
  }

  /**
   * What a refusal says: the token and number of what was added; a repair exactly where none
   * was asked for yet, the page can offer one, and every added violation has one.
   */
  lemma {:induction false} RefusalDescribes<W>(inv: Invariant<W>, before: seq<Violation>, w: W, consent: Consent)
    requires Judge(inv, before, w, consent).Refuses?
    ensures var refusal := Judge(inv, before, w, consent).refusal;
      var added := Added(before, inv.check(w));
      && refusal.key == inv.key && refusal.affectedCount == |added| > 0
      && (refusal.repairable <==>
            inv.repair.Some? && (forall v :: v in Assessed(inv, w, added) ==> v.canRepair)
            && refusal.token !in consent.repairs && !consent.fromStaleClient)
      && (refusal.staleClient <==> consent.fromStaleClient && !Repairs(inv, before, w, consent))
      && (refusal.token in consent.confirmations ==> Repairs(inv, before, w, consent))
  {
    hide Added, TokenFor;
  }

  /** Where a run stopped, and that the stop is the invariant's own refusal. */
  lemma {:induction false} StopsAt<W>(invariants: seq<Invariant<W>>, start: W, i: nat, w: W, repaired: bool, consent: Consent)
    requires i <= |invariants| && RunFrom(invariants, start, i, w, repaired, consent).Stopped?
    ensures var stop := RunFrom(invariants, start, i, w, repaired, consent);
      i <= stop.at < |invariants| && stop.refusal.token.key == invariants[stop.at].key
    decreases |invariants| - i
  {
    hide Judge;
    var judged := Judge(invariants[i], invariants[i].check(start), w, consent);
    RefusalNamesInvariant(invariants[i], invariants[i].check(start), w, consent);
    if judged.Passes? {
      StopsAt(invariants, start, i + 1, judged.world, repaired || judged.repaired, consent);
    }
  }

  /** The next refusal, if there is one, is of a later invariant. */
  lemma {:induction false} AnsweredGoesOn<W>(invariants: seq<Invariant<W>>, start: W, i: nat, w: W, repaired: bool, consent: Consent)
    requires DistinctInvariants(invariants) && i <= |invariants| && RunFrom(invariants, start, i, w, repaired, consent).Stopped?
    ensures var stop := RunFrom(invariants, start, i, w, repaired, consent);
      var next := RunFrom(invariants, start, i, w, repaired, Answer(consent, stop.refusal));
      next.Stopped? ==> next.at > stop.at
    decreases |invariants| - i
  {
    hide Judge;
    var stop := RunFrom(invariants, start, i, w, repaired, consent);
    var answer := Answer(consent, stop.refusal);
    StopsAt(invariants, start, i, w, repaired, consent);
    var judged := Judge(invariants[i], invariants[i].check(start), w, consent);
    if judged.Passes? {
      var r := repaired || judged.repaired;
      StopsAt(invariants, start, i + 1, judged.world, r, consent);
      JudgeAgrees(invariants[i], invariants[i].check(start), w, consent, answer);
      AnsweredGoesOn(invariants, start, i + 1, judged.world, r, consent);
    } else {
      RefusalNamesInvariant(invariants[i], invariants[i].check(start), w, consent);
      var next := RunFrom(invariants, start, i, w, repaired, answer);
      if next.Stopped? {
        StopsAt(invariants, start, i + 1, w, repaired, answer);
      }
    }
  }

  /** The consent after answering every refusal met, at most `n` of them. */
  function Answered<W>(invariants: seq<Invariant<W>>, start: W, w: W, consent: Consent, n: nat): Consent
    decreases n
  {
    if n == 0 then consent
    else
      match RunFrom(invariants, start, 0, w, false, consent)
      case Through(_, _) => consent
      case Stopped(_, refusal) => Answered(invariants, start, w, Answer(consent, refusal), n - 1)
  }

  lemma {:induction false} AnswersReach<W>(invariants: seq<Invariant<W>>, start: W, w: W, consent: Consent, n: nat, from: nat)
    requires DistinctInvariants(invariants) && from + n >= |invariants|
    requires RunFrom(invariants, start, 0, w, false, consent).Stopped? ==> RunFrom(invariants, start, 0, w, false, consent).at >= from
    ensures RunFrom(invariants, start, 0, w, false, Answered(invariants, start, w, consent, n)).Through?
    decreases n
  {
    hide Judge, RunFrom, Answer;
    if RunFrom(invariants, start, 0, w, false, consent).Stopped? {
      StopsAt(invariants, start, 0, w, false, consent);
      AnsweredGoesOn(invariants, start, 0, w, false, consent);
      if n > 0 {
        AnswersReach(invariants, start, w, Answer(consent, RunFrom(invariants, start, 0, w, false, consent).refusal), n - 1, from + 1);
      }
    }
  }

  /** While nothing else changes, confirming each refusal commits after at most one answer for each invariant. */
  lemma {:induction false} AnswersEnd<W>(invariants: seq<Invariant<W>>, start: W, write: W -> W, sync: W -> W, syncs: bool, consent: Consent)
    requires DistinctInvariants(invariants)
    ensures var last := Answered(invariants, start, Proposed(start, write, sync, syncs), consent, |invariants|);
      Guarded(invariants, start, write, sync, syncs, last).Committed?
  {
    hide RunFrom;
    AnswersReach(invariants, start, Proposed(start, write, sync, syncs), consent, |invariants|, 0);
  }

  /** The consent with the confirmation added and the repair request left in place. */
  function AddConfirmation(consent: Consent, refusal: Refusal): Consent {
    consent.(confirmations := consent.confirmations + {refusal.token})
  }

  lemma {:induction false} RefusedAgainIff<W>(inv: Invariant<W>, before: seq<Violation>, w: W, consent: Consent)
    requires Judge(inv, before, w, consent).Refuses?
    ensures var refusal := Judge(inv, before, w, consent).refusal;
      var again := Judge(inv, before, w, AddConfirmation(consent, refusal));
      if refusal.token in consent.repairs && inv.repair.Some? then again == Refuses(refusal) else again == Passes(w, false)
  {
    hide Added, Assessed, FullyRepairable, SortedShown;
  }

  /**
   * A confirmation sent beside a repair request does not help: the same refusal comes back
   * exactly when the refused set is still asked to be repaired.
   */
  lemma {:induction false} RepairRequestOutranksIff<W>(invariants: seq<Invariant<W>>, start: W, i: nat, w: W, repaired: bool, consent: Consent)
    requires DistinctInvariants(invariants) && i <= |invariants| && RunFrom(invariants, start, i, w, repaired, consent).Stopped?
    ensures var stop := RunFrom(invariants, start, i, w, repaired, consent);
      && stop.at < |invariants|
      && (RunFrom(invariants, start, i, w, repaired, AddConfirmation(consent, stop.refusal)) == stop <==>
            stop.refusal.token in consent.repairs && invariants[stop.at].repair.Some?)
    decreases |invariants| - i
  {
    hide Judge;
    var stop := RunFrom(invariants, start, i, w, repaired, consent);
    var more := AddConfirmation(consent, stop.refusal);
    StopsAt(invariants, start, i, w, repaired, consent);
    var judged := Judge(invariants[i], invariants[i].check(start), w, consent);
    if judged.Passes? {
      var r := repaired || judged.repaired;
      StopsAt(invariants, start, i + 1, judged.world, r, consent);
      JudgeAgrees(invariants[i], invariants[i].check(start), w, consent, more);
      RepairRequestOutranksIff(invariants, start, i + 1, judged.world, r, consent);
    } else {
      RefusedAgainIff(invariants[i], invariants[i].check(start), w, consent);
      var next := RunFrom(invariants, start, i, w, repaired, more);
      if next.Stopped? && !(stop.refusal.token in consent.repairs && invariants[i].repair.Some?) {
        StopsAt(invariants, start, i + 1, w, repaired, more);
      }
    }
  }
}
