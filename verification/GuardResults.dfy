/**
 * The guard of a write, said of violations, answers and worlds: what a write adds to an
 * invariant, when it commits and in which world, and what a refusal tells.
 */
module GuardResults {
  import opened Basics
  import opened GuardedWrite

  // ---- What a write adds ----

  predicate SameSubject(u: Violation, v: Violation) {
    u.subjectType + ":" + u.subjectId == v.subjectType + ":" + v.subjectId
  }

  /** A violation without a magnitude is as bad as one of magnitude 0. */
  predicate LessBad(u: Violation, v: Violation) {
    match (u.magnitude, v.magnitude)
    case (None, None) => false
    case (None, Some(n)) => 0 < n
    case (Some(m), None) => m < 0
    case (Some(m), Some(n)) => m < n
  }

  /** The subject was clean before, or the last violation listed of it was less bad. */
  ghost predicate Grew(before: seq<Violation>, v: Violation) {
    forall i :: 0 <= i < |before| && SameSubject(before[i], v) && (forall j :: i < j < |before| ==> !SameSubject(before[j], v)) ==> LessBad(before[i], v)
  }

  /** The violations after the write that the write answers for, in the order they are listed. */
  ghost predicate AddedAre(before: seq<Violation>, after: seq<Violation>, added: seq<Violation>) {
    exists places: seq<nat> :: PickedAt(after, added, places) && forall i: nat :: i < |after| ==> (i in places <==> Grew(before, after[i]))
  }

  lemma {:induction false} LastOfIs(before: seq<Violation>, v: Violation)
    ensures LastOf(before, SubjectOf(v)).None? <==> forall u :: u in before ==> !SameSubject(u, v)
    ensures LastOf(before, SubjectOf(v)).Some? ==> exists i ::
      0 <= i < |before| && before[i] == LastOf(before, SubjectOf(v)).value && SameSubject(before[i], v) && forall j :: i < j < |before| ==> !SameSubject(before[j], v)
  {
    if |before| > 0 {
      var front, last := before[..|before| - 1], before[|before| - 1];
      assert before == front + [last];
      LastOfIs(front, v);
      if !SameSubject(last, v) && LastOf(front, SubjectOf(v)).Some? {
        var i :| 0 <= i < |front| && front[i] == LastOf(front, SubjectOf(v)).value && SameSubject(front[i], v)
          && forall j :: i < j < |front| ==> !SameSubject(front[j], v);
        assert before[i] == front[i];
      }
    }
  }

  lemma {:induction false} GrewIff(before: seq<Violation>, v: Violation)
    ensures IsAdded(before, v) <==> Grew(before, v)
  {
    hide LastOf, SameSubject;
    LastOfIs(before, v);
    if LastOf(before, SubjectOf(v)).Some? {
      var i :| 0 <= i < |before| && before[i] == LastOf(before, SubjectOf(v)).value && SameSubject(before[i], v)
        && forall j :: i < j < |before| ==> !SameSubject(before[j], v);
      assert LessBad(before[i], v) <==> Magnitude(v) > Magnitude(before[i]);
    }
  }

  /** What is added is exactly what grew, in the order the check lists it. */
  lemma {:induction false} AddedMeans(before: seq<Violation>, after: seq<Violation>)
    ensures AddedAre(before, after, Added(before, after))
    ensures forall v :: v in Added(before, after) <==> v in after && Grew(before, v)
  {
    hide Grew, IsAdded, Collect, PickedAt;
    var places := CollectPicks(|after|, AddedAt(before, after), after);
    forall v ensures IsAdded(before, v) <==> Grew(before, v) {
      GrewIff(before, v);
    }
    CollectMembers(|after|, AddedAt(before, after));
  }

  /** There is one such list. */
  lemma {:induction false} OneAddedList(before: seq<Violation>, after: seq<Violation>, a: seq<Violation>, b: seq<Violation>)
    requires AddedAre(before, after, a) && AddedAre(before, after, b)
    ensures a == b
  {
    hide Grew;
    var p: seq<nat> :| PickedAt(after, a, p) && forall i: nat :: i < |after| ==> (i in p <==> Grew(before, after[i]));
    var q: seq<nat> :| PickedAt(after, b, q) && forall i: nat :: i < |after| ==> (i in q <==> Grew(before, after[i]));
    assert forall i: nat :: i in p <==> i in q;
    IncreasingUnique(p, q);
  }

  ghost predicate OneEach(violations: seq<Violation>) {
    forall i, j :: 0 <= i < j < |violations| ==> !SameSubject(violations[i], violations[j])
  }

  /** Where a check lists each subject once, a violation is added exactly when its subject was clean, or less broken, before. */
  lemma {:induction false} AddedIff(before: seq<Violation>, after: seq<Violation>, v: Violation)
    requires OneEach(before)
    ensures v in Added(before, after) <==> v in after && forall u :: u in before && SameSubject(u, v) ==> LessBad(u, v)
  {
    hide LessBad, SameSubject;
    AddedMeans(before, after);
    OneEachGrew(before, v);
  }

  lemma {:induction false} OneEachGrew(before: seq<Violation>, v: Violation)
    requires OneEach(before)
    ensures Grew(before, v) <==> forall u :: u in before && SameSubject(u, v) ==> LessBad(u, v)
  {
    hide LessBad;
    assert forall i, j :: 0 <= i < j < |before| && SameSubject(before[i], v) ==> !SameSubject(before[j], v);
    if Grew(before, v) {
      forall u | u in before && SameSubject(u, v) ensures LessBad(u, v) {
        var i :| 0 <= i < |before| && before[i] == u;
      }
    }
  }

  /** What is asked about each violation: its subject, and how bad it is. */
  function AskedAbout(violations: seq<Violation>): set<(string, Option<int>)> {
    set v | v in violations :: (v.subjectType + ":" + v.subjectId, v.magnitude)
  }

  /** An answer fits one invariant and one set of subjects with their magnitudes. */
  lemma {:induction false} AnswersFitIff(k: string, a: seq<Violation>, l: string, b: seq<Violation>)
    requires OneEach(a) && OneEach(b)
    ensures TokenFor(k, a) == TokenFor(l, b) <==> k == l && AskedAbout(a) == AskedAbout(b)
  {
    assert ShownSet(a) == AskedAbout(a) && ShownSet(b) == AskedAbout(b);
    TokenNamesItsViolations(k, a, l, b);
  }

  // ---- One invariant's turn ----

  /** The last verdict given of the violation's subject, or the violation itself where none is. */
  ghost predicate IsVerdictOn(verdicts: seq<Violation>, v: Violation, x: Violation) {
    || (x == v && forall u :: u in verdicts ==> !SameSubject(u, v))
    || exists i :: 0 <= i < |verdicts| && verdicts[i] == x && SameSubject(x, v) && forall j :: i < j < |verdicts| ==> !SameSubject(verdicts[j], v)
  }

  /** Each added violation as the repair sees it, where the invariant can ask the repair. */
  ghost predicate AsAssessed<W>(inv: Invariant<W>, w: W, added: seq<Violation>, assessed: seq<Violation>) {
    if inv.assessRepair.None? then assessed == added
    else
      var verdicts := inv.assessRepair.value(w, set v | v in added :: v.subjectId);
      |assessed| == |added| && forall i :: 0 <= i < |added| ==> IsVerdictOn(verdicts, added[i], assessed[i])
  }

  predicate IsRepairAsked<W>(inv: Invariant<W>, token: Token, consent: Consent) {
    inv.repair.Some? && token in consent.repairs
  }

  /** The world after the repair of what was assessed. */
  ghost function RepairedWorld<W>(inv: Invariant<W>, w: W, assessed: seq<Violation>): W
    requires inv.repair.Some?
  {
    inv.repair.value(w, set v | v in assessed :: v.subjectId)
  }

  /** The repair can take all of what was added, and leaves nothing added. */
  ghost predicate RepairSettles<W>(inv: Invariant<W>, start: W, w: W, assessed: seq<Violation>)
    requires inv.repair.Some?
  {
    (forall v :: v in assessed ==> v.canRepair) && AddedAre(inv.check(start), inv.check(RepairedWorld(inv, w, assessed)), [])
  }

  /**
   * The invariant lets the write go on, in world `next`: nothing was added, or a repair that was
   * asked for settled it, or what was added was confirmed and no repair of it was asked for.
   */
  ghost predicate LetsOn<W>(inv: Invariant<W>, start: W, w: W, added: seq<Violation>, assessed: seq<Violation>, consent: Consent, next: W, repaired: bool) {
    var token := TokenFor(inv.key, added);
    if added == [] then next == w && !repaired
    else if IsRepairAsked(inv, token, consent) then repaired && RepairSettles(inv, start, w, assessed) && next == RepairedWorld(inv, w, assessed)
    else next == w && !repaired && token in consent.confirmations
  }

  /** The invariant stops the write, and what the refusal tells. */
  ghost predicate Stops<W>(inv: Invariant<W>, start: W, w: W, added: seq<Violation>, assessed: seq<Violation>, consent: Consent, refusal: Refusal) {
    var token := TokenFor(inv.key, added);
    && added != [] && refusal.key == inv.key && refusal.token == token && refusal.affectedCount == |added|
    && if IsRepairAsked(inv, token, consent) then
         !refusal.repairable && !refusal.staleClient && !RepairSettles(inv, start, w, assessed)
       else
         && token !in consent.confirmations && refusal.staleClient == consent.fromStaleClient
         && (refusal.repairable <==> !consent.fromStaleClient && inv.repair.Some? && forall v :: v in assessed ==> v.canRepair)
  }

  /** What an invariant's turn is judged on. */
  ghost predicate Measured<W>(inv: Invariant<W>, start: W, w: W, added: seq<Violation>, assessed: seq<Violation>) {
    AddedAre(inv.check(start), inv.check(w), added) && AsAssessed(inv, w, added, assessed)
  }

  lemma {:induction false} AssessedAre<W>(inv: Invariant<W>, w: W, added: seq<Violation>)
    ensures AsAssessed(inv, w, added, Assessed(inv, w, added)) && |Assessed(inv, w, added)| == |added|
  {
    hide SameSubject;
    if inv.assessRepair.Some? {
      var verdicts := inv.assessRepair.value(w, SubjectIds(added));
      forall i | 0 <= i < |added| ensures IsVerdictOn(verdicts, added[i], Assessed(inv, w, added)[i]) {
        LastOfIs(verdicts, added[i]);
      }
    }
  }

  lemma {:induction false} OneVerdict(verdicts: seq<Violation>, v: Violation, x: Violation, y: Violation)
    requires IsVerdictOn(verdicts, v, x) && IsVerdictOn(verdicts, v, y)
    ensures x == y
  {
    hide SameSubject;
  }

  lemma {:induction false} OneMeasure<W>(inv: Invariant<W>, start: W, w: W, a: seq<Violation>, x: seq<Violation>, b: seq<Violation>, y: seq<Violation>)
    requires Measured(inv, start, w, a, x) && Measured(inv, start, w, b, y)
    ensures a == b && x == y
  {
    hide AddedAre, IsVerdictOn;
    OneAddedList(inv.check(start), inv.check(w), a, b);
    if inv.assessRepair.Some? {
      var verdicts := inv.assessRepair.value(w, set v | v in a :: v.subjectId);
      forall i | 0 <= i < |a| ensures x[i] == y[i] {
        OneVerdict(verdicts, a[i], x[i], y[i]);
      }
    }
  }

  lemma {:induction false} MeasureOf<W>(inv: Invariant<W>, start: W, w: W)
    ensures var added := Added(inv.check(start), inv.check(w));
      Measured(inv, start, w, added, Assessed(inv, w, added)) && |Assessed(inv, w, added)| == |added|
  {
    hide AddedAre, AsAssessed, Assessed, Added;
    AddedMeans(inv.check(start), inv.check(w));
    AssessedAre(inv, w, Added(inv.check(start), inv.check(w)));
  }

  lemma {:induction false} NothingLeftIff(before: seq<Violation>, after: seq<Violation>)
    ensures AddedAre(before, after, []) <==> Added(before, after) == []
  {
    hide AddedAre, Added;
    AddedMeans(before, after);
    if AddedAre(before, after, []) {
      OneAddedList(before, after, [], Added(before, after));
    }
  }

  lemma {:induction false} JudgeMeans<W>(inv: Invariant<W>, start: W, w: W, consent: Consent)
    ensures var added := Added(inv.check(start), inv.check(w));
      match Judge(inv, inv.check(start), w, consent)
      case Passes(next, repaired) => LetsOn(inv, start, w, added, Assessed(inv, w, added), consent, next, repaired)
      case Refuses(refusal) => Stops(inv, start, w, added, Assessed(inv, w, added), consent, refusal)
  {
    hide AddedAre, Added, Assessed, TokenFor;
    var assessed := Assessed(inv, w, Added(inv.check(start), inv.check(w)));
    MeasureOf(inv, start, w);
    if inv.repair.Some? {
      assert SubjectIds(assessed) == set v | v in assessed :: v.subjectId;
      NothingLeftIff(inv.check(start), inv.check(RepairedWorld(inv, w, assessed)));
    }
  }

  /** An invariant lets the write on, on what it measures. */
  ghost predicate GoesOn<W>(inv: Invariant<W>, start: W, w: W, consent: Consent, next: W, repaired: bool) {
    exists added, assessed :: Measured(inv, start, w, added, assessed) && LetsOn(inv, start, w, added, assessed, consent, next, repaired)
  }

  ghost predicate IsStopped<W>(inv: Invariant<W>, start: W, w: W, consent: Consent, refusal: Refusal) {
    exists added, assessed :: Measured(inv, start, w, added, assessed) && Stops(inv, start, w, added, assessed, consent, refusal)
  }

  lemma {:induction false} GoesOnIff<W>(inv: Invariant<W>, start: W, w: W, consent: Consent, next: W, repaired: bool)
    ensures GoesOn(inv, start, w, consent, next, repaired) <==> Judge(inv, inv.check(start), w, consent) == Passes(next, repaired)
  {
    hide Measured, Added, Assessed, Judge, LetsOn;
    var added := Added(inv.check(start), inv.check(w));
    MeasureOf(inv, start, w);
    JudgeMeans(inv, start, w, consent);
    if GoesOn(inv, start, w, consent, next, repaired) {
      var a, x :| Measured(inv, start, w, a, x) && LetsOn(inv, start, w, a, x, consent, next, repaired);
      OneMeasure(inv, start, w, a, x, added, Assessed(inv, w, added));
      OneJudgement(inv, start, w, a, x, consent, next, repaired, Judge(inv, inv.check(start), w, consent));
    }
  }

  lemma {:induction false} OneJudgement<W>(inv: Invariant<W>, start: W, w: W, added: seq<Violation>, assessed: seq<Violation>, consent: Consent, next: W, repaired: bool,
                                           judged: Judgement<W>)
    requires LetsOn(inv, start, w, added, assessed, consent, next, repaired)
    requires match judged case Passes(n, r) => LetsOn(inv, start, w, added, assessed, consent, n, r) case Refuses(x) => Stops(inv, start, w, added, assessed, consent, x)
    ensures judged == Passes(next, repaired)
  {
    hide AddedAre, TokenFor;
  }

  lemma {:induction false} StoppedIff<W>(inv: Invariant<W>, start: W, w: W, consent: Consent, refusal: Refusal)
    ensures IsStopped(inv, start, w, consent, refusal) <==> Judge(inv, inv.check(start), w, consent) == Refuses(refusal)
  {
    hide Measured, Added, Assessed, Judge, LetsOn, Stops;
    var added := Added(inv.check(start), inv.check(w));
    MeasureOf(inv, start, w);
    JudgeMeans(inv, start, w, consent);
    if IsStopped(inv, start, w, consent, refusal) {
      var a, x :| Measured(inv, start, w, a, x) && Stops(inv, start, w, a, x, consent, refusal);
      OneMeasure(inv, start, w, a, x, added, Assessed(inv, w, added));
      OneRefusal(inv, start, w, a, x, consent, refusal, Judge(inv, inv.check(start), w, consent));
    }
  }

  lemma {:induction false} OneRefusal<W>(inv: Invariant<W>, start: W, w: W, added: seq<Violation>, assessed: seq<Violation>, consent: Consent, refusal: Refusal, judged: Judgement<W>)
    requires Stops(inv, start, w, added, assessed, consent, refusal)
    requires match judged case Passes(n, r) => LetsOn(inv, start, w, added, assessed, consent, n, r) case Refuses(x) => Stops(inv, start, w, added, assessed, consent, x)
    ensures judged == Refuses(refusal)
  {
    hide AddedAre, TokenFor;
  }

  // ---- The whole guard ----

  /** The first invariants' turns, each in the world the one before it left. */
  ghost predicate TurnsGo<W>(invariants: seq<Invariant<W>>, start: W, consent: Consent, worlds: seq<W>, fixed: seq<bool>) {
    && |worlds| == |fixed| + 1 <= |invariants| + 1
    && forall k :: 0 <= k < |fixed| ==> GoesOn(invariants[k], start, worlds[k], consent, worlds[k + 1], fixed[k])
  }

  /** Every invariant has let the write on; it is synced once more where it syncs and something was repaired. */
  ghost predicate AllGoOn<W>(invariants: seq<Invariant<W>>, start: W, proposed: W, sync: W -> W, syncs: bool, consent: Consent, worlds: seq<W>, fixed: seq<bool>, last: W) {
    && TurnsGo(invariants, start, consent, worlds, fixed) && |fixed| == |invariants| && worlds[0] == proposed
    && last == if syncs && true in fixed then sync(worlds[|fixed|]) else worlds[|fixed|]
  }

  /** Some invariant stops the write, after all those before it have let it on. */
  ghost predicate OneStops<W>(invariants: seq<Invariant<W>>, start: W, proposed: W, consent: Consent, worlds: seq<W>, fixed: seq<bool>, refusal: Refusal) {
    && TurnsGo(invariants, start, consent, worlds, fixed) && |fixed| < |invariants| && worlds[0] == proposed
    && IsStopped(invariants[|fixed|], start, worlds[|fixed|], consent, refusal)
  }

  /** The turns already taken, in front of the rest. */
  lemma {:induction false} RunTurns<W>(invariants: seq<Invariant<W>>, start: W, i: nat, w: W, repaired: bool, consent: Consent, worlds: seq<W>, fixed: seq<bool>)
    returns (all: seq<W>, marks: seq<bool>)
    requires TurnsGo(invariants, start, consent, worlds, fixed) && |fixed| == i && worlds[i] == w && (repaired <==> true in fixed)
    ensures TurnsGo(invariants, start, consent, all, marks) && all[0] == worlds[0]
    ensures match RunFrom(invariants, start, i, w, repaired, consent)
      case Through(last, r) => |marks| == |invariants| && all[|marks|] == last && (r <==> true in marks)
      case Stopped(at, refusal) => |marks| == at < |invariants| && IsStopped(invariants[at], start, all[at], consent, refusal)
    decreases |invariants| - i
  {
    hide Judge, GoesOn, IsStopped;
    if i == |invariants| {
      all, marks := worlds, fixed;
    } else {
      match Judge(invariants[i], invariants[i].check(start), w, consent)
      case Passes(next, r) =>
        GoesOnIff(invariants[i], start, w, consent, next, r);
        all, marks := RunTurns(invariants, start, i + 1, next, repaired || r, consent, worlds + [next], fixed + [r]);
      case Refuses(refusal) =>
        StoppedIff(invariants[i], start, w, consent, refusal);
        all, marks := worlds, fixed;
    }
  }

  /**
   * A guarded write commits when every invariant in turn lets it on, and is refused by the first
   * that does not: `CommittedOnly` and `RefusedOnly` say that nothing else is possible.
   */
  lemma {:induction false} GuardMeans<W>(invariants: seq<Invariant<W>>, start: W, write: W -> W, sync: W -> W, syncs: bool, consent: Consent)
    returns (worlds: seq<W>, fixed: seq<bool>)
    ensures var proposed := if syncs then sync(write(start)) else write(start);
      match Guarded(invariants, start, write, sync, syncs, consent)
      case Committed(last) => AllGoOn(invariants, start, proposed, sync, syncs, consent, worlds, fixed, last)
      case Refused(refusal) => OneStops(invariants, start, proposed, consent, worlds, fixed, refusal)
  {
    hide GoesOn, IsStopped, RunFrom;
    worlds, fixed := RunTurns(invariants, start, 0, Proposed(start, write, sync, syncs), false, consent, [Proposed(start, write, sync, syncs)], []);
  }

  /** Two ways of going through the same turns agree. */
  lemma {:induction false} SameTurns<W>(invariants: seq<Invariant<W>>, start: W, consent: Consent, worlds: seq<W>, fixed: seq<bool>, all: seq<W>, marks: seq<bool>, n: nat)
    requires TurnsGo(invariants, start, consent, worlds, fixed) && TurnsGo(invariants, start, consent, all, marks) && worlds[0] == all[0]
    requires n <= |fixed| && n <= |marks|
    ensures worlds[..n + 1] == all[..n + 1] && fixed[..n] == marks[..n]
  {
    hide GoesOn;
    if n > 0 {
      SameTurns(invariants, start, consent, worlds, fixed, all, marks, n - 1);
      assert worlds[n - 1] == worlds[..n][n - 1] && all[n - 1] == all[..n][n - 1];
      GoesOnIff(invariants[n - 1], start, worlds[n - 1], consent, worlds[n], fixed[n - 1]);
      GoesOnIff(invariants[n - 1], start, worlds[n - 1], consent, all[n], marks[n - 1]);
    }
  }

  lemma {:induction false} NotBoth<W>(inv: Invariant<W>, start: W, w: W, consent: Consent, next: W, repaired: bool, refusal: Refusal)
    ensures !(GoesOn(inv, start, w, consent, next, repaired) && IsStopped(inv, start, w, consent, refusal))
  {
    hide GoesOn, IsStopped, Judge;
    GoesOnIff(inv, start, w, consent, next, repaired);
    StoppedIff(inv, start, w, consent, refusal);
  }

  /** Where every invariant lets the write on, it commits. */
  lemma {:induction false} CommittedOnly<W>(invariants: seq<Invariant<W>>, start: W, write: W -> W, sync: W -> W, syncs: bool, consent: Consent, worlds: seq<W>, fixed: seq<bool>, last: W)
    requires AllGoOn(invariants, start, if syncs then sync(write(start)) else write(start), sync, syncs, consent, worlds, fixed, last)
    ensures Guarded(invariants, start, write, sync, syncs, consent) == Committed(last)
  {
    hide GoesOn, IsStopped, Guarded;
    var all, marks := GuardMeans(invariants, start, write, sync, syncs, consent);
    SameTurns(invariants, start, consent, worlds, fixed, all, marks, |marks|);
    if Guarded(invariants, start, write, sync, syncs, consent).Refused? {
      var n := |marks|;
      assert worlds[n] == worlds[..n + 1][n] && all[n] == all[..n + 1][n];
      NotBoth(invariants[n], start, worlds[n], consent, worlds[n + 1], fixed[n], Guarded(invariants, start, write, sync, syncs, consent).refusal);
    } else {
      assert worlds == worlds[..|marks| + 1] && all == all[..|marks| + 1] && fixed == fixed[..|marks|] && marks == marks[..|marks|];
    }
  }

  /** Where an invariant stops the write, it is refused as that invariant says. */
  lemma {:induction false} RefusedOnly<W>(invariants: seq<Invariant<W>>, start: W, write: W -> W, sync: W -> W, syncs: bool, consent: Consent, worlds: seq<W>, fixed: seq<bool>, refusal: Refusal)
    requires OneStops(invariants, start, if syncs then sync(write(start)) else write(start), consent, worlds, fixed, refusal)
    ensures Guarded(invariants, start, write, sync, syncs, consent) == Refused(refusal)
  {
    hide GoesOn, IsStopped, Guarded;
    var all, marks := GuardMeans(invariants, start, write, sync, syncs, consent);
    var outcome := Guarded(invariants, start, write, sync, syncs, consent);
    var n, m := |fixed|, |marks|;
    SameTurns(invariants, start, consent, worlds, fixed, all, marks, if n < m then n else m);
    if n < m {
      assert worlds[n] == worlds[..n + 1][n] && all[n] == all[..n + 1][n];
      NotBoth(invariants[n], start, worlds[n], consent, all[n + 1], marks[n], refusal);
    } else {
      assert worlds[m] == worlds[..m + 1][m] && all[m] == all[..m + 1][m];
      if m < n {
        NotBoth(invariants[m], start, worlds[m], consent, worlds[m + 1], fixed[m], outcome.refusal);
      } else {
        StoppedIff(invariants[n], start, worlds[n], consent, refusal);
        StoppedIff(invariants[n], start, worlds[n], consent, outcome.refusal);
      }
    }
  }

  /** The first invariant's turn comes before any repair: what the write made worse commits only when it was answered. */
  lemma {:induction false} WorseIsAnswered<W>(invariants: seq<Invariant<W>>, start: W, write: W -> W, sync: W -> W, syncs: bool, consent: Consent, u: Violation, v: Violation)
    requires |invariants| > 0 && Guarded(invariants, start, write, sync, syncs, consent).Committed?
    requires var proposed := if syncs then sync(write(start)) else write(start);
      u in invariants[0].check(start) && v in invariants[0].check(proposed) && OneEach(invariants[0].check(start)) && SameSubject(u, v) && LessBad(u, v)
    ensures exists added ::
      && v in added && AddedAre(invariants[0].check(start), invariants[0].check(if syncs then sync(write(start)) else write(start)), added)
      && TokenFor(invariants[0].key, added) in consent.confirmations + consent.repairs
  {
    hide Guarded, AddedAre, TokenFor, LessBad, SameSubject, AsAssessed, RepairSettles;
    var inv, proposed := invariants[0], if syncs then sync(write(start)) else write(start);
    var worlds, fixed := GuardMeans(invariants, start, write, sync, syncs, consent);
    var added, assessed :| Measured(inv, start, proposed, added, assessed) && LetsOn(inv, start, proposed, added, assessed, consent, worlds[1], fixed[0]);
    OnlyLess(inv.check(start), u, v);
    AddedIff(inv.check(start), inv.check(proposed), v);
    AddedMeans(inv.check(start), inv.check(proposed));
    OneAddedList(inv.check(start), inv.check(proposed), added, Added(inv.check(start), inv.check(proposed)));
  }

  lemma {:induction false} OnlyLess(before: seq<Violation>, u: Violation, v: Violation)
    requires OneEach(before) && u in before && SameSubject(u, v) && LessBad(u, v)
    ensures forall x :: x in before && SameSubject(x, v) ==> LessBad(x, v)
  {
    hide LessBad;
    forall x | x in before && SameSubject(x, v) ensures x == u {
      var i :| 0 <= i < |before| && before[i] == u;
      var j :| 0 <= j < |before| && before[j] == x;
      assert SameSubject(before[i], before[j]) && SameSubject(before[j], before[i]);
    }
  }
}
