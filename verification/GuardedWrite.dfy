/**
 * `prospective-write.ts`: a write applied tentatively, measured before and after, and
 * committed only with the operator's exact consent. `W` is what the transaction sees; the
 * checks, assessments and repairs are the invariants' own.
 */
module GuardedWrite {
  import opened Basics
  import opened Text

  datatype Violation = Violation(subjectType: string, subjectId: string, magnitude: Option<int>, canRepair: bool)

  datatype Invariant<!W> = Invariant(
    key: string,
    check: W -> seq<Violation>,
    assessRepair: Option<(W, set<string>) -> seq<Violation>>,
    repair: Option<(W, set<string>) -> W>)

  /** A digest, as the value it is taken of. */
  datatype Token = Token(key: string, subjects: seq<(string, Option<int>)>)

  datatype Consent = Consent(confirmations: set<Token>, repairs: set<Token>, fromStaleClient: bool)

  datatype Refusal = Refusal(key: string, token: Token, affectedCount: nat, repairable: bool, staleClient: bool)

  datatype Outcome<W> = Committed(world: W) | Refused(refusal: Refusal)

  // ---- What a write added ----

  function SubjectOf(v: Violation): string {
    v.subjectType + ":" + v.subjectId
  }

  function Magnitude(v: Violation): int {
    OrElse(v.magnitude, 0)
  }

  /** The last violation of a subject, which is the one a map keeps. */
  function LastOf(violations: seq<Violation>, subject: string): Option<Violation> {
    if |violations| == 0 then None
    else if SubjectOf(violations[|violations| - 1]) == subject then Some(violations[|violations| - 1])
    else LastOf(violations[..|violations| - 1], subject)
  }

  predicate IsAdded(before: seq<Violation>, v: Violation) {
    var previous := LastOf(before, SubjectOf(v));
    previous.None? || Magnitude(v) > Magnitude(previous.value)
  }

  function AddedAt(before: seq<Violation>, after: seq<Violation>): nat -> Option<Violation> {
    (i: nat) => if i < |after| && IsAdded(before, after[i]) then Some(after[i]) else None
  }

  function Added(before: seq<Violation>, after: seq<Violation>): seq<Violation> {
    Collect(|after|, AddedAt(before, after))
  }

  method AddedViolations(before: seq<Violation>, after: seq<Violation>) returns (added: seq<Violation>)
    ensures added == Added(before, after)
  {
    var baseline: map<string, Violation> := map[];
    var i := 0;
    while i < |before|
      invariant 0 <= i <= |before|
      invariant forall s :: (if s in baseline then Some(baseline[s]) else None) == LastOf(before[..i], s)
    {
      baseline := baseline[SubjectOf(before[i]) := before[i]];
      assert before[..i + 1][..i] == before[..i];
      i := i + 1;
    }
    assert before[..|before|] == before;
    added := [];
    i := 0;
    while i < |after|
      invariant 0 <= i <= |after|
      invariant added == Collect(i, AddedAt(before, after))
    {
      var v := after[i];
      var subject := SubjectOf(v);
      assert (if subject in baseline then Some(baseline[subject]) else None) == LastOf(before, subject);
      if subject !in baseline || Magnitude(v) > Magnitude(baseline[subject]) {
        added := added + [v];
      }
      i := i + 1;
    }
  }

  ghost predicate DistinctSubjects(violations: seq<Violation>) {
    forall i, j :: 0 <= i < j < |violations| ==> SubjectOf(violations[i]) != SubjectOf(violations[j])
  }

  lemma {:induction false} LastOfFinds(violations: seq<Violation>, v: Violation)
    requires DistinctSubjects(violations) && v in violations
    ensures LastOf(violations, SubjectOf(v)) == Some(v)
  {
    var front, last := violations[..|violations| - 1], violations[|violations| - 1];
    assert violations == front + [last];
    if v != last {
      assert v in front;
      LastOfFinds(front, v);
    }
  }

  /** Old drift does not count against an unrelated write. */
  lemma {:induction false} NothingAddedToItself(violations: seq<Violation>)
    requires DistinctSubjects(violations)
    ensures Added(violations, violations) == []
  {
    forall i | 0 <= i < |violations| ensures !IsAdded(violations, violations[i]) {
      LastOfFinds(violations, violations[i]);
    }
    NoneAdded(violations, violations, |violations|);
  }

  lemma {:induction false} NoneAdded(before: seq<Violation>, after: seq<Violation>, n: nat)
    requires n <= |after| && forall i :: 0 <= i < n ==> !IsAdded(before, after[i])
    ensures Collect(n, AddedAt(before, after)) == []
  {
    if n > 0 {
      NoneAdded(before, after, n - 1);
    }
  }

  // ---- The token ----

  function Shown(v: Violation): (string, Option<int>) {
    (SubjectOf(v), v.magnitude)
  }

  function InsertShown(shown: seq<(string, Option<int>)>, x: (string, Option<int>)): seq<(string, Option<int>)> {
    if |shown| == 0 || StrLe(shown[|shown| - 1].0, x.0) then shown + [x]
    else InsertShown(shown[..|shown| - 1], x) + [shown[|shown| - 1]]
  }

  /** Sorted by subject, in the order found where subjects repeat. */
  function SortedShown(added: seq<Violation>): seq<(string, Option<int>)> {
    if |added| == 0 then []
    else InsertShown(SortedShown(added[..|added| - 1]), Shown(added[|added| - 1]))
  }

  function TokenFor(key: string, added: seq<Violation>): Token {
    Token(key, SortedShown(added))
  }

  ghost predicate Rising(shown: seq<(string, Option<int>)>) {
    forall i, j :: 0 <= i < j < |shown| ==> StrLess(shown[i].0, shown[j].0)
  }

  lemma {:induction false} InsertShownRises(shown: seq<(string, Option<int>)>, x: (string, Option<int>))
    requires Rising(shown) && forall y :: y in shown ==> y.0 != x.0
    ensures Rising(InsertShown(shown, x))
    ensures forall y :: y in InsertShown(shown, x) <==> y in shown || y == x
  {
    if |shown| > 0 {
      var front, last := shown[..|shown| - 1], shown[|shown| - 1];
      assert shown == front + [last];
      assert last in shown;
      StrLessTrichotomy(last.0, x.0);
      if StrLess(last.0, x.0) {
        forall i | 0 <= i < |front| ensures StrLess(shown[i].0, x.0) {
          StrLessTransitive(shown[i].0, last.0, x.0);
        }
      } else {
        InsertShownRises(front, x);
        var r := InsertShown(front, x);
        forall i | 0 <= i < |r| ensures StrLess(r[i].0, last.0) {
          assert r[i] in r;
        }
      }
    }
  }

  lemma {:induction false} SortedShownRises(added: seq<Violation>)
    requires DistinctSubjects(added)
    ensures Rising(SortedShown(added))
    ensures forall y :: y in SortedShown(added) <==> exists v :: v in added && Shown(v) == y
  {
    if |added| > 0 {
      var front, last := added[..|added| - 1], added[|added| - 1];
      assert added == front + [last];
      SortedShownRises(front);
      forall y | y in SortedShown(front) ensures y.0 != SubjectOf(last) {
        var v :| v in front && Shown(v) == y;
        var i :| 0 <= i < |front| && front[i] == v;
        assert SubjectOf(added[i]) != SubjectOf(added[|front|]);
      }
      InsertShownRises(SortedShown(front), Shown(last));
    }
  }

  lemma {:induction false} SameHighestShown(a: seq<(string, Option<int>)>, b: seq<(string, Option<int>)>)
    requires Rising(a) && Rising(b) && |a| > 0 && forall y :: y in a <==> y in b
    ensures |b| > 0 && a[|a| - 1] == b[|b| - 1]
  {
    assert a[|a| - 1] in a;
    assert b[|b| - 1] in b;
    StrLessTrichotomy(a[|a| - 1].0, b[|b| - 1].0);
  }

  lemma {:induction false} ButLastShown(a: seq<(string, Option<int>)>, y: (string, Option<int>))
    requires Rising(a) && |a| > 0
    ensures y in a[..|a| - 1] <==> y in a && y != a[|a| - 1]
  {
    assert a == a[..|a| - 1] + [a[|a| - 1]];
    StrLessTrichotomy(a[|a| - 1].0, a[|a| - 1].0);
  }

  lemma {:induction false} RisingUnique(a: seq<(string, Option<int>)>, b: seq<(string, Option<int>)>)
    requires Rising(a) && Rising(b) && forall y :: y in a <==> y in b
    ensures a == b
  {
    assert |b| > 0 ==> b[0] in b;
    if |a| > 0 {
      SameHighestShown(a, b);
      var x, z := a[..|a| - 1], b[..|b| - 1];
      forall y ensures y in x <==> y in z {
        ButLastShown(a, y);
        ButLastShown(b, y);
      }
      RisingUnique(x, z);
      assert a == x + [a[|a| - 1]] && b == z + [b[|b| - 1]];
    }
  }

  /** What the operator is shown of each violation. */
  function ShownSet(added: seq<Violation>): set<(string, Option<int>)> {
    set v | v in added :: Shown(v)
  }

  /**
   * A token answers one invariant's one set of subjects and magnitudes, in whatever order the
   * check listed them, and nothing else.
   */
  lemma {:induction false} TokenNamesItsViolations(k: string, a: seq<Violation>, l: string, b: seq<Violation>)
    requires DistinctSubjects(a) && DistinctSubjects(b)
    ensures TokenFor(k, a) == TokenFor(l, b) <==> k == l && ShownSet(a) == ShownSet(b)
  {
    hide DistinctSubjects, Shown;
    SortedShownRises(a);
    SortedShownRises(b);
    assert forall y :: y in SortedShown(a) <==> y in ShownSet(a);
    assert forall y :: y in SortedShown(b) <==> y in ShownSet(b);
    if ShownSet(a) == ShownSet(b) {
      RisingUnique(SortedShown(a), SortedShown(b));
    }
  }

  // ---- Judging one invariant ----

  predicate FullyRepairable<W>(inv: Invariant<W>, added: seq<Violation>) {
    inv.repair.Some? && forall v :: v in added ==> v.canRepair
  }

  function SubjectIds(added: seq<Violation>): set<string> {
    set v | v in added :: v.subjectId
  }

  /** The added violations, with the repair's own verdict on each it assessed. */
  function Assessed<W>(inv: Invariant<W>, w: W, added: seq<Violation>): seq<Violation> {
    if inv.assessRepair.None? then added
    else
      var verdicts := inv.assessRepair.value(w, SubjectIds(added));
      seq(|added|, i requires 0 <= i < |added| => OrElse(LastOf(verdicts, SubjectOf(added[i])), added[i]))
  }

  datatype Judgement<W> = Passes(world: W, repaired: bool) | Refuses(refusal: Refusal)

  function Judge<W>(inv: Invariant<W>, before: seq<Violation>, w: W, consent: Consent): Judgement<W> {
    var added := Added(before, inv.check(w));
    if added == [] then Passes(w, false)
    else
      var token := TokenFor(inv.key, added);
      var assessed := Assessed(inv, w, added);
      if token in consent.repairs && inv.repair.Some? then
        if !FullyRepairable(inv, assessed) then Refuses(Refusal(inv.key, token, |assessed|, false, false))
        else
          var fixed := inv.repair.value(w, SubjectIds(assessed));
          if Added(before, inv.check(fixed)) == [] then Passes(fixed, true)
          else Refuses(Refusal(inv.key, token, |assessed|, false, false))
      else if token in consent.confirmations then Passes(w, false)
      else if consent.fromStaleClient then Refuses(Refusal(inv.key, token, |assessed|, false, true))
      else Refuses(Refusal(inv.key, token, |assessed|, FullyRepairable(inv, assessed), false))
  }

  // ---- The whole guard ----

  datatype Run<W> = Through(world: W, repaired: bool) | Stopped(at: nat, refusal: Refusal)

  /** The invariants from `i` on, judged in turn, each on the world the ones before it left. */
  function RunFrom<W>(invariants: seq<Invariant<W>>, start: W, i: nat, w: W, repaired: bool, consent: Consent): Run<W>
    requires i <= |invariants|
    decreases |invariants| - i
  {
    if i == |invariants| then Through(w, repaired)
    else
      match Judge(invariants[i], invariants[i].check(start), w, consent)
      case Passes(next, r) => RunFrom(invariants, start, i + 1, next, repaired || r, consent)
      case Refuses(refusal) => Stopped(i, refusal)
  }

  /** The tentative write and its sync. */
  function Proposed<W>(w: W, write: W -> W, sync: W -> W, syncs: bool): W {
    if syncs then sync(write(w)) else write(w)
  }

  function Guarded<W>(invariants: seq<Invariant<W>>, w: W, write: W -> W, sync: W -> W, syncs: bool, consent: Consent): Outcome<W> {
    match RunFrom(invariants, w, 0, Proposed(w, write, sync, syncs), false, consent)
    case Through(last, repaired) => Committed(if syncs && repaired then sync(last) else last)
    case Stopped(_, refusal) => Refused(refusal)
  }

  ghost predicate DistinctInvariants<W>(invariants: seq<Invariant<W>>) {
    forall i, j :: 0 <= i < j < |invariants| ==> invariants[i].key != invariants[j].key
  }

  /** `checkInvariants`: one pass, one list of violations for each key. */
  method CheckInvariants<W>(invariants: seq<Invariant<W>>, w: W) returns (result: map<string, seq<Violation>>)
    requires DistinctInvariants(invariants)
    ensures forall i :: 0 <= i < |invariants| ==> invariants[i].key in result && result[invariants[i].key] == invariants[i].check(w)
  {
    result := map[];
    var i := 0;
    while i < |invariants|
      invariant 0 <= i <= |invariants|
      invariant forall k :: 0 <= k < i ==> invariants[k].key in result && result[invariants[k].key] == invariants[k].check(w)
    {
      result := result[invariants[i].key := invariants[i].check(w)];
      i := i + 1;
    }
  }

  /** `guardProspectiveWrite`. A refusal rolls everything back. */
  method GuardProspectiveWrite<W>(invariants: seq<Invariant<W>>, start: W, write: W -> W, sync: W -> W, syncs: bool, consent: Consent)
    returns (outcome: Outcome<W>)
    requires DistinctInvariants(invariants)
    ensures outcome == Guarded(invariants, start, write, sync, syncs, consent)
  {
    hide Added, TokenFor, Assessed, FullyRepairable, Judge;
    if |invariants| == 0 {
      return Committed(if syncs then sync(write(start)) else write(start));
    }
    var before := CheckInvariants(invariants, start);
    var w := write(start);
    if syncs {
      w := sync(w);
    }
    var repaired := false;
    var after := CheckInvariants(invariants, w);
    var i := 0;
    while i < |invariants|
      invariant 0 <= i <= |invariants|
      invariant forall k :: 0 <= k < |invariants| ==> invariants[k].key in after && after[invariants[k].key] == invariants[k].check(w)
      invariant RunFrom(invariants, start, 0, Proposed(start, write, sync, syncs), false, consent)
             == RunFrom(invariants, start, i, w, repaired, consent)
    {
      var judged, remeasure := JudgeOne(invariants[i], before[invariants[i].key], after[invariants[i].key], w, consent);
      if judged.Refuses? {
        return Refused(judged.refusal);
      }
      w := judged.world;
      repaired := repaired || judged.repaired;
      if remeasure {
        after := CheckInvariants(invariants, w);
      }
      i := i + 1;
    }
    if syncs && repaired {
      w := sync(w);
    }
    return Committed(w);
  }

  /** One turn of the loop. A repair is measured again; nothing else has written. */
  method JudgeOne<W>(inv: Invariant<W>, before: seq<Violation>, after: seq<Violation>, w: W, consent: Consent)
    returns (judged: Judgement<W>, remeasure: bool)
    requires after == inv.check(w)
    ensures judged == Judge(inv, before, w, consent)
    ensures judged.Passes? && !remeasure ==> judged.world == w
  {
    hide Added, TokenFor, Assessed, FullyRepairable;
    var added := AddedViolations(before, after);
    if |added| == 0 {
      return Passes(w, false), false;
    }
    var token := TokenFor(inv.key, added);
    var assessed := Assessed(inv, w, added);
    if token in consent.repairs && inv.repair.Some? {
      if !FullyRepairable(inv, assessed) {
        return Refuses(Refusal(inv.key, token, |assessed|, false, false)), false;
      }
      var fixed := inv.repair.value(w, SubjectIds(assessed));
      var left := AddedViolations(before, inv.check(fixed));
      if |left| > 0 {
        return Refuses(Refusal(inv.key, token, |assessed|, false, false)), true;
      }
      return Passes(fixed, true), true;
    }
    if token in consent.confirmations {
      return Passes(w, false), false;
    }
    if consent.fromStaleClient {
      return Refuses(Refusal(inv.key, token, |assessed|, false, true)), false;
    }
    return Refuses(Refusal(inv.key, token, |assessed|, FullyRepairable(inv, assessed), false)), false;
  }
}
