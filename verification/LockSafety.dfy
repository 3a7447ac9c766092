/** What the locks promise: no deadlock, edits that run alone, and nobody overtaking. */
module LockSafety {
  import opened Basics
  import opened LockProtocol

  /** An edit only ever waits for its tenant's lock, before it holds anything. */
  ghost predicate EditsRun(s: System) {
    forall t :: t in s.txns && s.txns[t].kind == ScheduleEdit && s.txns[t].waiting ==> s.txns[t].taken == 0
  }

  ghost predicate Safe(s: System, tenantOf: string -> string) {
    Inv(s, tenantOf) && EditsRun(s)
  }

  /** The edit holds its tenant's lock. */
  ghost predicate Edits(s: System, e: Tid, tenant: string) {
    Holds(s, e, Request(Tenant(tenant), Exclusive))
  }

  // ---- An edit runs alone ----

  lemma {:induction false} HeldPosition(x: Txn, q: Request) returns (k: nat)
    requires q in Held(x)
    ensures k < x.taken <= |x.script| && x.script[k] == q && !x.ended
  {
    k :| 0 <= k < |Held(x)| && Held(x)[k] == q;
    assert x.script[k] == q;
  }

  lemma {:induction false} HeldAt(x: Txn, k: nat)
    requires k < x.taken <= |x.script| && !x.ended
    ensures x.script[k] in Held(x)
  {
    assert Held(x)[k] == x.script[k];
  }

  /** Whoever has reached a row of a tenant holds that tenant's lock. */
  lemma {:induction false} RowUnderTenant(x: Txn, tenantOf: string -> string, k: nat) returns (m: Mode)
    requires IsTxn(x, tenantOf) && !x.ended && k < |x.script| && k <= x.taken && x.script[k].resource.Row?
    ensures Request(Tenant(tenantOf(x.script[k].resource.id)), m) in Held(x)
  {
    var tenant := Tenant(tenantOf(x.script[k].resource.id));
    match x.kind
    case ReservationWriter =>
      m := Shared;
      assert x.script[k] in x.script;
      var i :| 0 <= i < |x.script| && x.script[i] == Request(tenant, Shared);
      HeldAt(x, i);
    case ScheduleEdit =>
      m := Exclusive;
      HeldAt(x, 0);
  }

  /** While an edit holds a tenant, nobody else holds its lock or has reached any of its rows. */
  lemma {:induction false} EditExcludes(s: System, tenantOf: string -> string, e: Tid, tenant: string, u: Tid)
    requires Inv(s, tenantOf) && Edits(s, e, tenant) && u != e
    ensures forall m :: !Holds(s, u, Request(Tenant(tenant), m))
    ensures forall r, m :: tenantOf(r) == tenant ==> !Holds(s, u, Request(Row(r), m))
    ensures forall r :: tenantOf(r) == tenant ==> !WaitsAt(s, u, Row(r))
  {
    hide Queued, Held, IsTxn;
    forall m ensures !Holds(s, u, Request(Tenant(tenant), m)) {
      assert Holds(s, e, Request(Tenant(tenant), Exclusive));
    }
    forall r, m | tenantOf(r) == tenant ensures !Holds(s, u, Request(Row(r), m)) {
      if Holds(s, u, Request(Row(r), m)) {
        var k := HeldPosition(s.txns[u], Request(Row(r), m));
        var n := RowUnderTenant(s.txns[u], tenantOf, k);
      }
    }
    forall r | tenantOf(r) == tenant ensures !WaitsAt(s, u, Row(r)) {
      if WaitsAt(s, u, Row(r)) {
        var n := RowUnderTenant(s.txns[u], tenantOf, s.txns[u].taken);
      }
    }
  }

  /** An edit's row is free when it asks for it, with nobody in the queue. */
  lemma {:induction false} EditRowIsFree(s: System, tenantOf: string -> string, e: Tid)
    requires Safe(s, tenantOf) && Enabled(s, Ask(e), tenantOf) && s.txns[e].kind == ScheduleEdit && s.txns[e].taken > 0
    ensures Takes(s, Ask(e), e)
  {
    var x := s.txns[e];
    var tenant := x.script[0].resource.id;
    var q := NextRequest(s, e);
    assert tenantOf(q.resource.id) == tenant;
    HeldAt(x, 0);
    assert Edits(s, e, tenant);
    hide IsEditScript, IsWriterScript, Compatible, Held;
    var queue := QueueAt(s, q.resource);
    assert |queue| > 0 ==> queue[0] in queue;
    forall u ensures u !in queue {
      assert u in queue <==> WaitsAt(s, u, q.resource);
      if u != e { EditExcludes(s, tenantOf, e, tenant, u); }
    }
    forall u, m | u != e ensures !Holds(s, u, Request(q.resource, m)) {
      EditExcludes(s, tenantOf, e, tenant, u);
    }
  }

  /** A schedule edit never waits on a departure row, in any step of any run. */
  lemma {:induction false} EditsRunStays(s: System, a: Action, tenantOf: string -> string)
    requires Safe(s, tenantOf) && Enabled(s, a, tenantOf)
    ensures EditsRun(After(s, a, tenantOf))
  {
    hide Compatible, Queued, Held, IsTxn, Grantable;
    if a.Ask? && s.txns[a.t].kind == ScheduleEdit && s.txns[a.t].taken > 0 {
      EditRowIsFree(s, tenantOf, a.t);
    }
  }

  lemma {:induction false} StepSafe(s: System, a: Action, tenantOf: string -> string)
    requires Safe(s, tenantOf) && Enabled(s, a, tenantOf)
    ensures Safe(After(s, a, tenantOf), tenantOf)
  {
    hide Inv, After, Enabled, EditsRun;
    StepInv(s, a, tenantOf);
    EditsRunStays(s, a, tenantOf);
  }

  /** Every state a run from the start reaches is safe. */
  lemma {:induction false} RunSafe(s: System, actions: seq<Action>, tenantOf: string -> string)
    requires Safe(s, tenantOf) && IsRun(s, actions, tenantOf)
    ensures Safe(AfterRun(s, actions, tenantOf), tenantOf)
    decreases |actions|
  {
    hide Safe, After, Enabled;
    if |actions| > 0 {
      StepSafe(s, actions[0], tenantOf);
      RunSafe(After(s, actions[0], tenantOf), actions[1..], tenantOf);
    }
  }

  // ---- No deadlock ----

  ghost predicate AheadIn(queue: seq<Tid>, u: Tid, t: Tid) {
    exists i, j :: 0 <= i < j < |queue| && queue[i] == u && queue[j] == t
  }

  /** `t` waits, and cannot go on before `u` does. */
  ghost predicate WaitsFor(s: System, t: Tid, u: Tid) {
    && Active(s, t) && s.txns[t].waiting && s.txns[t].taken < |s.txns[t].script| && u != t
    && var q := NextRequest(s, t);
       || (exists m :: Holds(s, u, Request(q.resource, m)) && Conflict(m, q.mode))
       || AheadIn(QueueAt(s, q.resource), u, t)
  }

  ghost predicate Waiting(s: System, t: Tid) {
    Active(s, t) && s.txns[t].waiting && s.txns[t].taken < |s.txns[t].script|
  }

  /** `u` waits for a later lock than `t`, or for the same one further ahead. */
  ghost predicate Later(s: System, t: Tid, u: Tid)
    requires Waiting(s, t) && Waiting(s, u)
  {
    var a, b := NextRequest(s, t).resource, NextRequest(s, u).resource;
    Before(a, b) || (a == b && AheadIn(QueueAt(s, a), u, t))
  }

  lemma {:induction false} LaterIsOrder(s: System, tenantOf: string -> string, t: Tid, u: Tid, x: Tid)
    requires Inv(s, tenantOf) && Waiting(s, t) && Waiting(s, u) && Waiting(s, x)
    ensures !Later(s, t, t)
    ensures Later(s, t, u) && Later(s, u, x) ==> Later(s, t, x)
  {
    hide AllTxns, Compatible, Held;
    var a, b, c := NextRequest(s, t).resource, NextRequest(s, u).resource, NextRequest(s, x).resource;
    BeforeIsOrder(a, b, c);
    assert Distinct(QueueAt(s, a));
    if a == b == c && AheadIn(QueueAt(s, a), u, t) && AheadIn(QueueAt(s, a), x, u) {
      var queue := QueueAt(s, a);
      var i, j :| 0 <= i < j < |queue| && queue[i] == u && queue[j] == t;
      var k, l :| 0 <= k < l < |queue| && queue[k] == x && queue[l] == u;
      assert l == i;
    }
  }

  /** Waiting only ever leads to a later lock, or further ahead in the same queue. */
  lemma {:induction false} WaitsForIsLater(s: System, tenantOf: string -> string, t: Tid, u: Tid)
    requires Safe(s, tenantOf) && WaitsFor(s, t, u) && Waiting(s, u)
    ensures Later(s, t, u)
  {
    hide Compatible, Held;
    var q := NextRequest(s, t);
    if AheadIn(QueueAt(s, q.resource), u, t) {
      assert u in QueueAt(s, q.resource);
      assert WaitsAt(s, u, q.resource);
    } else {
      var m :| Holds(s, u, Request(q.resource, m)) && Conflict(m, q.mode);
      var k := HeldPosition(s.txns[u], Request(q.resource, m));
      assert s.txns[u].kind == ReservationWriter;
      assert Before(s.txns[u].script[k].resource, s.txns[u].script[s.txns[u].taken].resource);
    }
  }

  /** Among waiting transactions there is one that waits for no other of them. */
  lemma {:induction false} LastWaiter(s: System, tenantOf: string -> string, ts: set<Tid>) returns (t: Tid)
    requires Inv(s, tenantOf) && ts != {} && forall u :: u in ts ==> Waiting(s, u)
    ensures t in ts && forall u :: u in ts ==> !Later(s, t, u)
    decreases |ts|
  {
    hide Inv, Later, Waiting;
    var x :| x in ts;
    if ts == {x} {
      t := x;
      LaterIsOrder(s, tenantOf, x, x, x);
    } else {
      var y := LastWaiter(s, tenantOf, ts - {x});
      t := if Later(s, y, x) then x else y;
      forall u | u in ts ensures !Later(s, t, u) {
        LaterIsOrder(s, tenantOf, y, x, u);
        LaterIsOrder(s, tenantOf, x, x, x);
      }
    }
  }

  /** Each of them waits for another of them, so none can ever go on. */
  ghost predicate Deadlocked(s: System, ts: set<Tid>) {
    ts != {} && forall t :: t in ts ==> exists u :: u in ts && WaitsFor(s, t, u)
  }

  lemma {:induction false} NoDeadlock(s: System, tenantOf: string -> string, ts: set<Tid>)
    requires Safe(s, tenantOf)
    ensures !Deadlocked(s, ts)
  {
    hide Inv, Later;
    if Deadlocked(s, ts) {
      forall t | t in ts ensures Waiting(s, t) {
        var u :| u in ts && WaitsFor(s, t, u);
      }
      var t := LastWaiter(s, tenantOf, ts);
      var u :| u in ts && WaitsFor(s, t, u);
      WaitsForIsLater(s, tenantOf, t, u);
    }
  }

  /** No run from the start reaches a deadlock. */
  lemma {:induction false} NoRunDeadlocks(actions: seq<Action>, tenantOf: string -> string, ts: set<Tid>)
    requires IsRun(START, actions, tenantOf)
    ensures !Deadlocked(AfterRun(START, actions, tenantOf), ts)
  {
    hide Deadlocked;
    StartInv(tenantOf);
    RunSafe(START, actions, tenantOf);
    NoDeadlock(AfterRun(START, actions, tenantOf), tenantOf, ts);
  }

  /** While any transaction is open, one can take a lock, be granted one, or commit. */
  lemma {:induction false} SomebodyGoesOn(s: System, tenantOf: string -> string, t: Tid)
    requires Safe(s, tenantOf) && Active(s, t)
    ensures exists a: Action :: (a.Ask? || a.Grant? || a.Commit?) && Enabled(s, a, tenantOf)
  {
    if u :| Active(s, u) && !s.txns[u].waiting {
      assert IsTxn(s.txns[u], tenantOf);
      assert Enabled(s, Ask(u), tenantOf) || Enabled(s, Commit(u), tenantOf);
    } else {
      var ts := set u | u in s.txns && Active(s, u);
      assert t in ts;
      forall u | u in ts ensures Waiting(s, u) {
        assert IsTxn(s.txns[u], tenantOf);
      }
      var last := LastWaiter(s, tenantOf, ts);
      FrontIsGranted(s, tenantOf, ts, last);
    }
  }

  lemma {:induction false} FrontIsGranted(s: System, tenantOf: string -> string, ts: set<Tid>, t: Tid)
    requires Safe(s, tenantOf) && (forall u :: u in ts <==> Active(s, u)) && (forall u :: u in ts ==> Waiting(s, u))
    requires t in ts && Waiting(s, t) && forall u :: u in ts ==> !Later(s, t, u)
    ensures Enabled(s, Grant(NextRequest(s, t).resource), tenantOf)
  {
    hide AllTxns, Compatible, EditsRun, Later, IsTxn;
    var q := NextRequest(s, t);
    var queue := QueueAt(s, q.resource);
    assert WaitsAt(s, t, q.resource) && t in queue;
    var j :| 0 <= j < |queue| && queue[j] == t;
    if j > 0 {
      assert queue[0] in queue && WaitsAt(s, queue[0], q.resource) && AheadIn(queue, queue[0], t);
      assert Distinct(queue);
      WaitsForIsLater(s, tenantOf, t, queue[0]);
    }
    forall u, m | u != t && Holds(s, u, Request(q.resource, m)) ensures !Conflict(m, q.mode) {
      if Conflict(m, q.mode) {
        WaitsForIsLater(s, tenantOf, t, u);
      }
    }
  }

  // ---- No booking commits inside an edit ----

  /** The transaction writes reservations of a tenant. */
  ghost predicate Books(s: System, t: Tid, tenant: string) {
    t in s.txns && Request(Tenant(tenant), Shared) in s.txns[t].script
  }

  lemma {:induction false} NoBookingCommits(s: System, tenantOf: string -> string, e: Tid, tenant: string, t: Tid)
    requires Inv(s, tenantOf) && Edits(s, e, tenant) && Books(s, t, tenant)
    ensures !Enabled(s, Commit(t), tenantOf)
  {
    hide Queued, Compatible, IsTxn;
    if Enabled(s, Commit(t), tenantOf) {
      var x := s.txns[t];
      assert x.script[..x.taken] == x.script;
      assert Holds(s, t, Request(Tenant(tenant), Shared));
      if t == e {
        EditIsNoWriter(s, tenantOf, e, tenant);
      } else {
        EditExcludes(s, tenantOf, e, tenant, t);
      }
    }
  }

  lemma {:induction false} EditIsNoWriter(s: System, tenantOf: string -> string, e: Tid, tenant: string)
    requires AllTxns(s, tenantOf) && Edits(s, e, tenant)
    ensures !Books(s, e, tenant)
  {
    var x := s.txns[e];
    var k := HeldPosition(x, Request(Tenant(tenant), Exclusive));
    assert x.script[k] in x.script;
  }

  /** The edit holds its lock until it ends. */
  lemma {:induction false} EditHoldsOn(s: System, a: Action, tenantOf: string -> string, e: Tid, tenant: string)
    requires Inv(s, tenantOf) && Enabled(s, a, tenantOf) && Edits(s, e, tenant) && !Ends(a, e)
    ensures Edits(After(s, a, tenantOf), e, tenant)
  {
    hide Queued, Compatible, IsTxn, Held, Grantable, Takes;
    HeldAfter(s, a, tenantOf, e);
  }

  /**
   * From the step an edit has its tenant's lock to the step it ends, no transaction that
   * writes the tenant's reservations commits, so its scans before and after see one set of
   * bookings.
   */
  lemma {:induction false} NoBookingInsideEdit(s: System, actions: seq<Action>, tenantOf: string -> string, e: Tid, tenant: string, i: nat, t: Tid)
    requires Inv(s, tenantOf) && IsRun(s, actions, tenantOf) && Edits(s, e, tenant)
    requires forall k :: 0 <= k < |actions| ==> !Ends(actions[k], e)
    requires i < |actions| && IsRun(s, actions[..i], tenantOf) && Books(AfterRun(s, actions[..i], tenantOf), t, tenant)
    ensures actions[i] != Commit(t)
    decreases |actions|
  {
    hide Inv, Edits, Books, After, Enabled, Ends;
    if i == 0 {
      NoBookingCommits(s, tenantOf, e, tenant, t);
    } else {
      var v := After(s, actions[0], tenantOf);
      StepInv(s, actions[0], tenantOf);
      EditHoldsOn(s, actions[0], tenantOf, e, tenant);
      assert actions[..i][1..] == actions[1..][..i - 1];
      NoBookingInsideEdit(v, actions[1..], tenantOf, e, tenant, i - 1, t);
    }
  }

  // ---- Nobody overtakes ----

  /** The transactions a waiting one is behind: holders of what it wants, and the queue before it. */
  ghost predicate IsAhead(s: System, t: Tid, u: Tid)
    requires Waiting(s, t)
  {
    var r := NextRequest(s, t).resource;
    u != t && ((exists m :: Holds(s, u, Request(r, m))) || AheadIn(QueueAt(s, r), u, t))
  }

  lemma {:induction false} AheadInDropped(queue: seq<Tid>, x: Tid, u: Tid, t: Tid)
    ensures AheadIn(Without(queue, x), u, t) ==> AheadIn(queue, u, t)
  {
    if |queue| > 0 && AheadIn(Without(queue, x), u, t) {
      var rest := queue[1..];
      assert queue == [queue[0]] + rest;
      var w := Without(queue, x);
      var i, j :| 0 <= i < j < |w| && w[i] == u && w[j] == t;
      if queue[0] != x && i == 0 {
        WithoutExactly(rest, x);
        assert w[j] == Without(rest, x)[j - 1];
        assert t in rest;
        var k :| 0 <= k < |rest| && rest[k] == t;
        assert queue[0] == u && queue[k + 1] == t;
      } else {
        var n := if queue[0] == x then 0 else 1;
        assert Without(rest, x)[i - n] == u && Without(rest, x)[j - n] == t;
        AheadInDropped(rest, x, u, t);
        var k, l :| 0 <= k < l < |rest| && rest[k] == u && rest[l] == t;
        assert queue[k + 1] == u && queue[l + 1] == t;
      }
    }
  }

  /** While a transaction waits, nobody who was not ahead of it gets ahead: bookings cannot starve an edit. */
  lemma {:induction false} NobodyOvertakes(s: System, a: Action, tenantOf: string -> string, t: Tid, u: Tid)
    requires Inv(s, tenantOf) && Enabled(s, a, tenantOf) && Waiting(s, t)
    requires Waiting(After(s, a, tenantOf), t) && IsAhead(After(s, a, tenantOf), t, u)
    ensures IsAhead(s, t, u)
  {
    hide Compatible, Grantable, IsTxn, Held;
    var v := After(s, a, tenantOf);
    StillNext(s, a, tenantOf, t);
    var r := NextRequest(s, t).resource;
    if m :| Holds(v, u, Request(r, m)) {
      HeldAfter(s, a, tenantOf, u);
      if Takes(s, a, u) && Request(r, m) == NextRequest(s, u) {
        TakerWasAhead(s, a, tenantOf, t, u);
      }
    } else {
      QueueBeforeOnlyShrinks(s, a, tenantOf, t, u, r);
    }
  }

  lemma {:induction false} StillNext(s: System, a: Action, tenantOf: string -> string, t: Tid)
    requires Inv(s, tenantOf) && Enabled(s, a, tenantOf) && Waiting(s, t) && Waiting(After(s, a, tenantOf), t)
    ensures NextRequest(After(s, a, tenantOf), t) == NextRequest(s, t)
    ensures !(a.Ask? && a.t == t) && !Takes(s, a, t)
  {
    hide Compatible, Grantable, IsTxn, Held;
  }

  lemma {:induction false} TakerWasAhead(s: System, a: Action, tenantOf: string -> string, t: Tid, u: Tid)
    requires Inv(s, tenantOf) && Enabled(s, a, tenantOf) && Waiting(s, t) && u != t && Takes(s, a, u)
    requires NextRequest(s, u).resource == NextRequest(s, t).resource
    ensures AheadIn(QueueAt(s, NextRequest(s, t).resource), u, t)
  {
    hide Compatible, Grantable, IsTxn, Held;
    var r := NextRequest(s, t).resource;
    var queue := QueueAt(s, r);
    assert WaitsAt(s, t, r) && t in queue;
    var j :| 0 <= j < |queue| && queue[j] == t;
    if a.Grant? {
      assert WaitsAt(s, u, a.r);
      assert queue[0] == u;
    }
  }

  lemma {:induction false} QueueBeforeOnlyShrinks(s: System, a: Action, tenantOf: string -> string, t: Tid, u: Tid, r: Resource)
    requires Inv(s, tenantOf) && Enabled(s, a, tenantOf) && WaitsAt(s, t, r) && !(a.Ask? && a.t == t)
    requires AheadIn(QueueAt(After(s, a, tenantOf), r), u, t)
    ensures AheadIn(QueueAt(s, r), u, t)
  {
    hide Compatible, Grantable, IsTxn, Held;
    var before, after := QueueAt(s, r), QueueAt(After(s, a, tenantOf), r);
    var i, j :| 0 <= i < j < |after| && after[i] == u && after[j] == t;
    match a
    case Abort(x) => AheadInDropped(before, x, u, t);
    case Grant(x) =>
      if x == r {
        assert before[i + 1] == u && before[j + 1] == t;
      }
    case Ask(x) =>
      assert before[i] == u && before[j] == t;
    case Begin(_, _) =>
    case Commit(_) =>
  }

  // ---- Nobody starves ----

  /** The transaction waits in this state and after each step of the run. */
  ghost predicate WaitsThrough(s: System, actions: seq<Action>, tenantOf: string -> string, t: Tid)
    requires IsRun(s, actions, tenantOf)
    decreases |actions|
  {
    Waiting(s, t) && (|actions| > 0 ==> WaitsThrough(After(s, actions[0], tenantOf), actions[1..], tenantOf, t))
  }

  ghost function AheadOf(s: System, t: Tid): set<Tid>
    requires Waiting(s, t)
  {
    set u | u in s.txns && IsAhead(s, t, u)
  }

  /** How many are queued before it. */
  function Position(queue: seq<Tid>, t: Tid): nat {
    if |queue| == 0 || queue[0] == t then 0 else 1 + Position(queue[1..], t)
  }

  function GrantsOf(actions: seq<Action>, r: Resource): nat {
    if |actions| == 0 then 0 else (if actions[0] == Grant(r) then 1 else 0) + GrantsOf(actions[1..], r)
  }

  lemma {:induction false} PositionWithout(queue: seq<Tid>, x: Tid, t: Tid)
    requires x != t
    ensures Position(Without(queue, x), t) <= Position(queue, t)
  {
    if |queue| > 0 {
      PositionWithout(queue[1..], x, t);
    }
  }

  lemma {:induction false} PositionAppend(queue: seq<Tid>, x: Tid, t: Tid)
    requires t in queue
    ensures Position(queue + [x], t) == Position(queue, t)
  {
    if queue[0] != t {
      assert (queue + [x])[1..] == queue[1..] + [x];
      assert queue == [queue[0]] + queue[1..];
      PositionAppend(queue[1..], x, t);
    }
  }

  /** A step moves a waiting transaction no further back, and a grant of its lock moves it one place forward. */
  lemma {:induction false} PositionStep(s: System, a: Action, tenantOf: string -> string, t: Tid)
    requires Inv(s, tenantOf) && Enabled(s, a, tenantOf) && Waiting(s, t) && Waiting(After(s, a, tenantOf), t)
    ensures var r := NextRequest(s, t).resource;
      Position(QueueAt(After(s, a, tenantOf), r), t) + (if a == Grant(r) then 1 else 0) <= Position(QueueAt(s, r), t)
  {
    hide Compatible, Grantable, IsTxn, Held;
    StillNext(s, a, tenantOf, t);
    var r := NextRequest(s, t).resource;
    var before := QueueAt(s, r);
    assert WaitsAt(s, t, r) && t in before;
    match a
    case Abort(x) => PositionWithout(before, x, t);
    case Grant(x) =>
      if x == r {
        assert before[0] != t;
      }
    case Ask(x) => PositionAppend(before, x, t);
    case Begin(_, _) =>
    case Commit(_) =>
  }

  /**
   * While a transaction waits, over any run: the set ahead of it only shrinks, and its lock is
   * granted to no more transactions than were queued before it. No stream of bookings starves
   * an edit.
   */
  lemma {:induction false} WaitIsBounded(s: System, actions: seq<Action>, tenantOf: string -> string, t: Tid)
    requires Inv(s, tenantOf) && IsRun(s, actions, tenantOf) && WaitsThrough(s, actions, tenantOf, t)
    ensures var v := AfterRun(s, actions, tenantOf);
      var r := NextRequest(s, t).resource;
      && Waiting(v, t) && NextRequest(v, t) == NextRequest(s, t)
      && AheadOf(v, t) <= AheadOf(s, t)
      && GrantsOf(actions, r) + Position(QueueAt(v, r), t) <= Position(QueueAt(s, r), t)
    decreases |actions|
  {
    hide Inv, Enabled, After, QueueAt, IsAhead, Waiting, NextRequest;
    if |actions| > 0 {
      var w := After(s, actions[0], tenantOf);
      StepInv(s, actions[0], tenantOf);
      WaitingNow(s, actions, tenantOf, t);
      WaitingNow(w, actions[1..], tenantOf, t);
      StillNext(s, actions[0], tenantOf, t);
      PositionStep(s, actions[0], tenantOf, t);
      WaitIsBounded(w, actions[1..], tenantOf, t);
      AheadStep(s, actions[0], tenantOf, t);
    } else {
      WaitingNow(s, actions, tenantOf, t);
    }
  }

  lemma {:induction false} WaitingNow(s: System, actions: seq<Action>, tenantOf: string -> string, t: Tid)
    requires IsRun(s, actions, tenantOf) && WaitsThrough(s, actions, tenantOf, t)
    ensures Waiting(s, t)
  {
  }

  lemma {:induction false} AheadStep(s: System, a: Action, tenantOf: string -> string, t: Tid)
    requires Inv(s, tenantOf) && Enabled(s, a, tenantOf) && Waiting(s, t) && Waiting(After(s, a, tenantOf), t)
    ensures AheadOf(After(s, a, tenantOf), t) <= AheadOf(s, t)
  {
    hide Inv, Enabled, After, QueueAt, Held;
    var v := After(s, a, tenantOf);
    forall u | u in AheadOf(v, t) ensures u in AheadOf(s, t) {
      NobodyOvertakes(s, a, tenantOf, t, u);
      AheadIsStored(s, tenantOf, t, u);
    }
  }

  lemma {:induction false} AheadIsStored(s: System, tenantOf: string -> string, t: Tid, u: Tid)
    requires Inv(s, tenantOf) && Waiting(s, t) && IsAhead(s, t, u)
    ensures u in s.txns
  {
    hide Compatible, IsTxn, Held;
    var r := NextRequest(s, t).resource;
    if u in QueueAt(s, r) {
      assert WaitsAt(s, u, r);
    }
  }

  // ---- Who keeps whom waiting ----

  /**
   * What keeps a transaction from the lock it asks for next: a writer at a tenant's lock, only an
   * edit of that tenant; an edit, every transaction in flight there; at a row, whoever holds it.
   */
  ghost predicate KeepsFrom(s: System, t: Tid, u: Tid)
    requires t in s.txns && s.txns[t].taken < |s.txns[t].script|
  {
    && u != t && u in s.txns
    && match NextRequest(s, t).resource
       case Tenant(x) =>
         if s.txns[t].kind == ReservationWriter then s.txns[u].kind == ScheduleEdit && Holds(s, u, Request(Tenant(x), Exclusive))
         else exists m :: Holds(s, u, Request(Tenant(x), m))
       case Row(r) => exists m :: Holds(s, u, Request(Row(r), m))
  }

  lemma {:induction false} HeldMode(s: System, tenantOf: string -> string, u: Tid, q: Request)
    requires AllTxns(s, tenantOf) && Holds(s, u, q)
    ensures q.mode == if s.txns[u].kind == ReservationWriter && q.resource.Tenant? then Shared else Exclusive
  {
    var k := HeldPosition(s.txns[u], q);
  }

  lemma {:induction false} NextMode(s: System, tenantOf: string -> string, t: Tid)
    requires AllTxns(s, tenantOf) && t in s.txns && s.txns[t].taken < |s.txns[t].script|
    ensures NextRequest(s, t).mode == if s.txns[t].kind == ReservationWriter && NextRequest(s, t).resource.Tenant? then Shared else Exclusive
  {
    assert NextRequest(s, t) in s.txns[t].script;
  }

  lemma {:induction false} GrantableIff(s: System, tenantOf: string -> string, t: Tid)
    requires AllTxns(s, tenantOf) && t in s.txns && s.txns[t].taken < |s.txns[t].script|
    ensures Grantable(s, t, NextRequest(s, t)) <==> forall u :: !KeepsFrom(s, t, u)
  {
    hide AllTxns, Held;
    var q := NextRequest(s, t);
    NextMode(s, tenantOf, t);
    forall u, m | Holds(s, u, Request(q.resource, m)) ensures m == if s.txns[u].kind == ReservationWriter && q.resource.Tenant? then Shared else Exclusive {
      HeldMode(s, tenantOf, u, Request(q.resource, m));
    }
    if Grantable(s, t, q) {
      forall u ensures !KeepsFrom(s, t, u) {
      }
    } else {
      var u, m :| u != t && Holds(s, u, Request(q.resource, m)) && Conflict(m, q.mode);
      assert KeepsFrom(s, t, u);
    }
  }

  /**
   * A lock is given exactly when nobody keeps the transaction from it: at once when nobody is
   * queued for it, and otherwise when it has come to the front. Bookings never keep each other
   * from their tenant's lock.
   */
  lemma {:induction false} GivenIff(s: System, tenantOf: string -> string, t: Tid)
    requires Inv(s, tenantOf) && Active(s, t) && s.txns[t].taken < |s.txns[t].script|
    ensures var q := NextRequest(s, t);
      && (!s.txns[t].waiting ==>
            (|Held(After(s, Ask(t), tenantOf).txns[t])| == s.txns[t].taken + 1 <==> QueueAt(s, q.resource) == [] && forall u :: !KeepsFrom(s, t, u)))
      && (s.txns[t].waiting && |QueueAt(s, q.resource)| > 0 && QueueAt(s, q.resource)[0] == t ==>
            (Enabled(s, Grant(q.resource), tenantOf) <==> forall u :: !KeepsFrom(s, t, u)))
  {
    hide Grantable, KeepsFrom, Conflict, IsWriterScript, IsEditScript;
    GrantableIff(s, tenantOf, t);
  }
}
