/**
 * `schedule-lock.ts` and `departure-lock.ts`, as a system of transactions that take locks
 * one at a time. Reservation writers take tenant locks shared, in ID order, and then
 * departure rows, in ID order. Schedule edits take their tenant's lock exclusive, and then
 * write that tenant's departure rows in any order they like. Every queue is first come,
 * first served.
 */
module LockProtocol {
  import opened Basics
  import opened Text

  type Tid = nat

  datatype Resource = Tenant(id: string) | Row(id: string)

  datatype Mode = Shared | Exclusive

  datatype Request = Request(resource: Resource, mode: Mode)

  datatype Kind = ReservationWriter | ScheduleEdit

  /** A transaction: the locks it will take, how many it has, and whether it waits for the next. */
  datatype Txn = Txn(kind: Kind, script: seq<Request>, taken: nat, waiting: bool, ended: bool)

  datatype System = System(txns: map<Tid, Txn>, queues: map<Resource, seq<Tid>>)

  // ---- The order of locks ----

  /** Every tenant lock before every row, and each kind by ID. */
  predicate Before(a: Resource, b: Resource) {
    match (a, b)
    case (Tenant(x), Tenant(y)) => StrLess(x, y)
    case (Row(x), Row(y)) => StrLess(x, y)
    case (Tenant(_), Row(_)) => true
    case (Row(_), Tenant(_)) => false
  }

  lemma {:induction false} BeforeIsOrder(a: Resource, b: Resource, c: Resource)
    ensures !Before(a, a)
    ensures Before(a, b) && Before(b, c) ==> Before(a, c)
    ensures Before(a, b) || a == b || Before(b, a)
  {
    StrLessTrichotomy(a.id, b.id);
    StrLessTrichotomy(a.id, a.id);
    if StrLess(a.id, b.id) && StrLess(b.id, c.id) {
      StrLessTransitive(a.id, b.id, c.id);
    }
  }

  predicate Conflict(a: Mode, b: Mode) {
    a == Exclusive || b == Exclusive
  }

  ghost predicate AscendingLocks(script: seq<Request>) {
    forall i, j :: 0 <= i < j < |script| ==> Before(script[i].resource, script[j].resource)
  }

  /** A row is only locked under its own tenant's lock. */
  ghost predicate IsWriterScript(script: seq<Request>, tenantOf: string -> string) {
    && AscendingLocks(script)
    && forall q :: q in script ==>
         match q.resource
         case Tenant(_) => q.mode == Shared
         case Row(r) => q.mode == Exclusive && Request(Tenant(tenantOf(r)), Shared) in script
  }

  ghost predicate IsEditScript(script: seq<Request>, tenantOf: string -> string) {
    && |script| > 0 && script[0].mode == Exclusive && script[0].resource.Tenant?
    && (forall i, j :: 0 <= i < j < |script| ==> script[i].resource != script[j].resource)
    && forall i :: 0 < i < |script| ==>
         script[i].mode == Exclusive && script[i].resource.Row? && Tenant(tenantOf(script[i].resource.id)) == script[0].resource
  }

  ghost predicate IsTxn(x: Txn, tenantOf: string -> string) {
    && x.taken <= |x.script|
    && (x.waiting ==> x.taken < |x.script| && !x.ended)
    && match x.kind
       case ReservationWriter => IsWriterScript(x.script, tenantOf)
       case ScheduleEdit => IsEditScript(x.script, tenantOf)
  }

  // ---- Who holds and who waits ----

  function Held(x: Txn): seq<Request> {
    if x.ended || x.taken > |x.script| then [] else x.script[..x.taken]
  }

  ghost predicate Active(s: System, t: Tid) {
    t in s.txns && !s.txns[t].ended
  }

  ghost predicate Holds(s: System, t: Tid, q: Request) {
    t in s.txns && q in Held(s.txns[t])
  }

  ghost predicate WaitsAt(s: System, t: Tid, r: Resource) {
    Active(s, t) && s.txns[t].waiting && s.txns[t].taken < |s.txns[t].script| && s.txns[t].script[s.txns[t].taken].resource == r
  }

  function QueueAt(s: System, r: Resource): seq<Tid> {
    if r in s.queues then s.queues[r] else []
  }

  /** No other transaction holds the resource in a conflicting mode. */
  ghost predicate Grantable(s: System, t: Tid, q: Request) {
    forall u, m :: u != t && Holds(s, u, Request(q.resource, m)) ==> !Conflict(m, q.mode)
  }

  // ---- Steps ----

  datatype Action =
    | Begin(t: Tid, txn: Txn)
    | Ask(t: Tid)
    | Grant(r: Resource)
    | Commit(t: Tid)
    | Abort(t: Tid)

  function NextRequest(s: System, t: Tid): Request
    requires t in s.txns && s.txns[t].taken < |s.txns[t].script|
  {
    s.txns[t].script[s.txns[t].taken]
  }

  ghost predicate Enabled(s: System, a: Action, tenantOf: string -> string) {
    match a
    case Begin(t, txn) => t !in s.txns && IsTxn(txn, tenantOf) && txn.taken == 0 && !txn.waiting && !txn.ended
    case Ask(t) => Active(s, t) && !s.txns[t].waiting && s.txns[t].taken < |s.txns[t].script|
    case Grant(r) =>
      && |QueueAt(s, r)| > 0 && WaitsAt(s, QueueAt(s, r)[0], r)
      && Grantable(s, QueueAt(s, r)[0], NextRequest(s, QueueAt(s, r)[0]))
    case Commit(t) => Active(s, t) && !s.txns[t].waiting && s.txns[t].taken == |s.txns[t].script|
    case Abort(t) => Active(s, t)
  }

  function Without(queue: seq<Tid>, t: Tid): seq<Tid> {
    if |queue| == 0 then []
    else if queue[0] == t then Without(queue[1..], t)
    else [queue[0]] + Without(queue[1..], t)
  }

  function TookNext(x: Txn): Txn {
    x.(taken := x.taken + 1, waiting := false)
  }

  /** A lock that is free, with nobody waiting for it, is taken at once. Otherwise the transaction joins the queue. */
  ghost function After(s: System, a: Action, tenantOf: string -> string): System
    requires Enabled(s, a, tenantOf)
  {
    match a
    case Begin(t, txn) => s.(txns := s.txns[t := txn])
    case Ask(t) =>
      var q := NextRequest(s, t);
      if QueueAt(s, q.resource) == [] && Grantable(s, t, q) then s.(txns := s.txns[t := TookNext(s.txns[t])])
      else
        System(s.txns[t := s.txns[t].(waiting := true)], s.queues[q.resource := QueueAt(s, q.resource) + [t]])
    case Grant(r) =>
      var t := QueueAt(s, r)[0];
      System(s.txns[t := TookNext(s.txns[t])], s.queues[r := QueueAt(s, r)[1..]])
    case Commit(t) => s.(txns := s.txns[t := s.txns[t].(ended := true)])
    case Abort(t) =>
      System(s.txns[t := s.txns[t].(ended := true, waiting := false)], map r | r in s.queues :: Without(s.queues[r], t))
  }

  // ---- The invariant ----

  /** Two transactions never hold one resource in conflicting modes. */
  ghost predicate Compatible(s: System) {
    forall t, u, r, m, n :: t != u && Holds(s, t, Request(r, m)) && Holds(s, u, Request(r, n)) ==> !Conflict(m, n)
  }

  ghost predicate Queued(s: System) {
    && (forall r, t :: t in QueueAt(s, r) <==> WaitsAt(s, t, r))
    && forall r :: Distinct(QueueAt(s, r))
  }

  ghost predicate AllTxns(s: System, tenantOf: string -> string) {
    forall t :: t in s.txns ==> IsTxn(s.txns[t], tenantOf)
  }

  ghost predicate Inv(s: System, tenantOf: string -> string) {
    AllTxns(s, tenantOf) && Compatible(s) && Queued(s)
  }

  const START := System(map[], map[])

  lemma {:induction false} StartInv(tenantOf: string -> string)
    ensures Inv(START, tenantOf)
  {
  }

  lemma {:induction false} WithoutExactly(queue: seq<Tid>, t: Tid)
    ensures forall u :: u in Without(queue, t) <==> u in queue && u != t
    ensures Distinct(queue) ==> Distinct(Without(queue, t))
  {
    if |queue| > 0 {
      var rest := queue[1..];
      assert queue == [queue[0]] + rest;
      WithoutExactly(rest, t);
      if Distinct(queue) {
        assert forall i :: 0 <= i < |rest| ==> rest[i] == queue[i + 1];
        if queue[0] != t {
          var w := Without(rest, t);
          forall i | 0 <= i < |w| ensures w[i] != queue[0] {
            assert w[i] in w;
          }
        }
      }
    }
  }

  /** The transaction a step gives its next lock to. */
  ghost predicate Takes(s: System, a: Action, u: Tid) {
    && u in s.txns && !s.txns[u].ended && s.txns[u].taken < |s.txns[u].script|
    && match a
       case Ask(t) => u == t && QueueAt(s, NextRequest(s, t).resource) == [] && Grantable(s, t, NextRequest(s, t))
       case Grant(r) => |QueueAt(s, r)| > 0 && u == QueueAt(s, r)[0]
       case _ => false
  }

  ghost predicate Ends(a: Action, u: Tid) {
    (a.Commit? && a.t == u) || (a.Abort? && a.t == u)
  }

  /** What one transaction holds after a step. */
  lemma {:induction false} HeldAfter(s: System, a: Action, tenantOf: string -> string, u: Tid)
    requires AllTxns(s, tenantOf) && Enabled(s, a, tenantOf) && u in After(s, a, tenantOf).txns
    ensures Held(After(s, a, tenantOf).txns[u]) ==
      if u !in s.txns || Ends(a, u) then []
      else if Takes(s, a, u) then Held(s.txns[u]) + [NextRequest(s, u)]
      else Held(s.txns[u])
  {
    hide Grantable, IsWriterScript, IsEditScript;
    if Takes(s, a, u) {
      var x := s.txns[u];
      assert x.script[..x.taken + 1] == x.script[..x.taken] + [x.script[x.taken]];
    }
  }

  lemma {:induction false} TakesIsGrantable(s: System, a: Action, tenantOf: string -> string, u: Tid)
    requires Enabled(s, a, tenantOf) && Takes(s, a, u)
    ensures Grantable(s, u, NextRequest(s, u))
  {
    hide Grantable;
  }

  lemma {:induction false} GrantIsCompatible(s: System, a: Action, tenantOf: string -> string, t: Tid, u: Tid, q: Request, p: Request)
    requires Inv(s, tenantOf) && Enabled(s, a, tenantOf) && t != u && Takes(s, a, t) && q == NextRequest(s, t)
    requires Holds(s, u, p) && p.resource == q.resource
    ensures !Conflict(q.mode, p.mode)
  {
    hide Held, Enabled, Takes, Inv, Holds;
    TakesIsGrantable(s, a, tenantOf, t);
    assert p == Request(q.resource, p.mode);
  }

  lemma {:induction false} CompatibleStays(s: System, a: Action, tenantOf: string -> string)
    requires Inv(s, tenantOf) && Enabled(s, a, tenantOf)
    ensures Compatible(After(s, a, tenantOf))
  {
    hide After, Enabled, Held, Takes, Queued, IsTxn;
    var v := After(s, a, tenantOf);
    forall t, u, r, m, n | t != u && Holds(v, t, Request(r, m)) && Holds(v, u, Request(r, n)) ensures !Conflict(m, n) {
      var p, q := Request(r, m), Request(r, n);
      HeldAfter(s, a, tenantOf, t);
      HeldAfter(s, a, tenantOf, u);
      OneTakes(s, a, t, u);
      if Holds(s, t, p) && Holds(s, u, q) {
      } else if Takes(s, a, t) {
        GrantIsCompatible(s, a, tenantOf, t, u, p, q);
      } else {
        GrantIsCompatible(s, a, tenantOf, u, t, q, p);
      }
    }
  }

  lemma {:induction false} OneTakes(s: System, a: Action, t: Tid, u: Tid)
    ensures Takes(s, a, t) && Takes(s, a, u) ==> t == u
  {
    hide Grantable;
  }

  lemma {:induction false} TxnsStay(s: System, a: Action, tenantOf: string -> string)
    requires AllTxns(s, tenantOf) && Enabled(s, a, tenantOf)
    ensures AllTxns(After(s, a, tenantOf), tenantOf)
  {
    hide Grantable, IsWriterScript, IsEditScript;
  }

  lemma {:induction false} QueuedStays(s: System, a: Action, tenantOf: string -> string)
    requires Inv(s, tenantOf) && Enabled(s, a, tenantOf)
    ensures Queued(After(s, a, tenantOf))
  {
    hide After, Enabled, Compatible, AllTxns, WaitsAt, QueueAt, Distinct;
    var v := After(s, a, tenantOf);
    forall r ensures (forall t :: t in QueueAt(v, r) <==> WaitsAt(v, t, r)) && Distinct(QueueAt(v, r)) {
      match a
      case Ask(t) => JoinsQueue(s, tenantOf, t, r);
      case Grant(x) => LeavesQueue(s, tenantOf, x, r);
      case Abort(t) => DropsOut(s, tenantOf, t, r);
      case Begin(_, _) => KeepsQueue(s, tenantOf, a, r);
      case Commit(_) => KeepsQueue(s, tenantOf, a, r);
    }
  }

  lemma {:induction false} KeepsQueue(s: System, tenantOf: string -> string, a: Action, r: Resource)
    requires Queued(s) && Enabled(s, a, tenantOf) && (a.Begin? || a.Commit?)
    ensures var v := After(s, a, tenantOf);
      (forall u :: u in QueueAt(v, r) <==> WaitsAt(v, u, r)) && Distinct(QueueAt(v, r))
  {
    hide Grantable, IsWriterScript, IsEditScript;
    var v := After(s, a, tenantOf);
    forall u ensures u in QueueAt(v, r) <==> WaitsAt(v, u, r) {
      assert u in QueueAt(s, r) <==> WaitsAt(s, u, r);
    }
    assert Distinct(QueueAt(s, r));
  }

  lemma {:induction false} DropsOut(s: System, tenantOf: string -> string, t: Tid, r: Resource)
    requires Queued(s) && Enabled(s, Abort(t), tenantOf)
    ensures var v := After(s, Abort(t), tenantOf);
      (forall u :: u in QueueAt(v, r) <==> WaitsAt(v, u, r)) && Distinct(QueueAt(v, r))
  {
    var v := After(s, Abort(t), tenantOf);
    WithoutExactly(QueueAt(s, r), t);
    assert QueueAt(v, r) == Without(QueueAt(s, r), t);
    forall u ensures u in QueueAt(v, r) <==> WaitsAt(v, u, r) {
      assert u in QueueAt(s, r) <==> WaitsAt(s, u, r);
    }
    assert Distinct(QueueAt(s, r));
  }

  lemma {:induction false} JoinsQueue(s: System, tenantOf: string -> string, t: Tid, r: Resource)
    requires Queued(s) && AllTxns(s, tenantOf) && Enabled(s, Ask(t), tenantOf)
    ensures var v := After(s, Ask(t), tenantOf);
      (forall u :: u in QueueAt(v, r) <==> WaitsAt(v, u, r)) && Distinct(QueueAt(v, r))
  {
    hide Grantable, IsWriterScript, IsEditScript, Held;
    var v := After(s, Ask(t), tenantOf);
    var q := NextRequest(s, t);
    assert t !in QueueAt(s, r);
    forall u ensures u in QueueAt(v, r) <==> WaitsAt(v, u, r) {
      assert u in QueueAt(s, r) <==> WaitsAt(s, u, r);
    }
  }

  lemma {:induction false} LeavesQueue(s: System, tenantOf: string -> string, x: Resource, r: Resource)
    requires Queued(s) && AllTxns(s, tenantOf) && Enabled(s, Grant(x), tenantOf)
    ensures var v := After(s, Grant(x), tenantOf);
      (forall u :: u in QueueAt(v, r) <==> WaitsAt(v, u, r)) && Distinct(QueueAt(v, r))
  {
    hide Grantable, IsWriterScript, IsEditScript, Held;
    var v := After(s, Grant(x), tenantOf);
    var t := QueueAt(s, x)[0];
    assert QueueAt(s, x) == [t] + QueueAt(s, x)[1..];
    forall u ensures u in QueueAt(v, r) <==> WaitsAt(v, u, r) {
      assert u in QueueAt(s, r) <==> WaitsAt(s, u, r);
    }
  }

  /** Every step keeps the invariant. */
  lemma {:induction false} StepInv(s: System, a: Action, tenantOf: string -> string)
    requires Inv(s, tenantOf) && Enabled(s, a, tenantOf)
    ensures Inv(After(s, a, tenantOf), tenantOf)
  {
    hide After, Enabled, AllTxns, Compatible, Queued;
    TxnsStay(s, a, tenantOf);
    CompatibleStays(s, a, tenantOf);
    QueuedStays(s, a, tenantOf);
  }

  ghost predicate IsRun(s: System, actions: seq<Action>, tenantOf: string -> string)
    decreases |actions|
  {
    |actions| == 0 || (Enabled(s, actions[0], tenantOf) && IsRun(After(s, actions[0], tenantOf), actions[1..], tenantOf))
  }

  ghost function AfterRun(s: System, actions: seq<Action>, tenantOf: string -> string): System
    requires IsRun(s, actions, tenantOf)
    decreases |actions|
  {
    if |actions| == 0 then s else AfterRun(After(s, actions[0], tenantOf), actions[1..], tenantOf)
  }

  lemma {:induction false} RunInv(s: System, actions: seq<Action>, tenantOf: string -> string)
    requires Inv(s, tenantOf) && IsRun(s, actions, tenantOf)
    ensures Inv(AfterRun(s, actions, tenantOf), tenantOf)
    decreases |actions|
  {
    hide Inv, After, Enabled;
    if |actions| > 0 {
      StepInv(s, actions[0], tenantOf);
      RunInv(After(s, actions[0], tenantOf), actions[1..], tenantOf);
    }
  }
}
