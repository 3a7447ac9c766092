/**
 * Refresh-token rotation in `auth.service.ts`, as requests that interleave. A request first
 * reads its session; a later statement revokes the session only while it is still live, and
 * a refresh creates the next session in that same transaction. An administrator's password reset
 * revokes every live session of a user in one statement.
 */
module RefreshSessions {
  import opened Basics
  import opened Timetable

  /** A token's digest stands for the token. */
  type Digest = string

  datatype Session = Session(tenantId: Id, userId: Id, digest: Digest, expiresAt: int, revokedAt: Option<int>)

  datatype Refusal = TOKEN_INVALID | TOKEN_REVOKED | TOKEN_EXPIRED | USER_INACTIVE | PASSWORD_CHANGE_REQUIRED

  datatype User = User(isActive: bool, requirePasswordChange: bool)

  // ---- The statements ----

  /** `findUnique` on the digest. */
  ghost predicate Finds(sessions: map<Id, Session>, digest: Digest, found: Option<Id>) {
    match found
    case None => forall s :: s in sessions ==> sessions[s].digest != digest
    case Some(s) => s in sessions && sessions[s].digest == digest
  }

  /** What a refresh refuses from the row it read. */
  function RefreshRefused(session: Session, tenantId: Id, user: User, now: int): Option<Refusal> {
    if session.tenantId != tenantId then Some(TOKEN_INVALID)
    else if session.revokedAt.Some? then Some(TOKEN_REVOKED)
    else if session.expiresAt <= now then Some(TOKEN_EXPIRED)
    else if !user.isActive then Some(USER_INACTIVE)
    else if user.requirePasswordChange then Some(PASSWORD_CHANGE_REQUIRED)
    else None
  }

  predicate Live(sessions: map<Id, Session>, s: Id) {
    s in sessions && sessions[s].revokedAt.None?
  }

  /** The rows a refresh's conditional update matches: one, or none. */
  predicate Rotatable(sessions: map<Id, Session>, s: Id, now: int) {
    Live(sessions, s) && sessions[s].expiresAt > now
  }

  function Revoked(sessions: map<Id, Session>, s: Id, now: int): map<Id, Session>
    requires s in sessions
  {
    sessions[s := sessions[s].(revokedAt := Some(now))]
  }

  /** The live sessions of a user. */
  function SessionsOf(sessions: map<Id, Session>, tenantId: Id, userId: Id): set<Id> {
    set s | s in sessions && sessions[s].tenantId == tenantId && sessions[s].userId == userId && sessions[s].revokedAt.None?
  }

  function RevokedAll(sessions: map<Id, Session>, gone: set<Id>, now: int): map<Id, Session> {
    map s | s in sessions :: if s in gone then sessions[s].(revokedAt := Some(now)) else sessions[s]
  }

  class SessionTable {
    var sessions: map<Id, Session>

    constructor ()
      ensures sessions == map[]
    {
      sessions := map[];
    }

    /** The transaction of a refresh: a conditional revoke that must match one row, then the next session. */
    method Rotate(s: Id, now: int, next: Id, digest: Digest, expiresAt: int) returns (rotated: bool)
      requires next !in sessions
      modifies this
      ensures rotated <==> s in old(sessions) && old(sessions)[s].revokedAt == None && old(sessions)[s].expiresAt > now
      ensures rotated ==> sessions == old(sessions)[s := old(sessions)[s].(revokedAt := Some(now))]
                                                   [next := Session(old(sessions)[s].tenantId, old(sessions)[s].userId, digest, expiresAt, None)]
      ensures !rotated ==> sessions == old(sessions)
    {
      var matched := set x | x in sessions && x == s && sessions[x].revokedAt.None? && sessions[x].expiresAt > now;
      sessions := map x | x in sessions :: if x in matched then sessions[x].(revokedAt := Some(now)) else sessions[x];
      if |matched| != 1 {
        OneOrNone(old(sessions), s, now, matched);
        return false;
      }
      OneOrNone(old(sessions), s, now, matched);
      sessions := sessions[next := Session(sessions[s].tenantId, sessions[s].userId, digest, expiresAt, None)];
      return true;
    }

    /** The update of a logout: by digest, and whether or not the session has expired. */
    method Logout(tenantId: Id, digest: Digest, now: int, ghost s: Id) returns (revoked: bool)
      requires s in sessions && sessions[s].digest == digest && sessions[s].tenantId == tenantId && UniqueDigests(sessions)
      modifies this
      ensures revoked <==> old(sessions)[s].revokedAt == None
      ensures sessions == if revoked then old(sessions)[s := old(sessions)[s].(revokedAt := Some(now))] else old(sessions)
    {
      var matched := set x | x in sessions && sessions[x].tenantId == tenantId && sessions[x].digest == digest && sessions[x].revokedAt.None?;
      assert matched == if Live(sessions, s) then {s} else {};
      sessions := map x | x in sessions :: if x in matched then sessions[x].(revokedAt := Some(now)) else sessions[x];
      return |matched| == 1;
    }
  }

  lemma {:induction false} OneOrNone(sessions: map<Id, Session>, s: Id, now: int, matched: set<Id>)
    requires matched == set x | x in sessions && x == s && sessions[x].revokedAt.None? && sessions[x].expiresAt > now
    ensures matched == if Rotatable(sessions, s, now) then {s} else {}
    ensures |matched| == 1 <==> Rotatable(sessions, s, now)
  {
  }

  ghost predicate UniqueDigests(sessions: map<Id, Session>) {
    forall a, b :: a in sessions && b in sessions && sessions[a].digest == sessions[b].digest ==> a == b
  }

  // ---- Requests that interleave ----

  /** A request between its read and its write. */
  datatype Pending = Refreshing(session: Id) | LoggingOut(session: Id)

  /** What has succeeded so far. */
  datatype Event = LoggedIn(session: Id) | Rotated(session: Id, next: Id) | LoggedOut(session: Id) | PasswordReset(revoked: set<Id>)

  datatype State = State(sessions: map<Id, Session>, pending: map<nat, Pending>, log: seq<Event>)

  datatype Step =
    | Login(next: Id, session: Session)
    | ReadRefresh(request: nat, found: Option<Id>, digest: Digest, tenantId: Id, user: User, now: int)
    | Exchange(request: nat, now: int, next: Id, digest: Digest, expiresAt: int)
    | ReadLogout(request: nat, found: Option<Id>, digest: Digest, tenantId: Id)
    | Leave(request: nat, now: int)
    | GiveUp(request: nat)
    | ResetPassword(tenantId: Id, userId: Id, now: int)

  /** IDs and tokens are random: a new one is not one stored already. */
  ghost predicate Enabled(s: State, step: Step) {
    match step
    case Login(next, session) =>
      next !in s.sessions && session.revokedAt.None? && forall x :: x in s.sessions ==> s.sessions[x].digest != session.digest
    case ReadRefresh(request, found, digest, _, _, _) => request !in s.pending && Finds(s.sessions, digest, found)
    case Exchange(request, _, next, digest, _) =>
      request in s.pending && s.pending[request].Refreshing? && next !in s.sessions
      && forall x :: x in s.sessions ==> s.sessions[x].digest != digest
    case ReadLogout(request, found, digest, _) => request !in s.pending && Finds(s.sessions, digest, found)
    case Leave(request, _) => request in s.pending && s.pending[request].LoggingOut?
    case GiveUp(request) => request in s.pending
    case ResetPassword(_, _, _) => true
  }

  function Closed(s: State, request: nat): State {
    s.(pending := s.pending - {request})
  }

  function After(s: State, step: Step): State {
    match step
    case Login(next, session) => s.(sessions := s.sessions[next := session], log := s.log + [LoggedIn(next)])
    case ReadRefresh(request, found, _, tenantId, user, now) =>
      if found.None? || found.value !in s.sessions || RefreshRefused(s.sessions[found.value], tenantId, user, now).Some? then s
      else s.(pending := s.pending[request := Refreshing(found.value)])
    case Exchange(request, now, next, digest, expiresAt) =>
      if request !in s.pending then s
      else
        var x := s.pending[request].session;
        if Rotatable(s.sessions, x, now) then
          Closed(s, request).(
            sessions := Revoked(s.sessions, x, now)[next := Session(s.sessions[x].tenantId, s.sessions[x].userId, digest, expiresAt, None)],
            log := s.log + [Rotated(x, next)])
        else Closed(s, request)
    case ReadLogout(request, found, _, tenantId) =>
      if found.None? || found.value !in s.sessions || s.sessions[found.value].tenantId != tenantId then s
      else s.(pending := s.pending[request := LoggingOut(found.value)])
    case Leave(request, now) =>
      if request !in s.pending then s
      else
        var x := s.pending[request].session;
        if Live(s.sessions, x) then Closed(s, request).(sessions := Revoked(s.sessions, x, now), log := s.log + [LoggedOut(x)])
        else Closed(s, request)
    case GiveUp(request) => Closed(s, request)
    case ResetPassword(tenantId, userId, now) =>
      var revoked := SessionsOf(s.sessions, tenantId, userId);
      s.(sessions := RevokedAll(s.sessions, revoked, now), log := s.log + [PasswordReset(revoked)])
  }

  /** A refresh gets as far as its transaction exactly for the tenant's own live, unexpired session of a user in good standing. */
  lemma {:induction false} ReadAdmitsIff(s: State, request: nat, found: Option<Id>, digest: Digest, tenantId: Id, user: User, now: int)
    requires Enabled(s, ReadRefresh(request, found, digest, tenantId, user, now))
    ensures request in After(s, ReadRefresh(request, found, digest, tenantId, user, now)).pending <==>
      exists x :: Live(s.sessions, x) && s.sessions[x].digest == digest && s.sessions[x].tenantId == tenantId && s.sessions[x].expiresAt > now
        && found == Some(x) && user.isActive && !user.requirePasswordChange
    ensures After(s, ReadRefresh(request, found, digest, tenantId, user, now)).sessions == s.sessions
  {
    if found.Some? && Live(s.sessions, found.value) {
      var x := found.value;
      assert s.sessions[x].digest == digest;
    }
  }

  /** Which refusal a refresh gets from the row it read: the first that applies. */
  lemma {:induction false} RefreshRefusedFor(x: Session, tenantId: Id, user: User, now: int, reason: Refusal)
    ensures RefreshRefused(x, tenantId, user, now) == Some(reason) <==>
      && (reason == TOKEN_INVALID <==> x.tenantId != tenantId)
      && (reason == TOKEN_REVOKED <==> x.tenantId == tenantId && x.revokedAt != None)
      && (reason == TOKEN_EXPIRED <==> x.tenantId == tenantId && x.revokedAt == None && x.expiresAt <= now)
      && (reason == USER_INACTIVE <==> x.tenantId == tenantId && x.revokedAt == None && x.expiresAt > now && !user.isActive)
      && (reason == PASSWORD_CHANGE_REQUIRED <==>
            x.tenantId == tenantId && x.revokedAt == None && x.expiresAt > now && user.isActive && user.requirePasswordChange)
  {
  }

  /** The transaction of a refresh: exchanged exactly while its session is live and unexpired, whatever was read before; otherwise nothing is written. */
  lemma {:induction false} ExchangeMeans(s: State, request: nat, now: int, next: Id, digest: Digest, expiresAt: int)
    requires Enabled(s, Exchange(request, now, next, digest, expiresAt)) && s.pending[request].session in s.sessions
    ensures var t := After(s, Exchange(request, now, next, digest, expiresAt));
      var x := s.pending[request].session;
      var row := s.sessions[x];
      && t.pending == s.pending - {request}
      && if row.revokedAt == None && row.expiresAt > now then
           t.sessions == s.sessions[x := row.(revokedAt := Some(now))][next := Session(row.tenantId, row.userId, digest, expiresAt, None)]
           && t.log == s.log + [Rotated(x, next)]
         else t.sessions == s.sessions && t.log == s.log
  {
  }

  /** A logout: admitted for the tenant's own session, live or not, and then revoking it exactly while it is live. */
  lemma {:induction false} LogoutMeans(s: State, request: nat, found: Option<Id>, digest: Digest, tenantId: Id, now: int)
    requires found.Some? ==> found.value in s.sessions
    ensures var t := After(s, ReadLogout(request, found, digest, tenantId));
      t == if found != None && s.sessions[found.value].tenantId == tenantId then s.(pending := s.pending[request := LoggingOut(found.value)]) else s
    ensures request in s.pending && s.pending[request].session in s.sessions ==>
      var t := After(s, Leave(request, now));
      var x := s.pending[request].session;
      && t.pending == s.pending - {request}
      && if s.sessions[x].revokedAt == None then t.sessions == s.sessions[x := s.sessions[x].(revokedAt := Some(now))] && t.log == s.log + [LoggedOut(x)]
         else t.sessions == s.sessions && t.log == s.log
  {
  }

  /** A password reset revokes the user's own live sessions, and leaves every other session as it is. */
  lemma {:induction false} ResetMeans(s: State, tenantId: Id, userId: Id, now: int)
    ensures var t := After(s, ResetPassword(tenantId, userId, now));
      && t.sessions.Keys == s.sessions.Keys && t.pending == s.pending
      && forall x :: x in s.sessions ==>
           var mine := s.sessions[x].tenantId == tenantId && s.sessions[x].userId == userId && s.sessions[x].revokedAt == None;
           t.sessions[x] == if mine then s.sessions[x].(revokedAt := Some(now)) else s.sessions[x]
  {
  }

  // ---- What the log says of the sessions ----

  predicate Consumes(e: Event, s: Id) {
    match e
    case LoggedIn(_) => false
    case Rotated(x, _) => x == s
    case LoggedOut(x) => x == s
    case PasswordReset(revoked) => s in revoked
  }

  predicate Creates(e: Event, s: Id) {
    match e
    case LoggedIn(x) => x == s
    case Rotated(_, next) => next == s
    case LoggedOut(_) => false
    case PasswordReset(_) => false
  }

  function Logins(log: seq<Event>): nat {
    if |log| == 0 then 0 else Logins(log[..|log| - 1]) + if log[|log| - 1].LoggedIn? then 1 else 0
  }

  function Logouts(log: seq<Event>): nat {
    if |log| == 0 then 0 else Logouts(log[..|log| - 1]) + if log[|log| - 1].LoggedOut? then 1 else 0
  }

  /** How many sessions password resets have revoked. */
  function ResetAway(log: seq<Event>): nat {
    if |log| == 0 then 0
    else ResetAway(log[..|log| - 1]) + match log[|log| - 1] case PasswordReset(revoked) => |revoked| case _ => 0
  }

  function LiveSessions(sessions: map<Id, Session>): set<Id> {
    set s | s in sessions && sessions[s].revokedAt.None?
  }

  /** No session is consumed by two events. */
  ghost predicate ConsumedOnce(log: seq<Event>) {
    forall i, j, s :: 0 <= i < j < |log| && Consumes(log[i], s) ==> !Consumes(log[j], s)
  }

  ghost predicate CreatedOnce(log: seq<Event>) {
    forall i, j, s :: 0 <= i < j < |log| && Creates(log[i], s) ==> !Creates(log[j], s)
  }

  ghost predicate Explained(s: State) {
    && (forall x :: x in s.sessions <==> exists e :: e in s.log && Creates(e, x))
    && (forall x :: x in s.sessions ==> (s.sessions[x].revokedAt.Some? <==> exists e :: e in s.log && Consumes(e, x)))
    && (forall x, e :: e in s.log && Consumes(e, x) ==> x in s.sessions)
  }

  /** The sessions are what the log explains, each consumed at most once, and live ones are logins less logouts and resets. */
  ghost predicate Inv(s: State) {
    && UniqueDigests(s.sessions) && ConsumedOnce(s.log) && CreatedOnce(s.log) && Explained(s)
    && (forall r :: r in s.pending ==> s.pending[r].session in s.sessions)
    && |LiveSessions(s.sessions)| + Logouts(s.log) + ResetAway(s.log) == Logins(s.log)
  }

  const START := State(map[], map[], [])

  lemma {:induction false} StartInv()
    ensures Inv(START)
  {
    assert LiveSessions(START.sessions) == {};
  }

  // ---- Appending one event ----

  lemma {:induction false} Counted(log: seq<Event>, e: Event)
    ensures Logins(log + [e]) == Logins(log) + if e.LoggedIn? then 1 else 0
    ensures Logouts(log + [e]) == Logouts(log) + if e.LoggedOut? then 1 else 0
    ensures ResetAway(log + [e]) == ResetAway(log) + if e.PasswordReset? then |e.revoked| else 0
  {
    assert (log + [e])[..|log|] == log;
  }

  lemma {:induction false} AppendOnce(log: seq<Event>, e: Event)
    requires ConsumedOnce(log) && CreatedOnce(log)
    requires forall x, f :: f in log && Consumes(e, x) ==> !Consumes(f, x)
    requires forall x, f :: f in log && Creates(e, x) ==> !Creates(f, x)
    ensures ConsumedOnce(log + [e]) && CreatedOnce(log + [e])
  {
    var all := log + [e];
    assert forall i :: 0 <= i < |log| ==> all[i] == log[i] && all[i] in log;
  }

  lemma {:induction false} ExplainedMore(s: State, t: State, e: Event)
    requires Explained(s) && t.log == s.log + [e]
    requires forall x :: x in t.sessions <==> x in s.sessions || Creates(e, x)
    requires forall x :: Creates(e, x) ==> x !in s.sessions && t.sessions[x].revokedAt.None?
    requires forall x :: x in s.sessions ==> (t.sessions[x].revokedAt.Some? <==> s.sessions[x].revokedAt.Some? || Consumes(e, x))
    requires forall x :: Consumes(e, x) ==> x in s.sessions
    ensures Explained(t)
  {
    hide Creates, Consumes;
    assert forall f :: f in t.log <==> f in s.log || f == e;
    forall x | x in t.sessions
      ensures t.sessions[x].revokedAt.Some? <==> exists f :: f in t.log && Consumes(f, x)
    {
      if f :| f in t.log && Consumes(f, x) {
        assert f in s.log || f == e;
      }
      if x in s.sessions && s.sessions[x].revokedAt.Some? {
        var f :| f in s.log && Consumes(f, x);
        assert f in t.log;
      }
    }
    forall x ensures x in t.sessions <==> exists f :: f in t.log && Creates(f, x) {
      if x in s.sessions {
        var f :| f in s.log && Creates(f, x);
        assert f in t.log;
      }
      if f :| f in t.log && Creates(f, x) {
        assert f in s.log || f == e;
      }
    }
  }

  lemma {:induction false} NotConsumed(s: State, x: Id)
    requires Explained(s) && Live(s.sessions, x)
    ensures forall e :: e in s.log ==> !Consumes(e, x)
  {
    hide Consumes, Creates;
  }

  lemma {:induction false} NotCreated(s: State, x: Id)
    requires Explained(s) && x !in s.sessions
    ensures forall e :: e in s.log ==> !Creates(e, x)
  {
    hide Consumes, Creates;
  }

  /** An event that consumes only live sessions and creates only new ones repeats none before it. */
  lemma {:induction false} NothingTwice(s: State, e: Event)
    requires Explained(s) && ConsumedOnce(s.log) && CreatedOnce(s.log)
    requires forall x :: Creates(e, x) ==> x !in s.sessions
    requires forall x :: Consumes(e, x) ==> Live(s.sessions, x)
    ensures ConsumedOnce(s.log + [e]) && CreatedOnce(s.log + [e])
  {
    hide Consumes, Creates, ConsumedOnce, CreatedOnce, Explained;
    forall x | Consumes(e, x) ensures forall f :: f in s.log ==> !Consumes(f, x) {
      NotConsumed(s, x);
    }
    forall x | Creates(e, x) ensures forall f :: f in s.log ==> !Creates(f, x) {
      NotCreated(s, x);
    }
    AppendOnce(s.log, e);
  }

  lemma {:induction false} CountedAlone(log: seq<Event>, e: Event)
    ensures Logins(log + [e]) == Logins(log) + Logins([e])
    ensures Logouts(log + [e]) == Logouts(log) + Logouts([e])
    ensures ResetAway(log + [e]) == ResetAway(log) + ResetAway([e])
  {
    Counted(log, e);
    Counted([], e);
    assert [] + [e] == [e];
  }

  /** One event more, and the sessions it says. */
  lemma {:induction false} EventKeeps(s: State, t: State, e: Event)
    requires Inv(s) && t.log == s.log + [e] && UniqueDigests(t.sessions)
    requires forall x :: x in t.sessions <==> x in s.sessions || Creates(e, x)
    requires forall x :: Creates(e, x) ==> x !in s.sessions && t.sessions[x].revokedAt.None?
    requires forall x :: x in s.sessions ==> (t.sessions[x].revokedAt.Some? <==> s.sessions[x].revokedAt.Some? || Consumes(e, x))
    requires forall x :: Consumes(e, x) ==> Live(s.sessions, x)
    requires forall r :: r in t.pending ==> t.pending[r].session in s.sessions
    requires |LiveSessions(t.sessions)| + Logouts([e]) + ResetAway([e]) == |LiveSessions(s.sessions)| + Logins([e])
    ensures Inv(t)
  {
    hide Consumes, Creates, ConsumedOnce, CreatedOnce, Explained, UniqueDigests, LiveSessions, Logins, Logouts, ResetAway;
    NothingTwice(s, e);
    ExplainedMore(s, t, e);
    CountedAlone(s.log, e);
  }

  lemma {:induction false} LiveChanges(s: map<Id, Session>, t: map<Id, Session>, gone: set<Id>, made: set<Id>)
    requires forall x :: x in t <==> x in s || x in made
    requires forall x :: x in made ==> x !in s && t[x].revokedAt.None?
    requires forall x :: x in s ==> (t[x].revokedAt.None? <==> s[x].revokedAt.None? && x !in gone)
    requires forall x :: x in gone ==> Live(s, x)
    ensures |LiveSessions(t)| == |LiveSessions(s)| - |gone| + |made|
  {
    assert LiveSessions(t) == (LiveSessions(s) - gone) + made;
    assert gone <= LiveSessions(s);
    assert LiveSessions(s) == (LiveSessions(s) - gone) + gone;
  }

  // ---- Every step keeps it ----

  lemma {:induction false} LoginKeeps(s: State, next: Id, session: Session)
    requires Inv(s) && Enabled(s, Login(next, session))
    ensures Inv(After(s, Login(next, session)))
  {
    hide ConsumedOnce, CreatedOnce, Explained, LiveSessions;
    var t := After(s, Login(next, session));
    LiveChanges(s.sessions, t.sessions, {}, {next});
    EventKeeps(s, t, LoggedIn(next));
  }

  lemma {:induction false} ClosedKeeps(s: State, request: nat)
    requires Inv(s)
    ensures Inv(Closed(s, request))
  {
  }

  lemma {:induction false} ExchangedDigests(sessions: map<Id, Session>, x: Id, now: int, next: Id, session: Session)
    requires UniqueDigests(sessions) && x in sessions && forall y :: y in sessions ==> sessions[y].digest != session.digest
    ensures UniqueDigests(Revoked(sessions, x, now)[next := session])
  {
  }

  lemma {:induction false} ExchangeKeeps(s: State, request: nat, now: int, next: Id, digest: Digest, expiresAt: int)
    requires Inv(s) && Enabled(s, Exchange(request, now, next, digest, expiresAt))
    ensures Inv(After(s, Exchange(request, now, next, digest, expiresAt)))
  {
    hide ConsumedOnce, CreatedOnce, Explained, LiveSessions, UniqueDigests;
    var t := After(s, Exchange(request, now, next, digest, expiresAt));
    var x := s.pending[request].session;
    if Rotatable(s.sessions, x, now) {
      ExchangedDigests(s.sessions, x, now, next, Session(s.sessions[x].tenantId, s.sessions[x].userId, digest, expiresAt, None));
      LiveChanges(s.sessions, t.sessions, {x}, {next});
      EventKeeps(s, t, Rotated(x, next));
    } else {
      ClosedKeeps(s, request);
    }
  }

  lemma {:induction false} LeaveKeeps(s: State, request: nat, now: int)
    requires Inv(s) && Enabled(s, Leave(request, now))
    ensures Inv(After(s, Leave(request, now)))
  {
    hide ConsumedOnce, CreatedOnce, Explained, LiveSessions;
    var t := After(s, Leave(request, now));
    var x := s.pending[request].session;
    if Live(s.sessions, x) {
      LiveChanges(s.sessions, t.sessions, {x}, {});
      EventKeeps(s, t, LoggedOut(x));
    } else {
      ClosedKeeps(s, request);
    }
  }

  lemma {:induction false} ResetKeeps(s: State, tenantId: Id, userId: Id, now: int)
    requires Inv(s)
    ensures Inv(After(s, ResetPassword(tenantId, userId, now)))
  {
    hide ConsumedOnce, CreatedOnce, Explained, LiveSessions;
    var t := After(s, ResetPassword(tenantId, userId, now));
    var revoked := SessionsOf(s.sessions, tenantId, userId);
    LiveChanges(s.sessions, t.sessions, revoked, {});
    EventKeeps(s, t, PasswordReset(revoked));
  }

  lemma {:induction false} StepKeeps(s: State, step: Step)
    requires Inv(s) && Enabled(s, step)
    ensures Inv(After(s, step))
  {
    match step
    case Login(next, session) => LoginKeeps(s, next, session);
    case Exchange(request, now, next, digest, expiresAt) => ExchangeKeeps(s, request, now, next, digest, expiresAt);
    case Leave(request, now) => LeaveKeeps(s, request, now);
    case ReadRefresh(_, _, _, _, _, _) =>
    case ReadLogout(_, _, _, _) =>
    case GiveUp(_) =>
    case ResetPassword(tenantId, userId, now) => ResetKeeps(s, tenantId, userId, now);
  }

  ghost predicate IsRun(s: State, steps: seq<Step>)
    decreases |steps|
  {
    |steps| == 0 || (Enabled(s, steps[0]) && IsRun(After(s, steps[0]), steps[1..]))
  }

  function AfterRun(s: State, steps: seq<Step>): State
    decreases |steps|
  {
    if |steps| == 0 then s else AfterRun(After(s, steps[0]), steps[1..])
  }

  /**
   * Under any interleaving of reads and writes: no session is consumed twice, none is created
   * twice, so each has at most one successor, and the live sessions are the successful logins
   * less the successful logouts and the sessions password resets revoked.
   */
  lemma {:induction false} RunsKeepSessions(s: State, steps: seq<Step>)
    requires Inv(s) && IsRun(s, steps)
    ensures var t := AfterRun(s, steps);
      Inv(t) && s.log <= t.log && |LiveSessions(t.sessions)| == Logins(t.log) - Logouts(t.log) - ResetAway(t.log)
    decreases |steps|
  {
    hide Inv, After, Enabled;
    if |steps| > 0 {
      StepKeeps(s, steps[0]);
      RunsKeepSessions(After(s, steps[0]), steps[1..]);
      LogGrows(s, steps[0]);
    } else {
      LiveIsBalance(s);
    }
  }

  lemma {:induction false} LogGrows(s: State, step: Step)
    ensures s.log <= After(s, step).log
  {
  }

  lemma {:induction false} LiveIsBalance(s: State)
    requires Inv(s)
    ensures |LiveSessions(s.sessions)| == Logins(s.log) - Logouts(s.log) - ResetAway(s.log)
  {
  }

  /** A session the log has consumed is never exchanged again, however stale the read behind the request. */
  lemma {:induction false} ConsumedIsSpent(s: State, steps: seq<Step>, x: Id, e: Event, i: nat)
    requires Inv(s) && IsRun(s, steps) && e in s.log && Consumes(e, x)
    requires var t := AfterRun(s, steps); |s.log| <= i < |t.log|
    ensures !Consumes(AfterRun(s, steps).log[i], x)
  {
    hide AfterRun, IsRun, Consumes, Explained, CreatedOnce, UniqueDigests;
    RunsKeepSessions(s, steps);
    var t := AfterRun(s, steps);
    var k :| 0 <= k < |s.log| && s.log[k] == e;
    assert t.log[k] == e;
  }
}
