/** `planDuplicatePassengerMerge` and `applyDuplicatePassengerMerge`. */
module MergePlan {
  import opened Basics
  import opened Timetable
  import opened Segments
  import opened Grouping
  import opened PassengerMerge

  // ---- Fields ----

  /** What `trim` removes: white space and line terminators (sections 12.2 and 12.3 of ECMA-262). */
  predicate IsSpace(c: char) {
    c == ' ' || '\t' <= c <= '\r' || c == '\U{A0}' || c == '\U{1680}' || '\U{2000}' <= c <= '\U{200A}'
    || c == '\U{2028}' || c == '\U{2029}' || c == '\U{202F}' || c == '\U{205F}' || c == '\U{3000}' || c == '\U{FEFF}'
  }

  function Trim(s: string): string
    decreases |s|
  {
    if |s| == 0 then s
    else if IsSpace(s[0]) then Trim(s[1..])
    else if IsSpace(s[|s| - 1]) then Trim(s[..|s| - 1])
    else s
  }

  function TypeName(t: PassengerType): string {
    match t
    case ADULT => "ADULT"
    case CHILD => "CHILD"
    case STUDENT => "STUDENT"
    case SENIOR => "SENIOR"
  }

  /** A field as it is compared: trimmed, and empty when there is none. */
  function ValueOf(row: Passenger, field: Field): string {
    match field
    case TYPE => Trim(TypeName(row.passengerType))
    case EMAIL => Trim(OrElse(row.email, ""))
    case NOTES => Trim(OrElse(row.notes, ""))
  }

  function ValuesOf(members: seq<Row>, field: Field): set<string> {
    set m | m in members && ValueOf(m.row, field) != "" :: ValueOf(m.row, field)
  }

  const ALL_FIELDS := {TYPE, EMAIL, NOTES}

  function Disagreeing(members: seq<Row>): set<Field> {
    set f | f in ALL_FIELDS && |ValuesOf(members, f)| > 1
  }

  function FirstValue(rows: seq<Row>, field: Field): string {
    if |rows| == 0 then ""
    else if ValueOf(rows[0].row, field) != "" then ValueOf(rows[0].row, field)
    else FirstValue(rows[1..], field)
  }

  // ---- One group ----

  function OtherAt(members: seq<Row>, canonical: Id): nat -> Option<Row> {
    (i: nat) => if i < |members| && members[i].id != canonical then Some(members[i]) else None
  }

  function Others(members: seq<Row>, canonical: Id): seq<Row> {
    Collect(|members|, OtherAt(members, canonical))
  }

  function RowIds(rows: seq<Row>): seq<Id> {
    seq(|rows|, i requires 0 <= i < |rows| => rows[i].id)
  }

  function TotalReservations(rows: seq<Row>): nat {
    if |rows| == 0 then 0 else TotalReservations(rows[..|rows| - 1]) + rows[|rows| - 1].reservations
  }

  function FilledFields(canonical: Passenger, others: seq<Row>): map<Field, string> {
    map f | f in {EMAIL, NOTES} && ValueOf(canonical, f) == "" && FirstValue(others, f) != "" :: FirstValue(others, f)
  }

  function GroupFor(members: seq<Row>): Group
    requires |members| > 0
  {
    var canonical := CanonicalOf(members);
    var others := Others(members, canonical.id);
    Group(canonical.id, RowIds(others), FilledFields(canonical.row, others),
          !canonical.row.isActive && (exists m :: m in members && m.row.isActive), TotalReservations(others))
  }

  function OwnerOf(x: Held): Id {
    x.row.passengerId
  }

  /** The live tickets of a group's members, member by member. */
  function HeldBy(members: seq<Row>, tickets: seq<Held>): seq<Held> {
    if |members| == 0 then []
    else HeldBy(members[..|members| - 1], tickets) + RowsUnder(tickets, OwnerOf, members[|members| - 1].id)
  }

  function VerdictOn(routes: map<Id, Route>, members: seq<Row>, tickets: seq<Held>): Verdict {
    if |members| < 2 then Alone
    else if Disagreeing(members) != {} then FieldDisagreement(Disagreeing(members))
    else
      var collisions := CollisionsOf(routes, HeldBy(members, tickets));
      if collisions != [] then SeatCollision(collisions) else Merge(GroupFor(members))
  }

  // ---- The plan ----

  function HumanKey(folds: Folds): Row -> Human {
    (x: Row) => Human(x.row.tenantId, folds.nameKey(x.row.firstName, x.row.lastName), folds.phoneKey(x.row.phone))
  }

  /** Neither retired nor unrecognisable. */
  predicate IsCandidate(folds: Folds, x: Row) {
    (x.row.isActive || x.reservations > 0) && HumanKey(folds)(x).nameKey != "" && |HumanKey(folds)(x).phoneKey| >= 8
  }

  function CandidateAt(folds: Folds, rows: seq<Row>): nat -> Option<Row> {
    (i: nat) => if i < |rows| && IsCandidate(folds, rows[i]) then Some(rows[i]) else None
  }

  function Candidates(folds: Folds, rows: seq<Row>): seq<Row> {
    Collect(|rows|, CandidateAt(folds, rows))
  }

  function MembersOf(folds: Folds, rows: seq<Row>, human: Human): seq<Row> {
    RowsUnder(Candidates(folds, rows), HumanKey(folds), human)
  }

  datatype Read = Read(rows: seq<Row>, tickets: seq<Held>, routes: map<Id, Route>, folds: Folds)

  function VerdictFor(q: Read, human: Human): Verdict {
    VerdictOn(q.routes, MembersOf(q.folds, q.rows, human), q.tickets)
  }

  function HumansOf(q: Read): seq<Human> {
    KeysOf(Candidates(q.folds, q.rows), HumanKey(q.folds))
  }

  function GroupAt(q: Read, humans: seq<Human>): nat -> Option<Group> {
    (i: nat) => if i < |humans| && VerdictFor(q, humans[i]).Merge? then Some(VerdictFor(q, humans[i]).group) else None
  }

  datatype Conflict = Conflict(human: Human, passengerIds: seq<Id>, why: Verdict)

  function ConflictAt(q: Read, humans: seq<Human>): nat -> Option<Conflict> {
    (i: nat) =>
      if i < |humans| && (VerdictFor(q, humans[i]).FieldDisagreement? || VerdictFor(q, humans[i]).SeatCollision?)
      then Some(Conflict(humans[i], RowIds(MembersOf(q.folds, q.rows, humans[i])), VerdictFor(q, humans[i]))) else None
  }

  datatype Plan = Plan(groups: seq<Group>, conflicts: seq<Conflict>)

  function PlanMerge(q: Read): Plan {
    var humans := HumansOf(q);
    Plan(Collect(|humans|, GroupAt(q, humans)), Collect(|humans|, ConflictAt(q, humans)))
  }

  // ---- The plan, as the source computes it ----

  method FilterCandidates(folds: Folds, rows: seq<Row>) returns (candidates: seq<Row>)
    ensures candidates == Candidates(folds, rows)
  {
    candidates := [];
    var i := 0;
    while i < |rows|
      invariant 0 <= i <= |rows|
      invariant candidates == Collect(i, CandidateAt(folds, rows))
    {
      var key := HumanKey(folds)(rows[i]);
      if (rows[i].row.isActive || rows[i].reservations > 0) && key.nameKey != "" && |key.phoneKey| >= 8 {
        candidates := candidates + [rows[i]];
      }
      i := i + 1;
    }
  }

  method HeldByMembers(members: seq<Row>, tickets: seq<Held>, byPassenger: map<Id, seq<Held>>) returns (held: seq<Held>)
    requires forall p :: p in byPassenger <==> p in KeysOf(tickets, OwnerOf)
    requires forall p :: p in byPassenger ==> byPassenger[p] == RowsUnder(tickets, OwnerOf, p)
    ensures held == HeldBy(members, tickets)
  {
    held := [];
    var i := 0;
    while i < |members|
      invariant 0 <= i <= |members|
      invariant held == HeldBy(members[..i], tickets)
    {
      assert members[..i + 1][..i] == members[..i];
      NoTickets(tickets, members[i].id);
      held := held + if members[i].id in byPassenger then byPassenger[members[i].id] else [];
      i := i + 1;
    }
    assert members[..|members|] == members;
  }

  lemma {:induction false} NoTickets(tickets: seq<Held>, p: Id)
    ensures p !in KeysOf(tickets, OwnerOf) ==> RowsUnder(tickets, OwnerOf, p) == []
  {
    if |tickets| > 0 {
      NoTickets(tickets[..|tickets| - 1], p);
    }
  }

  lemma {:induction false} HeldByDistinct(members: seq<Row>, tickets: seq<Held>)
    requires DistinctHeld(tickets) && DistinctRowIds(members)
    ensures DistinctHeld(HeldBy(members, tickets))
    ensures forall x :: x in HeldBy(members, tickets) <==> x in tickets && exists m :: m in members && m.id == x.row.passengerId
  {
    if |members| > 0 {
      var front, last := members[..|members| - 1], members[|members| - 1];
      assert members == front + [last];
      HeldByDistinct(front, tickets);
      var before, mine := HeldBy(front, tickets), RowsUnder(tickets, OwnerOf, last.id);
      OwnedBy(tickets, last.id);
      forall i, j | 0 <= i < |before| && 0 <= j < |mine| ensures before[i].id != mine[j].id {
        assert before[i] in before && mine[j] in mine;
        OtherOwner(front, last, tickets, before[i], mine[j]);
      }
    }
  }

  lemma {:induction false} OtherOwner(front: seq<Row>, last: Row, tickets: seq<Held>, x: Held, y: Held)
    requires DistinctHeld(tickets) && DistinctRowIds(front + [last]) && x in tickets && y in tickets
    requires (exists m :: m in front && m.id == x.row.passengerId) && y.row.passengerId == last.id
    ensures x.id != y.id
  {
    var m :| m in front && m.id == x.row.passengerId;
    var k :| 0 <= k < |front| && front[k] == m;
    assert (front + [last])[k].id != (front + [last])[|front|].id;
  }

  lemma {:induction false} OwnedBy(tickets: seq<Held>, p: Id)
    requires DistinctHeld(tickets)
    ensures DistinctHeld(RowsUnder(tickets, OwnerOf, p))
    ensures forall x :: x in RowsUnder(tickets, OwnerOf, p) <==> x in tickets && x.row.passengerId == p
  {
    if |tickets| > 0 {
      var front, last := tickets[..|tickets| - 1], tickets[|tickets| - 1];
      assert tickets == front + [last];
      OwnedBy(front, p);
      var before := RowsUnder(front, OwnerOf, p);
      forall i | 0 <= i < |before| ensures before[i].id != last.id {
        assert before[i] in before;
        var k :| 0 <= k < |front| && front[k] == before[i];
        assert tickets[k].id != tickets[|front|].id;
      }
    }
  }

  lemma {:induction false} MembersDistinct(folds: Folds, rows: seq<Row>, human: Human)
    requires DistinctRowIds(rows)
    ensures DistinctRowIds(MembersOf(folds, rows, human))
    ensures forall x :: x in MembersOf(folds, rows, human) <==> x in rows && IsCandidate(folds, x) && HumanKey(folds)(x) == human
  {
    hide IsCandidate;
    var f := CandidateAt(folds, rows);
    var candidates := Candidates(folds, rows);
    CollectMembers(|rows|, f);
    RowsExactly(candidates, HumanKey(folds), human);
    forall i, j | 0 <= i < j < |candidates| ensures candidates[i].id != candidates[j].id {
      var a, b := CollectSources(|rows|, f, i, j);
    }
    UnderDistinct(candidates, HumanKey(folds), human);
    forall x ensures x in candidates <==> x in rows && IsCandidate(folds, x) {
      if x in rows && IsCandidate(folds, x) {
        var i :| 0 <= i < |rows| && rows[i] == x;
        assert f(i) == Some(x);
      }
    }
  }

  lemma {:induction false} UnderDistinct(rows: seq<Row>, key: Row -> Human, human: Human)
    requires DistinctRowIds(rows)
    ensures DistinctRowIds(RowsUnder(rows, key, human))
  {
    if |rows| > 0 {
      var front, last := rows[..|rows| - 1], rows[|rows| - 1];
      UnderDistinct(front, key, human);
      RowsExactly(front, key, human);
      var before := RowsUnder(front, key, human);
      forall i | 0 <= i < |before| ensures before[i].id != last.id {
        assert before[i] in before;
        var k :| 0 <= k < |front| && front[k] == before[i];
        assert rows[k].id != rows[|front|].id;
      }
    }
  }

  /** One group's verdict. */
  method JudgeGroup(q: Read, members: seq<Row>, byPassenger: map<Id, seq<Held>>) returns (verdict: Verdict)
    requires DistinctRowIds(members) && DistinctHeld(q.tickets)
    requires forall p :: p in byPassenger <==> p in KeysOf(q.tickets, OwnerOf)
    requires forall p :: p in byPassenger ==> byPassenger[p] == RowsUnder(q.tickets, OwnerOf, p)
    ensures verdict == VerdictOn(q.routes, members, q.tickets)
  {
    hide CollisionsOf, HeldBy, GroupFor, Disagreeing;
    if |members| < 2 {
      return Alone;
    }
    var fields := Disagreeing(members);
    if fields != {} {
      return FieldDisagreement(fields);
    }
    var held := HeldByMembers(members, q.tickets, byPassenger);
    HeldByDistinct(members, q.tickets);
    var collisions := SeatCollisionsOf(q.routes, held);
    if |collisions| > 0 {
      return SeatCollision(collisions);
    }
    return Merge(GroupFor(members));
  }

  /** `planDuplicatePassengerMerge`, after its reads. */
  method PlanDuplicateMerge(q: Read) returns (plan: Plan)
    requires DistinctRowIds(q.rows) && DistinctHeld(q.tickets)
    ensures plan == PlanMerge(q)
  {
    hide VerdictOn, IsCandidate, RowsUnder, KeysOf, RowIds, HumanKey;
    var candidates := FilterCandidates(q.folds, q.rows);
    var humans, byHuman := GroupBy(candidates, HumanKey(q.folds));
    var owners, byPassenger := GroupBy(q.tickets, OwnerOf);
    var groups, conflicts := [], [];
    var i := 0;
    while i < |humans|
      invariant 0 <= i <= |humans|
      invariant groups == Collect(i, GroupAt(q, humans))
      invariant conflicts == Collect(i, ConflictAt(q, humans))
    {
      var members := byHuman[humans[i]];
      MembersDistinct(q.folds, q.rows, humans[i]);
      var verdict := JudgeGroup(q, members, byPassenger);
      if verdict.Merge? {
        groups := groups + [verdict.group];
      } else if verdict.FieldDisagreement? || verdict.SeatCollision? {
        conflicts := conflicts + [Conflict(humans[i], RowIds(members), verdict)];
      }
      i := i + 1;
    }
    plan := Plan(groups, conflicts);
  }

  // ---- Applying ----

  function Repointed(tickets: map<Id, Ticket>, g: Group): map<Id, Ticket> {
    map t | t in tickets :: if tickets[t].passengerId in g.retired then tickets[t].(passengerId := g.canonical) else tickets[t]
  }

  function WithFields(row: Passenger, filled: map<Field, string>): Passenger {
    row.(email := if EMAIL in filled then Some(filled[EMAIL]) else row.email,
         notes := if NOTES in filled then Some(filled[NOTES]) else row.notes)
  }

  function MergedRow(id: Id, row: Passenger, g: Group): Passenger {
    var kept := if id == g.canonical then WithFields(row, g.filled).(isActive := row.isActive || g.reactivate) else row;
    if id in g.retired then kept.(isActive := false) else kept
  }

  function AfterGroup(s: People, g: Group): People {
    s.(passengers := map p | p in s.passengers :: MergedRow(p, s.passengers[p], g), tickets := Repointed(s.tickets, g))
  }

  function AfterMerge(s: People, groups: seq<Group>): People {
    if |groups| == 0 then s else AfterGroup(AfterMerge(s, groups[..|groups| - 1]), groups[|groups| - 1])
  }

  function Canonised(passengers: map<Id, Passenger>, g: Group): map<Id, Passenger> {
    map p | p in passengers ::
      if p == g.canonical then WithFields(passengers[p], g.filled).(isActive := passengers[p].isActive || g.reactivate) else passengers[p]
  }

  lemma {:induction false} NothingToFill(passengers: map<Id, Passenger>, g: Group)
    ensures g.filled == map[] && !g.reactivate ==> Canonised(passengers, g) == passengers
    ensures g.canonical !in passengers ==> Canonised(passengers, g) == passengers
  {
  }

  lemma {:induction false} MergedInTwoSteps(passengers: map<Id, Passenger>, g: Group)
    ensures (map p | p in Canonised(passengers, g) ::
      if p in g.retired then Canonised(passengers, g)[p].(isActive := false) else Canonised(passengers, g)[p])
      == map p | p in passengers :: MergedRow(p, passengers[p], g)
  {
    hide WithFields;
  }

  function Moved(tickets: map<Id, Ticket>, g: Group): set<Id> {
    set t | t in tickets && tickets[t].passengerId in g.retired
  }

  function MovedInAll(s: People, groups: seq<Group>): nat {
    if |groups| == 0 then 0
    else MovedInAll(s, groups[..|groups| - 1]) + |Moved(AfterMerge(s, groups[..|groups| - 1]).tickets, groups[|groups| - 1])|
  }

  function RetiredInAll(groups: seq<Group>): nat {
    if |groups| == 0 then 0 else RetiredInAll(groups[..|groups| - 1]) + |groups[|groups| - 1].retired|
  }

  /** The plan's own count of the reservations that are to change passenger. */
  function ToRepoint(groups: seq<Group>): nat {
    if |groups| == 0 then 0 else ToRepoint(groups[..|groups| - 1]) + groups[|groups| - 1].reservationsToRepoint
  }

  class PassengerTables {
    var passengers: map<Id, Passenger>
    var tickets: map<Id, Ticket>

    constructor (s: People)
      ensures passengers == s.passengers && tickets == s.tickets
    {
      passengers, tickets := s.passengers, s.tickets;
    }

    /** The canonical row's missing fields, and its status when the group holds a live row. */
    method ChangeCanonical(g: Group)
      modifies this`passengers
      ensures passengers == Canonised(old(passengers), g)
    {
      hide WithFields;
      if (g.filled != map[] || g.reactivate) && g.canonical in passengers {
        var row := passengers[g.canonical];
        passengers := passengers[g.canonical := WithFields(row, g.filled).(isActive := row.isActive || g.reactivate)];
      }
      NothingToFill(old(passengers), g);
    }

    /** One group's transaction: repoint, change the canonical row, retire the rest. */
    method MergeGroup(g: Group, ghost s: People) returns (count: nat)
      requires passengers == s.passengers && tickets == s.tickets
      modifies this
      ensures passengers == AfterGroup(s, g).passengers && tickets == AfterGroup(s, g).tickets
      ensures count == |Moved(s.tickets, g)|
    {
      hide WithFields, Canonised;
      count := |Moved(tickets, g)|;
      tickets := map t | t in tickets ::
        if tickets[t].passengerId in g.retired then tickets[t].(passengerId := g.canonical) else tickets[t];
      ChangeCanonical(g);
      passengers := map p | p in passengers ::
        if p in g.retired then passengers[p].(isActive := false) else passengers[p];
      MergedInTwoSteps(s.passengers, g);
    }

    /** `applyDuplicatePassengerMerge`. */
    method ApplyMerge(groups: seq<Group>, ghost s: People) returns (merged: nat, retired: nat, repointed: nat)
      requires passengers == s.passengers && tickets == s.tickets
      modifies this
      ensures passengers == AfterMerge(s, groups).passengers && tickets == AfterMerge(s, groups).tickets
      ensures merged == |groups| && retired == RetiredInAll(groups) && repointed == MovedInAll(s, groups)
    {
      hide AfterGroup;
      merged, retired, repointed := 0, 0, 0;
      var i := 0;
      while i < |groups|
        invariant 0 <= i <= |groups|
        invariant passengers == AfterMerge(s, groups[..i]).passengers && tickets == AfterMerge(s, groups[..i]).tickets
        invariant merged == i && retired == RetiredInAll(groups[..i]) && repointed == MovedInAll(s, groups[..i])
      {
        assert groups[..i + 1][..i] == groups[..i];
        var written := MergeGroup(groups[i], AfterMerge(s, groups[..i]));
        merged := merged + 1;
        retired := retired + |groups[i].retired|;
        repointed := repointed + written;
        i := i + 1;
      }
      assert groups[..|groups|] == groups;
    }
  }
}
