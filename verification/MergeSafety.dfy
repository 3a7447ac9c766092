/** What a planned merge promises: nothing lost, no new double holding, and nothing to do twice. */
module MergeSafety {
  import opened Basics
  import opened Timetable
  import opened Segments
  import opened Grouping
  import opened PassengerMerge
  import opened MergePlan

  // ---- Reads ----

  function TicketsOf(tickets: map<Id, Ticket>, p: Id): set<Id> {
    set t | t in tickets && tickets[t].passengerId == p
  }

  function RowFor(s: People, p: Id): Row
    requires p in s.passengers
  {
    Row(p, s.passengers[p], |TicketsOf(s.tickets, p)|)
  }

  ghost predicate IsPassengerLoad(rows: seq<Row>, s: People) {
    && DistinctRowIds(rows)
    && (forall x :: x in rows ==> x.id in s.passengers && x == RowFor(s, x.id))
    && (forall p :: p in s.passengers ==> RowFor(s, p) in rows)
  }

  /** The live tickets of everybody who shares a human with somebody else. */
  ghost predicate IsTicketLoad(q: Read, s: People) {
    && DistinctHeld(q.tickets)
    && (forall x :: x in q.tickets ==> x.id in s.tickets && s.tickets[x.id] == x.row && x.row.active)
    && (forall t :: t in s.tickets && s.tickets[t].active && Shares(q, s.tickets[t].passengerId) ==> Held(t, s.tickets[t]) in q.tickets)
  }

  ghost predicate IsMember(q: Read, h: Human, p: Id) {
    exists m :: m in MembersOf(q.folds, q.rows, h) && m.id == p
  }

  /** The passenger is one of several rows of some human. */
  ghost predicate Shares(q: Read, p: Id) {
    exists h :: IsMember(q, h, p) && |MembersOf(q.folds, q.rows, h)| >= 2
  }

  ghost predicate IsMergeRead(q: Read, s: People) {
    IsPassengerLoad(q.rows, s) && IsTicketLoad(q, s) && q.routes == s.routes
  }

  // ---- The planned groups ----

  /** The human a planned group folds. */
  ghost predicate IsGroupOf(q: Read, h: Human, g: Group) {
    VerdictFor(q, h) == Merge(g)
  }

  ghost predicate OfTwoHumans(q: Read, f: Group, g: Group) {
    exists h, k :: h != k && IsGroupOf(q, h, f) && IsGroupOf(q, k, g)
  }

  ghost predicate OfDifferentHumans(q: Read, groups: seq<Group>) {
    forall i, j :: 0 <= i < j < |groups| ==> OfTwoHumans(q, groups[i], groups[j])
  }

  lemma {:induction false} PlannedGroups(q: Read)
    ensures forall g :: g in PlanMerge(q).groups ==> exists h :: IsGroupOf(q, h, g)
    ensures OfDifferentHumans(q, PlanMerge(q).groups)
  {
    hide VerdictFor;
    var humans := HumansOf(q);
    KeysExactly(Candidates(q.folds, q.rows), HumanKey(q.folds));
    var groups := PlanMerge(q).groups;
    forall g | g in groups ensures exists h :: IsGroupOf(q, h, g) {
      var i := CollectSource(|humans|, GroupAt(q, humans), g);
      assert IsGroupOf(q, humans[i], g);
    }
    forall i, j | 0 <= i < j < |groups| ensures OfTwoHumans(q, groups[i], groups[j]) {
      var a, b := CollectSources(|humans|, GroupAt(q, humans), i, j);
      assert IsGroupOf(q, humans[a], groups[i]) && IsGroupOf(q, humans[b], groups[j]);
    }
  }

  lemma {:induction false} EveryMergeIsPlanned(q: Read, h: Human)
    requires VerdictFor(q, h).Merge?
    ensures VerdictFor(q, h).group in PlanMerge(q).groups
  {
    var humans := HumansOf(q);
    var members := MembersOf(q.folds, q.rows, h);
    KeysExactly(Candidates(q.folds, q.rows), HumanKey(q.folds));
    RowsExactly(Candidates(q.folds, q.rows), HumanKey(q.folds), h);
    var key := HumanKey(q.folds);
    assert members[0] in members && key(members[0]) == h;
    assert h in humans;
    var i :| 0 <= i < |humans| && humans[i] == h;
    hide VerdictFor;
    CollectMembers(|humans|, GroupAt(q, humans));
    assert GroupAt(q, humans)(i) == Some(VerdictFor(q, h).group);
  }

  /** A group's rows are its canonical row and the retired ones. */
  lemma {:induction false} GroupMembers(q: Read, h: Human, g: Group)
    requires IsGroupOf(q, h, g) && DistinctRowIds(q.rows)
    ensures var members := MembersOf(q.folds, q.rows, h);
      && g == GroupFor(members)
      && (forall m :: m in members <==> m in q.rows && IsCandidate(q.folds, m) && HumanKey(q.folds)(m) == h)
      && (forall m :: m in members ==> m.id == g.canonical || m.id in g.retired)
      && (forall p :: p in g.retired ==> p != g.canonical && exists m :: m in members && m.id == p)
      && (exists m :: m in members && m.id == g.canonical)
  {
    hide IsCandidate, CollisionsOf, HeldBy, FilledFields, Disagreeing;
    var members := MembersOf(q.folds, q.rows, h);
    MembersDistinct(q.folds, q.rows, h);
    CanonicalIsPreferred(members);
    var canonical := CanonicalOf(members);
    OthersExactly(members, canonical.id);
    var others := Others(members, canonical.id);
    forall p ensures p in g.retired <==> exists m :: m in others && m.id == p {
      if p in g.retired {
        var i :| 0 <= i < |others| && RowIds(others)[i] == p;
        assert others[i] in others;
      }
      if m :| m in others && m.id == p {
        var i :| 0 <= i < |others| && others[i] == m;
        assert RowIds(others)[i] == p;
      }
    }
  }

  lemma {:induction false} OthersExactly(members: seq<Row>, canonical: Id)
    ensures forall m :: m in Others(members, canonical) <==> m in members && m.id != canonical
  {
    var f := OtherAt(members, canonical);
    CollectMembers(|members|, f);
    forall m ensures m in Others(members, canonical) <==> m in members && m.id != canonical {
      if m in members && m.id != canonical {
        var i :| 0 <= i < |members| && members[i] == m;
        assert f(i) == Some(m);
      }
    }
  }

  predicate Involves(g: Group, p: Id) {
    p == g.canonical || p in g.retired
  }

  /** A passenger takes part in one group, of one human. */
  lemma {:induction false} InvolvedOnce(q: Read, s: People, h: Human, k: Human, g: Group, f: Group, p: Id)
    requires IsMergeRead(q, s) && IsGroupOf(q, h, g) && IsGroupOf(q, k, f) && Involves(g, p) && Involves(f, p)
    ensures h == k && g == f && p in s.passengers && IsCandidate(q.folds, RowFor(s, p)) && HumanKey(q.folds)(RowFor(s, p)) == h
  {
    hide IsCandidate, GroupFor, VerdictFor;
    GroupMembers(q, h, g);
    GroupMembers(q, k, f);
    var m :| m in MembersOf(q.folds, q.rows, h) && m.id == p;
    var n :| n in MembersOf(q.folds, q.rows, k) && n.id == p;
  }

  /** No two groups of a list share a passenger. */
  ghost predicate Apart(groups: seq<Group>) {
    && (forall i, j, p :: 0 <= i < j < |groups| && Involves(groups[i], p) ==> !Involves(groups[j], p))
    && (forall g :: g in groups ==> g.canonical !in g.retired)
  }

  lemma {:induction false} PlannedApart(q: Read, s: People)
    requires IsMergeRead(q, s)
    ensures Apart(PlanMerge(q).groups)
  {
    hide PlanMerge, IsMergeRead, IsGroupOf;
    PlannedGroups(q);
    var groups := PlanMerge(q).groups;
    forall i, j, p | 0 <= i < j < |groups| && Involves(groups[i], p) ensures !Involves(groups[j], p) {
      assert OfTwoHumans(q, groups[i], groups[j]);
      var h, k :| h != k && IsGroupOf(q, h, groups[i]) && IsGroupOf(q, k, groups[j]);
      if Involves(groups[j], p) { InvolvedOnce(q, s, h, k, groups[i], groups[j], p); }
    }
    forall g | g in groups ensures g.canonical !in g.retired {
      var h :| IsGroupOf(q, h, g);
      ReadRows(q, s);
      GroupMembers(q, h, g);
    }
  }

  lemma {:induction false} ReadRows(q: Read, s: People)
    requires IsMergeRead(q, s)
    ensures DistinctRowIds(q.rows)
  {
  }

  // ---- Where a ticket ends up ----

  function NewOwner(groups: seq<Group>, p: Id): Id {
    if |groups| == 0 then p
    else
      var before := NewOwner(groups[..|groups| - 1], p);
      if before in groups[|groups| - 1].retired then groups[|groups| - 1].canonical else before
  }

  lemma {:induction false} ApartFront(groups: seq<Group>)
    requires Apart(groups) && |groups| > 0
    ensures Apart(groups[..|groups| - 1])
  {
    var front := groups[..|groups| - 1];
    assert groups == front + [groups[|groups| - 1]];
    assert forall i :: 0 <= i < |front| ==> front[i] == groups[i];
  }

  /** A retired row's owner is its group's canonical row, and everybody else stays. */
  lemma {:induction false} NewOwnerIs(groups: seq<Group>, p: Id)
    requires Apart(groups)
    ensures (forall g :: g in groups && p in g.retired ==> NewOwner(groups, p) == g.canonical)
    ensures (forall g :: g in groups ==> p !in g.retired) ==> NewOwner(groups, p) == p
    ensures NewOwner(groups, p) != p ==> exists g :: g in groups && p in g.retired && NewOwner(groups, p) == g.canonical
  {
    if |groups| > 0 {
      var front, last := groups[..|groups| - 1], groups[|groups| - 1];
      assert groups == front + [last];
      ApartFront(groups);
      NewOwnerIs(front, p);
      forall g | g in front && p in g.retired ensures g.canonical !in last.retired && p !in last.retired {
        var i :| 0 <= i < |front| && front[i] == g;
        assert groups[i] == g && Involves(groups[i], p) && Involves(groups[i], g.canonical);
        assert !Involves(groups[|front|], p) && !Involves(groups[|front|], g.canonical);
      }
    }
  }

  /** Every ticket is kept, and only its passenger can have changed. */
  lemma {:induction false} TicketsAfter(s: People, groups: seq<Group>)
    ensures var t := AfterMerge(s, groups).tickets;
      && t.Keys == s.tickets.Keys
      && (forall x :: x in t ==> t[x] == s.tickets[x].(passengerId := NewOwner(groups, s.tickets[x].passengerId)))
    ensures AfterMerge(s, groups).routes == s.routes && AfterMerge(s, groups).passengers.Keys == s.passengers.Keys
  {
    hide MergedRow;
    if |groups| > 0 {
      TicketsAfter(s, groups[..|groups| - 1]);
    }
  }

  // ---- Conservation ----

  /** No reservation is lost or made: each is kept, with nothing but its passenger changed. */
  lemma {:induction false} MergeConservesReservations(q: Read, s: People)
    requires IsMergeRead(q, s)
    ensures var t := AfterMerge(s, PlanMerge(q).groups);
      && |t.tickets| == |s.tickets|
      && t.tickets.Keys == s.tickets.Keys
      && (forall x :: x in t.tickets ==> t.tickets[x].(passengerId := s.tickets[x].passengerId) == s.tickets[x])
      && (forall g, x :: g in PlanMerge(q).groups && x in s.tickets && s.tickets[x].passengerId in g.retired ==>
            t.tickets[x].passengerId == g.canonical)
  {
    hide PlanMerge, IsMergeRead;
    var groups := PlanMerge(q).groups;
    TicketsAfter(s, groups);
    PlannedApart(q, s);
    var t := AfterMerge(s, groups).tickets;
    assert |t.Keys| == |s.tickets.Keys|;
    forall g, x | g in groups && x in s.tickets && s.tickets[x].passengerId in g.retired ensures t[x].passengerId == g.canonical {
      NewOwnerIs(groups, s.tickets[x].passengerId);
    }
  }

  function Changed(s: People, groups: seq<Group>): set<Id> {
    set x | x in s.tickets && NewOwner(groups, s.tickets[x].passengerId) != s.tickets[x].passengerId
  }

  lemma {:induction false} ChangedStep(s: People, groups: seq<Group>)
    requires Apart(groups) && |groups| > 0
    ensures var now := Moved(AfterMerge(s, groups[..|groups| - 1]).tickets, groups[|groups| - 1]);
      Changed(s, groups) == Changed(s, groups[..|groups| - 1]) + now && Changed(s, groups[..|groups| - 1]) !! now
  {
    hide AfterMerge;
    var front, last := groups[..|groups| - 1], groups[|groups| - 1];
    TicketsAfter(s, front);
    var now := Moved(AfterMerge(s, front).tickets, last);
    forall x
      ensures x in Changed(s, groups) <==> x in Changed(s, front) || x in now
      ensures !(x in Changed(s, front) && x in now)
    {
      if x in s.tickets {
        OnceAtMost(groups, s.tickets[x].passengerId);
      }
    }
  }

  /** The count reported is the number of reservations that changed hands. */
  lemma {:induction false} RepointedIsChanged(s: People, groups: seq<Group>)
    requires Apart(groups)
    ensures MovedInAll(s, groups) == |Changed(s, groups)|
  {
    if |groups| > 0 {
      hide AfterMerge, Moved, Changed;
      ApartFront(groups);
      RepointedIsChanged(s, groups[..|groups| - 1]);
      ChangedStep(s, groups);
    } else {
      assert Changed(s, groups) == {};
    }
  }

  lemma {:induction false} OnceAtMost(groups: seq<Group>, p: Id)
    requires Apart(groups) && |groups| > 0
    ensures var front, last := groups[..|groups| - 1], groups[|groups| - 1];
      && (NewOwner(front, p) != p ==> NewOwner(front, p) !in last.retired)
      && (p in last.retired ==> last.canonical != p)
  {
    var front, last := groups[..|groups| - 1], groups[|groups| - 1];
    assert groups == front + [last];
    ApartFront(groups);
    NewOwnerIs(front, p);
    assert last in groups;
    if NewOwner(front, p) != p {
      var g :| g in front && p in g.retired && NewOwner(front, p) == g.canonical;
      var i :| 0 <= i < |front| && front[i] == g;
      assert groups[i] == g && Involves(groups[i], g.canonical);
      assert !Involves(groups[|front|], g.canonical);
    }
  }

  // ---- The plan's count is the apply's ----

  function TicketsOfAll(tickets: map<Id, Ticket>, rows: seq<Row>): set<Id> {
    set t | t in tickets && exists m :: m in rows && m.id == tickets[t].passengerId
  }

  lemma {:induction false} LastRowApart(front: seq<Row>, last: Row)
    requires DistinctRowIds(front + [last])
    ensures DistinctRowIds(front) && forall m :: m in front ==> m.id != last.id
  {
    var rows := front + [last];
    assert forall i :: 0 <= i < |front| ==> rows[i] == front[i];
    forall m | m in front ensures m.id != last.id {
      var i :| 0 <= i < |front| && front[i] == m;
      assert rows[i].id != rows[|front|].id;
    }
  }

  lemma {:induction false} TicketsOfOneMore(tickets: map<Id, Ticket>, front: seq<Row>, last: Row)
    requires forall m :: m in front ==> m.id != last.id
    ensures TicketsOfAll(tickets, front + [last]) == TicketsOfAll(tickets, front) + TicketsOf(tickets, last.id)
    ensures TicketsOfAll(tickets, front) !! TicketsOf(tickets, last.id)
  {
    var rows := front + [last];
    forall t ensures t in TicketsOfAll(tickets, rows) <==> t in TicketsOfAll(tickets, front) || t in TicketsOf(tickets, last.id) {
      if t in TicketsOf(tickets, last.id) {
        assert last in rows;
      }
      if t in TicketsOfAll(tickets, front) {
        var m :| m in front && m.id == tickets[t].passengerId;
        assert m in rows;
      }
    }
  }

  lemma {:induction false} TicketsCounted(s: People, rows: seq<Row>)
    requires DistinctRowIds(rows) && forall x :: x in rows ==> x.id in s.passengers && x == RowFor(s, x.id)
    ensures |TicketsOfAll(s.tickets, rows)| == TotalReservations(rows)
  {
    if |rows| > 0 {
      var front, last := rows[..|rows| - 1], rows[|rows| - 1];
      assert rows == front + [last];
      assert last in rows && forall m :: m in front ==> m in rows;
      LastRowApart(front, last);
      TicketsOfOneMore(s.tickets, front, last);
      hide TicketsOfAll, TicketsOf, DistinctRowIds;
      TicketsCounted(s, front);
    } else {
      assert TicketsOfAll(s.tickets, rows) == {};
    }
  }

  lemma {:induction false} OthersDistinct(members: seq<Row>, canonical: Id)
    requires DistinctRowIds(members)
    ensures DistinctRowIds(Others(members, canonical))
  {
    var f := OtherAt(members, canonical);
    var others := Others(members, canonical);
    forall i, j | 0 <= i < j < |others| ensures others[i].id != others[j].id {
      var a, b := CollectSources(|members|, f, i, j);
    }
  }

  /** A planned group's count is the number of tickets its retired rows hold. */
  lemma {:induction false} GroupCounts(q: Read, s: People, h: Human, g: Group)
    requires IsMergeRead(q, s) && IsGroupOf(q, h, g)
    ensures |Moved(s.tickets, g)| == g.reservationsToRepoint
  {
    hide IsCandidate, VerdictFor, CanonicalOf, FilledFields;
    GroupMembers(q, h, g);
    var members := MembersOf(q.folds, q.rows, h);
    MembersDistinct(q.folds, q.rows, h);
    OthersDistinct(members, g.canonical);
    OthersExactly(members, g.canonical);
    var others := Others(members, g.canonical);
    TicketsCounted(s, others);
    forall p ensures p in g.retired <==> exists m :: m in others && m.id == p {
      if p in g.retired {
        var i :| 0 <= i < |others| && RowIds(others)[i] == p;
        assert others[i] in others;
      }
      if m :| m in others && m.id == p {
        var i :| 0 <= i < |others| && others[i] == m;
        assert RowIds(others)[i] == p;
      }
    }
    assert Moved(s.tickets, g) == TicketsOfAll(s.tickets, others);
  }

  /** Groups that share nobody move, each in its turn, the tickets their retired rows held from the start. */
  lemma {:induction false} MovedFromTheStart(s: People, groups: seq<Group>)
    requires Apart(groups) && |groups| > 0
    ensures Moved(AfterMerge(s, groups[..|groups| - 1]).tickets, groups[|groups| - 1]) == Moved(s.tickets, groups[|groups| - 1])
  {
    hide AfterMerge;
    var front, last := groups[..|groups| - 1], groups[|groups| - 1];
    assert groups == front + [last];
    TicketsAfter(s, front);
    ApartFront(groups);
    forall x | x in s.tickets
      ensures NewOwner(front, s.tickets[x].passengerId) in last.retired <==> s.tickets[x].passengerId in last.retired
    {
      var p := s.tickets[x].passengerId;
      NewOwnerIs(front, p);
      if NewOwner(front, p) != p {
        var g :| g in front && p in g.retired && NewOwner(front, p) == g.canonical;
        var i :| 0 <= i < |front| && front[i] == g;
        assert groups[i] == g && Involves(groups[i], p) && Involves(groups[i], g.canonical);
        assert !Involves(groups[|front|], p) && !Involves(groups[|front|], g.canonical);
      }
    }
  }

  lemma {:induction false} MovedAsCounted(s: People, groups: seq<Group>)
    requires Apart(groups) && forall g :: g in groups ==> |Moved(s.tickets, g)| == g.reservationsToRepoint
    ensures MovedInAll(s, groups) == ToRepoint(groups)
  {
    hide AfterMerge, Moved;
    if |groups| > 0 {
      assert groups == groups[..|groups| - 1] + [groups[|groups| - 1]];
      ApartFront(groups);
      MovedAsCounted(s, groups[..|groups| - 1]);
      MovedFromTheStart(s, groups);
    }
  }

  /** The number a plan says is to be repointed is the number its apply reports, and the number that change passenger. */
  lemma {:induction false} RepointedAsPlanned(q: Read, s: People)
    requires IsMergeRead(q, s)
    ensures var groups := PlanMerge(q).groups;
      ToRepoint(groups) == MovedInAll(s, groups) == |Changed(s, groups)|
  {
    hide PlanMerge, IsMergeRead, IsGroupOf, Moved, Changed;
    PlannedApart(q, s);
    PlannedGroups(q);
    var groups := PlanMerge(q).groups;
    forall g | g in groups ensures |Moved(s.tickets, g)| == g.reservationsToRepoint {
      var h :| IsGroupOf(q, h, g);
      GroupCounts(q, s, h, g);
    }
    MovedAsCounted(s, groups);
    RepointedIsChanged(s, groups);
  }

  // ---- No new double holding ----

  /** Two live tickets for one seat of one bus, at the same time. */
  predicate DoubleHeld(s: People, x: Id, y: Id)
    requires x in s.tickets && y in s.tickets
  {
    var a, b := s.tickets[x], s.tickets[y];
    && a.active && b.active && SeatKeyOf(Held(x, a)) == SeatKeyOf(Held(y, b))
    && Overlap(SegmentOf(RouteOf(s.routes, a.rideId), a), SegmentOf(RouteOf(s.routes, b.rideId), b))
  }

  lemma {:induction false} SameGroup(q: Read, s: People, p: Id, r: Id) returns (h: Human, g: Group)
    requires IsMergeRead(q, s) && p != r && NewOwner(PlanMerge(q).groups, p) == NewOwner(PlanMerge(q).groups, r)
    ensures IsGroupOf(q, h, g) && Involves(g, p) && Involves(g, r)
  {
    hide PlanMerge, IsMergeRead, IsGroupOf;
    var groups := PlanMerge(q).groups;
    PlannedApart(q, s);
    PlannedGroups(q);
    NewOwnerIs(groups, p);
    NewOwnerIs(groups, r);
    if NewOwner(groups, p) != p {
      g :| g in groups && p in g.retired && NewOwner(groups, p) == g.canonical;
      h :| IsGroupOf(q, h, g);
      if NewOwner(groups, r) != r {
        var f :| f in groups && r in f.retired && NewOwner(groups, r) == f.canonical;
        var k :| IsGroupOf(q, k, f);
        InvolvedOnce(q, s, h, k, g, f, g.canonical);
      }
    } else {
      g :| g in groups && r in g.retired && NewOwner(groups, r) == g.canonical;
      h :| IsGroupOf(q, h, g);
    }
  }

  lemma {:induction false} MembersDoNotClash(q: Read, s: People, h: Human, g: Group, x: Id, y: Id)
    requires IsMergeRead(q, s) && IsGroupOf(q, h, g) && x in s.tickets && y in s.tickets
    requires Involves(g, s.tickets[x].passengerId) && Involves(g, s.tickets[y].passengerId)
    requires s.tickets[x].passengerId != s.tickets[y].passengerId
    ensures !DoubleHeld(s, x, y)
  {
    hide IsCandidate, Disagreeing, Overlap, SegmentOf, GroupFor, CollisionsOf, HeldBy;
    var members := MembersOf(q.folds, q.rows, h);
    GroupMembers(q, h, g);
    MembersDistinct(q.folds, q.rows, h);
    HeldByDistinct(members, q.tickets);
    if DoubleHeld(s, x, y) {
      var a, b := Held(x, s.tickets[x]), Held(y, s.tickets[y]);
      assert a in q.tickets && b in q.tickets;
      var held := HeldBy(members, q.tickets);
      assert a in held && b in held;
      CollisionsIff(q.routes, held);
    }
  }

  /**
   * The merge never puts one passenger twice in one seat of one bus at the same time: any such
   * pair afterwards was already under one passenger before.
   */
  lemma {:induction false} NoNewDoubleHolding(q: Read, s: People, x: Id, y: Id)
    requires IsMergeRead(q, s) && x != y && x in s.tickets && y in s.tickets
    ensures var t := AfterMerge(s, PlanMerge(q).groups);
      && x in t.tickets && y in t.tickets
      && (DoubleHeld(t, x, y) && t.tickets[x].passengerId == t.tickets[y].passengerId ==>
            DoubleHeld(s, x, y) && s.tickets[x].passengerId == s.tickets[y].passengerId)
  {
    hide PlanMerge, IsMergeRead, Overlap, IsGroupOf;
    var groups := PlanMerge(q).groups;
    var t := AfterMerge(s, groups);
    TicketsAfter(s, groups);
    SameSegments(s, t, x);
    SameSegments(s, t, y);
    if DoubleHeld(t, x, y) && t.tickets[x].passengerId == t.tickets[y].passengerId {
      if s.tickets[x].passengerId != s.tickets[y].passengerId {
        var h, g := SameGroup(q, s, s.tickets[x].passengerId, s.tickets[y].passengerId);
        MembersDoNotClash(q, s, h, g, x, y);
      }
    }
  }

  lemma {:induction false} SameSegments(s: People, t: People, x: Id)
    requires x in s.tickets && x in t.tickets && t.routes == s.routes
    requires t.tickets[x] == s.tickets[x].(passengerId := t.tickets[x].passengerId)
    ensures SeatKeyOf(Held(x, t.tickets[x])) == SeatKeyOf(Held(x, s.tickets[x])) && t.tickets[x].active == s.tickets[x].active
    ensures SegmentOf(RouteOf(t.routes, t.tickets[x].rideId), t.tickets[x]) == SegmentOf(RouteOf(s.routes, s.tickets[x].rideId), s.tickets[x])
  {
  }
}
