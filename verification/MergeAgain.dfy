/** After a merge: the human keeps an active row and every field, and a second plan has no groups. */
module MergeAgain {
  import opened Basics
  import opened Timetable
  import opened PassengerMerge
  import opened MergePlan
  import opened MergeSafety

  // ---- Passengers after the merge ----

  lemma {:induction false} PassengerAfter(s: People, groups: seq<Group>, p: Id)
    requires Apart(groups) && p in s.passengers
    ensures var t := AfterMerge(s, groups).passengers;
      && p in t
      && (forall g :: g in groups && Involves(g, p) ==> t[p] == MergedRow(p, s.passengers[p], g))
      && ((forall g :: g in groups ==> !Involves(g, p)) ==> t[p] == s.passengers[p])
  {
    hide Repointed, WithFields;
    if |groups| > 0 {
      var front, last := groups[..|groups| - 1], groups[|groups| - 1];
      assert groups == front + [last];
      ApartFront(groups);
      PassengerAfter(s, front, p);
      Uninvolved(last, p, AfterMerge(s, front).passengers[p]);
      forall g | g in front && Involves(g, p) ensures !Involves(last, p) {
        var i :| 0 <= i < |front| && front[i] == g;
        assert groups[i] == g && !Involves(groups[|front|], p);
      }
    }
  }

  lemma {:induction false} Uninvolved(g: Group, p: Id, row: Passenger)
    ensures !Involves(g, p) ==> MergedRow(p, row, g) == row
  {
  }

  /** Who a row is recognised as never changes. */
  lemma {:induction false} IdentityKept(folds: Folds, id: Id, row: Passenger, g: Group, n: nat, m: nat)
    ensures HumanKey(folds)(Row(id, MergedRow(id, row, g), n)) == HumanKey(folds)(Row(id, row, m))
  {
  }

  lemma {:induction false} SameHuman(q: Read, s: People, p: Id, n: nat, m: nat)
    requires IsMergeRead(q, s) && p in s.passengers
    ensures var t := AfterMerge(s, PlanMerge(q).groups).passengers;
      p in t && HumanKey(q.folds)(Row(p, t[p], n)) == HumanKey(q.folds)(Row(p, s.passengers[p], m))
  {
    hide PlanMerge, IsMergeRead, MergedRow, HumanKey;
    var groups := PlanMerge(q).groups;
    PlannedApart(q, s);
    PassengerAfter(s, groups, p);
    var t := AfterMerge(s, groups).passengers;
    if g :| g in groups && Involves(g, p) {
      IdentityKept(q.folds, p, s.passengers[p], g, n, m);
    } else {
      SameRowSameHuman(q.folds, p, s.passengers[p], n, m);
    }
  }

  lemma {:induction false} SameRowSameHuman(folds: Folds, p: Id, row: Passenger, n: nat, m: nat)
    ensures HumanKey(folds)(Row(p, row, n)) == HumanKey(folds)(Row(p, row, m))
  {
  }

  /** Whoever had an active row still has one, under the same name and phone. */
  lemma {:induction false} ActiveRowKept(q: Read, s: People, p: Id, n: nat, m: nat)
    requires IsMergeRead(q, s) && p in s.passengers && s.passengers[p].isActive
    ensures var t := AfterMerge(s, PlanMerge(q).groups).passengers;
      var r := NewOwner(PlanMerge(q).groups, p);
      r in t && t[r].isActive && HumanKey(q.folds)(Row(r, t[r], n)) == HumanKey(q.folds)(Row(p, s.passengers[p], m))
  {
    hide PlanMerge, IsMergeRead, IsGroupOf, HumanKey, IsCandidate, WithFields, GroupFor;
    var groups := PlanMerge(q).groups;
    PlannedApart(q, s);
    PlannedGroups(q);
    NewOwnerIs(groups, p);
    PassengerAfter(s, groups, p);
    SameHuman(q, s, p, n, m);
    if g :| g in groups && Involves(g, p) {
      var h :| IsGroupOf(q, h, g);
      InvolvedOnce(q, s, h, h, g, g, p);
      InvolvedOnce(q, s, h, h, g, g, g.canonical);
      PassengerAfter(s, groups, g.canonical);
      Reactivated(q, s, h, g, p);
      SameHuman(q, s, g.canonical, n, |TicketsOf(s.tickets, g.canonical)|);
      SameRowSameHuman(q.folds, p, s.passengers[p], m, |TicketsOf(s.tickets, p)|);
    }
  }

  lemma {:induction false} Reactivated(q: Read, s: People, h: Human, g: Group, p: Id)
    requires IsMergeRead(q, s) && IsGroupOf(q, h, g) && Involves(g, p) && p in s.passengers && s.passengers[p].isActive
    requires g.canonical in s.passengers
    ensures s.passengers[g.canonical].isActive || g.reactivate
  {
    hide IsCandidate, FilledFields, VerdictOn, Others;
    var members := MembersOf(q.folds, q.rows, h);
    GroupMembers(q, h, g);
    MembersDistinct(q.folds, q.rows, h);
    MergeHasMembers(q, h);
    CanonicalIsPreferred(members);
    var m :| m in members && m.id == p;
    assert m.row.isActive;
  }

  lemma {:induction false} MergeHasMembers(q: Read, h: Human)
    requires VerdictFor(q, h).Merge?
    ensures |MembersOf(q.folds, q.rows, h)| >= 2 && Disagreeing(MembersOf(q.folds, q.rows, h)) == {}
  {
    hide Disagreeing, CollisionsOf, HeldBy, GroupFor;
  }

  // ---- Fields ----

  lemma {:induction false} TrimTwice(s: string)
    ensures Trim(Trim(s)) == Trim(s)
    decreases |s|
  {
    if |s| > 0 {
      if IsSpace(s[0]) {
        TrimTwice(s[1..]);
      } else if IsSpace(s[|s| - 1]) {
        TrimTwice(s[..|s| - 1]);
      }
    }
  }

  lemma {:induction false} ValueTrimmed(row: Passenger, f: Field)
    ensures Trim(ValueOf(row, f)) == ValueOf(row, f)
  {
    TrimTwice(TypeName(row.passengerType));
    TrimTwice(OrElse(row.email, ""));
    TrimTwice(OrElse(row.notes, ""));
  }

  lemma {:induction false} FirstValueFinds(rows: seq<Row>, f: Field)
    ensures FirstValue(rows, f) != "" ==> exists m :: m in rows && ValueOf(m.row, f) == FirstValue(rows, f)
    ensures FirstValue(rows, f) == "" ==> forall m :: m in rows ==> ValueOf(m.row, f) == ""
  {
    if |rows| > 0 {
      assert rows == [rows[0]] + rows[1..];
      FirstValueFinds(rows[1..], f);
    }
  }

  /** Without a disagreement every value in the group is the same one. */
  lemma {:induction false} OneValue(members: seq<Row>, f: Field, a: Row, b: Row)
    requires Disagreeing(members) == {} && a in members && b in members
    ensures ValueOf(a.row, f) != "" && ValueOf(b.row, f) != "" ==> ValueOf(a.row, f) == ValueOf(b.row, f)
  {
    hide ValueOf;
    var values := ValuesOf(members, f);
    assert f in ALL_FIELDS;
    assert f in Disagreeing(members) <==> |values| > 1;
    if ValueOf(a.row, f) != "" && ValueOf(b.row, f) != "" {
      AtMostOne(values, ValueOf(a.row, f), ValueOf(b.row, f));
    }
  }

  lemma {:induction false} AtMostOne(values: set<string>, a: string, b: string)
    requires |values| <= 1 && a in values && b in values
    ensures a == b
  {
    assert values == (values - {a, b}) + {a, b};
    assert |values| == |values - {a, b}| + |{a, b}|;
  }

  /** What the canonical row says of a field once its group is merged. */
  lemma {:induction false} MergedValue(q: Read, s: People, h: Human, g: Group, f: Field)
    requires IsMergeRead(q, s) && IsGroupOf(q, h, g) && g in PlanMerge(q).groups
    ensures var members := MembersOf(q.folds, q.rows, h);
      var t := AfterMerge(s, PlanMerge(q).groups).passengers;
      && |members| > 0 && Disagreeing(members) == {} && DistinctRowIds(members)
      && CanonicalOf(members) in members && CanonicalOf(members).id == g.canonical
      && g.canonical in s.passengers && s.passengers[g.canonical] == CanonicalOf(members).row
      && g.canonical in t
      && ValueOf(t[g.canonical], f) ==
           if f == TYPE || ValueOf(CanonicalOf(members).row, f) != "" then ValueOf(CanonicalOf(members).row, f)
           else FirstValue(Others(members, g.canonical), f)
  {
    hide PlanMerge, VerdictFor, IsCandidate, Disagreeing, ValueOf, AfterMerge;
    var members := MembersOf(q.folds, q.rows, h);
    GroupMembers(q, h, g);
    MembersDistinct(q.folds, q.rows, h);
    MergeHasMembers(q, h);
    CanonicalIsPreferred(members);
    PlannedApart(q, s);
    var c := CanonicalOf(members);
    PassengerAfter(s, PlanMerge(q).groups, c.id);
    var others := Others(members, c.id);
    if f != TYPE && ValueOf(c.row, f) == "" {
      if FirstValue(others, f) != "" {
        FieldFilled(c.row, g, f, others);
      } else {
        FieldUnfilled(c.row, g, f, others);
      }
    } else {
      FieldStays(c.row, g, f, others);
    }
  }

  lemma {:induction false} TypeIsSaid(row: Passenger)
    ensures ValueOf(row, TYPE) != ""
  {
    var name := TypeName(row.passengerType);
    assert !IsSpace(name[0]) && !IsSpace(name[|name| - 1]);
  }

  /** Whatever any row of the group said of any field, the canonical row says afterwards. */
  lemma {:induction false} MergeKeepsFields(q: Read, s: People, h: Human, g: Group, f: Field)
    requires IsMergeRead(q, s) && IsGroupOf(q, h, g) && g in PlanMerge(q).groups
    ensures var t := AfterMerge(s, PlanMerge(q).groups).passengers;
      g.canonical in t && forall m :: m in MembersOf(q.folds, q.rows, h) && ValueOf(m.row, f) != "" ==>
        ValueOf(t[g.canonical], f) == ValueOf(m.row, f)
  {
    hide PlanMerge, IsMergeRead, IsGroupOf, Disagreeing, ValueOf, AfterMerge, MembersOf, CanonicalOf, Others;
    MergedValue(q, s, h, g, f);
    var members := MembersOf(q.folds, q.rows, h);
    var c := CanonicalOf(members);
    TypeIsSaid(c.row);
    forall m | m in members && ValueOf(m.row, f) != "" ensures ValueOf(AfterMerge(s, PlanMerge(q).groups).passengers[g.canonical], f) == ValueOf(m.row, f) {
      OneValue(members, f, c, m);
      if ValueOf(c.row, f) == "" {
        SaidByAnother(members, c, f, m);
      }
    }
  }

  lemma {:induction false} SaidByAnother(members: seq<Row>, c: Row, f: Field, m: Row)
    requires DistinctRowIds(members) && Disagreeing(members) == {} && c in members && m in members
    requires ValueOf(c.row, f) == "" && ValueOf(m.row, f) != ""
    ensures FirstValue(Others(members, c.id), f) == ValueOf(m.row, f)
  {
    hide ValueOf, Disagreeing;
    var others := Others(members, c.id);
    OthersExactly(members, c.id);
    FirstValueFinds(others, f);
    assert m.id != c.id;
    var o :| o in others && ValueOf(o.row, f) == FirstValue(others, f);
    OneValue(members, f, o, m);
  }

  lemma {:induction false} FieldFilled(row: Passenger, g: Group, f: Field, others: seq<Row>)
    requires g.filled == FilledFields(row, others) && f != TYPE && ValueOf(row, f) == "" && FirstValue(others, f) != ""
    requires g.canonical !in g.retired
    ensures ValueOf(MergedRow(g.canonical, row, g), f) == FirstValue(others, f)
  {
    FirstValueFinds(others, f);
    var o :| o in others && ValueOf(o.row, f) == FirstValue(others, f);
    ValueTrimmed(o.row, f);
  }

  lemma {:induction false} FieldUnfilled(row: Passenger, g: Group, f: Field, others: seq<Row>)
    requires g.filled == FilledFields(row, others) && f != TYPE && ValueOf(row, f) == "" && FirstValue(others, f) == ""
    requires g.canonical !in g.retired
    ensures ValueOf(MergedRow(g.canonical, row, g), f) == ""
  {
    hide Trim;
  }

  lemma {:induction false} FieldStays(row: Passenger, g: Group, f: Field, others: seq<Row>)
    requires g.filled == FilledFields(row, others) && (f == TYPE || ValueOf(row, f) != "") && g.canonical !in g.retired
    ensures ValueOf(MergedRow(g.canonical, row, g), f) == ValueOf(row, f)
  {
    hide Trim;
  }

  // ---- The second plan ----

  /** The two reads of one idempotence claim: the second after the first plan was applied. */
  ghost predicate ReadTwice(q: Read, s: People, q2: Read) {
    && IsMergeRead(q, s) && IsMergeRead(q2, AfterMerge(s, PlanMerge(q).groups)) && q2.folds == q.folds
  }

  lemma {:induction false} TicketsMoved(q: Read, s: People, p: Id)
    requires IsMergeRead(q, s)
    ensures var groups := PlanMerge(q).groups;
      var t := AfterMerge(s, groups).tickets;
      && ((exists g :: g in groups && p in g.retired) ==> TicketsOf(t, p) == {})
      && ((forall g :: g in groups ==> !Involves(g, p)) ==> TicketsOf(t, p) == TicketsOf(s.tickets, p))
  {
    hide PlanMerge, IsMergeRead, AfterMerge;
    var groups := PlanMerge(q).groups;
    var t := AfterMerge(s, groups).tickets;
    PlannedApart(q, s);
    TicketsAfter(s, groups);
    forall x | x in s.tickets
      ensures (exists g :: g in groups && p in g.retired) ==> t[x].passengerId != p
      ensures (forall g :: g in groups ==> !Involves(g, p)) ==> (t[x].passengerId == p <==> s.tickets[x].passengerId == p)
    {
      NewOwnerIs(groups, s.tickets[x].passengerId);
      NotRetiredOwner(groups, s.tickets[x].passengerId, p);
    }
  }

  lemma {:induction false} NotRetiredOwner(groups: seq<Group>, owner: Id, p: Id)
    requires Apart(groups)
    ensures (exists g :: g in groups && p in g.retired) ==> NewOwner(groups, owner) != p
  {
    NewOwnerIs(groups, owner);
    if NewOwner(groups, owner) == p {
      if g :| g in groups && p in g.retired {
        if owner != p {
          var f :| f in groups && owner in f.retired && p == f.canonical;
          var i :| 0 <= i < |groups| && groups[i] == g;
          var j :| 0 <= j < |groups| && groups[j] == f;
          assert Involves(groups[i], p) && Involves(groups[j], p);
        }
      }
    }
  }

  /** A row of the second read is a stored passenger after the merge, who was stored before it. */
  lemma {:induction false} SecondRow(q: Read, s: People, q2: Read, x: Row)
    requires ReadTwice(q, s, q2) && x in q2.rows
    ensures IsMergeRead(q, s) && q2.folds == q.folds && x.id in s.passengers
    ensures var t := AfterMerge(s, PlanMerge(q).groups);
      x.id in t.passengers && x.row == t.passengers[x.id] && x.reservations == |TicketsOf(t.tickets, x.id)| && x == Row(x.id, x.row, x.reservations)
  {
    hide PlanMerge, AfterMerge, IsTicketLoad, DistinctRowIds;
    TicketsAfter(s, PlanMerge(q).groups);
  }

  /** A row retired by the merge is no candidate any more. */
  lemma {:induction false} RetiredIsGone(q: Read, s: People, q2: Read, g: Group, x: Row)
    requires ReadTwice(q, s, q2) && g in PlanMerge(q).groups && x in q2.rows && x.id in g.retired
    ensures !IsCandidate(q2.folds, x)
  {
    hide ReadTwice, IsMergeRead, PlanMerge, HumanKey, WithFields, AfterMerge;
    SecondRow(q, s, q2, x);
    PlannedApart(q, s);
    TicketsMoved(q, s, x.id);
    PassengerAfter(s, PlanMerge(q).groups, x.id);
  }

  /** Whoever takes part in no group is read again as they were. */
  lemma {:induction false} SameRowAgain(q: Read, s: People, q2: Read, x: Row)
    requires ReadTwice(q, s, q2) && x in q2.rows && forall g :: g in PlanMerge(q).groups ==> !Involves(g, x.id)
    ensures x.id in s.passengers && x == RowFor(s, x.id)
  {
    hide ReadTwice, IsMergeRead, PlanMerge, AfterMerge, MergedRow;
    SecondRow(q, s, q2, x);
    PlannedApart(q, s);
    PassengerAfter(s, PlanMerge(q).groups, x.id);
    TicketsMoved(q, s, x.id);
  }

  /** A candidate of the second read was one of the first, as the same human. */
  lemma {:induction false} CandidateBefore(q: Read, s: People, q2: Read, x: Row)
    requires ReadTwice(q, s, q2) && x in q2.rows && IsCandidate(q2.folds, x)
    ensures x.id in s.passengers && RowFor(s, x.id) in q.rows && IsCandidate(q.folds, RowFor(s, x.id))
    ensures HumanKey(q.folds)(RowFor(s, x.id)) == HumanKey(q2.folds)(x)
    ensures (forall g :: g in PlanMerge(q).groups ==> !Involves(g, x.id)) ==> x == RowFor(s, x.id)
  {
    hide ReadTwice, IsMergeRead, PlanMerge, HumanKey, AfterMerge, IsGroupOf, IsCandidate;
    SecondRow(q, s, q2, x);
    SameHuman(q, s, x.id, x.reservations, |TicketsOf(s.tickets, x.id)|);
    ReadRow(q, s, x.id);
    if g :| g in PlanMerge(q).groups && Involves(g, x.id) {
      PlannedGroups(q);
      var h :| IsGroupOf(q, h, g);
      InvolvedOnce(q, s, h, h, g, g, x.id);
    } else {
      SameRowAgain(q, s, q2, x);
    }
  }

  lemma {:induction false} ReadRow(q: Read, s: People, p: Id)
    requires IsMergeRead(q, s) && p in s.passengers
    ensures RowFor(s, p) in q.rows
  {
    hide IsTicketLoad, DistinctRowIds;
  }

  lemma {:induction false} MembersBefore(q: Read, s: People, q2: Read, h: Human, x: Row)
    requires ReadTwice(q, s, q2) && x in MembersOf(q2.folds, q2.rows, h)
    ensures x.id in s.passengers && RowFor(s, x.id) in MembersOf(q.folds, q.rows, h)
    ensures (forall g :: g in PlanMerge(q).groups ==> !Involves(g, x.id)) ==> x == RowFor(s, x.id)
  {
    hide PlanMerge, IsCandidate, AfterMerge, IsTicketLoad, RowFor, HumanKey;
    MembersDistinct(q2.folds, q2.rows, h);
    MembersDistinct(q.folds, q.rows, h);
    CandidateBefore(q, s, q2, x);
  }

  lemma {:induction false} TwoApart(rows: seq<Row>)
    requires DistinctRowIds(rows) && |rows| >= 2
    ensures rows[0] in rows && rows[1] in rows && rows[0].id != rows[1].id
  {
  }

  /** A merged human is down to one row. */
  lemma {:induction false} MergedIsAlone(q: Read, s: People, q2: Read, h: Human)
    requires ReadTwice(q, s, q2) && VerdictFor(q, h).Merge?
    ensures |MembersOf(q2.folds, q2.rows, h)| < 2
  {
    hide PlanMerge, VerdictFor, IsCandidate, AfterMerge, IsTicketLoad, RowFor, HumanKey;
    var g := VerdictFor(q, h).group;
    EveryMergeIsPlanned(q, h);
    var members := MembersOf(q2.folds, q2.rows, h);
    MembersDistinct(q2.folds, q2.rows, h);
    GroupMembers(q, h, g);
    forall x | x in members ensures x.id == g.canonical {
      MembersBefore(q, s, q2, h, x);
      if x.id in g.retired { RetiredIsGone(q, s, q2, g, x); }
      OldRowId(s, x.id);
    }
    if |members| >= 2 {
      TwoApart(members);
    }
  }

  lemma {:induction false} OldRowId(s: People, p: Id)
    requires p in s.passengers
    ensures RowFor(s, p).id == p
  {
  }

  lemma {:induction false} WasMember(q: Read, s: People, q2: Read, h: Human, x: Row)
    requires ReadTwice(q, s, q2) && !VerdictFor(q, h).Merge? && x in MembersOf(q2.folds, q2.rows, h)
    ensures x in MembersOf(q.folds, q.rows, h)
  {
    hide PlanMerge, VerdictFor, IsCandidate, AfterMerge, IsTicketLoad, HumanKey, MergedRow;
    MembersDistinct(q.folds, q.rows, h);
    MembersBefore(q, s, q2, h, x);
    NotInvolved(q, s, h, RowFor(s, x.id));
  }

  lemma {:induction false} StaysMember(q: Read, s: People, q2: Read, h: Human, x: Row)
    requires ReadTwice(q, s, q2) && !VerdictFor(q, h).Merge? && x in MembersOf(q.folds, q.rows, h)
    ensures x in MembersOf(q2.folds, q2.rows, h)
  {
    hide PlanMerge, VerdictFor, IsCandidate, AfterMerge, IsMergeRead, HumanKey, MembersOf, RowFor;
    RowsAreRead(q, s);
    RowsAreRead(q2, AfterMerge(s, PlanMerge(q).groups));
    MembersDistinct(q.folds, q.rows, h);
    MembersDistinct(q2.folds, q2.rows, h);
    NotInvolved(q, s, h, x);
    RowUntouched(q, s, x);
  }

  lemma {:induction false} RowsAreRead(q: Read, s: People)
    requires IsMergeRead(q, s)
    ensures IsPassengerLoad(q.rows, s)
  {
  }

  /** A row that no planned group involves is read again as it was. */
  lemma {:induction false} RowUntouched(q: Read, s: People, x: Row)
    requires IsMergeRead(q, s) && x.id in s.passengers && x == RowFor(s, x.id)
    requires forall g :: g in PlanMerge(q).groups ==> !Involves(g, x.id)
    ensures var t := AfterMerge(s, PlanMerge(q).groups); x.id in t.passengers && RowFor(t, x.id) == x
  {
    hide PlanMerge, IsMergeRead, AfterMerge, MergedRow;
    PlannedApart(q, s);
    PassengerAfter(s, PlanMerge(q).groups, x.id);
    TicketsMoved(q, s, x.id);
  }

  /** A human left unmerged has the same rows as before. */
  lemma {:induction false} UntouchedMembers(q: Read, s: People, q2: Read, h: Human)
    requires ReadTwice(q, s, q2) && !VerdictFor(q, h).Merge?
    ensures forall x :: x in MembersOf(q2.folds, q2.rows, h) <==> x in MembersOf(q.folds, q.rows, h)
  {
    hide ReadTwice, VerdictFor, MembersOf;
    forall x ensures x in MembersOf(q2.folds, q2.rows, h) <==> x in MembersOf(q.folds, q.rows, h) {
      if x in MembersOf(q2.folds, q2.rows, h) { WasMember(q, s, q2, h, x); }
      if x in MembersOf(q.folds, q.rows, h) { StaysMember(q, s, q2, h, x); }
    }
  }

  lemma {:induction false} NotInvolved(q: Read, s: People, h: Human, x: Row)
    requires IsMergeRead(q, s) && x in MembersOf(q.folds, q.rows, h) && !VerdictFor(q, h).Merge?
    ensures forall g :: g in PlanMerge(q).groups ==> !Involves(g, x.id)
  {
    hide PlanMerge, VerdictFor, IsCandidate, IsTicketLoad, HumanKey;
    PlannedGroups(q);
    MembersDistinct(q.folds, q.rows, h);
    forall g | g in PlanMerge(q).groups ensures !Involves(g, x.id) {
      var k :| IsGroupOf(q, k, g);
      if Involves(g, x.id) {
        InvolvedOnce(q, s, k, k, g, g, x.id);
      }
    }
  }

  lemma {:induction false} SameDisagreement(a: seq<Row>, b: seq<Row>)
    requires forall x :: x in a <==> x in b
    ensures Disagreeing(a) == Disagreeing(b)
  {
    hide ValueOf;
    forall f ensures ValuesOf(a, f) == ValuesOf(b, f) {
    }
  }

  lemma {:induction false} SameLength(a: seq<Row>, b: seq<Row>)
    requires DistinctRowIds(a) && DistinctRowIds(b) && forall x :: x in a <==> x in b
    ensures |a| == |b|
  {
    SetLength(a, set x | x in a);
    SetLength(b, set x | x in b);
    assert (set x | x in a) == set x | x in b;
  }

  lemma {:induction false} SetLength(a: seq<Row>, all: set<Row>)
    requires DistinctRowIds(a) && forall x :: x in all <==> x in a
    ensures |all| == |a|
  {
    if |a| == 0 {
      assert all == {};
    } else {
      var front, last := a[..|a| - 1], a[|a| - 1];
      assert a == front + [last];
      SetLength(front, all - {last});
    }
  }

  /** The clash that stopped a merge is still there. */
  lemma {:induction false} StillClashes(q: Read, s: People, q2: Read, h: Human)
    requires ReadTwice(q, s, q2) && !VerdictFor(q, h).Merge?
    requires |MembersOf(q.folds, q.rows, h)| >= 2 && |MembersOf(q2.folds, q2.rows, h)| >= 2
    requires CollisionsOf(q.routes, HeldBy(MembersOf(q.folds, q.rows, h), q.tickets)) != []
    ensures CollisionsOf(q2.routes, HeldBy(MembersOf(q2.folds, q2.rows, h), q2.tickets)) != []
  {
    hide PlanMerge, VerdictFor, IsCandidate, HumanKey, CollisionsOf, HeldBy, Clash, IsMergeRead, MembersOf;
    var members, members2 := MembersOf(q.folds, q.rows, h), MembersOf(q2.folds, q2.rows, h);
    ReadRows(q, s);
    ReadRows(q2, AfterMerge(s, PlanMerge(q).groups));
    ReadTickets(q, s);
    ReadTickets(q2, AfterMerge(s, PlanMerge(q).groups));
    MembersDistinct(q.folds, q.rows, h);
    MembersDistinct(q2.folds, q2.rows, h);
    HeldByDistinct(members, q.tickets);
    HeldByDistinct(members2, q2.tickets);
    CollisionsIff(q.routes, HeldBy(members, q.tickets));
    CollisionsIff(q2.routes, HeldBy(members2, q2.tickets));
    TicketsAfter(s, PlanMerge(q).groups);
    var a, b :| a in HeldBy(members, q.tickets) && b in HeldBy(members, q.tickets) && SeatKeyOf(a) == SeatKeyOf(b) && Clash(q.routes, a, b);
    StillHeld(q, s, q2, h, a);
    StillHeld(q, s, q2, h, b);
  }

  lemma {:induction false} ReadTickets(q: Read, s: People)
    requires IsMergeRead(q, s)
    ensures DistinctHeld(q.tickets) && q.routes == s.routes
  {
  }

  lemma {:induction false} StillHeld(q: Read, s: People, q2: Read, h: Human, a: Held)
    requires ReadTwice(q, s, q2) && !VerdictFor(q, h).Merge? && |MembersOf(q2.folds, q2.rows, h)| >= 2
    requires a in q.tickets && exists m :: m in MembersOf(q.folds, q.rows, h) && m.id == a.row.passengerId
    ensures a in q2.tickets && exists m :: m in MembersOf(q2.folds, q2.rows, h) && m.id == a.row.passengerId
  {
    hide PlanMerge, VerdictFor, IsCandidate, HumanKey, IsPassengerLoad, AfterMerge;
    var groups := PlanMerge(q).groups;
    var m :| m in MembersOf(q.folds, q.rows, h) && m.id == a.row.passengerId;
    UntouchedMembers(q, s, q2, h);
    NotInvolved(q, s, h, m);
    PlannedApart(q, s);
    TicketsAfter(s, groups);
    NewOwnerIs(groups, a.row.passengerId);
    assert IsMember(q2, h, a.row.passengerId);
    assert Shares(q2, a.row.passengerId);
  }

  lemma {:induction false} VerdictParts(q: Read, h: Human)
    ensures var members := MembersOf(q.folds, q.rows, h);
      VerdictFor(q, h).Merge? <==>
        |members| >= 2 && Disagreeing(members) == {} && CollisionsOf(q.routes, HeldBy(members, q.tickets)) == []
  {
    hide MembersOf, Disagreeing, CollisionsOf, HeldBy, GroupFor;
  }

  lemma {:induction false} NoMergeAgain(q: Read, s: People, q2: Read, h: Human)
    requires ReadTwice(q, s, q2)
    ensures !VerdictFor(q2, h).Merge?
  {
    hide PlanMerge, VerdictFor, MembersOf, Disagreeing, CollisionsOf, HeldBy, IsMergeRead;
    VerdictParts(q, h);
    VerdictParts(q2, h);
    if VerdictFor(q, h).Merge? {
      MergedIsAlone(q, s, q2, h);
    } else {
      var members, members2 := MembersOf(q.folds, q.rows, h), MembersOf(q2.folds, q2.rows, h);
      UntouchedMembers(q, s, q2, h);
      SameDisagreement(members, members2);
      ReadRows(q, s);
      ReadRows(q2, AfterMerge(s, PlanMerge(q).groups));
      MembersDistinct(q.folds, q.rows, h);
      MembersDistinct(q2.folds, q2.rows, h);
      SameLength(members, members2);
      if |members2| >= 2 && Disagreeing(members2) == {} {
        StillClashes(q, s, q2, h);
      }
    }
  }

  /** The merge is idempotent: planned again after it was applied, there is nobody left to fold. */
  lemma {:induction false} SecondPlanHasNoGroups(q: Read, s: People, q2: Read)
    requires ReadTwice(q, s, q2)
    ensures PlanMerge(q2).groups == []
  {
    hide ReadTwice, VerdictFor;
    var groups := PlanMerge(q2).groups;
    PlannedGroups(q2);
    if |groups| > 0 {
      assert groups[0] in groups;
      var h :| IsGroupOf(q2, h, groups[0]);
      NoMergeAgain(q, s, q2, h);
    }
  }
}
