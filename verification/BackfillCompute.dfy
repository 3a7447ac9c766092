/** `computeDepartureBackfill`, as the source runs it: maps and lists filled in one pass after another. */
module BackfillCompute {
  import opened Basics
  import opened Text
  import opened Timetable
  import opened Tables
  import opened LinkRule
  import opened LegacyRows
  import opened Backfill

  function Listed<K, V>(lists: map<K, seq<V>>, key: K): seq<V> {
    if key in lists then lists[key] else []
  }

  function AddTo<K, V>(lists: map<K, seq<V>>, key: K, value: V): map<K, seq<V>> {
    lists[key := Listed(lists, key) + [value]]
  }

  method FilterHistory(b: Input) returns (creates: seq<Planned>)
    ensures creates == HistoryCreates(b)
  {
    var wanted := set u | u in b.rows :: ReservationKey(u.row);
    var storedKeys := set x | x in b.stored && PlannedKeyOf(x.row).Some? :: PlannedKeyOf(x.row).value;
    forall p: Planned ensures PlannedLinkKey(p) in wanted <==> Wanted(b.rows, PlannedLinkKey(p)) {
    }
    forall k: PlanKey ensures k in storedKeys <==> StoredPlanned(b.stored, k) {
      if x :| x in b.stored && PlannedKeyOf(x.row) == Some(k) {
        assert PlannedKeyOf(x.row).value in storedKeys;
      }
    }
    creates := [];
    var i := 0;
    while i < |b.history|
      invariant 0 <= i <= |b.history|
      invariant creates == Collect(i, HistoryAt(b))
    {
      var p := b.history[i];
      if StrLess(p.serviceDate, b.today) && p.key !in storedKeys && PlannedLinkKey(p) in wanted {
        creates := creates + [p];
      }
      i := i + 1;
    }
  }

  lemma {:induction false} MatchingAppend(rows: seq<LinkRow>, more: LinkRow, key: LinkKey)
    ensures Matching(rows + [more], key) == Matching(rows, key) + if more.key == key then [more.id] else []
  {
    assert (rows + [more])[..|rows|] == rows;
  }

  lemma {:induction false} LegacyStoredStep(stored: seq<StoredRow>, i: nat, key: LinkKey)
    requires i < |stored|
    ensures LegacyStored(stored[..i + 1], key)
      == if stored[i].row.source == LEGACY && DepartureKey(stored[i].row) == key then Some(stored[i]) else LegacyStored(stored[..i], key)
  {
    assert stored[..i + 1][..i] == stored[..i];
  }

  lemma {:induction false} StoredStep(b: Input, i: nat, k: LinkKey)
    requires i < |b.stored|
    ensures LegacyStored(b.stored[..i + 1], k)
      == if b.stored[i].row.source == LEGACY && DepartureKey(b.stored[i].row) == k then Some(b.stored[i]) else LegacyStored(b.stored[..i], k)
    ensures Matching(Collect(i + 1, StoredLinkAt(b)), k) == Matching(Collect(i, StoredLinkAt(b)), k)
      + if Linkable(b.stored[i].row.source) && DepartureKey(b.stored[i].row) == k then [b.stored[i].id] else []
  {
    hide Matching, LegacyStored;
    LegacyStoredStep(b.stored, i, k);
    MatchingAppend(Collect(i, StoredLinkAt(b)), LinkRow(b.stored[i].id, DepartureKey(b.stored[i].row)), k);
  }

  lemma {:induction false} NothingStored(b: Input)
    ensures forall k :: Matching(Collect(0, StoredLinkAt(b)), k) == [] && LegacyStored([], k) == None
  {
  }

  /** The two indexes over the stored departures. */
  method IndexStoredDepartures(b: Input) returns (candidates: map<LinkKey, seq<Id>>, legacyByKey: map<LinkKey, StoredRow>)
    ensures forall k :: Listed(candidates, k) == Matching(Collect(|b.stored|, StoredLinkAt(b)), k)
    ensures forall k :: (if k in legacyByKey then Some(legacyByKey[k]) else None) == LegacyStored(b.stored, k)
  {
    hide Matching, LegacyStored, StoredLinkAt, Collect, DepartureKey;
    candidates, legacyByKey := map[], map[];
    NothingStored(b);
    var i := 0;
    while i < |b.stored|
      invariant 0 <= i <= |b.stored|
      invariant forall k :: Listed(candidates, k) == Matching(Collect(i, StoredLinkAt(b)), k)
      invariant forall k :: (if k in legacyByKey then Some(legacyByKey[k]) else None) == LegacyStored(b.stored[..i], k)
    {
      var key := DepartureKey(b.stored[i].row);
      ghost var lists, legacies := candidates, legacyByKey;
      if Linkable(b.stored[i].row.source) {
        candidates := AddTo(candidates, key, b.stored[i].id);
      } else if b.stored[i].row.source == LEGACY {
        legacyByKey := legacyByKey[key := b.stored[i]];
      }
      forall k
        ensures Listed(candidates, k) == Matching(Collect(i + 1, StoredLinkAt(b)), k)
        ensures (if k in legacyByKey then Some(legacyByKey[k]) else None) == LegacyStored(b.stored[..i + 1], k)
      {
        StoredStep(b, i, k);
        assert Listed(lists, k) == Matching(Collect(i, StoredLinkAt(b)), k);
        assert (if k in legacies then Some(legacies[k]) else None) == LegacyStored(b.stored[..i], k);
      }
      i := i + 1;
    }
    assert b.stored[..|b.stored|] == b.stored;
  }

  method AddHistoryCandidates(b: Input, creates: seq<Planned>, before: map<LinkKey, seq<Id>>) returns (candidates: map<LinkKey, seq<Id>>)
    requires creates == HistoryCreates(b)
    requires forall k :: Listed(before, k) == Matching(Collect(|b.stored|, StoredLinkAt(b)), k)
    ensures forall k :: Listed(candidates, k) == CandidateIds(b, k)
  {
    hide StoredLinkAt, HistoryAt, Matching, PlannedLinkKey;
    candidates := before;
    ghost var rows := Collect(|b.stored|, StoredLinkAt(b));
    ghost var links := CreatedLinks(b, creates);
    assert rows + links[..0] == rows;
    var i := 0;
    while i < |creates|
      invariant 0 <= i <= |creates|
      invariant forall k :: Listed(candidates, k) == Matching(rows + links[..i], k)
    {
      var key := PlannedLinkKey(creates[i]);
      assert rows + links[..i + 1] == (rows + links[..i]) + [LinkRow(b.newId(creates[i].key), key)];
      ghost var lists := candidates;
      candidates := AddTo(candidates, key, b.newId(creates[i].key));
      forall k ensures Listed(candidates, k) == Matching(rows + links[..i + 1], k) {
        MatchingAppend(rows + links[..i], LinkRow(b.newId(creates[i].key), key), k);
        assert Listed(lists, k) == Matching(rows + links[..i], k);
      }
      i := i + 1;
    }
    assert links[..|links|] == links;
  }

  method IndexRows(rows: seq<Unlinked>) returns (byId: map<Id, Unlinked>)
    ensures forall r :: (if r in byId then Some(byId[r]) else None) == RowById(rows, r)
  {
    byId := map[];
    var i := 0;
    while i < |rows|
      invariant 0 <= i <= |rows|
      invariant forall r :: (if r in byId then Some(byId[r]) else None) == RowById(rows[..i], r)
    {
      byId := byId[rows[i].id := rows[i]];
      assert rows[..i + 1][..i] == rows[..i];
      i := i + 1;
    }
    assert rows[..|rows|] == rows;
  }

  method ReadManualLinks(b: Input, candidates: map<LinkKey, seq<Id>>)
    returns (done: set<Id>, chosen: map<Id, Id>, invalid: seq<(ManualLink, Problem)>)
    requires forall k :: Listed(candidates, k) == CandidateIds(b, k)
    ensures ManualState(done, chosen, invalid) == ManualAfter(b, b.manual)
  {
    hide CandidateIds;
    var byId := IndexRows(b.rows);
    done, chosen, invalid := {}, map[], [];
    var i := 0;
    while i < |b.manual|
      invariant 0 <= i <= |b.manual|
      invariant ManualState(done, chosen, invalid) == ManualAfter(b, b.manual[..i])
    {
      var link := b.manual[i];
      assert b.manual[..i + 1][..i] == b.manual[..i];
      ghost var st := ManualState(done, chosen, invalid);
      assert (if link.reservationId in byId then Some(byId[link.reservationId]) else None) == RowById(b.rows, link.reservationId);
      var repeated := link.reservationId in chosen || link.reservationId in done;
      var isLinked := link.reservationId in b.linked;
      if link.reservationId !in byId && !repeated && isLinked && b.linked[link.reservationId] == link.departureId {
        done := done + {link.reservationId};
      } else {
        var problem :=
          if repeated then Some(LISTED_MORE_THAN_ONCE)
          else if link.reservationId !in byId then Some(if isLinked then LINKED_TO_ANOTHER else NOT_IN_TENANT)
          else if link.departureId !in Listed(candidates, ReservationKey(byId[link.reservationId].row)) then Some(WRONG_DEPARTURE)
          else None;
        if problem.Some? {
          invalid := invalid + [(link, problem.value)];
        } else {
          chosen := chosen[link.reservationId := link.departureId];
        }
      }
      i := i + 1;
    }
    assert b.manual[..|b.manual|] == b.manual;
  }

  lemma {:induction false} GroupStep(rows: seq<Unlinked>, u: Unlinked)
    ensures GroupKeys(rows + [u]) == if ReservationKey(u.row) in GroupKeys(rows) then GroupKeys(rows) else GroupKeys(rows) + [ReservationKey(u.row)]
    ensures forall k :: GroupOf(rows + [u], k) == GroupOf(rows, k) + if ReservationKey(u.row) == k then [u] else []
  {
    assert (rows + [u])[..|rows|] == rows;
  }

  lemma {:induction false} NoKeyNoGroup(rows: seq<Unlinked>, key: LinkKey)
    ensures GroupOf(rows, key) == [] <==> key !in GroupKeys(rows)
    ensures Distinct(GroupKeys(rows))
  {
    if |rows| > 0 {
      NoKeyNoGroup(rows[..|rows| - 1], key);
    }
  }

  lemma {:induction false} SortStep(b: Input, chosen: map<Id, Id>, i: nat)
    requires i < |b.rows|
    ensures Collect(i + 1, JoinAt(b, chosen)) == Collect(i, JoinAt(b, chosen))
      + match OutcomeOf(b, chosen, b.rows[i]) case Joins(d, via) => [PlannedLink(b.rows[i].id, d, via)] case _ => []
    ensures Collect(i + 1, UnmatchedRowAt(b, chosen)) == Collect(i, UnmatchedRowAt(b, chosen))
      + match OutcomeOf(b, chosen, b.rows[i]) case OnLegacy => [b.rows[i]] case _ => []
    ensures Collect(i + 1, ReportAt(b, chosen)) == Collect(i, ReportAt(b, chosen))
      + match OutcomeOf(b, chosen, b.rows[i])
        case Reported(reason, fa) => [Report(b.rows[i].id, reason, fa, CandidateIds(b, ReservationKey(b.rows[i].row)))]
        case _ => []
  {
    hide OutcomeOf, CandidateIds;
  }

  /** The pass over the reservations. A map iterates in the order its keys were added: `keys`. */
  method SortReservations(b: Input, candidates: map<LinkKey, seq<Id>>, historyIds: set<Id>, chosen: map<Id, Id>)
    returns (links: seq<PlannedLink>, reported: seq<Report>, keys: seq<LinkKey>, groups: map<LinkKey, seq<Unlinked>>)
    requires forall k :: Listed(candidates, k) == CandidateIds(b, k)
    requires forall d :: d in historyIds <==> IsHistoryId(b, d)
    ensures links == Collect(|b.rows|, JoinAt(b, chosen))
    ensures reported == Collect(|b.rows|, ReportAt(b, chosen))
    ensures keys == GroupKeys(Leftovers(b, chosen))
    ensures forall k :: Listed(groups, k) == GroupOf(Leftovers(b, chosen), k)
  {
    hide CandidateIds, IsHistoryId, JoinAt, ReportAt, UnmatchedRowAt, GroupKeys, GroupOf;
    links, reported, keys, groups := [], [], [], map[];
    var i := 0;
    assert GroupKeys([]) == [] && (forall k :: GroupOf([], k) == []) by { EmptyGroups(); }
    while i < |b.rows|
      invariant 0 <= i <= |b.rows|
      invariant links == Collect(i, JoinAt(b, chosen))
      invariant reported == Collect(i, ReportAt(b, chosen))
      invariant keys == GroupKeys(Collect(i, UnmatchedRowAt(b, chosen)))
      invariant forall k :: Listed(groups, k) == GroupOf(Collect(i, UnmatchedRowAt(b, chosen)), k)
    {
      var u := b.rows[i];
      var key := ReservationKey(u.row);
      var ids := Listed(candidates, key);
      var past := StrLess(u.row.travelDate, b.today);
      ghost var before := Collect(i, UnmatchedRowAt(b, chosen));
      SortStep(b, chosen, i);
      if u.id in chosen {
        links := links + [PlannedLink(u.id, chosen[u.id], MANUAL)];
      } else if |ids| == 1 {
        links := links + [PlannedLink(u.id, ids[0], if ids[0] in historyIds then HISTORY else EXISTING)];
      } else if |ids| == 0 && (past || u.row.status == Cancelled) {
        GroupStep(before, u);
        NoKeyNoGroup(before, key);
        if Listed(groups, key) == [] {
          keys := keys + [key];
        }
        groups := AddTo(groups, key, u);
      } else {
        reported := reported + [Report(u.id, if |ids| == 0 then NO_DEPARTURE else SEVERAL_DEPARTURES,
                                       !past && u.row.status == Active, ids)];
      }
      i := i + 1;
    }
  }

  lemma {:induction false} EmptyGroups()
    ensures GroupKeys([]) == [] && forall k :: GroupOf([], k) == []
  {
  }

  lemma {:induction false} NoSeats(d: Id)
    ensures SeatsOn([], d) == []
  {
  }

  lemma {:induction false} SeatsStep(legacySeats: seq<(Id, int)>, i: nat, d: Id)
    requires i < |legacySeats|
    ensures SeatsOn(legacySeats[..i + 1], d) == SeatsOn(legacySeats[..i], d) + if legacySeats[i].0 == d then [legacySeats[i].1] else []
  {
    assert legacySeats[..i + 1][..i] == legacySeats[..i];
  }

  method IndexSeats(legacySeats: seq<(Id, int)>) returns (byLegacy: map<Id, seq<int>>)
    ensures forall d :: Listed(byLegacy, d) == SeatsOn(legacySeats, d)
  {
    hide SeatsOn;
    byLegacy := map[];
    forall d ensures SeatsOn([], d) == [] { NoSeats(d); }
    var i := 0;
    while i < |legacySeats|
      invariant 0 <= i <= |legacySeats|
      invariant forall d :: Listed(byLegacy, d) == SeatsOn(legacySeats[..i], d)
    {
      ghost var before := byLegacy;
      byLegacy := AddTo(byLegacy, legacySeats[i].0, legacySeats[i].1);
      forall d ensures Listed(byLegacy, d) == SeatsOn(legacySeats[..i + 1], d) {
        SeatsStep(legacySeats, i, d);
        assert Listed(before, d) == SeatsOn(legacySeats[..i], d);
      }
      i := i + 1;
    }
    assert legacySeats[..|legacySeats|] == legacySeats;
  }

  lemma {:induction false} LegacyLinksAppend(b: Input, rows: seq<Unlinked>, more: seq<Unlinked>)
    ensures LegacyLinks(b, rows + more) == LegacyLinks(b, rows) + LegacyLinks(b, more)
  {
    hide LegacyTarget;
  }

  lemma {:induction false} GroupHasKey(rows: seq<Unlinked>, key: LinkKey)
    ensures forall u :: u in GroupOf(rows, key) <==> u in rows && ReservationKey(u.row) == key
  {
    if |rows| > 0 {
      GroupHasKey(rows[..|rows| - 1], key);
      assert rows == rows[..|rows| - 1] + [rows[|rows| - 1]];
    }
  }

  /** What one group becomes: the stored LEGACY departure reused, or a new one, or a ride that was not loaded. */
  method PlaceGroup(b: Input, key: LinkKey, group: seq<Unlinked>, existing: Option<StoredRow>, taken: seq<int>)
    returns (created: Option<PlannedLegacy>, reused: Option<ReusedLegacy>)
    requires existing == LegacyStored(b.stored, key)
    requires existing.Some? ==> taken == SeatsOn(b.legacySeats, existing.value.id)
    ensures existing.Some? ==> created == None && reused == Some(Reused(b, existing.value, group))
    ensures existing.None? && key.rideId in b.rides ==> created == Some(NewLegacy(b, key, group)) && reused == None
    ensures existing.None? && key.rideId !in b.rides ==> created == None && reused == None
  {
    created, reused := None, None;
    if existing.Some? {
      var seats := DuplicateActiveSeats(group, taken);
      reused := Some(ReusedLegacy(existing.value.id, ReservationIds(group), SeatsAbove(group, existing.value.row.capacity), seats));
    } else if key.rideId in b.rides {
      var chosen, all := LegacyArrival(group);
      var seats := DuplicateActiveSeats(group, []);
      assert [] + ActiveSeats(group) == ActiveSeats(group);
      created := Some(PlannedLegacy(b.legacyId(key), key, chosen, b.rides[key.rideId].lineId,
                                    LegacyCapacity(b.rides[key.rideId].capacity, group), ReservationIds(group),
                                    if |all| > 1 then all else [], seats));
    }
  }

  lemma {:induction false} GroupedStep(b: Input, keys: seq<LinkKey>, rows: seq<Unlinked>, i: nat)
    requires i < |keys|
    ensures LegacyLinks(b, Grouped(keys[..i + 1], rows)) == LegacyLinks(b, Grouped(keys[..i], rows)) + LegacyLinks(b, GroupOf(rows, keys[i]))
  {
    assert keys[..i + 1][..i] == keys[..i];
    LegacyLinksAppend(b, Grouped(keys[..i], rows), GroupOf(rows, keys[i]));
  }

  lemma {:induction false} LegacyStep(b: Input, keys: seq<LinkKey>, rows: seq<Unlinked>, i: nat, key: LinkKey)
    requires i < |keys| && key == keys[i]
    ensures Collect(i + 1, NewLegacyAt(b, keys, rows)) == Collect(i, NewLegacyAt(b, keys, rows))
      + if LegacyStored(b.stored, key).None? && key.rideId in b.rides then [NewLegacy(b, key, GroupOf(rows, key))] else []
    ensures Collect(i + 1, ReusedAt(b, keys, rows)) == Collect(i, ReusedAt(b, keys, rows))
      + if LegacyStored(b.stored, key).Some? then [Reused(b, LegacyStored(b.stored, key).value, GroupOf(rows, key))] else []
  {
    hide NewLegacy, Reused, GroupOf, LegacyStored;
  }

  lemma {:induction false} GroupTarget(b: Input, rows: seq<Unlinked>, key: LinkKey)
    ensures LegacyLinks(b, GroupOf(rows, key))
      == seq(|GroupOf(rows, key)|, i requires 0 <= i < |GroupOf(rows, key)| => PlannedLink(GroupOf(rows, key)[i].id, LegacyTarget(b, key), LEFTOVER))
  {
    GroupHasKey(rows, key);
    var group := GroupOf(rows, key);
    forall i | 0 <= i < |group| ensures ReservationKey(group[i].row) == key {
      assert group[i] in group;
    }
  }

  /** The pass over the groups. A ride that was not loaded stops it. */
  method PlaceGroups(b: Input, rows: seq<Unlinked>, keys: seq<LinkKey>, groups: map<LinkKey, seq<Unlinked>>,
                     legacyByKey: map<LinkKey, StoredRow>)
    returns (creates: seq<PlannedLegacy>, reused: seq<ReusedLegacy>, links: seq<PlannedLink>, missing: Option<Id>)
    requires keys == GroupKeys(rows) && forall k :: Listed(groups, k) == GroupOf(rows, k)
    requires forall k :: (if k in legacyByKey then Some(legacyByKey[k]) else None) == LegacyStored(b.stored, k)
    ensures missing.None? <==> RidesLoaded(b, keys)
    ensures missing.Some? ==> missing.value !in b.rides
    ensures missing.None? ==>
      && creates == Collect(|keys|, NewLegacyAt(b, keys, rows))
      && reused == Collect(|keys|, ReusedAt(b, keys, rows))
      && links == LegacyLinks(b, Grouped(keys, rows))
  {
    hide GroupKeys, GroupOf, NewLegacyAt, ReusedAt, NewLegacy, Reused, SeatsOn, LegacyStored, Grouped;
    var byLegacy := IndexSeats(b.legacySeats);
    creates, reused, links, missing := [], [], [], None;
    assert keys[..0] == [] && LegacyLinks(b, Grouped([], rows)) == [] by { NothingGrouped(b, rows); }
    var i := 0;
    while i < |keys|
      invariant 0 <= i <= |keys|
      invariant creates == Collect(i, NewLegacyAt(b, keys, rows))
      invariant reused == Collect(i, ReusedAt(b, keys, rows))
      invariant links == LegacyLinks(b, Grouped(keys[..i], rows))
      invariant RidesLoaded(b, keys[..i])
    {
      var key := keys[i];
      var group := Listed(groups, key);
      var existing := if key in legacyByKey then Some(legacyByKey[key]) else None;
      var created, joined := PlaceGroup(b, key, group, existing,
                                        if existing.Some? then Listed(byLegacy, existing.value.id) else []);
      LegacyStep(b, keys, rows, i, key);
      GroupedStep(b, keys, rows, i);
      GroupTarget(b, rows, key);
      if existing.None? && created.None? {
        missing := Some(key.rideId);
        return;
      }
      var departureId := if created.Some? then created.value.id else existing.value.id;
      creates := creates + if created.Some? then [created.value] else [];
      reused := reused + if joined.Some? then [joined.value] else [];
      links := links + seq(|group|, k requires 0 <= k < |group| => PlannedLink(group[k].id, departureId, LEFTOVER));
      assert departureId == LegacyTarget(b, key);
      assert keys[..i + 1] == keys[..i] + [key];
      i := i + 1;
    }
    assert keys[..|keys|] == keys;
  }

  lemma {:induction false} NothingGrouped(b: Input, rows: seq<Unlinked>)
    ensures LegacyLinks(b, Grouped([], rows)) == []
  {
  }

  /** `computeDepartureBackfill`, with the ride it throws for when one was not loaded. */
  method ComputeDepartureBackfill(b: Input) returns (result: Result<BackfillPlan, Id>)
    ensures result.Ok? <==> RidesLoaded(b, LeftoverKeys(b))
    ensures result.Ok? ==> result.value == PlanBackfill(b)
    ensures result.Err? ==> result.error !in b.rides
  {
    hide CandidateIds, Leftovers, GroupKeys, ManualAfter, HistoryCreates, RidesLoaded;
    var creates := FilterHistory(b);
    var historyIds := set p | p in creates :: b.newId(p.key);
    var candidates, legacyByKey := IndexStoredDepartures(b);
    candidates := AddHistoryCandidates(b, creates, candidates);
    var done, chosen, invalid := ReadManualLinks(b, candidates);
    var links, reported, keys, groups := SortReservations(b, candidates, historyIds, chosen);
    var legacyCreates, reused, more, missing := PlaceGroups(b, Leftovers(b, chosen), keys, groups, legacyByKey);
    if missing.Some? {
      return Err(missing.value);
    }
    return Ok(BackfillPlan(creates, legacyCreates, reused, links + more, reported, |done|, invalid));
  }
}
