/**
 * `departure-link.ts`: which stored departure a reservation belongs to, from the times it
 * carries. One rule in three forms: a query limited to two rows, an index folded over many
 * rows, and the list the backfill keeps for every key.
 */
module LinkRule {
  import opened Basics
  import opened Calendar
  import opened Timetable
  import opened Tables

  datatype LinkKey = LinkKey(rideId: Id, date: string, departureTime: string)

  /** `departureLinkKey`. */
  function KeyText(k: LinkKey): string {
    k.rideId + ":" + k.date + ":" + k.departureTime
  }

  predicate NoColon(s: string) {
    forall i :: 0 <= i < |s| ==> s[i] != ':'
  }

  lemma {:induction false} ColonAt(a: string, rest: string, k: nat)
    requires NoColon(a) && k <= |a|
    ensures (a + ":" + rest)[k] == ':' <==> k == |a|
  {
    assert k < |a| ==> (a + ":" + rest)[k] == a[k];
  }

  /** The first colon ends the first part. */
  lemma {:induction false} FirstPart(a: string, rest: string, b: string, more: string)
    requires NoColon(a) && NoColon(b) && a + ":" + rest == b + ":" + more
    ensures a == b && rest == more
  {
    var x, y := a + ":" + rest, b + ":" + more;
    var n := if |a| <= |b| then |a| else |b|;
    ColonAt(a, rest, n);
    ColonAt(b, more, n);
    assert x[..n] == a && y[..n] == b;
    assert x[n + 1..] == rest && y[n + 1..] == more;
  }

  /** With parts of one width, whatever the rides are. */
  lemma {:induction false} KeyTextOfWidth(a: LinkKey, b: LinkKey)
    requires |a.date| == |b.date| && |a.departureTime| == |b.departureTime| && KeyText(a) == KeyText(b)
    ensures a == b
  {
    var n := |a.rideId|;
    assert KeyText(a) == a.rideId + (":" + a.date + ":" + a.departureTime);
    assert KeyText(b) == b.rideId + (":" + b.date + ":" + b.departureTime);
    assert a.rideId == KeyText(a)[..n] == KeyText(b)[..n] == b.rideId;
    assert a.date == KeyText(a)[n + 1..n + 1 + |a.date|] == b.date;
    assert a.departureTime == KeyText(a)[n + 2 + |a.date|..] == b.departureTime;
  }

  predicate NoDash(s: string) {
    forall i :: 0 <= i < |s| ==> s[i] != '-'
  }

  /** The last dash of a text is the second of its date, so it says how wide the time is. */
  lemma {:induction false} LastDash(a: LinkKey, k: nat)
    requires IsDate(a.date) && NoDash(a.departureTime) && k <= |a.departureTime|
    ensures var x := KeyText(a); |x| >= 4 + k && (x[|x| - 4 - k] == '-' <==> k == |a.departureTime|)
  {
    hide ValidCivil, CivilFrom;
    var x, n := KeyText(a), |a.rideId|;
    assert forall i :: 0 <= i < 10 ==> x[n + 1 + i] == a.date[i];
    assert forall i :: 0 <= i < |a.departureTime| ==> x[n + 12 + i] == a.departureTime[i];
    assert x[n + 11] == ':';
  }

  /**
   * The text names its three parts where dates are dates and times hold no dash, whatever the
   * rides are; also where rides and dates are written without a colon, whatever the times are,
   * and where dates and times have one width.
   */
  lemma {:induction false} KeyTextNames(a: LinkKey, b: LinkKey)
    requires (IsDate(a.date) && IsDate(b.date) && NoDash(a.departureTime) && NoDash(b.departureTime))
      || (NoColon(a.rideId) && NoColon(b.rideId) && NoColon(a.date) && NoColon(b.date))
      || (|a.date| == |b.date| && |a.departureTime| == |b.departureTime|)
    ensures KeyText(a) == KeyText(b) <==> a == b
  {
    hide NoDash, NoColon;
    if KeyText(a) == KeyText(b) {
      if NoColon(a.rideId) && NoColon(b.rideId) && NoColon(a.date) && NoColon(b.date) {
        assert KeyText(a) == a.rideId + ":" + (a.date + ":" + a.departureTime);
        assert KeyText(b) == b.rideId + ":" + (b.date + ":" + b.departureTime);
        FirstPart(a.rideId, a.date + ":" + a.departureTime, b.rideId, b.date + ":" + b.departureTime);
        FirstPart(a.date, a.departureTime, b.date, b.departureTime);
      } else {
        if IsDate(a.date) && IsDate(b.date) && NoDash(a.departureTime) && NoDash(b.departureTime) {
          var k := if |a.departureTime| <= |b.departureTime| then |a.departureTime| else |b.departureTime|;
          LastDash(a, k);
          LastDash(b, k);
        }
        KeyTextOfWidth(a, b);
      }
    }
  }

  /** Past what the tables hold, where a date is no date and a ride's ID has a colon, two keys can share a text. */
  lemma {:induction false} KeyTextCollides()
    ensures var a, b := LinkKey("r:d", "e", "t"), LinkKey("r", "d:e", "t");
      a != b && KeyText(a) == KeyText(b)
  {
    assert |"r:d"| != |"r"|;
  }

  /** What the matching reads of a departure. */
  datatype LinkRow = LinkRow(id: Id, key: LinkKey)

  predicate Linkable(source: Source) {
    source == SCHEDULE || source == EXTRA
  }

  function DepartureKey(row: Departure): LinkKey {
    LinkKey(row.rideId, row.serviceDate, row.departureTime)
  }

  function ReservationKey(row: Reservation): LinkKey {
    LinkKey(row.rideId, row.travelDate, row.departureTime)
  }

  /** The departures a key matches, running or not. */
  function CandidateSet(departures: map<Id, Departure>, key: LinkKey): set<Id> {
    set d | d in departures && Linkable(departures[d].source) && DepartureKey(departures[d]) == key
  }

  /** The only one, when there is only one. */
  function Single(ids: seq<Id>): Option<Id> {
    if |ids| == 1 then Some(ids[0]) else None
  }

  /** `findMany` with `take: 2`: two different matches, or all of them when there are fewer. */
  ghost predicate TakesTwo(found: seq<Id>, matches: set<Id>) {
    && Distinct(found)
    && (forall d :: d in found ==> d in matches)
    && |found| == if |matches| < 2 then |matches| else 2
  }

  /** The IDs listed under a key, in the order the rows are listed. */
  function Matching(rows: seq<LinkRow>, key: LinkKey): seq<Id> {
    if |rows| == 0 then []
    else Matching(rows[..|rows| - 1], key) + if rows[|rows| - 1].key == key then [rows[|rows| - 1].id] else []
  }

  /** The index after each row: its ID, or none from the second row under a key on. */
  function Indexed(rows: seq<LinkRow>): map<LinkKey, Option<Id>> {
    if |rows| == 0 then map[]
    else
      var index := Indexed(rows[..|rows| - 1]);
      var last := rows[|rows| - 1];
      index[last.key := if last.key in index then None else Some(last.id)]
  }

  function UniqueMatch(index: map<LinkKey, Option<Id>>, key: LinkKey): Option<Id> {
    if key in index then index[key] else None
  }

  /** `indexLinkableDepartures`. */
  method IndexLinkableDepartures(rows: seq<LinkRow>) returns (index: map<LinkKey, Option<Id>>)
    ensures index == Indexed(rows)
    ensures forall k :: UniqueMatch(index, k) == Single(Matching(rows, k))
  {
    index := map[];
    var i := 0;
    while i < |rows|
      invariant 0 <= i <= |rows|
      invariant index == Indexed(rows[..i])
    {
      var key := rows[i].key;
      assert rows[..i + 1][..i] == rows[..i];
      index := index[key := if key in index then None else Some(rows[i].id)];
      i := i + 1;
    }
    assert rows[..|rows|] == rows;
    forall k { IndexedIsSingle(rows, k); }
  }

  lemma {:induction false} IndexedIsSingle(rows: seq<LinkRow>, key: LinkKey)
    ensures key in Indexed(rows) <==> Matching(rows, key) != []
    ensures UniqueMatch(Indexed(rows), key) == Single(Matching(rows, key))
  {
    if |rows| > 0 {
      IndexedIsSingle(rows[..|rows| - 1], key);
    }
  }

  ghost predicate DistinctRows(rows: seq<LinkRow>) {
    forall i, j :: 0 <= i < j < |rows| ==> rows[i].id != rows[j].id
  }

  lemma {:induction false} MatchingExactly(rows: seq<LinkRow>, key: LinkKey)
    ensures forall d :: d in Matching(rows, key) <==> LinkRow(d, key) in rows
    ensures DistinctRows(rows) ==> Distinct(Matching(rows, key))
  {
    if |rows| > 0 {
      var front, last := rows[..|rows| - 1], rows[|rows| - 1];
      MatchingExactly(front, key);
      assert rows == front + [last];
    }
  }

  lemma {:induction false} DistinctSize(ids: seq<Id>, all: set<Id>)
    requires Distinct(ids) && (forall d :: d in ids <==> d in all)
    ensures |ids| == |all|
  {
    if |ids| == 0 {
      assert all == {};
    } else {
      var last := ids[|ids| - 1];
      var front := ids[..|ids| - 1];
      assert ids == front + [last];
      DistinctSize(front, all - {last});
    }
  }

  lemma {:induction false} SingleMeansOnly(ids: seq<Id>, all: set<Id>, d: Id)
    requires Distinct(ids) && (forall x :: x in ids <==> x in all)
    ensures Single(ids) == Some(d) <==> all == {d}
  {
    DistinctSize(ids, all);
    if |ids| == 1 {
      assert ids[0] in all;
      assert forall x :: x in all ==> x == ids[0];
      assert all == {ids[0]};
    } else if all == {d} {
      assert false;
    }
  }

  lemma {:induction false} TwoAreEnough(found: seq<Id>, all: set<Id>, d: Id)
    requires TakesTwo(found, all)
    ensures Single(found) == Some(d) <==> all == {d}
  {
    if |found| == 1 {
      assert found[0] in all;
      var rest := all - {found[0]};
      assert |rest| == 0;
      assert all == {found[0]};
    }
  }

  /** The rows an index or a backfill reads hold every departure a key could match. */
  ghost predicate Enumerates(rows: seq<LinkRow>, departures: map<Id, Departure>, key: LinkKey) {
    DistinctRows(rows) && forall d :: LinkRow(d, key) in rows <==> d in CandidateSet(departures, key)
  }

  /** The query, the index and the list agree on every key: the one match, or nothing. */
  lemma {:induction false} OneRuleThreeForms(departures: map<Id, Departure>, rows: seq<LinkRow>, key: LinkKey, found: seq<Id>)
    requires Enumerates(rows, departures, key) && TakesTwo(found, CandidateSet(departures, key))
    ensures Single(found) == UniqueMatch(Indexed(rows), key) == Single(Matching(rows, key))
    ensures forall d :: Single(found) == Some(d) <==> CandidateSet(departures, key) == {d}
  {
    IndexedIsSingle(rows, key);
    MatchingExactly(rows, key);
    forall d
      ensures Single(found) == Some(d) <==> CandidateSet(departures, key) == {d}
      ensures Single(Matching(rows, key)) == Some(d) <==> CandidateSet(departures, key) == {d}
    {
      TwoAreEnough(found, CandidateSet(departures, key), d);
      SingleMeansOnly(Matching(rows, key), CandidateSet(departures, key), d);
    }
  }
}
