/**
 * `departure-backfill.ts`, the LEGACY departures: the arrival time, capacity and repeated
 * seats of a bus rebuilt from the reservations sold on it.
 */
module LegacyRows {
  import opened Basics
  import opened Text
  import opened Timetable
  import opened Tables

  /** A reservation without a departure. */
  datatype Unlinked = Unlinked(id: Id, row: Reservation)

  // ---- Arrival time ----

  /** `byCreation`: the order of sale, IDs breaking ties. */
  predicate SoldBefore(a: Unlinked, b: Unlinked) {
    a.row.createdAt < b.row.createdAt || (a.row.createdAt == b.row.createdAt && StrLe(a.id, b.id))
  }

  function InsertSale(sold: seq<Unlinked>, x: Unlinked): (r: seq<Unlinked>)
    ensures multiset(r) == multiset(sold) + multiset{x}
    ensures |r| == |sold| + 1
  {
    if |sold| == 0 || SoldBefore(sold[|sold| - 1], x) then sold + [x]
    else
      assert sold == sold[..|sold| - 1] + [sold[|sold| - 1]];
      InsertSale(sold[..|sold| - 1], x) + [sold[|sold| - 1]]
  }

  function SaleOrder(group: seq<Unlinked>): (r: seq<Unlinked>)
    ensures multiset(r) == multiset(group)
    ensures |r| == |group|
  {
    if |group| == 0 then []
    else
      assert group == group[..|group| - 1] + [group[|group| - 1]];
      InsertSale(SaleOrder(group[..|group| - 1]), group[|group| - 1])
  }

  ghost predicate InOrder(sold: seq<Unlinked>) {
    forall i, j :: 0 <= i < j < |sold| ==> SoldBefore(sold[i], sold[j])
  }

  lemma {:induction false} SoldBeforeTotal(a: Unlinked, b: Unlinked, c: Unlinked)
    ensures SoldBefore(a, b) || SoldBefore(b, a)
    ensures SoldBefore(a, b) && SoldBefore(b, c) ==> SoldBefore(a, c)
  {
    StrLessTrichotomy(a.id, b.id);
    if StrLe(a.id, b.id) && StrLe(b.id, c.id) {
      StrLeTransitive(a.id, b.id, c.id);
    }
  }

  lemma {:induction false} InsertSaleInOrder(sold: seq<Unlinked>, x: Unlinked)
    requires InOrder(sold)
    ensures InOrder(InsertSale(sold, x))
  {
    if |sold| > 0 {
      var front, last := sold[..|sold| - 1], sold[|sold| - 1];
      if SoldBefore(last, x) {
        forall i | 0 <= i < |sold| ensures SoldBefore(sold[i], x) {
          SoldBeforeTotal(sold[i], last, x);
        }
      } else {
        InsertSaleInOrder(front, x);
        var r := InsertSale(front, x);
        SoldBeforeTotal(x, last, x);
        forall i | 0 <= i < |r| ensures SoldBefore(r[i], last) {
          assert r[i] in multiset(r);
          assert r[i] in multiset(front) || r[i] == x;
        }
      }
    }
  }

  lemma {:induction false} SaleOrderInOrder(group: seq<Unlinked>)
    ensures InOrder(SaleOrder(group))
  {
    if |group| > 0 {
      SaleOrderInOrder(group[..|group| - 1]);
      InsertSaleInOrder(SaleOrder(group[..|group| - 1]), group[|group| - 1]);
    }
  }

  /** How many reservations were sold with an arrival time. */
  function TimeCount(group: seq<Unlinked>, time: string): nat {
    if |group| == 0 then 0
    else TimeCount(group[..|group| - 1], time) + if group[|group| - 1].row.arrivalTime == time then 1 else 0
  }

  lemma {:induction false} TimeCountOfInsert(sold: seq<Unlinked>, x: Unlinked, time: string)
    ensures TimeCount(InsertSale(sold, x), time) == TimeCount(sold, time) + if x.row.arrivalTime == time then 1 else 0
  {
    if |sold| > 0 && !SoldBefore(sold[|sold| - 1], x) {
      TimeCountOfInsert(sold[..|sold| - 1], x, time);
    }
  }

  lemma {:induction false} TimeCountOfOrder(group: seq<Unlinked>, time: string)
    ensures TimeCount(SaleOrder(group), time) == TimeCount(group, time)
  {
    if |group| > 0 {
      TimeCountOfOrder(group[..|group| - 1], time);
      TimeCountOfInsert(SaleOrder(group[..|group| - 1]), group[|group| - 1], time);
    }
  }

  /** The different arrival times, in the order they are first met. */
  function Times(sold: seq<Unlinked>): (times: seq<string>)
    ensures forall t :: t in times <==> exists u :: u in sold && u.row.arrivalTime == t
  {
    if |sold| == 0 then []
    else
      var before, last := Times(sold[..|sold| - 1]), sold[|sold| - 1];
      assert sold == sold[..|sold| - 1] + [last];
      if last.row.arrivalTime in before then before else before + [last.row.arrivalTime]
  }

  /** The first time with the largest count. */
  function FirstBest(times: seq<string>, group: seq<Unlinked>): string {
    if |times| == 0 then ""
    else
      var best := FirstBest(times[..|times| - 1], group);
      if |times| == 1 || TimeCount(group, times[|times| - 1]) > TimeCount(group, best) then times[|times| - 1] else best
  }

  function ArrivalTimes(group: seq<Unlinked>): seq<string> {
    Times(SaleOrder(group))
  }

  function LegacyArrivalOf(group: seq<Unlinked>): string {
    FirstBest(ArrivalTimes(group), group)
  }

  lemma {:induction false} CountedTimes(sold: seq<Unlinked>, time: string)
    ensures TimeCount(sold, time) > 0 <==> time in Times(sold)
  {
    if |sold| > 0 {
      CountedTimes(sold[..|sold| - 1], time);
    }
  }

  /** The first loop: how often each time was sold, and the times as they are met. */
  method CountTimes(sold: seq<Unlinked>) returns (counts: map<string, nat>, all: seq<string>)
    ensures all == Times(sold)
    ensures forall t :: t in counts <==> t in all
    ensures forall t :: t in counts ==> counts[t] == TimeCount(sold, t) > 0
  {
    counts, all := map[], [];
    var i := 0;
    while i < |sold|
      invariant 0 <= i <= |sold|
      invariant all == Times(sold[..i])
      invariant forall t :: t in counts <==> t in all
      invariant forall t :: t in counts ==> counts[t] == TimeCount(sold[..i], t) > 0
    {
      var time := sold[i].row.arrivalTime;
      assert sold[..i + 1][..i] == sold[..i];
      CountedTimes(sold[..i], time);
      if time !in counts {
        all := all + [time];
      }
      counts := counts[time := (if time in counts then counts[time] else 0) + 1];
      i := i + 1;
    }
    assert sold[..|sold|] == sold;
  }

  /** `legacyArrival`. */
  method LegacyArrival(group: seq<Unlinked>) returns (chosen: string, all: seq<string>)
    ensures chosen == LegacyArrivalOf(group) && all == ArrivalTimes(group)
  {
    hide Times, SaleOrder, TimeCount;
    var counts;
    counts, all := CountTimes(SaleOrder(group));
    var best := 0;
    chosen := "";
    var i := 0;
    while i < |all|
      invariant 0 <= i <= |all|
      invariant chosen == FirstBest(all[..i], group)
      invariant best == if i == 0 then 0 else TimeCount(group, chosen)
    {
      var time := all[i];
      assert time in all;
      TimeCountOfOrder(group, time);
      assert all[..i + 1][..i] == all[..i];
      if counts[time] > best {
        chosen, best := time, counts[time];
      }
      i := i + 1;
    }
    assert all[..|all|] == all;
  }

  lemma {:induction false} FirstBestIsBest(times: seq<string>, group: seq<Unlinked>) returns (k: nat)
    requires |times| > 0
    ensures k < |times| && times[k] == FirstBest(times, group)
    ensures forall i :: 0 <= i < |times| ==> TimeCount(group, times[i]) <= TimeCount(group, times[k])
    ensures forall i :: 0 <= i < k ==> TimeCount(group, times[i]) < TimeCount(group, times[k])
  {
    k := |times| - 1;
    if |times| > 1 {
      var j := FirstBestIsBest(times[..|times| - 1], group);
      if TimeCount(group, times[|times| - 1]) <= TimeCount(group, times[j]) {
        k := j;
      }
    }
  }

  /** A time listed earlier has a sale before every sale with a time listed later. */
  lemma {:induction false} ListedBySale(sold: seq<Unlinked>, a: nat, b: nat) returns (p: nat)
    requires a < b < |Times(sold)|
    ensures p < |sold| && sold[p].row.arrivalTime == Times(sold)[a]
    ensures forall q :: 0 <= q < |sold| && sold[q].row.arrivalTime == Times(sold)[b] ==> p < q
  {
    var front := sold[..|sold| - 1];
    TimesDistinct(sold);
    if b < |Times(front)| {
      p := ListedBySale(front, a, b);
    } else {
      p := NewlyListed(sold, a, b);
    }
  }

  lemma {:induction false} NewlyListed(sold: seq<Unlinked>, a: nat, b: nat) returns (p: nat)
    requires a < b < |Times(sold)| && |Times(sold[..|sold| - 1])| <= b && |sold| > 0
    ensures p < |sold| && sold[p].row.arrivalTime == Times(sold)[a]
    ensures forall q :: 0 <= q < |sold| && sold[q].row.arrivalTime == Times(sold)[b] ==> p < q
  {
    var front := sold[..|sold| - 1];
    assert Times(sold)[a] in Times(front);
    assert Times(sold)[b] !in Times(front);
    hide Times;
    var u :| u in front && u.row.arrivalTime == Times(sold)[a];
    p :| 0 <= p < |front| && front[p] == u;
    forall q | 0 <= q < |front| ensures sold[q].row.arrivalTime != Times(sold)[b] {
      assert front[q] in front && front[q].row.arrivalTime in Times(front);
    }
  }

  lemma {:induction false} TimesDistinct(sold: seq<Unlinked>)
    ensures Distinct(Times(sold))
  {
    if |sold| > 0 {
      TimesDistinct(sold[..|sold| - 1]);
    }
  }

  /** Some sale with time `first` came before every sale with time `other`. */
  ghost predicate SoldFirst(group: seq<Unlinked>, first: string, other: string) {
    exists u :: u in group && u.row.arrivalTime == first && forall v :: v in group && v.row.arrivalTime == other ==> SoldBefore(u, v)
  }

  lemma {:induction false} EarlierSale(group: seq<Unlinked>, a: nat, b: nat)
    requires a < b < |ArrivalTimes(group)|
    ensures SoldFirst(group, ArrivalTimes(group)[a], ArrivalTimes(group)[b])
  {
    var sold := SaleOrder(group);
    SaleOrderInOrder(group);
    var p := ListedBySale(sold, a, b);
    assert sold[p] in multiset(group);
    forall v | v in group && v.row.arrivalTime == ArrivalTimes(group)[b] ensures SoldBefore(sold[p], v) {
      assert v in multiset(sold);
      var q :| 0 <= q < |sold| && sold[q] == v;
    }
  }

  /** The chosen time is one sold most often; on a tie, the one sold first. */
  lemma {:induction false} LegacyArrivalIsMostSold(group: seq<Unlinked>)
    requires |group| > 0
    ensures var chosen := LegacyArrivalOf(group);
      && (exists u :: u in group && u.row.arrivalTime == chosen)
      && (forall t :: TimeCount(group, t) <= TimeCount(group, chosen))
      && (forall t :: t != chosen && TimeCount(group, t) == TimeCount(group, chosen) ==> SoldFirst(group, chosen, t))
  {
    hide TimeCount, SaleOrder, FirstBest, SoldFirst;
    var times, sold := ArrivalTimes(group), SaleOrder(group);
    assert sold[0] in sold && sold[0].row.arrivalTime in times;
    var k := FirstBestIsBest(times, group);
    assert times[k] in times;
    var u0 :| u0 in sold && u0.row.arrivalTime == times[k];
    assert u0 in multiset(group);
    CountedTimes(sold, times[k]);
    TimeCountOfOrder(group, times[k]);
    forall t ensures TimeCount(group, t) <= TimeCount(group, times[k]) {
      CountedTimes(sold, t);
      TimeCountOfOrder(group, t);
    }
    forall t | t != times[k] && TimeCount(group, t) == TimeCount(group, times[k])
      ensures SoldFirst(group, times[k], t)
    {
      CountedTimes(sold, t);
      TimeCountOfOrder(group, t);
      var i :| 0 <= i < |times| && times[i] == t;
      EarlierSale(group, k, i);
    }
  }

  // ---- Seats ----

  /** Adds a seat to an increasing list without repeating it. */
  function AddSeat(seats: seq<int>, seat: int): (r: seq<int>)
    requires Increasing(seats)
    ensures Increasing(r)
    ensures forall x :: x in r <==> x in seats || x == seat
  {
    if |seats| == 0 || seats[|seats| - 1] < seat then seats + [seat]
    else
      var front, last := seats[..|seats| - 1], seats[|seats| - 1];
      assert seats == front + [last];
      if last == seat then seats
      else
        var r := AddSeat(front, seat);
        assert forall i :: 0 <= i < |r| ==> r[i] in r;
        r + [last]
  }

  /** The seats met before, in increasing order. */
  function RepeatedSeats(seats: seq<int>): (r: seq<int>)
    ensures Increasing(r)
  {
    if |seats| == 0 then []
    else
      var front, last := seats[..|seats| - 1], seats[|seats| - 1];
      if last in front then AddSeat(RepeatedSeats(front), last) else RepeatedSeats(front)
  }

  /** Exactly the seats that occur at least twice. */
  lemma {:induction false} RepeatedSeatsExactly(seats: seq<int>, seat: int)
    ensures seat in RepeatedSeats(seats) <==> multiset(seats)[seat] >= 2
  {
    if |seats| > 0 {
      var front, last := seats[..|seats| - 1], seats[|seats| - 1];
      assert seats == front + [last];
      RepeatedSeatsExactly(front, seat);
      assert last in front <==> multiset(front)[last] >= 1;
    }
  }

  function ActiveSeats(group: seq<Unlinked>): seq<int> {
    if |group| == 0 then []
    else ActiveSeats(group[..|group| - 1]) + if group[|group| - 1].row.status == Active then [group[|group| - 1].row.seatNumber] else []
  }

  method SortSeats(seats: seq<int>) returns (sorted: seq<int>)
    ensures Increasing(sorted) && forall x :: x in sorted <==> x in seats
  {
    sorted := [];
    var i := 0;
    while i < |seats|
      invariant 0 <= i <= |seats|
      invariant Increasing(sorted) && forall x :: x in sorted <==> x in seats[..i]
    {
      sorted := AddSeat(sorted, seats[i]);
      i := i + 1;
    }
    assert seats[..|seats|] == seats;
  }

  /** The seats met, and the ones met before. */
  ghost predicate Marked(seats: seq<int>, seen: set<int>, repeated: seq<int>) {
    && (forall x :: x in seen <==> x in seats)
    && (forall x :: x in repeated <==> x in RepeatedSeats(seats))
  }

  lemma {:induction false} MarkNext(seats: seq<int>, seen: set<int>, repeated: seq<int>, seat: int)
    requires Marked(seats, seen, repeated)
    ensures Marked(seats + [seat], seen + {seat}, if seat in seen && seat !in repeated then repeated + [seat] else repeated)
  {
    assert (seats + [seat])[..|seats|] == seats;
  }

  method MarkTaken(taken: seq<int>) returns (seen: set<int>, repeated: seq<int>)
    ensures Marked(taken, seen, repeated)
  {
    hide Marked;
    seen, repeated := {}, [];
    NoneMarked();
    assert taken[..0] == [];
    var i := 0;
    while i < |taken|
      invariant 0 <= i <= |taken|
      invariant Marked(taken[..i], seen, repeated)
    {
      assert taken[..i + 1] == taken[..i] + [taken[i]];
      MarkNext(taken[..i], seen, repeated, taken[i]);
      if taken[i] in seen && taken[i] !in repeated {
        repeated := repeated + [taken[i]];
      }
      seen := seen + {taken[i]};
      i := i + 1;
    }
    assert taken[..|taken|] == taken;
  }

  lemma {:induction false} NoneMarked()
    ensures Marked([], {}, [])
  {
  }

  lemma {:induction false} ActiveStep(taken: seq<int>, group: seq<Unlinked>, i: nat)
    requires i < |group|
    ensures taken + ActiveSeats(group[..i + 1]) == taken + ActiveSeats(group[..i]) + if group[i].row.status == Active then [group[i].row.seatNumber] else []
  {
    assert group[..i + 1][..i] == group[..i];
  }

  /** `duplicateActiveSeats`. */
  method DuplicateActiveSeats(group: seq<Unlinked>, taken: seq<int>) returns (duplicates: seq<int>)
    ensures duplicates == RepeatedSeats(taken + ActiveSeats(group))
  {
    hide RepeatedSeats, Marked;
    var seen, repeated := MarkTaken(taken);
    assert taken + ActiveSeats([]) == taken;
    hide ActiveSeats;
    var i := 0;
    while i < |group|
      invariant 0 <= i <= |group|
      invariant Marked(taken + ActiveSeats(group[..i]), seen, repeated)
    {
      var row := group[i].row;
      ghost var before := taken + ActiveSeats(group[..i]);
      ActiveStep(taken, group, i);
      assert before + [] == before;
      if row.status == Active {
        MarkNext(before, seen, repeated, row.seatNumber);
        if row.seatNumber in seen && row.seatNumber !in repeated {
          repeated := repeated + [row.seatNumber];
        }
        seen := seen + {row.seatNumber};
      }
      i := i + 1;
    }
    assert group[..|group|] == group;
    duplicates := SortSeats(repeated);
    MarkedRepeats(taken + ActiveSeats(group), seen, repeated);
    IncreasingUnique(duplicates, RepeatedSeats(taken + ActiveSeats(group)));
  }

  lemma {:induction false} MarkedRepeats(seats: seq<int>, seen: set<int>, repeated: seq<int>)
    requires Marked(seats, seen, repeated)
    ensures forall x :: x in repeated <==> x in RepeatedSeats(seats)
  {
  }

  /** The seats of a group above a capacity, in increasing order and once each. */
  function SeatsAbove(group: seq<Unlinked>, capacity: int): (r: seq<int>)
    ensures Increasing(r)
    ensures forall x :: x in r <==> x > capacity && exists u :: u in group && u.row.seatNumber == x
  {
    if |group| == 0 then []
    else
      var front, last := group[..|group| - 1], group[|group| - 1];
      assert group == front + [last];
      if last.row.seatNumber > capacity then AddSeat(SeatsAbove(front, capacity), last.row.seatNumber)
      else SeatsAbove(front, capacity)
  }

  /** The ride's capacity, raised to the highest seat sold. */
  function LegacyCapacity(capacity: int, group: seq<Unlinked>): (r: int)
    ensures capacity <= r
    ensures forall u :: u in group ==> u.row.seatNumber <= r
    ensures r == capacity || exists u :: u in group && u.row.seatNumber == r
  {
    if |group| == 0 then capacity
    else
      var front, last := group[..|group| - 1], group[|group| - 1];
      assert group == front + [last];
      var below := LegacyCapacity(capacity, front);
      if last.row.seatNumber > below then last.row.seatNumber else below
  }
}
