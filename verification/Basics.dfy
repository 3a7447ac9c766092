/** Small shared vocabulary: optional values, stable sorting, duplicate-free lists. */
module Basics {

  datatype Option<+T> = None | Some(value: T)

  datatype Result<+T, +E> = Ok(value: T) | Err(error: E)

  /** The value, or `fallback` when there is none (the `??` of the source). */
  function OrElse<T>(o: Option<T>, fallback: T): T {
    if o.Some? then o.value else fallback
  }

  lemma {:induction false} AppendAssociates<T>(a: seq<T>, b: seq<T>, c: seq<T>)
    ensures a + (b + c) == (a + b) + c
  {
  }

  ghost predicate Distinct<T>(xs: seq<T>) {
    forall i, j :: 0 <= i < j < |xs| ==> xs[i] != xs[j]
  }

  /** The present values of `f(0)`, ..., `f(n - 1)`, in order. */
  function Collect<B>(n: nat, f: nat -> Option<B>): seq<B> {
    if n == 0 then []
    else match f(n - 1)
      case None => Collect(n - 1, f)
      case Some(y) => Collect(n - 1, f) + [y]
  }

  lemma {:induction false} CollectMembers<B>(n: nat, f: nat -> Option<B>)
    ensures forall y :: y in Collect(n, f) <==> exists i: nat :: i < n && f(i) == Some(y)
  {
    if n > 0 {
      CollectMembers(n - 1, f);
      forall y ensures y in Collect(n, f) <==> exists i: nat :: i < n && f(i) == Some(y) {
        if i: nat :| i < n && f(i) == Some(y) {
          assert i < n - 1 || f(n - 1) == Some(y);
        }
      }
    }
  }

  lemma {:induction false} CollectSource<B>(n: nat, f: nat -> Option<B>, y: B) returns (i: nat)
    requires y in Collect(n, f)
    ensures i < n && f(i) == Some(y)
  {
    if f(n - 1) == Some(y) {
      i := n - 1;
    } else {
      i := CollectSource(n - 1, f, y);
    }
  }

  /** Two places in the output come from two places in the input. */
  lemma {:induction false} CollectSources<B>(n: nat, f: nat -> Option<B>, a: nat, b: nat) returns (i: nat, j: nat)
    requires a < b < |Collect(n, f)|
    ensures i < j < n && f(i) == Some(Collect(n, f)[a]) && f(j) == Some(Collect(n, f)[b])
  {
    if b < |Collect(n - 1, f)| {
      i, j := CollectSources(n - 1, f, a, b);
    } else {
      i := CollectSource(n - 1, f, Collect(n, f)[a]);
      j := n - 1;
    }
  }

  predicate Increasing(xs: seq<int>) {
    forall i, j :: 0 <= i < j < |xs| ==> xs[i] < xs[j]
  }

  lemma {:induction false} AllButLast(a: seq<int>, s: int)
    requires Increasing(a) && |a| > 0
    ensures s in a[..|a| - 1] <==> s in a && s != a[|a| - 1]
  {
    assert a == a[..|a| - 1] + [a[|a| - 1]];
  }

  lemma {:induction false} SameHighest(a: seq<int>, b: seq<int>)
    requires Increasing(a) && Increasing(b) && |a| > 0 && forall x :: x in a <==> x in b
    ensures |b| > 0 && a[|a| - 1] == b[|b| - 1]
  {
    assert a[|a| - 1] in a;
    assert b[|b| - 1] in b;
  }

  lemma {:induction false} IncreasingUnique(a: seq<int>, b: seq<int>)
    requires Increasing(a) && Increasing(b) && forall x :: x in a <==> x in b
    ensures a == b
  {
    assert |b| > 0 ==> b[0] in b;
    if |a| == 0 {
    } else {
      SameHighest(a, b);
      var x, y := a[..|a| - 1], b[..|b| - 1];
      forall s ensures s in x <==> s in y {
        AllButLast(a, s);
        AllButLast(b, s);
      }
      IncreasingUnique(x, y);
      assert a == x + [a[|a| - 1]] && b == y + [b[|b| - 1]];
    }
  }

  /** `ys` is the elements of `xs` at `places`, in their order. */
  ghost predicate PickedAt<T>(xs: seq<T>, ys: seq<T>, places: seq<nat>) {
    && |places| == |ys| && (forall i :: 0 <= i < |places| ==> places[i] < |xs| && ys[i] == xs[places[i]])
    && Increasing(places)
  }

  lemma {:induction false} PickOneMore<T>(xs: seq<T>, ys: seq<T>, places: seq<nat>, n: nat)
    requires PickedAt(xs, ys, places) && n < |xs| && forall i :: 0 <= i < |places| ==> places[i] < n
    ensures PickedAt(xs, ys + [xs[n]], places + [n])
  {
  }

  ghost predicate KeptPlaces<B>(n: nat, f: nat -> Option<B>, places: seq<nat>) {
    forall i: nat :: i in places <==> i < n && f(i).Some?
  }

  lemma {:induction false} KeptOneMore<B>(n: nat, f: nat -> Option<B>, places: seq<nat>)
    requires KeptPlaces(n, f, places)
    ensures KeptPlaces(n + 1, f, if f(n).Some? then places + [n] else places)
    ensures forall i :: 0 <= i < |places| ==> places[i] < n
  {
    assert forall i :: 0 <= i < |places| ==> places[i] in places;
    assert forall i: nat :: i in places + [n] <==> i in places || i == n;
  }

  /** A filter keeps the places it keeps, and no others. */
  lemma {:induction false} CollectPicks<B>(n: nat, f: nat -> Option<B>, xs: seq<B>) returns (places: seq<nat>)
    requires n <= |xs| && forall i: nat :: i < n && f(i).Some? ==> f(i).value == xs[i]
    ensures PickedAt(xs, Collect(n, f), places) && KeptPlaces(n, f, places)
  {
    hide PickedAt, KeptPlaces;
    if n == 0 {
      places := [];
      NothingPicked(xs, Collect(n, f), f);
    } else {
      var front := CollectPicks(n - 1, f, xs);
      KeptOneMore(n - 1, f, front);
      places := if f(n - 1).Some? then front + [n - 1] else front;
      PickOneMore(xs, Collect(n - 1, f), front, n - 1);
    }
  }

  lemma {:induction false} NothingPicked<T>(xs: seq<T>, ys: seq<T>, f: nat -> Option<T>)
    requires ys == []
    ensures PickedAt(xs, ys, []) && KeptPlaces(0, f, [])
  {
  }

  /** Inserts after every element whose key is not larger, as a stable sort does. */
  function InsertBy<T>(xs: seq<T>, x: T, key: T -> int): (r: seq<T>)
    ensures multiset(r) == multiset(xs) + multiset{x}
    ensures |r| == |xs| + 1
  {
    if |xs| == 0 then [x]
    else if key(xs[|xs| - 1]) <= key(x) then xs + [x]
    else
      assert xs == xs[..|xs| - 1] + [xs[|xs| - 1]];
      InsertBy(xs[..|xs| - 1], x, key) + [xs[|xs| - 1]]
  }

  /** A stable ascending sort by an integer key. */
  function SortBy<T>(xs: seq<T>, key: T -> int): (r: seq<T>)
    ensures multiset(r) == multiset(xs)
    ensures |r| == |xs|
  {
    if |xs| == 0 then []
    else
      assert xs == xs[..|xs| - 1] + [xs[|xs| - 1]];
      InsertBy(SortBy(xs[..|xs| - 1], key), xs[|xs| - 1], key)
  }

  ghost predicate Ascending<T>(xs: seq<T>, key: T -> int) {
    forall i, j :: 0 <= i < j < |xs| ==> key(xs[i]) <= key(xs[j])
  }

  lemma {:induction false} InsertByAscending<T>(xs: seq<T>, x: T, key: T -> int)
    requires Ascending(xs, key)
    ensures Ascending(InsertBy(xs, x, key), key)
  {
    if |xs| > 0 && key(xs[|xs| - 1]) > key(x) {
      var front, last := xs[..|xs| - 1], xs[|xs| - 1];
      InsertByAscending(front, x, key);
      var r := InsertBy(front, x, key);
      forall i | 0 <= i < |r| ensures key(r[i]) <= key(last) {
        assert r[i] in multiset(r);
        assert r[i] in multiset(front) || r[i] == x;
      }
    }
  }

  lemma {:induction false} SortByAscending<T>(xs: seq<T>, key: T -> int)
    ensures Ascending(SortBy(xs, key), key)
  {
    if |xs| > 0 {
      SortByAscending(xs[..|xs| - 1], key);
      InsertByAscending(SortBy(xs[..|xs| - 1], key), xs[|xs| - 1], key);
    }
  }

  /** ys is xs by ascending key, rows of one key as they were listed: `at` says where each stood. */
  ghost predicate Reorders<T>(xs: seq<T>, ys: seq<T>, key: T -> int, at: seq<nat>) {
    && |ys| == |xs| && |at| == |xs|
    && (forall i :: 0 <= i < |at| ==> at[i] < |xs| && ys[i] == xs[at[i]])
    && (forall k: nat :: k < |xs| ==> k in at)
    && forall i, j :: 0 <= i < j < |at| ==> key(ys[i]) < key(ys[j]) || (key(ys[i]) == key(ys[j]) && at[i] < at[j])
  }

  ghost predicate InKeyOrder<T>(xs: seq<T>, ys: seq<T>, key: T -> int) {
    exists at: seq<nat> :: Reorders(xs, ys, key, at)
  }

  lemma {:induction false} InsertedBefore<T>(front: seq<T>, last: T, x: T, p: nat)
    requires p <= |front|
    ensures front[..p] + [x] + front[p..] + [last] == (front + [last])[..p] + [x] + (front + [last])[p..]
  {
  }

  lemma {:induction false} InsertByStep<T>(front: seq<T>, last: T, x: T, key: T -> int)
    ensures InsertBy(front + [last], x, key) == if key(last) <= key(x) then front + [last] + [x] else InsertBy(front, x, key) + [last]
    ensures InsertBy([], x, key) == [x]
  {
    assert (front + [last])[..|front|] == front;
  }

  lemma {:induction false} InsertByPlace<T>(xs: seq<T>, x: T, key: T -> int) returns (p: nat)
    requires Ascending(xs, key)
    ensures p <= |xs| && InsertBy(xs, x, key) == xs[..p] + [x] + xs[p..]
    ensures forall i :: 0 <= i < p ==> key(xs[i]) <= key(x)
    ensures forall i :: p <= i < |xs| ==> key(x) < key(xs[i])
  {
    hide InsertBy;
    if |xs| == 0 {
      InsertByStep(xs, x, x, key);
      p := 0;
    } else {
      var front, last := xs[..|xs| - 1], xs[|xs| - 1];
      assert xs == front + [last];
      InsertByStep(front, last, x, key);
      if key(last) <= key(x) {
        p := |xs|;
      } else {
        AscendingFront(xs, key);
        p := InsertByPlace(front, x, key);
        InsertedBefore(front, last, x, p);
      }
    }
  }

  lemma {:induction false} AscendingFront<T>(xs: seq<T>, key: T -> int)
    requires Ascending(xs, key) && |xs| > 0
    ensures Ascending(xs[..|xs| - 1], key)
  {
  }

  lemma {:induction false} InsertKeepsOrder<T>(xs: seq<T>, x: T, ys: seq<T>, key: T -> int, at: seq<nat>, p: nat)
    requires Reorders(xs, ys, key, at) && p <= |ys|
    requires forall i :: 0 <= i < p ==> key(ys[i]) <= key(x)
    requires forall i :: p <= i < |ys| ==> key(x) < key(ys[i])
    ensures Reorders(xs + [x], ys[..p] + [x] + ys[p..], key, at[..p] + [|xs|] + at[p..])
  {
    var r, places := ys[..p] + [x] + ys[p..], at[..p] + [|xs|] + at[p..];
    forall i | 0 <= i < |r|
      ensures i < p ==> r[i] == ys[i] && places[i] == at[i]
      ensures i == p ==> r[i] == x && places[i] == |xs|
      ensures i > p ==> r[i] == ys[i - 1] && places[i] == at[i - 1]
    {
    }
    forall k: nat | k < |xs| + 1 ensures k in places {
      if k < |xs| {
        assert k in at;
        var i :| 0 <= i < |at| && at[i] == k;
        assert places[if i < p then i else i + 1] == k;
      }
    }
  }

  lemma {:induction false} SortByStep<T>(front: seq<T>, x: T, key: T -> int)
    ensures SortBy(front + [x], key) == InsertBy(SortBy(front, key), x, key)
  {
    assert (front + [x])[..|front|] == front;
  }

  lemma {:induction false} InsertByStable<T>(front: seq<T>, x: T, ys: seq<T>, key: T -> int)
    requires InKeyOrder(front, ys, key) && Ascending(ys, key)
    ensures InKeyOrder(front + [x], InsertBy(ys, x, key), key)
  {
    hide InsertBy, Ascending, Reorders;
    var at :| Reorders(front, ys, key, at);
    var p := InsertByPlace(ys, x, key);
    ReordersLength(front, ys, key, at);
    InsertKeepsOrder(front, x, ys, key, at, p);
  }

  lemma {:induction false} ReordersLength<T>(xs: seq<T>, ys: seq<T>, key: T -> int, at: seq<nat>)
    requires Reorders(xs, ys, key, at)
    ensures |ys| == |xs| && |at| == |xs|
  {
  }

  /** The sort is the one stable order. */
  lemma {:induction false} SortByStable<T>(xs: seq<T>, key: T -> int)
    ensures InKeyOrder(xs, SortBy(xs, key), key)
  {
    if |xs| == 0 {
      assert Reorders(xs, SortBy(xs, key), key, []);
    } else {
      var front, x := xs[..|xs| - 1], xs[|xs| - 1];
      assert xs == front + [x];
      SortByStep(front, x, key);
      SortByStable(front, key);
      SortByAscending(front, key);
      hide SortBy, InsertBy, Ascending, InKeyOrder;
      InsertByStable(front, x, SortBy(front, key), key);
    }
  }

  /** The first row in order has the least key and was listed before its equals; the last one the other way round. */
  lemma {:induction false} EndsOfOrder<T>(xs: seq<T>, ys: seq<T>, key: T -> int, at: seq<nat>, k: nat)
    requires Reorders(xs, ys, key, at) && k < |xs|
    ensures key(xs[at[0]]) < key(xs[k]) || (key(xs[at[0]]) == key(xs[k]) && at[0] <= k)
    ensures var last := at[|at| - 1];
      key(xs[k]) < key(xs[last]) || (key(xs[k]) == key(xs[last]) && k <= last)
  {
    assert k in at;
    var p :| 0 <= p < |at| && at[p] == k;
  }

  lemma {:induction false} SamePlaces<T>(xs: seq<T>, ys: seq<T>, zs: seq<T>, key: T -> int, at: seq<nat>, bt: seq<nat>, n: nat)
    requires Reorders(xs, ys, key, at) && Reorders(xs, zs, key, bt) && n <= |xs|
    ensures at[..n] == bt[..n]
  {
    if n > 0 {
      SamePlaces(xs, ys, zs, key, at, bt, n - 1);
      assert forall i :: 0 <= i < n - 1 ==> at[i] == at[..n - 1][i] && bt[i] == bt[..n - 1][i];
      assert at[n - 1] in bt && bt[n - 1] in at;
      var m :| 0 <= m < |bt| && bt[m] == at[n - 1];
      var p :| 0 <= p < |at| && at[p] == bt[n - 1];
    }
  }

  /** There is one stable order. */
  lemma {:induction false} OneKeyOrder<T>(xs: seq<T>, ys: seq<T>, zs: seq<T>, key: T -> int)
    requires InKeyOrder(xs, ys, key) && InKeyOrder(xs, zs, key)
    ensures ys == zs
  {
    var at :| Reorders(xs, ys, key, at);
    var bt :| Reorders(xs, zs, key, bt);
    SamePlaces(xs, ys, zs, key, at, bt, |xs|);
    assert at == at[..|xs|] && bt == bt[..|xs|];
  }

  ghost predicate KeyIdentifies<T>(m: multiset<T>, key: T -> int) {
    forall x, y :: x in m && y in m && key(x) == key(y) ==> x == y
  }

  lemma {:induction false} SameLast<T>(xs: seq<T>, ys: seq<T>, key: T -> int)
    requires Ascending(xs, key) && Ascending(ys, key) && |xs| > 0
    requires multiset(xs) == multiset(ys) && KeyIdentifies(multiset(xs), key)
    ensures |ys| > 0 && xs[|xs| - 1] == ys[|ys| - 1]
  {
    assert xs[|xs| - 1] in multiset(ys);
    assert ys[|ys| - 1] in multiset(xs);
    LastIsLargest(ys, xs[|xs| - 1], key);
    LastIsLargest(xs, ys[|ys| - 1], key);
  }

  /** Two ascending lists of the same elements with no repeated key are one list. */
  lemma {:induction false} AscendingUnique<T>(xs: seq<T>, ys: seq<T>, key: T -> int)
    requires Ascending(xs, key) && Ascending(ys, key)
    requires multiset(xs) == multiset(ys) && KeyIdentifies(multiset(xs), key)
    ensures xs == ys
  {
    if |xs| == 0 {
      assert |multiset(ys)| == 0;
    } else {
      SameLast(xs, ys, key);
      SplitLast(xs);
      SplitLast(ys);
      AscendingFront(xs, key);
      AscendingFront(ys, key);
      hide Ascending;
      AscendingUnique(xs[..|xs| - 1], ys[..|ys| - 1], key);
    }
  }

  lemma {:induction false} SplitLast<T>(xs: seq<T>)
    requires |xs| > 0
    ensures xs == xs[..|xs| - 1] + [xs[|xs| - 1]]
    ensures multiset(xs[..|xs| - 1]) == multiset(xs) - multiset{xs[|xs| - 1]}
    ensures multiset(xs[..|xs| - 1]) <= multiset(xs)
    ensures xs[|xs| - 1] in multiset(xs)
  {
    assert xs == xs[..|xs| - 1] + [xs[|xs| - 1]];
  }

  lemma {:induction false} LastIsLargest<T>(xs: seq<T>, x: T, key: T -> int)
    requires Ascending(xs, key) && x in multiset(xs)
    ensures key(x) <= key(xs[|xs| - 1])
  {
    var i :| 0 <= i < |xs| && xs[i] == x;
  }
}
