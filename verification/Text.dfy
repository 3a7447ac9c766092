/** Strings as the source compares them: code unit by code unit. */
module Text {

  predicate StrLess(a: string, b: string) {
    if |b| == 0 then false
    else if |a| == 0 then true
    else if a[0] != b[0] then a[0] < b[0]
    else StrLess(a[1..], b[1..])
  }

  predicate StrLe(a: string, b: string) {
    !StrLess(b, a)
  }

  lemma {:induction false} StrLessTrichotomy(a: string, b: string)
    ensures StrLess(a, b) || a == b || StrLess(b, a)
    ensures !(StrLess(a, b) && StrLess(b, a))
    ensures StrLess(a, b) ==> a != b
  {
    if |a| > 0 && |b| > 0 && a[0] == b[0] {
      StrLessTrichotomy(a[1..], b[1..]);
      assert a == [a[0]] + a[1..] && b == [b[0]] + b[1..];
    }
  }

  lemma {:induction false} StrLessTransitive(a: string, b: string, c: string)
    requires StrLess(a, b) && StrLess(b, c)
    ensures StrLess(a, c)
  {
    if |a| > 0 && |b| > 0 && |c| > 0 && a[0] == b[0] == c[0] {
      StrLessTransitive(a[1..], b[1..], c[1..]);
    }
  }

  lemma {:induction false} StrLeTransitive(a: string, b: string, c: string)
    requires StrLe(a, b) && StrLe(b, c)
    ensures StrLe(a, c)
  {
    StrLessTrichotomy(a, b);
    StrLessTrichotomy(b, c);
    if StrLess(c, a) {
      if a != b && b != c {
        StrLessTransitive(a, b, c);
        StrLessTrichotomy(a, c);
      }
    }
  }

  /** Equal-length fields joined end to end compare field by field. */
  lemma {:induction false} StrLessConcat(a: string, b: string, c: string, d: string)
    requires |a| == |c|
    ensures StrLess(a + b, c + d) <==> StrLess(a, c) || (a == c && StrLess(b, d))
  {
    if |a| == 0 {
      assert a + b == b && c + d == d;
    } else {
      assert (a + b)[1..] == a[1..] + b && (c + d)[1..] == c[1..] + d;
      StrLessConcat(a[1..], b, c[1..], d);
      assert a == [a[0]] + a[1..] && c == [c[0]] + c[1..];
    }
  }

  // ---- Sorting without repeats ----

  ghost predicate Sorted(ids: seq<string>) {
    forall i, j :: 0 <= i < j < |ids| ==> StrLess(ids[i], ids[j])
  }

  /** `[...new Set(ids)].sort()`. */
  function AddId(sorted: seq<string>, id: string): seq<string> {
    if |sorted| == 0 || StrLess(sorted[|sorted| - 1], id) then sorted + [id]
    else if sorted[|sorted| - 1] == id then sorted
    else AddId(sorted[..|sorted| - 1], id) + [sorted[|sorted| - 1]]
  }

  lemma {:induction false} AddIdSorts(sorted: seq<string>, id: string)
    requires Sorted(sorted)
    ensures Sorted(AddId(sorted, id))
    ensures forall x :: x in AddId(sorted, id) <==> x in sorted || x == id
  {
    if |sorted| > 0 {
      var front, last := sorted[..|sorted| - 1], sorted[|sorted| - 1];
      assert sorted == front + [last];
      StrLessTrichotomy(last, id);
      if StrLess(last, id) {
        forall i | 0 <= i < |front| ensures StrLess(sorted[i], id) {
          StrLessTransitive(sorted[i], last, id);
        }
      } else if last != id {
        AddIdSorts(front, id);
        var r := AddId(front, id);
        forall i | 0 <= i < |r| ensures StrLess(r[i], last) {
          assert r[i] in r;
        }
      }
    }
  }

  method SortedOnce(ids: seq<string>) returns (sorted: seq<string>)
    ensures Sorted(sorted) && forall x :: x in sorted <==> x in ids
  {
    sorted := [];
    var i := 0;
    while i < |ids|
      invariant 0 <= i <= |ids|
      invariant Sorted(sorted) && forall x :: x in sorted <==> x in ids[..i]
    {
      AddIdSorts(sorted, ids[i]);
      sorted := AddId(sorted, ids[i]);
      i := i + 1;
    }
    assert ids[..|ids|] == ids;
  }

  /** As many letters as asked for. */
  function Tally(n: nat): string {
    seq(n, i => 'x')
  }
}
