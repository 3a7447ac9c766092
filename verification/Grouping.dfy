/** Rows gathered under keys in a map, which iterates in the order its keys were first added. */
module Grouping {
  import opened Basics

  function KeysOf<T, K(==)>(rows: seq<T>, key: T -> K): seq<K> {
    if |rows| == 0 then []
    else
      var before, k := KeysOf(rows[..|rows| - 1], key), key(rows[|rows| - 1]);
      if k in before then before else before + [k]
  }

  function RowsUnder<T, K(==)>(rows: seq<T>, key: T -> K, k: K): seq<T> {
    if |rows| == 0 then []
    else RowsUnder(rows[..|rows| - 1], key, k) + if key(rows[|rows| - 1]) == k then [rows[|rows| - 1]] else []
  }

  lemma {:induction false} KeysExactly<T, K(!new)>(rows: seq<T>, key: T -> K)
    ensures forall k :: k in KeysOf(rows, key) <==> exists x :: x in rows && key(x) == k
    ensures Distinct(KeysOf(rows, key))
  {
    if |rows| > 0 {
      KeysExactly(rows[..|rows| - 1], key);
      assert rows == rows[..|rows| - 1] + [rows[|rows| - 1]];
    }
  }

  lemma {:induction false} RowsExactly<T, K>(rows: seq<T>, key: T -> K, k: K)
    ensures forall x :: x in RowsUnder(rows, key, k) <==> x in rows && key(x) == k
  {
    if |rows| > 0 {
      RowsExactly(rows[..|rows| - 1], key, k);
      assert rows == rows[..|rows| - 1] + [rows[|rows| - 1]];
    }
  }

  lemma {:induction false} RowsDistinct<T, K>(rows: seq<T>, key: T -> K, k: K)
    requires Distinct(rows)
    ensures Distinct(RowsUnder(rows, key, k))
  {
    if |rows| > 0 {
      var front, last := rows[..|rows| - 1], rows[|rows| - 1];
      RowsDistinct(front, key, k);
      RowsExactly(front, key, k);
      assert forall i :: 0 <= i < |front| ==> front[i] == rows[i];
    }
  }

  method GroupBy<T, K(==)>(rows: seq<T>, key: T -> K) returns (keys: seq<K>, groups: map<K, seq<T>>)
    ensures keys == KeysOf(rows, key)
    ensures forall k :: k in groups <==> k in keys
    ensures forall k :: k in groups ==> groups[k] == RowsUnder(rows, key, k)
  {
    keys, groups := [], map[];
    var i := 0;
    while i < |rows|
      invariant 0 <= i <= |rows|
      invariant keys == KeysOf(rows[..i], key)
      invariant forall k :: k in groups <==> k in keys
      invariant forall k :: (if k in groups then groups[k] else []) == RowsUnder(rows[..i], key, k)
    {
      var k := key(rows[i]);
      assert rows[..i + 1][..i] == rows[..i];
      if k in groups {
        groups := groups[k := groups[k] + [rows[i]]];
      } else {
        keys := keys + [k];
        groups := groups[k := [rows[i]]];
      }
      i := i + 1;
    }
    assert rows[..|rows|] == rows;
  }
}
