/** The order the renderer puts tick rows in: Python's stable `list.sort` keyed
    by `row.get("t_rel", 0.0)`, here a stable insertion sort over rows whose
    keys are numbers. */
module TickOrder {
  import opened Base
  import opened JsonData

  /** The sort key of a row, when it is a number Python can compare. */
  function Key(o: Obj): Option<real> {
    Number(Get(o, "t_rel", JReal(0.0)))
  }

  predicate NumericKey(o: Obj) {
    Key(o).Some?
  }

  /** The key as a real; rows without a numeric key never reach a comparison. */
  function KeyOf(o: Obj): real {
    Key(o).GetOr(0.0)
  }

  /** A missing `t_rel` sorts as 0.0. */
  lemma MissingKeyIsZero(o: Obj)
    requires "t_rel" !in o
    ensures NumericKey(o) && KeyOf(o) == 0.0
  {
  }

  predicate Sorted(s: seq<Obj>) {
    forall i, j :: 0 <= i < j < |s| ==> KeyOf(s[i]) <= KeyOf(s[j])
  }

  /** The rows of `s` whose key is `v`, in their order in `s`. */
  function WithKey(s: seq<Obj>, v: real): (r: seq<Obj>)
    ensures |r| <= |s|
  {
    if |s| == 0 then []
    else WithKey(s[..|s| - 1], v) + (if KeyOf(s[|s| - 1]) == v then [s[|s| - 1]] else [])
  }

  /** Place `x` after every row whose key is at most its own. */
  function Insert(x: Obj, s: seq<Obj>): (r: seq<Obj>)
    ensures multiset(r) == multiset(s) + multiset{x}
    ensures |r| == |s| + 1
  {
    if |s| == 0 then [x]
    else if KeyOf(s[0]) > KeyOf(x) then [x] + s
    else
      assert s == [s[0]] + s[1..];
      [s[0]] + Insert(x, s[1..])
  }

  /** Python's stable sort of the rows by key. */
  function SortRows(s: seq<Obj>): (r: seq<Obj>)
    ensures multiset(r) == multiset(s)
    ensures |r| == |s|
  {
    if |s| == 0 then []
    else
      assert s == s[..|s| - 1] + [s[|s| - 1]];
      Insert(s[|s| - 1], SortRows(s[..|s| - 1]))
  }

  lemma {:induction false} InsertSorted(x: Obj, s: seq<Obj>)
    requires Sorted(s)
    ensures Sorted(Insert(x, s))
  {
    if |s| > 0 && KeyOf(s[0]) <= KeyOf(x) {
      InsertSorted(x, s[1..]);
      var r := Insert(x, s);
      assert r == [s[0]] + Insert(x, s[1..]);
      forall k | 0 <= k < |r|
        ensures KeyOf(s[0]) <= KeyOf(r[k])
      {
        if k > 0 {
          assert r[k] in multiset(Insert(x, s[1..]));
          assert r[k] in multiset(s[1..]) + multiset{x};
          if r[k] in multiset(s[1..]) {
            var j :| 0 <= j < |s[1..]| && s[1..][j] == r[k];
            assert s[1..][j] == s[j + 1];
          }
        }
      }
    }
  }

  /** The sorted result is ordered by key. */
  lemma {:induction false} SortRowsSorted(s: seq<Obj>)
    ensures Sorted(SortRows(s))
  {
    if |s| > 0 {
      SortRowsSorted(s[..|s| - 1]);
      InsertSorted(s[|s| - 1], SortRows(s[..|s| - 1]));
    }
  }

  lemma {:induction false} WithKeyAppend(s: seq<Obj>, t: seq<Obj>, v: real)
    ensures WithKey(s + t, v) == WithKey(s, v) + WithKey(t, v)
    decreases |t|
  {
    if |t| == 0 {
      assert s + t == s;
    } else {
      assert (s + t)[..|s + t| - 1] == s + t[..|t| - 1];
      WithKeyAppend(s, t[..|t| - 1], v);
    }
  }

  lemma {:induction false} WithKeyAboveIsEmpty(s: seq<Obj>, v: real)
    requires forall k :: 0 <= k < |s| ==> KeyOf(s[k]) > v
    ensures WithKey(s, v) == []
  {
    if |s| > 0 {
      WithKeyAboveIsEmpty(s[..|s| - 1], v);
    }
  }

  lemma WithKeySingle(x: Obj, v: real)
    ensures WithKey([x], v) == (if KeyOf(x) == v then [x] else [])
  {
    assert [x][..0] == [];
  }

  lemma {:induction false} InsertWithKey(x: Obj, s: seq<Obj>, v: real)
    requires Sorted(s)
    ensures WithKey(Insert(x, s), v) == WithKey(s, v) + (if KeyOf(x) == v then [x] else [])
  {
    WithKeySingle(x, v);
    if |s| == 0 {
      assert Insert(x, s) == [x];
      assert WithKey(s, v) == [];
    } else if KeyOf(s[0]) > KeyOf(x) {
      InsertAtFrontWithKey(x, s, v);
    } else {
      InsertWithKey(x, s[1..], v);
      InsertPastHeadWithKey(x, s, v);
    }
  }

  lemma InsertAtFrontWithKey(x: Obj, s: seq<Obj>, v: real)
    requires Sorted(s) && |s| > 0 && KeyOf(s[0]) > KeyOf(x)
    ensures WithKey(Insert(x, s), v) == WithKey(s, v) + (if KeyOf(x) == v then [x] else [])
  {
    WithKeySingle(x, v);
    assert Insert(x, s) == [x] + s;
    WithKeyAppend([x], s, v);
    if KeyOf(x) == v {
      forall k | 0 <= k < |s|
        ensures KeyOf(s[k]) > v
      {
        assert KeyOf(s[0]) <= KeyOf(s[k]);
      }
      WithKeyAboveIsEmpty(s, v);
    }
  }

  lemma InsertPastHeadWithKey(x: Obj, s: seq<Obj>, v: real)
    requires |s| > 0 && KeyOf(s[0]) <= KeyOf(x)
    requires WithKey(Insert(x, s[1..]), v) == WithKey(s[1..], v) + (if KeyOf(x) == v then [x] else [])
    ensures WithKey(Insert(x, s), v) == WithKey(s, v) + (if KeyOf(x) == v then [x] else [])
  {
    var tail := if KeyOf(x) == v then [x] else [];
    var rest := Insert(x, s[1..]);
    assert Insert(x, s) == [s[0]] + rest;
    WithKeyAppend([s[0]], rest, v);
    WithKeyAppend([s[0]], s[1..], v);
    assert [s[0]] + s[1..] == s;
    var head := WithKey([s[0]], v);
    assert WithKey(Insert(x, s), v) == head + (WithKey(s[1..], v) + tail);
    assert WithKey(s, v) == head + WithKey(s[1..], v);
  }

  /** Stability: rows with equal keys keep their original relative order. */
  lemma {:induction false} SortRowsStable(s: seq<Obj>, v: real)
    ensures WithKey(SortRows(s), v) == WithKey(s, v)
  {
    if |s| > 0 {
      var init := s[..|s| - 1];
      SortRowsStable(init, v);
      SortRowsSorted(init);
      InsertWithKey(s[|s| - 1], SortRows(init), v);
    }
  }

  /** Rows already in key order are left exactly as they are. */
  lemma {:induction false} SortRowsKeepsSorted(s: seq<Obj>)
    requires Sorted(s)
    ensures SortRows(s) == s
  {
    if |s| > 0 {
      var init := s[..|s| - 1];
      assert Sorted(init);
      SortRowsKeepsSorted(init);
      AppendLargest(s[|s| - 1], init);
      assert init + [s[|s| - 1]] == s;
    }
  }

  lemma {:induction false} AppendLargest(x: Obj, s: seq<Obj>)
    requires forall k :: 0 <= k < |s| ==> KeyOf(s[k]) <= KeyOf(x)
    ensures Insert(x, s) == s + [x]
  {
    if |s| > 0 {
      var t := s[1..];
      forall k | 0 <= k < |t|
        ensures KeyOf(t[k]) <= KeyOf(x)
      {
        assert t[k] == s[k + 1];
      }
      AppendLargest(x, t);
      assert Insert(x, s) == [s[0]] + Insert(x, t);
      assert [s[0]] + (t + [x]) == s + [x];
    }
  }
}
