/** The counting filters `nmt` (no more than) and `nft` (no fewer than): which subsets of
    the clauses they enumerate, and what the formula they build means. */
module Filters {
  import opened Lang
  import opened Formulas

  // Enumerating subsets.

  /** Entry `i * |list2| + j` pairs element `i` of the first list with element `j` of the
      second, and there are no others. */
  predicate Product(product: seq<(string, string)>, list1: seq<string>, list2: seq<string>) {
    && |product| == |list1| * |list2|
    && forall i: nat, j: nat :: i < |list1| && j < |list2| ==> PairAt(product, i * |list2| + j, list1[i], list2[j])
  }

  predicate PairAt(product: seq<(string, string)>, k: nat, a: string, b: string) {
    k < |product| && product[k] == (a, b)
  }

  method Cartesian(list1: seq<string>, list2: seq<string>) returns (product: seq<(string, string)>)
    ensures product == Pairs(list1, list2) && Product(product, list1, list2)
    ensures forall a, b :: (a, b) in product <==> a in list1 && b in list2
  {
    hide Product;
    product := [];
    var i := 0;
    while i < |list1|
      invariant 0 <= i <= |list1| && product + Pairs(list1[i..], list2) == Pairs(list1, list2)
    {
      assert list1[i..][0] == list1[i] && list1[i..][1..] == list1[i + 1..];
      hide Row;
      var row := CartesianRow(list1[i], list2);
      product := product + row;
      i := i + 1;
    }
    PairsAre(list1, list2);
    PairsIn(list1, list2);
  }

  method CartesianRow(a: string, list2: seq<string>) returns (row: seq<(string, string)>)
    ensures row == Row(a, list2)
  {
    row := [];
    var j := 0;
    while j < |list2|
      invariant 0 <= j <= |list2| && row + Row(a, list2[j..]) == Row(a, list2)
    {
      assert list2[j..][0] == list2[j] && list2[j..][1..] == list2[j + 1..];
      row := row + [(a, list2[j])];
      j := j + 1;
    }
  }

  function Row(a: string, list2: seq<string>): seq<(string, string)> {
    if list2 == [] then [] else [(a, list2[0])] + Row(a, list2[1..])
  }

  function Pairs(list1: seq<string>, list2: seq<string>): seq<(string, string)> {
    if list1 == [] then [] else Row(list1[0], list2) + Pairs(list1[1..], list2)
  }

  lemma {:induction false} RowAt(a: string, list2: seq<string>)
    ensures |Row(a, list2)| == |list2| && forall j :: 0 <= j < |list2| ==> Row(a, list2)[j] == (a, list2[j])
  {
    if list2 != [] {
      RowAt(a, list2[1..]);
    }
  }

  lemma {:induction false} PairsCount(list1: seq<string>, list2: seq<string>)
    ensures |Pairs(list1, list2)| == |list1| * |list2|
  {
    if list1 != [] {
      PairsCount(list1[1..], list2);
      RowAt(list1[0], list2);
    }
  }

  lemma PairsAre(list1: seq<string>, list2: seq<string>)
    ensures Product(Pairs(list1, list2), list1, list2)
  {
    hide Pairs, PairAt;
    PairsCount(list1, list2);
    forall i: nat, j: nat | i < |list1| && j < |list2|
      ensures PairAt(Pairs(list1, list2), i * |list2| + j, list1[i], list2[j])
    {
      PairsAt(list1, list2, i, j);
    }
  }

  lemma {:induction false} PairsAt(list1: seq<string>, list2: seq<string>, i: nat, j: nat)
    requires i < |list1| && j < |list2|
    ensures PairAt(Pairs(list1, list2), i * |list2| + j, list1[i], list2[j])
  {
    RowAt(list1[0], list2);
    if i > 0 {
      PairsAt(list1[1..], list2, i - 1, j);
      assert i * |list2| + j == |list2| + ((i - 1) * |list2| + j);
    }
  }

  lemma {:induction false} PairsIn(list1: seq<string>, list2: seq<string>)
    ensures forall a, b :: (a, b) in Pairs(list1, list2) <==> a in list1 && b in list2
  {
    if list1 != [] {
      PairsIn(list1[1..], list2);
      RowAt(list1[0], list2);
      forall a, b ensures (a, b) in Row(list1[0], list2) <==> a == list1[0] && b in list2 {
        if a == list1[0] && b in list2 {
          var j :| 0 <= j < |list2| && list2[j] == b;
          assert Row(a, list2)[j] == (a, b);
        }
      }
      assert forall a :: a in list1 <==> a == list1[0] || a in list1[1..];
    }
  }

  /** Element `idx`, then a run of `n - 1` elements from position `i + 1` on. */
  function Window<T>(l: seq<T>, idx: nat, i: nat, n: nat): seq<T>
    requires idx <= i && i + n <= |l| && n >= 1
  {
    [l[idx]] + l[i + 1..i + n]
  }

  /** The windows starting at element `idx` whose runs begin after `i` or later. */
  function WindowsAt<T>(l: seq<T>, idx: nat, i: nat, n: nat): seq<seq<T>>
    requires idx <= i && n >= 2
    decreases |l| - i
  {
    if i + n > |l| then [] else [Window(l, idx, i, n)] + WindowsAt(l, idx, i + 1, n)
  }

  function WindowsFrom<T>(l: seq<T>, idx: nat, n: nat): seq<seq<T>>
    requires n >= 2
    decreases |l| - idx
  {
    if idx >= |l| then [] else WindowsAt(l, idx, idx, n) + WindowsFrom(l, idx + 1, n)
  }

  function Singles<T>(l: seq<T>): seq<seq<T>> {
    seq(|l|, i requires 0 <= i < |l| => [l[i]])
  }

  /** What `Combinations` enumerates. Asking for subsets of size zero of a longer list
      slices out of range. */
  function Combos<T>(l: seq<T>, n: nat): Option<seq<seq<T>>> {
    if |l| <= n then Some([l])
    else if n == 1 then Some(Singles(l))
    else if n == 0 then (if |l| == 1 then Some([]) else None)
    else Some(WindowsFrom(l, 0, n))
  }

  method Combinations<T>(l: seq<T>, n: nat) returns (subset: Option<seq<seq<T>>>)
    ensures subset == Combos(l, n)
  {
    hide WindowsAt, Singles;
    if |l| <= n {
      return Some([l]);
    }
    NoSingles(l);
    var out: seq<seq<T>> := [];
    var idx := 0;
    while idx < |l|
      invariant 0 <= idx <= |l|
      invariant n == 0 ==> out == [] && (idx == 0 || |l| == 1)
      invariant n == 1 ==> out == Singles(l[..idx])
      invariant n >= 2 ==> out + WindowsFrom(l, idx, n) == WindowsFrom(l, 0, n)
    {
      ghost var before := out;
      if n == 1 {
        OneSingle(l, idx);
        out := out + [[l[idx]]];
      } else if |l| > idx + 1 {
        var runs := RunsAfter(l, idx, n);
        if runs.None? {
          return None;
        }
        out := out + runs.value;
      } else {
        NoWindows(l, idx, n);
      }
      assert n >= 2 ==> out == before + WindowsAt(l, idx, idx, n);
      idx := idx + 1;
    }
    assert l[..idx] == l;
    assert n >= 2 ==> out == out + WindowsFrom(l, idx, n);
    subset := Some(out);
  }

  /** The subsets whose first element is `l[idx]`. */
  method RunsAfter<T>(l: seq<T>, idx: nat, n: nat) returns (out: Option<seq<seq<T>>>)
    requires idx + 1 < |l| && n != 1 && n < |l|
    ensures n == 0 ==> out == None
    ensures n >= 2 ==> out == Some(WindowsAt(l, idx, idx, n))
  {
    var subset: seq<seq<T>> := [];
    var i := idx;
    while true
      invariant idx <= i < |l|
      invariant n == 0 ==> i == idx
      invariant n >= 2 ==> subset + WindowsAt(l, idx, i, n) == WindowsAt(l, idx, idx, n)
      decreases |l| - i
    {
      var pos := i + n;
      if pos > |l| {
        assert n >= 2 ==> subset == subset + WindowsAt(l, idx, i, n);
        break;
      }
      if i + 1 > pos {
        return None;
      }
      subset := subset + [[l[idx]] + l[i + 1..pos]];
      i := i + 1;
    }
    out := Some(subset);
  }

  lemma NoSingles<T>(l: seq<T>)
    ensures Singles(l[..0]) == []
  {
  }

  lemma OneSingle<T>(l: seq<T>, i: nat)
    requires i < |l|
    ensures Singles(l[..i + 1]) == Singles(l[..i]) + [[l[i]]]
  {
  }

  lemma NoWindows<T>(l: seq<T>, idx: nat, n: nat)
    requires idx + 1 == |l|
    ensures n >= 2 ==> WindowsAt(l, idx, idx, n) == []
  {
  }

  /** Exactly the windows, for `2 <= n < |l|`. */
  lemma {:induction false} WindowsAtAre<T>(l: seq<T>, idx: nat, i: nat, n: nat)
    requires idx <= i <= |l| && n >= 2
    ensures forall o ::
      o in WindowsAt(l, idx, i, n) <==> exists j :: i <= j && j + n <= |l| && o == Window(l, idx, j, n)
    ensures |WindowsAt(l, idx, i, n)| == if i + n > |l| then 0 else |l| - n - i + 1
    decreases |l| - i
  {
    if i + n <= |l| {
      WindowsAtAre(l, idx, i + 1, n);
    }
  }

  predicate IsWindow<T(==)>(l: seq<T>, n: nat, o: seq<T>)
    requires n >= 1
  {
    exists idx, i :: 0 <= idx <= i && i + n <= |l| && o == Window(l, idx, i, n)
  }

  lemma {:induction false} WindowsFromAre<T>(l: seq<T>, k: nat, n: nat)
    requires k <= |l| && n >= 2
    ensures forall o :: o in WindowsFrom(l, k, n) <==>
      exists idx, i :: k <= idx <= i && i + n <= |l| && o == Window(l, idx, i, n)
    decreases |l| - k
  {
    hide Window, WindowsAt;
    if k < |l| {
      WindowsAtAre(l, k, k, n);
      WindowsFromAre(l, k + 1, n);
      var at, rest := WindowsAt(l, k, k, n), WindowsFrom(l, k + 1, n);
      forall o ensures o in at + rest <==>
        exists idx, i :: k <= idx <= i && i + n <= |l| && o == Window(l, idx, i, n)
      {
        if idx, i :| k <= idx <= i && i + n <= |l| && o == Window(l, idx, i, n) {
          if idx == k {
            assert o in at;
          } else {
            assert o in rest;
          }
        }
      }
    }
  }

  lemma {:induction false} WindowsCount<T>(l: seq<T>, k: nat, n: nat)
    requires k <= |l| && n >= 2
    ensures 2 * |WindowsFrom(l, k, n)| == if k + n > |l| then 0 else (|l| - n - k + 1) * (|l| - n - k + 2)
    decreases |l| - k
  {
    hide WindowsAt;
    if k < |l| {
      WindowsAtAre(l, k, k, n);
      WindowsCount(l, k + 1, n);
      var m := |l| - n - k + 1;
      assert m * (m + 1) == 2 * m + (m - 1) * m;
    }
  }

  lemma WindowIn<T>(l: seq<T>, idx: nat, i: nat, n: nat)
    requires n >= 2 && idx <= i && i + n <= |l|
    ensures Window(l, idx, i, n) in WindowsFrom(l, 0, n)
  {
    WindowsFromAre(l, 0, n);
  }

  /** For `2 <= n < |l|` the subsets are the windows, each an element and a later run; there
      are `(len - n + 1)(len - n + 2) / 2` of them. For `n == 2` those are all the pairs. */
  lemma CombinationsAre<T>(l: seq<T>, n: nat)
    requires 2 <= n < |l|
    ensures Combos(l, n).Some?
    ensures forall o :: o in Combos(l, n).value <==> IsWindow(l, n, o)
    ensures |Combos(l, n).value| == (|l| - n + 1) * (|l| - n + 2) / 2
    ensures n == 2 ==>
      forall i, j :: 0 <= i < j < |l| ==> [l[i], l[j]] in Combos(l, n).value
  {
    WindowsFromAre(l, 0, n);
    WindowsCount(l, 0, n);
    if n == 2 {
      forall i, j | 0 <= i < j < |l| ensures [l[i], l[j]] in Combos(l, n).value {
        assert Window(l, i, j - 1, 2) == [l[i], l[j]];
      }
    }
  }
}
