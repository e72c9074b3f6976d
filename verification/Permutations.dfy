/** The orders a parallel group can run in: backtracking by swaps in one array. */
module Permutations {

  function Swap<T>(a: seq<T>, i: nat, j: nat): seq<T>
    requires i < |a| && j < |a|
  {
    a[i := a[j]][j := a[i]]
  }

  /** What the recursion appends when the first `k` places of `a` are fixed. */
  function Permuts<T>(a: seq<T>, k: nat): seq<seq<T>>
    requires k <= |a|
    decreases |a| - k, |a| + 1
  {
    if k == |a| then [a] else PermutsFrom(a, k, k)
  }

  /** The part of it that puts entry `i` or a later one at place `k`. */
  function PermutsFrom<T>(a: seq<T>, k: nat, i: nat): seq<seq<T>>
    requires k < |a| && k <= i <= |a|
    decreases |a| - k, |a| - i
  {
    if i == |a| then [] else Permuts(Swap(a, k, i), k + 1) + PermutsFrom(a, k, i + 1)
  }

  method ParallelPermutations<T>(p: array<T>) returns (permuts: seq<seq<T>>)
    modifies p
    ensures p[..] == old(p[..])
    ensures permuts == Permuts(old(p[..]), 0)
  {
    permuts := Rc(p, 0, []);
  }

  method Rc<T>(a: array<T>, k: nat, permuts: seq<seq<T>>) returns (permuts': seq<seq<T>>)
    requires k <= a.Length
    modifies a
    ensures a[..] == old(a[..])
    ensures permuts' == permuts + Permuts(old(a[..]), k)
    decreases a.Length - k
  {
    permuts' := permuts;
    if k == a.Length {
      permuts' := permuts' + [a[..]];
    } else {
      var i := k;
      while i < a.Length
        invariant k <= i <= a.Length && a[..] == old(a[..])
        invariant permuts' + PermutsFrom(a[..], k, i) == permuts + Permuts(old(a[..]), k)
      {
        ghost var before := permuts';
        a[k], a[i] := a[i], a[k];
        assert a[..] == Swap(old(a[..]), k, i);
        permuts' := Rc(a, k + 1, permuts');
        a[k], a[i] := a[i], a[k];
        assert a[..] == old(a[..]);
        assert permuts' + PermutsFrom(a[..], k, i + 1) == before + PermutsFrom(a[..], k, i);
        i := i + 1;
      }
    }
  }

  lemma SwapIsPermutation<T>(a: seq<T>, i: nat, j: nat)
    requires i < |a| && j < |a|
    ensures multiset(Swap(a, i, j)) == multiset(a)
  {
  }

  /** `o` rearranges `a` from place `k` on. */
  predicate Rearranges<T(==)>(o: seq<T>, a: seq<T>, k: nat) {
    k <= |a| == |o| && o[..k] == a[..k] && multiset(o) == multiset(a)
  }

  lemma {:induction false} OnlyPermutations<T>(a: seq<T>, k: nat, o: seq<T>)
    requires k <= |a| && o in Permuts(a, k)
    ensures Rearranges(o, a, k)
    decreases |a| - k, |a| + 1
  {
    if k < |a| {
      var _ := OnlyPermutationsFrom(a, k, k, o);
    }
  }

  lemma {:induction false} OnlyPermutationsFrom<T>(a: seq<T>, k: nat, i: nat, o: seq<T>) returns (j: nat)
    requires k < |a| && k <= i <= |a| && o in PermutsFrom(a, k, i)
    ensures Rearranges(o, a, k)
    ensures i <= j < |a| && o[k] == a[j]
    decreases |a| - k, |a| - i
  {
    if o in Permuts(Swap(a, k, i), k + 1) {
      OnlyPermutations(Swap(a, k, i), k + 1, o);
      SwapIsPermutation(a, k, i);
      assert o[..k] == o[..k + 1][..k] == Swap(a, k, i)[..k] == a[..k];
      assert o[k] == o[..k + 1][k];
      j := i;
    } else {
      j := OnlyPermutationsFrom(a, k, i + 1, o);
    }
  }

  lemma Source<T>(a: seq<T>, k: nat, o: seq<T>) returns (i: nat)
    requires Rearranges(o, a, k) && k < |a|
    ensures k <= i < |a| && a[i] == o[k]
  {
    var head, ta, to := a[..k], a[k..], o[k..];
    assert a == head + ta && o == head + to;
    assert multiset(ta) == multiset(a) - multiset(head);
    assert multiset(to) == multiset(o) - multiset(head);
    assert o[k] == o[k..][0];
    assert o[k] in o[k..];
    assert o[k] in multiset(a[k..]);
    var j :| 0 <= j < |a| - k && a[k..][j] == o[k];
    i := k + j;
  }

  lemma {:induction false} AllPermutations<T>(a: seq<T>, k: nat, o: seq<T>)
    requires Rearranges(o, a, k)
    ensures o in Permuts(a, k)
    decreases |a| - k
  {
    if k == |a| {
      assert o == o[..k] == a[..k] == a;
    } else {
      var i := Source(a, k, o);
      SwapIsPermutation(a, k, i);
      assert o[..k + 1] == Swap(a, k, i)[..k + 1];
      AllPermutations(Swap(a, k, i), k + 1, o);
      FromContains(a, k, k, i, o);
    }
  }

  lemma {:induction false} FromContains<T>(a: seq<T>, k: nat, i: nat, j: nat, o: seq<T>)
    requires k < |a| && k <= i <= j < |a| && o in Permuts(Swap(a, k, j), k + 1)
    ensures o in PermutsFrom(a, k, i)
    decreases j - i
  {
    if i < j {
      FromContains(a, k, i + 1, j, o);
    }
  }

  function Factorial(n: nat): nat {
    if n == 0 then 1 else n * Factorial(n - 1)
  }

  lemma {:induction false} HowMany<T>(a: seq<T>, k: nat)
    requires k <= |a|
    ensures |Permuts(a, k)| == Factorial(|a| - k)
    decreases |a| - k, |a| + 1
  {
    if k < |a| {
      HowManyFrom(a, k, k);
    }
  }

  lemma Distribute(m: int, f: int)
    ensures f + (m - 1) * f == m * f
  {
  }

  lemma {:induction false} HowManyFrom<T>(a: seq<T>, k: nat, i: nat)
    requires k < |a| && k <= i <= |a|
    ensures |PermutsFrom(a, k, i)| == (|a| - i) * Factorial(|a| - k - 1)
    decreases |a| - k, |a| - i
  {
    if i < |a| {
      HowMany(Swap(a, k, i), k + 1);
      HowManyFrom(a, k, i + 1);
      Distribute(|a| - i, Factorial(|a| - k - 1));
    }
  }

  predicate Distinct<T(==)>(s: seq<T>) {
    forall i, j :: 0 <= i < j < |s| ==> s[i] != s[j]
  }

  lemma {:induction false} NoRepeats<T>(a: seq<T>, k: nat)
    requires k <= |a| && Distinct(a)
    ensures Distinct(Permuts(a, k))
    decreases |a| - k, |a| + 1
  {
    if k < |a| {
      NoRepeatsFrom(a, k, k);
    }
  }

  lemma {:induction false} NoRepeatsFrom<T>(a: seq<T>, k: nat, i: nat)
    requires k < |a| && k <= i <= |a| && Distinct(a)
    ensures Distinct(PermutsFrom(a, k, i))
    decreases |a| - k, |a| - i
  {
    if i < |a| {
      NoRepeats(Swap(a, k, i), k + 1);
      NoRepeatsFrom(a, k, i + 1);
      var first, rest := Permuts(Swap(a, k, i), k + 1), PermutsFrom(a, k, i + 1);
      forall x, y | 0 <= x < |first| && 0 <= y < |rest| ensures first[x] != rest[y] {
        OnlyPermutations(Swap(a, k, i), k + 1, first[x]);
        assert first[x][k] == first[x][..k + 1][k] == a[i];
        var j := OnlyPermutationsFrom(a, k, i + 1, rest[y]);
      }
    }
  }

  /** All orders, each once, and nothing else. */
  lemma ExactlyAllOrders<T>(a: seq<T>)
    ensures forall o :: o in Permuts(a, 0) <==> multiset(o) == multiset(a)
    ensures |Permuts(a, 0)| == Factorial(|a|)
    ensures Distinct(a) ==> Distinct(Permuts(a, 0))
  {
    forall o ensures o in Permuts(a, 0) <==> multiset(o) == multiset(a) {
      if o in Permuts(a, 0) {
        OnlyPermutations(a, 0, o);
      }
      if multiset(o) == multiset(a) {
        assert |o| == |multiset(o)| == |multiset(a)| == |a|;
        AllPermutations(a, 0, o);
      }
    }
    HowMany(a, 0);
    if Distinct(a) {
      NoRepeats(a, 0);
    }
  }
}
