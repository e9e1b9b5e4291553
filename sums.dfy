/**
 Sums of an integer-valued function over the elements of a sequence,
 accumulated left to right as the source's loops do, with the facts the
 weight and score proofs share: splitting, permuting, updating one element.
 */
module Sums {
  import opened Multisets

  /** f(s[0]) + f(s[1]) + ... + f(s[|s| - 1]). */
  function Sum<T>(f: T -> int, s: seq<T>): int
  {
    if s == [] then 0 else Sum(f, s[..|s| - 1]) + f(s[|s| - 1])
  }

  lemma {:induction false} SumAppend<T>(f: T -> int, s: seq<T>, t: seq<T>)
    ensures Sum(f, s + t) == Sum(f, s) + Sum(f, t)
  {
    if t == [] {
      assert s + t == s;
    } else {
      assert (s + t)[..|s + t| - 1] == s + t[..|t| - 1];
      SumAppend(f, s, t[..|t| - 1]);
    }
  }

  /** The sum does not depend on the order of the elements. */
  lemma {:induction false} SumPermutation<T>(f: T -> int, s: seq<T>, t: seq<T>)
    requires multiset(s) == multiset(t)
    ensures Sum(f, s) == Sum(f, t)
    decreases |s|
  {
    if s == [] {
      assert |t| == |multiset(t)| == 0;
    } else {
      var x := s[|s| - 1];
      var s' := s[..|s| - 1];
      assert s == s' + [x];
      var k := SplitAt(s', x, t);
      var a, b := t[..k], t[k + 1..];
      SumPermutation(f, s', a + b);
      SumAppend(f, a, [x] + b);
      SumAppend(f, [x], b);
      SumAppend(f, a, b);
      assert Sum(f, [x]) == f(x) by {
        assert [x][..0] == [];
      }
      assert t == a + ([x] + b);
    }
  }

  /** Replacing one element changes the sum by the difference of the two values. */
  lemma {:induction false} SumUpdate<T>(f: T -> int, s: seq<T>, i: nat, v: T)
    requires i < |s|
    ensures Sum(f, s[i := v]) == Sum(f, s) - f(s[i]) + f(v)
  {
    var u := s[i := v];
    assert s == s[..i] + [s[i]] + s[i + 1..];
    assert u == s[..i] + [v] + s[i + 1..];
    SumAppend(f, s[..i] + [s[i]], s[i + 1..]);
    SumAppend(f, s[..i], [s[i]]);
    SumAppend(f, s[..i] + [v], s[i + 1..]);
    SumAppend(f, s[..i], [v]);
    assert [s[i]][..0] == [] && [v][..0] == [];
  }

  lemma {:induction false} SumNonNegative<T>(f: T -> int, s: seq<T>)
    requires forall i :: 0 <= i < |s| ==> f(s[i]) >= 0
    ensures Sum(f, s) >= 0
  {
    if s != [] {
      SumNonNegative(f, s[..|s| - 1]);
    }
  }

  /** Each element counts at least as much under f as under g. */
  lemma {:induction false} SumMonotone<T>(f: T -> int, g: T -> int, s: seq<T>)
    requires forall i :: 0 <= i < |s| ==> f(s[i]) <= g(s[i])
    ensures Sum(f, s) <= Sum(g, s)
  {
    if s != [] {
      SumMonotone(f, g, s[..|s| - 1]);
    }
  }

  /** Sums of two functions over two sequences agree when they agree element by element. */
  lemma {:induction false} SumPointwise<T, U>(f: T -> int, g: U -> int, s: seq<T>, t: seq<U>)
    requires |s| == |t|
    requires forall i :: 0 <= i < |s| ==> f(s[i]) == g(t[i])
    ensures Sum(f, s) == Sum(g, t)
  {
    if s != [] {
      SumPointwise(f, g, s[..|s| - 1], t[..|t| - 1]);
    }
  }
}
