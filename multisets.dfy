/**
 Facts about multisets that the permutation and conservation proofs share.
 */
module Multisets {

  /** The last element of a non-empty sequence, split off. */
  lemma MultisetOfLast<T>(s: seq<T>)
    requires s != []
    ensures multiset(s) == multiset(s[..|s| - 1]) + multiset{s[|s| - 1]}
  {
    assert s == s[..|s| - 1] + [s[|s| - 1]];
  }

  /** Multiset union cancels. */
  lemma Cancel<T>(a: multiset<T>, b: multiset<T>, c: multiset<T>)
    requires a + c == b + c
    ensures a == b
  {
    assert a == a + c - c;
  }

  /** Adding the same multiset to both sides of a trade keeps it balanced. */
  lemma Rebalance<T>(p: multiset<T>, q: multiset<T>, a: multiset<T>, b: multiset<T>, d: multiset<T>)
    requires p + a == q + b
    ensures (p + d) + a == (q + d) + b
  {
    calc {
      (p + d) + a;
      (p + a) + d;
      (q + b) + d;
      (q + d) + b;
    }
  }

  /** Two trades that together give back what they take cancel out. */
  lemma TradeTwice<T>(f: multiset<T>, m: multiset<T>, r: multiset<T>, a: multiset<T>, b: multiset<T>, a': multiset<T>, b': multiset<T>)
    requires m + a == f + a' && r + b == m + b'
    requires a' + b' == a + b
    ensures r == f
  {
    calc {
      r + (a + b);
      (r + b) + a;
      (m + b') + a;
      (m + a) + b';
      (f + a') + b';
      f + (a + b);
    }
    Cancel(r, f, a + b);
  }

  /** If t is a permutation of s' + [x], then x sits at some index k of t and
      the rest of t is a permutation of s'. */
  lemma SplitAt<T>(s': seq<T>, x: T, t: seq<T>) returns (k: nat)
    requires multiset(s' + [x]) == multiset(t)
    ensures k < |t| && t[k] == x
    ensures multiset(s') == multiset(t[..k] + t[k + 1..])
  {
    assert x in multiset(s' + [x]);
    assert x in t;
    k :| 0 <= k < |t| && t[k] == x;
    var a, b := t[..k], t[k + 1..];
    assert t == a + [x] + b;
    calc {
      multiset(s') + multiset{x};
      multiset(s' + [x]);
      multiset(a + [x] + b);
      multiset(a + b) + multiset{x};
    }
    Cancel(multiset(s'), multiset(a + b), multiset{x});
  }
}
