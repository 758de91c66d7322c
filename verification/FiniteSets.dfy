/** Sizes of finite sets, and pigeonholes. */
module FiniteSets {

  /** The numbers below `n`. */
  ghost function Naturals(n: nat): (s: set<nat>)
    ensures forall c: nat :: c in s <==> c < n
    ensures |s| == n
  {
    if n == 0 then {} else Naturals(n - 1) + {n - 1}
  }

  lemma SubsetIsNoLarger<T>(a: set<T>, b: set<T>)
    requires a <= b
    ensures |a| <= |b|
  {
    assert b == a + (b - a);
  }

  function Elements<T(==)>(s: seq<T>): set<T> {
    set x | x in s
  }

  lemma {:induction false} DistinctCount<T>(s: seq<T>)
    requires forall j, k | 0 <= j < k < |s| :: s[j] != s[k]
    ensures |Elements(s)| == |s|
  {
    if s != [] {
      assert s[0] !in s[1..];
      DistinctCount(s[1..]);
      assert Elements(s) == Elements(s[1..]) + {s[0]};
    }
  }

  /** Distinct numbers below `n` are at most `n` many. */
  lemma DistinctBounded(s: seq<nat>, n: nat)
    requires forall i <- s :: i < n
    requires forall j, k | 0 <= j < k < |s| :: s[j] != s[k]
    ensures |s| <= n
  {
    DistinctCount(s);
    assert Elements(s) <= Naturals(n);
    SubsetIsNoLarger(Elements(s), Naturals(n));
  }

  lemma {:induction false} AtMostAsManyElements<T>(s: seq<T>)
    ensures |Elements(s)| <= |s|
  {
    if s != [] {
      AtMostAsManyElements(s[1..]);
      assert Elements(s) == Elements(s[1..]) + {s[0]};
    }
  }

  /** Distinct elements of `t` are at most as many as `t` has entries. */
  lemma DistinctWithin<T>(s: seq<T>, t: seq<T>)
    requires forall e <- s :: e in t
    requires forall j, k | 0 <= j < k < |s| :: s[j] != s[k]
    ensures |s| <= |t|
  {
    DistinctCount(s);
    AtMostAsManyElements(t);
    assert Elements(s) <= Elements(t);
    SubsetIsNoLarger(Elements(s), Elements(t));
  }
}
