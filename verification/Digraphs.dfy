/** Reachability in a finite directed graph given by successor lists: the
    reference meaning for every worklist and every closure in this project. */
module Digraphs {

  /** Successor lists; a vertex without an entry has no successors. */
  type Edges<!T> = map<T, seq<T>>

  function Succ<T>(edges: Edges<T>, a: T): seq<T> {
    if a in edges then edges[a] else []
  }

  ghost predicate IsPath<T>(edges: Edges<T>, p: seq<T>) {
    |p| > 0 && forall i | 0 <= i < |p| - 1 :: p[i + 1] in Succ(edges, p[i])
  }

  /** `b` is at the end of some path, possibly of no edges, from `a`. */
  ghost predicate Reaches<T(!new)>(edges: Edges<T>, a: T, b: T) {
    exists p: seq<T> :: IsPath(edges, p) && p[0] == a && p[|p| - 1] == b
  }

  ghost predicate ReachedFrom<T(!new)>(edges: Edges<T>, start: set<T>, b: T) {
    exists a :: a in start && Reaches(edges, a, b)
  }

  /** A set that no edge leaves. */
  ghost predicate Closed<T>(edges: Edges<T>, s: set<T>) {
    forall a, b | a in s && b in Succ(edges, a) :: b in s
  }

  lemma ReachesSelf<T(!new)>(edges: Edges<T>, a: T)
    ensures Reaches(edges, a, a)
  {
    assert IsPath(edges, [a]);
  }

  lemma ReachesBySucc<T(!new)>(edges: Edges<T>, a: T, b: T, c: T)
    requires b in Succ(edges, a) && Reaches(edges, b, c)
    ensures Reaches(edges, a, c)
  {
    var p :| IsPath(edges, p) && p[0] == b && p[|p| - 1] == c;
    var q := [a] + p;
    forall i | 0 <= i < |q| - 1 ensures q[i + 1] in Succ(edges, q[i]) {
      if i > 0 {
        assert q[i] == p[i - 1] && q[i + 1] == p[i];
      }
    }
    assert IsPath(edges, q) && q[0] == a && q[|q| - 1] == c;
  }

  lemma SuccOfReached<T(!new)>(edges: Edges<T>, a: T, b: T, c: T)
    requires Reaches(edges, a, b) && c in Succ(edges, b)
    ensures Reaches(edges, a, c)
  {
    var p :| IsPath(edges, p) && p[0] == a && p[|p| - 1] == b;
    var q := p + [c];
    assert IsPath(edges, q) && q[0] == a && q[|q| - 1] == c;
  }

  lemma ReachesTransitive<T(!new)>(edges: Edges<T>, a: T, b: T, c: T)
    requires Reaches(edges, a, b) && Reaches(edges, b, c)
    ensures Reaches(edges, a, c)
  {
    var p :| IsPath(edges, p) && p[0] == b && p[|p| - 1] == c;
    ReachesAlong(edges, a, p);
  }

  lemma {:induction false} ReachesAlong<T(!new)>(edges: Edges<T>, a: T, p: seq<T>)
    requires IsPath(edges, p) && Reaches(edges, a, p[0])
    ensures Reaches(edges, a, p[|p| - 1])
  {
    if |p| > 1 {
      SuccOfReached(edges, a, p[0], p[1]);
      ReachesAlong(edges, a, p[1..]);
    }
  }

  /** A path that is not a single vertex starts with an edge. */
  lemma ReachesFirstStep<T(!new)>(edges: Edges<T>, a: T, b: T) returns (next: T)
    requires Reaches(edges, a, b) && a != b
    ensures next in Succ(edges, a) && Reaches(edges, next, b)
  {
    var p :| IsPath(edges, p) && p[0] == a && p[|p| - 1] == b;
    next := p[1];
    var q := p[1..];
    assert IsPath(edges, q) && q[0] == next && q[|q| - 1] == b;
  }

  /** ... and ends with one. */
  lemma ReachesLastStep<T(!new)>(edges: Edges<T>, a: T, b: T) returns (last: T)
    requires Reaches(edges, a, b) && a != b
    ensures b in Succ(edges, last)
  {
    var p :| IsPath(edges, p) && p[0] == a && p[|p| - 1] == b;
    last := p[|p| - 2];
    assert p[|p| - 1] in Succ(edges, p[|p| - 2]);
  }

  /** A set no edge leaves holds everything its members reach. */
  lemma ClosedHoldsReached<T(!new)>(edges: Edges<T>, s: set<T>, a: T, b: T)
    requires Closed(edges, s) && a in s && Reaches(edges, a, b)
    ensures b in s
  {
    var p :| IsPath(edges, p) && p[0] == a && p[|p| - 1] == b;
    ClosedHoldsPath(edges, s, p);
  }

  lemma {:induction false} ClosedHoldsPath<T>(edges: Edges<T>, s: set<T>, p: seq<T>)
    requires Closed(edges, s) && IsPath(edges, p) && p[0] in s
    ensures p[|p| - 1] in s
  {
    if |p| > 1 {
      ClosedHoldsPath(edges, s, p[1..]);
    }
  }

  /** A closed set made only of reached vertices is exactly what is reached,
      and so the least closed set around its start. */
  lemma ClosedAndReachedIsReachability<T(!new)>(edges: Edges<T>, start: set<T>, s: set<T>)
    requires start <= s && Closed(edges, s)
    requires forall b <- s :: ReachedFrom(edges, start, b)
    ensures forall b :: b in s <==> ReachedFrom(edges, start, b)
    ensures forall t: set<T> | start <= t && Closed(edges, t) :: s <= t
  {
    forall b | ReachedFrom(edges, start, b) ensures b in s {
      var a :| a in start && Reaches(edges, a, b);
      ClosedHoldsReached(edges, s, a, b);
    }
    forall t: set<T> | start <= t && Closed(edges, t) ensures s <= t {
      forall b <- s ensures b in t {
        var a :| a in start && Reaches(edges, a, b);
        ClosedHoldsReached(edges, t, a, b);
      }
    }
  }
}
