/** The strongly connected components of the operation graph that hold a cycle:
    a depth-first search for the order in which vertices finish, then backward
    searches from the last to finish. */
module StrongComponents {
  import opened FiniteSets
  import opened Digraphs

  type Lists = seq<seq<nat>>

  /** Successor and predecessor lists of the same edges. */
  ghost predicate Inverse(succs: Lists, preds: Lists) {
    && |succs| == |preds|
    && (forall a: nat, b | a < |succs| && b in succs[a] :: b < |succs|)
    && (forall a: nat, b | a < |succs| && b in preds[a] :: b < |succs|)
    && (forall a: nat, b: nat | a < |succs| && b < |succs| :: b in succs[a] <==> a in preds[b])
  }

  function EdgesOf(succs: Lists): (edges: Edges<nat>)
    ensures forall a: nat :: a in edges <==> a < |succs|
    ensures forall a: nat | a < |succs| :: edges[a] == succs[a]
  {
    if succs == [] then map[] else EdgesOf(succs[..|succs| - 1])[|succs| - 1 := succs[|succs| - 1]]
  }

  ghost predicate Joined(succs: Lists, a: nat, b: nat) {
    Reaches(EdgesOf(succs), a, b)
  }

  /** Each reaches the other. */
  ghost predicate Mutual(succs: Lists, a: nat, b: nat) {
    Joined(succs, a, b) && Joined(succs, b, a)
  }

  lemma JoinedStep(succs: Lists, a: nat, b: nat, c: nat)
    requires a < |succs| && b in succs[a] && Joined(succs, b, c)
    ensures Joined(succs, a, c)
  {
    ReachesBySucc(EdgesOf(succs), a, b, c);
  }

  lemma JoinedSelf(succs: Lists, a: nat)
    ensures Joined(succs, a, a)
  {
    ReachesSelf(EdgesOf(succs), a);
  }

  lemma JoinedTransitive(succs: Lists, a: nat, b: nat, c: nat)
    requires Joined(succs, a, b) && Joined(succs, b, c)
    ensures Joined(succs, a, c)
  {
    ReachesTransitive(EdgesOf(succs), a, b, c);
  }

  // ---- Finish order --------------------------------------------------------------------

  /** The vertices of a search under way: the path to the vertex being looked at,
      how far each one's successors have been looked at, and who has finished. */
  datatype Search = Search(visited: seq<bool>, path: seq<nat>, next: seq<nat>, finish: seq<nat>)

  ghost predicate Disjoint(s: Search) {
    && (forall j, k | 0 <= j < k < |s.path| :: s.path[j] != s.path[k])
    && (forall j, k | 0 <= j < k < |s.finish| :: s.finish[j] != s.finish[k])
    && (forall v | v in s.path :: v !in s.finish)
  }

  ghost predicate Marked(succs: Lists, s: Search) {
    && |s.visited| == |succs| && |s.next| == |s.path|
    && (forall k | 0 <= k < |s.path| :: s.path[k] < |succs| && s.visited[s.path[k]])
    && (forall k | 0 <= k < |s.finish| :: s.finish[k] < |succs| && s.visited[s.finish[k]])
    && (forall v: nat | v < |succs| && s.visited[v] :: v in s.path || v in s.finish)
  }

  /** The path follows edges, and every successor looked at has been visited. */
  ghost predicate Followed(succs: Lists, s: Search)
    requires Marked(succs, s)
  {
    && (forall k | 0 <= k < |s.path| - 1 :: s.path[k + 1] in succs[s.path[k]])
    && (forall k | 0 <= k < |s.path| :: s.next[k] <= |succs[s.path[k]]|)
    && (forall k, j | 0 <= k < |s.path| && 0 <= j < s.next[k] :: Visited(s, succs[s.path[k]][j]))
    && (forall v, w | v in s.finish && w in succs[v] :: Visited(s, w))
  }

  predicate Visited(s: Search, v: nat) {
    v < |s.visited| && s.visited[v]
  }

  /** When the `k`-th vertex finished, whatever the finished ones led to had
      finished as well or could reach it. */
  ghost predicate Exits(succs: Lists, finish: seq<nat>, k: nat)
    requires k < |finish|
  {
    forall x, w | x in finish[..k + 1] && x < |succs| && w in succs[x] && w !in finish[..k + 1] ::
      Joined(succs, w, finish[k])
  }

  ghost predicate AllExits(succs: Lists, finish: seq<nat>) {
    forall k: nat | k < |finish| :: Exits(succs, finish, k)
  }

  ghost predicate Searching(succs: Lists, s: Search) {
    Marked(succs, s) && Disjoint(s) && Followed(succs, s) && AllExits(succs, s.finish)
  }

  lemma {:induction false} PathReachesTop(succs: Lists, s: Search, k: nat)
    requires Marked(succs, s) && Followed(succs, s) && k < |s.path|
    ensures Joined(succs, s.path[k], s.path[|s.path| - 1])
    decreases |s.path| - k
  {
    hide Joined;
    if k == |s.path| - 1 {
      JoinedSelf(succs, s.path[k]);
    } else {
      PathReachesTop(succs, s, k + 1);
      assert s.path[k] in s.path;
      JoinedStep(succs, s.path[k], s.path[k + 1], s.path[|s.path| - 1]);
    }
  }

  function Finished(s: Search): Search
    requires |s.path| == |s.next| > 0
  {
    var last := |s.path| - 1;
    Search(s.visited, s.path[..last], s.next[..last], s.finish + [s.path[last]])
  }

  lemma FinishKeeps(succs: Lists, s: Search)
    requires Searching(succs, s) && |s.path| > 0 && s.next[|s.path| - 1] == |succs[s.path[|s.path| - 1]]|
    ensures Searching(succs, Finished(s))
  {
    hide Joined;
    var t, top := Finished(s), s.path[|s.path| - 1];
    assert top in s.path;
    FinishMarks(succs, s);
    forall v, w | v in t.finish && w in succs[v] ensures Visited(t, w) {
      if v == top {
        var j :| 0 <= j < |succs[top]| && succs[top][j] == w;
        assert Visited(s, succs[s.path[|s.path| - 1]][j]);
      } else {
        assert Visited(s, w);
      }
    }
    forall k: nat | k < |t.finish| ensures Exits(succs, t.finish, k) {
      if k < |s.finish| {
        assert t.finish[..k + 1] == s.finish[..k + 1];
        assert Exits(succs, s.finish, k);
      } else {
        TopExits(succs, s);
      }
    }
  }

  lemma FinishMarks(succs: Lists, s: Search)
    requires Marked(succs, s) && Disjoint(s) && |s.path| > 0
    ensures Marked(succs, Finished(s)) && Disjoint(Finished(s))
  {
    hide Disjoint;
    FinishIsDisjoint(s);
    var t, top := Finished(s), s.path[|s.path| - 1];
    assert s.path == t.path + [top];
    forall v: nat | v < |succs| && t.visited[v] ensures v in t.path || v in t.finish {
      assert v in s.path || v in s.finish;
    }
  }

  lemma FinishIsDisjoint(s: Search)
    requires Disjoint(s) && |s.path| == |s.next| > 0
    ensures Disjoint(Finished(s))
  {
    var t, last := Finished(s), |s.path| - 1;
    assert s.path[last] in s.path;
    forall v | v in t.path ensures v !in t.finish {
      var k :| 0 <= k < |t.path| && t.path[k] == v;
      assert s.path[k] == v && v in s.path;
    }
    forall j, k | 0 <= j < k < |t.finish| ensures t.finish[j] != t.finish[k] {
      assert s.finish[j] in s.finish;
    }
  }

  lemma TopExits(succs: Lists, s: Search)
    requires Searching(succs, s) && |s.path| > 0 && s.next[|s.path| - 1] == |succs[s.path[|s.path| - 1]]|
    ensures Exits(succs, Finished(s).finish, |s.finish|)
  {
    hide Joined;
    var top, finish := s.path[|s.path| - 1], Finished(s).finish;
    assert finish[..|s.finish| + 1] == finish;
    forall x, w | x in finish && x < |succs| && w in succs[x] && w !in finish ensures Joined(succs, w, top) {
      if x == top {
        var j :| 0 <= j < |succs[top]| && succs[top][j] == w;
        assert Visited(s, succs[s.path[|s.path| - 1]][j]);
      } else {
        assert x in s.finish && Visited(s, w);
      }
      assert w in s.path;
      var k :| 0 <= k < |s.path| && s.path[k] == w;
      PathReachesTop(succs, s, k);
    }
  }

  /** Looking at one more successor of the top: new ones go on top of it. */
  function LookedAt(succs: Lists, s: Search): Search
    requires |s.path| == |s.next| > 0 && s.path[|s.path| - 1] < |succs|
    requires s.next[|s.path| - 1] < |succs[s.path[|s.path| - 1]]|
    requires succs[s.path[|s.path| - 1]][s.next[|s.path| - 1]] < |s.visited|
  {
    var last := |s.path| - 1;
    var w := succs[s.path[last]][s.next[last]];
    var next := s.next[last := s.next[last] + 1];
    if s.visited[w] then s.(next := next)
    else Search(s.visited[w := true], s.path + [w], next + [0], s.finish)
  }

  ghost predicate MayLook(succs: Lists, s: Search) {
    && Marked(succs, s) && |s.path| > 0
    && s.next[|s.path| - 1] < |succs[s.path[|s.path| - 1]]|
    && succs[s.path[|s.path| - 1]][s.next[|s.path| - 1]] < |s.visited|
  }

  lemma LookMarks(succs: Lists, s: Search)
    requires MayLook(succs, s) && Disjoint(s)
    ensures Marked(succs, LookedAt(succs, s)) && Disjoint(LookedAt(succs, s))
  {
    var t, last := LookedAt(succs, s), |s.path| - 1;
    var w := succs[s.path[last]][s.next[last]];
    if !s.visited[w] {
      assert w !in s.path && w !in s.finish;
      assert forall v :: v in t.path <==> v in s.path || v == w;
    }
  }

  lemma LookFollows(succs: Lists, s: Search)
    requires MayLook(succs, s) && Followed(succs, s) && Marked(succs, LookedAt(succs, s))
    ensures Followed(succs, LookedAt(succs, s))
  {
    hide Visited;
    var t, last := LookedAt(succs, s), |s.path| - 1;
    VisitedStays(succs, s);
    TopIsVisited(succs, s);
    forall k, j | 0 <= k < |t.path| && 0 <= j < t.next[k] ensures Visited(t, succs[t.path[k]][j]) {
      LookedOver(succs, s, k, j);
    }
    forall v, u | v in t.finish && u in succs[v] ensures Visited(t, u) {
      assert Visited(s, u);
    }
  }

  lemma LookedOver(succs: Lists, s: Search, k: nat, j: nat)
    requires MayLook(succs, s) && Followed(succs, s)
    requires k < |LookedAt(succs, s).path| && j < LookedAt(succs, s).next[k]
    ensures k < |s.path| && LookedAt(succs, s).path[k] == s.path[k] && j < |succs[s.path[k]]|
    ensures Visited(s, succs[s.path[k]][j]) || (k == |s.path| - 1 && j == s.next[k])
  {
    hide Visited;
  }

  lemma TopIsVisited(succs: Lists, s: Search)
    requires MayLook(succs, s)
    ensures Visited(LookedAt(succs, s), succs[s.path[|s.path| - 1]][s.next[|s.path| - 1]])
  {}

  lemma VisitedStays(succs: Lists, s: Search)
    requires MayLook(succs, s)
    ensures forall v: nat | Visited(s, v) :: Visited(LookedAt(succs, s), v)
  {}

  lemma LookKeeps(succs: Lists, s: Search)
    requires Searching(succs, s) && MayLook(succs, s)
    ensures Searching(succs, LookedAt(succs, s))
  {
    hide AllExits, Marked, Disjoint, Followed;
    LookMarks(succs, s);
    LookFollows(succs, s);
  }

  lemma SearchFits(succs: Lists, s: Search)
    requires Marked(succs, s) && Disjoint(s)
    ensures |s.path| + |s.finish| <= |succs|
  {
    var all := s.path + s.finish;
    forall v | v in all ensures v < |succs| {
      assert v in s.path || v in s.finish;
    }
    forall j, k | 0 <= j < k < |all| ensures all[j] != all[k] {
      assert j < |s.path| ==> all[j] in s.path;
      assert k >= |s.path| ==> all[k] in s.finish;
    }
    DistinctBounded(all, |succs|);
  }

  lemma StartKeeps(succs: Lists, s: Search, start: nat)
    requires Searching(succs, s) && s.path == [] && start < |succs| && !s.visited[start]
    ensures Searching(succs, s.(visited := s.visited[start := true], path := [start], next := [0]))
  {
    hide AllExits;
    var t := s.(visited := s.visited[start := true], path := [start], next := [0]);
    forall v, u | v in t.finish && u in succs[v] ensures Visited(t, u) {
      assert Visited(s, u);
    }
  }

  /** Every vertex once, in the order the search leaves it for good. */
  ghost predicate FinishOrder(succs: Lists, finish: seq<nat>) {
    && (forall v: nat :: v in finish <==> v < |succs|)
    && (forall j, k | 0 <= j < k < |finish| :: finish[j] != finish[k])
    && AllExits(succs, finish)
  }

  lemma TopInRange(succs: Lists, preds: Lists, s: Search)
    requires Inverse(succs, preds) && Searching(succs, s) && |s.path| > 0
    ensures Marked(succs, s) && s.next[|s.path| - 1] <= |succs[s.path[|s.path| - 1]]|
    ensures s.next[|s.path| - 1] < |succs[s.path[|s.path| - 1]]| ==>
              succs[s.path[|s.path| - 1]][s.next[|s.path| - 1]] < |succs|
  {
    assert s.path[|s.path| - 1] in s.path;
    hide AllExits, Disjoint;
    var last := |s.path| - 1;
    if s.next[last] < |succs[s.path[last]]| {
      assert succs[s.path[last]][s.next[last]] in succs[s.path[last]];
    }
  }

  lemma SearchShape(succs: Lists, s: Search)
    requires Searching(succs, s)
    ensures |s.visited| == |succs| && |s.next| == |s.path| && |s.path| + |s.finish| <= |succs|
  {
    SearchFits(succs, s);
  }

  method DepthFirst(succs: Lists, ghost preds: Lists) returns (finish: seq<nat>)
    requires Inverse(succs, preds)
    ensures FinishOrder(succs, finish)
  {
    hide Searching, Inverse;
    var n := |succs|;
    var s := Search(seq(n, _ => false), [], [], []);
    NothingSearched(succs, s);
    SearchShape(succs, s);
    for start := 0 to n
      invariant Searching(succs, s) && |s.visited| == n && s.path == []
      invariant forall v: nat | v < start :: s.visited[v]
    {
      if !s.visited[start] {
        StartKeeps(succs, s, start);
        s := s.(visited := s.visited[start := true], path := [start], next := [0]);
        SearchShape(succs, s);
        while |s.path| > 0
          invariant Searching(succs, s) && |s.visited| == n && |s.next| == |s.path|
          invariant |s.path| + |s.finish| <= n
          invariant forall v: nat | v <= start :: s.visited[v]
          decreases n - |s.finish|, n - |s.finish| - |s.path|,
            if |s.path| > 0 && s.path[|s.path| - 1] < n && |s.next| == |s.path|
            then |succs[s.path[|s.path| - 1]]| - s.next[|s.path| - 1] else 0
        {
          TopInRange(succs, preds, s);
          var last := |s.path| - 1;
          if s.next[last] == |succs[s.path[last]]| {
            FinishKeeps(succs, s);
            s := Finished(s);
          } else {
            assert MayLook(succs, s);
            LookKeeps(succs, s);
            s := LookedAt(succs, s);
          }
          SearchShape(succs, s);
        }
      }
    }
    finish := s.finish;
    AllSearched(succs, s);
  }

  lemma NothingSearched(succs: Lists, s: Search)
    requires s == Search(seq(|succs|, _ => false), [], [], [])
    ensures Searching(succs, s)
  {}

  lemma AllSearched(succs: Lists, s: Search)
    requires Searching(succs, s) && s.path == [] && forall v: nat | v < |succs| :: s.visited[v]
    ensures FinishOrder(succs, s.finish)
  {
    hide AllExits;
  }

  // ---- Components ----------------------------------------------------------------------

  lemma {:induction false} PathJoins(succs: Lists, p: seq<nat>, k: nat)
    requires IsPath(EdgesOf(succs), p) && k < |p|
    ensures Joined(succs, p[0], p[k])
  {
    var q := p[..k + 1];
    assert IsPath(EdgesOf(succs), q) && q[0] == p[0] && q[|q| - 1] == p[k];
  }

  /** A path that starts inside a list and ends outside leaves it somewhere. */
  lemma {:induction false} LeavesSomewhere(p: seq<nat>, inside: seq<nat>) returns (e: nat)
    requires |p| > 0 && p[0] in inside && p[|p| - 1] !in inside
    ensures e + 1 < |p| && p[e] in inside && p[e + 1] !in inside
  {
    e := 0;
    while p[e + 1] in inside
      invariant e + 1 < |p| && p[e] in inside
      decreases |p| - e
    {
      e := e + 1;
    }
  }

  /** What leads into a vertex that is mutual with the last of the unvisited ones
      to finish, and did not finish after it, is mutual with it too. */
  lemma PredIsMutual(succs: Lists, preds: Lists, finish: seq<nat>, k: nat, at: nat, u: nat)
    requires Inverse(succs, preds) && FinishOrder(succs, finish) && k < |finish|
    requires at < |succs| && Mutual(succs, at, finish[k]) && u in preds[at] && u in finish[..k + 1]
    ensures Mutual(succs, u, finish[k])
  {
    hide Joined;
    var root := finish[k];
    assert u < |succs| && at in succs[u];
    JoinedStep(succs, u, at, root);
    if u == root {
      JoinedSelf(succs, u);
    } else {
      var m :| 0 <= m < k + 1 && finish[m] == u;
      RootReachesBack(succs, finish, k, m, at);
    }
  }

  lemma RootReachesBack(succs: Lists, finish: seq<nat>, k: nat, m: nat, at: nat)
    requires FinishOrder(succs, finish) && m < k < |finish| && finish[m] < |succs|
    requires at in succs[finish[m]] && Mutual(succs, at, finish[k])
    ensures Joined(succs, finish[k], finish[m])
  {
    var root, u := finish[k], finish[m];
    var q :| IsPath(EdgesOf(succs), q) && q[0] == at && q[|q| - 1] == root;
    hide Joined;
    var p, before := [u] + q, finish[..m + 1];
    assert before[m] == u;
    RootIsLater(finish, k, m);
    var e := LeavesSomewhere(p, before);
    assert p[e + 1] == q[e] && p[e + 1] in succs[p[e]] by {
      if e > 0 {
        assert q[e] in Succ(EdgesOf(succs), q[e - 1]);
      }
    }
    assert Exits(succs, finish, m);
    PathJoins(succs, q, e);
    JoinedTransitive(succs, root, at, q[e]);
    JoinedTransitive(succs, root, q[e], u);
  }

  lemma RootIsLater(finish: seq<nat>, k: nat, m: nat)
    requires m < k < |finish| && forall i, j | 0 <= i < j < |finish| :: finish[i] != finish[j]
    ensures finish[k] !in finish[..m + 1]
  {}

  ghost predicate Among(visited: seq<bool>, v: nat) {
    v < |visited| && visited[v]
  }

  /** Whoever is mutual with a visited vertex is visited. */
  ghost predicate ClosedUnder(succs: Lists, visited: seq<bool>) {
    forall a: nat, b: nat | Among(visited, a) && b < |succs| && Mutual(succs, a, b) :: Among(visited, b)
  }

  /** Before the `k`-th vertex to finish is looked at: all later ones have been. */
  ghost predicate LaterDone(succs: Lists, finish: seq<nat>, visited: seq<bool>, k: nat) {
    && |visited| == |succs| && k < |finish|
    && (forall j | k < j < |finish| :: Among(visited, finish[j]))
    && ClosedUnder(succs, visited)
  }

  /** A backward search from `root`: what it has taken in and what is pending. */
  ghost predicate Collecting(
      succs: Lists, preds: Lists, root: nat, was: seq<bool>, visited: seq<bool>, component: seq<nat>, pending: seq<nat>)
    requires |preds| == |succs|
  {
    && |was| == |visited| == |succs|
    && (forall v: nat :: Among(visited, v) <==> Among(was, v) || v in component || v in pending)
    && (forall v | v in component || v in pending :: v < |succs| && !Among(was, v) && Mutual(succs, v, root))
    && (forall j, k | 0 <= j < k < |component| :: component[j] != component[k])
    && (forall j, k | 0 <= j < k < |pending| :: pending[j] != pending[k])
    && (forall v | v in component :: v !in pending)
    && (root in component || root in pending)
    && (forall c, u | c in component && c < |preds| && u in preds[c] :: Among(visited, u))
  }

  lemma CollectingFits(
      succs: Lists, preds: Lists, root: nat, was: seq<bool>, visited: seq<bool>, component: seq<nat>, pending: seq<nat>)
    requires |preds| == |succs| && Collecting(succs, preds, root, was, visited, component, pending)
    ensures |component| + |pending| <= |succs|
  {
    hide Mutual;
    var all := component + pending;
    forall j, k | 0 <= j < k < |all| ensures all[j] != all[k] {
      assert j < |component| ==> all[j] in component;
      assert k >= |component| ==> all[k] in pending;
    }
    forall v | v in all ensures v < |succs| {
      assert v in component || v in pending;
    }
    DistinctBounded(all, |succs|);
  }

  /** While the predecessors of `at` are looked at: the first `k` have been. */
  ghost predicate Taking(
      succs: Lists, preds: Lists, root: nat, was: seq<bool>, visited: seq<bool>, component: seq<nat>, pending: seq<nat>,
      at: nat, k: nat)
    requires |preds| == |succs|
  {
    && |was| == |visited| == |succs| && at < |succs| && k <= |preds[at]|
    && (forall v: nat :: Among(visited, v) <==> Among(was, v) || v in component || v in pending || v == at)
    && (forall v | v in component || v in pending || v == at ::
          v < |succs| && !Among(was, v) && Mutual(succs, v, root))
    && (forall i, j | 0 <= i < j < |component| :: component[i] != component[j])
    && (forall i, j | 0 <= i < j < |pending| :: pending[i] != pending[j])
    && (forall v | v in component :: v !in pending)
    && at !in component && at !in pending
    && (root in component || root in pending || root == at)
    && (forall c, u | c in component && c < |preds| && u in preds[c] :: Among(visited, u))
    && (forall j | 0 <= j < k :: Among(visited, preds[at][j]))
  }

  lemma TakeFirst(
      succs: Lists, preds: Lists, root: nat, was: seq<bool>, visited: seq<bool>, component: seq<nat>, pending: seq<nat>)
    requires |preds| == |succs| && Collecting(succs, preds, root, was, visited, component, pending) && |pending| > 0
    ensures Taking(succs, preds, root, was, visited, component, pending[..|pending| - 1], pending[|pending| - 1], 0)
  {
    hide Mutual;
    var at, rest := pending[|pending| - 1], pending[..|pending| - 1];
    assert pending == rest + [at];
    assert at in pending;
    assert forall v :: v in pending <==> v in rest || v == at;
  }

  lemma TakeNext(
      succs: Lists, preds: Lists, finish: seq<nat>, n: nat, was: seq<bool>, visited: seq<bool>,
      component: seq<nat>, pending: seq<nat>, at: nat, k: nat)
    requires Inverse(succs, preds) && FinishOrder(succs, finish) && LaterDone(succs, finish, was, n)
    requires Taking(succs, preds, finish[n], was, visited, component, pending, at, k) && k < |preds[at]|
    ensures preds[at][k] < |succs|
    ensures
      var u := preds[at][k];
      if visited[u] then Taking(succs, preds, finish[n], was, visited, component, pending, at, k + 1)
      else Taking(succs, preds, finish[n], was, visited[u := true], component, pending + [u], at, k + 1)
  {
    var u := preds[at][k];
    assert u in preds[at];
    if !visited[u] {
      UnvisitedIsEarlier(succs, finish, was, n, u);
      PredIsMutual(succs, preds, finish, n, at, u);
      hide Mutual, Inverse, FinishOrder, LaterDone;
      var after := visited[u := true];
      assert forall v: nat :: Among(after, v) <==> Among(visited, v) || v == u;
      assert forall v :: v in pending + [u] <==> v in pending || v == u;
    }
  }

  lemma UnvisitedIsEarlier(succs: Lists, finish: seq<nat>, visited: seq<bool>, n: nat, u: nat)
    requires FinishOrder(succs, finish) && LaterDone(succs, finish, visited, n) && u < |succs| && !Among(visited, u)
    ensures u in finish[..n + 1]
  {
    hide ClosedUnder, AllExits;
    assert u in finish;
    var j :| 0 <= j < |finish| && finish[j] == u;
    assert finish[..n + 1][j] == u;
  }

  lemma TakeLast(
      succs: Lists, preds: Lists, root: nat, was: seq<bool>, visited: seq<bool>, component: seq<nat>, pending: seq<nat>,
      at: nat)
    requires |preds| == |succs| && at < |preds|
    requires Taking(succs, preds, root, was, visited, component, pending, at, |preds[at]|)
    ensures Collecting(succs, preds, root, was, visited, component + [at], pending)
  {
    hide Mutual;
    var after := component + [at];
    assert forall v :: v in after <==> v in component || v == at;
    forall c, u | c in after && c < |preds| && u in preds[c] ensures Among(visited, u) {
      if c == at {
        var j :| 0 <= j < |preds[at]| && preds[at][j] == u;
      }
    }
  }

  /** The whole component is taken in: nothing mutual with the root is left out. */
  lemma {:induction false} MutualIsTaken(
      succs: Lists, preds: Lists, root: nat, was: seq<bool>, visited: seq<bool>, component: seq<nat>, p: seq<nat>)
    requires Inverse(succs, preds) && ClosedUnder(succs, was) && root < |succs| && !Among(was, root)
    requires Collecting(succs, preds, root, was, visited, component, [])
    requires IsPath(EdgesOf(succs), p) && p[|p| - 1] == root && p[0] < |succs| && Joined(succs, root, p[0])
    ensures p[0] in component
    decreases |p|
  {
    hide Joined;
    if |p| > 1 {
      var next := p[1];
      assert next in Succ(EdgesOf(succs), p[0]) && next in succs[p[0]] && next < |succs|;
      assert p[0] in preds[next];
      JoinedSelf(succs, next);
      JoinedStep(succs, p[0], next, next);
      JoinedTransitive(succs, root, p[0], next);
      assert p[1..][|p| - 2] == root;
      MutualIsTaken(succs, preds, root, was, visited, component, p[1..]);
      PathJoins(succs, p, |p| - 1);
      assert Among(visited, p[0]);
      assert Mutual(succs, p[0], root);
    }
  }

  ghost predicate IsComponent(succs: Lists, component: seq<nat>, root: nat) {
    && (forall v: nat :: v in component <==> v < |succs| && Mutual(succs, v, root))
    && (forall j, k | 0 <= j < k < |component| :: component[j] != component[k])
  }

  lemma CollectedIsComponent(
      succs: Lists, preds: Lists, finish: seq<nat>, k: nat, was: seq<bool>, visited: seq<bool>, component: seq<nat>)
    requires Inverse(succs, preds) && LaterDone(succs, finish, was, k) && finish[k] < |succs| && !Among(was, finish[k])
    requires Collecting(succs, preds, finish[k], was, visited, component, [])
    ensures IsComponent(succs, component, finish[k])
    ensures ClosedUnder(succs, visited) && finish[k] in component
    ensures forall v: nat :: Among(visited, v) <==> Among(was, v) || v in component
    ensures forall v | v in component :: !Among(was, v)
  {
    var root := finish[k];
    forall v: nat | v < |succs| && Mutual(succs, v, root) ensures v in component {
      var p :| IsPath(EdgesOf(succs), p) && p[0] == v && p[|p| - 1] == root;
      MutualIsTaken(succs, preds, root, was, visited, component, p);
    }
    hide Joined;
    forall a: nat, b: nat | Among(visited, a) && b < |succs| && Mutual(succs, a, b) ensures Among(visited, b) {
      if a in component {
        JoinedTransitive(succs, b, a, root);
        JoinedTransitive(succs, root, a, b);
      }
    }
  }

  lemma CollectFrom(succs: Lists, preds: Lists, root: nat, was: seq<bool>)
    requires |preds| == |succs| == |was| && root < |succs| && !was[root]
    ensures Collecting(succs, preds, root, was, was[root := true], [], [root])
  {
    JoinedSelf(succs, root);
    hide Joined;
  }

  /** A component by a backward search from its last vertex to finish. */
  method Collect(succs: Lists, preds: Lists, ghost finish: seq<nat>, ghost k: nat, root: nat, was: seq<bool>)
    returns (component: seq<nat>, visited: seq<bool>)
    requires Inverse(succs, preds) && FinishOrder(succs, finish) && LaterDone(succs, finish, was, k)
    requires root == finish[k] < |succs| && !Among(was, root)
    ensures IsComponent(succs, component, root) && root in component
    ensures |visited| == |succs| && ClosedUnder(succs, visited)
    ensures forall v: nat :: Among(visited, v) <==> Among(was, v) || v in component
    ensures forall v | v in component :: !Among(was, v)
  {
    hide Inverse, FinishOrder, Collecting, Taking, ClosedUnder;
    InverseShape(succs, preds);
    visited := was[root := true];
    component := [];
    var pending := [root];
    CollectFrom(succs, preds, root, was);
    while |pending| > 0
      invariant |visited| == |succs| && |component| + |pending| <= |succs|
      invariant Collecting(succs, preds, root, was, visited, component, pending)
      decreases |succs| - |component|
    {
      CollectingFits(succs, preds, root, was, visited, component, pending);
      var at := pending[|pending| - 1];
      TakeFirst(succs, preds, root, was, visited, component, pending);
      pending := pending[..|pending| - 1];
      TakingShape(succs, preds, root, was, visited, component, pending, at, 0);
      for j := 0 to |preds[at]|
        invariant |visited| == |succs|
        invariant Taking(succs, preds, root, was, visited, component, pending, at, j)
      {
        TakeNext(succs, preds, finish, k, was, visited, component, pending, at, j);
        var u := preds[at][j];
        if !visited[u] {
          visited, pending := visited[u := true], pending + [u];
        }
      }
      TakeLast(succs, preds, root, was, visited, component, pending, at);
      component := component + [at];
      CollectingFits(succs, preds, root, was, visited, component, pending);
    }
    assert pending == [];
    CollectedIsComponent(succs, preds, finish, k, was, visited, component);
  }

  lemma InverseShape(succs: Lists, preds: Lists)
    requires Inverse(succs, preds)
    ensures |preds| == |succs|
  {}

  lemma TakingShape(
      succs: Lists, preds: Lists, root: nat, was: seq<bool>, visited: seq<bool>, component: seq<nat>, pending: seq<nat>,
      at: nat, k: nat)
    requires |preds| == |succs| && Taking(succs, preds, root, was, visited, component, pending, at, k)
    ensures at < |preds|
  {}

  ghost predicate IsWhole(succs: Lists, component: seq<nat>) {
    exists root :: root in component && IsComponent(succs, component, root)
  }

  // ---- Cycles --------------------------------------------------------------------------

  ghost predicate OnCycle(succs: Lists, v: nat) {
    v < |succs| && exists next :: next in succs[v] && Joined(succs, next, v)
  }

  /** The component of `root` holds a cycle. */
  predicate Cyclic(succs: Lists, component: seq<nat>)
    requires forall j | 0 <= j < |component| :: component[j] < |succs|
  {
    |component| > 1 || (|component| == 1 && component[0] in succs[component[0]])
  }

  lemma CyclicIffOnCycle(succs: Lists, component: seq<nat>, root: nat, v: nat)
    requires IsComponent(succs, component, root) && root in component && v in component
    requires forall j | 0 <= j < |component| :: component[j] < |succs|
    ensures Cyclic(succs, component) <==> OnCycle(succs, v)
  {
    hide Joined;
    MutualInside(succs, component, root);
    if |component| > 1 {
      var u := OtherOne(component, v);
      assert Mutual(succs, u, v);
      FirstStepToOther(succs, v, u);
    } else if component[0] in succs[component[0]] {
      JoinedSelf(succs, v);
    }
    if OnCycle(succs, v) && |component| <= 1 {
      var next :| next in succs[v] && Joined(succs, next, v);
      NextOnCycle(succs, component, root, v, next);
    }
  }

  lemma MutualInside(succs: Lists, component: seq<nat>, root: nat)
    requires IsComponent(succs, component, root)
    ensures forall a, b | a in component && b in component :: Mutual(succs, a, b)
  {
    hide Joined;
    forall a, b | a in component && b in component ensures Mutual(succs, a, b) {
      JoinedTransitive(succs, a, root, b);
      JoinedTransitive(succs, b, root, a);
    }
  }

  lemma OtherOne(component: seq<nat>, v: nat) returns (u: nat)
    requires |component| > 1 && forall j, k | 0 <= j < k < |component| :: component[j] != component[k]
    ensures u in component && u != v
  {
    assert component[0] != component[1] && component[0] in component && component[1] in component;
    u := if component[0] == v then component[1] else component[0];
  }

  lemma FirstStepToOther(succs: Lists, v: nat, u: nat)
    requires v < |succs| && u != v && Mutual(succs, v, u)
    ensures OnCycle(succs, v)
  {
    var next := ReachesFirstStep(EdgesOf(succs), v, u);
    ReachesTransitive(EdgesOf(succs), next, u, v);
    assert next in succs[v] && Joined(succs, next, v);
  }

  lemma NextOnCycle(succs: Lists, component: seq<nat>, root: nat, v: nat, next: nat)
    requires IsComponent(succs, component, root) && v in component && |component| <= 1
    requires next in succs[v] && Joined(succs, next, v) && v < |succs|
    ensures next == v && component[0] == v
  {
    hide Joined;
    JoinedSelf(succs, next);
    JoinedStep(succs, v, next, next);
    JoinedTransitive(succs, next, v, root);
    JoinedTransitive(succs, root, v, next);
    NextInRange(succs, v, next);
    assert next in component;
  }

  lemma NextInRange(succs: Lists, v: nat, next: nat)
    requires Joined(succs, next, v) && v < |succs|
    ensures next < |succs|
  {
    if next != v {
      var after := ReachesFirstStep(EdgesOf(succs), next, v);
    }
  }

  /** The components that hold a cycle, each whole and once: together they are the
      vertices on cycles. */
  method Components(succs: Lists, preds: Lists) returns (result: seq<seq<nat>>)
    requires Inverse(succs, preds)
    ensures forall c | 0 <= c < |result| :: IsWhole(succs, result[c])
    ensures forall v: nat :: (exists c :: 0 <= c < |result| && v in result[c]) <==> OnCycle(succs, v)
  {
    hide Inverse, FinishOrder, IsComponent, IsWhole, ClosedUnder, OnCycle;
    var finish := DepthFirst(succs, preds);
    OrderShape(succs, finish);
    var visited := seq(|succs|, _ => false);
    NothingClosed(succs, visited);
    result := [];
    for k := |finish| downto 0
      invariant |visited| == |succs| && ClosedUnder(succs, visited)
      invariant forall j | k <= j < |finish| :: Among(visited, finish[j])
      invariant forall c | 0 <= c < |result| :: IsWhole(succs, result[c])
      invariant forall v: nat | Among(visited, v) ::
                  (exists c :: 0 <= c < |result| && v in result[c]) <==> OnCycle(succs, v)
      invariant forall c, v | 0 <= c < |result| && v in result[c] :: Among(visited, v)
    {
      if !visited[finish[k]] {
        ghost var was, before := visited, result;
        var component;
        component, visited := Collect(succs, preds, finish, k, finish[k], visited);
        ComponentInRange(succs, component, finish[k]);
        if Cyclic(succs, component) {
          result := result + [component];
        }
        ResultGrows(succs, was, visited, before, result, component, finish[k]);
      }
    }
    forall v: nat ensures (exists c :: 0 <= c < |result| && v in result[c]) <==> OnCycle(succs, v) {
      AllVisited(succs, finish, visited, v);
    }
  }

  lemma OrderShape(succs: Lists, finish: seq<nat>)
    requires FinishOrder(succs, finish)
    ensures forall k | 0 <= k < |finish| :: finish[k] < |succs|
  {
    forall k | 0 <= k < |finish| ensures finish[k] < |succs| {
      assert finish[k] in finish;
    }
  }

  lemma NothingClosed(succs: Lists, visited: seq<bool>)
    requires visited == seq(|succs|, _ => false)
    ensures ClosedUnder(succs, visited) && forall v: nat :: !Among(visited, v)
  {}

  lemma ComponentInRange(succs: Lists, component: seq<nat>, root: nat)
    requires IsComponent(succs, component, root)
    ensures forall j | 0 <= j < |component| :: component[j] < |succs|
  {
    hide Mutual;
    forall j | 0 <= j < |component| ensures component[j] < |succs| {
      assert component[j] in component;
    }
  }

  lemma ResultGrows(
      succs: Lists, was: seq<bool>, visited: seq<bool>, before: seq<seq<nat>>, result: seq<seq<nat>>,
      component: seq<nat>, root: nat)
    requires IsComponent(succs, component, root) && root in component
    requires forall j | 0 <= j < |component| :: component[j] < |succs|
    requires forall v: nat :: Among(visited, v) <==> Among(was, v) || v in component
    requires result == if Cyclic(succs, component) then before + [component] else before
    requires forall c | 0 <= c < |before| :: IsWhole(succs, before[c])
    requires forall v: nat | Among(was, v) :: (exists c :: 0 <= c < |before| && v in before[c]) <==> OnCycle(succs, v)
    requires forall c, v | 0 <= c < |before| && v in before[c] :: Among(was, v)
    requires forall v | v in component :: !Among(was, v)
    ensures forall c | 0 <= c < |result| :: IsWhole(succs, result[c])
    ensures forall v: nat | Among(visited, v) ::
              (exists c :: 0 <= c < |result| && v in result[c]) <==> OnCycle(succs, v)
    ensures forall c, v | 0 <= c < |result| && v in result[c] :: Among(visited, v)
  {
    hide IsComponent, OnCycle, Cyclic, Among;
    assert IsWhole(succs, component);
    forall v: nat | Among(visited, v)
      ensures (exists c :: 0 <= c < |result| && v in result[c]) <==> OnCycle(succs, v)
    {
      InResult(before, result, component, Cyclic(succs, component), v);
      if v in component {
        CyclicIffOnCycle(succs, component, root, v);
      }
    }
    forall c, v | 0 <= c < |result| && v in result[c] ensures Among(visited, v) {
      if c < |before| {
        assert v in before[c];
      }
    }
  }

  lemma InResult(before: seq<seq<nat>>, result: seq<seq<nat>>, component: seq<nat>, kept: bool, v: nat)
    requires result == if kept then before + [component] else before
    ensures (exists c :: 0 <= c < |result| && v in result[c]) <==>
              (exists c :: 0 <= c < |before| && v in before[c]) || (kept && v in component)
  {
    if c :| 0 <= c < |before| && v in before[c] {
      assert v in result[c];
    }
    if kept && v in component {
      assert result[|before|] == component;
    }
  }

  lemma AllVisited(succs: Lists, finish: seq<nat>, visited: seq<bool>, v: nat)
    requires FinishOrder(succs, finish) && |visited| == |succs|
    requires forall j | 0 <= j < |finish| :: Among(visited, finish[j])
    ensures v < |succs| <==> Among(visited, v)
    ensures OnCycle(succs, v) ==> Among(visited, v)
  {
    hide AllExits, Joined;
    if v < |succs| {
      assert v in finish;
    }
  }
}
