/** The canonical order of operations: of those whose predecessors are placed the
    one with the smallest key comes next, so that the order depends on the keys
    and not on how the operations were listed. */
module CanonicalOrder {
  import opened FiniteSets
  import opened Digraphs
  import opened OpGraph
  import opened TopologicalOrder
  import StrongComponents

  type Lists = StrongComponents.Lists

  // ---- Keys ----------------------------------------------------------------------------

  /** Lexicographic order. */
  predicate Less(a: string, b: string) {
    if b == [] then false
    else if a == [] then true
    else if a[0] != b[0] then a[0] < b[0]
    else Less(a[1..], b[1..])
  }

  lemma {:induction false} LessIsTotal(a: string, b: string)
    ensures a == b || Less(a, b) || Less(b, a)
    ensures !(Less(a, b) && Less(b, a)) && !Less(a, a)
  {
    if a != [] && b != [] {
      LessIsTotal(a[1..], b[1..]);
      assert a == [a[0]] + a[1..] && b == [b[0]] + b[1..];
    }
    if a != [] {
      LessIrreflexive(a);
    }
  }

  lemma {:induction false} LessIrreflexive(a: string)
    ensures !Less(a, a)
  {
    if a != [] {
      LessIrreflexive(a[1..]);
    }
  }

  lemma {:induction false} LessTransitive(a: string, b: string, c: string)
    requires Less(a, b) && Less(b, c)
    ensures Less(a, c)
  {
    if a != [] && b != [] && c != [] {
      if a[0] == b[0] && b[0] == c[0] {
        LessTransitive(a[1..], b[1..], c[1..]);
      }
    }
  }

  /** `a` ends where `b` goes on, or has the smaller character where they first differ. */
  ghost predicate PrecedesAt(a: string, b: string, k: nat) {
    k <= |a| && k < |b| && a[..k] == b[..k] && (k == |a| || a[k] < b[k])
  }

  ghost predicate Precedes(a: string, b: string) {
    exists k: nat :: PrecedesAt(a, b, k)
  }

  lemma SameHeads(a: string, b: string, k: nat)
    requires PrecedesAt(a, b, k) && k > 0
    ensures a != [] && b != [] && a[0] == b[0]
  {
    assert a[..k][0] == b[..k][0];
  }

  lemma {:induction false} LessIsLexicographic(a: string, b: string)
    ensures Less(a, b) <==> Precedes(a, b)
  {
    if a == [] || b == [] || a[0] != b[0] {
      if Less(a, b) {
        assert PrecedesAt(a, b, 0);
      }
      if k: nat :| PrecedesAt(a, b, k) {
        if k > 0 {
          SameHeads(a, b, k);
        }
      }
    } else {
      LessIsLexicographic(a[1..], b[1..]);
      if k: nat :| PrecedesAt(a[1..], b[1..], k) {
        assert a[..k + 1] == [a[0]] + a[1..][..k] && b[..k + 1] == [b[0]] + b[1..][..k];
        assert PrecedesAt(a, b, k + 1);
      }
      if k: nat :| PrecedesAt(a, b, k) {
        assert a[1..][..k - 1] == a[..k][1..] && b[1..][..k - 1] == b[..k][1..];
        assert PrecedesAt(a[1..], b[1..], k - 1);
      }
    }
  }

  ghost predicate DistinctKeys(keys: seq<string>) {
    forall i, j | 0 <= i < j < |keys| :: keys[i] != keys[j]
  }

  // ---- The graph that is ordered -------------------------------------------------------

  /** A list without its excluded entries. */
  function Kept(list: seq<nat>, excluded: seq<bool>): (kept: seq<nat>)
    ensures forall x :: x in kept <==> x in list && x < |excluded| && !excluded[x]
    ensures |kept| <= |list|
  {
    if list == [] then []
    else
      var before, last := Kept(list[..|list| - 1], excluded), list[|list| - 1];
      assert list == list[..|list| - 1] + [last];
      if last < |excluded| && !excluded[last] then before + [last] else before
  }

  lemma {:induction false} KeptIsSorted(list: seq<nat>, excluded: seq<bool>)
    requires StrictlyIncreasing(list)
    ensures StrictlyIncreasing(Kept(list, excluded))
  {
    if list != [] {
      var shorter := list[..|list| - 1];
      KeptIsSorted(shorter, excluded);
      forall k | 0 <= k < |Kept(shorter, excluded)| ensures Kept(shorter, excluded)[k] < list[|list| - 1] {
        assert Kept(shorter, excluded)[k] in Kept(shorter, excluded);
        var j :| 0 <= j < |shorter| && shorter[j] == Kept(shorter, excluded)[k];
        assert list[j] == shorter[j];
      }
    }
  }

  ghost predicate Sorted(lists: Lists) {
    forall i | 0 <= i < |lists| :: StrictlyIncreasing(lists[i])
  }

  /** The edges between operations that are kept; one set aside waits for itself. */
  ghost function Active(preds: Lists, succs: Lists, excluded: seq<bool>): (active: seq<Cluster>)
    requires |preds| == |succs| == |excluded|
    ensures |active| == |preds|
  {
    seq(|preds|, i requires 0 <= i < |preds| =>
      if excluded[i] then Cluster([], [i], [i]) else Cluster([], Kept(preds[i], excluded), Kept(succs[i], excluded)))
  }

  lemma ActiveIsInverse(preds: Lists, succs: Lists, excluded: seq<bool>)
    requires StrongComponents.Inverse(succs, preds) && Sorted(preds) && Sorted(succs) && |excluded| == |preds|
    ensures InverseEdges(Active(preds, succs, excluded))
  {
    hide Kept;
    var active := Active(preds, succs, excluded);
    forall c | 0 <= c < |active|
      ensures StrictlyIncreasing(active[c].preds) && StrictlyIncreasing(active[c].succs)
    {
      if !excluded[c] {
        KeptIsSorted(preds[c], excluded);
        KeptIsSorted(succs[c], excluded);
      }
    }
  }

  /** A path from a kept operation stays among them and is a path of the graph. */
  lemma {:induction false} ActivePathIsPath(preds: Lists, succs: Lists, excluded: seq<bool>, p: seq<nat>, k: nat)
    requires StrongComponents.Inverse(succs, preds) && |excluded| == |preds|
    requires IsPath(ClusterSuccs(Active(preds, succs, excluded)), p) && p[0] < |excluded| && !excluded[p[0]] && k < |p|
    ensures p[k] < |excluded| && !excluded[p[k]]
    ensures k + 1 < |p| ==> p[k + 1] in succs[p[k]]
  {
    hide Kept;
    if k > 0 {
      ActivePathIsPath(preds, succs, excluded, p, k - 1);
      assert p[k] in Succ(ClusterSuccs(Active(preds, succs, excluded)), p[k - 1]);
    }
    if k + 1 < |p| {
      assert p[k + 1] in Succ(ClusterSuccs(Active(preds, succs, excluded)), p[k]);
    }
  }

  lemma {:induction false} ExcludedStays(preds: Lists, succs: Lists, excluded: seq<bool>, p: seq<nat>, k: nat)
    requires |preds| == |succs| == |excluded| && k < |p|
    requires IsPath(ClusterSuccs(Active(preds, succs, excluded)), p) && p[0] < |excluded| && excluded[p[0]]
    ensures p[k] == p[0]
  {
    if k > 0 {
      ExcludedStays(preds, succs, excluded, p, k - 1);
      assert p[k] in Succ(ClusterSuccs(Active(preds, succs, excluded)), p[k - 1]);
    }
  }

  /** Exactly the operations on cycles are set aside. */
  ghost predicate ExcludesCycles(succs: Lists, excluded: seq<bool>) {
    |excluded| == |succs| && forall i: nat | i < |succs| :: excluded[i] <==> StrongComponents.OnCycle(succs, i)
  }

  /** With those out of the way nothing else is stuck. */
  lemma StuckIffExcluded(preds: Lists, succs: Lists, excluded: seq<bool>, c: nat)
    requires StrongComponents.Inverse(succs, preds) && ExcludesCycles(succs, excluded) && c < |excluded|
    ensures Stuck(Active(preds, succs, excluded), c) <==> excluded[c]
  {
    hide Kept, StrongComponents.OnCycle, StrongComponents.Joined;
    var active := Active(preds, succs, excluded);
    var edges := ClusterSuccs(active);
    if excluded[c] {
      ReachesSelf(edges, c);
      assert c in Succ(edges, c);
      assert OnCycle(active, c);
    }
    if Stuck(active, c) && !excluded[c] {
      var d: nat :| d < |active| && OnCycle(active, d) && Reaches(edges, d, c);
      var p :| IsPath(edges, p) && p[0] == d && p[|p| - 1] == c;
      if excluded[d] {
        ExcludedStays(preds, succs, excluded, p, |p| - 1);
      } else {
        ActiveCycleIsCycle(preds, succs, excluded, d);
      }
    }
  }

  lemma ActiveCycleIsCycle(preds: Lists, succs: Lists, excluded: seq<bool>, d: nat)
    requires StrongComponents.Inverse(succs, preds) && |excluded| == |preds| && d < |preds| && !excluded[d]
    requires OnCycle(Active(preds, succs, excluded), d)
    ensures StrongComponents.OnCycle(succs, d)
  {
    hide Kept;
    var edges := ClusterSuccs(Active(preds, succs, excluded));
    var next :| next in Succ(edges, d) && Reaches(edges, next, d);
    var p :| IsPath(edges, p) && p[0] == next && p[|p| - 1] == d;
    forall k | 0 <= k < |p| - 1 ensures p[k + 1] in Succ(StrongComponents.EdgesOf(succs), p[k]) {
      ActivePathIsPath(preds, succs, excluded, p, k);
    }
    assert IsPath(StrongComponents.EdgesOf(succs), p);
    assert next in succs[d] && StrongComponents.Joined(succs, next, d);
  }

  // ---- Least first ---------------------------------------------------------------------

  ghost predicate IsReady(active: seq<Cluster>, placed: seq<nat>, r: nat) {
    r < |active| && r !in placed && forall p <- active[r].preds :: p in placed
  }

  ghost predicate LeastAt(active: seq<Cluster>, keys: seq<string>, placed: seq<nat>, at: nat) {
    at < |keys| && forall r: nat | IsReady(active, placed, r) && r != at :: r < |keys| && Less(keys[at], keys[r])
  }

  ghost predicate LeastFirst(active: seq<Cluster>, keys: seq<string>, order: seq<nat>) {
    forall k | 0 <= k < |order| :: LeastAt(active, keys, order[..k], order[k])
  }

  /** Nothing is left that could be placed. */
  ghost predicate Exhausted(active: seq<Cluster>, order: seq<nat>) {
    forall r: nat :: !IsReady(active, order, r)
  }

  ghost predicate Canonical(active: seq<Cluster>, keys: seq<string>, order: seq<nat>) {
    Ordered(active, order) && LeastFirst(active, keys, order) && Exhausted(active, order)
  }

  lemma ReadyIsCounted(active: seq<Cluster>, remaining: seq<int>, ready: seq<nat>, order: seq<nat>, r: nat)
    requires Counting(active, remaining, ready, order) && IsReady(active, order, r)
    ensures r in ready
  {
    assert Unplaced(active, Elements(order), r) == {};
  }

  method PopLeast(keys: seq<string>, ready: seq<nat>) returns (at: nat, others: seq<nat>)
    requires |ready| > 0 && DistinctKeys(keys) && forall k | 0 <= k < |ready| :: ready[k] < |keys|
    requires forall j, k | 0 <= j < k < |ready| :: ready[j] != ready[k]
    ensures at in ready && at !in others && |others| == |ready| - 1
    ensures forall r | r in ready && r != at :: r < |keys| && Less(keys[at], keys[r])
    ensures forall r :: r in ready <==> r in others || r == at
    ensures forall j, k | 0 <= j < k < |others| :: others[j] != others[k]
  {
    hide Less;
    var best := 0;
    for k := 1 to |ready|
      invariant 0 <= best < k
      invariant forall j | 0 <= j < k && j != best :: Less(keys[ready[best]], keys[ready[j]])
    {
      LessIsTotal(keys[ready[k]], keys[ready[best]]);
      if Less(keys[ready[k]], keys[ready[best]]) {
        forall j | 0 <= j < k && j != best ensures Less(keys[ready[k]], keys[ready[j]]) {
          LessTransitive(keys[ready[k]], keys[ready[best]], keys[ready[j]]);
        }
        best := k;
      }
    }
    at, others := ready[best], ready[..best] + ready[best + 1..];
    WithoutOne(ready, best);
  }

  lemma WithoutOne(s: seq<nat>, i: nat)
    requires i < |s| && forall j, k | 0 <= j < k < |s| :: s[j] != s[k]
    ensures
      var others := s[..i] + s[i + 1..];
      && s[i] !in others
      && (forall r :: r in s <==> r in others || r == s[i])
      && (forall j, k | 0 <= j < k < |others| :: others[j] != others[k])
  {
    assert s == s[..i] + [s[i]] + s[i + 1..];
  }

  /** The queue may be read in any order. */
  lemma QueueIsASet(active: seq<Cluster>, remaining: seq<int>, ready: seq<nat>, again: seq<nat>, order: seq<nat>)
    requires Counting(active, remaining, ready, order)
    requires forall r :: r in ready <==> r in again
    requires forall j, k | 0 <= j < k < |again| :: again[j] != again[k]
    ensures Counting(active, remaining, again, order)
  {
    hide Unplaced, Ordered, Elements;
    forall k | 0 <= k < |again| ensures again[k] < |active| && again[k] !in order && remaining[again[k]] == 0 {
      assert again[k] in again && again[k] in ready;
    }
  }

  /** The loop's own counts are the graph's where it keeps any. */
  ghost predicate SameCounts(unresolved: seq<int>, remaining: seq<int>, excluded: seq<bool>) {
    && |unresolved| == |remaining| == |excluded|
    && forall i | 0 <= i < |excluded| && !excluded[i] :: unresolved[i] == remaining[i]
  }

  lemma PlaceLeast(
      active: seq<Cluster>, keys: seq<string>, remaining: seq<int>, ready: seq<nat>, order: seq<nat>, at: nat)
    requires Counting(active, remaining, ready, order) && LeastFirst(active, keys, order) && |keys| == |active|
    requires at < |keys| && forall r | r in ready && r != at :: r < |keys| && Less(keys[at], keys[r])
    ensures LeastFirst(active, keys, order + [at])
  {
    hide Counting, IsReady, Less;
    var after := order + [at];
    forall k | 0 <= k < |after| ensures LeastAt(active, keys, after[..k], after[k]) {
      if k < |order| {
        assert after[..k] == order[..k];
      } else {
        assert after[..k] == order;
        forall r: nat | IsReady(active, order, r) && r != at ensures r < |keys| && Less(keys[at], keys[r]) {
          ReadyIsCounted(active, remaining, ready, order, r);
        }
      }
    }
  }

  lemma NothingReady(active: seq<Cluster>, remaining: seq<int>, order: seq<nat>)
    requires Counting(active, remaining, [], order)
    ensures Exhausted(active, order)
  {
    hide Counting, IsReady;
    forall r: nat ensures !IsReady(active, order, r) {
      if IsReady(active, order, r) {
        ReadyIsCounted(active, remaining, [], order, r);
      }
    }
  }

  /** The successors of the operation just placed, counted down one by one: the
      `j`-th of its list is the next of those kept, or is passed over. */
  ghost predicate CountedTo(
      active: seq<Cluster>, remaining: seq<int>, ready: seq<nat>, order: seq<nat>, list: seq<nat>, excluded: seq<bool>,
      j: nat)
  {
    && j <= |list| && |Kept(list[..j], excluded)| <= |Kept(list, excluded)|
    && CountingDown(active, remaining, ready, order, Kept(list, excluded), |Kept(list[..j], excluded)|)
  }

  lemma {:induction false} KeptPrefix(list: seq<nat>, excluded: seq<bool>, j: nat)
    requires j <= |list|
    ensures Kept(list[..j], excluded) <= Kept(list, excluded)
    decreases |list|
  {
    if j < |list| {
      var shorter := list[..|list| - 1];
      KeptPrefix(shorter, excluded, j);
      assert shorter[..j] == list[..j];
    } else {
      assert list[..j] == list;
    }
  }

  lemma KeptNext(list: seq<nat>, excluded: seq<bool>, j: nat)
    requires j < |list|
    ensures
      var k := |Kept(list[..j], excluded)|;
      if list[j] < |excluded| && !excluded[list[j]] then
        k < |Kept(list, excluded)| && Kept(list, excluded)[k] == list[j] && |Kept(list[..j + 1], excluded)| == k + 1
      else |Kept(list[..j + 1], excluded)| == k
  {
    assert list[..j + 1][..j] == list[..j];
    KeptPrefix(list, excluded, j + 1);
  }

  lemma CountNext(
      active: seq<Cluster>, remaining: seq<int>, ready: seq<nat>, order: seq<nat>, list: seq<nat>, excluded: seq<bool>,
      j: nat)
    requires InverseEdges(active) && Ordered(active, order) && |order| > 0 && order[|order| - 1] < |active|
    requires active[order[|order| - 1]].succs == Kept(list, excluded)
    requires CountedTo(active, remaining, ready, order, list, excluded, j)
    requires j < |list| && list[j] < |excluded| && !excluded[list[j]] && |excluded| == |remaining| == |active|
    ensures
      var left := remaining[list[j]] - 1;
      CountedTo(active, remaining[list[j] := left], if left == 0 then ready + [list[j]] else ready, order,
        list, excluded, j + 1)
  {
    hide Kept, Ordered, CountingDown, StrictlyIncreasing;
    var kept, k := Kept(list, excluded), |Kept(list[..j], excluded)|;
    KeptNext(list, excluded, j);
    KeptPrefix(list, excluded, j + 1);
    assert kept[k] in kept;
    LaterIsUnplaced(active, order, kept[k]);
    CountDown(active, remaining, ready, order, kept, k);
  }

  lemma CountPast(
      active: seq<Cluster>, remaining: seq<int>, ready: seq<nat>, order: seq<nat>, list: seq<nat>, excluded: seq<bool>,
      j: nat)
    requires CountedTo(active, remaining, ready, order, list, excluded, j)
    requires j < |list| && !(list[j] < |excluded| && !excluded[list[j]])
    ensures CountedTo(active, remaining, ready, order, list, excluded, j + 1)
  {
    hide Kept, CountingDown;
    KeptNext(list, excluded, j);
  }

  lemma CountedAll(
      active: seq<Cluster>, remaining: seq<int>, ready: seq<nat>, order: seq<nat>, list: seq<nat>, excluded: seq<bool>)
    requires Ordered(active, order) && CountedTo(active, remaining, ready, order, list, excluded, |list|)
    ensures Counting(active, remaining, ready, order)
  {
    assert list[..|list|] == list;
  }

  lemma CountFirst(
      active: seq<Cluster>, remaining: seq<int>, ready: seq<nat>, order: seq<nat>, list: seq<nat>, excluded: seq<bool>)
    requires CountingDown(active, remaining, ready, order, Kept(list, excluded), 0)
    ensures CountedTo(active, remaining, ready, order, list, excluded, 0)
  {
    assert list[..0] == [];
  }

  lemma ExcludedWaits(preds: Lists, succs: Lists, excluded: seq<bool>, order: seq<nat>, c: nat)
    requires |preds| == |succs| == |excluded| && c < |excluded| && excluded[c] && c !in order
    ensures |Unplaced(Active(preds, succs, excluded), Elements(order), c)| > 0
  {
    hide Kept;
    assert c in Unplaced(Active(preds, succs, excluded), Elements(order), c);
  }

  lemma ReadyIsKept(
      preds: Lists, succs: Lists, excluded: seq<bool>, remaining: seq<int>, ready: seq<nat>, order: seq<nat>)
    requires |preds| == |succs| == |excluded| && Counting(Active(preds, succs, excluded), remaining, ready, order)
    ensures forall k | 0 <= k < |ready| :: ready[k] < |excluded| && !excluded[ready[k]]
  {
    hide Kept, Unplaced, Ordered, Elements;
    forall c: nat | c < |excluded| && excluded[c] && c !in order ensures remaining[c] > 0 {
      ExcludedWaits(preds, succs, excluded, order, c);
    }
  }

  // ---- The loop ------------------------------------------------------------------------

  ghost function AtStart(active: seq<Cluster>): (remaining: seq<int>)
    ensures |remaining| == |active|
  {
    seq(|active|, c requires 0 <= c < |active| => |active[c].preds|)
  }

  lemma StartIsCounted(preds: Lists, succs: Lists, excluded: seq<bool>, ready: seq<nat>)
    requires StrongComponents.Inverse(succs, preds) && Sorted(preds) && Sorted(succs) && |excluded| == |preds|
    requires forall k | 0 <= k < |ready| :: Waitless(preds, excluded, ready[k])
    requires forall j, k | 0 <= j < k < |ready| :: ready[j] != ready[k]
    requires forall c: nat | Waitless(preds, excluded, c) :: c in ready
    ensures
      var active := Active(preds, succs, excluded);
      Counting(active, AtStart(active), ready, []) && InverseEdges(active)
  {
    hide Kept;
    var active := Active(preds, succs, excluded);
    ActiveIsInverse(preds, succs, excluded);
    forall c: nat | c < |active| ensures AtStart(active)[c] == |Unplaced(active, Elements<nat>([]), c)| {
      DistinctCount(active[c].preds);
      assert Unplaced(active, Elements<nat>([]), c) == Elements(active[c].preds);
    }
  }

  predicate Waitless(preds: Lists, excluded: seq<bool>, c: nat) {
    c < |preds| && c < |excluded| && !excluded[c] && Kept(preds[c], excluded) == []
  }

  /** How many of the entries are kept, counted one by one. */
  method CountKept(list: seq<nat>, excluded: seq<bool>) returns (count: nat)
    requires forall x <- list :: x < |excluded|
    ensures count == |Kept(list, excluded)|
  {
    count := 0;
    for k := 0 to |list|
      invariant count == |Kept(list[..k], excluded)|
    {
      KeptNext(list, excluded, k);
      assert list[k] in list;
      if !excluded[list[k]] {
        count := count + 1;
      }
    }
    assert list[..|list|] == list;
  }

  /** The unresolved counts before anything is placed, and who waits for nothing. */
  method FirstCounts(preds: Lists, excluded: seq<bool>) returns (unresolved: seq<int>, ready: seq<nat>)
    requires |preds| == |excluded| && forall a: nat, b | a < |preds| && b in preds[a] :: b < |excluded|
    ensures |unresolved| == |preds|
    ensures forall i | 0 <= i < |preds| && !excluded[i] :: unresolved[i] == |Kept(preds[i], excluded)|
    ensures forall k | 0 <= k < |ready| :: Waitless(preds, excluded, ready[k])
    ensures forall j, k | 0 <= j < k < |ready| :: ready[j] != ready[k]
    ensures forall c: nat | Waitless(preds, excluded, c) :: c in ready
  {
    hide Kept;
    unresolved := seq(|preds|, _ => 0);
    ready := [];
    for i := 0 to |preds|
      invariant |unresolved| == |preds|
      invariant forall j | 0 <= j < i && !excluded[j] :: unresolved[j] == |Kept(preds[j], excluded)|
      invariant forall k | 0 <= k < |ready| :: ready[k] < i && Waitless(preds, excluded, ready[k])
      invariant forall j, k | 0 <= j < k < |ready| :: ready[j] != ready[k]
      invariant forall c: nat | c < i && Waitless(preds, excluded, c) :: c in ready
    {
      if !excluded[i] {
        var count := CountKept(preds[i], excluded);
        unresolved := unresolved[i := count];
        if count == 0 {
          ready := ready + [i];
        }
      }
    }
  }

  lemma StartAgrees(preds: Lists, succs: Lists, excluded: seq<bool>, unresolved: seq<int>)
    requires |preds| == |succs| == |excluded| == |unresolved|
    requires forall i | 0 <= i < |preds| && !excluded[i] :: unresolved[i] == |Kept(preds[i], excluded)|
    ensures SameCounts(unresolved, AtStart(Active(preds, succs, excluded)), excluded)
  {
    hide Kept;
  }

  lemma PopPlaces(
      preds: Lists, succs: Lists, excluded: seq<bool>, keys: seq<string>, remaining: seq<int>, ready: seq<nat>,
      order: seq<nat>, at: nat, others: seq<nat>)
    requires |preds| == |succs| == |excluded| == |keys| && DistinctKeys(keys)
    requires var active := Active(preds, succs, excluded);
             && InverseEdges(active) && Counting(active, remaining, ready, order) && LeastFirst(active, keys, order)
    requires at in ready && at !in others && forall r :: r in ready <==> r in others || r == at
    requires forall r | r in ready && r != at :: r < |keys| && Less(keys[at], keys[r])
    requires forall j, k | 0 <= j < k < |others| :: others[j] != others[k]
    ensures at < |excluded| && !excluded[at]
    ensures
      var active := Active(preds, succs, excluded);
      && Ordered(active, order + [at]) && LeastFirst(active, keys, order + [at])
      && active[at].succs == Kept(succs[at], excluded)
      && CountedTo(active, remaining, others, order + [at], succs[at], excluded, 0)
  {
    hide Counting, InverseEdges, Ordered, LeastFirst, Less, Kept, CountingDown;
    var active, again := Active(preds, succs, excluded), others + [at];
    ReadyIsKept(preds, succs, excluded, remaining, ready, order);
    var j :| 0 <= j < |ready| && ready[j] == at;
    QueueIsASet(active, remaining, ready, again, order);
    PlaceNext(active, remaining, again, order);
    assert again[..|again| - 1] == others;
    PlaceLeast(active, keys, remaining, ready, order, at);
    CountFirst(active, remaining, others, order + [at], succs[at], excluded);
  }

  lemma CountedStep(
      active: seq<Cluster>, unresolved: seq<int>, remaining: seq<int>, ready: seq<nat>, order: seq<nat>,
      list: seq<nat>, excluded: seq<bool>, j: nat)
    returns (after: seq<int>)
    requires InverseEdges(active) && Ordered(active, order) && |order| > 0 && order[|order| - 1] < |active|
    requires active[order[|order| - 1]].succs == Kept(list, excluded) && |excluded| == |active|
    requires CountedTo(active, remaining, ready, order, list, excluded, j) && j < |list| && list[j] < |excluded|
    requires SameCounts(unresolved, remaining, excluded)
    ensures
      var next := list[j];
      if excluded[next] then
        CountedTo(active, after, ready, order, list, excluded, j + 1) && SameCounts(unresolved, after, excluded)
      else
        var left := unresolved[next] - 1;
        && CountedTo(active, after, if left == 0 then ready + [next] else ready, order, list, excluded, j + 1)
        && SameCounts(unresolved[next := left], after, excluded)
  {
    hide Kept, Ordered, CountedTo, InverseEdges;
    after := remaining;
    if excluded[list[j]] {
      CountPast(active, remaining, ready, order, list, excluded, j);
    } else {
      CountNext(active, remaining, ready, order, list, excluded, j);
      after := remaining[list[j] := remaining[list[j]] - 1];
    }
  }

  lemma ReadyShape(active: seq<Cluster>, remaining: seq<int>, ready: seq<nat>, order: seq<nat>)
    requires Counting(active, remaining, ready, order)
    ensures forall k | 0 <= k < |ready| :: ready[k] < |active|
    ensures forall j, k | 0 <= j < k < |ready| :: ready[j] != ready[k]
  {}

  /** Of the operations that wait for nothing unplaced, always the one with the
      least key next, until none is left: everything but what is set aside or
      waits for a cycle. */
  method OrderCanonically(preds: Lists, succs: Lists, excluded: seq<bool>, keys: seq<string>)
    returns (order: seq<nat>)
    requires StrongComponents.Inverse(succs, preds) && Sorted(preds) && Sorted(succs)
    requires |preds| == |excluded| == |keys| && DistinctKeys(keys)
    ensures Canonical(Active(preds, succs, excluded), keys, order)
    ensures forall c: nat | c < |preds| :: c in order <==> !Stuck(Active(preds, succs, excluded), c)
  {
    hide Kept, Counting, InverseEdges, Ordered, LeastFirst, Less, CountedTo, SameCounts, Stuck, Sorted, Waitless,
      Exhausted, Unplaced;
    ghost var active := Active(preds, succs, excluded);
    var unresolved, ready := FirstCounts(preds, excluded);
    StartIsCounted(preds, succs, excluded, ready);
    StartAgrees(preds, succs, excluded, unresolved);
    ghost var remaining := AtStart(active);
    order := [];
    assert LeastFirst(active, keys, order) by { NothingPlaced(active, keys); }
    while |ready| > 0
      invariant |unresolved| == |preds| && SameCounts(unresolved, remaining, excluded)
      invariant Counting(active, remaining, ready, order) && LeastFirst(active, keys, order)
      decreases |active| - |order|
    {
      ReadyShape(active, remaining, ready, order);
      var at, others := PopLeast(keys, ready);
      PopPlaces(preds, succs, excluded, keys, remaining, ready, order, at, others);
      ready, order := others, order + [at];
      OrderShort(active, order);
      for j := 0 to |succs[at]|
        invariant |unresolved| == |preds| && SameCounts(unresolved, remaining, excluded)
        invariant CountedTo(active, remaining, ready, order, succs[at], excluded, j)
      {
        var next := succs[at][j];
        assert next in succs[at];
        remaining := CountedStep(active, unresolved, remaining, ready, order, succs[at], excluded, j);
        if !excluded[next] {
          unresolved := unresolved[next := unresolved[next] - 1];
          if unresolved[next] == 0 {
            ready := ready + [next];
          }
        }
      }
      CountedAll(active, remaining, ready, order, succs[at], excluded);
    }
    assert ready == [];
    Complete(active, remaining, order);
    NothingReady(active, remaining, order);
    CountedIsOrdered(active, remaining, order);
  }

  lemma NothingPlaced(active: seq<Cluster>, keys: seq<string>)
    ensures LeastFirst(active, keys, [])
  {}

  lemma CountedIsOrdered(active: seq<Cluster>, remaining: seq<int>, order: seq<nat>)
    requires Counting(active, remaining, [], order)
    ensures Ordered(active, order)
  {}
}
