/** The bitset over clusters that cone re-execution unions
    (`RigExecBakedClusterSet`), proved to be a mutable finite set of naturals. */
module ClusterSets {
  import opened WordLanes
  import opened Popcount
  import opened FiniteSets
  import opened Digraphs

  function Narrow(n: nat): bv6
    requires n < 64
  {
    n as bv6
  }

  function Widen(j: bv6): (n: nat)
    ensures n < 64
  {
    j as nat
  }

  lemma NarrowWiden(n: nat)
    requires n < 64
    ensures Widen(Narrow(n)) == n
  {}

  lemma WidenNarrow(j: bv6)
    ensures Narrow(Widen(j)) == j
  {}

  lemma NarrowZero()
    ensures Narrow(0) == 0
  {}

  lemma WidenPred(j: bv6)
    ensures j != 0 ==> Widen(j) > 0 && Widen(j - 1) == Widen(j) - 1
    ensures j == 0 ==> Widen(j) == 0
  {}

  function LaneOf(c: nat): bv6 {
    Narrow(c % 64)
  }

  function OrWord(a: bv64, b: bv64): bv64 {
    a | b
  }

  function BitWord(j: bv6): bv64 {
    1 << j
  }

  /** Whether the words hold member `c`: lane `c % 64` of word `c / 64`. */
  predicate Has(words: seq<bv64>, c: nat) {
    c / 64 < |words| && Lane(words[c / 64], LaneOf(c))
  }

  /** The members below `n`. */
  ghost function MembersBelow(words: seq<bv64>, n: nat): set<nat> {
    set c: nat | c < n && Has(words, c)
  }

  /** The set a word vector stands for. */
  ghost function MembersOf(words: seq<bv64>): set<nat> {
    MembersBelow(words, 64 * |words|)
  }

  lemma MembersMeaning(words: seq<bv64>, c: nat)
    ensures c in MembersOf(words) <==> Has(words, c)
  {
    hide Lane, LaneOf;
    assert c / 64 < |words| ==> c < 64 * |words|;
  }

  lemma LaneIndex(i: nat, j: bv6)
    ensures (64 * i + Widen(j)) / 64 == i && LaneOf(64 * i + Widen(j)) == j
  {
    hide Narrow, Widen;
    assert (64 * i + Widen(j)) % 64 == Widen(j);
    WidenNarrow(j);
  }

  lemma LaneOrWord(a: bv64, b: bv64, j: bv6)
    ensures Lane(OrWord(a, b), j) <==> Lane(a, j) || Lane(b, j)
  {
    hide Lane;
    LaneOr(a, b, j);
  }

  lemma LaneBitWord(j: bv6, k: bv6)
    ensures Lane(BitWord(j), k) <==> j == k
  {
    hide Lane;
    LaneSingle(j, k);
  }

  lemma SameLane(c: nat, d: nat)
    requires c / 64 == d / 64
    ensures LaneOf(c) == LaneOf(d) <==> c == d
  {
    hide Narrow, Widen;
    NarrowWiden(c % 64);
    NarrowWiden(d % 64);
  }

  lemma ZeroesAreEmpty(words: seq<bv64>)
    requires forall i | 0 <= i < |words| :: words[i] == 0
    ensures MembersOf(words) == {}
  {
    hide Lane, LaneOf;
    forall c: nat | c / 64 < |words| ensures !Has(words, c) {
      LaneOfZero(LaneOf(c));
    }
  }

  /** Two word vectors, the narrower read as zero past its end, or-ed word by
      word stand for the union. */
  lemma OrIsUnion(a: seq<bv64>, b: seq<bv64>, both: seq<bv64>)
    requires |both| >= |a| && |both| >= |b|
    requires forall i | 0 <= i < |both| ::
      both[i] == OrWord(if i < |a| then a[i] else 0, if i < |b| then b[i] else 0)
    ensures MembersOf(both) == MembersOf(a) + MembersOf(b)
  {
    hide Lane, LaneOf, OrWord, MembersBelow;
    forall c: nat ensures c in MembersOf(both) <==> c in MembersOf(a) + MembersOf(b) {
      var i := c / 64;
      if i < |both| {
        LaneOrWord(if i < |a| then a[i] else 0, if i < |b| then b[i] else 0, LaneOf(c));
        LaneOfZero(LaneOf(c));
      }
      MembersMeaning(both, c);
      MembersMeaning(a, c);
      MembersMeaning(b, c);
    }
  }

  lemma OrZero(a: bv64)
    ensures OrWord(a, 0) == a
  {}

  /** Widening with zero words adds no member. */
  lemma WidenedMembers(narrow: seq<bv64>, wide: seq<bv64>)
    requires |narrow| <= |wide| && wide[..|narrow|] == narrow
    requires forall i | |narrow| <= i < |wide| :: wide[i] == 0
    ensures MembersOf(wide) == MembersOf(narrow)
  {
    hide OrWord, MembersOf, MembersBelow;
    var none: seq<bv64> := [];
    forall i | 0 <= i < |wide|
      ensures wide[i] == OrWord(if i < |narrow| then narrow[i] else 0, 0)
    {
      OrZero(wide[i]);
      assert i < |narrow| ==> wide[..|narrow|][i] == wide[i];
    }
    OrIsUnion(narrow, none, wide);
    ZeroesAreEmpty(none);
  }

  lemma SetBitAddsMember(words: seq<bv64>, c: nat, after: seq<bv64>)
    requires c / 64 < |words|
    requires after == words[c / 64 := OrWord(words[c / 64], BitWord(LaneOf(c)))]
    ensures MembersOf(after) == MembersOf(words) + {c}
  {
    hide Lane, LaneOf, OrWord, BitWord, MembersBelow;
    forall d: nat ensures d in MembersOf(after) <==> d in MembersOf(words) + {c} {
      if d / 64 == c / 64 {
        LaneOrWord(words[c / 64], BitWord(LaneOf(c)), LaneOf(d));
        LaneBitWord(LaneOf(c), LaneOf(d));
        SameLane(c, d);
      }
      MembersMeaning(after, d);
      MembersMeaning(words, d);
    }
  }

  /** Word vectors of one width that differ stand for different sets. */
  lemma WordsAreCanonical(a: seq<bv64>, b: seq<bv64>, i: nat)
    requires i < |a| == |b| && a[i] != b[i]
    ensures MembersOf(a) != MembersOf(b)
  {
    hide Lane, LaneOf, MembersBelow;
    var j := DifferingLane(a[i], b[i]);
    LaneIndex(i, j);
    MembersMeaning(a, 64 * i + Widen(j));
    MembersMeaning(b, 64 * i + Widen(j));
  }

  lemma LanePred(n: nat)
    requires 0 < n < 64
    ensures Narrow(n) != 0 && Narrow(n) - 1 == Narrow(n - 1)
  {
    hide Narrow, Widen;
    NarrowWiden(n);
    WidenPred(Narrow(n));
    WidenNarrow(Narrow(n) - 1);
  }

  lemma {:induction false} OnesFromTheTop(word: bv64, n: nat)
    requires n < 64
    ensures Ones(word, n + 1) == Ones(word, n) + if Lane(word, Narrow(n)) then 1 else 0
    decreases n
  {
    hide Lane, Half, Narrow;
    NarrowZero();
    if n > 0 {
      OnesFromTheTop(Half(word), n - 1);
      LanePred(n);
      LaneShift(word, Narrow(n));
    }
  }

  lemma LaneOfOffset(k: nat, n: nat)
    requires n < 64
    ensures (64 * k + n) / 64 == k && LaneOf(64 * k + n) == Narrow(n)
  {
    hide Narrow;
    assert (64 * k + n) % 64 == n;
  }

  /** Counting one more word adds that word's population count. */
  lemma {:induction false} CountWord(words: seq<bv64>, k: nat, n: nat)
    requires k < |words| && n <= 64
    ensures |MembersBelow(words, 64 * k + n)| == |MembersBelow(words, 64 * k)| + Ones(words[k], n)
  {
    hide Lane, Half, LaneOf, Narrow;
    if n > 0 {
      CountWord(words, k, n - 1);
      OnesFromTheTop(words[k], n - 1);
      var c := 64 * k + (n - 1);
      LaneOfOffset(k, n - 1);
      var below := MembersBelow(words, c);
      assert MembersBelow(words, c + 1) == if Has(words, c) then below + {c} else below;
    }
  }

  lemma OrWordIsOr(a: bv64, b: bv64)
    ensures a | b == OrWord(a, b)
  {}

  /** Or-ing words in place: what results, and what a changed word means. */
  lemma UnionGrows(mine: seq<bv64>, theirs: seq<bv64>, wide: seq<bv64>, words: seq<bv64>, grew: bool)
    requires |wide| == |words| && |mine| <= |wide| && |theirs| <= |wide|
    requires wide[..|mine|] == mine && forall i | |mine| <= i < |wide| :: wide[i] == 0
    requires forall i | 0 <= i < |words| :: words[i] == OrWord(wide[i], if i < |theirs| then theirs[i] else 0)
    requires grew <==> exists i | 0 <= i < |words| :: words[i] != wide[i]
    ensures MembersOf(words) == MembersOf(mine) + MembersOf(theirs)
    ensures grew <==> MembersOf(words) != MembersOf(mine)
    ensures grew <==> exists c :: c in MembersOf(theirs) && c !in MembersOf(mine)
  {
    hide MembersOf, MembersBelow, OrWord, Has, Lane, LaneOf;
    forall i | 0 <= i < |words|
      ensures wide[i] == if i < |mine| then mine[i] else 0
    {
      assert i < |mine| ==> wide[..|mine|][i] == wide[i];
    }
    OrIsUnion(mine, theirs, words);
    WidenedMembers(mine, wide);
    if grew {
      var i :| 0 <= i < |words| && words[i] != wide[i];
      WordsAreCanonical(words, wide, i);
    } else {
      assert words == wide;
    }
  }

  class ClusterSet {
    var words: seq<bv64>

    /** The clusters in the set. */
    ghost function Members(): set<nat>
      reads this
    {
      MembersOf(words)
    }

    constructor ()
      ensures words == [] && Members() == {}
    {
      words := [];
    }

    method Resize(clusters: nat)
      modifies this
      ensures |words| == (clusters + 63) / 64 && Members() == {}
    {
      words := seq((clusters + 63) / 64, _ => 0);
      ZeroesAreEmpty(words);
    }

    method Clear()
      modifies this
      ensures |words| == |old(words)| && Members() == {}
    {
      words := seq(|words|, _ => 0);
      ZeroesAreEmpty(words);
    }

    /** Reads past the last word are undefined in the original. */
    method Test(cluster: int) returns (present: bool)
      requires cluster / 64 < |words|
      ensures present <==> cluster >= 0 && cluster in Members()
    {
      present := cluster >= 0 && (words[cluster / 64] >> LaneOf(cluster)) & 1 == 1;
      if cluster >= 0 {
        MembersMeaning(words, cluster);
      }
    }

    method Set(cluster: int)
      requires cluster / 64 < |words|
      modifies this
      ensures |words| == |old(words)|
      ensures Members() == old(Members()) + (if cluster >= 0 then {cluster} else {})
    {
      hide MembersOf, MembersBelow, Lane, Has, LaneOf, OrWord, BitWord;
      if cluster >= 0 {
        ghost var before := words;
        words := words[cluster / 64 := OrWord(words[cluster / 64], BitWord(LaneOf(cluster)))];
        SetBitAddsMember(before, cluster, words);
      }
    }

    /** Exactly the clusters below the count: no stray high bit. */
    method SetAll(clusters: nat)
      modifies this
      ensures |words| == (clusters + 63) / 64 && Members() == Naturals(clusters)
    {
      Resize(clusters);
      var c := 0;
      while c < clusters
        invariant 0 <= c <= clusters && |words| == (clusters + 63) / 64
        invariant Members() == Naturals(c)
      {
        Set(c);
        c := c + 1;
      }
    }

    /** Widths may differ, and the argument may be this very set. The result,
        which callers use as a fixpoint test, says whether the set grew. */
    method Union(other: ClusterSet) returns (grew: bool)
      modifies this
      ensures Members() == old(Members()) + old(other.Members())
      ensures grew <==> Members() != old(Members())
      ensures |words| == if |old(words)| < |old(other.words)| then |old(other.words)| else |old(words)|
      ensures grew <==> exists c :: c in old(other.Members()) && c !in old(Members())
    {
      hide MembersOf, MembersBelow, Has, Lane, LaneOf, OrWord;
      grew := false;
      if |words| < |other.words| {
        words := words + seq(|other.words| - |words|, _ => 0);
      }
      ghost var mine, theirs, wide := old(words), old(other.words), words;
      var w := 0;
      while w < |words|
        invariant 0 <= w <= |words| == |wide|
        invariant other != this ==> other.words == theirs
        invariant forall i | w <= i < |words| :: words[i] == wide[i]
        invariant forall i | 0 <= i < w :: words[i] == OrWord(wide[i], if i < |theirs| then theirs[i] else 0)
        invariant grew <==> exists i | 0 <= i < w :: words[i] != wide[i]
      {
        var o := if w < |other.words| then other.words[w] else 0;
        var before := words[w];
        OrWordIsOr(before, o);
        words := words[w := words[w] | o];
        grew := grew || words[w] != before;
        w := w + 1;
      }
      UnionGrows(mine, theirs, wide, words, grew);
    }

    method Any() returns (any: bool)
      ensures any <==> Members() != {}
    {
      var w := 0;
      while w < |words|
        invariant 0 <= w <= |words|
        invariant forall i | 0 <= i < w :: words[i] == 0
      {
        if words[w] != 0 {
          ghost var j := DifferingLane(words[w], 0);
          LaneOfZero(j);
          LaneIndex(w, j);
          MembersMeaning(words, 64 * w + Widen(j));
          return true;
        }
        w := w + 1;
      }
      ZeroesAreEmpty(words);
      return false;
    }

    method Count() returns (count: nat)
      ensures count == |Members()|
    {
      count := 0;
      var w := 0;
      while w < |words|
        invariant 0 <= w <= |words|
        invariant count == |MembersBelow(words, 64 * w)|
      {
        var ones := PopulationCount(words[w]);
        CountWord(words, w, 64);
        count := count + ones;
        w := w + 1;
      }
    }
  }

  // ---- The fixpoint test bounds a chain of unions -------------------------------------

  /** The set after a chain of unions. */
  ghost function UnionChain(start: set<nat>, others: seq<set<nat>>): set<nat>
    decreases |others|
  {
    if others == [] then start else UnionChain(start + others[0], others[1..])
  }

  /** How many unions of a chain report growth. */
  ghost function Growths(start: set<nat>, others: seq<set<nat>>): nat
    decreases |others|
  {
    if others == [] then 0
    else (if others[0] <= start then 0 else 1) + Growths(start + others[0], others[1..])
  }

  /** However long the chain, at most as many unions grow the set as there are
      clusters it did not hold, and the final size accounts for each of them. */
  lemma {:induction false} GrowthsAreBounded(start: set<nat>, others: seq<set<nat>>, n: nat)
    requires start <= Naturals(n) && forall o <- others :: o <= Naturals(n)
    ensures |start| + Growths(start, others) <= |UnionChain(start, others)| <= n
    decreases |others|
  {
    if others == [] {
      SubsetIsNoLarger(start, Naturals(n));
    } else {
      var next := start + others[0];
      assert others[0] in others && forall o <- others[1..] :: o in others;
      GrowthsAreBounded(next, others[1..], n);
      if !(others[0] <= start) {
        var c :| c in others[0] && c !in start;
        SubsetIsNoLarger(start + {c}, next);
      } else {
        assert next == start;
      }
    }
  }
}
