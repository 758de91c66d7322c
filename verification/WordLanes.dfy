/** The 64 lanes of one word of the cluster bitset, read by shifting, read by
    masking, or-ed and counted.

    The word operations that the proof moves around are named functions, so
    each identity is settled once, on the bits, and then used by name. */
module WordLanes {

  /** Whether lane `j` of a word is set, read the way the bitset's Test reads it. */
  predicate Lane(word: bv64, j: bv6) {
    (word >> j) & 1 == 1
  }

  /** The same lane, read through the mask the bitset's Set writes. */
  predicate Masked(word: bv64, j: bv6) {
    word & (1 << j) != 0
  }

  function Half(word: bv64): bv64 {
    word >> 1
  }

  /** How many of a word's lowest `n` lanes are set: what counting bits means. */
  function Ones(word: bv64, n: nat): (count: nat)
    ensures count <= n
  {
    if n == 0 then 0 else (if Lane(word, 0) then 1 else 0) + Ones(Half(word), n - 1)
  }

  // ---- Lanes -----------------------------------------------------------------

  lemma LaneShift(word: bv64, j: bv6)
    requires j != 0
    ensures Lane(word, j) == Lane(Half(word), j - 1)
  {
    assert word >> j == (word >> 1) >> (j - 1);
  }

  lemma MaskShift(j: bv6)
    requires j != 0
    ensures (1 as bv64) << j == ((1 as bv64) << (j - 1)) << 1
    ensures ((1 as bv64) << (j - 1)) & 0x8000000000000000 == 0
  {}

  lemma MaskMove(word: bv64, mask: bv64)
    requires mask & 0x8000000000000000 == 0
    ensures word & (mask << 1) != 0 <==> (word >> 1) & mask != 0
  {}

  lemma MaskedShift(word: bv64, j: bv6)
    requires j != 0
    ensures Masked(word, j) == Masked(Half(word), j - 1)
  {
    MaskShift(j);
    MaskMove(word, 1 << (j - 1));
  }

  lemma LaneZero(word: bv64)
    ensures Lane(word, 0) == Masked(word, 0)
  {}

  /** Reading a lane by shifting the word agrees with reading it by masking. */
  lemma {:induction false} LaneIsMask(word: bv64, j: bv6)
    ensures Lane(word, j) == Masked(word, j)
    decreases j
  {
    if j == 0 {
      LaneZero(word);
    } else {
      LaneShift(word, j);
      MaskedShift(word, j);
      LaneIsMask(Half(word), j - 1);
    }
  }

  predicate Meets(word: bv64, mask: bv64) {
    word & mask != 0
  }

  function Single(j: bv6): bv64 {
    1 << j
  }

  lemma MaskOverOr(a: bv64, b: bv64, mask: bv64)
    ensures (a | b) & mask != 0 <==> a & mask != 0 || b & mask != 0
  {}

  lemma MeetsIsMask(word: bv64, mask: bv64)
    ensures Meets(word, mask) <==> word & mask != 0
  {}

  lemma MeetsOr(a: bv64, b: bv64, mask: bv64)
    ensures Meets(a | b, mask) <==> Meets(a, mask) || Meets(b, mask)
  {
    hide *;
    MaskOverOr(a, b, mask);
    MeetsIsMask(a, mask);
    MeetsIsMask(b, mask);
    MeetsIsMask(a | b, mask);
  }

  lemma MaskedMeets(word: bv64, j: bv6)
    ensures Masked(word, j) <==> Meets(word, Single(j))
  {}

  lemma MaskedOr(a: bv64, b: bv64, j: bv6)
    ensures Masked(a | b, j) <==> Masked(a, j) || Masked(b, j)
  {
    hide *;
    MeetsOr(a, b, Single(j));
    MaskedMeets(a, j);
    MaskedMeets(b, j);
    MaskedMeets(a | b, j);
  }

  lemma MaskedSingle(j: bv6, k: bv6)
    ensures Masked(1 << j, k) <==> j == k
  {}

  /** Or-ing two words unions their lanes. */
  lemma LaneOr(a: bv64, b: bv64, j: bv6)
    ensures Lane(a | b, j) <==> Lane(a, j) || Lane(b, j)
  {
    hide *;
    LaneIsMask(a | b, j);
    LaneIsMask(a, j);
    LaneIsMask(b, j);
    MaskedOr(a, b, j);
  }

  /** A word with one bit set has exactly that lane. */
  lemma LaneSingle(j: bv6, k: bv6)
    ensures Lane(1 << j, k) <==> j == k
  {
    LaneIsMask(1 << j, k);
    MaskedSingle(j, k);
  }

  lemma LaneOfZero(j: bv6)
    ensures !Lane(0, j)
  {
    LaneIsMask(0, j);
  }

  function Up(j: bv6): bv6 {
    j + 1
  }

  lemma LaneUp(word: bv64, j: bv6)
    requires j != 63
    ensures Lane(word, Up(j)) == Lane(Half(word), j)
  {
    LaneShift(word, j + 1);
  }

  lemma HalvesDiffer(a: bv64, b: bv64)
    requires a != b && Lane(a, 0) == Lane(b, 0)
    ensures Half(a) != Half(b)
    ensures Half(a) | Half(b) < a | b
  {}

  lemma TopLaneClear(word: bv64)
    ensures !Lane(Half(word), 63)
  {}

  /** Two different words differ in some lane. */
  lemma {:induction false} DifferingLane(a: bv64, b: bv64) returns (j: bv6)
    requires a != b
    ensures Lane(a, j) != Lane(b, j)
    decreases a | b
  {
    hide *;
    if Lane(a, 0) != Lane(b, 0) {
      j := 0;
    } else {
      HalvesDiffer(a, b);
      var below := DifferingLane(Half(a), Half(b));
      TopLaneClear(a);
      TopLaneClear(b);
      LaneUp(a, below);
      LaneUp(b, below);
      j := Up(below);
    }
  }
}
