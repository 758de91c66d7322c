/** The population count of one word that compilers without a builtin fall back
    to, counted lane by lane. */
module Popcount {
  import opened WordLanes

  const PAIRS: bv64 := 0x5555555555555555
  const NIBBLES: bv64 := 0x3333333333333333
  const BYTES: bv64 := 0x0f0f0f0f0f0f0f0f

  function PairCounts(word: bv64): bv64 {
    word - ((word >> 1) & PAIRS)
  }

  function NibbleCounts(word: bv64): bv64 {
    (word & NIBBLES) + ((word >> 2) & NIBBLES)
  }

  function ByteCounts(word: bv64): bv64 {
    (word + (word >> 4)) & BYTES
  }

  function AllBytes(word: bv64): bv64 {
    ByteCounts(NibbleCounts(PairCounts(word)))
  }

  function Add(a: bv64, b: bv64): bv64 {
    a + b
  }

  function Nat(a: bv64): nat {
    a as nat
  }

  function LowBit(word: bv64): bv64 {
    word & 1
  }

  function Next(word: bv64): bv64 {
    word >> 8
  }

  function Byte(word: bv64, shift: bv6): bv64 {
    (word >> shift) & 255
  }

  /** The sum of a word's lowest `k` bytes. */
  function ByteSum(word: bv64, k: nat): nat {
    if k == 0 then 0 else Nat(Byte(word, 0)) + ByteSum(Next(word), k - 1)
  }

  /** Ones, added up in the word's own arithmetic. */
  function OnesWord(word: bv64, n: nat): bv64 {
    if n == 0 then 0 else Add(LowBit(word), OnesWord(Half(word), n - 1))
  }

  function Halves(word: bv64, n: nat): bv64 {
    if n == 0 then word else Halves(Half(word), n - 1)
  }

  lemma AddOne(total: bv64)
    requires total < 64
    ensures Nat(Add(1, total)) == Nat(total) + 1 && Nat(total) < 64
  {}

  lemma ZeroAdded(total: bv64)
    ensures Add(0, total) == total
  {}

  lemma NatBelow64(total: bv64)
    ensures Nat(total) < 64 <==> total < 64
  {}

  lemma LowBitIsLane(word: bv64)
    ensures LowBit(word) == if Lane(word, 0) then 1 else 0
  {}

  lemma CountUp(word: bv64, total: bv64)
    requires Nat(total) < 64
    ensures Nat(Add(LowBit(word), total)) == Nat(total) + if Lane(word, 0) then 1 else 0
  {
    hide *;
    NatBelow64(total);
    LowBitIsLane(word);
    AddOne(total);
    ZeroAdded(total);
  }

  lemma {:induction false} OnesWordIsOnes(word: bv64, n: nat)
    requires n <= 64
    ensures Nat(OnesWord(word, n)) == Ones(word, n) <= n
    decreases n
  {
    hide Half, Add, LowBit, Lane, Nat;
    if n > 0 {
      OnesWordIsOnes(Half(word), n - 1);
      CountUp(word, OnesWord(Half(word), n - 1));
    } else {
      NatOfZero();
    }
  }

  lemma NatOfZero()
    ensures Nat(0) == 0
  {}

  lemma {:induction false} OnesSplit(word: bv64, m: nat, n: nat)
    ensures Ones(word, m + n) == Ones(word, m) + Ones(Halves(word, m), n)
  {
    if m > 0 {
      OnesSplit(Half(word), m - 1, n);
    }
  }

  // Counts stay inside their fields, so the next byte's pipeline is the pipeline shifted.

  function EvenBits(word: bv64): bv64 {
    word & PAIRS
  }

  function OddBits(word: bv64): bv64 {
    (word >> 1) & PAIRS
  }

  function EvenPairs(word: bv64): bv64 {
    word & NIBBLES
  }

  function OddPairs(word: bv64): bv64 {
    (word >> 2) & NIBBLES
  }

  predicate InPairs(word: bv64) {
    word & PAIRS == word
  }

  predicate InNibbles(word: bv64) {
    word & NIBBLES == word
  }

  predicate NoPairFull(word: bv64) {
    word & (word >> 1) & PAIRS == 0
  }

  predicate NoNibbleHigh(word: bv64) {
    word & 0x8888888888888888 == 0
  }

  predicate Carryless(a: bv64, b: bv64) {
    Next(a + b) == Next(a) + Next(b)
  }

  lemma EvenBitsField(w: bv64)
    ensures InPairs(EvenBits(w))
  {}

  lemma OddBitsField(w: bv64)
    ensures InPairs(OddBits(w))
  {}

  lemma EvenPairsField(w: bv64)
    ensures InNibbles(EvenPairs(w))
  {}

  lemma OddPairsField(w: bv64)
    ensures InNibbles(OddPairs(w))
  {}

  lemma NextEvenBits(w: bv64)
    ensures EvenBits(Next(w)) == Next(EvenBits(w))
  {}

  lemma NextOddBits(w: bv64)
    ensures OddBits(Next(w)) == Next(OddBits(w))
  {}

  lemma NextEvenPairs(w: bv64)
    ensures EvenPairs(Next(w)) == Next(EvenPairs(w))
  {}

  lemma NextOddPairs(w: bv64)
    ensures OddPairs(Next(w)) == Next(OddPairs(w))
  {}

  lemma PairsCarryless(a: bv64, b: bv64)
    requires InPairs(a) && InPairs(b)
    ensures Carryless(a, b)
  {}

  lemma NibblesCarryless(a: bv64, b: bv64)
    requires InNibbles(a) && InNibbles(b)
    ensures Carryless(a, b)
  {}

  lemma NextAdd(a: bv64, b: bv64)
    requires Carryless(a, b)
    ensures Next(Add(a, b)) == Add(Next(a), Next(b))
  {
    hide Next;
  }

  lemma PairSplit(w: bv64)
    ensures PairCounts(w) == Add(EvenBits(w), OddBits(w))
  {}

  lemma NibbleSplit(w: bv64)
    ensures NibbleCounts(w) == Add(EvenPairs(w), OddPairs(w))
  {}

  lemma PairsSmall(w: bv64)
    ensures NoPairFull(PairCounts(w))
  {}

  lemma NibblesSmall(w: bv64)
    requires NoPairFull(w)
    ensures NoNibbleHigh(NibbleCounts(w))
  {}

  lemma ByteShift(w: bv64)
    requires NoNibbleHigh(w)
    ensures ByteCounts(Next(w)) == Next(ByteCounts(w))
  {}

  lemma PairShift(w: bv64)
    ensures PairCounts(Next(w)) == Next(PairCounts(w))
  {
    hide *;
    PairSplit(w);
    PairSplit(Next(w));
    NextEvenBits(w);
    NextOddBits(w);
    EvenBitsField(w);
    OddBitsField(w);
    PairsCarryless(EvenBits(w), OddBits(w));
    NextAdd(EvenBits(w), OddBits(w));
  }

  lemma NibbleShift(w: bv64)
    ensures NibbleCounts(Next(w)) == Next(NibbleCounts(w))
  {
    hide *;
    NibbleSplit(w);
    NibbleSplit(Next(w));
    NextEvenPairs(w);
    NextOddPairs(w);
    EvenPairsField(w);
    OddPairsField(w);
    NibblesCarryless(EvenPairs(w), OddPairs(w));
    NextAdd(EvenPairs(w), OddPairs(w));
  }

  lemma BytesShift(w: bv64)
    ensures AllBytes(Next(w)) == Next(AllBytes(w))
  {
    hide PairCounts, NibbleCounts, ByteCounts, Next, NoPairFull, NoNibbleHigh;
    PairShift(w);
    NibbleShift(PairCounts(w));
    PairsSmall(w);
    NibblesSmall(PairCounts(w));
    ByteShift(NibbleCounts(PairCounts(w)));
  }

  /** The sum of a word's lowest eight lanes, spelled out. */
  function EightLanes(w: bv64): bv64 {
    (w & 1) + (((w >> 1) & 1) + (((w >> 2) & 1) + (((w >> 3) & 1)
    + (((w >> 4) & 1) + (((w >> 5) & 1) + (((w >> 6) & 1) + ((w >> 7) & 1)))))))
  }

  lemma LowByte(w: bv64)
    ensures Byte(AllBytes(w), 0) == EightLanes(w)
  {}

  lemma EightHalves(w: bv64)
    ensures Half(Half(Half(Half(Half(Half(Half(Half(w)))))))) == Next(w)
  {}

  lemma EightBits(w: bv64, w1: bv64, w2: bv64, w3: bv64, w4: bv64, w5: bv64, w6: bv64, w7: bv64)
    requires w1 == Half(w) && w2 == Half(w1) && w3 == Half(w2) && w4 == Half(w3)
    requires w5 == Half(w4) && w6 == Half(w5) && w7 == Half(w6)
    ensures EightLanes(w)
         == Add(LowBit(w), Add(LowBit(w1), Add(LowBit(w2), Add(LowBit(w3),
            Add(LowBit(w4), Add(LowBit(w5), Add(LowBit(w6), Add(LowBit(w7), 0))))))))
  {}

  lemma OnesOfByte(w: bv64)
    ensures OnesWord(w, 8) == Byte(AllBytes(w), 0)
    ensures Halves(w, 8) == Next(w)
  {
    hide Half, LowBit, Add, AllBytes, Byte, Next, EightLanes;
    var w1 := Half(w);
    var w2 := Half(w1);
    var w3 := Half(w2);
    var w4 := Half(w3);
    var w5 := Half(w4);
    var w6 := Half(w5);
    var w7 := Half(w6);
    LowByte(w);
    EightBits(w, w1, w2, w3, w4, w5, w6, w7);
    EightHalves(w);
    OnesStep(w7, 0);
    OnesStep(w6, 1);
    OnesStep(w5, 2);
    OnesStep(w4, 3);
    OnesStep(w3, 4);
    OnesStep(w2, 5);
    OnesStep(w1, 6);
    OnesStep(w, 7);
  }

  lemma OnesStep(w: bv64, n: nat)
    ensures OnesWord(w, n + 1) == Add(LowBit(w), OnesWord(Half(w), n))
    ensures Halves(w, n + 1) == Halves(Half(w), n) && Halves(w, 0) == w && OnesWord(w, 0) == 0
  {}

  /** The bytes of the pipeline add up to the set lanes. */
  lemma {:induction false} BytesSumToOnes(w: bv64, k: nat)
    ensures ByteSum(AllBytes(w), k) == Ones(w, 8 * k)
  {
    if k > 0 {
      hide AllBytes, Byte, Next, LowBit, Half, Add, Lane;
      OnesOfByte(w);
      OnesWordIsOnes(w, 8);
      BytesShift(w);
      BytesSumToOnes(Next(w), k - 1);
      OnesSplit(w, 8, 8 * (k - 1));
    }
  }

  // The multiplication gathers all eight bytes into the top one.

  function Top(x: bv64): bv64 {
    x >> 56
  }

  function Product(x: bv64): bv64 {
    x * 0x0101010101010101
  }

  predicate IsFold8(x: bv64, y: bv64) {
    y == x + (x << 8)
  }

  predicate IsFold16(x: bv64, y: bv64) {
    y == x + (x << 16)
  }

  predicate IsFold32(x: bv64, y: bv64) {
    y == x + (x << 32)
  }

  predicate SmallBytes(x: bv64) {
    x & 0xf0f0f0f0f0f0f0f0 == 0
  }

  predicate FoldedBytes(x: bv64) {
    x & 0xe0e0e0e0e0e0e0e0 == 0
  }

  predicate TwiceFoldedBytes(x: bv64) {
    x & 0xc0c0c0c0c0c0c0c0 == 0
  }

  lemma Multiply8(x: bv64)
    ensures IsFold8(x, x * 0x0101)
  {}

  lemma Multiply16(x: bv64)
    ensures IsFold16(x * 0x0101, x * 0x01010101)
  {}

  lemma Multiply32(x: bv64)
    ensures IsFold32(x * 0x01010101, x * 0x0101010101010101)
  {}

  lemma ProductIs(x: bv64)
    ensures Product(x) == x * 0x0101010101010101
  {}

  lemma Fold8(x: bv64, y: bv64)
    requires SmallBytes(x) && IsFold8(x, y)
    ensures Byte(y, 56) == Add(Byte(x, 56), Byte(x, 48)) && Byte(y, 40) == Add(Byte(x, 40), Byte(x, 32))
    ensures Byte(y, 24) == Add(Byte(x, 24), Byte(x, 16)) && Byte(y, 8) == Add(Byte(x, 8), Byte(x, 0))
    ensures FoldedBytes(y)
  {}

  lemma Fold16(y: bv64, z: bv64)
    requires FoldedBytes(y) && IsFold16(y, z)
    ensures Byte(z, 56) == Add(Byte(y, 56), Byte(y, 40)) && Byte(z, 24) == Add(Byte(y, 24), Byte(y, 8))
    ensures TwiceFoldedBytes(z)
  {}

  lemma Fold32(z: bv64, t: bv64)
    requires TwiceFoldedBytes(z) && IsFold32(z, t)
    ensures Top(t) == Add(Byte(z, 56), Byte(z, 24))
  {}

  function Succ(a: bv64): bv64 {
    a + 1
  }

  function Pred(a: bv64): bv64 {
    a - 1
  }

  predicate Small(a: bv64) {
    a <= 127
  }

  lemma NatSucc(a: bv64)
    requires Small(a)
    ensures Nat(Succ(a)) == Nat(a) + 1
  {}

  lemma AddSucc(a: bv64, b: bv64)
    requires a <= 63 && b <= 63 && b != 0
    ensures Add(a, b) == Succ(Add(a, Pred(b))) && b == Succ(Pred(b))
    ensures Small(Add(a, Pred(b))) && Small(Pred(b)) && Pred(b) <= 63 && Pred(b) < b
  {}

  lemma AddZero(a: bv64)
    ensures Add(a, 0) == a && Nat(0) == 0
  {}

  lemma {:induction false} AddNat(a: bv64, b: bv64)
    requires a <= 63 && b <= 63
    ensures Nat(Add(a, b)) == Nat(a) + Nat(b)
    decreases b
  {
    hide *;
    if b == 0 {
      AddZero(a);
    } else {
      AddSucc(a, b);
      AddNat(a, Pred(b));
      NatSucc(Add(a, Pred(b)));
      NatSucc(Pred(b));
    }
  }

  lemma ByteSumStep(x: bv64, b: bv64, k: nat)
    requires b == Next(x)
    ensures ByteSum(x, k + 1) == Nat(Byte(x, 0)) + ByteSum(b, k) && ByteSum(b, 0) == 0
  {
    hide Next, Byte;
  }

  lemma NextByte(x: bv64)
    ensures Byte(Next(x), 0) == Byte(x, 8) && Byte(Next(x), 8) == Byte(x, 16)
    ensures Byte(Next(x), 16) == Byte(x, 24) && Byte(Next(x), 24) == Byte(x, 32)
    ensures Byte(Next(x), 32) == Byte(x, 40) && Byte(Next(x), 40) == Byte(x, 48)
    ensures Byte(Next(x), 48) == Byte(x, 56)
  {}

  lemma ByteSumSpelledOut(x: bv64)
    ensures ByteSum(x, 8) == Nat(Byte(x, 0)) + Nat(Byte(x, 8)) + Nat(Byte(x, 16)) + Nat(Byte(x, 24))
                             + Nat(Byte(x, 32)) + Nat(Byte(x, 40)) + Nat(Byte(x, 48)) + Nat(Byte(x, 56))
  {
    hide *;
    var x1 := Next(x);
    var x2 := Next(x1);
    var x3 := Next(x2);
    var x4 := Next(x3);
    var x5 := Next(x4);
    var x6 := Next(x5);
    var x7 := Next(x6);
    NextByte(x);
    NextByte(x1);
    NextByte(x2);
    NextByte(x3);
    NextByte(x4);
    NextByte(x5);
    NextByte(x6);
    ByteSumStep(x, x1, 7);
    ByteSumStep(x1, x2, 6);
    ByteSumStep(x2, x3, 5);
    ByteSumStep(x3, x4, 4);
    ByteSumStep(x4, x5, 3);
    ByteSumStep(x5, x6, 2);
    ByteSumStep(x6, x7, 1);
    ByteSumStep(x7, Next(x7), 0);
  }

  lemma SmallByte(x: bv64, shift: bv6)
    requires SmallBytes(x)
    requires shift == 0 || shift == 8 || shift == 16 || shift == 24
          || shift == 32 || shift == 40 || shift == 48 || shift == 56
    ensures Byte(x, shift) <= 15
  {}

  lemma AddBounded(a: bv64, b: bv64, bound: bv64)
    requires a <= bound && b <= bound && bound <= 31
    ensures Add(a, b) <= 2 * bound
  {}

  /** For bytes no larger than 15, the product's top byte is their sum. */
  lemma TopByteIsByteSum(x: bv64)
    requires SmallBytes(x)
    ensures Nat(Top(Product(x))) == ByteSum(x, 8)
  {
    hide *;
    TopByte(x);
    SmallByte(x, 0);
    SmallByte(x, 8);
    SmallByte(x, 16);
    SmallByte(x, 24);
    SmallByte(x, 32);
    SmallByte(x, 40);
    SmallByte(x, 48);
    SmallByte(x, 56);
    FourBytes(Byte(x, 56), Byte(x, 48), Byte(x, 40), Byte(x, 32));
    FourBytes(Byte(x, 24), Byte(x, 16), Byte(x, 8), Byte(x, 0));
    AddNat(Add(Add(Byte(x, 56), Byte(x, 48)), Add(Byte(x, 40), Byte(x, 32))),
           Add(Add(Byte(x, 24), Byte(x, 16)), Add(Byte(x, 8), Byte(x, 0))));
    ByteSumSpelledOut(x);
  }

  lemma FourBytes(a: bv64, b: bv64, c: bv64, d: bv64)
    requires a <= 15 && b <= 15 && c <= 15 && d <= 15
    ensures Nat(Add(Add(a, b), Add(c, d))) == Nat(a) + Nat(b) + Nat(c) + Nat(d)
    ensures Add(Add(a, b), Add(c, d)) <= 63
  {
    hide Nat, Add;
    AddBounded(a, b, 15);
    AddBounded(c, d, 15);
    AddBounded(Add(a, b), Add(c, d), 30);
    AddNat(a, b);
    AddNat(c, d);
    AddNat(Add(a, b), Add(c, d));
  }

  lemma TopByte(x: bv64)
    requires SmallBytes(x)
    ensures Top(Product(x))
         == Add(Add(Add(Byte(x, 56), Byte(x, 48)), Add(Byte(x, 40), Byte(x, 32))),
                Add(Add(Byte(x, 24), Byte(x, 16)), Add(Byte(x, 8), Byte(x, 0))))
  {
    hide *;
    Multiply8(x);
    Multiply16(x);
    Multiply32(x);
    Fold8(x, x * 0x0101);
    Fold16(x * 0x0101, x * 0x01010101);
    Fold32(x * 0x01010101, x * 0x0101010101010101);
    ProductIs(x);
  }

  lemma AllBytesSmall(w: bv64)
    ensures SmallBytes(AllBytes(w))
  {
    hide NibbleCounts, PairCounts;
  }

  /** The fallback's last line: one multiplication, then the top byte. */
  function Gathered(word: bv64): nat {
    ((word * 0x0101010101010101) >> 56) as nat
  }

  lemma GatheredUnfolds(word: bv64)
    ensures Gathered(word) == Nat(Top(Product(word)))
  {}

  lemma GatheredCounts(input: bv64)
    ensures Gathered(AllBytes(input)) == Ones(input, 64)
  {
    hide *;
    AllBytesSmall(input);
    TopByteIsByteSum(AllBytes(input));
    BytesSumToOnes(input, 8);
    GatheredUnfolds(AllBytes(input));
  }

  lemma AllBytesUnfolds(w: bv64)
    ensures AllBytes(w) == ByteCounts(NibbleCounts(PairCounts(w)))
  {}

  /** The fallback population count: for every word, the number of its set lanes. */
  method PopulationCount(input: bv64) returns (count: nat)
    ensures count == Ones(input, 64)
  {
    hide *;
    AllBytesUnfolds(input);
    var word := input;
    PairStage(word);
    word := word - ((word >> 1) & 0x5555555555555555);
    NibbleStage(word);
    word := (word & 0x3333333333333333) + ((word >> 2) & 0x3333333333333333);
    ByteStage(word);
    word := (word + (word >> 4)) & 0x0f0f0f0f0f0f0f0f;
    GatheredCounts(input);
    count := Gathered(word);
  }

  // The three statements are the three counting stages.

  lemma PairStage(word: bv64)
    ensures word - ((word >> 1) & 0x5555555555555555) == PairCounts(word)
  {}

  lemma NibbleStage(word: bv64)
    ensures (word & 0x3333333333333333) + ((word >> 2) & 0x3333333333333333) == NibbleCounts(word)
  {}

  lemma ByteStage(word: bv64)
    ensures (word + (word >> 4)) & 0x0f0f0f0f0f0f0f0f == ByteCounts(word)
  {}
}
