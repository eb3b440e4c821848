/**
 * 64-bit words of the slot bitmap, and the helpers that search them. Every operation on a word is a
 * named function, so that the proofs about whole bitmaps reason about bits and not about words.
 */
module AlexBits {
  type Word = bv64

  const NONE: Word := 0
  const ALL_ONES: Word := 0xFFFF_FFFF_FFFF_FFFF

  function Half(w: Word): (r: Word) { w >> 1 }

  function Twice(w: Word): (r: Word) { w << 1 }

  predicate Odd(w: Word) { w & 1 == 1 }

  function Or(a: Word, b: Word): (r: Word) { a | b }

  function And(a: Word, b: Word): (r: Word) { a & b }

  function Not(a: Word): (r: Word) { a ^ ALL_ONES }

  function Pred(a: Word): (r: Word) { a - 1 }

  /** `extract_rightmost_one`: `value & -value`. */
  function ExtractRightmostOne(w: Word): (r: Word) { w & (0 - w) }

  /** `remove_rightmost_one`: `value & (value - 1)`. */
  function RemoveRightmostOne(w: Word): (r: Word) { w & (w - 1) }

  /** The word `1 << i`. */
  function Single(i: nat): (p: Word) {
    if i == 0 then 1 else Twice(Single(i - 1))
  }

  /** The word `(1 << i) - 1`. */
  function LowMask(i: nat): (m: Word) {
    Pred(Single(i))
  }

  /** Bit `i` of a word. */
  predicate Bit(w: Word, i: nat) {
    if i == 0 then Odd(w) else Bit(Half(w), i - 1)
  }

  /** The number of set bits among the first `n`. */
  function Population(w: Word, n: nat): (c: nat)
    ensures c <= n
  {
    if n == 0 then 0 else Population(w, n - 1) + if Bit(w, n - 1) then 1 else 0
  }

  predicate Clear(w: Word) {
    forall i: nat | i < 64 :: !Bit(w, i)
  }

  predicate Full(w: Word) {
    forall i: nat | i < 64 :: Bit(w, i)
  }

  // ----- identities on words -----

  lemma OrParts(a: Word, b: Word)
    ensures Half(Or(a, b)) == Or(Half(a), Half(b))
    ensures Odd(Or(a, b)) == (Odd(a) || Odd(b))
  {
  }

  lemma AndParts(a: Word, b: Word)
    ensures Half(And(a, b)) == And(Half(a), Half(b))
    ensures Odd(And(a, b)) == (Odd(a) && Odd(b))
  {
  }

  lemma TwiceParts(a: Word)
    ensures !Odd(Twice(a))
    ensures Half(Twice(a)) == And(a, Half(ALL_ONES))
  {
  }

  lemma ZeroOrParts(w: Word)
    ensures w == NONE <==> !Odd(w) && Half(w) == NONE
  {
  }

  lemma RemoveParts(w: Word)
    ensures !Odd(RemoveRightmostOne(w))
    ensures Half(RemoveRightmostOne(w)) == if Odd(w) then Half(w) else RemoveRightmostOne(Half(w))
  {
  }

  lemma ExtractParts(w: Word)
    ensures Odd(w) ==> ExtractRightmostOne(w) == 1
    ensures !Odd(w) ==> ExtractRightmostOne(w) == Twice(ExtractRightmostOne(Half(w)))
  {
  }

  // ----- the width of a word -----

  /** All bits from position `n` on are clear. */
  predicate Fits(w: Word, n: nat) {
    if n == 0 then w == NONE else Fits(Half(w), n - 1)
  }

  /** The first `n` bits are set. */
  predicate Dense(w: Word, n: nat) {
    n == 0 || (Odd(w) && Dense(Half(w), n - 1))
  }

  lemma FitsByte(w: Word, n: nat)
    requires Fits(w >> 8, n)
    ensures Fits(w, n + 8)
  {
    var h := Half(Half(Half(Half(w))));
    assert Half(Half(Half(Half(h)))) == w >> 8;
    assert Fits(w, n + 8) == Fits(Half(w), n + 7) == Fits(Half(Half(w)), n + 6) == Fits(Half(Half(Half(w))), n + 5) ==
        Fits(h, n + 4);
    assert Fits(h, n + 4) == Fits(Half(h), n + 3) == Fits(Half(Half(h)), n + 2) == Fits(Half(Half(Half(h))), n + 1) ==
        Fits(w >> 8, n);
  }

  lemma DenseByte(w: Word, n: nat)
    requires Dense(w >> 8, n) && w & 0xFF == 0xFF
    ensures Dense(w, n + 8)
  {
    var h := Half(Half(Half(Half(w))));
    assert Half(Half(Half(Half(h)))) == w >> 8;
    assert Odd(w) && Odd(Half(w)) && Odd(Half(Half(w))) && Odd(Half(Half(Half(w))));
    assert Odd(h) && Odd(Half(h)) && Odd(Half(Half(h))) && Odd(Half(Half(Half(h))));
    assert Dense(h, n + 4) == Dense(Half(h), n + 3) == Dense(Half(Half(h)), n + 2) ==
        Dense(Half(Half(Half(h))), n + 1) == Dense(w >> 8, n);
    assert Dense(w, n + 8) == Dense(Half(w), n + 7) == Dense(Half(Half(w)), n + 6) ==
        Dense(Half(Half(Half(w))), n + 5) == Dense(h, n + 4);
  }

  function DropByte(w: Word): (r: Word) { w >> 8 }

  lemma EightBytes(w: Word)
    ensures DropByte(DropByte(DropByte(DropByte(DropByte(DropByte(DropByte(DropByte(w)))))))) == NONE
  {
  }

  lemma {:induction false} FitsBytes(w: Word, n: nat)
    requires Fits(DropByte(w), n)
    ensures Fits(w, n + 8)
  {
    FitsByte(w, n);
  }

  lemma EveryWordFits(w: Word)
    ensures Fits(w, 64)
  {
    hide Half, DropByte, Fits;
    EightBytes(w);
    var b := DropByte(DropByte(DropByte(DropByte(w))));
    FitsZero();
    FitsBytes(DropByte(DropByte(DropByte(b))), 0);
    FitsBytes(DropByte(DropByte(b)), 8);
    FitsBytes(DropByte(b), 16);
    FitsBytes(b, 24);
    FitsBytes(DropByte(DropByte(DropByte(w))), 32);
    FitsBytes(DropByte(DropByte(w)), 40);
    FitsBytes(DropByte(w), 48);
    FitsBytes(w, 56);
  }

  lemma FitsZero()
    ensures Fits(NONE, 0)
  {
  }

  lemma AllOnesDense()
    ensures Dense(ALL_ONES, 64)
  {
    hide Half, Odd;
    DenseByte(0xFF, 0);
    DenseByte(0xFFFF, 8);
    DenseByte(0xFF_FFFF, 16);
    DenseByte(0xFFFF_FFFF, 24);
    DenseByte(0xFF_FFFF_FFFF, 32);
    DenseByte(0xFFFF_FFFF_FFFF, 40);
    DenseByte(0xFF_FFFF_FFFF_FFFF, 48);
    DenseByte(ALL_ONES, 56);
  }

  lemma {:induction false} DenseBits(w: Word, n: nat, i: nat)
    requires Dense(w, n) && i < n
    ensures Bit(w, i)
    decreases n
  {
    hide Half, Odd;
    if i > 0 { DenseBits(Half(w), n - 1, i - 1); }
  }

  lemma {:induction false} NoBits(w: Word, n: nat)
    requires Fits(w, n) && forall i: nat :: i < n ==> !Bit(w, i)
    ensures w == NONE
    decreases n
  {
    hide Half, Odd;
    if n > 0 {
      assert !Bit(w, 0);
      forall i: nat | i < n - 1 ensures !Bit(Half(w), i) {
        assert !Bit(w, i + 1);
      }
      NoBits(Half(w), n - 1);
      ZeroOrParts(w);
    }
  }

  lemma {:induction false} ZeroBits(i: nat)
    ensures !Bit(NONE, i)
  {
    hide Half, Odd;
    ZeroOrParts(NONE);
    if i > 0 { ZeroBits(i - 1); }
  }

  lemma {:induction false} OrBits(a: Word, b: Word, i: nat)
    ensures Bit(Or(a, b), i) == (Bit(a, i) || Bit(b, i))
    decreases i
  {
    hide Half, Odd, Or;
    OrParts(a, b);
    if i > 0 { OrBits(Half(a), Half(b), i - 1); }
  }

  lemma {:induction false} AndBits(a: Word, b: Word, i: nat)
    ensures Bit(And(a, b), i) == (Bit(a, i) && Bit(b, i))
    decreases i
  {
    hide Half, Odd, And;
    AndParts(a, b);
    if i > 0 { AndBits(Half(a), Half(b), i - 1); }
  }

  lemma AllOnesBits(i: nat)
    requires i < 64
    ensures Bit(ALL_ONES, i)
  {
    hide Bit, Dense;
    AllOnesDense();
    DenseBits(ALL_ONES, 64, i);
  }

  lemma Complements(w: Word)
    ensures Or(w, Not(w)) == ALL_ONES && And(w, Not(w)) == NONE
  {
  }

  lemma NotBits(w: Word, i: nat)
    requires i < 64
    ensures Bit(Not(w), i) == !Bit(w, i)
  {
    hide Bit, Or, And, Not;
    Complements(w);
    OrBits(w, Not(w), i);
    AndBits(w, Not(w), i);
    AllOnesBits(i);
    ZeroBits(i);
  }

  /** A word is zero exactly when none of its 64 bits is set. */
  lemma ZeroWord(w: Word)
    ensures w == NONE <==> Clear(w)
  {
    hide Half, Odd, Fits;
    EveryWordFits(w);
    if w == NONE {
      forall i: nat | i < 64 ensures !Bit(w, i) { ZeroBits(i); }
    } else if Clear(w) {
      NoBits(w, 64);
    }
  }

  lemma NotZero(w: Word)
    ensures w == ALL_ONES <==> Not(w) == NONE
  {
  }

  /** A word is all ones exactly when each of its 64 bits is set. */
  lemma FullWord(w: Word)
    ensures w == ALL_ONES <==> Full(w)
  {
    hide Half, Odd, Not;
    NotZero(w);
    ZeroWord(Not(w));
    if w == ALL_ONES {
      forall i: nat | i < 64 ensures Bit(w, i) { NotBits(w, i); }
    } else if Full(w) {
      forall i: nat | i < 64 ensures !Bit(Not(w), i) { NotBits(w, i); }
    }
  }

  lemma TwiceBits(w: Word, i: nat)
    requires i < 64
    ensures Bit(Twice(w), i) == (i > 0 && Bit(w, i - 1))
  {
    hide Half, Odd, Twice;
    TwiceParts(w);
    if i > 0 {
      AndBits(w, Half(ALL_ONES), i - 1);
      AllOnesBits(i);
    }
  }

  lemma {:induction false} SingleBits(i: nat, j: nat)
    requires i < 64 && j < 64
    ensures Bit(Single(i), j) <==> i == j
  {
    hide Half, Odd, Twice;
    if i == 0 {
      OneParts();
      if j > 0 { ZeroBits(j - 1); }
    } else {
      TwiceBits(Single(i - 1), j);
      if j > 0 { SingleBits(i - 1, j - 1); }
    }
  }

  lemma OneParts()
    ensures Odd(1) && Half(1) == NONE && Pred(1) == NONE
  {
  }

  lemma PredTwice(w: Word)
    ensures Odd(Pred(Twice(w))) && Half(Pred(Twice(w))) == And(Pred(w), Half(ALL_ONES))
  {
  }

  /** `(1 << i) - 1` has exactly the bits below `i`. */
  lemma {:induction false} LowMaskBits(i: nat, j: nat)
    requires i < 64 && j < 64
    ensures Bit(LowMask(i), j) <==> j < i
  {
    hide Half, Odd, Twice, Pred;
    if i == 0 {
      OneParts();
      ZeroBits(j);
    } else {
      PredTwice(Single(i - 1));
      if j > 0 {
        LowMaskBits(i - 1, j - 1);
        AndBits(LowMask(i - 1), Half(ALL_ONES), j - 1);
        AllOnesBits(j);
      }
    }
  }

  // ----- the operations the node uses -----

  function SetBit(w: Word, i: nat): (r: Word)
    requires i < 64
    ensures forall j: nat | j < 64 :: Bit(r, j) <==> (j == i || Bit(w, j))
  {
    hide Single, Or, Half, Odd;
    assert forall j: nat | j < 64 :: Bit(Or(w, Single(i)), j) <==> (j == i || Bit(w, j)) by {
      forall j: nat | j < 64 ensures Bit(Or(w, Single(i)), j) <==> (j == i || Bit(w, j)) {
        OrBits(w, Single(i), j);
        SingleBits(i, j);
      }
    }
    Or(w, Single(i))
  }

  function UnsetBit(w: Word, i: nat): (r: Word)
    requires i < 64
    ensures forall j: nat | j < 64 :: Bit(r, j) <==> (j != i && Bit(w, j))
  {
    hide Single, Or, And, Not, Half, Odd;
    assert forall j: nat | j < 64 :: Bit(And(w, Not(Single(i))), j) <==> (j != i && Bit(w, j)) by {
      forall j: nat | j < 64 ensures Bit(And(w, Not(Single(i))), j) <==> (j != i && Bit(w, j)) {
        AndBits(w, Not(Single(i)), j);
        NotBits(Single(i), j);
        SingleBits(i, j);
      }
    }
    And(w, Not(Single(i)))
  }

  /** The bits of a word from position `i` on: `w & ~((1 << i) - 1)`. */
  function KeepFrom(w: Word, i: nat): (r: Word)
    requires i < 64
    ensures forall j: nat | j < 64 :: Bit(r, j) <==> (i <= j && Bit(w, j))
  {
    hide LowMask, Or, And, Not, Half, Odd;
    assert forall j: nat | j < 64 :: Bit(And(w, Not(LowMask(i))), j) <==> (i <= j && Bit(w, j)) by {
      forall j: nat | j < 64 ensures Bit(And(w, Not(LowMask(i))), j) <==> (i <= j && Bit(w, j)) {
        AndBits(w, Not(LowMask(i)), j);
        NotBits(LowMask(i), j);
        LowMaskBits(i, j);
      }
    }
    And(w, Not(LowMask(i)))
  }

  /** The clear bits of a word from position `i` on: `~(w | ((1 << i) - 1))`. */
  function GapsFrom(w: Word, i: nat): (r: Word)
    requires i < 64
    ensures forall j: nat | j < 64 :: Bit(r, j) <==> (i <= j && !Bit(w, j))
  {
    hide LowMask, Or, And, Not, Half, Odd;
    assert forall j: nat | j < 64 :: Bit(Not(Or(w, LowMask(i))), j) <==> (i <= j && !Bit(w, j)) by {
      forall j: nat | j < 64 ensures Bit(Not(Or(w, LowMask(i))), j) <==> (i <= j && !Bit(w, j)) {
        OrBits(w, LowMask(i), j);
        NotBits(Or(w, LowMask(i)), j);
        LowMaskBits(i, j);
      }
    }
    Not(Or(w, LowMask(i)))
  }

  /** The clear bits of a word below position `i`: `~w & ((1 << i) - 1)`. */
  function GapsBelow(w: Word, i: nat): (r: Word)
    requires i < 64
    ensures forall j: nat | j < 64 :: Bit(r, j) <==> (j < i && !Bit(w, j))
  {
    hide LowMask, Or, And, Not, Half, Odd;
    assert forall j: nat | j < 64 :: Bit(And(Not(w), LowMask(i)), j) <==> (j < i && !Bit(w, j)) by {
      forall j: nat | j < 64 ensures Bit(And(Not(w), LowMask(i)), j) <==> (j < i && !Bit(w, j)) {
        AndBits(Not(w), LowMask(i), j);
        NotBits(w, j);
        LowMaskBits(i, j);
      }
    }
    And(Not(w), LowMask(i))
  }

  /** `f` is the position of the rightmost one. */
  predicate Rightmost(w: Word, f: nat) {
    f < 64 && Bit(w, f) && forall j: nat | j < f :: !Bit(w, j)
  }

  /** `value & -value` is the single word of the rightmost one. */
  lemma {:induction false} ExtractIsSingle(w: Word, f: nat)
    requires Rightmost(w, f)
    ensures ExtractRightmostOne(w) == Single(f)
    decreases f
  {
    hide Half, Odd, Twice, ExtractRightmostOne;
    ExtractParts(w);
    if f > 0 {
      assert !Bit(w, 0);
      HalfRightmost(w, f);
      ExtractIsSingle(Half(w), f - 1);
    }
  }

  lemma HalfRightmost(w: Word, f: nat)
    requires Rightmost(w, f) && f > 0
    ensures Rightmost(Half(w), f - 1)
  {
    hide Half, Odd;
    forall j: nat | j < f - 1 ensures !Bit(Half(w), j) { assert !Bit(w, j + 1); }
  }

  /** `value & (value - 1)` loses exactly the rightmost one. */
  lemma {:induction false} RemoveBits(w: Word, f: nat, j: nat)
    requires Rightmost(w, f)
    ensures Bit(RemoveRightmostOne(w), j) <==> (Bit(w, j) && j != f)
    decreases f, j
  {
    hide Half, Odd, RemoveRightmostOne;
    RemoveParts(w);
    assert f > 0 ==> !Bit(w, 0);
    if f > 0 && j > 0 {
      HalfRightmost(w, f);
      RemoveBits(Half(w), f - 1, j - 1);
    }
  }

  lemma {:induction false} LowMaskPopulation(i: nat, n: nat)
    requires i < 64 && n <= 64
    ensures Population(LowMask(i), n) == if n < i then n else i
  {
    hide LowMask;
    if n > 0 {
      LowMaskPopulation(i, n - 1);
      LowMaskBits(i, n - 1);
    }
  }

  /** One step of a loop over the halves of a word. */
  lemma {:induction false} PopulationHalf(w: Word, n: nat)
    ensures Population(w, n + 1) == (if Odd(w) then 1 else 0) + Population(Half(w), n)
    decreases n
  {
    hide Half, Odd;
    if n > 0 { PopulationHalf(w, n - 1); }
  }

  lemma {:induction false} PopulationZero(n: nat)
    ensures Population(NONE, n) == 0
  {
    hide Half, Odd;
    if n > 0 {
      PopulationZero(n - 1);
      ZeroBits(n - 1);
    }
  }

  /** `count_ones`: the number of set bits of the word. */
  method CountOnes(w: Word) returns (count: nat)
    ensures count == Population(w, 64)
  {
    hide Half, Odd;
    count := 0;
    var value := w;
    ghost var left: nat := 64;
    EveryWordFits(w);
    while value != NONE
      invariant Fits(value, left)
      invariant count + Population(value, left) == Population(w, 64)
      decreases left
    {
      PopulationHalf(value, left - 1);
      count := count + if Odd(value) then 1 else 0;
      value := Half(value);
      left := left - 1;
    }
    PopulationZero(left);
  }

  /** The word after `n` right shifts. */
  function Halved(w: Word, n: nat): (r: Word) {
    if n == 0 then w else Half(Halved(w, n - 1))
  }

  lemma {:induction false} HalvedFirst(w: Word, n: nat)
    ensures Halved(Half(w), n) == Half(Halved(w, n))
  {
    hide Half;
    if n > 0 { HalvedFirst(w, n - 1); }
  }

  lemma {:induction false} BitIsOdd(w: Word, i: nat)
    ensures Bit(w, i) == Odd(Halved(w, i))
    decreases i
  {
    hide Half, Odd;
    if i > 0 {
      BitIsOdd(Half(w), i - 1);
      HalvedFirst(w, i - 1);
    }
  }

  /** `tzcnt_u64`: the position of the rightmost one, or 64. */
  method TrailingZeros(w: Word) returns (count: nat)
    ensures count <= 64
    ensures forall j: nat | j < count :: !Bit(w, j)
    ensures count < 64 ==> Rightmost(w, count)
    ensures count == 64 <==> w == NONE
  {
    hide Half, Odd, Bit;
    count := 0;
    var value := w;
    BitIsOdd(w, 0);
    while !Odd(value) && count < 64
      invariant count <= 64
      invariant forall j: nat | j < count :: !Bit(w, j)
      invariant value == Halved(w, count)
      invariant Bit(w, count) == Odd(value)
    {
      value := Half(value);
      count := count + 1;
      BitIsOdd(w, count);
    }
    ZeroWord(w);
  }

  lemma MaskTest(w: Word, i: nat)
    requires i < 64
    ensures And(w, Single(i)) == NONE <==> !Bit(w, i)
  {
    hide Half, Odd, And, Single;
    ZeroWord(And(w, Single(i)));
    AndBits(w, Single(i), i);
    SingleBits(i, i);
    if !Bit(w, i) {
      forall j: nat | j < 64 ensures !Bit(And(w, Single(i)), j) {
        AndBits(w, Single(i), j);
        SingleBits(i, j);
      }
    }
  }

  lemma SingleIsSet(i: nat)
    requires i < 64
    ensures Single(i) != NONE
  {
    hide Bit, Single;
    SingleBits(i, i);
    ZeroBits(i);
  }

  lemma SingleHalf(i: nat)
    requires i < 64
    ensures Half(Single(i)) == if i == 0 then NONE else Single(i - 1)
  {
    hide Half, Odd, Twice;
    OneParts();
    if i > 0 {
      TwiceParts(Single(i - 1));
      TopClear(i - 1);
    }
  }

  lemma TopClear(i: nat)
    requires i < 63
    ensures And(Single(i), Half(ALL_ONES)) == Single(i)
  {
    hide Half, Odd, And, Single, Not;
    var top := Not(Half(ALL_ONES));
    forall j: nat | j < 64 ensures !Bit(And(Single(i), top), j) {
      AndBits(Single(i), top, j);
      SingleBits(i, j);
      NotBits(Half(ALL_ONES), j);
      if j == i {
        AllOnesBits(j + 1);
        assert Bit(ALL_ONES, j + 1) == Bit(Half(ALL_ONES), j);
      }
    }
    ZeroWord(And(Single(i), top));
    Disjoint(Single(i), Half(ALL_ONES));
  }

  lemma Disjoint(a: Word, b: Word)
    requires And(a, Not(b)) == NONE
    ensures And(a, b) == a
  {
  }

  /** `lzcnt_u64`: how many of the highest bits are clear before the leftmost one. */
  method LeadingZeros(w: Word) returns (count: nat)
    ensures count <= 64
    ensures forall j: nat | 64 - count <= j < 64 :: !Bit(w, j)
    ensures count < 64 ==> Bit(w, 63 - count)
    ensures count == 64 <==> w == NONE
  {
    hide Half, Odd, And, Single;
    count := 0;
    var mask := Single(63);
    SingleIsSet(63);
    MaskTest(w, 63);
    while And(w, mask) == NONE && mask != NONE
      invariant count <= 64
      invariant count < 64 ==> mask == Single(63 - count) && mask != NONE
      invariant count == 64 ==> mask == NONE
      invariant forall j: nat | 64 - count <= j < 64 :: !Bit(w, j)
      decreases 64 - count
    {
      MaskTest(w, 63 - count);
      SingleHalf(63 - count);
      if count < 63 { SingleIsSet(62 - count); }
      count := count + 1;
      mask := Half(mask);
    }
    if count < 64 { MaskTest(w, 63 - count); }
    ZeroWord(w);
  }

  /** `get_offset` of the rightmost one of a word: the slot that bit stands for. */
  method GetOffset(word: nat, bit: Word, ghost f: nat) returns (offset: nat)
    requires f < 64 && bit == Single(f)
    ensures offset == 64 * word + f
  {
    hide Half, Odd, Single, Population;
    var ones := CountOnes(Pred(bit));
    LowMaskPopulation(f, 64);
    offset := 64 * word + ones;
  }
}
