/** Machine words and the hash family shared by the key-value structures.
    The concrete hash (`FastHasher64`) is a parameter: an arbitrary function of a seed and a key. */
module Hashing {
  const TWO_32: nat := 0x1_0000_0000
  const TWO_40: nat := 0x100_0000_0000
  const TWO_48: nat := 0x1_0000_0000_0000
  const TWO_56: nat := 0x100_0000_0000_0000
  const TWO_63: nat := 0x8000_0000_0000_0000
  const TWO_64: nat := 0x1_0000_0000_0000_0000

  type U64 = x: nat | x < 0x1_0000_0000_0000_0000
  type Key = U64
  type Value = U64

  /** A 64-bit hash by its fields: the two top bits, the 30 bits below them and the low half. */
  datatype Word = Word(top: SlotIndex, middle: nat, low: nat)

  /** A seeded family of 64-bit hashes. */
  type Hash = (nat, Key) -> Word

  /** Seed of the hasher that chooses buckets. */
  const BUCKET_SEED: nat := 0xe2211e2211

  type Bit = b: nat | b < 2

  type SlotIndex = s: nat | s < 4

  /** The slot a key takes in a bucket with the given seed: the top two bits of its hash. */
  function SlotOf(h: Hash, seed: nat, k: Key): SlotIndex {
    h(seed, k).top
  }

  function HighHalf(x: Word): nat {
    x.top * 0x4000_0000 + x.middle
  }

  /** One of the two candidate buckets of a key; from the low and the high half of its hash. */
  function Candidate(h: Hash, k: Key, which: Bit, n: nat): (b: nat)
    requires n > 0
    ensures b < n
  {
    var x := h(BUCKET_SEED, k);
    if which == 0 then Masked(x.low, n) else Masked(HighHalf(x), n)
  }

  /** The low bits of `x` that index a table of `n` entries: `x & (n - 1)` for a power of two `n`. */
  function Masked(x: nat, n: nat): (r: nat)
    requires n > 0
    ensures r < n
  {
    if x < n then x else Masked(x - n, n)
  }

  /** `n` is a sum of `o`s. */
  ghost predicate Multiple(n: nat, o: nat)
    requires o > 0
  {
    n == 0 || (n >= o && Multiple(n - o, o))
  }

  lemma {:induction false} MaskedShift(x: nat, n: nat, o: nat)
    requires o > 0 && Multiple(n, o)
    ensures Masked(x + n, o) == Masked(x, o)
    decreases n
  {
    if n > 0 {
      MaskedShift(x, n - o, o);
      assert Masked(x + n, o) == Masked(x + n - o, o);
    }
  }

  lemma {:induction false} MaskedIsRemainder(x: nat, n: nat)
    requires n > 0
    ensures Masked(x, n) == x % n
    decreases x
  {
    if x >= n {
      MaskedIsRemainder(x - n, n);
      assert x % n == (x - n) % n by { RemainderStep(x, n); }
    }
  }

  lemma RemainderStep(x: nat, n: nat)
    requires x >= n > 0
    ensures x % n == (x - n) % n
  {
    var q, r := (x - n) / n, (x - n) % n;
    assert x - n == q * n + r;
    assert x == (q + 1) * n + r;
    UniqueRemainder(x, n, q + 1, r);
  }

  lemma UniqueRemainder(x: nat, n: nat, q: nat, r: nat)
    requires n > 0 && x == q * n + r && r < n
    ensures x % n == r
  {
    var d := q - x / n;
    assert d * n == x % n - r;
    MultipleSize(d, n);
  }

  lemma MultipleSize(d: int, n: nat)
    ensures d >= 1 ==> d * n >= n
    ensures d <= -1 ==> d * n <= 0 - n
  {
  }

  /** What is taken from the fields of a hash: the slot is its top two bits, the first candidate bucket its low half and
      the second its high half, both modulo the number of buckets, under the fixed bucket seed. */
  lemma HashFields(h: Hash, seed: nat, k: Key, n: nat)
    requires n > 0
    ensures SlotOf(h, seed, k) == h(seed, k).top
    ensures Candidate(h, k, 0, n) == h(0xe2211e2211, k).low % n
    ensures Candidate(h, k, 1, n) == (h(0xe2211e2211, k).top * 0x4000_0000 + h(0xe2211e2211, k).middle) % n
  {
    MaskedIsRemainder(h(BUCKET_SEED, k).low, n);
    MaskedIsRemainder(HighHalf(h(BUCKET_SEED, k)), n);
  }

  /** Narrowing a wide mask gives the narrow mask. */
  lemma {:induction false} MaskedNested(x: nat, n: nat, o: nat)
    requires o > 0 && Multiple(n, o) && n > 0
    ensures Masked(Masked(x, n), o) == Masked(x, o)
    decreases x
  {
    if x >= n {
      MaskedNested(x - n, n, o);
      MaskedShift(x - n, n, o);
    }
  }

  /** In a grown table, the candidate bucket of a key is its old one or lies in the new part,
      at the same place modulo the old size. */
  lemma CandidateGrows(h: Hash, k: Key, which: Bit, n: nat, o: nat)
    requires o > 0 && Multiple(n, o) && n > 0
    ensures Masked(Candidate(h, k, which, n), o) == Candidate(h, k, which, o)
  {
    MaskedNested(h(BUCKET_SEED, k).low, n, o);
    MaskedNested(HighHalf(h(BUCKET_SEED, k)), n, o);
  }

  ghost predicate PowerOfTwo(n: nat) {
    n == 1 || (n > 1 && n % 2 == 0 && PowerOfTwo(n / 2))
  }

  lemma {:induction false} DoubledMultiple(n: nat, o: nat)
    requires o > 0 && Multiple(n, o)
    ensures Multiple(2 * n, 2 * o)
    decreases n
  {
    if n > 0 {
      DoubledMultiple(n - o, o);
      assert 2 * n - 2 * o == 2 * (n - o);
    }
  }

  lemma {:induction false} MultipleOfOne(n: nat)
    ensures Multiple(n, 1)
  {
    if n > 0 { MultipleOfOne(n - 1); }
  }

  lemma {:induction false} PowersDivide(a: nat, b: nat)
    requires PowerOfTwo(a) && PowerOfTwo(b) && a <= b
    ensures Multiple(b, a)
    decreases b
  {
    if a == 1 {
      MultipleOfOne(b);
    } else {
      PowersDivide(a / 2, b / 2);
      DoubledMultiple(b / 2, a / 2);
      assert b == 2 * (b / 2) && a == 2 * (a / 2);
    }
  }
}
