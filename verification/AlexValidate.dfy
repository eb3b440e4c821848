/** The node's own consistency test, and how it relates to the invariant. */
module AlexValidate {
  import opened AlexBits
  import opened AlexBitmap
  import opened AlexSlots
  import opened AlexEdits

  /** The ones of the first `n` words. */
  ghost function Ones(words: seq<Word>, n: nat): (c: nat)
    requires n <= |words|
  {
    if n == 0 then 0 else Ones(words, n - 1) + Population(words[n - 1], 64)
  }

  function Within(i: nat, capacity: nat): (r: nat) {
    if i < capacity then i else capacity
  }

  lemma {:induction false} WordCounts(words: seq<Word>, s: Slots, w: nat, b: nat)
    requires SameSize(s) && Mirrors(words, s.filled) && w < |words| && b <= 64
    ensures Population(words[w], b) == |Live(s, 64 * w, Within(64 * w + b, |s.keys|))|
    decreases b
  {
    hide Half, Odd;
    if b > 0 {
      WordCounts(words, s, w, b - 1);
      assert Bit(words[w], b - 1) == (64 * w + (b - 1) < |s.filled| && s.filled[64 * w + (b - 1)]);
    }
  }

  /** The population of the bitmap is the number of entries. */
  lemma {:induction false} BitmapCountsEntries(words: seq<Word>, s: Slots, n: nat)
    requires SameSize(s) && Mirrors(words, s.filled) && n <= |words|
    ensures Ones(words, n) == |Live(s, 0, Within(64 * n, |s.keys|))|
  {
    hide Population, Live, Bit;
    if n == 0 {
      LiveNone(s, 0, 0);
    } else {
      BitmapCountsEntries(words, s, n - 1);
      WordCounts(words, s, n - 1, 64);
      LiveSplit(s, 0, Within(64 * (n - 1), |s.keys|), Within(64 * n, |s.keys|));
    }
  }

  /** What the test looks at in slot `i` and its right neighbour. */
  predicate PairLooksRight(s: Slots, i: nat)
    requires i + 1 < |s.keys| == |s.filled|
  {
    s.keys[i] <= s.keys[i + 1] && (s.keys[i] < s.keys[i + 1] ==> s.filled[i])
  }

  /** What the test accepts. */
  ghost predicate Accepts(s: Slots, numKeys: nat)
    requires SameSize(s) && |s.keys| > 0
  {
    var n := |s.keys|;
    && (forall j | 0 <= j < n - 1 :: PairLooksRight(s, j))
    && (s.filled[n - 1] <==> s.keys[n - 1] != SENTINEL)
    && numKeys == |Entries(s)|
  }

  /** Some slot holds an entry whose key is not below the sentinel. */
  ghost predicate HoldsSentinel(s: Slots)
    requires SameSize(s)
  {
    exists i :: 0 <= i < |s.keys| && s.filled[i] && s.keys[i] >= SENTINEL
  }

  /** The test accepts every node that meets the invariant and has the right key count, and beyond those only nodes that
      hold an entry under the sentinel. */
  lemma AcceptsExactly(s: Slots, numKeys: nat)
    requires SameSize(s) && |s.keys| > 0
    ensures GapInv(s) && numKeys == |Entries(s)| <==> Accepts(s, numKeys) && !HoldsSentinel(s)
    ensures Accepts(s, numKeys) && (forall i | 0 <= i < |s.keys| :: s.keys[i] <= SENTINEL) ==>
              (!GapInv(s) <==> exists i :: 0 <= i < |s.keys| - 1 && s.filled[i] && s.keys[i] == SENTINEL)
  {
    hide Entries;
    if GapInv(s) { InvariantIsAccepted(s); }
    if Accepts(s, numKeys) && !HoldsSentinel(s) { PairsMakeInvariant(s); }
    if Accepts(s, numKeys) && HoldsSentinel(s) && forall i | 0 <= i < |s.keys| :: s.keys[i] <= SENTINEL {
      var i :| 0 <= i < |s.keys| && s.filled[i] && s.keys[i] >= SENTINEL;
      assert i < |s.keys| - 1;
    }
  }

  lemma InvariantIsAccepted(s: Slots)
    requires GapInv(s) && |s.keys| > 0
    ensures Accepts(s, |Entries(s)|) && !HoldsSentinel(s)
  {
    hide Entries;
    var n := |s.keys|;
    forall i | 0 <= i < n ensures if s.filled[i] then s.keys[i] < SENTINEL else s.keys[i] == NextKey(s.keys, i + 1) {
    }
  }

  /** `validate_structure`: the answer is true exactly for the accepted nodes with a cost that is a non-negative
      number. */
  method ValidateStructure(costIsValid: bool, keys: array<int>, payloads: array<int>, bitmap: array<Word>, numKeys: nat,
      ghost filled: seq<bool>)
      returns (ok: bool)
    requires keys.Length == payloads.Length == |filled| > 0 && Mirrors(bitmap[..], filled)
    ensures ok <==> costIsValid && Accepts(View(keys, payloads, filled), numKeys)
  {
    hide Mirrors, Live, Population, GapInv, Entries, Bit;
    if !costIsValid { return false; }
    var n := keys.Length;
    ghost var s := View(keys, payloads, filled);
    var i := 0;
    while i < n - 1
      invariant 0 <= i <= n - 1
      invariant forall j | 0 <= j < i :: PairLooksRight(s, j)
    {
      var ex := CheckExists(bitmap, i, filled);
      if keys[i] > keys[i + 1] || (keys[i] < keys[i + 1] && !ex) {
        assert !PairLooksRight(s, i);
        return false;
      }
      i := i + 1;
    }
    var last := CheckExists(bitmap, n - 1, filled);
    if keys[n - 1] == SENTINEL && last { return false; }
    if keys[n - 1] != SENTINEL && !last { return false; }
    var ones := 0;
    for w := 0 to bitmap.Length
      invariant ones == Ones(bitmap[..], w)
    {
      var c := CountOnes(bitmap[w]);
      ones := ones + c;
    }
    CountedEntries(bitmap[..], s);
    ok := ones == numKeys;
  }

  lemma CountedEntries(words: seq<Word>, s: Slots)
    requires SameSize(s) && Mirrors(words, s.filled)
    ensures Ones(words, |words|) == |Entries(s)|
  {
    hide Live, Bit, Population;
    BitmapCountsEntries(words, s, |words|);
    assert Within(64 * |words|, |s.keys|) == |s.keys|;
  }

  lemma PairsMakeInvariant(s: Slots)
    requires SameSize(s) && |s.keys| > 0
    requires forall j | 0 <= j < |s.keys| - 1 :: PairLooksRight(s, j)
    requires forall i | 0 <= i < |s.filled| && s.filled[i] :: s.keys[i] < SENTINEL
    requires s.filled[|s.keys| - 1] || s.keys[|s.keys| - 1] == SENTINEL
    ensures GapInv(s)
  {
    forall i | 0 <= i < |s.keys| - 1 ensures s.keys[i] <= s.keys[i + 1] { assert PairLooksRight(s, i); }
    SortedByNeighbours(s.keys);
    forall i | 0 <= i < |s.keys|
      ensures if s.filled[i] then s.keys[i] < SENTINEL else s.keys[i] == NextKey(s.keys, i + 1)
    {
      assert i < |s.keys| - 1 ==> PairLooksRight(s, i);
    }
  }

  /** The smallest accepted node that breaks the invariant: an entry under the sentinel, then a gap. */
  lemma SentinelEntryGoesUnnoticed()
    ensures var s := Slots([SENTINEL, SENTINEL], [0, 0], [true, false]);
            SameSize(s) && Accepts(s, 1) && !GapInv(s)
  {
    var s := Slots([SENTINEL, SENTINEL], [0, 0], [true, false]);
    assert Live(s, 0, 1) == [Entry(SENTINEL, 0)];
    assert s.filled[0] && s.keys[0] == SENTINEL;
    assert !GapsRepeat(s.keys, s.filled);
  }
}
