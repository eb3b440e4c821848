/** The word-level search for the gap closest to a slot. */
module AlexGaps {
  import opened AlexBits
  import opened AlexBitmap

  ghost predicate IsGap(filled: seq<bool>, j: int) {
    0 <= j < |filled| && !filled[j]
  }

  /** `r` is a gap and no gap is closer to `p`; or there is no gap and `r` is -1. */
  ghost predicate Closest(filled: seq<bool>, p: int, r: int) {
    if r == -1 then AllFilled(filled, 0, |filled|)
    else IsGap(filled, r) && if r <= p then AllFilled(filled, r + 1, 2 * p - r) else AllFilled(filled, 2 * p - r + 1, r)
  }

  /** Word `w` has no gap. */
  lemma WordIsFull(words: seq<Word>, filled: seq<bool>, w: nat)
    requires Mirrors(words, filled) && w < |words| && words[w] == ALL_ONES
    ensures AllFilled(filled, 64 * w, 64 * w + 64) && 64 * w + 64 <= |filled|
  {
    hide Bit;
    FullWord(words[w]);
    assert Bit(words[w], 63);
    forall j | 0 <= j < |filled| && 64 * w <= j < 64 * w + 64 ensures filled[j] {
      assert Bit(words[w], j - 64 * w);
    }
  }

  /** The slot of the rightmost zero of a word: the first gap of the word, or past the capacity. */
  method FirstGapOf(bitmap: array<Word>, w: nat, ghost filled: seq<bool>) returns (g: nat)
    requires Mirrors(bitmap[..], filled) && w < bitmap.Length
    ensures 64 * w <= g <= 64 * w + 64 && AllFilled(filled, 64 * w, g)
    ensures bitmap[w] != ALL_ONES <==> g < 64 * w + 64
    ensures g < 64 * w + 64 && g < |filled| ==> IsGap(filled, g)
    ensures g < 64 * w + 64 && g >= |filled| ==> w + 1 == bitmap.Length
  {
    hide Bit, Not;
    var t := TrailingZeros(Not(bitmap[w]));
    NotZero(bitmap[w]);
    g := 64 * w + t;
    forall j | 0 <= j < |filled| && 64 * w <= j < g ensures filled[j] {
      NotBits(bitmap[w], j - 64 * w);
      assert Bit(bitmap[..][w], j - 64 * w);
    }
    if t < 64 {
      NotBits(bitmap[w], t);
      assert !Bit(bitmap[..][w], t);
    }
  }

  /** The slot of the leftmost zero of a word, when the word has no slot past the capacity. */
  method LastGapOf(bitmap: array<Word>, w: nat, ghost filled: seq<bool>) returns (g: int)
    requires Mirrors(bitmap[..], filled) && w + 1 < bitmap.Length
    ensures 64 * w - 1 <= g < 64 * w + 64 && AllFilled(filled, g + 1, 64 * w + 64)
    ensures bitmap[w] != ALL_ONES <==> 64 * w <= g
    ensures 64 * w <= g ==> IsGap(filled, g)
  {
    hide Bit, Not;
    var l := LeadingZeros(Not(bitmap[w]));
    NotZero(bitmap[w]);
    g := 64 * w + 63 - l;
    forall j | 0 <= j < |filled| && g + 1 <= j < 64 * w + 64 ensures filled[j] {
      NotBits(bitmap[w], j - 64 * w);
      assert Bit(bitmap[..][w], j - 64 * w);
    }
    if l < 64 {
      NotBits(bitmap[w], 63 - l);
      assert !Bit(bitmap[..][w], 63 - l);
    }
  }

  /** With only filled slots between a gap `l` on the left and `r` on the right, the nearer one wins. */
  lemma NearerOfTwo(filled: seq<bool>, p: int, l: int, r: int)
    requires IsGap(filled, l) && l <= p < r && AllFilled(filled, l + 1, r)
    requires r >= |filled| || IsGap(filled, r)
    ensures Closest(filled, p, if p - l <= r - p || r >= |filled| then l else r)
  {
  }

  lemma OnlyLeft(filled: seq<bool>, p: int, l: int, hi: int)
    requires IsGap(filled, l) && l <= p && AllFilled(filled, l + 1, hi) && (2 * p - l <= hi || |filled| <= hi)
    ensures Closest(filled, p, l)
  {
  }

  lemma OnlyRight(filled: seq<bool>, p: int, r: int, lo: int)
    requires IsGap(filled, r) && p < r && AllFilled(filled, lo, r) && (lo <= 2 * p - r + 1 || lo <= 0)
    ensures Closest(filled, p, r)
  {
  }

  lemma Joined(filled: seq<bool>, lo: int, mid: int, hi: int)
    requires AllFilled(filled, lo, mid) && AllFilled(filled, mid, hi)
    ensures AllFilled(filled, lo, hi)
  {
  }

  /** Only the left word at distance `d` has a gap: the word after the right one may still be nearer. */
  method LeftWordOnly(bitmap: array<Word>, capacity: nat, pos: nat, word: nat, d: nat, ghost filled: seq<bool>)
      returns (gap: int)
    requires Mirrors(bitmap[..], filled) && |filled| == capacity
    requires pos < capacity && 64 * word <= pos < 64 * word + 64
    requires 1 <= d <= word && word + d < bitmap.Length
    requires AllFilled(filled, 64 * (word - d + 1), 64 * (word + d))
    requires bitmap[word - d] != ALL_ONES && bitmap[word + d] == ALL_ONES
    ensures gap >= 0 && Closest(filled, pos, gap)
  {
    hide Bit, Closest, AllFilled, IsGap, Mirrors;
    WordCount(bitmap[..], filled);
    var bit := pos - 64 * word;
    var l := LastGapOf(bitmap, word - d, filled);
    WordIsFull(bitmap[..], filled, word + d);
    Joined(filled, l + 1, 64 * (word - d + 1), 64 * (word + d));
    Joined(filled, l + 1, 64 * (word + d), 64 * (word + d + 1));
    if bit > 32 && word + d + 1 < bitmap.Length && bitmap[word + d + 1] != ALL_ONES {
      var r := FirstGapOf(bitmap, word + d + 1, filled);
      Joined(filled, l + 1, 64 * (word + d + 1), r);
      NearerOfTwo(filled, pos, l, r);
      return if pos - l <= r - pos || r >= capacity then l else r;
    }
    if bit > 32 && word + d + 1 < bitmap.Length {
      WordIsFull(bitmap[..], filled, word + d + 1);
      Joined(filled, l + 1, 64 * (word + d + 1), 64 * (word + d + 2));
      OnlyLeft(filled, pos, l, 64 * (word + d + 2));
    } else {
      OnlyLeft(filled, pos, l, 64 * (word + d + 1));
    }
    return l;
  }

  /** Only the right word at distance `d` has a gap: the word before the left one may still be nearer. */
  method RightWordOnly(bitmap: array<Word>, capacity: nat, pos: nat, word: nat, d: nat, ghost filled: seq<bool>)
      returns (gap: int)
    requires Mirrors(bitmap[..], filled) && |filled| == capacity
    requires pos < capacity && 64 * word <= pos < 64 * word + 64
    requires 1 <= d <= word && word + d < bitmap.Length
    requires AllFilled(filled, 64 * (word - d + 1), 64 * (word + d))
    requires bitmap[word - d] == ALL_ONES && bitmap[word + d] != ALL_ONES
    ensures gap != -2 ==> gap >= 0 && Closest(filled, pos, gap)
    ensures gap == -2 ==> AllFilled(filled, 64 * (word - d), 64 * (word + d + 1))
  {
    hide Bit, Closest, AllFilled, IsGap, Mirrors;
    var bit := pos - 64 * word;
    var r := FirstGapOf(bitmap, word + d, filled);
    WordIsFull(bitmap[..], filled, word - d);
    Joined(filled, 64 * (word - d), 64 * (word - d + 1), 64 * (word + d));
    Joined(filled, 64 * (word - d), 64 * (word + d), r);
    if r >= capacity {
      PastTheEnd(filled, 64 * (word - d), r, 64 * (word + d + 1));
      return -2;
    }
    if bit < 32 && word - d > 0 && bitmap[word - d - 1] != ALL_ONES {
      var l := LastGapOf(bitmap, word - d - 1, filled);
      Joined(filled, l + 1, 64 * (word - d), r);
      NearerOfTwo(filled, pos, l, r);
      return if pos - l <= r - pos || r >= capacity then l else r;
    }
    if bit < 32 && word - d > 0 {
      WordIsFull(bitmap[..], filled, word - d - 1);
      Joined(filled, 64 * (word - d - 1), 64 * (word - d), r);
      OnlyRight(filled, pos, r, 64 * (word - d - 1));
    } else {
      OnlyRight(filled, pos, r, 64 * (word - d));
    }
    return r;
  }

  /** One distance of the search in both directions; -2 when neither word has a usable gap. */
  method BothSides(bitmap: array<Word>, capacity: nat, pos: nat, word: nat, d: nat, ghost filled: seq<bool>)
      returns (gap: int)
    requires Mirrors(bitmap[..], filled) && |filled| == capacity
    requires pos < capacity && 64 * word <= pos < 64 * word + 64
    requires 1 <= d <= word && word + d < bitmap.Length
    requires AllFilled(filled, 64 * (word - d + 1), 64 * (word + d))
    ensures gap != -2 ==> gap >= 0 && Closest(filled, pos, gap)
    ensures gap == -2 ==> AllFilled(filled, 64 * (word - d), 64 * (word + d + 1))
  {
    hide Bit, Closest, AllFilled, IsGap, Mirrors;
    var leftWord, rightWord := bitmap[word - d], bitmap[word + d];
    if leftWord != ALL_ONES && rightWord != ALL_ONES {
      var l := LastGapOf(bitmap, word - d, filled);
      var r := FirstGapOf(bitmap, word + d, filled);
      Joined(filled, l + 1, 64 * (word - d + 1), 64 * (word + d));
      Joined(filled, l + 1, 64 * (word + d), r);
      NearerOfTwo(filled, pos, l, r);
      return if pos - l <= r - pos || r >= capacity then l else r;
    } else if leftWord != ALL_ONES {
      gap := LeftWordOnly(bitmap, capacity, pos, word, d, filled);
      return;
    } else if rightWord != ALL_ONES {
      gap := RightWordOnly(bitmap, capacity, pos, word, d, filled);
      return;
    }
    WordIsFull(bitmap[..], filled, word - d);
    WordIsFull(bitmap[..], filled, word + d);
    Joined(filled, 64 * (word - d), 64 * (word - d + 1), 64 * (word + d));
    Joined(filled, 64 * (word - d), 64 * (word + d), 64 * (word + d + 1));
    return -2;
  }

  lemma PastTheEnd(filled: seq<bool>, lo: int, r: int, hi: int)
    requires AllFilled(filled, lo, r) && r >= |filled|
    ensures AllFilled(filled, lo, hi)
  {
  }

  /** The search in the words around a word without gaps. */
  method SearchAround(bitmap: array<Word>, capacity: nat, pos: nat, word: nat, ghost filled: seq<bool>)
      returns (gap: int)
    requires Mirrors(bitmap[..], filled) && |filled| == capacity
    requires pos < capacity && word == pos / 64
    requires AllFilled(filled, 64 * word, 64 * word + 64)
    ensures Closest(filled, pos, gap)
  {
    hide Bit, Closest, AllFilled, IsGap, Mirrors;
    WordCount(bitmap[..], filled);
    var last := (capacity - 1) / 64;
    var d := 1;
    while d <= word && d <= last - word
      invariant 1 <= d
      invariant d <= word + 1 && d <= last - word + 1
      invariant AllFilled(filled, 64 * (word - d + 1), 64 * (word + d))
    {
      gap := BothSides(bitmap, capacity, pos, word, d, filled);
      if gap != -2 { return; }
      d := d + 1;
    }
    if word > last - word {
      PastTheEnd(filled, 64 * (word - d + 1), 64 * (word + d), capacity);
      var i := word - d;
      while i >= 0
        invariant -1 <= i < word
        invariant AllFilled(filled, 64 * (i + 1), capacity)
      {
        if bitmap[i] != ALL_ONES {
          gap := LastGapOf(bitmap, i, filled);
          Joined(filled, gap + 1, 64 * (i + 1), capacity);
          OnlyLeft(filled, pos, gap, capacity);
          return;
        }
        WordIsFull(bitmap[..], filled, i);
        Joined(filled, 64 * i, 64 * (i + 1), capacity);
        i := i - 1;
      }
    } else {
      BeforeTheStart(filled, 64 * (word - d + 1), 64 * (word + d));
      var i := word + d;
      while i <= last
        invariant word < i <= last + 1
        invariant AllFilled(filled, 0, 64 * i)
      {
        if bitmap[i] != ALL_ONES {
          var r := FirstGapOf(bitmap, i, filled);
          Joined(filled, 0, 64 * i, r);
          if r >= capacity {
            NoGap(filled, r);
            return -1;
          }
          OnlyRight(filled, pos, r, 0);
          return r;
        }
        WordIsFull(bitmap[..], filled, i);
        Joined(filled, 0, 64 * i, 64 * (i + 1));
        i := i + 1;
      }
      PastTheEnd(filled, 0, 64 * i, capacity);
    }
    NoGap(filled, capacity);
    return -1;
  }

  lemma NoGap(filled: seq<bool>, hi: int)
    requires AllFilled(filled, 0, hi) && |filled| <= hi
    ensures Closest(filled, 0, -1)
    ensures forall p :: Closest(filled, p, -1)
  {
  }

  lemma BeforeTheStart(filled: seq<bool>, lo: int, hi: int)
    requires AllFilled(filled, lo, hi) && lo <= 0
    ensures AllFilled(filled, 0, hi)
  {
  }

  lemma WordCount(words: seq<Word>, filled: seq<bool>)
    requires Mirrors(words, filled) && |filled| > 0
    ensures |words| == (|filled| - 1) / 64 + 1
  {
    hide Bit;
  }

  lemma {:induction false} PopulationFull(w: Word, n: nat, m: nat)
    requires n <= m <= 64
    requires forall b: nat | n <= b < m :: !Bit(w, b)
    ensures Population(w, m) <= n
    ensures Population(w, m) == n <==> StartsSet(w, n)
    decreases m
  {
    hide Half, Odd;
    if m > n {
      PopulationFull(w, n, m - 1);
    } else if n > 0 {
      PopulationFull(w, n - 1, m - 1);
      assert StartsSet(w, n) == (StartsSet(w, n - 1) && Bit(w, n - 1));
    }
  }

  predicate StartsSet(w: Word, n: nat) {
    forall b: nat | b < n :: Bit(w, b)
  }

  /** The block test: the word of `pos` is all ones, or it is the last one and counts as many ones as it has slots. */
  method BlockIsFull(bitmap: array<Word>, capacity: nat, word: nat, ghost filled: seq<bool>) returns (full: bool)
    requires Mirrors(bitmap[..], filled) && |filled| == capacity && word < bitmap.Length
    ensures full <==> AllFilled(filled, 64 * word, 64 * word + 64)
  {
    hide Bit, Population;
    if bitmap[word] == ALL_ONES {
      WordIsFull(bitmap[..], filled, word);
      return true;
    }
    WordCount(bitmap[..], filled);
    if word < bitmap.Length - 1 {
      var g := FirstGapOf(bitmap, word, filled);
      return false;
    }
    var ones := CountOnes(bitmap[word]);
    var slots := capacity - 64 * (bitmap.Length - 1);
    assert forall b: nat | b < 64 :: Bit(bitmap[..][word], b) == (b < slots && filled[64 * word + b]);
    PopulationFull(bitmap[word], slots, 64);
    full := ones == slots;
    if AllFilled(filled, 64 * word, 64 * word + 64) {
      assert forall b: nat | b < slots :: Bit(bitmap[..][word], b);
    }
    if full {
      forall j | 0 <= j < |filled| && 64 * word <= j < 64 * word + 64 ensures filled[j] {
        assert Bit(bitmap[..][word], j - 64 * word);
      }
    }
  }

  /** The nearest gap at or after `pos` in its word or the next; past the capacity or the next word otherwise. */
  method GapToTheRight(bitmap: array<Word>, capacity: nat, pos: nat, word: nat, ghost filled: seq<bool>)
      returns (distance: nat)
    requires Mirrors(bitmap[..], filled) && |filled| == capacity
    requires pos < capacity && word == pos / 64
    ensures AllFilled(filled, pos, pos + distance)
    ensures pos + distance < capacity && pos + distance < 64 * word + 128 ==> IsGap(filled, pos + distance)
  {
    hide Bit;
    BitOf(bitmap[..], filled, pos);
    var bit := pos - 64 * word;
    var rightGaps := GapsFrom(bitmap[word], bit);
    if rightGaps != NONE {
      var t := TrailingZeros(rightGaps);
      assert forall b: nat | bit <= b < t :: Bit(bitmap[..][word], b);
      assert !Bit(bitmap[..][word], t);
      forall j | 0 <= j < |filled| && pos <= j < 64 * word + t ensures filled[j] {
        assert Bit(bitmap[..][word], j - 64 * word);
      }
      return t - bit;
    }
    ZeroWord(rightGaps);
    forall j | 0 <= j < |filled| && pos <= j < 64 * word + 64 ensures filled[j] {
      assert !Bit(rightGaps, j - 64 * word);
      assert Bit(bitmap[..][word], j - 64 * word);
    }
    if word + 1 < bitmap.Length {
      var r := FirstGapOf(bitmap, word + 1, filled);
      return r - pos;
    }
    WordCount(bitmap[..], filled);
    return 64;
  }

  /** The nearest gap before `pos` in its word or the previous one; further than 63 slots otherwise. */
  method GapToTheLeft(bitmap: array<Word>, capacity: nat, pos: nat, word: nat, ghost filled: seq<bool>)
      returns (distance: nat)
    requires Mirrors(bitmap[..], filled) && |filled| == capacity
    requires pos < capacity && word == pos / 64
    ensures distance >= 1 && AllFilled(filled, pos - distance + 1, pos)
    ensures 0 <= pos - distance && 64 * word - 64 <= pos - distance ==> IsGap(filled, pos - distance)
    ensures pos < distance ==> distance >= 64
  {
    hide Bit;
    BitOf(bitmap[..], filled, pos);
    var bit := pos - 64 * word;
    var leftGaps := GapsBelow(bitmap[word], bit);
    if leftGaps != NONE {
      var l := LeadingZeros(leftGaps);
      assert forall b: nat | 64 - l <= b < bit :: Bit(bitmap[..][word], b);
      assert !Bit(bitmap[..][word], 63 - l) && 63 - l < bit;
      forall j | 0 <= j < |filled| && 64 * word + 64 - l <= j < pos ensures filled[j] {
        assert Bit(bitmap[..][word], j - 64 * word);
      }
      return bit - (63 - l);
    }
    ZeroWord(leftGaps);
    forall j | 0 <= j < |filled| && 64 * word <= j < pos ensures filled[j] {
      assert !Bit(leftGaps, j - 64 * word);
      assert Bit(bitmap[..][word], j - 64 * word);
    }
    if word > 0 {
      var l := LastGapOf(bitmap, word - 1, filled);
      return pos - l;
    }
    return 64;
  }

  lemma DecideBlock(filled: seq<bool>, pos: nat, word: nat, left: nat, right: nat, j: int)
    requires pos < |filled| && word == pos / 64
    requires IsGap(filled, j) && 64 * word <= j < 64 * word + 64
    requires AllFilled(filled, pos, pos + right)
    requires pos + right < |filled| && pos + right < 64 * word + 128 ==> IsGap(filled, pos + right)
    requires left >= 1 && AllFilled(filled, pos - left + 1, pos)
    requires 0 <= pos - left && 64 * word - 64 <= pos - left ==> IsGap(filled, pos - left)
    requires pos < left ==> left >= 64
    ensures var r := if right < left && pos + right < |filled| then pos + right else pos - left;
              r >= 0 && Closest(filled, pos, r)
  {
    if j >= pos {
      assert pos + right <= j;
    } else {
      assert j <= pos - left;
    }
  }

  /** The search inside a word that has a gap, and in its two neighbours. */
  method SearchBlock(bitmap: array<Word>, capacity: nat, pos: nat, word: nat, ghost filled: seq<bool>)
      returns (gap: int)
    requires Mirrors(bitmap[..], filled) && |filled| == capacity
    requires pos < capacity && word == pos / 64
    requires !AllFilled(filled, 64 * word, 64 * word + 64)
    ensures gap >= 0 && Closest(filled, pos, gap)
  {
    hide Bit, Closest, Mirrors;
    var right := GapToTheRight(bitmap, capacity, pos, word, filled);
    var left := GapToTheLeft(bitmap, capacity, pos, word, filled);
    ghost var j :| 0 <= j < |filled| && 64 * word <= j < 64 * word + 64 && !filled[j];
    DecideBlock(filled, pos, word, left, right, j);
    gap := if right < left && pos + right < capacity then pos + right else pos - left;
  }

  /** `closest_gap`: the gap nearest to the clamped position, or -1 exactly when every slot is filled. */
  method ClosestGap(bitmap: array<Word>, capacity: nat, pos0: nat, ghost filled: seq<bool>) returns (gap: int)
    requires Mirrors(bitmap[..], filled) && |filled| == capacity && capacity > 0
    ensures Closest(filled, if pos0 < capacity then pos0 else capacity - 1, gap)
    ensures gap == -1 <==> AllFilled(filled, 0, capacity)
  {
    hide Bit, Mirrors;
    var pos := if pos0 < capacity then pos0 else capacity - 1;
    var word := pos / 64;
    WordCount(bitmap[..], filled);
    var full := BlockIsFull(bitmap, capacity, word, filled);
    if full {
      gap := SearchAround(bitmap, capacity, pos, word, filled);
    } else {
      gap := SearchBlock(bitmap, capacity, pos, word, filled);
    }
  }
}
