/** Searches over the bitmap of a data node, one 64-bit word at a time. */
module AlexBitmap {
  import opened AlexBits

  function WordsFor(capacity: nat): (n: nat) {
    (capacity + 63) / 64
  }

  /** The bitmap stores `filled`, and every bit past the last slot is clear. */
  ghost predicate Mirrors(words: seq<Word>, filled: seq<bool>) {
    && |words| == WordsFor(|filled|)
    && forall w: nat, b: nat | w < |words| && b < 64 ::
         Bit(words[w], b) == (64 * w + b < |filled| && filled[64 * w + b])
  }

  predicate NoneFilled(filled: seq<bool>, lo: int, hi: int) {
    forall j | 0 <= j < |filled| && lo <= j < hi :: !filled[j]
  }

  predicate AllFilled(filled: seq<bool>, lo: int, hi: int) {
    forall j | 0 <= j < |filled| && lo <= j < hi :: filled[j]
  }

  /** The first filled slot at or after `from`, or the capacity. */
  predicate NextIs(filled: seq<bool>, from: nat, r: nat) {
    && from <= r <= |filled|
    && NoneFilled(filled, from, r)
    && (r < |filled| ==> filled[r])
  }

  /** What a bit says about the slot it stands for. */
  lemma BitOf(words: seq<Word>, filled: seq<bool>, j: nat)
    requires Mirrors(words, filled) && j < |filled|
    ensures j / 64 < |words|
    ensures Bit(words[j / 64], j % 64) == filled[j]
  {
    hide Bit;
    assert 64 * (j / 64) + j % 64 == j;
  }

  /** `pending` holds the set bits of word `w` that stand for slots from `from` on. */
  ghost predicate Pending(words: seq<Word>, pending: Word, w: nat, from: nat) {
    && w < |words|
    && 64 * w <= from <= 64 * w + 64
    && forall b: nat | b < 64 :: Bit(pending, b) == (from <= 64 * w + b && Bit(words[w], b))
  }

  lemma WordExhausted(words: seq<Word>, filled: seq<bool>, w: nat, from: nat)
    requires Mirrors(words, filled) && Pending(words, NONE, w, from)
    ensures NoneFilled(filled, from, 64 * w + 64)
    ensures w + 1 == |words| ==> |filled| <= 64 * w + 64
    ensures w + 1 < |words| ==> 64 * w + 64 < |filled| && Pending(words, words[w + 1], w + 1, 64 * w + 64)
  {
    hide Bit;
    ZeroWord(NONE);
    forall j | 0 <= j < |filled| && from <= j < 64 * w + 64 ensures !filled[j] {
      BitOf(words, filled, j);
      assert j / 64 == w;
      assert !Bit(NONE, j % 64);
    }
  }

  lemma PendingFirst(words: seq<Word>, filled: seq<bool>, pending: Word, w: nat, from: nat, f: nat)
    requires Mirrors(words, filled) && Pending(words, pending, w, from) && Rightmost(pending, f)
    ensures NextIs(filled, from, 64 * w + f) && 64 * w + f < |filled|
    ensures Pending(words, RemoveRightmostOne(pending), w, 64 * w + f + 1)
  {
    hide Bit, RemoveRightmostOne;
    forall j | 0 <= j < |filled| && from <= j < 64 * w + f ensures !filled[j] {
      BitOf(words, filled, j);
      assert j / 64 == w;
      assert !Bit(pending, j % 64);
    }
    forall b: nat | b < 64
      ensures Bit(RemoveRightmostOne(pending), b) == (64 * w + f + 1 <= 64 * w + b && Bit(words[w], b))
    {
      RemoveBits(pending, f, b);
      assert b < f ==> !Bit(pending, b);
    }
  }

  /** The loop shared by `get_next_filled_position` and the iterator: on to the next word with a set bit. */
  method SkipEmptyWords(bitmap: array<Word>, w0: nat, pending0: Word, ghost filled: seq<bool>, ghost from: nat)
      returns (w: nat, pending: Word, ghost start: nat)
    requires Mirrors(bitmap[..], filled)
    requires Pending(bitmap[..], pending0, w0, from)
    ensures w >= bitmap.Length ==> NextIs(filled, from, |filled|) || from > |filled|
    ensures w >= bitmap.Length ==> pending == NONE
    ensures w < bitmap.Length ==> from <= start && NoneFilled(filled, from, start)
    ensures w < bitmap.Length ==> pending != NONE && Pending(bitmap[..], pending, w, start)
  {
    hide Bit, Mirrors;
    w, pending, start := w0, pending0, from;
    ghost var words := bitmap[..];
    while pending == NONE
      invariant words == bitmap[..] && from <= start
      invariant w < bitmap.Length && Pending(words, pending, w, start)
      invariant NoneFilled(filled, from, start)
      decreases bitmap.Length - w
    {
      WordExhausted(words, filled, w, start);
      w := w + 1;
      if w >= bitmap.Length { return; }
      pending := bitmap[w];
      start := 64 * w;
    }
  }

  /** `get_next_filled_position`: the first filled slot at (or, if exclusive, after) `pos`. */
  method NextFilledPosition(bitmap: array<Word>, capacity: nat, pos0: nat, exclusive: bool, ghost filled: seq<bool>)
      returns (r: nat)
    requires Mirrors(bitmap[..], filled) && |filled| == capacity
    requires var pos := if exclusive then pos0 + 1 else pos0;
      pos <= capacity && (exclusive || pos < 64 * bitmap.Length)
    ensures NextIs(filled, if exclusive then pos0 + 1 else pos0, r)
  {
    hide Bit, Mirrors;
    var pos := pos0;
    if exclusive {
      pos := pos + 1;
      if pos == capacity { return capacity; }
    }
    var word := pos / 64;
    if pos < capacity { BitOf(bitmap[..], filled, pos); }
    var pending := KeepFrom(bitmap[word], pos - 64 * word);
    ghost var start;
    word, pending, start := SkipEmptyWords(bitmap, word, pending, filled, pos);
    if word >= bitmap.Length { return capacity; }
    ghost var f := FirstOf(pending);
    ExtractIsSingle(pending, f);
    PendingFirst(bitmap[..], filled, pending, word, start, f);
    r := GetOffset(word, ExtractRightmostOne(pending), f);
  }

  /** The rightmost one of a word that has one. */
  ghost function FirstOf(w: Word): (f: nat)
    requires w != NONE
    ensures Rightmost(w, f)
  {
    hide Bit;
    ZeroWord(w);
    FirstFrom(w, 0)
  }

  ghost function FirstFrom(w: Word, i: nat): (f: nat)
    requires i <= 64 && !Clear(w) && forall j: nat | j < i :: !Bit(w, j)
    ensures Rightmost(w, f)
    decreases 64 - i
  {
    hide Bit;
    if i < 64 && !Bit(w, i) then FirstFrom(w, i + 1) else i
  }

  /** The forward iterator over the filled slots of a node. */
  class SlotIterator {
    const bitmap: array<Word>
    var curIdx: int
    var word: nat
    var data: Word
    ghost var from: nat

    /** Every filled slot before `from` has been passed. */
    ghost predicate Valid(filled: seq<bool>)
      reads this, bitmap
    {
      && Mirrors(bitmap[..], filled)
      && (word < bitmap.Length ==> Pending(bitmap[..], data, word, from))
      && (word >= bitmap.Length ==> data == NONE && from >= |filled|)
    }

    constructor (bitmap: array<Word>, idx: nat, ghost filled: seq<bool>)
      requires Mirrors(bitmap[..], filled) && idx < |filled|
      ensures Valid(filled) && this.bitmap == bitmap
      ensures Yields(filled, idx)
    {
      hide Bit, Mirrors;
      this.bitmap := bitmap;
      curIdx := idx;
      word := idx / 64;
      BitOf(bitmap[..], filled, idx);
      data := KeepFrom(bitmap[idx / 64], idx - 64 * (idx / 64));
      from := idx;
      new;
      Advance(filled);
    }

    /** The current slot is the first filled one at or after `begin`, or -1 when there is none. */
    ghost predicate Yields(filled: seq<bool>, begin: nat)
      reads this
    {
      if curIdx == -1 then NoneFilled(filled, begin, |filled|) && from >= |filled|
      else 0 <= curIdx < |filled| && NextIs(filled, begin, curIdx) && from == curIdx + 1
    }

    /** `operator++`. */
    method Advance(ghost filled: seq<bool>)
      requires Valid(filled)
      modifies this
      ensures Valid(filled)
      ensures Yields(filled, old(from))
    {
      hide Bit, Mirrors, RemoveRightmostOne, Pending;
      if word >= bitmap.Length {
        word := word + 1;
        curIdx := -1;
        return;
      }
      ghost var start;
      word, data, start := SkipEmptyWords(bitmap, word, data, filled, from);
      if word >= bitmap.Length {
        curIdx := -1;
        from := if from > |filled| then from else |filled|;
        return;
      }
      ghost var f := FirstOf(data);
      ExtractIsSingle(data, f);
      PendingFirst(bitmap[..], filled, data, word, start, f);
      curIdx := GetOffset(word, ExtractRightmostOne(data), f);
      data := RemoveRightmostOne(data);
      from := curIdx + 1;
    }
  }
}
