/** Model-driven placement of an ordered list of entries in fresh slots. */
module AlexRebuild {
  import opened AlexBits
  import opened AlexBitmap
  import opened AlexSlots
  import opened AlexEdits
  import opened AlexPlacement

  /** Entries a node can hold: in key order, all below the sentinel. */
  ghost predicate Loadable(es: seq<Entry>) {
    Ordered(es) && forall i | 0 <= i < |es| :: es[i].key < SENTINEL
  }

  /** Among the first `m` slots, every gap repeats the key to its right; the last one is no gap. */
  ghost predicate PrefixGaps(keys: seq<int>, filled: seq<bool>, m: nat)
    requires m <= |keys| == |filled|
  {
    forall i | 0 <= i < m :: if filled[i] then keys[i] < SENTINEL else i + 1 < m && keys[i] == NextKey(keys, i + 1)
  }

  ghost predicate PrefixSorted(keys: seq<int>, m: nat)
    requires m <= |keys|
  {
    forall i, j | 0 <= i < j < m :: keys[i] <= keys[j]
  }

  /** The key of the last slot used is the key of the last entry placed. */
  ghost predicate EndsWith(keys: seq<int>, m: nat, placed: seq<Entry>)
    requires m <= |keys|
  {
    m > 0 ==> |placed| > 0 && keys[m - 1] == placed[|placed| - 1].key
  }

  /** The first `m` slots hold `placed`, the last of them in slot `m - 1`; the rest is still empty. */
  ghost predicate Building(s: Slots, m: nat, placed: seq<Entry>) {
    && SameSize(s) && m <= |s.keys|
    && PrefixGaps(s.keys, s.filled, m) && PrefixSorted(s.keys, m)
    && NoneFilled(s.filled, m, |s.filled|)
    && Live(s, 0, m) == placed
    && EndsWith(s.keys, m, placed)
  }

  lemma StartBuilding(s: Slots)
    requires SameSize(s) && NoneFilled(s.filled, 0, |s.filled|)
    ensures Building(s, 0, [])
  {
  }

  /** Writing keys past the part that is done changes nothing there. */
  lemma StillBuilding(s: Slots, t: Slots, m: nat, placed: seq<Entry>)
    requires Building(s, m, placed) && SameSize(t) && |t.keys| == |s.keys|
    requires t.filled == s.filled && t.payloads == s.payloads && forall i | 0 <= i < m :: t.keys[i] == s.keys[i]
    ensures Building(t, m, placed)
  {
    hide Live, PrefixGaps, PrefixSorted;
    PrefixLive(s, t, m);
    SamePrefix(s.keys, t.keys, s.filled, m);
  }

  lemma PrefixLive(s: Slots, t: Slots, m: nat)
    requires SameSize(s) && SameSize(t) && m <= |s.keys| == |t.keys|
    requires t.filled == s.filled && t.payloads == s.payloads && forall i | 0 <= i < m :: t.keys[i] == s.keys[i]
    ensures Live(t, 0, m) == Live(s, 0, m)
  {
    hide Live;
    LiveShift(s, t, 0, m, 0);
  }

  lemma SamePrefix(keys: seq<int>, keys': seq<int>, filled: seq<bool>, m: nat)
    requires m <= |keys| == |keys'| == |filled| && PrefixGaps(keys, filled, m) && PrefixSorted(keys, m)
    requires forall i | 0 <= i < m :: keys'[i] == keys[i]
    ensures PrefixGaps(keys', filled, m) && PrefixSorted(keys', m)
  {
  }

  /** Storing the next entry in slot `at`, behind gaps that already carry its key. */
  lemma StoreKeeps(s: Slots, t: Slots, m: nat, at: nat, placed: seq<Entry>, e: Entry)
    requires Building(s, m, placed) && m <= at < |s.keys|
    requires forall i | m <= i < at :: s.keys[i] == e.key
    requires e.key < SENTINEL && (|placed| > 0 ==> placed[|placed| - 1].key <= e.key)
    requires t == Slots(s.keys[at := e.key], s.payloads[at := e.payload], s.filled[at := true])
    ensures Building(t, at + 1, placed + [e])
  {
    hide Live, PrefixGaps, PrefixSorted;
    StoredEntries(s, t, m, at, e);
    LongerPrefix(s.keys, t.keys, s.filled, t.filled, m, at, e.key);
  }

  lemma StoredEntries(s: Slots, t: Slots, m: nat, at: nat, e: Entry)
    requires SameSize(s) && SameSize(t) && m <= at < |s.keys| && NoneFilled(s.filled, m, |s.filled|)
    requires t == Slots(s.keys[at := e.key], s.payloads[at := e.payload], s.filled[at := true])
    ensures Live(t, 0, at + 1) == Live(s, 0, m) + [e]
  {
    hide Live;
    LiveShift(s, t, 0, m, 0);
    LiveNone(t, m, at);
    LiveSplit(t, 0, m, at);
    LiveOne(t, at);
    LiveSplit(t, 0, at, at + 1);
    assert Live(s, 0, m) + [] + [e] == Live(s, 0, m) + [e];
  }

  lemma LongerPrefix(keys: seq<int>, keys': seq<int>, filled: seq<bool>, filled': seq<bool>, m: nat, at: nat, k: int)
    requires m <= at < |keys| == |filled| && PrefixGaps(keys, filled, m) && PrefixSorted(keys, m)
    requires NoneFilled(filled, m, |filled|) && k < SENTINEL
    requires m > 0 ==> keys[m - 1] <= k
    requires keys' == keys[at := k] && filled' == filled[at := true]
    requires forall i | m <= i < at :: keys[i] == k
    ensures PrefixGaps(keys', filled', at + 1) && PrefixSorted(keys', at + 1)
  {
    forall i, j | 0 <= i < j < at + 1 ensures keys'[i] <= keys'[j] {
      assert i < m <= j ==> i == m - 1 || keys[i] <= keys[m - 1];
    }
  }

  /** Sentinels after the last entry complete a node. */
  lemma FinishBuilding(s: Slots, t: Slots, m: nat, placed: seq<Entry>)
    requires Building(s, m, placed) && SameSize(t) && |t.keys| == |s.keys|
    requires t.filled == s.filled && t.payloads == s.payloads
    requires forall i | 0 <= i < |s.keys| :: t.keys[i] == if i < m then s.keys[i] else SENTINEL
    ensures GapInv(t) && Entries(t) == placed
  {
    hide Live, PrefixGaps, PrefixSorted, Entries;
    WholePrefix(s.keys, t.keys, s.filled, m);
    PrefixEntries(s, t, m);
  }

  lemma PrefixEntries(s: Slots, t: Slots, m: nat)
    requires SameSize(s) && SameSize(t) && m <= |s.keys| == |t.keys| && NoneFilled(s.filled, m, |s.filled|)
    requires t.filled == s.filled && t.payloads == s.payloads && forall i | 0 <= i < m :: t.keys[i] == s.keys[i]
    ensures Entries(t) == Live(s, 0, m)
  {
    hide Live;
    PrefixLive(s, t, m);
    LiveNone(t, m, |t.keys|);
    LiveSplit(t, 0, m, |t.keys|);
    assert Live(s, 0, m) + [] == Live(s, 0, m);
  }

  lemma WholePrefix(keys: seq<int>, keys': seq<int>, filled: seq<bool>, m: nat)
    requires m <= |keys| == |keys'| == |filled| && PrefixGaps(keys, filled, m) && PrefixSorted(keys, m)
    requires NoneFilled(filled, m, |filled|)
    requires forall i | 0 <= i < |keys| :: keys'[i] == if i < m then keys[i] else SENTINEL
    ensures Sorted(keys') && GapsRepeat(keys', filled)
  {
    forall i, j | 0 <= i < j < |keys'| ensures keys'[i] <= keys'[j] {
      if i < m { BelowSentinel(keys, filled, m, i); }
    }
  }

  lemma {:induction false} BelowSentinel(keys: seq<int>, filled: seq<bool>, m: nat, i: nat)
    requires i < m <= |keys| == |filled| && PrefixGaps(keys, filled, m)
    ensures keys[i] < SENTINEL
    decreases m - i
  {
    if !filled[i] { BelowSentinel(keys, filled, m, i + 1); }
  }

  method FillKeys(keys: array<int>, lo: nat, hi: nat, key: int)
    requires lo <= hi <= keys.Length
    modifies keys
    ensures forall i | 0 <= i < keys.Length :: keys[i] == if lo <= i < hi then key else old(keys[i])
  {
    for j := lo to hi
      invariant forall i | 0 <= i < keys.Length :: keys[i] == if lo <= i < j then key else old(keys[i])
    {
      keys[j] := key;
    }
  }

  /** The gaps before the next entry take its key. */
  method LeadIn(keys: array<int>, payloads: array<int>, m: nat, at: nat, key: int, ghost filled: seq<bool>,
      ghost placed: seq<Entry>)
    requires keys != payloads && m <= at <= keys.Length
    requires Building(View(keys, payloads, filled), m, placed)
    modifies keys
    ensures Building(View(keys, payloads, filled), m, placed)
    ensures forall i | m <= i < at :: keys[i] == key
  {
    hide Building;
    ghost var s := View(keys, payloads, filled);
    BuildingShape(s, m, placed);
    FillKeys(keys, m, at, key);
    StillBuilding(s, View(keys, payloads, filled), m, placed);
  }

  lemma BuildingShape(s: Slots, m: nat, placed: seq<Entry>)
    requires Building(s, m, placed)
    ensures SameSize(s) && m <= |s.keys| && |placed| <= m
  {
  }

  /** Key, payload and bit of the next entry. */
  method Store(keys: array<int>, payloads: array<int>, bitmap: array<Word>, ghost m: nat, at: nat, e: Entry,
      ghost filled: seq<bool>,
               ghost placed: seq<Entry>)
      returns (ghost now: seq<bool>)
    requires Distinct(keys, payloads, bitmap) && m <= at < keys.Length == |filled|
    requires Mirrors(bitmap[..], filled) && Building(View(keys, payloads, filled), m, placed)
    requires forall i | m <= i < at :: keys[i] == e.key
    requires e.key < SENTINEL && (|placed| > 0 ==> placed[|placed| - 1].key <= e.key)
    modifies keys, payloads, bitmap
    ensures now == filled[at := true] && Mirrors(bitmap[..], now)
    ensures Building(View(keys, payloads, now), at + 1, placed + [e])
  {
    hide Building, Mirrors;
    ghost var s := View(keys, payloads, filled);
    BuildingShape(s, m, placed);
    keys[at] := e.key;
    payloads[at] := e.payload;
    SetBitAt(bitmap, at, filled);
    now := filled[at := true];
    StoreKeeps(s, View(keys, payloads, now), m, at, placed, e);
  }

  /** The slots after the last entry take the sentinel. */
  method Finish(keys: array<int>, payloads: array<int>, m: nat, ghost filled: seq<bool>, ghost placed: seq<Entry>)
    requires keys != payloads && Building(View(keys, payloads, filled), m, placed)
    modifies keys
    ensures GapInv(View(keys, payloads, filled)) && Entries(View(keys, payloads, filled)) == placed
  {
    hide Building, GapInv, Entries;
    ghost var s := View(keys, payloads, filled);
    BuildingShape(s, m, placed);
    FillKeys(keys, m, keys.Length, SENTINEL);
    FinishBuilding(s, View(keys, payloads, filled), m, placed);
  }

  lemma EmptyMirrors(words: seq<Word>, capacity: nat)
    requires |words| == WordsFor(capacity) && forall w | 0 <= w < |words| :: words[w] == NONE
    ensures Mirrors(words, seq(capacity, _ => false))
  {
    hide Bit;
    forall w: nat, b: nat | w < |words| && b < 64 ensures !Bit(words[w], b) { ZeroBits(b); }
  }

  /** Where the model wants the next entry, not before the slots already used. */
  function Wanted(predicted: int, last: int): (pos: int)
    ensures pos > last
  {
    if predicted < last + 1 then last + 1 else predicted
  }

  /** The slot of the next entry: the one wanted, if that leaves room for the rest. */
  lemma NextPlace(es: seq<Entry>, model: Model, cap: nat, i: nat, last: int)
    requires i < |es| <= cap && last == if i == 0 then -1 else SlotFor(es, model, cap, i - 1)
    ensures var pos := Wanted(model(es[i].key), last);
      SlotFor(es, model, cap, i) == if cap - pos < |es| - i then cap - (|es| - i) else pos
  {
  }

  /** The placement loop of `bulk_load`. */
  method SpreadValues(values: seq<Entry>, model: int -> int, keys: array<int>, payloads: array<int>,
      bitmap: array<Word>)
      returns (ghost filled: seq<bool>)
    requires Loadable(values) && |values| < keys.Length == payloads.Length
    requires Distinct(keys, payloads, bitmap) && Mirrors(bitmap[..], seq(keys.Length, _ => false))
    modifies keys, payloads, bitmap
    ensures |filled| == keys.Length && Mirrors(bitmap[..], filled)
    ensures GapInv(View(keys, payloads, filled)) && Entries(View(keys, payloads, filled)) == values
    ensures filled == Marks(values, model, keys.Length, |values|)
  {
    hide Building, Mirrors, GapInv, Entries, Marks, SlotFor;
    NoMarks(values, model, keys.Length);
    filled := seq(keys.Length, _ => false);
    StartBuilding(View(keys, payloads, filled));
    var last, i := -1, 0;
    assert values[..0] == [];
    while i < |values|
      invariant 0 <= i <= |values| && -1 <= last < keys.Length && |filled| == keys.Length
      invariant |values| - i <= keys.Length - (last + 1)
      invariant Mirrors(bitmap[..], filled)
      invariant Building(View(keys, payloads, filled), last + 1, values[..i])
      invariant filled == Marks(values, model, keys.Length, i)
      invariant last == if i == 0 then -1 else SlotFor(values, model, keys.Length, i - 1)
    {
      NextMark(values, model, keys.Length, i);
      NextPlace(values, model, keys.Length, i, last);
      var remaining := |values| - i;
      var position := Wanted(model(values[i].key), last);
      if keys.Length - position < remaining {
        var pos := keys.Length - remaining;
        LeadIn(keys, payloads, last + 1, pos, values[i].key, filled, values[..i]);
        filled := PackValues(values, i, keys, payloads, bitmap, last + 1, filled, model);
        last := keys.Length - 1;
        i := |values|;
        assert values[..i] == values;
        break;
      }
      LeadIn(keys, payloads, last + 1, position, values[i].key, filled, values[..i]);
      filled := Store(keys, payloads, bitmap, last + 1, position, values[i], filled, values[..i]);
      assert values[..i] + [values[i]] == values[..i + 1];
      last := position;
      i := i + 1;
    }
    assert values[..i] == values;
    Finish(keys, payloads, last + 1, filled, values);
  }

  /** The inner loop of `bulk_load` that fills the rest of the store contiguously. */
  method PackValues(values: seq<Entry>, first: nat, keys: array<int>, payloads: array<int>, bitmap: array<Word>,
      ghost m: nat,
      ghost filled0: seq<bool>, ghost model: Model)
      returns (ghost filled: seq<bool>)
    requires Loadable(values) && first < |values| <= keys.Length
    requires SlotFor(values, model, keys.Length, first) == keys.Length - (|values| - first)
    requires filled0 == Marks(values, model, keys.Length, first)
    requires m + (|values| - first) <= keys.Length == payloads.Length == |filled0|
    requires Distinct(keys, payloads, bitmap) && Mirrors(bitmap[..], filled0)
    requires Building(View(keys, payloads, filled0), m, values[..first])
    requires forall i | m <= i < keys.Length - (|values| - first) :: keys[i] == values[first].key
    modifies keys, payloads, bitmap
    ensures |filled| == keys.Length && Mirrors(bitmap[..], filled)
    ensures Building(View(keys, payloads, filled), keys.Length, values)
    ensures filled == Marks(values, model, keys.Length, |values|)
  {
    hide Building, Mirrors, Marks, SlotFor;
    filled := filled0;
    var pos, j := keys.Length - (|values| - first), first;
    ghost var from: nat := m;
    while j < |values|
      invariant first <= j <= |values| && from <= pos == keys.Length - (|values| - j) && |filled| == keys.Length
      invariant Mirrors(bitmap[..], filled)
      invariant Building(View(keys, payloads, filled), from, values[..j])
      invariant j == |values| ==> from == pos
      invariant j < |values| ==> forall i | from <= i < pos :: keys[i] == values[j].key
      invariant filled == Marks(values, model, keys.Length, j)
    {
      LatestStays(values, model, keys.Length, first, j);
      NextMark(values, model, keys.Length, j);
      filled := Store(keys, payloads, bitmap, from, pos, values[j], filled, values[..j]);
      assert values[..j] + [values[j]] == values[..j + 1];
      pos := pos + 1;
      j := j + 1;
      from := pos;
    }
    assert values[..j] == values;
  }

  // ----- reading the entries of an existing node through its iterator -----

  /** How far an iterator at `cur` has come in the range ending at `right`. */
  function Reached(cur: int, right: nat): (p: nat)
    requires cur >= -1
  {
    if cur == -1 || right < cur then right else cur
  }

  /** The first step of an iterator started at `left` passes no entry. */
  lemma NothingBefore(s: Slots, left: nat, right: nat, cur: int)
    requires SameSize(s) && left <= right <= |s.keys| && -1 <= cur < |s.keys|
    requires if cur == -1 then NoneFilled(s.filled, left, |s.filled|) else NextIs(s.filled, left, cur)
    ensures Live(s, left, Reached(cur, right)) == []
  {
    hide Live;
    LiveNone(s, left, Reached(cur, right));
  }

  /** One step of an iterator passes exactly the entry it stood on. */
  lemma OneMoreEntry(s: Slots, left: nat, right: nat, cur: nat, next: int)
    requires SameSize(s) && left <= cur < right <= |s.keys| && -1 <= next < |s.keys| && s.filled[cur]
    requires if next == -1 then NoneFilled(s.filled, cur + 1, |s.filled|) else NextIs(s.filled, cur + 1, next)
    ensures Live(s, left, Reached(next, right)) == Live(s, left, cur) + [Entry(s.keys[cur], s.payloads[cur])]
  {
    hide Live;
    LiveNone(s, cur + 1, Reached(next, right));
    LiveSplit(s, left, cur + 1, Reached(next, right));
    LiveSplit(s, left, cur, cur + 1);
    LiveOne(s, cur);
    var a, e := Live(s, left, cur), Entry(s.keys[cur], s.payloads[cur]);
    assert a + [e] + [] == a + [e];
  }

  /** The next entry is below the sentinel and not below the entries already passed. */
  lemma NextEntryFits(s: Slots, left: nat, cur: nat)
    requires GapInv(s) && left <= cur < |s.keys| && s.filled[cur]
    ensures s.keys[cur] < SENTINEL
    ensures var done := Live(s, left, cur); |done| > 0 ==> done[|done| - 1].key <= s.keys[cur]
  {
    hide Live;
    LiveAtMost(s, left, cur, s.keys[cur]);
  }

  lemma {:induction false} LiveGrows(s: Slots, left: nat, mid: nat, right: nat)
    requires SameSize(s) && left <= mid <= right <= |s.keys|
    ensures |Live(s, left, mid)| <= |Live(s, left, right)|
    ensures mid < right && s.filled[mid] ==> |Live(s, left, mid)| < |Live(s, left, right)|
  {
    hide Live;
    LiveSplit(s, left, mid, right);
    if mid < right {
      LiveSplit(s, mid, mid + 1, right);
      if s.filled[mid] { LiveOne(s, mid); }
    }
  }

  /** The arrays of the node being read. */
  datatype Source = Source(keys: array<int>, payloads: array<int>, bitmap: array<Word>)

  /** Writing the arrays of a new node leaves the node being read alone. */
  ghost predicate Apart(src: Source, it: SlotIterator, keys: array<int>, payloads: array<int>, bitmap: array<Word>) {
    var written: set<object> := {keys, payloads, bitmap};
    var read: set<object> := {src.keys, src.payloads, src.bitmap};
    written !! read && written !! {it} && read !! {it}
  }

  /** The iterator stands on an entry at or after `left`, or is at its end. */
  ghost predicate Standing(it: SlotIterator, src: Source, s: Slots, left: nat)
    reads it, src.bitmap
  {
    && SameSize(s) && it.bitmap == src.bitmap && it.Valid(s.filled)
    && -1 <= it.curIdx < |s.keys|
    && (it.curIdx >= 0 ==> left <= it.curIdx && s.filled[it.curIdx] && it.from == it.curIdx + 1)
  }

  /** One step of the iterator, in terms of the entries passed. */
  method Step(it: SlotIterator, src: Source, ghost s: Slots, ghost left: nat, ghost right: nat)
    requires Standing(it, src, s, left) && 0 <= it.curIdx < right <= |s.keys|
    modifies it
    ensures Standing(it, src, s, left)
    ensures it.curIdx == -1 || it.curIdx > old(it.curIdx)
    ensures Live(s, left, Reached(it.curIdx, right)) ==
              old(Live(s, left, it.curIdx) + [Entry(s.keys[it.curIdx], s.payloads[it.curIdx])])
  {
    hide Live, Mirrors, Pending;
    ghost var cur := it.curIdx;
    it.Advance(s.filled);
    OneMoreEntry(s, left, right, cur, it.curIdx);
  }

  method Begin(src: Source, left: nat, ghost s: Slots, ghost right: nat) returns (it: SlotIterator)
    requires SameSize(s) && Mirrors(src.bitmap[..], s.filled) && left < |s.keys| && left <= right <= |s.keys|
    ensures fresh(it) && Standing(it, src, s, left)
    ensures Live(s, left, Reached(it.curIdx, right)) == []
  {
    hide Live, Mirrors, Pending;
    it := new SlotIterator(src.bitmap, left, s.filled);
    NothingBefore(s, left, right, it.curIdx);
  }

  /** The entry under the iterator goes to slot `at`, and the iterator on. */
  method PlaceNext(it: SlotIterator, src: Source, at: nat, keys: array<int>, payloads: array<int>, bitmap: array<Word>,
      ghost m: nat, ghost filled0: seq<bool>, ghost s: Slots, ghost left: nat, ghost right: nat)
      returns (ghost filled: seq<bool>)
    requires s == Slots(src.keys[..], src.payloads[..], s.filled) && GapInv(s) && left <= right <= |s.keys|
    requires Standing(it, src, s, left) && 0 <= it.curIdx < right
    requires Distinct(keys, payloads, bitmap) && Apart(src, it, keys, payloads, bitmap)
    requires m <= at < keys.Length == payloads.Length == |filled0| && Mirrors(bitmap[..], filled0)
    requires Building(View(keys, payloads, filled0), m, Live(s, left, it.curIdx))
    requires forall i | m <= i < at :: keys[i] == s.keys[it.curIdx]
    modifies it, keys, payloads, bitmap
    ensures filled == filled0[at := true] && Mirrors(bitmap[..], filled)
    ensures Standing(it, src, s, left) && (it.curIdx == -1 || it.curIdx > old(it.curIdx))
    ensures Building(View(keys, payloads, filled), at + 1, Live(s, left, Reached(it.curIdx, right)))
    ensures |Live(s, left, Reached(it.curIdx, right))| == old(|Live(s, left, it.curIdx)|) + 1
  {
    hide Building, Mirrors, Live, GapInv, SlotIterator.Valid;
    NextEntryFits(s, left, it.curIdx);
    var e := Entry(src.keys[it.curIdx], src.payloads[it.curIdx]);
    filled := Store(keys, payloads, bitmap, m, at, e, filled0, Live(s, left, it.curIdx));
    Step(it, src, s, left, right);
  }

  /** The same behind gaps, which take the key of the entry. */
  method PlaceBehindGaps(it: SlotIterator, src: Source, at: nat, keys: array<int>, payloads: array<int>,
      bitmap: array<Word>, m: nat, ghost filled0: seq<bool>, ghost s: Slots, ghost left: nat, ghost right: nat)
      returns (ghost filled: seq<bool>)
    requires s == Slots(src.keys[..], src.payloads[..], s.filled) && GapInv(s) && left <= right <= |s.keys|
    requires Standing(it, src, s, left) && 0 <= it.curIdx < right
    requires Distinct(keys, payloads, bitmap) && Apart(src, it, keys, payloads, bitmap)
    requires m <= at < keys.Length == payloads.Length == |filled0| && Mirrors(bitmap[..], filled0)
    requires Building(View(keys, payloads, filled0), m, Live(s, left, it.curIdx))
    modifies it, keys, payloads, bitmap
    ensures filled == filled0[at := true] && Mirrors(bitmap[..], filled)
    ensures Standing(it, src, s, left) && (it.curIdx == -1 || it.curIdx > old(it.curIdx))
    ensures Building(View(keys, payloads, filled), at + 1, Live(s, left, Reached(it.curIdx, right)))
    ensures |Live(s, left, Reached(it.curIdx, right))| == old(|Live(s, left, it.curIdx)|) + 1
  {
    hide Building, Mirrors, Live, GapInv, SlotIterator.Valid;
    LeadIn(keys, payloads, m, at, src.keys[it.curIdx], filled0, Live(s, left, it.curIdx));
    filled := PlaceNext(it, src, at, keys, payloads, bitmap, m, filled0, s, left, right);
  }

  /** The inner loop of `resize` that fills the rest of the store contiguously. */
  method PackSlots(it: SlotIterator, src: Source, keys: array<int>, payloads: array<int>, bitmap: array<Word>,
      remaining: nat, ghost m: nat, ghost filled0: seq<bool>, ghost s: Slots, ghost left: nat, ghost right: nat,
      ghost model: Model)
      returns (ghost filled: seq<bool>)
    requires s == Slots(src.keys[..], src.payloads[..], s.filled) && GapInv(s) && left <= right <= |s.keys|
    requires Standing(it, src, s, left) && 0 <= it.curIdx < right
    requires Distinct(keys, payloads, bitmap) && Apart(src, it, keys, payloads, bitmap)
    requires keys.Length == payloads.Length == |filled0| && Mirrors(bitmap[..], filled0)
    requires remaining == |Live(s, left, right)| - |Live(s, left, it.curIdx)| && m + remaining <= keys.Length
    requires Building(View(keys, payloads, filled0), m, Live(s, left, it.curIdx))
    requires forall i | m <= i < keys.Length - remaining :: keys[i] == s.keys[it.curIdx]
    requires var es, i := Live(s, left, right), |Live(s, left, it.curIdx)|;
      && |es| <= keys.Length && i < |es| && filled0 == Marks(es, model, keys.Length, i)
      && SlotFor(es, model, keys.Length, i) == keys.Length - remaining
    modifies it, keys, payloads, bitmap
    ensures |filled| == keys.Length && Mirrors(bitmap[..], filled)
    ensures Building(View(keys, payloads, filled), keys.Length, Live(s, left, right))
    ensures filled == Marks(Live(s, left, right), model, keys.Length, |Live(s, left, right)|)
  {
    hide Building, Mirrors, Live, GapInv, SlotIterator.Valid, Marks, SlotFor;
    filled := filled0;
    ghost var es, first := Live(s, left, right), |Live(s, left, it.curIdx)|;
    LiveGrows(s, left, it.curIdx, right);
    var pos := keys.Length - remaining;
    ghost var from: nat := m;
    while pos < keys.Length
      invariant from <= pos <= keys.Length == |filled|
      invariant Mirrors(bitmap[..], filled) && Standing(it, src, s, left)
      invariant src.keys[..] == s.keys && src.payloads[..] == s.payloads
      invariant keys.Length - pos == |Live(s, left, right)| - |Live(s, left, Reached(it.curIdx, right))|
      invariant Building(View(keys, payloads, filled), from, Live(s, left, Reached(it.curIdx, right)))
      invariant pos == keys.Length ==> from == pos
      invariant 0 <= it.curIdx < right ==> forall i | from <= i < pos :: keys[i] == s.keys[it.curIdx]
      invariant keys.Length - remaining <= pos && filled == Marks(es, model, keys.Length, |es| - (keys.Length - pos))
    {
      LatestStays(es, model, keys.Length, first, |es| - (keys.Length - pos));
      NextMark(es, model, keys.Length, |es| - (keys.Length - pos));
      filled := PlaceNext(it, src, pos, keys, payloads, bitmap, from, filled, s, left, right);
      pos := pos + 1;
      from := pos;
    }
    AllPassed(s, left, right, Reached(it.curIdx, right));
  }

  lemma AllPassed(s: Slots, left: nat, right: nat, p: nat)
    requires SameSize(s) && left <= p <= right <= |s.keys| && |Live(s, left, p)| == |Live(s, left, right)|
    ensures Live(s, left, p) == Live(s, left, right)
  {
    LiveSplit(s, left, p, right);
  }

  /** The entry under the iterator is the next of the range, and its slot the next to be marked. */
  lemma NextOfRange(s: Slots, left: nat, cur: nat, right: nat, model: Model, cap: nat, last: int)
    requires SameSize(s) && left <= cur < right <= |s.keys| && s.filled[cur] && |Live(s, left, right)| <= cap
    requires |Live(s, left, cur)| < |Live(s, left, right)|
    requires var es, i := Live(s, left, right), |Live(s, left, cur)|;
      last == if i == 0 then -1 else SlotFor(es, model, cap, i - 1)
    ensures var es, i := Live(s, left, right), |Live(s, left, cur)|;
      var pos := Wanted(model(s.keys[cur]), last);
      && Marks(es, model, cap, i + 1) == Marks(es, model, cap, i)[SlotFor(es, model, cap, i) := true]
      && SlotFor(es, model, cap, i) == if cap - pos < |es| - i then cap - (|es| - i) else pos
  {
    hide Live, Marks, SlotFor, Wanted;
    EntryAt(s, left, cur, right);
    NextMark(Live(s, left, right), model, cap, |Live(s, left, cur)|);
    NextPlace(Live(s, left, right), model, cap, |Live(s, left, cur)|, last);
  }

  /** The placement loop of `resize` and of `bulk_load_from_existing`. */
  method SpreadSlots(src: Source, left: nat, right: nat, total: nat, model: int -> int,
                     keys: array<int>, payloads: array<int>, bitmap: array<Word>, ghost s: Slots)
      returns (ghost filled: seq<bool>)
    requires s == Slots(src.keys[..], src.payloads[..], s.filled) && GapInv(s) && Mirrors(src.bitmap[..], s.filled)
    requires left <= right <= |s.keys| && left < |s.keys|
    requires total == |Live(s, left, right)| < keys.Length == payloads.Length
    requires Distinct(keys, payloads, bitmap) && Mirrors(bitmap[..], seq(keys.Length, _ => false))
    requires var n: set<object> := {keys, payloads, bitmap}; n !! {src.keys, src.payloads, src.bitmap}
    modifies keys, payloads, bitmap
    ensures |filled| == keys.Length && Mirrors(bitmap[..], filled)
    ensures GapInv(View(keys, payloads, filled)) && Entries(View(keys, payloads, filled)) == Live(s, left, right)
    ensures filled == Marks(Live(s, left, right), model, keys.Length, total)
  {
    hide Building, Mirrors, Live, GapInv, Entries, SlotIterator.Valid, Marks, SlotFor, Wanted;
    GapInvShape(s);
    ghost var es := Live(s, left, right);
    NoMarks(es, model, keys.Length);
    filled := seq(keys.Length, _ => false);
    StartBuilding(View(keys, payloads, filled));
    var last, remaining := -1, total;
    var it := Begin(src, left, s, right);
    while 0 <= it.curIdx < right
      invariant -1 <= last < keys.Length == |filled| && Standing(it, src, s, left)
      invariant remaining == |Live(s, left, right)| - |Live(s, left, Reached(it.curIdx, right))|
      invariant remaining <= keys.Length - (last + 1)
      invariant src.keys[..] == s.keys && src.payloads[..] == s.payloads
      invariant Mirrors(bitmap[..], filled)
      invariant Building(View(keys, payloads, filled), last + 1, Live(s, left, Reached(it.curIdx, right)))
      invariant fresh(it)
      invariant 0 <= remaining <= total && filled == Marks(es, model, keys.Length, total - remaining)
      invariant last == if remaining == total then -1 else SlotFor(es, model, keys.Length, total - remaining - 1)
      decreases if it.curIdx == -1 then 0 else |s.keys| - it.curIdx
    {
      LiveGrows(s, left, it.curIdx, right);
      var key := src.keys[it.curIdx];
      NextOfRange(s, left, it.curIdx, right, model, keys.Length, last);
      var position := Wanted(model(key), last);
      if keys.Length - position < remaining {
        LeadIn(keys, payloads, last + 1, keys.Length - remaining, key, filled, Live(s, left, it.curIdx));
        filled := PackSlots(it, src, keys, payloads, bitmap, remaining, last + 1, filled, s, left, right, model);
        last := keys.Length - 1;
        Finish(keys, payloads, last + 1, filled, Live(s, left, right));
        return;
      }
      filled := PlaceBehindGaps(it, src, position, keys, payloads, bitmap, last + 1, filled, s, left, right);
      last := position;
      remaining := remaining - 1;
    }
    Finish(keys, payloads, last + 1, filled, Live(s, left, right));
  }

  /** The entry under the iterator is the next of the range. */
  lemma EntryAt(s: Slots, left: nat, cur: nat, right: nat)
    requires SameSize(s) && left <= cur < right <= |s.keys| && s.filled[cur]
    ensures var i := |Live(s, left, cur)|;
      i < |Live(s, left, right)| && Live(s, left, right)[i] == Entry(s.keys[cur], s.payloads[cur])
  {
    hide Live;
    LiveSplit(s, left, cur, right);
    LiveSplit(s, cur, cur + 1, right);
    LiveOne(s, cur);
  }

  lemma GapInvShape(s: Slots)
    requires GapInv(s)
    ensures SameSize(s)
  {
  }
}
