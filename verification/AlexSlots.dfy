/**
 * The gapped sorted array of a data node as a value: what its slots stand for, and what placing,
 * shifting and erasing do to the ordered list of entries they hold.
 */
module AlexSlots {
  /** The key no entry may have; the slots after the last entry repeat it. */
  const SENTINEL: int := 0x7FFF_FFFF_FFFF_FFFF

  datatype Entry = Entry(key: int, payload: int)

  datatype Slots = Slots(keys: seq<int>, payloads: seq<int>, filled: seq<bool>)

  function NextKey(keys: seq<int>, i: nat): (k: int) {
    if i < |keys| then keys[i] else SENTINEL
  }

  ghost predicate Sorted(keys: seq<int>) {
    forall i, j | 0 <= i < j < |keys| :: keys[i] <= keys[j]
  }

  ghost predicate SameSize(s: Slots) {
    |s.keys| == |s.payloads| == |s.filled|
  }

  /** Every gap repeats the key to its right, or the sentinel. */
  ghost predicate GapsRepeat(keys: seq<int>, filled: seq<bool>)
    requires |keys| == |filled|
  {
    forall i | 0 <= i < |keys| :: if filled[i] then keys[i] < SENTINEL else keys[i] == NextKey(keys, i + 1)
  }

  /** The invariant of a data node. */
  ghost predicate GapInv(s: Slots) {
    SameSize(s) && Sorted(s.keys) && GapsRepeat(s.keys, s.filled)
  }

  /** The entries in slots `lo` to `hi`, in order. */
  ghost function Live(s: Slots, lo: nat, hi: nat): (es: seq<Entry>)
    requires SameSize(s) && lo <= hi <= |s.keys|
    ensures |es| <= hi - lo
  {
    if lo == hi then []
    else Live(s, lo, hi - 1) + if s.filled[hi - 1] then [Entry(s.keys[hi - 1], s.payloads[hi - 1])] else []
  }

  ghost function Entries(s: Slots): (es: seq<Entry>)
    requires SameSize(s)
  {
    Live(s, 0, |s.keys|)
  }

  // ----- the reference: an ordered list of entries -----

  /** `e` after every entry whose key is not greater. */
  function InsertSorted(es: seq<Entry>, e: Entry): (r: seq<Entry>) {
    if |es| == 0 || e.key < es[0].key then [e] + es else [es[0]] + InsertSorted(es[1..], e)
  }

  function WithoutKey(es: seq<Entry>, k: int): (r: seq<Entry>) {
    if |es| == 0 then [] else (if es[0].key == k then [] else [es[0]]) + WithoutKey(es[1..], k)
  }

  predicate HasKey(es: seq<Entry>, k: int) {
    exists i | 0 <= i < |es| :: es[i].key == k
  }

  predicate Ordered(es: seq<Entry>) {
    forall i, j | 0 <= i < j < |es| :: es[i].key <= es[j].key
  }

  lemma {:induction false} InsertBetween(a: seq<Entry>, b: seq<Entry>, e: Entry)
    requires forall i | 0 <= i < |a| :: a[i].key <= e.key
    requires forall i | 0 <= i < |b| :: e.key < b[i].key
    ensures InsertSorted(a + b, e) == a + [e] + b
    decreases |a|
  {
    if |a| == 0 {
      assert a + b == b;
    } else {
      assert (a + b)[1..] == a[1..] + b;
      InsertBetween(a[1..], b, e);
      assert a + [e] + b == [a[0]] + (a[1..] + [e] + b);
    }
  }

  lemma {:induction false} WithoutAbsent(a: seq<Entry>, k: int)
    requires !HasKey(a, k)
    ensures WithoutKey(a, k) == a
  {
    if |a| > 0 {
      assert forall i | 0 <= i < |a[1..]| :: a[1..][i] == a[i + 1];
      WithoutAbsent(a[1..], k);
    }
  }

  lemma {:induction false} WithoutAll(a: seq<Entry>, k: int)
    requires forall i | 0 <= i < |a| :: a[i].key == k
    ensures WithoutKey(a, k) == []
  {
    if |a| > 0 { WithoutAll(a[1..], k); }
  }

  lemma {:induction false} WithoutConcat(a: seq<Entry>, b: seq<Entry>, k: int)
    ensures WithoutKey(a + b, k) == WithoutKey(a, k) + WithoutKey(b, k)
    decreases |a|
  {
    if |a| == 0 {
      assert a + b == b;
    } else {
      assert (a + b)[1..] == a[1..] + b;
      WithoutConcat(a[1..], b, k);
    }
  }

  lemma {:induction false} InsertAddsOne(es: seq<Entry>, e: Entry)
    ensures multiset(InsertSorted(es, e)) == multiset(es) + multiset{e}
  {
    if |es| > 0 && es[0].key <= e.key {
      InsertAddsOne(es[1..], e);
      assert es == [es[0]] + es[1..];
    }
  }

  predicate NoneBelow(es: seq<Entry>, k: int) {
    forall i | 0 <= i < |es| :: k <= es[i].key
  }

  lemma {:induction false} InsertNoneBelow(es: seq<Entry>, e: Entry, k: int)
    requires NoneBelow(es, k) && k <= e.key
    ensures NoneBelow(InsertSorted(es, e), k)
  {
    if |es| > 0 && es[0].key <= e.key { InsertNoneBelow(es[1..], e, k); }
  }

  /** Inserting keeps the order and adds exactly one entry. */
  lemma {:induction false} InsertKeepsOrder(es: seq<Entry>, e: Entry)
    requires Ordered(es)
    ensures Ordered(InsertSorted(es, e))
    ensures multiset(InsertSorted(es, e)) == multiset(es) + multiset{e}
  {
    InsertAddsOne(es, e);
    if |es| > 0 && es[0].key <= e.key {
      InsertKeepsOrder(es[1..], e);
      assert forall i | 0 <= i < |es[1..]| :: es[0].key <= es[1..][i].key;
      InsertNoneBelow(es[1..], e, es[0].key);
    }
  }

  // ----- the list of entries -----

  lemma {:induction false} LiveSplit(s: Slots, lo: nat, mid: nat, hi: nat)
    requires SameSize(s) && lo <= mid <= hi <= |s.keys|
    ensures Live(s, lo, hi) == Live(s, lo, mid) + Live(s, mid, hi)
    decreases hi - mid
  {
    if mid < hi { LiveSplit(s, lo, mid, hi - 1); }
  }

  /** Slots that agree where they are filled hold the same entries, also after a shift by `d`. */
  lemma {:induction false} LiveShift(s: Slots, t: Slots, lo: nat, hi: nat, d: int)
    requires SameSize(s) && SameSize(t) && lo <= hi <= |s.keys| && 0 <= lo + d && hi + d <= |t.keys|
    requires forall i | lo <= i < hi :: t.filled[i + d] == s.filled[i]
    requires forall i | lo <= i < hi && s.filled[i] :: t.keys[i + d] == s.keys[i] && t.payloads[i + d] == s.payloads[i]
    ensures Live(t, lo + d, hi + d) == Live(s, lo, hi)
    decreases hi - lo
  {
    if lo < hi { LiveShift(s, t, lo, hi - 1, d); }
  }

  lemma {:induction false} LiveNone(s: Slots, lo: nat, hi: nat)
    requires SameSize(s) && lo <= hi <= |s.keys|
    requires forall i | lo <= i < hi :: !s.filled[i]
    ensures Live(s, lo, hi) == []
    decreases hi - lo
  {
    if lo < hi { LiveNone(s, lo, hi - 1); }
  }

  /** Each listed entry sits in a filled slot of the range. */
  lemma {:induction false} LiveOrigin(s: Slots, lo: nat, hi: nat, n: nat) returns (i: nat)
    requires SameSize(s) && lo <= hi <= |s.keys| && n < |Live(s, lo, hi)|
    ensures lo <= i < hi && s.filled[i] && Live(s, lo, hi)[n] == Entry(s.keys[i], s.payloads[i])
    decreases hi - lo
  {
    if n < |Live(s, lo, hi - 1)| {
      i := LiveOrigin(s, lo, hi - 1, n);
    } else {
      i := hi - 1;
    }
  }

  /** Each filled slot of the range is listed. */
  lemma {:induction false} LiveMember(s: Slots, lo: nat, hi: nat, i: nat) returns (n: nat)
    requires SameSize(s) && lo <= i < hi <= |s.keys| && s.filled[i]
    ensures n < |Live(s, lo, hi)| && Live(s, lo, hi)[n] == Entry(s.keys[i], s.payloads[i])
    decreases hi - lo
  {
    if i == hi - 1 {
      n := |Live(s, lo, hi - 1)|;
    } else {
      n := LiveMember(s, lo, hi - 1, i);
    }
  }

  lemma LiveAtMost(s: Slots, lo: nat, hi: nat, k: int)
    requires SameSize(s) && lo <= hi <= |s.keys|
    requires forall i | lo <= i < hi && s.filled[i] :: s.keys[i] <= k
    ensures forall n | 0 <= n < |Live(s, lo, hi)| :: Live(s, lo, hi)[n].key <= k
  {
    forall n | 0 <= n < |Live(s, lo, hi)| ensures Live(s, lo, hi)[n].key <= k {
      var i := LiveOrigin(s, lo, hi, n);
    }
  }

  lemma LiveAtLeast(s: Slots, lo: nat, hi: nat, k: int)
    requires SameSize(s) && lo <= hi <= |s.keys|
    requires forall i | lo <= i < hi && s.filled[i] :: k <= s.keys[i]
    ensures forall n | 0 <= n < |Live(s, lo, hi)| :: k <= Live(s, lo, hi)[n].key
  {
    forall n | 0 <= n < |Live(s, lo, hi)| ensures k <= Live(s, lo, hi)[n].key {
      var i := LiveOrigin(s, lo, hi, n);
    }
  }

  /** The entries of a node are in key order. */
  lemma {:induction false} LiveOrdered(s: Slots, hi: nat)
    requires GapInv(s) && hi <= |s.keys|
    ensures Ordered(Live(s, 0, hi))
  {
    if hi > 0 {
      LiveOrdered(s, hi - 1);
      LiveAtMost(s, 0, hi - 1, s.keys[hi - 1]);
    }
  }

  // ----- placing, shifting and erasing -----

  /** `pos` is where `k` belongs: the slots before it are not greater, the slots from it on are. */
  ghost predicate UpperBound(keys: seq<int>, k: int, pos: int) {
    && 0 <= pos <= |keys|
    && (forall i | 0 <= i < pos :: keys[i] <= k)
    && (forall i | pos <= i < |keys| :: k < keys[i])
  }

  ghost predicate LowerBound(keys: seq<int>, k: int, pos: int) {
    && 0 <= pos <= |keys|
    && (forall i | 0 <= i < pos :: keys[i] < k)
    && (forall i | pos <= i < |keys| :: k <= keys[i])
  }

  /** The slot before an upper bound holds a real key. */
  lemma BeforeUpperBound(s: Slots, k: int, pos: nat)
    requires GapInv(s) && UpperBound(s.keys, k, pos) && 0 < pos && k < SENTINEL
    ensures s.filled[pos - 1]
  {
    assert !s.filled[pos - 1] ==> s.keys[pos - 1] == NextKey(s.keys, pos);
  }

  /** Splitting the entries at an upper bound inserts the new entry in order. */
  lemma InsertedInOrder(s: Slots, e: Entry, pos: nat)
    requires GapInv(s) && UpperBound(s.keys, e.key, pos)
    ensures InsertSorted(Entries(s), e) == Live(s, 0, pos) + [e] + Live(s, pos, |s.keys|)
  {
    LiveSplit(s, 0, pos, |s.keys|);
    LiveAtMost(s, 0, pos, e.key);
    LiveAtLeast(s, pos, |s.keys|, e.key + 1);
    InsertBetween(Live(s, 0, pos), Live(s, pos, |s.keys|), e);
  }

  lemma LiveOne(s: Slots, i: nat)
    requires SameSize(s) && i < |s.keys| && s.filled[i]
    ensures Live(s, i, i + 1) == [Entry(s.keys[i], s.payloads[i])]
  {
    assert Live(s, i, i) == [];
  }

  /** Four consecutive ranges. */
  lemma LiveCut(s: Slots, a: nat, b: nat, c: nat)
    requires SameSize(s) && a <= b <= c <= |s.keys|
    ensures Entries(s) == Live(s, 0, a) + Live(s, a, b) + Live(s, b, c) + Live(s, c, |s.keys|)
  {
    hide Live;
    LiveSplit(s, 0, c, |s.keys|);
    LiveSplit(s, 0, b, c);
    LiveSplit(s, 0, a, b);
  }

  /** `t` is `s` with `e` put in the gap `at`, and the gaps from `lo` on overwritten with its key. */
  ghost predicate Placed(s: Slots, t: Slots, lo: nat, at: nat, e: Entry) {
    && SameSize(s) && SameSize(t) && |s.keys| == |t.keys| && lo <= at < |s.keys|
    && (forall i | 0 <= i < |s.keys| :: t.keys[i] == if lo <= i <= at then e.key else s.keys[i])
    && t.payloads == s.payloads[at := e.payload]
    && t.filled == s.filled[at := true]
  }

  lemma PlaceKeeps(s: Slots, t: Slots, lo: nat, at: nat, e: Entry)
    requires GapInv(s) && e.key < SENTINEL && UpperBound(s.keys, e.key, lo)
    requires Placed(s, t, lo, at, e)
    requires forall i | lo <= i <= at :: !s.filled[i]
    ensures GapInv(t) && Entries(t) == InsertSorted(Entries(s), e)
  {
    hide Live, GapInv, InsertSorted, Entries, UpperBound, Placed;
    PlaceKeepsGaps(s, t, lo, at, e);
    PlacedRanges(s, t, lo, at, e);
    InsertedInOrder(s, e, lo);
  }

  lemma PlacedRanges(s: Slots, t: Slots, lo: nat, at: nat, e: Entry)
    requires Placed(s, t, lo, at, e) && forall i | lo <= i <= at :: !s.filled[i]
    ensures lo <= |s.keys| && Entries(t) == Live(s, 0, lo) + [e] + Live(s, lo, |s.keys|)
  {
    hide Live, Entries, Placed;
    PlacedParts(s, t, lo, at, e);
    LiveCut(t, lo, at, at + 1);
    LiveSplit(s, lo, at + 1, |s.keys|);
  }

  lemma PlacedParts(s: Slots, t: Slots, lo: nat, at: nat, e: Entry)
    requires Placed(s, t, lo, at, e) && forall i | lo <= i <= at :: !s.filled[i]
    ensures SameSize(s) && SameSize(t) && |s.keys| == |t.keys| && lo <= at < |s.keys|
    ensures Live(t, 0, lo) == Live(s, 0, lo) && Live(t, at + 1, |s.keys|) == Live(s, at + 1, |s.keys|)
    ensures Live(t, lo, at) == [] && Live(s, lo, at + 1) == [] && Live(t, at, at + 1) == [e]
  {
    hide Live;
    LiveShift(s, t, 0, lo, 0);
    LiveNone(t, lo, at);
    LiveNone(s, lo, at + 1);
    LiveOne(t, at);
    LiveShift(s, t, at + 1, |s.keys|, 0);
  }

  lemma PlaceKeepsGaps(s: Slots, t: Slots, lo: nat, at: nat, e: Entry)
    requires GapInv(s) && e.key < SENTINEL && UpperBound(s.keys, e.key, lo)
    requires Placed(s, t, lo, at, e)
    requires forall i | lo <= i <= at :: !s.filled[i]
    ensures GapInv(t)
  {
    forall i | 0 <= i < |t.keys|
      ensures if t.filled[i] then t.keys[i] < SENTINEL else t.keys[i] == NextKey(t.keys, i + 1)
    {
      if i + 1 == lo { BeforeUpperBound(s, e.key, lo); }
    }
  }

  /** `t` is `s` with the slots from `pos` up to the gap moved one to the right and `e` at `pos`. */
  ghost predicate ShiftedRight(s: Slots, t: Slots, pos: nat, gap: nat, e: Entry) {
    && SameSize(s) && SameSize(t) && |s.keys| == |t.keys| && pos <= gap < |s.keys|
    && (forall i | 0 <= i < |s.keys| && (i < pos || gap < i) ::
         t.keys[i] == s.keys[i] && t.payloads[i] == s.payloads[i])
    && (forall i | pos <= i < gap :: t.keys[i + 1] == s.keys[i] && t.payloads[i + 1] == s.payloads[i])
    && t.keys[pos] == e.key && t.payloads[pos] == e.payload
    && t.filled == s.filled[gap := true]
  }

  lemma ShiftRightKeeps(s: Slots, t: Slots, pos: nat, gap: nat, e: Entry)
    requires GapInv(s) && e.key < SENTINEL && UpperBound(s.keys, e.key, pos)
    requires ShiftedRight(s, t, pos, gap, e)
    requires !s.filled[gap] && forall i | pos <= i < gap :: s.filled[i]
    ensures GapInv(t) && Entries(t) == InsertSorted(Entries(s), e)
  {
    hide Live, GapInv, InsertSorted, Entries, UpperBound, ShiftedRight;
    ShiftedRightShape(s, t, pos, gap, e);
    ShiftRightKeepsGaps(s, t, pos, gap, e);
    ShiftRightRanges(s, t, pos, gap, e);
    InsertedInOrder(s, e, pos);
    var n := |s.keys|;
    LiveCut(t, pos, pos + 1, gap + 1);
    LiveSplit(s, pos, gap, n); LiveSplit(s, gap, gap + 1, n);
    Regroup(Live(s, 0, pos), [e], Live(s, pos, gap), Live(s, gap + 1, n));
  }

  lemma Regroup(a: seq<Entry>, b: seq<Entry>, c: seq<Entry>, d: seq<Entry>)
    ensures a + b + c + d == a + b + (c + ([] + d))
    ensures a + c + b + d == a + ([] + c) + b + d
  {
  }

  lemma ShiftedRightShape(s: Slots, t: Slots, pos: nat, gap: nat, e: Entry)
    requires ShiftedRight(s, t, pos, gap, e)
    ensures SameSize(s) && SameSize(t) && |s.keys| == |t.keys| && pos <= gap < |s.keys|
  {
  }

  lemma ShiftRightRanges(s: Slots, t: Slots, pos: nat, gap: nat, e: Entry)
    requires ShiftedRight(s, t, pos, gap, e)
    requires !s.filled[gap] && forall i | pos <= i < gap :: s.filled[i]
    ensures Live(t, 0, pos) == Live(s, 0, pos) && Live(t, pos, pos + 1) == [e]
    ensures Live(t, pos + 1, gap + 1) == Live(s, pos, gap) && Live(s, gap, gap + 1) == []
    ensures Live(t, gap + 1, |s.keys|) == Live(s, gap + 1, |s.keys|)
  {
    hide Live;
    LiveShift(s, t, 0, pos, 0);
    assert t.filled[pos];
    LiveOne(t, pos);
    MovedRight(s, t, pos, gap, e);
    LiveNone(s, gap, gap + 1);
    LiveShift(s, t, gap + 1, |s.keys|, 0);
  }

  lemma MovedRight(s: Slots, t: Slots, pos: nat, gap: nat, e: Entry)
    requires ShiftedRight(s, t, pos, gap, e)
    requires !s.filled[gap] && forall i | pos <= i < gap :: s.filled[i]
    ensures Live(t, pos + 1, gap + 1) == Live(s, pos, gap)
  {
    hide Live;
    LiveShift(s, t, pos, gap, 1);
  }

  lemma ShiftRightKeepsGaps(s: Slots, t: Slots, pos: nat, gap: nat, e: Entry)
    requires GapInv(s) && e.key < SENTINEL && UpperBound(s.keys, e.key, pos)
    requires ShiftedRight(s, t, pos, gap, e)
    requires !s.filled[gap] && forall i | pos <= i < gap :: s.filled[i]
    ensures GapInv(t)
  {
    forall i | 0 <= i < |t.keys| - 1 ensures t.keys[i] <= t.keys[i + 1] {
      if i == pos && pos < gap { assert t.keys[i + 1] == s.keys[i]; }
      if pos < i <= gap { assert t.keys[(i - 1) + 1] == s.keys[i - 1]; }
      if pos <= i < gap { assert t.keys[i + 1] == s.keys[i]; }
    }
    SortedByNeighbours(t.keys);
    forall i | 0 <= i < |t.keys|
      ensures if t.filled[i] then t.keys[i] < SENTINEL else t.keys[i] == NextKey(t.keys, i + 1)
    {
      if i + 1 == pos { BeforeUpperBound(s, e.key, pos); }
      if pos < i <= gap { assert t.keys[(i - 1) + 1] == s.keys[i - 1]; }
    }
  }

  /** `t` is `s` with the slots after the gap and before `pos` moved one to the left and `e` at `pos - 1`. */
  ghost predicate ShiftedLeft(s: Slots, t: Slots, pos: nat, gap: nat, e: Entry) {
    && SameSize(s) && SameSize(t) && |s.keys| == |t.keys| && gap < pos <= |s.keys|
    && (forall i | 0 <= i < |s.keys| && (i < gap || pos <= i) ::
         t.keys[i] == s.keys[i] && t.payloads[i] == s.payloads[i])
    && (forall i | gap < i < pos :: t.keys[i - 1] == s.keys[i] && t.payloads[i - 1] == s.payloads[i])
    && t.keys[pos - 1] == e.key && t.payloads[pos - 1] == e.payload
    && t.filled == s.filled[gap := true]
  }

  lemma ShiftLeftKeeps(s: Slots, t: Slots, pos: nat, gap: nat, e: Entry)
    requires GapInv(s) && e.key < SENTINEL && UpperBound(s.keys, e.key, pos)
    requires ShiftedLeft(s, t, pos, gap, e)
    requires !s.filled[gap] && forall i | gap < i < pos :: s.filled[i]
    ensures GapInv(t) && Entries(t) == InsertSorted(Entries(s), e)
  {
    hide Live, GapInv, InsertSorted, Entries, UpperBound, ShiftedLeft;
    ShiftedLeftShape(s, t, pos, gap, e);
    ShiftLeftKeepsGaps(s, t, pos, gap, e);
    ShiftLeftRanges(s, t, pos, gap, e);
    InsertedInOrder(s, e, pos);
    LiveCut(t, gap, pos - 1, pos);
    LiveSplit(s, 0, gap, pos); LiveSplit(s, gap, gap + 1, pos);
    Regroup(Live(s, 0, gap), [e], Live(s, gap + 1, pos), Live(s, pos, |s.keys|));
  }

  lemma ShiftedLeftShape(s: Slots, t: Slots, pos: nat, gap: nat, e: Entry)
    requires ShiftedLeft(s, t, pos, gap, e)
    ensures SameSize(s) && SameSize(t) && |s.keys| == |t.keys| && gap < pos <= |s.keys|
  {
  }

  lemma ShiftLeftRanges(s: Slots, t: Slots, pos: nat, gap: nat, e: Entry)
    requires ShiftedLeft(s, t, pos, gap, e)
    requires !s.filled[gap] && forall i | gap < i < pos :: s.filled[i]
    ensures Live(t, 0, gap) == Live(s, 0, gap) && Live(t, pos - 1, pos) == [e]
    ensures Live(t, gap, pos - 1) == Live(s, gap + 1, pos) && Live(s, gap, gap + 1) == []
    ensures Live(t, pos, |s.keys|) == Live(s, pos, |s.keys|)
  {
    hide Live;
    assert t.filled[pos - 1];
    LiveOne(t, pos - 1);
    MovedLeft(s, t, pos, gap, e);
    LiveNone(s, gap, gap + 1);
    OutsideLeft(s, t, pos, gap, e);
  }

  lemma OutsideLeft(s: Slots, t: Slots, pos: nat, gap: nat, e: Entry)
    requires ShiftedLeft(s, t, pos, gap, e)
    ensures Live(t, 0, gap) == Live(s, 0, gap) && Live(t, pos, |s.keys|) == Live(s, pos, |s.keys|)
  {
    hide Live;
    LiveShift(s, t, 0, gap, 0);
    LiveShift(s, t, pos, |s.keys|, 0);
  }

  lemma MovedLeft(s: Slots, t: Slots, pos: nat, gap: nat, e: Entry)
    requires ShiftedLeft(s, t, pos, gap, e)
    requires !s.filled[gap] && forall i | gap < i < pos :: s.filled[i]
    ensures Live(t, gap, pos - 1) == Live(s, gap + 1, pos)
  {
    hide Live;
    LiveShift(s, t, gap + 1, pos, -1);
  }

  lemma ShiftLeftKeepsGaps(s: Slots, t: Slots, pos: nat, gap: nat, e: Entry)
    requires GapInv(s) && e.key < SENTINEL && UpperBound(s.keys, e.key, pos)
    requires ShiftedLeft(s, t, pos, gap, e)
    requires !s.filled[gap] && forall i | gap < i < pos :: s.filled[i]
    ensures GapInv(t)
  {
    BeforeUpperBound(s, e.key, pos);
    ShiftLeftKeepsOrder(s, t, pos, gap, e);
    hide Sorted;
    forall i | 0 <= i < |t.keys|
      ensures if t.filled[i] then t.keys[i] < SENTINEL else t.keys[i] == NextKey(t.keys, i + 1)
    {
      if gap <= i < pos - 1 { assert t.keys[(i + 1) - 1] == s.keys[i + 1]; }
      if i + 1 == gap { assert t.keys[(gap + 1) - 1] == s.keys[gap + 1]; }
    }
  }

  lemma ShiftLeftKeepsOrder(s: Slots, t: Slots, pos: nat, gap: nat, e: Entry)
    requires SameSize(s) && Sorted(s.keys) && UpperBound(s.keys, e.key, pos)
    requires ShiftedLeft(s, t, pos, gap, e) && gap < pos - 1
    ensures Sorted(t.keys)
  {
    forall i | 0 <= i < |t.keys| - 1 ensures t.keys[i] <= t.keys[i + 1] {
      assert gap <= i < pos - 1 ==> t.keys[(i + 1) - 1] == s.keys[i + 1];
      assert gap <= i + 1 < pos - 1 ==> t.keys[(i + 2) - 1] == s.keys[i + 2];
    }
    SortedByNeighbours(t.keys);
  }

  lemma SortedByNeighbours(keys: seq<int>)
    requires forall i | 0 <= i < |keys| - 1 :: keys[i] <= keys[i + 1]
    ensures Sorted(keys)
  {
    forall i, j | 0 <= i < j < |keys| ensures keys[i] <= keys[j] { Climb(keys, i, j); }
  }

  lemma {:induction false} Climb(keys: seq<int>, i: nat, j: nat)
    requires forall i | 0 <= i < |keys| - 1 :: keys[i] <= keys[i + 1]
    requires i < j < |keys|
    ensures keys[i] <= keys[j]
    decreases j
  {
    if i < j - 1 { Climb(keys, i, j - 1); }
    assert keys[j - 1] <= keys[(j - 1) + 1];
  }

  /** `t` is `s` with the slots from `lo` to `hi` made gaps. */
  ghost predicate Cleared(s: Slots, t: Slots, lo: nat, hi: nat) {
    && SameSize(s) && SameSize(t) && |s.keys| == |t.keys| && lo <= hi <= |s.keys|
    && (forall i | 0 <= i < |s.keys| :: t.keys[i] == if lo <= i < hi then NextKey(s.keys, hi) else s.keys[i])
    && t.payloads == s.payloads
    && (forall i | 0 <= i < |s.keys| :: t.filled[i] == (s.filled[i] && !(lo <= i < hi)))
  }

  /** Clearing the whole run of a key removes exactly the entries with that key. */
  lemma ClearKeeps(s: Slots, t: Slots, lo: nat, hi: nat, k: int)
    requires GapInv(s) && Cleared(s, t, lo, hi)
    requires LowerBound(s.keys, k, lo) && UpperBound(s.keys, k, hi)
    ensures GapInv(t) && Entries(t) == WithoutKey(Entries(s), k)
    ensures |Entries(t)| + |Live(s, lo, hi)| == |Entries(s)|
  {
    hide Live, GapInv, Entries, Cleared, UpperBound, LowerBound;
    ClearedShape(s, t, lo, hi);
    BeforeRun(s, lo, hi, k);
    ClearKeepsGaps(s, t, lo, hi);
    LiveCut(s, 0, lo, hi); LiveCut(t, 0, lo, hi);
    ClearRanges(s, t, lo, hi);
    RunOfKey(s, lo, hi, k);
    WithoutMiddle(Live(s, 0, lo), Live(s, lo, hi), Live(s, hi, |s.keys|), k);
    LiveNone(s, 0, 0);
    LiveNone(t, 0, 0);
    assert Entries(s) == Live(s, 0, lo) + Live(s, lo, hi) + Live(s, hi, |s.keys|);
    assert Entries(t) == Live(s, 0, lo) + Live(s, hi, |s.keys|);
  }

  lemma ClearedShape(s: Slots, t: Slots, lo: nat, hi: nat)
    requires Cleared(s, t, lo, hi)
    ensures SameSize(s) && SameSize(t) && |s.keys| == |t.keys| && lo <= hi <= |s.keys|
  {
  }

  lemma ClearRanges(s: Slots, t: Slots, lo: nat, hi: nat)
    requires Cleared(s, t, lo, hi)
    ensures Live(t, 0, lo) == Live(s, 0, lo) && Live(t, lo, hi) == []
    ensures Live(t, hi, |s.keys|) == Live(s, hi, |s.keys|)
  {
    hide Live;
    LiveNone(t, lo, hi);
    LiveShift(s, t, 0, lo, 0); LiveShift(s, t, hi, |s.keys|, 0);
  }

  lemma RunOfKey(s: Slots, lo: nat, hi: nat, k: int)
    requires SameSize(s) && lo <= hi <= |s.keys| && LowerBound(s.keys, k, lo) && UpperBound(s.keys, k, hi)
    ensures forall i | 0 <= i < |Live(s, 0, lo)| :: Live(s, 0, lo)[i].key <= k - 1
    ensures forall i | 0 <= i < |Live(s, lo, hi)| :: k <= Live(s, lo, hi)[i].key <= k
    ensures forall i | 0 <= i < |Live(s, hi, |s.keys|)| :: k + 1 <= Live(s, hi, |s.keys|)[i].key
  {
    hide Live;
    LiveAtMost(s, 0, lo, k - 1); LiveAtLeast(s, hi, |s.keys|, k + 1);
    LiveAtMost(s, lo, hi, k); LiveAtLeast(s, lo, hi, k);
  }

  lemma WithoutMiddle(a: seq<Entry>, b: seq<Entry>, c: seq<Entry>, k: int)
    requires forall i | 0 <= i < |a| :: a[i].key <= k - 1
    requires forall i | 0 <= i < |b| :: k <= b[i].key <= k
    requires forall i | 0 <= i < |c| :: k + 1 <= c[i].key
    ensures WithoutKey(a + b + c, k) == a + c
  {
    hide WithoutKey;
    WithoutConcat(a + b, c, k); WithoutConcat(a, b, k);
    WithoutAbsent(a, k); WithoutAll(b, k); WithoutAbsent(c, k);
  }

  lemma BeforeRun(s: Slots, lo: nat, hi: nat, k: int)
    requires GapInv(s) && lo <= hi && LowerBound(s.keys, k, lo) && UpperBound(s.keys, k, hi)
    ensures lo == hi || lo == 0 || s.filled[lo - 1]
  {
    if 0 < lo < hi { assert s.filled[lo - 1] || s.keys[lo - 1] == NextKey(s.keys, lo); }
  }

  /** A run of slots behind a real one may become gaps. */
  lemma ClearKeepsGaps(s: Slots, t: Slots, lo: nat, hi: nat)
    requires GapInv(s) && Cleared(s, t, lo, hi) && (lo == hi || lo == 0 || s.filled[lo - 1])
    ensures GapInv(t)
  {
    hide Sorted, Cleared;
    ClearKeepsOrder(s, t, lo, hi);
    ClearedShape(s, t, lo, hi);
    forall i | 0 <= i < |t.keys|
      ensures if t.filled[i] then t.keys[i] < SENTINEL else t.keys[i] == NextKey(t.keys, i + 1)
    {
      ClearedSlot(s, t, lo, hi, i);
    }
  }

  lemma ClearedSlot(s: Slots, t: Slots, lo: nat, hi: nat, i: nat)
    requires Cleared(s, t, lo, hi) && i < |s.keys| && (lo == hi || lo == 0 || s.filled[lo - 1])
    requires if s.filled[i] then s.keys[i] < SENTINEL else s.keys[i] == NextKey(s.keys, i + 1)
    ensures if t.filled[i] then t.keys[i] < SENTINEL else t.keys[i] == NextKey(t.keys, i + 1)
  {
  }

  /** Clearing one real slot and the gaps before it removes exactly that entry. */
  lemma ClearOneKeeps(s: Slots, t: Slots, lo: nat, pos: nat)
    requires GapInv(s) && Cleared(s, t, lo, pos + 1) && lo <= pos && s.filled[pos]
    requires (forall i | lo <= i < pos :: !s.filled[i]) && (lo == 0 || s.filled[lo - 1])
    ensures GapInv(t) && Entries(t) == Live(s, 0, pos) + Live(s, pos + 1, |s.keys|)
    ensures |Entries(t)| + 1 == |Entries(s)|
  {
    hide Live, GapInv, Entries, Cleared;
    ClearedShape(s, t, lo, pos + 1);
    ClearKeepsGaps(s, t, lo, pos + 1);
    ClearRanges(s, t, lo, pos + 1);
    LiveCut(t, 0, lo, pos + 1);
    LiveNone(t, 0, 0);
    LiveNone(s, lo, pos);
    LiveSplit(s, 0, lo, pos);
    assert Live(s, 0, pos) == Live(s, 0, lo);
    LiveCut(s, 0, pos, pos + 1);
    LiveNone(s, 0, 0);
    LiveOne(s, pos);
  }

  lemma ClearKeepsOrder(s: Slots, t: Slots, lo: nat, hi: nat)
    requires GapInv(s) && Cleared(s, t, lo, hi)
    ensures Sorted(t.keys)
  {
    forall i, j | 0 <= i < j < |t.keys| ensures t.keys[i] <= t.keys[j] {
      KeysAtMostSentinel(s, i);
    }
  }

  lemma {:induction false} KeysAtMostSentinel(s: Slots, i: nat)
    requires GapInv(s) && i < |s.keys|
    ensures s.keys[i] <= SENTINEL
    decreases |s.keys| - i
  {
    if i + 1 < |s.keys| { KeysAtMostSentinel(s, i + 1); }
  }

  /** A key is stored exactly when the slot before its upper bound carries it; that slot is then real. */
  lemma StoredIffBeforeUpperBound(s: Slots, k: int, pos: nat)
    requires GapInv(s) && UpperBound(s.keys, k, pos) && k < SENTINEL
    ensures HasKey(Entries(s), k) <==> pos > 0 && s.keys[pos - 1] == k
  {
    var n := |s.keys|;
    if pos > 0 && s.keys[pos - 1] == k {
      BeforeUpperBound(s, k, pos);
      var i := LiveMember(s, 0, n, pos - 1);
    }
    if HasKey(Entries(s), k) {
      var i :| 0 <= i < |Entries(s)| && Entries(s)[i].key == k;
      var j := LiveOrigin(s, 0, n, i);
      assert j <= pos - 1;
    }
  }
}
