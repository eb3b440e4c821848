/** The in-place edits of a data node: setting bits, placing an element, shifting towards a gap, erasing a run. */
module AlexEdits {
  import opened AlexBits
  import opened AlexBitmap
  import opened AlexGaps
  import opened AlexSlots

  /** `check_exists`. */
  method CheckExists(bitmap: array<Word>, pos: nat, ghost filled: seq<bool>) returns (present: bool)
    requires Mirrors(bitmap[..], filled) && pos < |filled|
    ensures present == filled[pos]
  {
    hide Bit;
    BitOf(bitmap[..], filled, pos);
    present := Bit(bitmap[pos / 64], pos % 64);
  }

  /** `set_bit`. */
  method SetBitAt(bitmap: array<Word>, pos: nat, ghost filled: seq<bool>)
    requires Mirrors(bitmap[..], filled) && pos < |filled|
    modifies bitmap
    ensures Mirrors(bitmap[..], filled[pos := true])
  {
    hide Bit, SetBit;
    BitOf(bitmap[..], filled, pos);
    ghost var words := bitmap[..];
    bitmap[pos / 64] := SetBit(bitmap[pos / 64], pos % 64);
    assert bitmap[..] == words[pos / 64 := SetBit(words[pos / 64], pos % 64)];
    SetMirrors(words, filled, pos);
  }

  lemma SetMirrors(words: seq<Word>, filled: seq<bool>, pos: nat)
    requires Mirrors(words, filled) && pos < |filled| && pos / 64 < |words|
    ensures Mirrors(words[pos / 64 := SetBit(words[pos / 64], pos % 64)], filled[pos := true])
  {
    hide Bit, SetBit;
  }

  /** `unset_bit`. */
  method UnsetBitAt(bitmap: array<Word>, pos: nat, ghost filled: seq<bool>)
    requires Mirrors(bitmap[..], filled) && pos < |filled|
    modifies bitmap
    ensures Mirrors(bitmap[..], filled[pos := false])
  {
    hide Bit, UnsetBit;
    BitOf(bitmap[..], filled, pos);
    ghost var words := bitmap[..];
    bitmap[pos / 64] := UnsetBit(bitmap[pos / 64], pos % 64);
    assert bitmap[..] == words[pos / 64 := UnsetBit(words[pos / 64], pos % 64)];
    UnsetMirrors(words, filled, pos);
  }

  lemma UnsetMirrors(words: seq<Word>, filled: seq<bool>, pos: nat)
    requires Mirrors(words, filled) && pos < |filled| && pos / 64 < |words|
    ensures Mirrors(words[pos / 64 := UnsetBit(words[pos / 64], pos % 64)], filled[pos := false])
  {
    hide Bit, UnsetBit;
  }

  /** The slots of the three arrays of a node. */
  ghost function View(keys: array<int>, payloads: array<int>, filled: seq<bool>): (s: Slots)
    reads keys, payloads
  {
    Slots(keys[..], payloads[..], filled)
  }

  /** The three arrays are different objects. */
  ghost predicate Distinct(keys: array<int>, payloads: array<int>, bitmap: array<Word>) {
    var k: object, p: object, b: object := keys, payloads, bitmap;
    k != p && k != b && p != b
  }

  /** `insert_element_at`: fills slot `pos` and overwrites the gaps before it. */
  method InsertElementAt(keys: array<int>, payloads: array<int>, bitmap: array<Word>, pos: nat, e: Entry,
      ghost filled: seq<bool>)
      returns (ghost lo: nat)
    requires Distinct(keys, payloads, bitmap) && keys.Length == payloads.Length == |filled| && pos < |filled|
    requires Mirrors(bitmap[..], filled)
    modifies keys, payloads, bitmap
    ensures Placed(old(View(keys, payloads, filled)), View(keys, payloads, filled[pos := true]), lo, pos, e)
    ensures Mirrors(bitmap[..], filled[pos := true])
    ensures NoneFilled(filled, lo, pos) && (lo == 0 || filled[lo - 1])
  {
    hide Mirrors;
    keys[pos] := e.key;
    payloads[pos] := e.payload;
    SetBitAt(bitmap, pos, filled);
    ghost var now := filled[pos := true];
    var p := pos - 1;
    while p >= 0
      invariant -1 <= p < pos
      invariant Mirrors(bitmap[..], now)
      invariant payloads[..] == old(payloads[..])[pos := e.payload]
      invariant forall i | 0 <= i < keys.Length :: keys[i] == if p < i <= pos then e.key else old(keys[i])
      invariant NoneFilled(filled, p + 1, pos)
    {
      var ex := CheckExists(bitmap, p, now);
      if ex { break; }
      keys[p] := e.key;
      p := p - 1;
    }
    lo := p + 1;
  }

  method MoveRight(keys: array<int>, payloads: array<int>, pos: nat, gap: nat)
    requires keys != payloads && keys.Length == payloads.Length && pos <= gap < keys.Length
    modifies keys, payloads
    ensures forall i | 0 <= i < keys.Length && (i <= pos || gap < i) ::
              keys[i] == old(keys[i]) && payloads[i] == old(payloads[i])
    ensures forall i | pos <= i < gap :: keys[i + 1] == old(keys[i]) && payloads[i + 1] == old(payloads[i])
  {
    var i := gap;
    while i > pos
      invariant pos <= i <= gap
      invariant forall j | 0 <= j < keys.Length && (j <= i || gap < j) ::
                keys[j] == old(keys[j]) && payloads[j] == old(payloads[j])
      invariant forall j | i <= j < gap :: keys[j + 1] == old(keys[j]) && payloads[j + 1] == old(payloads[j])
    {
      keys[i] := keys[i - 1];
      payloads[i] := payloads[i - 1];
      i := i - 1;
    }
  }

  method MoveLeft(keys: array<int>, payloads: array<int>, pos: nat, gap: nat)
    requires keys != payloads && keys.Length == payloads.Length && gap < pos <= keys.Length
    modifies keys, payloads
    ensures forall i | 0 <= i < keys.Length && (i < gap || pos - 1 <= i) ::
              keys[i] == old(keys[i]) && payloads[i] == old(payloads[i])
    ensures forall i | gap < i < pos :: keys[i - 1] == old(keys[i]) && payloads[i - 1] == old(payloads[i])
  {
    var i := gap;
    while i < pos - 1
      invariant gap <= i <= pos - 1
      invariant forall j | 0 <= j < keys.Length && (j < gap || i <= j) ::
                keys[j] == old(keys[j]) && payloads[j] == old(payloads[j])
      invariant forall j | gap < j <= i :: keys[j - 1] == old(keys[j]) && payloads[j - 1] == old(payloads[j])
    {
      keys[i] := keys[i + 1];
      payloads[i] := payloads[i + 1];
      i := i + 1;
    }
  }

  /** The branch of `insert_using_shifts` whose gap is at or after the position. */
  method InsertShiftingRight(keys: array<int>, payloads: array<int>, bitmap: array<Word>, pos: nat, gap: nat, e: Entry,
                             ghost filled: seq<bool>)
    requires Distinct(keys, payloads, bitmap) && keys.Length == payloads.Length == |filled| && pos <= gap < |filled|
    requires Mirrors(bitmap[..], filled)
    requires GapInv(View(keys, payloads, filled)) && UpperBound(keys[..], e.key, pos) && e.key < SENTINEL
    requires !filled[gap] && AllFilled(filled, pos, gap)
    modifies keys, payloads, bitmap
    ensures Mirrors(bitmap[..], filled[gap := true])
    ensures GapInv(View(keys, payloads, filled[gap := true]))
    ensures Entries(View(keys, payloads, filled[gap := true])) ==
              old(InsertSorted(Entries(View(keys, payloads, filled)), e))
    ensures keys[pos] == e.key && payloads[pos] == e.payload && filled[gap := true][pos]
  {
    hide Mirrors, GapInv, Entries, UpperBound, InsertSorted;
    ghost var s := View(keys, payloads, filled);
    if pos > 0 { BeforeUpperBound(s, e.key, pos); }
    SetBitAt(bitmap, gap, filled);
    ghost var now := filled[gap := true];
    MoveRight(keys, payloads, pos, gap);
    assert now[pos] && (pos > 0 ==> now[pos - 1]);
    assert now[pos := true] == now;
    ghost var lo := InsertElementAt(keys, payloads, bitmap, pos, e, now);
    assert lo == pos;
    ShiftRightKeeps(s, View(keys, payloads, now), pos, gap, e);
  }

  /** The branch of `insert_using_shifts` whose gap is before the position. */
  method InsertShiftingLeft(keys: array<int>, payloads: array<int>, bitmap: array<Word>, pos: nat, gap: nat, e: Entry,
                            ghost filled: seq<bool>)
    requires Distinct(keys, payloads, bitmap) && keys.Length == payloads.Length == |filled| && gap < pos <= |filled|
    requires Mirrors(bitmap[..], filled)
    requires GapInv(View(keys, payloads, filled)) && UpperBound(keys[..], e.key, pos) && e.key < SENTINEL
    requires !filled[gap] && AllFilled(filled, gap + 1, pos)
    modifies keys, payloads, bitmap
    ensures Mirrors(bitmap[..], filled[gap := true])
    ensures GapInv(View(keys, payloads, filled[gap := true]))
    ensures Entries(View(keys, payloads, filled[gap := true])) ==
              old(InsertSorted(Entries(View(keys, payloads, filled)), e))
    ensures keys[pos - 1] == e.key && payloads[pos - 1] == e.payload && filled[gap := true][pos - 1]
  {
    hide Mirrors, GapInv, Entries, UpperBound, InsertSorted;
    ghost var s := View(keys, payloads, filled);
    BeforeUpperBound(s, e.key, pos);
    SetBitAt(bitmap, gap, filled);
    ghost var now := filled[gap := true];
    MoveLeft(keys, payloads, pos, gap);
    assert now[pos - 1] && now[pos - 2];
    assert now[pos - 1 := true] == now;
    ghost var lo := InsertElementAt(keys, payloads, bitmap, pos - 1, e, now);
    assert lo == pos - 1;
    ShiftLeftKeeps(s, View(keys, payloads, now), pos, gap, e);
  }

  /** `insert_using_shifts`: shifts towards the closest gap. */
  method InsertUsingShifts(keys: array<int>, payloads: array<int>, bitmap: array<Word>, pos: nat, e: Entry,
      ghost filled: seq<bool>)
      returns (at: nat, ghost now: seq<bool>)
    requires Distinct(keys, payloads, bitmap) && keys.Length == payloads.Length == |filled| > 0
    requires Mirrors(bitmap[..], filled) && !AllFilled(filled, 0, |filled|)
    requires GapInv(View(keys, payloads, filled)) && UpperBound(keys[..], e.key, pos) && e.key < SENTINEL
    requires pos < |filled| ==> filled[pos]
    modifies keys, payloads, bitmap
    ensures |now| == |filled| && Mirrors(bitmap[..], now)
    ensures GapInv(View(keys, payloads, now))
    ensures Entries(View(keys, payloads, now)) == old(InsertSorted(Entries(View(keys, payloads, filled)), e))
    ensures at < keys.Length && now[at] && keys[at] == e.key && payloads[at] == e.payload
  {
    hide Mirrors, GapInv, Entries, InsertSorted;
    var gap := ClosestGap(bitmap, keys.Length, pos, filled);
    now := filled[gap := true];
    if pos == |filled| { BeforeUpperBound(View(keys, payloads, filled), e.key, pos); }
    if gap >= pos {
      InsertShiftingRight(keys, payloads, bitmap, pos, gap, e, filled);
      at := pos;
    } else {
      InsertShiftingLeft(keys, payloads, bitmap, pos, gap, e, filled);
      at := pos - 1;
    }
  }

  /** The loop of `erase`: every slot of the run before `hi` that carries the key becomes a gap. */
  method EraseRun(keys: array<int>, payloads: array<int>, bitmap: array<Word>, hi: nat, key: int,
      ghost filled: seq<bool>)
      returns (erased: nat, ghost now: seq<bool>)
    requires Distinct(keys, payloads, bitmap) && keys.Length == payloads.Length == |filled|
    requires Mirrors(bitmap[..], filled)
    requires GapInv(View(keys, payloads, filled)) && UpperBound(keys[..], key, hi)
    modifies keys, bitmap
    ensures |now| == |filled| && Mirrors(bitmap[..], now)
    ensures GapInv(View(keys, payloads, now))
    ensures Entries(View(keys, payloads, now)) == old(WithoutKey(Entries(View(keys, payloads, filled)), key))
    ensures |Entries(View(keys, payloads, now))| + erased == old(|Entries(View(keys, payloads, filled))|)
  {
    hide Mirrors, Entries, WithoutKey, Live, GapsRepeat, Sorted;
    ghost var s := View(keys, payloads, filled);
    var next := if hi == keys.Length then SENTINEL else keys[hi];
    var p := hi - 1;
    now := filled;
    erased := 0;
    assert Live(s, hi, hi) == [] by { LiveNone(s, hi, hi); }
    while p >= 0 && keys[p] == key
      invariant -1 <= p < hi && |now| == |filled|
      invariant Mirrors(bitmap[..], now)
      invariant forall i | 0 <= i < keys.Length :: keys[i] == if p < i < hi then next else s.keys[i]
      invariant forall i | 0 <= i < |now| :: now[i] == (filled[i] && !(p < i < hi))
      invariant forall i | p < i < hi :: s.keys[i] == key
      invariant erased == |Live(s, p + 1, hi)|
    {
      CountSlot(s, p, hi);
      keys[p] := next;
      var ex := CheckExists(bitmap, p, now);
      erased := erased + if ex then 1 else 0;
      UnsetBitAt(bitmap, p, now);
      now := now[p := false];
      p := p - 1;
    }
    RunStart(s, p + 1, hi, key);
    ClearKeeps(s, View(keys, payloads, now), p + 1, hi, key);
  }

  /** The loop of `erase_one_at`: the slot and the gaps before it take the key to their right. */
  method EraseSlot(keys: array<int>, payloads: array<int>, bitmap: array<Word>, pos: nat, ghost filled: seq<bool>)
    requires Distinct(keys, payloads, bitmap) && keys.Length == payloads.Length == |filled| && pos < |filled|
    requires filled[pos]
    requires Mirrors(bitmap[..], filled) && GapInv(View(keys, payloads, filled))
    modifies keys, bitmap
    ensures Mirrors(bitmap[..], filled[pos := false]) && GapInv(View(keys, payloads, filled[pos := false]))
    ensures Entries(View(keys, payloads, filled[pos := false]))
            == old(Live(View(keys, payloads, filled), 0, pos)
                   + Live(View(keys, payloads, filled), pos + 1, keys.Length))
    ensures |Entries(View(keys, payloads, filled[pos := false]))| + 1 == old(|Entries(View(keys, payloads, filled))|)
  {
    hide Mirrors, Entries, Live, GapsRepeat, Sorted;
    ghost var s, now := View(keys, payloads, filled), filled[pos := false];
    var next := if pos == keys.Length - 1 then SENTINEL else keys[pos + 1];
    keys[pos] := next;
    UnsetBitAt(bitmap, pos, filled);
    var p := pos - 1;
    while p >= 0
      invariant -1 <= p < pos
      invariant Mirrors(bitmap[..], now)
      invariant forall i | 0 <= i < keys.Length :: keys[i] == if p < i <= pos then next else s.keys[i]
      invariant NoneFilled(filled, p + 1, pos)
    {
      var ex := CheckExists(bitmap, p, now);
      if ex { break; }
      keys[p] := next;
      p := p - 1;
    }
    ClearOneKeeps(s, View(keys, payloads, now), p + 1, pos);
  }

  lemma RunStart(s: Slots, lo: nat, hi: nat, key: int)
    requires GapInv(s) && lo <= hi && UpperBound(s.keys, key, hi)
    requires forall i | lo <= i < hi :: s.keys[i] == key
    requires lo > 0 ==> s.keys[lo - 1] != key
    ensures LowerBound(s.keys, key, lo)
  {
    forall i | 0 <= i < lo ensures s.keys[i] < key { assert s.keys[lo - 1] < key; }
  }

  lemma CountSlot(s: Slots, p: nat, hi: nat)
    requires SameSize(s) && p < hi <= |s.keys|
    ensures |Live(s, p, hi)| == |Live(s, p + 1, hi)| + if s.filled[p] then 1 else 0
  {
    LiveSplit(s, p, p + 1, hi);
    assert Live(s, p, p) == [];
  }
}
