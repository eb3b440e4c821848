/** The data node of the learned index: searches, insertion, erasure and model-driven rebuilding. */
module AlexNode {
  import opened AlexBits
  import opened AlexBitmap
  import opened AlexGaps
  import opened AlexSlots
  import opened AlexSearch
  import opened AlexEdits
  import opened AlexRebuild
  import opened AlexPlacement

  const MAX_DENSITY: real := 0.8
  const INIT_DENSITY: real := 0.7
  const MIN_DENSITY: real := 0.6

  /** Slots for `n` keys at a density: always one more than the keys. */
  function CapacityFor(n: nat, density: real): (c: nat)
    requires density > 0.0
    ensures c >= n + 1
  {
    var wanted := (n as real / density).Floor;
    if wanted < n + 1 then n + 1 else wanted
  }

  /** The number of keys at which a node expands. */
  function ExpansionThreshold(capacity: nat, n: nat): (t: real)
    requires capacity >= n + 1
    ensures 0.0 < t <= capacity as real && n as real < t
  {
    var t := if capacity as real * MAX_DENSITY < (n + 1) as real then (n + 1) as real
        else capacity as real * MAX_DENSITY;
    if t < capacity as real then t else capacity as real
  }

  function Max(a: nat, b: nat): (m: nat)
    ensures m >= a && m >= b && (m == a || m == b)
  {
    if a < b then b else a
  }

  lemma TenthsOf(c: nat)
    ensures forall m: int :: m as real > c as real * MIN_DENSITY <==> 10 * m > 6 * c
  {
    assert c as real * MIN_DENSITY == (6 * c) as real / 10.0;
  }

  /** The three capacities, in whole numbers: a node is filled to 7, 6 or 8 tenths, with room for one more key. */
  lemma CapacitiesAre(n: nat)
    ensures CapacityFor(n, INIT_DENSITY) == Max(10 * n / 7, n + 1)
    ensures CapacityFor(n, MIN_DENSITY) == Max(10 * n / 6, n + 1)
    ensures CapacityFor(n, MAX_DENSITY) == Max(10 * n / 8, n + 1)
  {
    FloorIs(n as real / INIT_DENSITY, 10 * n / 7);
    FloorIs(n as real / MIN_DENSITY, 10 * n / 6);
    FloorIs(n as real / MAX_DENSITY, 10 * n / 8);
  }

  /** The floor of a quotient. */
  lemma FloorIs(x: real, q: int)
    requires q as real <= x < (q + 1) as real
    ensures x.Floor == q
  {
  }

  /** A node of `c` slots loaded with `n` keys is full from the first count that is 8 tenths of the slots and above `n`,
      or when every slot is taken. */
  lemma FullFrom(c: nat, n: nat, m: nat)
    requires c >= n + 1
    ensures m as real >= ExpansionThreshold(c, n) <==> m >= c || (10 * m >= 8 * c && m > n)
    ensures (m as real) < c as real * MIN_DENSITY <==> 10 * m < 6 * c
  {
    assert c as real * MAX_DENSITY == (8 * c) as real / 10.0;
    assert c as real * MIN_DENSITY == (6 * c) as real / 10.0;
  }

  /** A node with fewer entries than slots has a gap. */
  lemma {:induction false} RoomMeansGap(s: Slots, n: nat)
    requires SameSize(s) && n <= |s.keys| && AllFilled(s.filled, 0, n)
    ensures |Live(s, 0, n)| == n
  {
    if n > 0 { RoomMeansGap(s, n - 1); }
  }

  lemma {:induction false} EntriesLoadable(s: Slots)
    requires GapInv(s)
    ensures Loadable(Entries(s))
  {
    LiveOrdered(s, |s.keys|);
    forall i | 0 <= i < |Entries(s)| ensures Entries(s)[i].key < SENTINEL {
      var j := LiveOrigin(s, 0, |s.keys|, i);
    }
  }

  /** Arrays for a new node, all slots empty. */
  method Allocate(capacity: nat) returns (keys: array<int>, payloads: array<int>, bitmap: array<Word>)
    ensures fresh(keys) && fresh(payloads) && fresh(bitmap) && Distinct(keys, payloads, bitmap)
    ensures keys.Length == payloads.Length == capacity && Mirrors(bitmap[..], seq(capacity, _ => false))
  {
    hide Mirrors;
    keys := new int[capacity];
    payloads := new int[capacity];
    bitmap := new Word[WordsFor(capacity)](_ => NONE);
    EmptyMirrors(bitmap[..], capacity);
  }

  /** New slots with the entries of a range of old ones, spread by a model. */
  method Rebuild(src: Source, left: nat, right: nat, total: nat, model: int -> int, capacity: nat, ghost s: Slots)
      returns (keys: array<int>, payloads: array<int>, bitmap: array<Word>, ghost filled: seq<bool>)
    requires s == Slots(src.keys[..], src.payloads[..], s.filled) && GapInv(s) && Mirrors(src.bitmap[..], s.filled)
    requires left <= right <= |s.keys| && left < |s.keys| && total == |Live(s, left, right)| < capacity
    ensures fresh(keys) && fresh(payloads) && fresh(bitmap) && Distinct(keys, payloads, bitmap)
    ensures keys.Length == payloads.Length == |filled| == capacity && Mirrors(bitmap[..], filled)
    ensures GapInv(View(keys, payloads, filled)) && Entries(View(keys, payloads, filled)) == Live(s, left, right)
    ensures filled == Marks(Live(s, left, right), model, capacity, total)
  {
    hide Mirrors, GapInv, Entries, Live, Marks;
    keys, payloads, bitmap := Allocate(capacity);
    filled := SpreadSlots(src, left, right, total, model, keys, payloads, bitmap, s);
  }

  predicate Reaches(m: nat, threshold: real) {
    m as real >= threshold
  }

  /** When a node of `c` slots expands and when it contracts: at 8 and below 6 tenths of its slots, but never before it
      has more keys than it was loaded with, and always with every slot taken. */
  ghost predicate ThresholdsFit(expansion: real, contraction: real, c: nat, loaded: nat) {
    && (forall m: nat :: Reaches(m, expansion) <==> m >= c || (10 * m >= 8 * c && m > loaded))
    && (forall m: nat :: !Reaches(m, contraction) <==> loaded > 0 && 10 * m < 6 * c)
  }

  lemma ThresholdsAt(expansion: real, contraction: real, c: nat, loaded: nat, m: nat)
    requires ThresholdsFit(expansion, contraction, c, loaded)
    ensures m as real >= expansion <==> m >= c || (10 * m >= 8 * c && m > loaded)
    ensures (m as real) < contraction <==> loaded > 0 && 10 * m < 6 * c
  {
    assert Reaches(m, expansion) <==> m >= c || (10 * m >= 8 * c && m > loaded);
    assert !Reaches(m, contraction) <==> loaded > 0 && 10 * m < 6 * c;
  }

  /** The outcome of the empirical cost tests at an insertion, and the model a rebuild would use. */
  datatype Advice = Advice(catastrophic: bool, deviation: bool, retrained: int -> int)

  class DataNode {
    const maxSlots: nat
    const allowDuplicates: bool
    var keys: array<int>
    var payloads: array<int>
    var bitmap: array<Word>
    var numKeys: nat
    var numInserts: nat
    var model: int -> int
    var expansionThreshold: real
    var contractionThreshold: real
    ghost var filled: seq<bool>
    /** The number of keys when the slots were last laid out. */
    ghost var loaded: nat

    ghost function Repr(): (r: set<object>)
      reads this
    {
      {this, keys, payloads, bitmap}
    }

    ghost function Layout(): (s: Slots)
      reads this, keys, payloads
    {
      View(keys, payloads, filled)
    }

    /** The invariant of a node: sorted slots, gaps that repeat the next key, and an exact bitmap and key count. */
    ghost predicate Valid()
      reads this, keys, payloads, bitmap
    {
      && Distinct(keys, payloads, bitmap)
      && keys.Length == payloads.Length == |filled| > 0
      && Mirrors(bitmap[..], filled)
      && GapInv(Layout())
      && numKeys == |Entries(Layout())|
      && 0.0 < expansionThreshold <= keys.Length as real
      && ThresholdsFit(expansionThreshold, contractionThreshold, keys.Length, loaded)
    }

    /** The entries of the node, in key order. */
    ghost function Contents(): (es: seq<Entry>)
      requires Valid()
      reads this, keys, payloads, bitmap
    {
      Entries(Layout())
    }

    constructor (maxSlots: nat, allowDuplicates: bool)
      ensures fresh(Repr() - {this})
    {
      this.maxSlots := maxSlots;
      this.allowDuplicates := allowDuplicates;
      keys := new int[0];
      payloads := new int[0];
      bitmap := new Word[0];
      numKeys, numInserts := 0, 0;
      model := x => 0;
      expansionThreshold, contractionThreshold := 0.0, 0.0;
      filled := [];
      loaded := 0;
    }

    /** `bulk_load`: the node holds exactly the given entries, whatever the model. */
    method BulkLoad(values: seq<Entry>, trained: int -> int)
      requires Loadable(values)
      modifies this
      ensures Valid() && Contents() == values && fresh(Repr() - {this})
      ensures keys.Length == Max(10 * |values| / 7, |values| + 1) && loaded == |values|
      ensures |values| > 0 ==> !IsFull()
      ensures filled == Marks(values, trained, keys.Length, |values|)
    {
      hide Mirrors, GapInv, Entries, ExpansionThreshold, CapacityFor, ThresholdsFit, Marks;
      CapacitiesAre(|values|);
      var capacity := CapacityFor(|values|, INIT_DENSITY);
      keys, payloads, bitmap := Allocate(capacity);
      numKeys := |values|;
      if |values| == 0 {
        NoMarks(values, trained, keys.Length);
        LoadNothing();
        return;
      }
      model := trained;
      filled := SpreadValues(values, model, keys, payloads, bitmap);
      SetThresholds();
    }

    /** The thresholds of a node whose slots have been laid out. */
    method SetThresholds()
      requires 0 < numKeys < keys.Length
      modifies this`expansionThreshold, this`contractionThreshold, this`loaded
      ensures ThresholdsFit(expansionThreshold, contractionThreshold, keys.Length, loaded) && loaded == numKeys
      ensures 0.0 < expansionThreshold <= keys.Length as real && !IsFull()
    {
      hide ExpansionThreshold;
      expansionThreshold := ExpansionThreshold(keys.Length, numKeys);
      contractionThreshold := keys.Length as real * MIN_DENSITY;
      loaded := numKeys;
      forall m: nat
        ensures Reaches(m, expansionThreshold) <==> m >= keys.Length || (10 * m >= 8 * keys.Length && m > loaded)
        ensures !Reaches(m, contractionThreshold) <==> 10 * m < 6 * keys.Length
      {
        FullFrom(keys.Length, numKeys, m);
      }
    }

    /** The branch of the bulk loads without keys: every slot is a gap carrying the sentinel. */
    method LoadNothing()
      requires Distinct(keys, payloads, bitmap) && keys.Length == payloads.Length > 0 && numKeys == 0
      requires Mirrors(bitmap[..], seq(keys.Length, _ => false)) && keys.Length == 1
      modifies this, keys
      ensures Valid() && Contents() == [] && Repr() == old(Repr()) && loaded == 0
      ensures keys == old(keys) && filled == seq(keys.Length, _ => false)
    {
      hide Mirrors, GapInv, Entries;
      expansionThreshold, contractionThreshold := keys.Length as real, 0.0;
      loaded := 0;
      filled := seq(keys.Length, _ => false);
      StartBuilding(View(keys, payloads, filled));
      Finish(keys, payloads, 0, filled, []);
    }

    /** The keys in slots `left` to `right`, counted with the iterator. */
    method CountRange(left: nat, right: nat) returns (n: nat)
      requires Valid() && left <= right <= keys.Length && left < keys.Length
      ensures n == |Live(Layout(), left, right)|
    {
      hide Mirrors, GapInv, Live, SlotIterator.Valid;
      ghost var s := Layout();
      var src := Source(keys, payloads, bitmap);
      GapInvShape(s);
      var it := Begin(src, left, s, right);
      n := 0;
      while 0 <= it.curIdx < right
        invariant Standing(it, src, s, left) && fresh(it)
        invariant n == |Live(s, left, Reached(it.curIdx, right))|
        decreases if it.curIdx == -1 then 0 else |s.keys| - it.curIdx
      {
        Step(it, src, s, left, right);
        n := n + 1;
      }
    }

    /** `bulk_load_from_existing`: the entries of a range of another node, whatever the model. */
    method BulkLoadFromExisting(node: DataNode, left: nat, right: nat, trained: int -> int)
      requires node != this && node.Valid() && left <= right <= node.keys.Length && left < node.keys.Length
      requires this !in node.Repr()
      modifies this
      ensures Valid() && Contents() == Live(node.Layout(), left, right) && fresh(Repr() - {this})
      ensures keys.Length == Max(10 * numKeys / 6, numKeys + 1) && loaded == numKeys == |Contents()|
      ensures filled == Marks(Contents(), trained, keys.Length, |Contents()|)
    {
      hide Mirrors, GapInv, Entries, Live, CapacityFor, ThresholdsFit, Marks;
      ghost var s := node.Layout();
      var n := node.CountRange(left, right);
      var capacity := CapacityFor(n, MIN_DENSITY);
      CapacitiesAre(n);
      var src := Source(node.keys, node.payloads, node.bitmap);
      numKeys := n;
      if n == 0 {
        keys, payloads, bitmap := Allocate(capacity);
        LoadNothing();
        NoMarks([], trained, keys.Length);
        return;
      }
      model := trained;
      keys, payloads, bitmap, filled := Rebuild(src, left, right, n, model, capacity, s);
      SetThresholds();
    }

    /** `resize`: new slots at the target density, the same entries, whatever the retrained model. */
    method Resize(density: real, retrained: int -> int)
      requires Valid() && density > 0.0
      modifies this
      ensures Valid() && Contents() == old(Contents()) && fresh(Repr() - old(Repr()))
      ensures numKeys == old(numKeys) && numInserts == old(numInserts)
      ensures old(numKeys) > 0 ==> keys.Length == Max((numKeys as real / density).Floor, numKeys + 1)
      ensures old(numKeys) > 0 ==> loaded == numKeys == |Contents()| && !IsFull()
      ensures old(numKeys) > 0 ==> filled == Marks(Contents(), retrained, keys.Length, numKeys)
      ensures old(numKeys) == 0 ==> keys.Length == old(keys.Length) && loaded == old(loaded)
    {
      hide Mirrors, GapInv, Entries, Live, ThresholdsFit, Marks;
      if numKeys == 0 { return; }
      ghost var s := Layout();
      var src := Source(keys, payloads, bitmap);
      var capacity := CapacityFor(numKeys, density);
      WholeRange(s);
      model := retrained;
      keys, payloads, bitmap, filled := Rebuild(src, 0, keys.Length, numKeys, model, capacity, s);
      SetThresholds();
    }

    /** `predict_position`. */
    function PredictPosition(key: int): (pos: nat)
      requires keys.Length > 0
      reads this
      ensures pos < keys.Length
    {
      ClampedPosition(model(key), keys.Length)
    }

    method UpperBoundOf(key: int) returns (pos: nat)
      requires Valid()
      ensures UpperBound(keys[..], key, pos)
    {
      hide Mirrors, GapsRepeat, Entries, UpperBound;
      pos := ExponentialSearchUpperBound(keys, PredictPosition(key), key);
    }

    method LowerBoundOf(key: int) returns (pos: nat)
      requires Valid()
      ensures LowerBound(keys[..], key, pos)
    {
      hide Mirrors, GapsRepeat, Entries, LowerBound;
      pos := ExponentialSearchLowerBound(keys, PredictPosition(key), key);
    }

    /** `find_lower`: the first entry not below the key. A bound at the very end must still fall into a bitmap word. */
    method FindLower(key: int) returns (pos: nat)
      requires Valid() && (key <= keys[keys.Length - 1] || keys.Length % 64 != 0)
      ensures pos <= keys.Length && forall i | 0 <= i < pos && filled[i] :: keys[i] < key
      ensures pos < keys.Length ==> filled[pos] && key <= keys[pos]
    {
      hide Mirrors, GapInv, Entries;
      var lb := LowerBoundOf(key);
      assert lb < 64 * bitmap.Length by { WordsReach(bitmap[..], filled, lb); }
      pos := NextFilledPosition(bitmap, keys.Length, lb, false, filled);
    }

    /** `find_upper`: the first entry above the key. */
    method FindUpper(key: int) returns (pos: nat)
      requires Valid() && (key < keys[keys.Length - 1] || keys.Length % 64 != 0)
      ensures pos <= keys.Length && forall i | 0 <= i < pos && filled[i] :: keys[i] <= key
      ensures pos < keys.Length ==> filled[pos] && key < keys[pos]
    {
      hide Mirrors, GapInv, Entries;
      var ub := UpperBoundOf(key);
      assert ub < 64 * bitmap.Length by { WordsReach(bitmap[..], filled, ub); }
      pos := NextFilledPosition(bitmap, keys.Length, ub, false, filled);
    }

    /** `find_key`: the last slot with the key, which is a real slot. The sentinel is found exactly in a node whose last
        slot is a gap. */
    method FindKey(key: int) returns (pos: int)
      requires Valid()
      ensures -1 <= pos < keys.Length
      ensures key < SENTINEL ==> (pos == -1 <==> !HasKey(Contents(), key))
      ensures pos >= 0 ==> keys[pos] == key && forall i | pos < i < keys.Length :: key < keys[i]
      ensures pos >= 0 ==> (filled[pos] <==> key < SENTINEL)
      ensures key == SENTINEL ==> (pos >= 0 <==> !filled[keys.Length - 1])
      ensures key > SENTINEL ==> pos == -1
    {
      hide Mirrors, Entries, GapInv, HasKey;
      var ub := UpperBoundOf(key);
      if key >= SENTINEL { SentinelBound(Layout(), key, ub); }
      if key < SENTINEL { StoredIffBeforeUpperBound(Layout(), key, ub); }
      if ub == 0 || keys[ub - 1] != key { return -1; }
      if key < SENTINEL { BeforeUpperBound(Layout(), key, ub); }
      return ub - 1;
    }

    /** `find_insert_position`: the slot to try first, and the upper bound of the key. */
    method FindInsertPosition(key: int) returns (at: nat, ub: nat)
      requires Valid()
      ensures UpperBound(keys[..], key, ub) && ub <= at <= keys.Length
      ensures at < keys.Length && !filled[at] ==> NoneFilled(filled, ub, at + 1)
      ensures at == keys.Length || filled[at] ==> at == ub
      ensures at == ub || at <= PredictPosition(key)
      ensures at < PredictPosition(key) && !filled[at] ==> at + 1 == keys.Length || filled[at + 1]
    {
      hide Mirrors, GapInv, Entries, UpperBound;
      var predicted := PredictPosition(key);
      ub := UpperBoundOf(key);
      BoundsInside(keys[..], key, ub);
      if predicted <= ub { return ub, ub; }
      var ex := CheckExists(bitmap, ub, filled);
      if ex { return ub, ub; }
      var next := NextFilledPosition(bitmap, keys.Length, ub, true, filled);
      at := if predicted < next - 1 then predicted else next - 1;
    }

    /** The node has reached its expansion threshold. */
    predicate IsFull()
      reads this
    {
      numKeys as real >= expansionThreshold
    }

    /** The flag with which an insertion is turned away for cost or size, or 0. */
    function Refusal(advice: Advice): (flag: int)
      reads this
    {
      if numInserts % 64 == 0 && advice.catastrophic then 2
      else if !IsFull() then 0
      else if advice.deviation then 1
      else if advice.catastrophic then 2
      else if numKeys as real > maxSlots as real * MIN_DENSITY then 3
      else 0
    }

    /** The slots of the node change to an insertion of `e`: in a gap, or by shifting towards one. */
    method PutAt(e: Entry, at: nat, ub: nat) returns (pos: nat)
      requires Valid() && e.key < SENTINEL && numKeys < keys.Length
      requires UpperBound(keys[..], e.key, ub) && ub <= at <= keys.Length
      requires at < keys.Length && !filled[at] ==> NoneFilled(filled, ub, at + 1)
      requires at == keys.Length || filled[at] ==> at == ub
      modifies this`numKeys, this`filled, keys, payloads, bitmap
      ensures Valid() && Contents() == old(InsertSorted(Contents(), e))
      ensures pos < keys.Length && filled[pos] && keys[pos] == e.key && payloads[pos] == e.payload
    {
      hide Mirrors, GapInv, Entries, UpperBound, InsertSorted, ThresholdsFit;
      ghost var s := Layout();
      GapInvShape(s);
      InsertAddsLength(Entries(s), e);
      var free := at < keys.Length;
      if free {
        var ex := CheckExists(bitmap, at, filled);
        free := !ex;
      }
      if free {
        ghost var lo := InsertElementAt(keys, payloads, bitmap, at, e, filled);
        RunStartsAtBound(s, e.key, ub, lo, at);
        PlaceKeeps(s, View(keys, payloads, filled[at := true]), lo, at, e);
        filled := filled[at := true];
        pos := at;
      } else {
        if AllFilled(filled, 0, |filled|) { FullNode(s); }
        pos, filled := InsertUsingShifts(keys, payloads, bitmap, at, e, filled);
      }
      numKeys := numKeys + 1;
    }

    /** The second half of `insert`: the entry goes into a node with room, unless it is a duplicate. */
    method InsertHere(e: Entry) returns (flag: int, pos: int)
      requires Valid() && e.key < SENTINEL && !IsFull()
      modifies this`numKeys, this`numInserts, this`filled, keys, payloads, bitmap
      ensures Valid() && numInserts == old(numInserts) + if flag == 0 then 1 else 0
      ensures flag == if !allowDuplicates && HasKey(old(Contents()), e.key) then -1 else 0
      ensures Contents() == if flag == 0 then old(InsertSorted(Contents(), e)) else old(Contents())
      ensures 0 <= pos < keys.Length && filled[pos] && keys[pos] == e.key
      ensures flag == 0 ==> payloads[pos] == e.payload
    {
      hide Mirrors, GapInv, Entries, UpperBound, InsertSorted, HasKey, Distinct, ThresholdsFit;
      var at, ub := FindInsertPosition(e.key);
      StoredIffBeforeUpperBound(Layout(), e.key, ub);
      if !allowDuplicates && ub > 0 && keys[ub - 1] == e.key {
        BeforeUpperBound(Layout(), e.key, ub);
        return -1, ub - 1;
      }
      pos := PutAt(e, at, ub);
      numInserts := numInserts + 1;
      return 0, pos;
    }

    /** A full node gets more slots. */
    method Expand(retrained: int -> int)
      requires Valid() && IsFull()
      modifies this
      ensures Valid() && Contents() == old(Contents()) && fresh(Repr() - old(Repr())) && !IsFull()
      ensures numKeys == old(numKeys) == loaded && numInserts == old(numInserts)
      ensures keys.Length == Max(10 * numKeys / 6, numKeys + 1)
    {
      hide Mirrors, GapInv, Entries, Distinct, ThresholdsFit;
      CapacitiesAre(numKeys);
      Resize(MIN_DENSITY, retrained);
    }

    /**
     * `insert`. Flag 0: inserted; -1: the key is there and duplicates are not allowed; 1, 2 and 3: refused
     * because of the cost or the size of the node.
     */
    method Insert(e: Entry, advice: Advice) returns (flag: int, pos: int)
      requires Valid() && e.key < SENTINEL
      modifies Repr()
      ensures Valid() && fresh(Repr() - old(Repr()))
      ensures flag in {0, 1, 2, 3, -1} && numInserts == old(numInserts) + if flag == 0 then 1 else 0
      ensures flag == 1 <==> old(IsFull()) && advice.deviation && !(advice.catastrophic && old(numInserts) % 64 == 0)
      ensures flag == 2 <==> advice.catastrophic && (old(numInserts) % 64 == 0 || (old(IsFull()) && !advice.deviation))
      ensures flag == 3 <==> old(IsFull()) && !advice.deviation && !advice.catastrophic
                             && 10 * old(numKeys) > 6 * maxSlots
      ensures old(IsFull()) <==>
                old(numKeys >= keys.Length || (10 * numKeys >= 8 * keys.Length && numKeys > loaded))
      ensures keys.Length ==
                if old(IsFull()) && flag <= 0 then Max(10 * old(numKeys) / 6, old(numKeys) + 1) else old(keys.Length)
      ensures loaded == if old(IsFull()) && flag <= 0 then old(numKeys) else old(loaded)
      ensures flag > 0 <==> old(Refusal(advice)) != 0
      ensures flag > 0 ==> flag == old(Refusal(advice)) == Refusal(advice)
      ensures Contents() == if flag == 0 then old(InsertSorted(Contents(), e)) else old(Contents())
      ensures flag == -1 <==> old(Refusal(advice)) == 0 && !allowDuplicates && HasKey(old(Contents()), e.key)
      ensures flag in {0, -1} ==> 0 <= pos < keys.Length && filled[pos] && keys[pos] == e.key
      ensures flag == 0 ==> payloads[pos] == e.payload
    {
      hide Mirrors, GapInv, Entries, UpperBound, InsertSorted, HasKey, Distinct, ThresholdsFit;
      ThresholdsAt(expansionThreshold, contractionThreshold, keys.Length, loaded, numKeys);
      TenthsOf(maxSlots);
      if numInserts % 64 == 0 && advice.catastrophic { return 2, -1; }
      if IsFull() {
        if advice.deviation { return 1, -1; }
        if advice.catastrophic { return 2, -1; }
        if numKeys as real > maxSlots as real * MIN_DENSITY { return 3, -1; }
        Expand(advice.retrained);
      }
      flag, pos := InsertHere(e);
    }

    /** The end of every erasure: a node that has become too empty gets fewer slots. */
    method Contract(retrained: int -> int)
      requires Valid()
      modifies this
      ensures Valid() && Contents() == old(Contents()) && fresh(Repr() - old(Repr())) && numKeys == old(numKeys)
      ensures keys.Length == if 0 < 10 * numKeys < 6 * old(keys.Length) && old(loaded) > 0
                             then Max(10 * numKeys / 8, numKeys + 1) else old(keys.Length)
    {
      hide Mirrors, GapInv, Entries, Distinct, ThresholdsFit;
      ThresholdsAt(expansionThreshold, contractionThreshold, keys.Length, loaded, numKeys);
      CapacitiesAre(numKeys);
      if numKeys as real < contractionThreshold { Resize(MAX_DENSITY, retrained); }
    }

    /** `erase`: removes every entry with the key and says how many there were. */
    method Erase(key: int, retrained: int -> int) returns (erased: nat)
      requires Valid()
      modifies Repr()
      ensures Valid() && fresh(Repr() - old(Repr()))
      ensures Contents() == old(WithoutKey(Contents(), key))
      ensures erased == old(|Contents()|) - |Contents()|
      ensures var found := HasKey(old(Contents()), key) || (key == SENTINEL && !old(filled)[old(keys.Length) - 1]);
              keys.Length == if found && 0 < 10 * numKeys < 6 * old(keys.Length) && old(loaded) > 0
                             then Max(10 * numKeys / 8, numKeys + 1) else old(keys.Length)
    {
      hide Mirrors, GapInv, Entries, UpperBound, WithoutKey, HasKey, Distinct, ThresholdsFit;
      var ub := UpperBoundOf(key);
      BoundsInside(keys[..], key, ub);
      FoundExactly(Layout(), key, ub);
      if ub == 0 || keys[ub - 1] != key {
        AbsentKey(Layout(), key, ub);
        return 0;
      }
      erased, filled := EraseRun(keys, payloads, bitmap, ub, key, filled);
      numKeys := numKeys - erased;
      Contract(retrained);
    }

    /** `erase_one_at`: removes the entry of one slot and no other. */
    method EraseOneAt(pos: nat, retrained: int -> int)
      requires Valid() && pos < keys.Length && filled[pos]
      modifies Repr()
      ensures Valid() && fresh(Repr() - old(Repr()))
      ensures Contents() == old(Live(Layout(), 0, pos) + Live(Layout(), pos + 1, keys.Length))
      ensures keys.Length == if 0 < 10 * numKeys < 6 * old(keys.Length) && old(loaded) > 0
                             then Max(10 * numKeys / 8, numKeys + 1) else old(keys.Length)
    {
      hide Mirrors, GapInv, Entries, Live, Distinct, ThresholdsFit;
      EraseSlot(keys, payloads, bitmap, pos, filled);
      filled := filled[pos := false];
      numKeys := numKeys - 1;
      Contract(retrained);
    }

    /** `erase_one`: removes the left-most entry with the key, if there is one. */
    method EraseOne(key: int, retrained: int -> int) returns (erased: nat)
      requires Valid() && (key <= keys[keys.Length - 1] || keys.Length % 64 != 0)
      modifies Repr()
      ensures Valid() && fresh(Repr() - old(Repr()))
      ensures Contents() == old(WithoutFirst(Contents(), key))
      ensures erased == if HasKey(old(Contents()), key) then 1 else 0
    {
      hide Mirrors, GapInv, Entries, Live, Distinct, HasKey, WithoutFirst;
      var pos := FindLower(key);
      if pos == keys.Length || keys[pos] != key {
        NoneToErase(Layout(), key, pos);
        return 0;
      }
      FirstErased(Layout(), key, pos);
      EraseOneAt(pos, retrained);
      return 1;
    }
  }

  /** Every position up to the end is inside the bitmap, unless the end is a multiple of the word size. */
  lemma WordsReach(words: seq<Word>, filled: seq<bool>, pos: nat)
    requires Mirrors(words, filled) && pos <= |filled| && (pos < |filled| || |filled| % 64 != 0)
    ensures pos < 64 * |words|
  {
  }

  /** The upper bound of the sentinel is the end; the last slot carries it exactly if it is a gap. */
  lemma SentinelBound(s: Slots, key: int, ub: nat)
    requires GapInv(s) && UpperBound(s.keys, key, ub) && key >= SENTINEL && |s.keys| > 0
    ensures ub == |s.keys| && (s.keys[ub - 1] == SENTINEL <==> !s.filled[ub - 1]) && s.keys[ub - 1] <= SENTINEL
  {
    var n := |s.keys|;
    assert if s.filled[n - 1] then s.keys[n - 1] < SENTINEL else s.keys[n - 1] == NextKey(s.keys, n);
  }

  /** The list without its first entry with the key. */
  function WithoutFirst(es: seq<Entry>, k: int): (r: seq<Entry>) {
    if |es| == 0 then [] else if es[0].key == k then es[1..] else [es[0]] + WithoutFirst(es[1..], k)
  }

  lemma {:induction false} WithoutFirstAfter(a: seq<Entry>, b: seq<Entry>, k: int)
    requires forall i | 0 <= i < |a| :: a[i].key != k
    ensures WithoutFirst(a + b, k) == a + WithoutFirst(b, k)
    ensures HasKey(a + b, k) <==> HasKey(b, k)
  {
    if |a| == 0 {
      assert a + b == b;
    } else {
      WithoutFirstAfter(a[1..], b, k);
      assert (a + b)[0] == a[0] && (a + b)[1..] == a[1..] + b;
      assert forall i | 0 <= i < |b| :: (a + b)[|a| + i] == b[i];
      assert forall i | |a| <= i < |a + b| :: (a + b)[i] == b[i - |a|];
    }
  }

  /** Keys below the position are other keys. */
  lemma OtherKeys(s: Slots, key: int, pos: nat)
    requires GapInv(s) && pos <= |s.keys| && forall i | 0 <= i < pos && s.filled[i] :: s.keys[i] < key
    ensures forall i | 0 <= i < |Live(s, 0, pos)| :: Live(s, 0, pos)[i].key != key
  {
    forall i | 0 <= i < |Live(s, 0, pos)| ensures Live(s, 0, pos)[i].key != key {
      var j := LiveOrigin(s, 0, pos, i);
    }
  }

  lemma FirstErased(s: Slots, key: int, pos: nat)
    requires GapInv(s) && pos < |s.keys| && s.filled[pos] && s.keys[pos] == key
    requires forall i | 0 <= i < pos && s.filled[i] :: s.keys[i] < key
    ensures WithoutFirst(Entries(s), key) == Live(s, 0, pos) + Live(s, pos + 1, |s.keys|) && HasKey(Entries(s), key)
  {
    hide Live, GapsRepeat;
    var a, e, b := Live(s, 0, pos), Entry(key, s.payloads[pos]), Live(s, pos + 1, |s.keys|);
    OtherKeys(s, key, pos);
    LiveSplit(s, 0, pos, |s.keys|);
    LiveSplit(s, pos, pos + 1, |s.keys|);
    LiveOne(s, pos);
    WithoutFirstAfter(a, [e] + b, key);
    assert ([e] + b)[0] == e && ([e] + b)[1..] == b;
  }

  lemma NoneToErase(s: Slots, key: int, pos: nat)
    requires GapInv(s) && pos <= |s.keys| && forall i | 0 <= i < pos && s.filled[i] :: s.keys[i] < key
    requires pos < |s.keys| ==> s.filled[pos] && key < s.keys[pos]
    ensures WithoutFirst(Entries(s), key) == Entries(s) && !HasKey(Entries(s), key)
  {
    hide GapsRepeat;
    var n := |s.keys|;
    forall i | 0 <= i < |Entries(s)| ensures Entries(s)[i].key != key {
      var j := LiveOrigin(s, 0, n, i);
      assert j > pos ==> s.keys[pos] <= s.keys[j];
    }
    WithoutFirstAfter(Entries(s), [], key);
    assert Entries(s) + [] == Entries(s);
  }

  lemma {:induction false} InsertAddsLength(es: seq<Entry>, e: Entry)
    ensures |InsertSorted(es, e)| == |es| + 1
  {
    if |es| > 0 && es[0].key <= e.key { InsertAddsLength(es[1..], e); }
  }

  /** The gaps overwritten by an insertion begin at the upper bound of the key. */
  lemma RunStartsAtBound(s: Slots, key: int, ub: nat, lo: nat, at: nat)
    requires GapInv(s) && UpperBound(s.keys, key, ub) && key < SENTINEL && ub <= at < |s.keys|
    requires NoneFilled(s.filled, ub, at + 1) && lo <= at
    requires NoneFilled(s.filled, lo, at) && (lo == 0 || s.filled[lo - 1])
    ensures lo == ub && forall i | lo <= i <= at :: !s.filled[i]
  {
    hide GapsRepeat, Sorted;
    if ub > 0 { BeforeUpperBound(s, key, ub); }
  }

  lemma FullNode(s: Slots)
    requires SameSize(s) && AllFilled(s.filled, 0, |s.filled|)
    ensures |Entries(s)| == |s.keys|
  {
    RoomMeansGap(s, |s.keys|);
  }

  /** The slot before the upper bound carries the key exactly if the key is stored, or is the sentinel and the last slot
      is a gap. */
  lemma FoundExactly(s: Slots, key: int, ub: nat)
    requires GapInv(s) && UpperBound(s.keys, key, ub) && |s.keys| > 0
    ensures ub <= |s.keys|
    ensures ub > 0 && s.keys[ub - 1] == key
      <==> HasKey(Entries(s), key) || (key == SENTINEL && !s.filled[|s.keys| - 1])
  {
    if key < SENTINEL {
      StoredIffBeforeUpperBound(s, key, ub);
    } else {
      SentinelBound(s, key, ub);
      forall i | 0 <= i < |Entries(s)| ensures Entries(s)[i].key != key {
        var j := LiveOrigin(s, 0, |s.keys|, i);
      }
    }
  }

  /** A key that the slot before its upper bound does not carry is not stored. */
  lemma AbsentKey(s: Slots, key: int, ub: nat)
    requires GapInv(s) && UpperBound(s.keys, key, ub)
    requires ub == 0 || s.keys[ub - 1] != key
    ensures WithoutKey(Entries(s), key) == Entries(s)
  {
    if HasKey(Entries(s), key) {
      var i :| 0 <= i < |Entries(s)| && Entries(s)[i].key == key;
      var j := LiveOrigin(s, 0, |s.keys|, i);
      assert false;
    }
    WithoutAbsent(Entries(s), key);
  }

  lemma WholeRange(s: Slots)
    requires SameSize(s)
    ensures Live(s, 0, |s.keys|) == Entries(s)
  {
  }

  lemma BoundsInside(keys: seq<int>, key: int, ub: nat)
    requires UpperBound(keys, key, ub)
    ensures ub <= |keys|
  {
  }

  // ----- whole runs -----

  datatype Operation = Put(entry: Entry, advice: Advice) | Drop(key: int, retrained: int -> int)

  /** An operation on the ordered list of entries, without any model. */
  function Apply(es: seq<Entry>, op: Operation, allowDuplicates: bool): (r: seq<Entry>) {
    match op
    case Put(e, _) => if !allowDuplicates && HasKey(es, e.key) then es else InsertSorted(es, e)
    case Drop(k, _) => WithoutKey(es, k)
  }

  function ApplyAll(es: seq<Entry>, ops: seq<Operation>, allowDuplicates: bool): (r: seq<Entry>) {
    if |ops| == 0 then es else Apply(ApplyAll(es, ops[..|ops| - 1], allowDuplicates), ops[|ops| - 1], allowDuplicates)
  }

  /** The same operation with other cost estimates and another model. */
  predicate SameRequest(a: Operation, b: Operation) {
    match (a, b)
    case (Put(e, _), Put(f, _)) => e == f
    case (Drop(k, _), Drop(l, _)) => k == l
    case _ => false
  }

  lemma {:induction false} ReferenceIgnoresAdvice(es: seq<Entry>, a: seq<Operation>, b: seq<Operation>,
      allowDuplicates: bool)
    requires |a| == |b| && forall i | 0 <= i < |a| :: SameRequest(a[i], b[i])
    ensures ApplyAll(es, a, allowDuplicates) == ApplyAll(es, b, allowDuplicates)
  {
    if |a| > 0 {
      var n := |a| - 1;
      ReferenceIgnoresAdvice(es, a[..n], b[..n], allowDuplicates);
      assert SameRequest(a[n], b[n]);
    }
  }

  /** Every run leaves the node with the entries an ordered list would have after the operations it has done, and stops
      early exactly at an insertion that the node refuses. */
  method Run(node: DataNode, ops: seq<Operation>) returns (done: nat)
    requires node.Valid()
    requires forall i | 0 <= i < |ops| && ops[i].Put? :: ops[i].entry.key < SENTINEL
    modifies node.Repr()
    ensures node.Valid() && Loadable(node.Contents()) && fresh(node.Repr() - old(node.Repr()))
    ensures done <= |ops| && node.Contents() == ApplyAll(old(node.Contents()), ops[..done], node.allowDuplicates)
    ensures done < |ops| ==> ops[done].Put? && node.Refusal(ops[done].advice) != 0
  {
    hide Mirrors, GapInv, Entries, Loadable, DataNode.Valid, DataNode.Refusal, Apply;
    ghost var es := node.Contents();
    done := 0;
    while done < |ops|
      invariant 0 <= done <= |ops| && node.Valid() && fresh(node.Repr() - old(node.Repr()))
      invariant node.Contents() == ApplyAll(es, ops[..done], node.allowDuplicates)
    {
      var refused := RunOne(node, ops[done]);
      if refused { break; }
      assert ops[..done + 1][..done] == ops[..done];
      done := done + 1;
    }
    ContentsLoadable(node);
  }

  /** Two nodes with the same entries are given the same requests. As long as neither refuses one that the other
      accepts they keep the same entries, whatever their models, capacities and cost estimates. */
  method TwinRuns(a: DataNode, b: DataNode, opsA: seq<Operation>, opsB: seq<Operation>)
      returns (doneA: nat, doneB: nat)
    requires a.Valid() && b.Valid() && a.Repr() !! b.Repr()
    requires a.allowDuplicates == b.allowDuplicates && a.Contents() == b.Contents()
    requires |opsA| == |opsB| && forall i | 0 <= i < |opsA| :: SameRequest(opsA[i], opsB[i])
    requires forall i | 0 <= i < |opsA| && opsA[i].Put? :: opsA[i].entry.key < SENTINEL
    modifies a.Repr(), b.Repr()
    ensures a.Valid() && b.Valid() && doneA <= |opsA| && doneB <= |opsB|
    ensures doneA < |opsA| ==> opsA[doneA].Put? && a.Refusal(opsA[doneA].advice) != 0
    ensures doneB < |opsB| ==> opsB[doneB].Put? && b.Refusal(opsB[doneB].advice) != 0
    ensures doneA == doneB ==> a.Contents() == b.Contents()
  {
    hide Mirrors, GapInv, Entries, Loadable, DataNode.Valid, DataNode.Refusal, Apply, ApplyAll;
    doneA := Run(a, opsA);
    assert forall i | 0 <= i < |opsB| && opsB[i].Put? :: opsB[i].entry.key < SENTINEL by { PutKeysAgree(opsA, opsB); }
    doneB := Run(b, opsB);
    if doneA == doneB {
      ReferenceIgnoresAdvice(old(a.Contents()), opsA[..doneA], opsB[..doneB], a.allowDuplicates);
    }
  }

  lemma PutKeysAgree(a: seq<Operation>, b: seq<Operation>)
    requires |a| == |b| && forall i | 0 <= i < |a| :: SameRequest(a[i], b[i])
    requires forall i | 0 <= i < |a| && a[i].Put? :: a[i].entry.key < SENTINEL
    ensures forall i | 0 <= i < |b| && b[i].Put? :: b[i].entry.key < SENTINEL
  {
    forall i | 0 <= i < |b| && b[i].Put? ensures b[i].entry.key < SENTINEL { assert SameRequest(a[i], b[i]); }
  }

  /** The failure of `find_key` is real: an empty node answers a search for the sentinel with a gap. */
  method SentinelIsFound(trained: int -> int) returns (node: DataNode, pos: int)
    ensures node.Valid() && node.Contents() == [] && 0 <= pos < node.keys.Length && !node.filled[pos]
  {
    hide Mirrors, GapInv, Entries;
    node := new DataNode(1, false);
    node.BulkLoad([], trained);
    NothingStored(node.Layout());
    pos := node.FindKey(SENTINEL);
  }

  lemma NothingStored(s: Slots)
    requires SameSize(s) && |s.keys| > 0 && Entries(s) == []
    ensures !s.filled[|s.keys| - 1]
  {
  }

  lemma ContentsLoadable(node: DataNode)
    requires node.Valid()
    ensures Loadable(node.Contents())
  {
    hide Entries, Mirrors, Loadable;
    EntriesLoadable(node.Layout());
  }

  method RunOne(node: DataNode, op: Operation) returns (refused: bool)
    requires node.Valid() && (op.Put? ==> op.entry.key < SENTINEL)
    modifies node.Repr()
    ensures node.Valid() && fresh(node.Repr() - old(node.Repr()))
    ensures !refused ==> node.Contents() == Apply(old(node.Contents()), op, node.allowDuplicates)
    ensures refused ==> node.Contents() == old(node.Contents()) && op.Put? && node.Refusal(op.advice) != 0
  {
    hide Mirrors, GapInv, Entries, InsertSorted, WithoutKey, HasKey, DataNode.Valid, DataNode.Refusal;
    refused := false;
    match op {
      case Put(e, advice) =>
        var flag, pos := node.Insert(e, advice);
        refused := flag > 0;
      case Drop(k, retrained) =>
        var erased := node.Erase(k, retrained);
    }
  }
}
