/** Which slots a rebuild fills: the entries of a node at the places its model wants, as far as order and room allow. */
module AlexPlacement {
  import opened AlexBits
  import opened AlexBitmap
  import opened AlexSlots

  type Model = int -> int

  /** The slot of entry `i` among `cap` slots: where the model wants it, or behind the entry before if that is later,
      but not so late that those after it have no room. */
  function SlotFor(es: seq<Entry>, model: Model, cap: nat, i: nat): (p: nat)
    requires i < |es| <= cap
    ensures p <= cap - |es| + i
  {
    var behind := if i == 0 then 0 else SlotFor(es, model, cap, i - 1) + 1;
    var latest := cap - |es| + i;
    var wanted := if model(es[i].key) < behind then behind else model(es[i].key);
    if wanted < latest then wanted else latest
  }

  /** The slots filled once the first `n` entries are placed. */
  function Marks(es: seq<Entry>, model: Model, cap: nat, n: nat): (filled: seq<bool>)
    requires n <= |es| <= cap
    ensures |filled| == cap
  {
    if n == 0 then seq(cap, _ => false)
    else Marks(es, model, cap, n - 1)[SlotFor(es, model, cap, n - 1) := true]
  }

  lemma NoMarks(es: seq<Entry>, model: Model, cap: nat)
    requires |es| <= cap
    ensures Marks(es, model, cap, 0) == seq(cap, _ => false)
  {
  }

  lemma NextMark(es: seq<Entry>, model: Model, cap: nat, n: nat)
    requires n < |es| <= cap
    ensures Marks(es, model, cap, n + 1) == Marks(es, model, cap, n)[SlotFor(es, model, cap, n) := true]
  {
  }

  /** Once an entry has to be put as late as possible, so have all that follow. */
  lemma {:induction false} LatestStays(es: seq<Entry>, model: Model, cap: nat, i: nat, j: nat)
    requires i <= j < |es| <= cap && SlotFor(es, model, cap, i) == cap - |es| + i
    ensures SlotFor(es, model, cap, j) == cap - |es| + j
    decreases j
  {
    if i < j { LatestStays(es, model, cap, i, j - 1); }
  }

  lemma {:induction false} SlotsAscend(es: seq<Entry>, model: Model, cap: nat, i: nat, j: nat)
    requires i < j < |es| <= cap
    ensures SlotFor(es, model, cap, i) < SlotFor(es, model, cap, j)
    decreases j
  {
    if i < j - 1 { SlotsAscend(es, model, cap, i, j - 1); }
  }

  /** An entry is exactly where its model wants it unless the entry before has taken that slot or a later one, or there
      would be no room left for those after it. */
  lemma AtPrediction(es: seq<Entry>, model: Model, cap: nat, i: nat)
    requires i < |es| <= cap
    ensures var p := model(es[i].key);
      SlotFor(es, model, cap, i) == p <==>
        0 <= p <= cap - |es| + i && (i > 0 ==> SlotFor(es, model, cap, i - 1) < p)
  {
    if i > 0 { SlotsAscend(es, model, cap, i - 1, i); }
  }

  /** One of the first `n` entries goes to slot `p`. */
  ghost predicate Taken(es: seq<Entry>, model: Model, cap: nat, n: nat, p: nat)
    requires n <= |es| <= cap
  {
    exists i: nat :: i < n && SlotFor(es, model, cap, i) == p
  }

  /** A slot is filled exactly if it is that of some entry. */
  lemma {:induction false} MarksAre(es: seq<Entry>, model: Model, cap: nat, n: nat, p: nat)
    requires n <= |es| <= cap && p < cap
    ensures Marks(es, model, cap, n)[p] <==> Taken(es, model, cap, n, p)
    decreases n
  {
    hide SlotFor;
    if n > 0 {
      MarksAre(es, model, cap, n - 1, p);
      assert Taken(es, model, cap, n, p) <==> Taken(es, model, cap, n - 1, p) || SlotFor(es, model, cap, n - 1) == p;
    }
  }

  /** In a node filled so, the slot of entry `i` holds entry `i`. */
  lemma EntryInItsSlot(s: Slots, model: Model, i: nat)
    requires SameSize(s) && i < |Entries(s)| <= |s.keys|
    requires s.filled == Marks(Entries(s), model, |s.keys|, |Entries(s)|)
    ensures var p := SlotFor(Entries(s), model, |s.keys|, i);
      p < |s.keys| && Entry(s.keys[p], s.payloads[p]) == Entries(s)[i]
  {
    hide Live, SlotFor, Marks;
    var es, cap := Entries(s), |s.keys|;
    var p := SlotFor(es, model, cap, i);
    EntriesUpTo(s, es, model, i);
    LiveSplit(s, 0, p + 1, cap);
  }

  lemma {:induction false} EntriesUpTo(s: Slots, es: seq<Entry>, model: Model, i: nat)
    requires SameSize(s) && i < |es| <= |s.keys| && s.filled == Marks(es, model, |s.keys|, |es|)
    ensures var p := SlotFor(es, model, |s.keys|, i);
      var before := Live(s, 0, p + 1);
      |before| == i + 1 && before[i] == Entry(s.keys[p], s.payloads[p])
    decreases i
  {
    hide Live, SlotFor, Marks;
    var cap := |s.keys|;
    var p := SlotFor(es, model, cap, i);
    var from := if i == 0 then 0 else SlotFor(es, model, cap, i - 1) + 1;
    if i > 0 {
      EntriesUpTo(s, es, model, i - 1);
      SlotsAscend(es, model, cap, i - 1, i);
    } else {
      LiveNone(s, 0, 0);
    }
    forall q | from <= q < p ensures !s.filled[q] {
      MarksAre(es, model, cap, |es|, q);
      forall j: nat | j < |es| ensures SlotFor(es, model, cap, j) != q {
        if j < i - 1 { SlotsAscend(es, model, cap, j, i - 1); }
        if j > i { SlotsAscend(es, model, cap, i, j); }
      }
    }
    MarksAre(es, model, cap, |es|, p);
    LiveNone(s, from, p);
    LiveOne(s, p);
    LiveSplit(s, 0, from, p);
    LiveSplit(s, 0, p, p + 1);
  }
}
