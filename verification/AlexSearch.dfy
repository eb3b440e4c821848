/** Exponential search from a guess, then binary search, over the sorted key slots. */
module AlexSearch {
  import opened AlexSlots

  /** The position of the predicted slot, clamped to the node. */
  function ClampedPosition(predicted: int, capacity: nat): (pos: nat)
    requires capacity > 0
    ensures pos < capacity && (0 <= predicted < capacity ==> pos == predicted)
    ensures (predicted < 0 ==> pos == 0) && (predicted >= capacity ==> pos == capacity - 1)
  {
    if predicted < 0 then 0 else if predicted < capacity then predicted else capacity - 1
  }

  method BinarySearchUpperBound(keys: array<int>, l0: nat, r0: nat, key: int) returns (pos: nat)
    requires Sorted(keys[..]) && l0 <= r0 <= keys.Length
    requires forall i | 0 <= i < l0 :: keys[i] <= key
    requires forall i | r0 <= i < keys.Length :: key < keys[i]
    ensures l0 <= pos <= r0 && UpperBound(keys[..], key, pos)
  {
    var l, r := l0, r0;
    while l < r
      invariant l0 <= l <= r <= r0
      invariant forall i | 0 <= i < l :: keys[i] <= key
      invariant forall i | r <= i < keys.Length :: key < keys[i]
    {
      var mid := l + (r - l) / 2;
      Below(keys, mid);
      if keys[mid] <= key {
        l := mid + 1;
      } else {
        r := mid;
      }
    }
    return l;
  }

  method BinarySearchLowerBound(keys: array<int>, l0: nat, r0: nat, key: int) returns (pos: nat)
    requires Sorted(keys[..]) && l0 <= r0 <= keys.Length
    requires forall i | 0 <= i < l0 :: keys[i] < key
    requires forall i | r0 <= i < keys.Length :: key <= keys[i]
    ensures l0 <= pos <= r0 && LowerBound(keys[..], key, pos)
  {
    var l, r := l0, r0;
    while l < r
      invariant l0 <= l <= r <= r0
      invariant forall i | 0 <= i < l :: keys[i] < key
      invariant forall i | r <= i < keys.Length :: key <= keys[i]
    {
      var mid := l + (r - l) / 2;
      Below(keys, mid);
      if keys[mid] >= key {
        r := mid;
      } else {
        l := mid + 1;
      }
    }
    return l;
  }

  /** What the order says about one slot. */
  lemma Below(keys: array<int>, m: nat)
    requires Sorted(keys[..]) && m < keys.Length
    ensures forall i | 0 <= i < m :: keys[i] <= keys[m]
    ensures forall i | m < i < keys.Length :: keys[m] <= keys[i]
  {
    forall i | 0 <= i < m ensures keys[i] <= keys[m] { assert keys[..][i] <= keys[..][m]; }
    forall i | m < i < keys.Length ensures keys[m] <= keys[i] { assert keys[..][m] <= keys[..][i]; }
  }

  /** `exponential_search_upper_bound`: the first slot greater than the key, from any starting slot. */
  method ExponentialSearchUpperBound(keys: array<int>, m: nat, key: int) returns (pos: nat)
    requires Sorted(keys[..]) && m < keys.Length
    ensures UpperBound(keys[..], key, pos)
  {
    var bound := 1;
    var l, r;
    hide Sorted, UpperBound;
    Below(keys, m);
    if keys[m] > key {
      var size := m;
      while bound < size && keys[m - bound] > key
        invariant 1 <= bound && bound / 2 <= size && key < keys[m - bound / 2]
        decreases size - bound
      {
        bound := bound * 2;
      }
      l := m - if bound < size then bound else size;
      r := m - bound / 2;
    } else {
      var size := keys.Length - m;
      while bound < size && keys[m + bound] <= key
        invariant 1 <= bound && bound / 2 < size && keys[m + bound / 2] <= key
        decreases size - bound
      {
        bound := bound * 2;
      }
      l := m + bound / 2;
      r := m + if bound < size then bound else size;
    }
    if l < keys.Length { Below(keys, l); }
    if r < keys.Length { Below(keys, r); }
    pos := BinarySearchUpperBound(keys, l, r, key);
  }

  /** `exponential_search_lower_bound`: the first slot not less than the key, from any starting slot. */
  method ExponentialSearchLowerBound(keys: array<int>, m: nat, key: int) returns (pos: nat)
    requires Sorted(keys[..]) && m < keys.Length
    ensures LowerBound(keys[..], key, pos)
  {
    var bound := 1;
    var l, r;
    hide Sorted, LowerBound;
    Below(keys, m);
    if keys[m] >= key {
      var size := m;
      while bound < size && keys[m - bound] >= key
        invariant 1 <= bound && bound / 2 <= size && key <= keys[m - bound / 2]
        decreases size - bound
      {
        bound := bound * 2;
      }
      l := m - if bound < size then bound else size;
      r := m - bound / 2;
    } else {
      var size := keys.Length - m;
      while bound < size && keys[m + bound] < key
        invariant 1 <= bound && bound / 2 < size && keys[m + bound / 2] < key
        decreases size - bound
      {
        bound := bound * 2;
      }
      l := m + bound / 2;
      r := m + if bound < size then bound else size;
    }
    if l < keys.Length { Below(keys, l); }
    if r < keys.Length { Below(keys, r); }
    pos := BinarySearchLowerBound(keys, l, r, key);
  }
}
