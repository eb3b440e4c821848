/** The arena-chained cluster hash: sixteen records to a header, overflow headers chained behind it. */
module ClusterHash {
  import opened Hashing

  const CLUSTER: nat := 16
  const HEADER_SIZE: nat := 8 + 16 * CLUSTER

  /** A value: its first eight bytes, which an update overwrites, and the rest. */
  datatype Payload = Payload(head: nat, rest: seq<nat>)

  datatype Record = Record(key: nat, value: Payload)

  datatype Header = Header(next: nat, keys: seq<nat>, indexes: seq<nat>)

  const EMPTY: Header := Header(0, seq(CLUSTER, _ => 0), seq(CLUSTER, _ => 0))

  /** Where a record's index is stored. */
  datatype Place = Place(header: nat, slot: nat)

  // ----- the reference: a list of records, searched from its front -----

  /** The position of the first record with the key, or the length of the list. */
  function FirstWith(records: seq<Record>, key: nat): (d: nat)
    ensures d <= |records|
  {
    if |records| == 0 || records[0].key == key then 0 else 1 + FirstWith(records[1..], key)
  }

  lemma {:induction false} FirstWithIs(records: seq<Record>, key: nat, d: nat)
    requires d <= |records| && (forall i | 0 <= i < d :: records[i].key != key)
    requires (d < |records| ==> records[d].key == key)
    ensures FirstWith(records, key) == d
  {
    if d > 0 { FirstWithIs(records[1..], key, d - 1); }
  }

  // ----- the arena -----

  /** Bytes of the arena taken by header `i`. */
  function HeaderStart(i: nat): (a: nat) { i * HEADER_SIZE }

  /** Bytes of the arena taken by data record `i`, an index from `indirect` on. */
  function DataStart(indirect: nat, dataSize: nat, i: nat): (a: nat)
    requires indirect <= i
  {
    indirect * HEADER_SIZE + (i - indirect) * dataSize
  }

  /** Headers and data records are disjoint and inside the arena. */
  lemma RecordsAreDisjoint(indirect: nat, length: nat, dataSize: nat)
    ensures forall i: nat, j: nat | i < j < indirect :: HeaderStart(i) + 264 <= HeaderStart(j)
    ensures forall i: nat | i < indirect :: HeaderStart(i) + 264 <= DataStart(indirect, dataSize, indirect)
    ensures forall i: nat, j: nat | indirect <= i < j < indirect + length ::
              DataStart(indirect, dataSize, i) + dataSize <= DataStart(indirect, dataSize, j)
    ensures forall i: nat | indirect <= i < indirect + length ::
              DataStart(indirect, dataSize, indirect) <= DataStart(indirect, dataSize, i)
              && DataStart(indirect, dataSize, i) + dataSize <= indirect * 264 + length * dataSize
  {
    forall i: nat, j: nat | indirect <= i < j < indirect + length
      ensures DataStart(indirect, dataSize, i) + dataSize <= DataStart(indirect, dataSize, j)
    {
      Scaled(i - indirect, j - indirect, dataSize);
    }
    forall i: nat | indirect <= i < indirect + length
      ensures DataStart(indirect, dataSize, indirect) <= DataStart(indirect, dataSize, i)
      ensures DataStart(indirect, dataSize, i) + dataSize <= indirect * 264 + length * dataSize
    {
      Scaled(i - indirect, length, dataSize);
    }
  }

  lemma Scaled(a: nat, b: nat, s: nat)
    requires a < b
    ensures a * s + s <= b * s && 0 <= a * s
  {
    assert b * s == (a + 1) * s + (b - a - 1) * s;
  }

  // ----- the invariant -----

  /** A header of the chain of `bucket`: full if it has a successor, and its successor is the next header of the
      chain. */
  ghost predicate HeaderOk(headers: seq<Header>, owner: seq<nat>, free: nat, h: nat)
    requires h < free <= |headers| && |owner| == free
  {
    var n := headers[h];
    && |n.keys| == 16 && |n.indexes| == 16
    && (forall i | 0 <= i < CLUSTER - 1 && n.indexes[i] == 0 :: n.indexes[i + 1] == 0)
    && (n.next != 0 ==> h < n.next < free && owner[n.next] == owner[h] && n.indexes[CLUSTER - 1] != 0)
    && (forall g | h < g < free && owner[g] == owner[h] :: n.next != 0 && n.next <= g)
  }

  /** The place of record `d`. */
  ghost predicate RecordOk(hash: nat -> nat, headers: seq<Header>, owner: seq<nat>, indirect: nat, free: nat,
      places: seq<Place>, records: seq<Record>, d: nat)
    requires d < |records| == |places| && |owner| == free <= |headers|
  {
    var p := places[d];
    && p.header < free && p.slot < CLUSTER
    && |headers[p.header].keys| == CLUSTER && |headers[p.header].indexes| == CLUSTER
    && headers[p.header].indexes[p.slot] == indirect + d && headers[p.header].keys[p.slot] == records[d].key
    && owner[p.header] == hash(records[d].key)
  }

  ghost predicate Before(p: Place, q: Place) {
    p.header < q.header || (p.header == q.header && p.slot < q.slot)
  }

  /** What the index in a slot refers to. */
  ghost predicate SlotOk(headers: seq<Header>, indirect: nat, places: seq<Place>, h: nat, i: nat)
    requires h < |headers|
  {
    i < |headers[h].indexes| && headers[h].indexes[i] != 0 ==>
      indirect <= headers[h].indexes[i] < indirect + |places| && places[headers[h].indexes[i] - indirect] == Place(h, i)
  }

  ghost predicate Arena(hash: nat -> nat, headers: seq<Header>, owner: seq<nat>, logical: nat, indirect: nat,
      free: nat, places: seq<Place>, records: seq<Record>) {
    && 1 <= logical <= free <= indirect == |headers| && |owner| == free && |places| == |records|
    && (forall b | 0 <= b < logical :: owner[b] == b)
    && (forall h | 0 <= h < free :: owner[h] <= h && owner[h] < logical)
    && (forall h | 0 <= h < free :: HeaderOk(headers, owner, free, h))
    && (forall h | free <= h < indirect :: headers[h] == EMPTY)
    && (forall d | 0 <= d < |records| :: RecordOk(hash, headers, owner, indirect, free, places, records, d))
    && (forall h, i | 0 <= h < indirect && 0 <= i < CLUSTER :: SlotOk(headers, indirect, places, h, i))
    && (forall d, e | 0 <= d < e < |records| && hash(records[d].key) == hash(records[e].key) ::
         Before(places[d], places[e]))
  }

  ghost predicate LastAndFull(headers: seq<Header>, h: nat)
    requires h < |headers|
  {
    headers[h].next == 0 && forall j | 0 <= j < |headers[h].indexes| :: headers[h].indexes[j] != 0
  }

  /** Two headers of one chain are not both its last. */
  lemma OneLastHeader(hash: nat -> nat, headers: seq<Header>, owner: seq<nat>, logical: nat, indirect: nat, free: nat,
      places: seq<Place>, records: seq<Record>, h: nat)
    requires Arena(hash, headers, owner, logical, indirect, free, places, records) && h < free && headers[h].next == 0
    ensures |owner| == free <= |headers|
    ensures forall g: nat | g < free && owner[g] == owner[h] && LastAndFull(headers, g) :: g == h
  {
    forall g: nat | g < free && owner[g] == owner[h] && LastAndFull(headers, g) ensures g == h {
      assert HeaderOk(headers, owner, free, g) && HeaderOk(headers, owner, free, h);
    }
  }

  /** No record with the key sits in a chain header before `h`. */
  ghost predicate NotBefore(places: seq<Place>, records: seq<Record>, key: nat, h: nat)
    requires |places| == |records|
  {
    forall d | 0 <= d < |records| && records[d].key == key :: h <= places[d].header
  }

  /** No slot of the header carries the key. */
  ghost predicate NotIn(n: Header, key: nat, upTo: nat)
    requires upTo <= |n.keys| == |n.indexes|
  {
    forall i | 0 <= i < upTo && n.keys[i] == key :: n.indexes[i] == 0
  }

  lemma FoundFirst(hash: nat -> nat, headers: seq<Header>, owner: seq<nat>, logical: nat, indirect: nat, free: nat,
      places: seq<Place>, records: seq<Record>,
                   key: nat, h: nat, i: nat)
    requires Arena(hash, headers, owner, logical, indirect, free, places, records) && h < free
    requires NotBefore(places, records, key, h)
    requires i < |headers[h].keys| == |headers[h].indexes| == CLUSTER && NotIn(headers[h], key, i)
    requires headers[h].keys[i] == key && headers[h].indexes[i] != 0
    ensures indirect <= headers[h].indexes[i] && headers[h].indexes[i] - indirect == FirstWith(records, key) < |records|
    ensures places[FirstWith(records, key)] == Place(h, i)
  {
    assert SlotOk(headers, indirect, places, h, i);
    var d := headers[h].indexes[i] - indirect;
    assert RecordOk(hash, headers, owner, indirect, free, places, records, d);
    forall e | 0 <= e < d ensures records[e].key != key {
      assert RecordOk(hash, headers, owner, indirect, free, places, records, e);
    }
    FirstWithIs(records, key, d);
  }

  lemma NotFoundHere(hash: nat -> nat, headers: seq<Header>, owner: seq<nat>, logical: nat, indirect: nat,
      free: nat, places: seq<Place>, records: seq<Record>,
                     key: nat, h: nat)
    requires Arena(hash, headers, owner, logical, indirect, free, places, records) && h < free
    requires NotBefore(places, records, key, h)
    requires owner[h] == hash(key) && |headers[h].keys| == |headers[h].indexes| == CLUSTER
    requires NotIn(headers[h], key, CLUSTER)
    ensures headers[h].next == 0 ==> FirstWith(records, key) == |records|
    ensures headers[h].next != 0 ==> h < headers[h].next < free && owner[headers[h].next] == hash(key)
    ensures headers[h].next != 0 ==> NotBefore(places, records, key, headers[h].next)
  {
    assert HeaderOk(headers, owner, free, h);
    forall d | 0 <= d < |records| && records[d].key == key
      ensures headers[h].next != 0 && headers[h].next <= places[d].header
    {
      assert RecordOk(hash, headers, owner, indirect, free, places, records, d);
      assert places[d].header != h;
    }
    if headers[h].next == 0 { FirstWithIs(records, key, |records|); }
  }

  class ClusterTable {
    const length: nat
    const logical: nat
    const indirect: nat
    /** `GetHash`, an arbitrary function into the logical headers. */
    const bucketOf: nat -> nat
    var headers: seq<Header>
    var data: seq<Record>
    var freeIndirect: nat
    var freeData: nat
    ghost var owner: seq<nat>
    ghost var places: seq<Place>

    /** The records in the order of their insertion. */
    ghost function Records(): (r: seq<Record>)
      reads this
    {
      if indirect <= freeData <= indirect + |data| then data[..freeData - indirect] else []
    }

    ghost predicate Valid()
      reads this
    {
      && length >= 16 && logical == length / 16 && indirect == length / 2 && |data| == length
      && indirect <= freeData <= indirect + length
      && (forall k: nat :: bucketOf(k) < logical)
      && Arena(bucketOf, headers, owner, logical, indirect, freeIndirect, places, Records())
    }

    constructor (length: nat, murmur: nat -> nat)
      requires length >= 16
      ensures Valid() && Records() == [] && this.length == length
      ensures freeIndirect == length / 16 && forall k: nat :: bucketOf(k) == murmur(k) % (length / 16)
    {
      var l := length / CLUSTER;
      this.length, logical, indirect := length, l, length / 2;
      bucketOf := k => murmur(k) % l;
      headers, data := seq(length / 2, _ => EMPTY), seq(length, _ => Record(0, Payload(0, [])));
      freeIndirect, freeData := l, length / 2;
      owner, places := seq(l, b => b), [];
    }

    /** The loop over the slots of one header. */
    method FindInHeader(h: nat, key: nat) returns (i: nat)
      requires h < |headers| && |headers[h].keys| == |headers[h].indexes| == CLUSTER
      ensures i <= CLUSTER && NotIn(headers[h], key, i)
      ensures i < CLUSTER ==> headers[h].keys[i] == key && headers[h].indexes[i] != 0
    {
      i := 0;
      while i < CLUSTER && !(headers[h].keys[i] == key && headers[h].indexes[i] != 0)
        invariant i <= CLUSTER && NotIn(headers[h], key, i)
      {
        i := i + 1;
      }
    }

    /** The walk along a chain that `Get` and `Update` share: the first record inserted with the key. */
    method Find(key: nat) returns (found: bool, d: nat)
      requires Valid()
      ensures found <==> FirstWith(Records(), key) < |Records()|
      ensures found ==> d == FirstWith(Records(), key)
    {
      hide Arena;
      var h := bucketOf(key);
      ChainStart(bucketOf, headers, owner, logical, indirect, freeIndirect, places, Records(), h);
      assert NotBefore(places, Records(), key, h) by {
        ChainFloor(bucketOf, headers, owner, logical, indirect, freeIndirect, places, Records(), key);
      }
      while true
        invariant h < freeIndirect <= |headers| && |owner| == freeIndirect && |places| == |Records()|
        invariant owner[h] == bucketOf(key)
        invariant NotBefore(places, Records(), key, h)
        decreases freeIndirect - h
      {
        HeaderShape(bucketOf, headers, owner, logical, indirect, freeIndirect, places, Records(), h);
        var i := FindInHeader(h, key);
        if i < CLUSTER {
          FoundFirst(bucketOf, headers, owner, logical, indirect, freeIndirect, places, Records(), key, h, i);
          return true, headers[h].indexes[i] - indirect;
        }
        NotFoundHere(bucketOf, headers, owner, logical, indirect, freeIndirect, places, Records(), key, h);
        if headers[h].next == 0 { return false, 0; }
        h := headers[h].next;
      }
    }

    /** `Get`: the first record inserted with the key. */
    method Get(key: nat) returns (found: bool, value: Payload)
      requires Valid()
      ensures found <==> exists d | 0 <= d < |Records()| :: Records()[d].key == key
      ensures Look(Records(), key) == if found then Some(value) else None
    {
      var d;
      found, d := Find(key);
      FirstWithMeans(Records(), key);
      value := if found then data[d].value else Payload(0, []);
    }

    /** `Update`: overwrites the first eight bytes of the record that `Get` yields. */
    method Update(key: nat, head: nat)
      requires Valid()
      modifies this`data
      ensures Valid() && |Records()| == old(|Records()|)
      ensures var d, rs := old(FirstWith(Records(), key)), old(Records());
              Records() == if d < |rs| then rs[d := Record(key, Payload(head, rs[d].value.rest))] else rs
    {
      hide Arena;
      var found, d := Find(key);
      FirstWithMeans(Records(), key);
      if found {
        ghost var before := Records();
        SameKeysArena(bucketOf, headers, owner, logical, indirect, freeIndirect, places, before,
            before[d := Record(key, Payload(head, before[d].value.rest))]);
        data := data[d := data[d].(value := data[d].value.(head := head))];
        assert Records() == before[d := Record(key, Payload(head, before[d].value.rest))];
      }
    }

    /** The data records are used up, or the chain of the key is full and the overflow headers are used up. */
    ghost predicate NoRoomFor(key: nat)
      reads this
    {
      || freeData == indirect + length
      || (freeIndirect == indirect && exists h: nat ::
          h < |owner| && h < |headers| && owner[h] == bucketOf(key) && LastAndFull(headers, h))
    }

    /** `Insert`: the record goes to the end of its chain; refused when the arena has no room for it. */
    method Insert(key: nat, value: Payload) returns (ok: bool)
      requires Valid()
      modifies this
      ensures Valid()
      ensures Records() == if ok then old(Records()) + [Record(key, value)] else old(Records())
      ensures !ok <==> old(NoRoomFor(key))
      ensures !ok ==> NoRoomFor(key)
    {
      hide Arena;
      if freeData == indirect + length { return false; }
      var h := LastHeader(key);
      HeaderShape(bucketOf, headers, owner, logical, indirect, freeIndirect, places, Records(), h);
      var i := FirstFree(h);
      ghost var before := Records();
      OneLastHeader(bucketOf, headers, owner, logical, indirect, freeIndirect, places, before, h);
      if i < CLUSTER {
        SlotTaken(bucketOf, headers, owner, logical, indirect, freeIndirect, places, before, h, i, Record(key, value));
        headers := headers[h := WithRecord(headers[h], i, key, freeData)];
        places := places + [Place(h, i)];
      } else {
        ArenaShape(bucketOf, headers, owner, logical, indirect, freeIndirect, places, before);
        if freeIndirect == indirect { return false; }
        HeaderTaken(bucketOf, headers, owner, logical, indirect, freeIndirect, places, before, h, Record(key, value));
        headers := headers[h := headers[h].(next := freeIndirect)];
        headers := headers[freeIndirect := WithRecord(EMPTY, 0, key, freeData)];
        places := places + [Place(freeIndirect, 0)];
        owner := owner + [bucketOf(key)];
        freeIndirect := freeIndirect + 1;
      }
      data := data[freeData - indirect := Record(key, value)];
      freeData := freeData + 1;
      assert Records() == before + [Record(key, value)];
      ok := true;
    }

    /** The walk to the end of a chain. */
    method LastHeader(key: nat) returns (h: nat)
      requires Valid()
      ensures h < freeIndirect == |owner| <= |headers| && owner[h] == bucketOf(key) && headers[h].next == 0
    {
      hide Arena;
      h := bucketOf(key);
      ChainStart(bucketOf, headers, owner, logical, indirect, freeIndirect, places, Records(), h);
      while headers[h].next != 0
        invariant h < freeIndirect == |owner| <= |headers| && owner[h] == bucketOf(key)
        decreases freeIndirect - h
      {
        ChainNext(bucketOf, headers, owner, logical, indirect, freeIndirect, places, Records(), h);
        h := headers[h].next;
      }
    }

    method FirstFree(h: nat) returns (i: nat)
      requires h < |headers| && |headers[h].indexes| == CLUSTER
      ensures i <= CLUSTER && (forall j | 0 <= j < i :: headers[h].indexes[j] != 0)
      ensures (i < CLUSTER ==> headers[h].indexes[i] == 0)
    {
      i := 0;
      while i < CLUSTER && headers[h].indexes[i] != 0
        invariant i <= CLUSTER && forall j | 0 <= j < i :: headers[h].indexes[j] != 0
      {
        i := i + 1;
      }
    }
  }

  function WithRecord(n: Header, i: nat, key: nat, index: nat): (m: Header)
    requires i < |n.keys| && i < |n.indexes|
  {
    n.(keys := n.keys[i := key], indexes := n.indexes[i := index])
  }

  lemma ArenaShape(hash: nat -> nat, headers: seq<Header>, owner: seq<nat>, logical: nat, indirect: nat, free: nat,
      places: seq<Place>, records: seq<Record>)
    requires Arena(hash, headers, owner, logical, indirect, free, places, records)
    ensures 1 <= logical <= free <= indirect == |headers| && |owner| == free && |places| == |records|
  {
  }

  lemma ChainNext(hash: nat -> nat, headers: seq<Header>, owner: seq<nat>, logical: nat, indirect: nat, free: nat,
      places: seq<Place>, records: seq<Record>, h: nat)
    requires Arena(hash, headers, owner, logical, indirect, free, places, records) && h < free && h < |headers|
    requires headers[h].next != 0
    ensures h < headers[h].next < free == |owner| && owner[headers[h].next] == owner[h]
  {
    assert HeaderOk(headers, owner, free, h);
  }

  /** The first free slot of the last header of a chain takes the record. */
  lemma SlotTaken(hash: nat -> nat, headers: seq<Header>, owner: seq<nat>, logical: nat, indirect: nat, free: nat,
      places: seq<Place>, records: seq<Record>,
                  h: nat, i: nat, r: Record)
    requires Arena(hash, headers, owner, logical, indirect, free, places, records) && h < free
    requires owner[h] == hash(r.key) && headers[h].next == 0
    requires i < CLUSTER == |headers[h].keys| == |headers[h].indexes|
    requires headers[h].indexes[i] == 0 && forall j | 0 <= j < i :: headers[h].indexes[j] != 0
    ensures Arena(hash, headers[h := WithRecord(headers[h], i, r.key, indirect + |records|)], owner, logical,
                  indirect, free, places + [Place(h, i)], records + [r])
  {
    var hs, ps, rs := headers[h := WithRecord(headers[h], i, r.key, indirect + |records|)], places + [Place(h, i)],
        records + [r];
    assert HeaderOk(headers, owner, free, h);
    AllFreeAfter(headers[h].indexes, i);
    forall g | 0 <= g < free ensures HeaderOk(hs, owner, free, g) { assert HeaderOk(headers, owner, free, g); }
    forall d | 0 <= d < |rs| ensures RecordOk(hash, hs, owner, indirect, free, ps, rs, d) {
      assert d < |records| ==> RecordOk(hash, headers, owner, indirect, free, places, records, d);
    }
    forall g, j | 0 <= g < indirect && 0 <= j < CLUSTER ensures SlotOk(hs, indirect, ps, g, j) {
      assert SlotOk(headers, indirect, places, g, j);
    }
    forall d, e | 0 <= d < e < |rs| && hash(rs[d].key) == hash(rs[e].key) ensures Before(ps[d], ps[e]) {
      if e == |records| {
        assert RecordOk(hash, headers, owner, indirect, free, places, records, d);
      } else {
        assert Before(places[d], places[e]);
      }
    }
  }

  lemma {:induction false} AllFreeAfter(indexes: seq<nat>, i: nat)
    requires |indexes| == CLUSTER && i < CLUSTER && indexes[i] == 0
    requires forall j | 0 <= j < CLUSTER - 1 && indexes[j] == 0 :: indexes[j + 1] == 0
    ensures forall j | i <= j < CLUSTER :: indexes[j] == 0
    decreases CLUSTER - i
  {
    if i < CLUSTER - 1 { AllFreeAfter(indexes, i + 1); }
  }

  /** A new header behind the last one of a chain takes the record. */
  lemma HeaderTaken(hash: nat -> nat, headers: seq<Header>, owner: seq<nat>, logical: nat, indirect: nat,
      free: nat, places: seq<Place>, records: seq<Record>,
                    h: nat, r: Record)
    requires Arena(hash, headers, owner, logical, indirect, free, places, records) && h < free < indirect
    requires owner[h] == hash(r.key) && headers[h].next == 0
    requires |headers[h].indexes| == CLUSTER && forall j | 0 <= j < CLUSTER :: headers[h].indexes[j] != 0
    requires indirect > 0
    ensures Arena(hash,
                  headers[h := headers[h].(next := free)][free := WithRecord(EMPTY, 0, r.key, indirect + |records|)],
                  owner + [hash(r.key)], logical, indirect, free + 1, places + [Place(free, 0)], records + [r])
  {
    var hs := headers[h := headers[h].(next := free)][free := WithRecord(EMPTY, 0, r.key, indirect + |records|)];
    var os, ps, rs, more := owner + [hash(r.key)], places + [Place(free, 0)], records + [r], free + 1;
    assert HeaderOk(headers, owner, free, h);
    forall g | 0 <= g < more ensures HeaderOk(hs, os, more, g) {
      assert g < free ==> HeaderOk(headers, owner, free, g);
    }
    forall d | 0 <= d < |rs| ensures RecordOk(hash, hs, os, indirect, more, ps, rs, d) {
      assert d < |records| ==> RecordOk(hash, headers, owner, indirect, free, places, records, d);
    }
    forall g, j | 0 <= g < indirect && 0 <= j < CLUSTER ensures SlotOk(hs, indirect, ps, g, j) {
      assert SlotOk(headers, indirect, places, g, j);
    }
    forall d, e | 0 <= d < e < |rs| && hash(rs[d].key) == hash(rs[e].key) ensures Before(ps[d], ps[e]) {
      if e == |records| {
        assert RecordOk(hash, headers, owner, indirect, free, places, records, d);
      } else {
        assert Before(places[d], places[e]);
      }
    }
  }

  lemma {:induction false} FirstWithMeans(records: seq<Record>, key: nat)
    ensures var d := FirstWith(records, key);
            (d < |records| ==> records[d].key == key) && (forall i | 0 <= i < d :: records[i].key != key)
            && (d < |records| <==> exists i | 0 <= i < |records| :: records[i].key == key)
  {
    if |records| > 0 && records[0].key != key {
      var t := records[1..];
      FirstWithMeans(t, key);
      assert forall i | 0 <= i < |t| :: t[i] == records[i + 1];
      var d := FirstWith(t, key);
      if d < |t| { assert records[d + 1].key == key; }
      if i :| 0 <= i < |records| && records[i].key == key { assert t[i - 1].key == key; }
    }
  }

  lemma ChainStart(hash: nat -> nat, headers: seq<Header>, owner: seq<nat>, logical: nat, indirect: nat, free: nat,
      places: seq<Place>, records: seq<Record>, b: nat)
    requires Arena(hash, headers, owner, logical, indirect, free, places, records) && b < logical
    ensures b < free <= |headers| && |owner| == free && owner[b] == b && |places| == |records|
  {
  }

  lemma ChainFloor(hash: nat -> nat, headers: seq<Header>, owner: seq<nat>, logical: nat, indirect: nat, free: nat,
      places: seq<Place>, records: seq<Record>, key: nat)
    requires Arena(hash, headers, owner, logical, indirect, free, places, records) && hash(key) < logical
    ensures |places| == |records| && NotBefore(places, records, key, hash(key))
  {
    forall d | 0 <= d < |records| && records[d].key == key ensures hash(key) <= places[d].header {
      assert RecordOk(hash, headers, owner, indirect, free, places, records, d);
    }
  }

  lemma HeaderShape(hash: nat -> nat, headers: seq<Header>, owner: seq<nat>, logical: nat, indirect: nat,
      free: nat, places: seq<Place>, records: seq<Record>, h: nat)
    requires Arena(hash, headers, owner, logical, indirect, free, places, records) && h < free
    ensures free <= |headers| && |headers[h].keys| == |headers[h].indexes| == CLUSTER
  {
    assert HeaderOk(headers, owner, free, h);
  }

  /** The arena depends only on the keys of the records. */
  lemma SameKeysArena(hash: nat -> nat, headers: seq<Header>, owner: seq<nat>, logical: nat, indirect: nat,
      free: nat, places: seq<Place>,
                      records: seq<Record>, changed: seq<Record>)
    requires Arena(hash, headers, owner, logical, indirect, free, places, records)
    requires |changed| == |records| && forall i | 0 <= i < |records| :: changed[i].key == records[i].key
    ensures Arena(hash, headers, owner, logical, indirect, free, places, changed)
  {
    forall d | 0 <= d < |changed| ensures RecordOk(hash, headers, owner, indirect, free, places, changed, d) {
      assert RecordOk(hash, headers, owner, indirect, free, places, records, d);
    }
  }

  /** Chains are acyclic and share no header: next indices increase, and no two headers have the same successor. */
  lemma ChainsShareNoHeader(hash: nat -> nat, headers: seq<Header>, owner: seq<nat>, logical: nat, indirect: nat,
      free: nat, places: seq<Place>, records: seq<Record>, g: nat, h: nat)
    requires Arena(hash, headers, owner, logical, indirect, free, places, records) && g < free && h < free
    ensures headers[g].next != 0 ==> g < headers[g].next < free && logical <= headers[g].next
    ensures headers[g].next == headers[h].next != 0 ==> g == h
  {
    assert HeaderOk(headers, owner, free, g) && HeaderOk(headers, owner, free, h);
  }

  // ----- what `Get` sees after insertions and updates -----

  datatype Option<T> = None | Some(value: T)

  function Look(records: seq<Record>, key: nat): (v: Option<Payload>) {
    var d := FirstWith(records, key);
    if d < |records| then Some(records[d].value) else None
  }

  /** An insertion is seen only if its key was not there before: the first record inserted stays the one that is
      found. */
  lemma LookAfterInsert(records: seq<Record>, r: Record, key: nat)
    ensures Look(records + [r], key)
              == if Look(records, key).None? && r.key == key then Some(r.value) else Look(records, key)
  {
    FirstWithMeans(records, key);
    var d, rs := FirstWith(records, key), records + [r];
    if d < |records| {
      FirstWithIs(rs, key, d);
    } else {
      FirstWithIs(rs, key, if r.key == key then d else d + 1);
    }
  }

  /** An update is seen by every later `Get` of its key, and by no other. */
  lemma LookAfterUpdate(records: seq<Record>, key: nat, head: nat, other: nat)
    requires FirstWith(records, key) < |records|
    ensures var d := FirstWith(records, key);
            Look(records[d := Record(key, Payload(head, records[d].value.rest))], other)
              == if other == key then Some(Payload(head, records[d].value.rest)) else Look(records, other)
  {
    var d := FirstWith(records, key);
    FirstWithMeans(records, key);
    FirstWithMeans(records, other);
    FirstWithIs(records[d := Record(key, Payload(head, records[d].value.rest))], other, FirstWith(records, other));
  }

  // ----- whole runs -----

  datatype Operation = Add(key: nat, value: Payload) | Overwrite(key: nat, head: nat)

  /** The records after an operation. */
  function Apply(records: seq<Record>, op: Operation): (r: seq<Record>) {
    match op
    case Add(key, value) => records + [Record(key, value)]
    case Overwrite(key, head) =>
      var d := FirstWith(records, key);
      if d < |records| then records[d := Record(key, Payload(head, records[d].value.rest))] else records
  }

  function Replay(records: seq<Record>, ops: seq<Operation>): (r: seq<Record>) {
    if ops == [] then records else Apply(Replay(records, ops[..|ops| - 1]), ops[|ops| - 1])
  }

  /** One key alone: its first insertion gives the value, each later update the head; insertions of a present key and
      updates of an absent one do nothing. */
  function Seen(v: Option<Payload>, ops: seq<Operation>, key: nat): (w: Option<Payload>) {
    if ops == [] then v
    else
      var u := Seen(v, ops[..|ops| - 1], key);
      match ops[|ops| - 1]
      case Add(k, value) => if k == key && u.None? then Some(value) else u
      case Overwrite(k, head) => if k == key && u.Some? then Some(Payload(head, u.value.rest)) else u
  }

  /** After any run, a lookup gives what the operations on that key alone leave. */
  lemma {:induction false} LookSeesOwnKey(records: seq<Record>, ops: seq<Operation>, key: nat)
    ensures Look(Replay(records, ops), key) == Seen(Look(records, key), ops, key)
  {
    if ops != [] {
      var rs, op := Replay(records, ops[..|ops| - 1]), ops[|ops| - 1];
      LookSeesOwnKey(records, ops[..|ops| - 1], key);
      hide FirstWith;
      match op {
        case Add(k, value) => LookAfterInsert(rs, Record(k, value), key);
        case Overwrite(k, head) => LookAfterOverwrite(rs, k, head, key);
      }
    }
  }

  lemma LookAfterOverwrite(records: seq<Record>, k: nat, head: nat, key: nat)
    ensures var v := Look(records, key);
      Look(Apply(records, Overwrite(k, head)), key)
        == if k == key && v.Some? then Some(Payload(head, v.value.rest)) else v
  {
    if FirstWith(records, k) < |records| { LookAfterUpdate(records, k, head, key); }
  }

  /** Every run of insertions and updates: the table holds what the list would, each key is seen by its own operations
      alone, and the run stops exactly at an insertion for which there is no room. */
  method Run(table: ClusterTable, ops: seq<Operation>) returns (done: nat)
    requires table.Valid()
    modifies table
    ensures table.Valid() && done <= |ops| && table.Records() == Replay(old(table.Records()), ops[..done])
    ensures done < |ops| ==> ops[done].Add? && table.NoRoomFor(ops[done].key)
    ensures forall key :: Look(table.Records(), key) == Seen(Look(old(table.Records()), key), ops[..done], key)
  {
    hide ClusterTable.Valid, ClusterTable.NoRoomFor, ClusterTable.Records, FirstWith;
    done := 0;
    while done < |ops|
      invariant done <= |ops| && table.Valid() && table.Records() == Replay(old(table.Records()), ops[..done])
    {
      assert ops[..done + 1][..done] == ops[..done];
      match ops[done] {
        case Add(key, value) =>
          var ok := table.Insert(key, value);
          if !ok { break; }
        case Overwrite(key, head) =>
          table.Update(key, head);
      }
      done := done + 1;
    }
    forall key ensures Look(table.Records(), key) == Seen(Look(old(table.Records()), key), ops[..done], key) {
      LookSeesOwnKey(old(table.Records()), ops[..done], key);
    }
  }
}
