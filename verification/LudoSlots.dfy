/** The 64-bit cells that the memory node keeps per slot: one flag bit, a 7-bit fingerprint, a 16-bit
    length and a 40-bit address. */
module LudoSlots {
  import opened Hashing

  type Cell = U64

  /** A row of four cells. */
  type Row = r: seq<Cell> | |r| == 4 witness [0, 0, 0, 0]

  const EMPTY_ROW: Row := [0, 0, 0, 0]

  function Combine(finger: nat, length: nat, addr: nat): Cell {
    TWO_63 + (finger % 128) * TWO_56 + (length % 0x1_0000) * TWO_40 + addr % TWO_40
  }

  function CacheBit(c: Cell): Bit {
    c / TWO_63
  }

  function Finger(c: Cell): nat {
    (c / TWO_56) % 128
  }

  function Length(c: Cell): nat {
    (c / TWO_40) % 0x1_0000
  }

  function Addr(c: Cell): nat {
    c % TWO_40
  }

  function SetCacheBit(c: Cell): Cell {
    if c < TWO_63 then c + TWO_63 else c
  }

  /** What the data-plane constructor writes for a stored value: a length field and the value as the address. */
  function BulkCell(v: Value): Cell {
    (v + 64 * TWO_48) % TWO_64
  }

  /** The layout of a cell: the flag is bit 63, the fingerprint bits 56 to 62, the length bits 40 to 55 and the address
      bits 0 to 39. */
  lemma CellLayout(c: Cell)
    ensures CacheBit(c) == c / 0x8000_0000_0000_0000 && Finger(c) == c / 0x100_0000_0000_0000 % 0x80
    ensures Length(c) == c / 0x100_0000_0000 % 0x1_0000 && Addr(c) == c % 0x100_0000_0000
    ensures c == CacheBit(c) * 0x8000_0000_0000_0000 + Finger(c) * 0x100_0000_0000_0000
                 + Length(c) * 0x100_0000_0000 + Addr(c)
  {
    var top := c / 0x100_0000_0000;
    assert c / 0x100_0000_0000_0000 == top / 0x1_0000 && c / 0x8000_0000_0000_0000 == top / 0x80_0000;
    assert top == top / 0x1_0000 * 0x1_0000 + top % 0x1_0000;
    assert top / 0x1_0000 == top / 0x80_0000 * 0x80 + top / 0x1_0000 % 0x80;
  }

  /** Splitting a cell into its fields and putting them back loses nothing. */
  lemma FieldsOfCombine(finger: nat, length: nat, addr: nat)
    ensures var c := Combine(finger, length, addr);
      CacheBit(c) == 1 && Finger(c) == finger % 128 && Length(c) == length % 0x1_0000 && Addr(c) == addr % TWO_40
  {
    var f, l, a := finger % 128, length % 0x1_0000, addr % TWO_40;
    var c := Combine(finger, length, addr);
    assert c == (0x80_0000 + f * 0x1_0000 + l) * TWO_40 + a;
    assert c / TWO_40 == 0x80_0000 + f * 0x1_0000 + l;
    assert c == (128 + f) * TWO_56 + (l * TWO_40 + a);
    assert c / TWO_56 == 128 + f;
  }

  lemma CombineOfFields(c: Cell)
    requires CacheBit(c) == 1
    ensures Combine(Finger(c), Length(c), Addr(c)) == c
  {
    var top, rest := c / TWO_40, c % TWO_40;
    assert c / TWO_56 == top / 0x1_0000;
    assert top == (top / 0x1_0000) * 0x1_0000 + top % 0x1_0000;
  }

  /** Marking a cell as cached touches neither its fingerprint, its length nor its address. */
  lemma CacheBitOnly(c: Cell)
    ensures var d := SetCacheBit(c);
      CacheBit(d) == 1 && Finger(d) == Finger(c) && Length(d) == Length(c) && Addr(d) == Addr(c)
  {
    if c < TWO_63 {
      assert (c + TWO_63) / TWO_56 == c / TWO_56 + 128;
      assert (c + TWO_63) / TWO_40 == c / TWO_40 + 0x80_0000;
    }
  }

  /** A bulk-loaded cell gives back the value exactly when the value fits the address field. */
  lemma BulkCellDecodes(v: Value)
    ensures Addr(BulkCell(v)) == v <==> v < 0x100_0000_0000
    ensures v < TWO_40 ==> Length(BulkCell(v)) == 0x4000 && Finger(BulkCell(v)) == 0 && CacheBit(BulkCell(v)) == 0
  {
    assert 64 * TWO_48 == 0x4000 * TWO_40;
    assert TWO_64 == 0x100_0000 * TWO_40;
    assert (v + 64 * TWO_48) % TWO_40 == v % TWO_40;
    var x := v + 64 * TWO_48;
    if x >= TWO_64 {
      assert x % TWO_64 == x - TWO_64;
      assert (x - TWO_64) % TWO_40 == v % TWO_40;
    }
    if v < TWO_40 {
      assert x / TWO_40 == 0x4000;
    }
  }
}
