/** The bits of a byte sequence: `set_bit` and `get_bit` as used by the bitmaps of the allocators and of the disk. */
module Bits {
  import opened Words

  function Mask(j: nat): bv8
    requires j < 8
  {
    if j < 4 then (if j < 2 then (if j == 0 then 1 else 2) else (if j == 2 then 4 else 8))
    else (if j < 6 then (if j == 4 then 16 else 32) else (if j == 6 then 64 else 128))
  }

  predicate GetBit(b: u8, j: nat)
    requires j < 8
  {
    b as bv8 & Mask(j) != 0
  }

  function Masked(b: bv8, j: nat, v: bool): bv8
    requires j < 8
  {
    if v then b | Mask(j) else b & !Mask(j)
  }

  lemma MaskedSets(b: bv8, j: nat, v: bool, i: nat)
    requires i < 8 && j < 8
    ensures (Masked(b, j, v) & Mask(i) != 0) == if i == j then v else b & Mask(i) != 0
  {
  }

  lemma ThereAndBack(x: bv8)
    ensures (x as int) as bv8 == x
  {
  }

  function SetBit(b: u8, j: nat, v: bool): (r: u8)
    requires j < 8
    ensures r as bv8 == Masked(b as bv8, j, v)
  {
    ThereAndBack(Masked(b as bv8, j, v));
    Masked(b as bv8, j, v) as int
  }

  lemma IsSet(b: u8, x: bv8, i: nat)
    requires i < 8 && b as bv8 == x
    ensures GetBit(b, i) == (x & Mask(i) != 0)
  {
  }

  lemma SetBitSets(b: u8, j: nat, v: bool, i: nat)
    requires i < 8 && j < 8
    ensures GetBit(SetBit(b, j, v), i) == if i == j then v else GetBit(b, i)
  {
    MaskedSets(b as bv8, j, v, i);
    IsSet(SetBit(b, j, v), Masked(b as bv8, j, v), i);
    IsSet(b, b as bv8, i);
  }

  predicate GetAt(bytes: seq<u8>, i: nat)
    requires i < 8 * |bytes|
  {
    GetBit(bytes[i / 8], i % 8)
  }

  function SetAt(bytes: seq<u8>, i: nat, v: bool): (r: seq<u8>)
    requires i < 8 * |bytes|
    ensures |r| == |bytes|
    ensures forall j: nat :: j < 8 * |bytes| ==> GetAt(r, j) == if j == i then v else GetAt(bytes, j)
  {
    var r := bytes[i / 8 := SetBit(bytes[i / 8], i % 8, v)];
    assert forall j: nat :: j < 8 * |bytes| ==> GetAt(r, j) == if j == i then v else GetAt(bytes, j) by {
      forall j: nat | j < 8 * |bytes| ensures GetAt(r, j) == if j == i then v else GetAt(bytes, j) {
        if j / 8 == i / 8 { SetBitSets(bytes[i / 8], i % 8, v, j % 8); }
      }
    }
    r
  }
}
