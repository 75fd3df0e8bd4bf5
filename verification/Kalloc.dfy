/** The kernel buddy allocator of `kernel/src/mm/kalloc.rs`: bitmaps in bytes, free lists threaded through
    the free blocks, addresses. Every method is tied to the moves of `BuddySpec`. */
module Kalloc {
  import opened Bits
  import opened Words
  import opened BuddySpec
  import opened BuddyInit
  import opened KernelList

  const LEAF_SIZE: int := 16
  const PAGE_SIZE: int := 4096

  function BlkSize(k: nat): (r: int)
    ensures r > 0
  {
    Pow2(k) * LEAF_SIZE
  }

  /** The address of a block. */
  function Addr(base: int, b: Block): int {
    base + First(b) * LEAF_SIZE
  }

  function BlkIndex(base: int, k: nat, addr: int): nat
    requires base <= addr
  {
    DivNonNegative(addr - base, BlkSize(k));
    (addr - base) / BlkSize(k)
  }

  // ----- Index arithmetic

  lemma DivNonNegative(x: int, d: int)
    requires x >= 0 && d > 0
    ensures x / d >= 0
  {
  }

  lemma DivUnique(x: int, d: int, q: int)
    requires d > 0 && q * d <= x < q * d + d
    ensures x / d == q && x % d == x - q * d
  {
    var r := x / d;
    assert x == r * d + x % d;
    if r < q {
      MulMonoInt(r + 1, q, d);
      Scale(r, d);
    } else if r > q {
      MulMonoInt(q + 1, r, d);
      Scale(q, d);
    }
  }

  lemma MulMonoInt(a: int, b: int, c: int)
    requires a <= b && c >= 0
    ensures a * c <= b * c
  {
  }

  lemma {:induction false} HiIsAt(u: nat, k: nat)
    ensures Hi(u, k) == At(u, k).index
  {
    if k > 0 { HiIsAt(u, k - 1); }
  }

  lemma Reassociate(h: int, p: int)
    ensures h * (p * LEAF_SIZE) == (h * p) * LEAF_SIZE
  {
  }

  /** Division of a leaf's address by the block size. */
  lemma LeafDiv(k: nat, u: nat)
    ensures (u * LEAF_SIZE) / BlkSize(k) == Hi(u, k)
    ensures (u * LEAF_SIZE) % BlkSize(k) == (u - Hi(u, k) * Pow2(k)) * LEAF_SIZE
  {
    var h, p := Hi(u, k), Pow2(k);
    HiBounds(u, k);
    Reassociate(h, p);
    DivUnique(u * LEAF_SIZE, BlkSize(k), h);
  }

  /** blk_index, whatever leaf of the block the address points to. */
  lemma IndexOfLeaf(base: int, k: nat, u: nat)
    ensures BlkIndex(base, k, base + u * LEAF_SIZE) == At(u, k).index
  {
    HiIsAt(u, k);
    LeafDiv(k, u);
  }

  lemma IndexOfBlock(base: int, b: Block)
    ensures BlkIndex(base, b.level, Addr(base, b)) == b.index
    ensures b.level > 0 ==> BlkIndex(base, b.level - 1, Addr(base, b)) == Left(b).index
    ensures b.level > 0 ==> Addr(base, b) + BlkSize(b.level - 1) == Addr(base, Right(b))
    ensures Addr(base, Block(b.level, b.index)) == base + b.index * BlkSize(b.level)
  {
    AtFirst(b);
    IndexOfLeaf(base, b.level, First(b));
    if b.level > 0 {
      FirstOfLeft(b);
      AtFirst(Left(b));
      IndexOfLeaf(base, b.level - 1, First(b));
    }
    Reassociate(b.index, Pow2(b.level));
  }

  // ----- Which level serves a request

  /** `usize::next_power_of_two`, searching upwards from `p`. */
  function NextPower(n: nat, p: nat): nat
    requires p > 0
    decreases n - p
  {
    if n <= p then p else NextPower(n, 2 * p)
  }

  function TrailingZeros(n: nat): nat
    requires n > 0
  {
    if n % 2 == 1 then 0 else 1 + TrailingZeros(n / 2)
  }

  /** The level that alloc computes for a request of `size` bytes. */
  function LevelFor(size: nat): nat
    requires size > 0
  {
    if size <= LEAF_SIZE then 0
    else
      NextPowerAtLeast(size, 1);
      TrailingZeros(NextPower(size, 1) / LEAF_SIZE)
  }

  lemma {:induction false} NextPowerAtLeast(n: nat, p: nat)
    requires p > 0
    ensures NextPower(n, p) >= n
    decreases n - p
  {
    if n > p { NextPowerAtLeast(n, 2 * p); }
  }

  lemma {:induction false} NextPowerIs(n: nat, j: nat) returns (e: nat)
    requires n > LEAF_SIZE && (j > 0 ==> Pow2(j - 1) < n)
    ensures e >= 5 && NextPower(n, Pow2(j)) == Pow2(e) && n <= Pow2(e) && Pow2(e - 1) < n
    ensures Pow2(e) / LEAF_SIZE == Pow2(e - 4) > 0
    decreases n - Pow2(j)
  {
    if n <= Pow2(j) {
      e := j;
      assert Pow2(4) == 16 by { assert Pow2(2) == 4; }
      if e < 5 { Pow2Grows(e, 4); }
      Pow2Adds(4, e - 4);
    } else {
      e := NextPowerIs(n, j + 1);
    }
  }

  lemma {:induction false} TrailingZerosOfPow2(e: nat)
    ensures TrailingZeros(Pow2(e)) == e
  {
    if e > 0 { TrailingZerosOfPow2(e - 1); }
  }

  /** It is the smallest level whose blocks hold the request. */
  lemma LevelForFits(size: nat)
    requires size > 0
    ensures size <= BlkSize(LevelFor(size))
    ensures LevelFor(size) > 0 ==> BlkSize(LevelFor(size) - 1) < size
  {
    if size > LEAF_SIZE {
      var e := NextPowerIs(size, 0);
      TrailingZerosOfPow2(e - 4);
      Pow2Adds(4, e - 4);
      Pow2Adds(4, e - 5);
      assert Pow2(4) == 16 by { assert Pow2(2) == 4; }
    }
  }

  /** alloc looks only at the size of a layout. Every block of a level is aligned as requested (alignments
      up to a page) iff the alignment is at most the block size; in particular if, as the source assumes,
      the size is a multiple of the alignment. */
  lemma AlignedIff(base: int, k: nat, a: nat)
    requires base % PAGE_SIZE == 0 && a <= 12
    ensures (forall i: nat :: Addr(base, Block(k, i)) % Pow2(a) == 0) <==> Pow2(a) <= BlkSize(k)
  {
    var m := PageMultiple(base, a);
    Pow2Small();
    Pow2Adds(k, 4);
    if a <= k + 4 {
      Pow2Grows(a, k + 4);
      forall i: nat ensures Addr(base, Block(k, i)) % Pow2(a) == 0 {
        BlockMultiple(k, i, a);
        SumOfMultiples(m, i * Pow2(k + 4 - a), Pow2(a));
      }
    } else {
      Pow2Grows(k + 5, a);
      DivUnique(base + BlkSize(k), Pow2(a), m);
      assert First(Block(k, 1)) == Pow2(k);
      assert Addr(base, Block(k, 1)) % Pow2(a) != 0;
    }
  }

  /** A block serves a request: it holds `size` bytes and is aligned, unless the alignment exceeds the block size. */
  ghost predicate Serves(addr: int, b: Block, size: nat, align: nat) {
    size <= BlkSize(b.level) && forall a: nat :: align == Pow2(a) && align <= BlkSize(b.level) ==> addr % align == 0
  }

  lemma RequestServed(base: int, b: Block, size: nat, align: nat)
    requires base % PAGE_SIZE == 0 && size > 0 && b.level == LevelFor(size) && align <= PAGE_SIZE
    ensures Serves(Addr(base, b), b, size, align)
  {
    LevelForFits(size);
    forall a: nat | align == Pow2(a) && align <= BlkSize(b.level) ensures Addr(base, b) % align == 0 {
      Pow2Small();
      if a > 12 { Pow2Grows(13, a); }
      AlignedIff(base, b.level, a);
      assert b == Block(b.level, b.index);
    }
  }

  lemma PageMultiple(base: int, a: nat) returns (m: int)
    requires base % PAGE_SIZE == 0 && a <= 12
    ensures base == m * Pow2(a)
  {
    Pow2Small();
    Pow2Adds(a, 12 - a);
    m := (base / PAGE_SIZE) * Pow2(12 - a);
    Shuffle(base / PAGE_SIZE, Pow2(12 - a), Pow2(a));
  }

  lemma BlockMultiple(k: nat, i: nat, a: nat)
    requires a <= k + 4
    ensures First(Block(k, i)) * LEAF_SIZE == (i * Pow2(k + 4 - a)) * Pow2(a)
  {
    Pow2Small();
    Pow2Adds(k, 4);
    Pow2Adds(k + 4 - a, a);
    Reassociate(i, Pow2(k));
    Shuffle(i, Pow2(k + 4 - a), Pow2(a));
  }

  lemma Pow2Small()
    ensures Pow2(4) == 16 && Pow2(12) == 4096
  {
    assert Pow2(2) == 4 && Pow2(6) == 64 && Pow2(8) == 256 && Pow2(10) == 1024;
  }

  lemma Shuffle(x: int, y: int, z: int)
    ensures x * (z * y) == (x * y) * z && x * (y * z) == (x * y) * z
  {
  }

  lemma SumOfMultiples(x: int, y: int, d: int)
    requires d > 0
    ensures (x * d + y * d) % d == 0
  {
    assert x * d + y * d == (x + y) * d;
    DivUnique(x * d + y * d, d, x + y);
  }

  // ----- The concrete tables and the tree they stand for

  /** `free` is the address of the list head inside the table itself. */
  datatype BuddyInfo = BuddyInfo(free: int, alloc: seq<u8>, split: seq<u8>)

  ghost predicate BitmapOk(bytes: seq<u8>, max: nat, k: nat, bits: set<Block>)
    requires k <= max
  {
    && Pow2(max - k) <= 8 * |bytes|
    && forall i: nat :: i < Pow2(max - k) ==> (GetAt(bytes, i) <==> Block(k, i) in bits)
  }

  ghost predicate LevelBits(infos: seq<BuddyInfo>, max: nat, alloc: set<Block>, split: set<Block>, k: nat)
    requires |infos| == max + 1 && k < |infos|
  {
    BitmapOk(infos[k].alloc, max, k, alloc) && (k > 0 ==> BitmapOk(infos[k].split, max, k, split))
  }

  ghost predicate AllLevels(infos: seq<BuddyInfo>, max: nat, alloc: set<Block>, split: set<Block>)
    requires |infos| == max + 1
  {
    forall k {:trigger LevelBits(infos, max, alloc, split, k)} :: 0 <= k < |infos| ==>
      LevelBits(infos, max, alloc, split, k)
  }

  ghost predicate BitsOk(infos: seq<BuddyInfo>, t: Tree) {
    |infos| == t.max + 1 && AllLevels(infos, t.max, t.alloc, t.split)
  }

  /** is_alloc_set and is_split_set read what the tree says. */
  lemma ReadBits(infos: seq<BuddyInfo>, t: Tree, b: Block)
    requires BitsOk(infos, t) && InRange(t, b)
    ensures b.index < 8 * |infos[b.level].alloc| && (GetAt(infos[b.level].alloc, b.index) <==> b in t.alloc)
    ensures b.level > 0 ==>
              b.index < 8 * |infos[b.level].split| && (GetAt(infos[b.level].split, b.index) <==> b in t.split)
  {
    assert LevelBits(infos, t.max, t.alloc, t.split, b.level);
  }

  ghost function Addrs(base: int, k: nat, indices: seq<nat>): seq<int> {
    seq(|indices|, i requires 0 <= i < |indices| => Addr(base, Block(k, indices[i])))
  }

  ghost predicate LevelList(base: int, infos: seq<BuddyInfo>, lists: map<int, seq<int>>, free: seq<seq<nat>>, k: nat)
    requires |free| == |infos| && k < |infos|
  {
    infos[k].free in lists && lists[infos[k].free] == Addrs(base, k, free[k])
  }

  ghost predicate IsHead(infos: seq<BuddyInfo>, h: int) {
    exists k :: 0 <= k < |infos| && infos[k].free == h
  }

  ghost predicate HeadsApart(infos: seq<BuddyInfo>) {
    forall j, k :: 0 <= j < k < |infos| ==> infos[j].free != infos[k].free
  }

  ghost predicate ListsOk(base: int, infos: seq<BuddyInfo>, lists: map<int, seq<int>>, free: seq<seq<nat>>) {
    && |free| == |infos|
    && (forall k {:trigger LevelList(base, infos, lists, free, k)} :: 0 <= k < |infos| ==>
          LevelList(base, infos, lists, free, k))
    && HeadsApart(infos)
    && (forall h {:trigger IsHead(infos, h)} :: h in lists ==> IsHead(infos, h))
  }

  /** The list heads lie in reserved leaves. */
  ghost predicate HeadsReserved(base: int, infos: seq<BuddyInfo>, t: Tree) {
    forall k :: 0 <= k < |infos| ==> InReserved(base, t, infos[k].free)
  }

  ghost predicate InReserved(base: int, t: Tree, a: int) {
    exists r :: r in t.reserved && a == Addr(base, r)
  }

  ghost predicate TablesOk(base: int, infos: seq<BuddyInfo>, lists: map<int, seq<int>>, t: Tree) {
    BitsOk(infos, t) && ListsOk(base, infos, lists, t.free) && HeadsReserved(base, infos, t)
  }

  /** `alloc_set` on the table. */
  function AllocSet(infos: seq<BuddyInfo>, k: nat, i: nat, v: bool): seq<BuddyInfo>
    requires k < |infos| && i < 8 * |infos[k].alloc|
  {
    infos[k := infos[k].(alloc := SetAt(infos[k].alloc, i, v))]
  }

  /** `split_set` on the table. */
  function SplitSet(infos: seq<BuddyInfo>, k: nat, i: nat, v: bool): seq<BuddyInfo>
    requires k < |infos| && i < 8 * |infos[k].split|
  {
    infos[k := infos[k].(split := SetAt(infos[k].split, i, v))]
  }

  function Toggle(s: set<Block>, b: Block, v: bool): set<Block> {
    if v then s + {b} else s - {b}
  }

  ghost predicate SameHeads(infos: seq<BuddyInfo>, infos': seq<BuddyInfo>) {
    |infos'| == |infos| && forall k :: 0 <= k < |infos| ==> infos'[k].free == infos[k].free
  }

  lemma SetAllocBit(infos: seq<BuddyInfo>, t: Tree, b: Block, v: bool)
    requires BitsOk(infos, t) && InRange(t, b)
    ensures b.index < 8 * |infos[b.level].alloc|
    ensures var infos' := AllocSet(infos, b.level, b.index, v);
            BitsOk(infos', t.(alloc := Toggle(t.alloc, b, v))) && SameHeads(infos, infos')
  {
    assert LevelBits(infos, t.max, t.alloc, t.split, b.level);
    var infos', t' := AllocSet(infos, b.level, b.index, v), t.(alloc := Toggle(t.alloc, b, v));
    forall k | 0 <= k < |infos| ensures LevelBits(infos', t.max, t'.alloc, t'.split, k) {
      assert LevelBits(infos, t.max, t.alloc, t.split, k);
    }
  }

  lemma SetSplitBit(infos: seq<BuddyInfo>, t: Tree, b: Block, v: bool)
    requires BitsOk(infos, t) && InRange(t, b) && b.level > 0
    ensures b.index < 8 * |infos[b.level].split|
    ensures var infos' := SplitSet(infos, b.level, b.index, v);
            BitsOk(infos', t.(split := Toggle(t.split, b, v))) && SameHeads(infos, infos')
  {
    assert LevelBits(infos, t.max, t.alloc, t.split, b.level);
    var infos', t' := SplitSet(infos, b.level, b.index, v), t.(split := Toggle(t.split, b, v));
    forall k | 0 <= k < |infos| ensures LevelBits(infos', t.max, t'.alloc, t'.split, k) {
      assert LevelBits(infos, t.max, t.alloc, t.split, k);
    }
  }

  /** One list changes, and the bitmaps with it. */
  lemma SetList(base: int, infos: seq<BuddyInfo>, lists: map<int, seq<int>>, t: Tree, k: nat, s: seq<nat>,
                infos': seq<BuddyInfo>, t': Tree)
    requires TablesOk(base, infos, lists, t) && k < |infos|
    requires SameHeads(infos, infos') && BitsOk(infos', t')
    requires t'.free == t.free[k := s] && t'.reserved == t.reserved
    ensures infos[k].free in lists
    ensures TablesOk(base, infos', lists[infos[k].free := Addrs(base, k, s)], t')
  {
    var lists' := lists[infos[k].free := Addrs(base, k, s)];
    assert LevelList(base, infos, lists, t.free, k);
    forall j | 0 <= j < |infos| ensures LevelList(base, infos', lists', t'.free, j) {
      assert LevelList(base, infos, lists, t.free, j);
    }
    forall h | h in lists' ensures IsHead(infos', h) {
      assert IsHead(infos, h);
      var j :| 0 <= j < |infos| && infos[j].free == h;
      assert infos'[j].free == h;
    }
  }

  /** The first word of a block that is about to go on a list is not in use by any list. */
  lemma AddressUnused(base: int, infos: seq<BuddyInfo>, lists: map<int, seq<int>>, t: Tree, b: Block, t': Tree)
    requires ListsOk(base, infos, lists, t.free) && HeadsReserved(base, infos, t)
    requires Inv(t') && t'.reserved == t.reserved && IsFree(t', b) && !IsFree(t, b)
    requires forall c :: IsFree(t, c) ==> IsFree(t', c)
    ensures Unused(lists, Addr(base, b))
  {
    forall h | h in lists ensures Addr(base, b) != h && Addr(base, b) !in lists[h] {
      assert IsHead(infos, h);
      var k :| 0 <= k < |infos| && infos[k].free == h;
      assert InReserved(base, t, infos[k].free) && LevelList(base, infos, lists, t.free, k);
      var r :| r in t.reserved && infos[k].free == Addr(base, r);
      assert FreeOk(t', b) && FreeOk(t', r);
      if First(b) == First(r) { PiecesApart(t', b, r); }
      forall i | 0 <= i < |t.free[k]| ensures Addr(base, b) != lists[h][i] {
        var c := Block(k, t.free[k][i]);
        assert IsFree(t, c);
        if First(b) == First(c) { PiecesApart(t', b, c); }
      }
    }
  }

  // ----- The four moves on the tables

  lemma TakeTables(base: int, infos: seq<BuddyInfo>, lists: map<int, seq<int>>, t: Tree, k: nat)
    requires TablesOk(base, infos, lists, t) && Inv(t) && k < |infos| && t.free[k] != []
    ensures var b := Block(k, t.free[k][0]);
            && infos[k].free in lists && lists[infos[k].free] != [] && lists[infos[k].free][0] == Addr(base, b)
            && b.index < 8 * |infos[k].alloc|
            && TablesOk(base, AllocSet(infos, k, b.index, true), lists[infos[k].free := lists[infos[k].free][1..]],
                        Take(t, k))
            && Inv(Take(t, k)) && IsHandedOut(Take(t, k), b)
  {
    var b, rest := Block(k, t.free[k][0]), t.free[k][1..];
    TakeKeepsInv(t, k);
    assert FreeOk(t, b) && LevelList(base, infos, lists, t.free, k);
    assert Addrs(base, k, t.free[k])[1..] == Addrs(base, k, rest);
    SetAllocBit(infos, t, b, true);
    SetList(base, infos, lists, t, k, rest, AllocSet(infos, k, b.index, true), Take(t, k));
  }

  lemma SplitBits(infos: seq<BuddyInfo>, t: Tree, b: Block)
    requires BitsOk(infos, t) && InRange(t, b) && b.level > 0
    ensures b.index < 8 * |infos[b.level].split|
    ensures var infos1 := SplitSet(infos, b.level, b.index, true);
            && Left(b).index < 8 * |infos1[b.level - 1].alloc|
            && var infos2 := AllocSet(infos1, b.level - 1, Left(b).index, true);
            SameHeads(infos, infos2) && BitsOk(infos2, t.(alloc := t.alloc + {Left(b)}, split := t.split + {b}))
  {
    RangeOfFamily(t, b);
    SetSplitBit(infos, t, b, true);
    SetAllocBit(SplitSet(infos, b.level, b.index, true), t.(split := t.split + {b}), Left(b), true);
  }

  lemma RightUnused(base: int, infos: seq<BuddyInfo>, lists: map<int, seq<int>>, t: Tree, b: Block)
    requires TablesOk(base, infos, lists, t) && Inv(t) && IsHandedOut(t, b) && b.level > 0
    ensures b.level < |infos| && infos[b.level - 1].free in lists && Unused(lists, Addr(base, Right(b)))
    ensures Inv(Split(t, b)) && IsHandedOut(Split(t, b), Left(b)) && InRange(t, b)
  {
    assert AllocOk(t, b);
    SplitKeepsInv(t, b);
    assert IsFree(Split(t, b), Right(b)) && LevelList(base, infos, lists, t.free, b.level - 1);
    AddressUnused(base, infos, lists, t, Right(b), Split(t, b));
  }

  lemma SplitTables(base: int, infos: seq<BuddyInfo>, lists: map<int, seq<int>>, t: Tree, b: Block)
    requires TablesOk(base, infos, lists, t) && Inv(t) && IsHandedOut(t, b) && b.level > 0
    ensures b.level < |infos| && b.index < 8 * |infos[b.level].split|
    ensures var infos1 := SplitSet(infos, b.level, b.index, true);
            && Left(b).index < 8 * |infos1[b.level - 1].alloc|
            && var h := infos1[b.level - 1].free;
            h in lists && Unused(lists, Addr(base, Right(b)))
            && TablesOk(base, AllocSet(infos1, b.level - 1, Left(b).index, true),
                        lists[h := [Addr(base, Right(b))] + lists[h]], Split(t, b))
    ensures Inv(Split(t, b)) && IsHandedOut(Split(t, b), Left(b))
  {
    RightUnused(base, infos, lists, t, b);
    assert LevelList(base, infos, lists, t.free, b.level - 1);
    var l, s := b.level, [Right(b).index] + t.free[b.level - 1];
    SplitBits(infos, t, b);
    assert Addrs(base, l - 1, s) == [Addr(base, Right(b))] + Addrs(base, l - 1, t.free[l - 1]);
    SetList(base, infos, lists, t, l - 1, s, AllocSet(SplitSet(infos, l, b.index, true), l - 1, Left(b).index, true),
            Split(t, b));
  }

  lemma PutTables(base: int, infos: seq<BuddyInfo>, lists: map<int, seq<int>>, t: Tree, b: Block)
    requires TablesOk(base, infos, lists, t) && Inv(t) && IsHandedOut(t, b) && b.level < t.max && Buddy(b) in t.alloc
    ensures b.index < 8 * |infos[b.level].alloc|
    ensures var h := infos[b.level].free;
            h in lists && Unused(lists, Addr(base, b))
            && TablesOk(base, AllocSet(infos, b.level, b.index, false), lists[h := [Addr(base, b)] + lists[h]],
                        PutBack(t, b))
    ensures Inv(PutBack(t, b))
  {
    var s := [b.index] + t.free[b.level];
    assert AllocOk(t, b) && FreeOk(t, b) && LevelList(base, infos, lists, t.free, b.level);
    PutBackKeepsInv(t, b);
    AddressUnused(base, infos, lists, t, b, PutBack(t, b));
    SetAllocBit(infos, t, b, false);
    assert Addrs(base, b.level, s) == [Addr(base, b)] + Addrs(base, b.level, t.free[b.level]);
    SetList(base, infos, lists, t, b.level, s, AllocSet(infos, b.level, b.index, false), PutBack(t, b));
  }

  lemma MergeBits(infos: seq<BuddyInfo>, t: Tree, b: Block)
    requires BitsOk(infos, t) && InRange(t, b) && b.level < t.max
    ensures b.index < 8 * |infos[b.level].alloc|
    ensures var infos1 := AllocSet(infos, b.level, b.index, false);
            && Parent(b).index < 8 * |infos1[b.level + 1].split|
            && var infos2 := SplitSet(infos1, b.level + 1, Parent(b).index, false);
            SameHeads(infos, infos2) && BitsOk(infos2, t.(alloc := t.alloc - {b}, split := t.split - {Parent(b)}))
  {
    RangeOfFamily(t, b);
    SetAllocBit(infos, t, b, false);
    SetSplitBit(AllocSet(infos, b.level, b.index, false), t.(alloc := t.alloc - {b}), Parent(b), false);
  }

  lemma RemoveFromAddrs(base: int, k: nat, f: seq<nat>, m: nat)
    requires m < |f|
    ensures Addrs(base, k, f[..m] + f[m + 1..]) == Addrs(base, k, f)[..m] + Addrs(base, k, f)[m + 1..]
  {
  }

  lemma MergeTables(base: int, infos: seq<BuddyInfo>, lists: map<int, seq<int>>, t: Tree, b: Block) returns (m: nat)
    requires TablesOk(base, infos, lists, t) && Inv(t) && IsHandedOut(t, b) && b.level < t.max && Buddy(b) !in t.alloc
    ensures b.index < 8 * |infos[b.level].alloc|
    ensures var infos1, h := AllocSet(infos, b.level, b.index, false), infos[b.level].free;
            && h in lists && m < |lists[h]| && lists[h][m] == Addr(base, Buddy(b))
            && Parent(b).index < 8 * |infos1[b.level + 1].split|
            && TablesOk(base, SplitSet(infos1, b.level + 1, Parent(b).index, false),
                        lists[h := lists[h][..m] + lists[h][m + 1..]], Merge(t, b))
    ensures Inv(Merge(t, b)) && IsHandedOut(Merge(t, b), Parent(b)) && b.level + 1 < t.max
  {
    var l, f := b.level, t.free[b.level];
    assert AllocOk(t, b) && NoDuplicates(f) && LevelList(base, infos, lists, t.free, l);
    BuddyIsFree(t, b);
    MergeKeepsInv(t, b);
    m :| 0 <= m < |f| && f[m] == Buddy(b).index;
    WithoutAt(f, m);
    RemoveFromAddrs(base, l, f, m);
    MergeBits(infos, t, b);
    SetList(base, infos, lists, t, l, f[..m] + f[m + 1..],
            SplitSet(AllocSet(infos, l, b.index, false), l + 1, Parent(b).index, false), Merge(t, b));
  }

  lemma ParentAddr(base: int, b: Block)
    ensures Addr(base, Parent(b)) == Addr(base, if b.index % 2 == 0 then b else Buddy(b))
  {
    var p := Parent(b);
    Family(b);
    FirstOfLeft(p);
  }

  lemma MergeIndices(base: int, b: Block)
    ensures BlkIndex(base, b.level, Addr(base, b)) == b.index
    ensures base + Buddy(b).index * BlkSize(b.level) == Addr(base, Buddy(b))
    ensures Addr(base, Parent(b)) == if Buddy(b).index % 2 == 0 then Addr(base, Buddy(b)) else Addr(base, b)
    ensures BlkIndex(base, b.level + 1, Addr(base, Parent(b))) == Parent(b).index
  {
    IndexOfBlock(base, b);
    IndexOfBlock(base, Buddy(b));
    IndexOfBlock(base, Parent(b));
    ParentAddr(base, b);
  }

  /** What a whole allocation does to the blocks handed out, and how it is undone. */
  lemma AllocEffect(t: Tree, small: nat, k: nat)
    requires Inv(t) && small <= k < |t.free| && t.free[k] != []
    ensures var t', b := AllocFrom(t, small, k), Lowest(Block(k, t.free[k][0]), small);
            && !IsLeaf(t, b) && b.level < t'.max && t'.max == t.max
            && (forall c :: IsLeaf(t', c) <==> IsLeaf(t, c) || c == b)
            && Release(t', b) == t
  {
    var t', b := AllocFrom(t, small, k), Lowest(Block(k, t.free[k][0]), small);
    AllocKeepsInv(t, small, k);
    forall c ensures IsLeaf(t', c) <==> IsLeaf(t, c) || c == b {
      AllocLeaves(t, small, k, c);
    }
    AllocLeaves(t, small, k, b);
    ReleaseUndoesAlloc(t, small, k);
    AtFirst(b);
    LevelFromSplitBits(t', b, First(b));
  }

  // ----- Initialisation

  function RoundUp(n: int, size: int): int
    requires n > 0 && size > 0
  {
    ((n - 1) / size + 1) * size
  }

  function RoundDown(n: int, size: int): int
    requires n >= 0 && size > 0
  {
    (n / size) * size
  }

  function BlkIndexNext(base: int, k: nat, addr: int): nat
    requires base <= addr
  {
    DivNonNegative(addr - base, BlkSize(k));
    (addr - base) / BlkSize(k) + (if (addr - base) % BlkSize(k) > 0 then 1 else 0)
  }

  /** `log2` */
  method Log2(n: nat) returns (k: nat)
    requires n > 0
    ensures Pow2(k) <= n < Pow2(k + 1)
  {
    k := 0;
    var m := n;
    while m > 1
      invariant m > 0 && m == Hi(n, k)
    {
      k := k + 1;
      m := m / 2;
    }
    HiBounds(n, k);
  }

  lemma {:induction false} LoFromHi(u: nat, k: nat)
    ensures Lo(u, k) == Hi(u, k) + (if Hi(u, k) * Pow2(k) == u then 0 else 1)
  {
    if k > 0 {
      LoFromHi(u, k - 1);
      HiBounds(u, k - 1);
      var p, h := Pow2(k - 1), Hi(u, k - 1);
      Scale(h / 2, p);
      assert h == 2 * (h / 2) || h == 2 * (h / 2) + 1;
      if h % 2 == 1 { Scale(h, p); }
    }
  }

  /** blk_index_next of a leaf boundary. */
  lemma NextIsLo(base: int, k: nat, u: nat)
    ensures BlkIndexNext(base, k, base + u * LEAF_SIZE) == Lo(u, k)
  {
    LeafDiv(k, u);
    LoFromHi(u, k);
    HiBounds(u, k);
  }

  lemma {:induction false} LoOfTop(max: nat, k: nat)
    requires k <= max
    ensures Lo(Pow2(max), k) == Pow2(max - k)
  {
    if k > 0 { LoOfTop(max, k - 1); }
  }

  /** The blocks that mark(left, right) visits, for leaves l and r. */
  predicate Marked(max: nat, l: nat, r: nat, b: Block) {
    b.level <= max && b.index < Pow2(max - b.level) && Hi(l, b.level) <= b.index < Lo(r, b.level)
  }

  /** `init_slice_empty` */
  function Zeros(n: nat): (r: seq<u8>)
    ensures |r| == n && forall i :: 0 <= i < n ==> r[i] == 0
  {
    seq(n, _ => 0)
  }

  lemma ZeroBitmap(max: nat, k: nat, bytes: seq<u8>)
    requires k <= max && Pow2(max - k) <= 8 * |bytes| && forall i :: 0 <= i < |bytes| ==> bytes[i] == 0
    ensures BitmapOk(bytes, max, k, {})
  {
  }

  /** The table as init finds it: only the places of the list heads are known. */
  function Heads(base: int, n: nat): seq<BuddyInfo> {
    seq(n, i requires 0 <= i < n => BuddyInfo(base + INFO_SIZE * i, [], []))
  }

  /** The list heads after the first `n` rounds of the first loop of init. */
  ghost function EmptyLists(base: int, n: nat): map<int, seq<int>> {
    if n == 0 then map[] else EmptyLists(base, n - 1)[base + INFO_SIZE * (n - 1) := []]
  }

  lemma {:induction false} EmptyListsAre(base: int, n: nat)
    ensures forall h :: h in EmptyLists(base, n) ==> h < base + INFO_SIZE * n && EmptyLists(base, n)[h] == []
    ensures forall k :: 0 <= k < n ==> base + INFO_SIZE * k in EmptyLists(base, n)
  {
    if n > 0 { EmptyListsAre(base, n - 1); }
  }

  lemma {:induction false} EmptyListsOnly(base: int, n: nat, h: int) returns (k: nat)
    requires h in EmptyLists(base, n)
    ensures k < n && h == base + INFO_SIZE * k
  {
    if h == base + INFO_SIZE * (n - 1) { k := n - 1; } else { k := EmptyListsOnly(base, n - 1, h); }
  }

  lemma EmptyListsOk(base: int, n: nat, infos: seq<BuddyInfo>, free: seq<seq<nat>>)
    requires n > 0 && |infos| == n && forall k :: 0 <= k < n ==> infos[k].free == base + INFO_SIZE * k
    requires |free| == n && forall k :: 0 <= k < n ==> free[k] == []
    ensures ListsOk(base, infos, EmptyLists(base, n), free)
  {
    var lists := EmptyLists(base, n);
    EmptyListsAre(base, n);
    forall k | 0 <= k < n ensures LevelList(base, infos, lists, free, k) {
      assert base + INFO_SIZE * k in lists && free[k] == [];
    }
    forall h | h in EmptyLists(base, n) ensures IsHead(infos, h) {
      var k := EmptyListsOnly(base, n, h);
      assert infos[k].free == h;
    }
  }

  /** A tree without blocks. */
  function Bare(max: nat): Tree {
    Tree(max, {}, {}, seq(max + 1, _ => []), {})
  }

  lemma SameHeadsLists(base: int, infos: seq<BuddyInfo>, infos': seq<BuddyInfo>, lists: map<int, seq<int>>,
                       free: seq<seq<nat>>)
    requires ListsOk(base, infos, lists, free) && SameHeads(infos, infos')
    ensures ListsOk(base, infos', lists, free)
  {
    forall k | 0 <= k < |infos'| ensures LevelList(base, infos', lists, free, k) {
      assert LevelList(base, infos, lists, free, k);
    }
    forall h | h in lists ensures IsHead(infos', h) {
      assert IsHead(infos, h);
      var k :| 0 <= k < |infos| && infos[k].free == h;
      assert infos'[k].free == h;
    }
  }

  lemma {:induction false} LoWithin(max: nat, r: nat, k: nat)
    requires r <= Pow2(max) && k <= max
    ensures Lo(r, k) <= Pow2(max - k)
  {
    if k > 0 { LoWithin(max, r, k - 1); }
  }

  /** The reserved leaves, as recorded once both marks are made. */
  ghost function ReservedLeaves(t: Tree): set<Block> {
    set b | b in t.alloc && b.level == 0
  }

  /** Marking [0, c) and [n, 2^max) sets exactly the bits of the blocks that are not usable. */
  lemma MarksAreFinal(c: nat, n: nat, t: Tree)
    requires Geometry(c, n, t.max)
    requires forall b :: b in t.alloc <==> Marked(t.max, 0, c, b) || Marked(t.max, n, Pow2(t.max), b)
    requires forall b :: b in t.split <==> b.level > 0 && (Marked(t.max, 0, c, b) || Marked(t.max, n, Pow2(t.max), b))
    requires t.reserved == ReservedLeaves(t)
    ensures FinalBits(t, c, n)
  {
    forall b ensures FinalBit(t, c, n, b) {
      if b.level <= t.max {
        HiZero(b.level);
        LoOfTop(t.max, b.level);
      }
    }
  }

  lemma {:induction false} HiZero(k: nat)
    ensures Hi(0, k) == 0
  {
    if k > 0 { HiZero(k - 1); }
  }

  lemma HeadsInMetadata(base: int, infos: seq<BuddyInfo>, c: nat, n: nat, t: Tree)
    requires Geometry(c, n, t.max) && |infos| == t.max + 1 && c * LEAF_SIZE >= INFO_SIZE * (t.max + 1)
    requires forall k :: 0 <= k < |infos| ==> infos[k].free == base + INFO_SIZE * k
    requires FinalBits(t, c, n)
    ensures HeadsReserved(base, infos, t)
  {
    forall k | 0 <= k < |infos| ensures InReserved(base, t, infos[k].free) {
      var r := Block(0, 3 * k);
      Pow2Grows(t.max - 1, t.max);
      assert FinalBit(t, c, n, r) && First(r) == 3 * k;
      assert r in t.reserved;
    }
  }

  /** The lists hold only maximal usable blocks. */
  ghost predicate SomeListed(t: Tree, c: nat, n: nat) {
    |t.free| == t.max + 1 && forall k, i :: 0 <= k <= t.max && i in t.free[k] ==> i in FinalList(c, n, k)
  }

  lemma BlockUnlisted(base: int, infos: seq<BuddyInfo>, lists: map<int, seq<int>>, t: Tree, k: nat, i: nat, c: nat,
                      n: nat)
    requires ListsOk(base, infos, lists, t.free) && HeadsReserved(base, infos, t)
    requires Geometry(c, n, t.max) && FinalBits(t, c, n) && SomeListed(t, c, n)
    requires k <= t.max && i in FinalList(c, n, k) && i !in t.free[k]
    ensures Unused(lists, Addr(base, Block(k, i)))
  {
    var f := t.(free := FinalLists(c, n, t.max));
    forall b ensures FinalBit(f, c, n, b) { assert FinalBit(t, c, n, b); }
    FinalTreeInv(f, c, n);
    AddressUnused(base, infos, lists, t, Block(k, i), f);
  }

  lemma RegionInPages(start: int, end: int)
    requires start > 0 && end >= 0 && RoundUp(start, PAGE_SIZE) < RoundDown(end, PAGE_SIZE)
    ensures RoundUp(start, PAGE_SIZE) % PAGE_SIZE == 0 && RoundUp(start, PAGE_SIZE) > 0
    ensures var size := RoundDown(end, PAGE_SIZE) - RoundUp(start, PAGE_SIZE);
            size == (size / LEAF_SIZE) * LEAF_SIZE && (size / LEAF_SIZE) % 256 == 0
  {
    var a, b := (start - 1) / PAGE_SIZE + 1, end / PAGE_SIZE;
    PagesInLeaves(b - a);
    assert RoundUp(start, PAGE_SIZE) == a * PAGE_SIZE && RoundDown(end, PAGE_SIZE) == b * PAGE_SIZE;
  }

  lemma PagesInLeaves(k: int)
    ensures (k * PAGE_SIZE) / LEAF_SIZE == k * 256 && (k * PAGE_SIZE) % PAGE_SIZE == 0 && (k * 256) % 256 == 0
  {
  }

  /** Where the metadata ends, in leaves. */
  lemma MetadataLeaves(base: int, max: nat, n: nat, c: nat, metaEnd: int, cur: int)
    requires base > 0 && base % PAGE_SIZE == 0 && max > 0 && n % 256 == 0 && forall e :: n != Pow2(e)
    requires Pow2(max - 1) < n < Pow2(max)
    requires metaEnd == base + MetaBytes(max) && cur == RoundUp(metaEnd, LEAF_SIZE) && c == (cur - base) / LEAF_SIZE
    ensures cur == base + c * LEAF_SIZE && c == (MetaBytes(max) + 15) / 16
    ensures max >= 10 && 0 < c <= Pow2(max - 3) && Geometry(c, n, max) && c < n
    ensures c * LEAF_SIZE >= INFO_SIZE * (max + 1)
    ensures MetaBytes(max) <= c * LEAF_SIZE < MetaBytes(max) + LEAF_SIZE
  {
    LeavesOf(base, MetaBytes(max), c, cur);
    PageAlignedGeometry(n, max, c);
  }

  lemma LeavesOf(base: int, m: int, c: int, cur: int)
    requires base > 0 && base % PAGE_SIZE == 0 && m > 0
    requires cur == RoundUp(base + m, LEAF_SIZE) && c == (cur - base) / LEAF_SIZE
    ensures cur == base + c * LEAF_SIZE && c == (m + 15) / 16 && m <= c * LEAF_SIZE < m + LEAF_SIZE
  {
    RoundUpLeaves(base, m);
    RoundUpBounds(m);
  }

  lemma RoundUpBounds(m: int)
    ensures m <= (m + 15) / 16 * LEAF_SIZE < m + LEAF_SIZE
  {
  }

  lemma RoundUpLeaves(base: int, m: int)
    requires base > 0 && base % PAGE_SIZE == 0 && m > 0
    ensures var cur := RoundUp(base + m, LEAF_SIZE);
            && (cur - base) / LEAF_SIZE == (m + 15) / 16 && cur == base + (m + 15) / 16 * LEAF_SIZE
  {
    var b := base / PAGE_SIZE;
    assert base == b * 256 * LEAF_SIZE;
    var q := (m - 1) / LEAF_SIZE;
    assert m - 1 == q * LEAF_SIZE + (m - 1) % LEAF_SIZE;
    assert (base + m - 1) / LEAF_SIZE == b * 256 + q;
    assert (m + 15) / LEAF_SIZE == q + 1;
  }

  /** One round of the loop of init_free, in terms of block numbers. */
  lemma LevelEndsOk(base: int, max: nat, i: nat, c: nat, n: nat, lbi: nat, rbi: nat, list: seq<nat>)
    requires Geometry(c, n, max) && i < max && !MetTwice(c, n, i) && list == []
    requires lbi == BlkIndexNext(base, i, base + c * LEAF_SIZE) && rbi == BlkIndex(base, i, base + n * LEAF_SIZE)
    ensures lbi < Pow2(max - i) && rbi < Pow2(max - i)
    ensures lbi == Lo(c, i) && rbi == Hi(n, i)
    ensures CanPush(c, n, i, lbi, list) && CanPush(c, n, i, rbi, PairPush(c, n, i, lbi, list))
    ensures PairPush(c, n, i, rbi, PairPush(c, n, i, lbi, list)) == FinalList(c, n, i)
  {
    NextIsLo(base, i, c);
    HiIsAt(n, i);
    IndexOfLeaf(base, i, n);
    EndsInRange(c, n, max, i);
    assert Pow2(max - i) == 2 * Pow2(max - 1 - i);
    PairsOfLevel(c, n, i);
  }

  /** Putting a usable block on its list. */
  lemma ListTables(base: int, infos: seq<BuddyInfo>, lists: map<int, seq<int>>, t: Tree, k: nat, i: nat, c: nat, n: nat)
    requires TablesOk(base, infos, lists, t) && Geometry(c, n, t.max) && FinalBits(t, c, n) && |t.free| == t.max + 1
    requires SomeListed(t, c, n) && k <= t.max && i in FinalList(c, n, k) && i !in t.free[k]
    ensures var t', a := SetFree(t, k, [i] + t.free[k]), base + i * BlkSize(k);
            && infos[k].free in lists && Unused(lists, a)
            && TablesOk(base, infos, lists[infos[k].free := [a] + lists[infos[k].free]], t')
            && FinalBits(t', c, n) && SomeListed(t', c, n)
  {
    var b := Block(k, i);
    IndexOfBlock(base, b);
    BlockUnlisted(base, infos, lists, t, k, i, c, n);
    var s := [i] + t.free[k];
    var t' := SetFree(t, k, s);
    assert LevelList(base, infos, lists, t.free, k);
    assert Addrs(base, k, s) == [Addr(base, b)] + Addrs(base, k, t.free[k]);
    SetList(base, infos, lists, t, k, s, infos, t');
    forall b ensures FinalBit(t', c, n, b) { assert FinalBit(t, c, n, b); }
  }

  class BuddySystem {
    var base: int
    var actualEnd: int
    var nsizes: nat
    var initialized: bool
    var infos: seq<BuddyInfo>
    const heap: ListHeap                 // the words of free memory that the lists are threaded through
    ghost var t: Tree

    ghost predicate Valid()
      reads this, heap
    {
      && base > 0 && base % PAGE_SIZE == 0
      && nsizes == |infos| == t.max + 1
      && Inv(t)
      && BitsOk(infos, t)
      && heap.Valid() && ListsOk(base, infos, heap.lists, t.free)
      && HeadsReserved(base, infos, t)
      && actualEnd <= base + BlkSize(t.max)
      && (forall u :: 0 <= u < Pow2(t.max) && base + u * LEAF_SIZE >= actualEnd ==> Block(0, u) in t.reserved)
    }

    /** `uninit` */
    constructor ()
      ensures !initialized && fresh(heap) && heap.Valid() && heap.lists == map[]
    {
      base, actualEnd, nsizes, initialized, infos := 0, 0, 0, false, [];
      heap := new ListHeap();
      t := Tree(0, {}, {}, [], {});
    }

    /** One leaf or more handed out to a caller of alloc: the block at `addr`. */
    ghost predicate HandedOut(addr: int, b: Block)
      reads this
    {
      IsHandedOut(t, b) && addr == Addr(base, b)
    }

    /** `info.free.pop()` and `alloc_set(bi, true)`. */
    method TakeHead(k: nat) returns (addr: int)
      requires Valid() && k < nsizes && t.free[k] != []
      modifies this`infos, this`t, heap
      ensures Valid() && t == Take(old(t), k)
      ensures HandedOut(addr, Block(k, old(t).free[k][0]))
    {
      TakeTables(base, infos, heap.lists, t, k);
      addr := heap.Pop(infos[k].free);
      IndexOfBlock(base, Block(k, t.free[k][0]));
      var bi := BlkIndex(base, k, addr);
      infos := AllocSet(infos, k, bi, true);
      t := Take(t, k);
    }

    /** One round of the loop that splits: the block of level `sizei` at `addr` keeps its lower half. */
    method SplitBlock(addr: int, sizei: nat, ghost b: Block)
      requires Valid() && HandedOut(addr, b) && 0 < b.level == sizei < nsizes
      modifies this`infos, this`t, heap
      ensures Valid() && t == Split(old(t), b) && HandedOut(addr, Left(b))
    {
      SplitTables(base, infos, heap.lists, t, b);
      IndexOfBlock(base, b);
      FirstOfLeft(b);
      var bi := BlkIndex(base, sizei, addr);
      infos := SplitSet(infos, sizei, bi, true);
      var bi1 := BlkIndex(base, sizei - 1, addr);
      var info1 := infos[sizei - 1].free;
      infos := AllocSet(infos, sizei - 1, bi1, true);
      var buddyAddr := addr + BlkSize(sizei - 1);
      heap.Push(info1, buddyAddr);
      t := Split(t, b);
    }

    /** The search of alloc for a non-empty list. */
    method FindList(smalli: nat) returns (sizei: nat)
      requires Valid()
      ensures smalli <= sizei && (sizei < nsizes ==> t.free[sizei] != [])
      ensures forall k :: smalli <= k < sizei && k < nsizes ==> t.free[k] == []
    {
      sizei := smalli;
      while sizei < nsizes
        invariant smalli <= sizei
        invariant forall k :: smalli <= k < sizei && k < nsizes ==> t.free[k] == []
      {
        assert LevelList(base, infos, heap.lists, t.free, sizei);
        var empty := heap.IsEmpty(infos[sizei].free);
        if !empty {
          break;
        }
        sizei := sizei + 1;
      }
    }

    /** alloc: the smallest level that serves the request, from the lowest non-empty list at or above it.
        `b` names the block that is returned. */
    method Alloc(size: nat, align: nat) returns (addr: int, ghost b: Block)
      requires Valid() && align <= PAGE_SIZE
      modifies this`infos, this`t, heap
      ensures Valid()
      ensures addr == 0 ==> t == old(t)
      ensures addr == 0 <==> size == 0 || forall k :: LevelFor(size) <= k < nsizes ==> old(t).free[k] == []
      ensures addr != 0 ==>
                size > 0 && b.level == LevelFor(size) && HandedOut(addr, b) && addr >= base && !IsLeaf(old(t), b)
      ensures addr != 0 ==> forall c :: IsLeaf(t, c) <==> IsLeaf(old(t), c) || c == b
      ensures addr != 0 ==> b.level < t.max && Release(t, b) == old(t)
      ensures addr != 0 ==> Serves(addr, b, size, align)
    {
      b := Block(0, 0);
      if size == 0 {
        return 0, b;
      }
      var smalli := LevelFor(size);
      var sizei := FindList(smalli);
      if sizei >= nsizes {
        return 0, b;
      }
      ghost var k, head := sizei, Block(sizei, t.free[sizei][0]);
      AllocKeepsInv(t, smalli, k);
      addr := TakeHead(sizei);
      b := head;
      while sizei > smalli
        invariant Valid() && smalli <= sizei == b.level && HandedOut(addr, b) && nsizes == old(nsizes)
        invariant SplitDown(t, b, smalli) == AllocFrom(old(t), smalli, k)
        invariant Lowest(b, smalli) == Lowest(head, smalli)
        decreases sizei
      {
        SplitBlock(addr, sizei, b);
        b := Left(b);
        sizei := sizei - 1;
      }
      AllocEffect(old(t), smalli, k);
      RequestServed(base, b, size, align);
    }

    /** The end of dealloc: the buddy is in use, so the block goes on its list. */
    method PutBlock(addr: int, sizei: nat, ghost b: Block)
      requires Valid() && HandedOut(addr, b) && b.level == sizei < t.max && Buddy(b) in t.alloc
      modifies this`infos, this`t, heap
      ensures Valid() && t == PutBack(old(t), b)
    {
      IndexOfBlock(base, b);
      PutTables(base, infos, heap.lists, t, b);
      infos := AllocSet(infos, sizei, BlkIndex(base, sizei, addr), false);
      heap.Push(infos[sizei].free, addr);
      t := PutBack(t, b);
    }

    /** One round of the loop that merges: the buddy is unlinked and the parent is no longer split. */
    method MergeBlock(addr: int, sizei: nat, ghost b: Block) returns (upper: int)
      requires Valid() && HandedOut(addr, b) && b.level == sizei < t.max && Buddy(b) !in t.alloc
      modifies this`infos, this`t, heap
      ensures Valid() && t == Merge(old(t), b) && HandedOut(upper, Parent(b)) && sizei + 1 < t.max
    {
      MergeIndices(base, b);
      var bi := BlkIndex(base, sizei, addr);
      var buddyi := if bi % 2 == 0 then bi + 1 else bi - 1;
      var buddyAddr := base + buddyi * BlkSize(sizei);
      assert buddyi == Buddy(b).index && buddyAddr == Addr(base, Buddy(b));
      ghost var m := MergeTables(base, infos, heap.lists, t, b);
      ghost var h, l := infos[sizei].free, heap.lists[infos[sizei].free];
      ghost var infos2 := SplitSet(AllocSet(infos, sizei, b.index, false), sizei + 1, Parent(b).index, false);
      ghost var lists2 := heap.lists[h := l[..m] + l[m + 1..]];
      assert TablesOk(base, infos2, lists2, Merge(t, b));
      infos := AllocSet(infos, sizei, bi, false);
      heap.Remove(buddyAddr, infos[sizei].free, m);
      upper := if buddyi % 2 == 0 then buddyAddr else addr;
      var spliti := BlkIndex(base, sizei + 1, upper);
      assert spliti == Parent(b).index;
      infos := SplitSet(infos, sizei + 1, spliti, false);
      assert infos == infos2 && heap.lists == lists2;
      t := Merge(t, b);
    }

    method BuddyInUse(addr: int, sizei: nat, ghost b: Block) returns (r: bool)
      requires Valid() && HandedOut(addr, b) && b.level == sizei < t.max
      ensures r <==> Buddy(b) in t.alloc
    {
      assert AllocOk(t, b);
      RangeOfFamily(t, b);
      IndexOfBlock(base, b);
      var bi := BlkIndex(base, sizei, addr);
      var buddyi := if bi % 2 == 0 then bi + 1 else bi - 1;
      assert Block(sizei, buddyi) == Buddy(b);
      ReadBits(infos, t, Buddy(b));
      r := GetAt(infos[sizei].alloc, buddyi);
    }

    /** The loop of dealloc that reads the level of the block at `addr` off the split bits. */
    method FindLevel(addr: int, ghost b: Block) returns (sizei: nat)
      requires Valid() && HandedOut(addr, b)
      ensures sizei == b.level < t.max
    {
      AtFirst(b);
      LevelFromSplitBits(t, b, First(b));
      assert AllocOk(t, b);
      FirstInRange(t, b);
      sizei := nsizes;
      var i := 0;
      while i < nsizes - 1
        invariant 0 <= i <= b.level
        decreases nsizes - i
      {
        InRangeUp(t, First(b), i + 1);
        IndexOfLeaf(base, i + 1, First(b));
        var bi := BlkIndex(base, i + 1, addr);
        ReadBits(infos, t, At(First(b), i + 1));
        if GetAt(infos[i + 1].split, bi) {
          return i;
        }
        i := i + 1;
      }
      assert false;
    }

    /** dealloc: none of its panics is reachable for a block handed out by alloc. */
    method Dealloc(addr: int, size: nat, ghost b: Block)
      requires Valid() && HandedOut(addr, b) && b.level < t.max && size <= BlkSize(b.level)
      modifies this`infos, this`t, heap
      ensures Valid() && t == Release(old(t), b)
      ensures forall c :: IsLeaf(t, c) <==> IsLeaf(old(t), c) && c != b
    {
      BelowEnd(addr, b);
      if addr < base || addr >= actualEnd {
        assert false;
      }
      var sizei := FindLevel(addr, b);
      if size > BlkSize(sizei) {
        assert false;
      }
      forall c ensures IsLeaf(Release(t, b), c) <==> IsLeaf(t, c) && c != b {
        ReleaseLeaves(t, b, c);
      }
      var rawAddr := addr;
      ghost var cur := b;
      while sizei < nsizes - 1
        invariant Valid() && nsizes == old(nsizes)
        invariant sizei == cur.level < t.max && HandedOut(rawAddr, cur) && Release(t, cur) == Release(old(t), b)
        decreases nsizes - sizei
      {
        var inUse := BuddyInUse(rawAddr, sizei, cur);
        if inUse {
          break;
        }
        rawAddr := MergeBlock(rawAddr, sizei, cur);
        cur := Parent(cur);
        sizei := sizei + 1;
      }
      PutBlock(rawAddr, sizei, cur);
    }

    /** What is handed out lies below the end of memory. */
    lemma BelowEnd(addr: int, b: Block)
      requires Valid() && HandedOut(addr, b)
      ensures base <= addr < actualEnd
    {
      assert AllocOk(t, b);
      FirstInRange(t, b);
      var r := Block(0, First(b));
      if addr >= actualEnd {
        PiecesApart(t, b, r);
      }
    }

    // ----- init

    /** The tables exist and agree with `t`, whatever `t` is. */
    ghost predicate Prepared()
      reads this, heap
    {
      && base > 0 && base % PAGE_SIZE == 0
      && nsizes == |infos| == t.max + 1
      && BitsOk(infos, t)
      && heap.Valid() && ListsOk(base, infos, heap.lists, t.free)
      && (forall k :: 0 <= k < |infos| ==> infos[k].free == base + INFO_SIZE * k)
    }

    /** The first loop of init: behind the table, one empty list and one allocation bitmap per level. */
    method InitLists(max: nat) returns (cur: int)
      requires nsizes == max + 1 > 1 && heap.Valid() && heap.lists == map[]
      modifies this`infos, heap
      ensures |infos| == nsizes && heap.Valid() && cur == base + INFO_SIZE * nsizes + BitmapsBytes(max, 0, nsizes)
      ensures forall k :: 0 <= k < nsizes ==>
                infos[k].free == base + INFO_SIZE * k && BitmapOk(infos[k].alloc, max, k, {})
      ensures heap.lists == EmptyLists(base, nsizes)
    {
      infos := Heads(base, nsizes);
      cur := base + INFO_SIZE * nsizes;
      var i := 0;
      while i < nsizes
        invariant 0 <= i <= nsizes == |infos|
        invariant heap.Valid()
        invariant forall k :: 0 <= k < nsizes ==> infos[k].free == base + INFO_SIZE * k
        invariant forall k :: 0 <= k < i ==> BitmapOk(infos[k].alloc, max, k, {})
        invariant heap.lists == EmptyLists(base, i)
        invariant cur == base + INFO_SIZE * nsizes + BitmapsBytes(max, 0, i)
      {
        EmptyListsAre(base, i);
        heap.Init(infos[i].free);
        var allocSize := BitmapBytes(Pow2(max - i));
        var zeros := Zeros(allocSize);
        ZeroBitmap(max, i, zeros);
        cur := cur + allocSize;
        infos := infos[i := infos[i].(alloc := zeros)];
        i := i + 1;
      }
    }

    /** The second loop: the split bitmaps, from level 1 on. */
    method InitSplits(max: nat, start: int) returns (cur: int)
      requires nsizes == |infos| == max + 1
      modifies this`infos
      ensures SameHeads(old(infos), infos) && cur == start + BitmapsBytes(max, 1, nsizes)
      ensures forall k :: 0 <= k < nsizes ==> infos[k].alloc == old(infos)[k].alloc
      ensures forall k :: 1 <= k < nsizes ==> BitmapOk(infos[k].split, max, k, {})
    {
      cur := start;
      var i := 1;
      while i < nsizes
        invariant 1 <= i <= nsizes && SameHeads(old(infos), infos)
        invariant forall k :: 0 <= k < nsizes ==> infos[k].alloc == old(infos)[k].alloc
        invariant forall k :: 1 <= k < i ==> BitmapOk(infos[k].split, max, k, {})
        invariant cur == start + BitmapsBytes(max, 1, i)
      {
        var splitSize := BitmapBytes(Pow2(max - i));
        var zeros := Zeros(splitSize);
        ZeroBitmap(max, i, zeros);
        cur := cur + splitSize;
        infos := infos[i := infos[i].(split := zeros)];
        i := i + 1;
      }
    }

    method InitTables(max: nat) returns (cur: int)
      requires base > 0 && base % PAGE_SIZE == 0 && nsizes == max + 1 > 1
      requires heap.Valid() && heap.lists == map[]
      modifies this`infos, this`t, heap
      ensures Prepared() && t == Bare(max) && cur == base + MetaBytes(max)
    {
      cur := InitLists(max);
      ghost var infos0 := infos;
      cur := InitSplits(max, cur);
      t := Bare(max);
      EmptyListsOk(base, nsizes, infos0, t.free);
      SameHeadsLists(base, infos0, infos, heap.lists, t.free);
    }

    /** mark: sets the bits of every block that overlaps leaves l to r, on every level. */
    method Mark(ghost l: nat, ghost r: nat, left: int, right: int)
      requires Prepared() && l <= r <= Pow2(t.max)
      requires left == base + l * LEAF_SIZE && right == base + r * LEAF_SIZE
      modifies this`infos, this`t
      ensures Prepared() && t.max == old(t).max && t.free == old(t).free && t.reserved == old(t).reserved
      ensures forall b :: b in t.alloc <==> b in old(t).alloc || Marked(t.max, l, r, b)
      ensures forall b :: b in t.split <==> b in old(t).split || (b.level > 0 && Marked(t.max, l, r, b))
    {
      var i := 0;
      while i < nsizes
        invariant 0 <= i <= nsizes == old(nsizes)
        invariant Prepared() && t.max == old(t).max && t.free == old(t).free && t.reserved == old(t).reserved
        invariant forall b :: b in t.alloc <==> b in old(t).alloc || (b.level < i && Marked(t.max, l, r, b))
        invariant forall b :: b in t.split <==> b in old(t).split || (0 < b.level < i && Marked(t.max, l, r, b))
      {
        var bi := BlkIndex(base, i, left);
        var bj := BlkIndexNext(base, i, right);
        IndexOfLeaf(base, i, l);
        HiIsAt(l, i);
        NextIsLo(base, i, r);
        LoWithin(t.max, r, i);
        MarkLevel(i, bi, bj);
        i := i + 1;
      }
    }

    /** The inner loop of mark. */
    method MarkLevel(i: nat, first: nat, bj: nat)
      requires Prepared() && i <= t.max && bj <= Pow2(t.max - i)
      modifies this`infos, this`t
      ensures Prepared() && t.max == old(t).max && t.free == old(t).free && t.reserved == old(t).reserved
      ensures forall b :: b in t.alloc <==> b in old(t).alloc || (b.level == i && first <= b.index < bj)
      ensures forall b :: b in t.split <==> b in old(t).split || (i > 0 && b.level == i && first <= b.index < bj)
    {
      var bi := first;
      while bi < bj
        invariant first <= bi
        invariant Prepared() && t.max == old(t).max && t.free == old(t).free && t.reserved == old(t).reserved
        invariant forall b :: b in t.alloc <==>
                    b in old(t).alloc || (b.level == i && first <= b.index < bi && b.index < bj)
        invariant forall b :: b in t.split <==>
                    b in old(t).split || (i > 0 && b.level == i && first <= b.index < bi && b.index < bj)
      {
        MarkBlock(i, bi);
        bi := bi + 1;
      }
    }

    method MarkBlock(i: nat, bi: nat)
      requires Prepared() && i <= t.max && bi < Pow2(t.max - i)
      modifies this`infos, this`t
      ensures Prepared()
      ensures t ==
              old(t).(alloc := old(t).alloc + {Block(i, bi)}, split := if i > 0 then old(t).split + {Block(i, bi)}
                      else old(t).split)
    {
      ghost var b := Block(i, bi);
      ghost var infos0 := infos;
      SetAllocBit(infos, t, b, true);
      infos := AllocSet(infos, i, bi, true);
      t := t.(alloc := t.alloc + {b});
      if i > 0 {
        SetSplitBit(infos, t, b, true);
        infos := SplitSet(infos, i, bi, true);
        t := t.(split := t.split + {b});
      }
      SameHeadsLists(base, infos0, infos, heap.lists, t.free);
    }

    /** The bitmaps are final, the lists hold some of the maximal usable blocks. */
    ghost predicate Listing(c: nat, n: nat)
      reads this, heap
    {
      && Prepared() && t.max > 0 && Geometry(c, n, t.max) && FinalBits(t, c, n)
      && HeadsReserved(base, infos, t) && SomeListed(t, c, n)
    }

    /** init_free_pair: of two buddies of which one is usable, that one goes on the list. */
    method InitFreePair(k: nat, bi: nat, ghost c: nat, ghost n: nat) returns (gain: int)
      requires Listing(c, n) && k < t.max && bi < Pow2(t.max - k) && CanPush(c, n, k, bi, t.free[k])
      modifies this`t, heap
      ensures Listing(c, n) && t.max == old(t).max && gain == PairGain(c, n, k, bi) * LEAF_SIZE
      ensures t.free == old(t).free[k := PairPush(c, n, k, bi, old(t).free[k])]
    {
      ghost var b := Block(k, bi);
      var buddyi := if bi % 2 == 0 then bi + 1 else bi - 1;
      assert Buddy(b) == Block(k, buddyi);
      RangeOfFamily(t, b);
      assert FinalBit(t, c, n, b) && FinalBit(t, c, n, Buddy(b));
      ReadBits(infos, t, b);
      ReadBits(infos, t, Buddy(b));
      assert PairSplits(c, n, k, bi) <==> (b in t.alloc) != (Buddy(b) in t.alloc);
      if GetAt(infos[k].alloc, bi) != GetAt(infos[k].alloc, buddyi) {
        if GetAt(infos[k].alloc, bi) {
          ListBlock(k, buddyi, c, n);
        } else {
          ListBlock(k, bi, c, n);
        }
        gain := BlkSize(k);
      } else {
        gain := 0;
      }
    }

    /** `info.free.push(blk_addr)` */
    method ListBlock(k: nat, i: nat, ghost c: nat, ghost n: nat)
      requires Listing(c, n) && k < t.max && i in FinalList(c, n, k) && i !in t.free[k]
      modifies this`t, heap
      ensures Listing(c, n) && t == SetFree(old(t), k, [i] + old(t).free[k])
    {
      ListTables(base, infos, heap.lists, t, k, i, c, n);
      heap.Push(infos[k].free, base + i * BlkSize(k));
      t := SetFree(t, k, [i] + t.free[k]);
    }

    /** One round of the loop of init_free: the block at each end of the usable range. */
    method InitFreeLevel(i: nat, left: int, ghost c: nat, ghost n: nat) returns (gain: int)
      requires Listing(c, n) && c < n && left == base + c * LEAF_SIZE && actualEnd == base + n * LEAF_SIZE
      requires i < t.max && t.free[i] == [] && !MetTwice(c, n, i)
      modifies this`t, heap
      ensures Listing(c, n) && t.max == old(t).max && t.free == old(t).free[i := FinalList(c, n, i)]
      ensures gain == (PairGain(c, n, i, Lo(c, i)) + PairGain(c, n, i, Hi(n, i))) * LEAF_SIZE
    {
      var right := actualEnd;
      var lbi := BlkIndexNext(base, i, left);
      var rbi := BlkIndex(base, i, right);
      LevelEndsOk(base, t.max, i, c, n, lbi, rbi, t.free[i]);
      ghost var free0 := t.free;
      gain := InitFreePair(i, lbi, c, n);
      assert t.free[i] == PairPush(c, n, i, lbi, free0[i]);
      if left < right {
        var more := InitFreePair(i, rbi, c, n);
        gain := gain + more;
        assert t.free == free0[i := PairPush(c, n, i, rbi, PairPush(c, n, i, lbi, free0[i]))];
      }
    }

    /** init_free: every maximal usable block is listed once, provided no level has the shape `MetTwice`. */
    method InitFree(left: int, ghost c: nat, ghost n: nat) returns (free: int)
      requires Listing(c, n) && c < n && left == base + c * LEAF_SIZE && actualEnd == base + n * LEAF_SIZE
      requires forall k :: 0 <= k <= t.max ==> t.free[k] == []
      requires forall k :: 0 <= k < t.max ==> !MetTwice(c, n, k)
      modifies this`t, heap
      ensures Listing(c, n) && t.max == old(t).max && t.free == FinalLists(c, n, t.max) && free == (n - c) * LEAF_SIZE
    {
      ghost var max := t.max;
      free := 0;
      var i := 0;
      while i < nsizes - 1
        invariant 0 <= i <= max == t.max == nsizes - 1
        invariant Listing(c, n)
        invariant ListsBelow(t.free, c, n, max, i) && free == GainBytes(c, n, i, LEAF_SIZE)
      {
        ListsGoOn(t.free, c, n, max, i);
        var gain := InitFreeLevel(i, left, c, n);
        GainGoesOn(c, n, i, LEAF_SIZE, gain);
        free := free + gain;
        i := i + 1;
      }
      ListsAreFinal(t.free, c, n, max);
      AccountingHolds(c, n, max);
    }

    /** The beginning of init: the page-aligned region and the number of levels. */
    method InitSizes(start: int, end: int) returns (ghost n: nat)
      requires start > 0 && end >= 0 && RoundUp(start, PAGE_SIZE) < RoundDown(end, PAGE_SIZE)
      requires forall e :: RoundDown(end, PAGE_SIZE) - RoundUp(start, PAGE_SIZE) != Pow2(e) * LEAF_SIZE
      modifies this`base, this`actualEnd, this`nsizes
      ensures base == RoundUp(start, PAGE_SIZE) > 0 && base % PAGE_SIZE == 0
      ensures actualEnd == RoundDown(end, PAGE_SIZE) == base + n * LEAF_SIZE
      ensures nsizes > 1 && Pow2(nsizes - 2) < n < Pow2(nsizes - 1)
      ensures n % 256 == 0 && forall e :: n != Pow2(e)
    {
      base := RoundUp(start, PAGE_SIZE);
      actualEnd := RoundDown(end, PAGE_SIZE);
      RegionInPages(start, end);
      n := (actualEnd - base) / LEAF_SIZE;
      var log := Log2((actualEnd - base) / LEAF_SIZE);
      assert n != Pow2(log);
      nsizes := log + 1;
      if actualEnd - base > BlkSize(nsizes - 1) {
        nsizes := nsizes + 1;
      }
    }

    /** mark_meta and mark_unavail. */
    method MarkAll(cur: int, ghost c: nat, ghost n: nat) returns (meta: int, unavail: int)
      requires Prepared() && t == Bare(t.max) && Geometry(c, n, t.max) && c < n
      requires cur == base + c * LEAF_SIZE && actualEnd == base + n * LEAF_SIZE
      requires c * LEAF_SIZE >= INFO_SIZE * nsizes
      modifies this`infos, this`t
      ensures Listing(c, n) && t.max == old(t).max && t.free == old(t).free
      ensures meta == c * LEAF_SIZE && unavail == (Pow2(t.max) - n) * LEAF_SIZE
    {
      meta := cur - base;
      Mark(0, c, base, cur);
      unavail := BlkSize(nsizes - 1) - (actualEnd - base);
      Mark(n, Pow2(t.max), actualEnd, actualEnd + unavail);
      t := t.(reserved := ReservedLeaves(t));
      MarksAreFinal(c, n, t);
      HeadsInMetadata(base, infos, c, n, t);
    }

    /** init: after it, everything in the region that exists and is not metadata is free in maximal blocks.
        None of its panics is reachable. `c` and `n` are the leaves of metadata and of existing memory. */
    method Init(start: int, end: int) returns (ghost c: nat, ghost n: nat)
      requires !initialized && heap.Valid() && heap.lists == map[] && start > 0
      requires end >= 0 && RoundUp(start, PAGE_SIZE) < RoundDown(end, PAGE_SIZE)
      requires forall e :: RoundDown(end, PAGE_SIZE) - RoundUp(start, PAGE_SIZE) != Pow2(e) * LEAF_SIZE
      modifies this, heap
      ensures Valid() && initialized
      ensures base == RoundUp(start, PAGE_SIZE) && actualEnd == RoundDown(end, PAGE_SIZE) == base + n * LEAF_SIZE
      ensures 0 < c < n && FinalBits(t, c, n) && t.free == FinalLists(c, n, t.max)
      ensures base + MetaBytes(t.max) <= base + c * LEAF_SIZE < base + MetaBytes(t.max) + LEAF_SIZE
    {
      if initialized {
        assert false;
      }
      n := InitSizes(start, end);
      var cur := InitTables(nsizes - 1);
      ghost var metaEnd := cur;
      cur := RoundUp(cur, LEAF_SIZE);
      c := (cur - base) / LEAF_SIZE;
      MetadataLeaves(base, t.max, n, c, metaEnd, cur);
      var meta, unavail := MarkAll(cur, c, n);
      forall k | 0 <= k < t.max ensures !MetTwice(c, n, k) { SmallMetadata(c, n, t.max, k); }
      var free := InitFree(cur, c, n);
      if free != BlkSize(nsizes - 1) - meta - unavail {
        assert false;
      }
      initialized := true;
      ReadyForUse(c, n);
    }

    lemma ReadyForUse(c: nat, n: nat)
      requires Listing(c, n) && t.free == FinalLists(c, n, t.max) && actualEnd == base + n * LEAF_SIZE
      ensures Valid()
    {
      FinalTreeInv(t, c, n);
      forall u: nat | u < Pow2(t.max) && base + u * LEAF_SIZE >= actualEnd ensures Block(0, u) in t.reserved {
        assert FinalBit(t, c, n, Block(0, u));
      }
    }
  }
}
