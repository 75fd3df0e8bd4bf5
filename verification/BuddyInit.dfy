/** How `BuddySystem::init` of `kernel/src/mm/kalloc.rs` builds the first free lists.

    The region is rounded up to 2^max leaves, of which the first `c` hold metadata and those from `n` on do
    not exist. A block is usable if it lies within [c, n); the free lists must hold the maximal usable
    blocks, each once. */
module BuddyInit {
  import opened BuddySpec

  /** blk_index_next of the end of the metadata: the first block of level k that starts at or after leaf c. */
  function Lo(c: nat, k: nat): nat {
    if k == 0 then c else (Lo(c, k - 1) + 1) / 2
  }

  /** blk_index of the end of memory: the first block of level k that does not end at or before leaf n. */
  function Hi(n: nat, k: nat): nat {
    if k == 0 then n else Hi(n, k - 1) / 2
  }

  predicate Usable(c: nat, n: nat, b: Block) {
    Lo(c, b.level) <= b.index < Hi(n, b.level)
  }

  lemma Scale(a: int, p: nat)
    ensures (2 * a) * p == a * (2 * p) && (a + 1) * p == a * p + p && (a - 1) * p == a * p - p
  {
  }

  lemma {:induction false} LoBounds(x: nat, k: nat)
    ensures Lo(x, k) * Pow2(k) >= x && (Lo(x, k) - 1) * Pow2(k) < x + (if x == 0 then 1 else 0)
  {
    if k > 0 {
      LoBounds(x, k - 1);
      var p := Pow2(k - 1);
      var l: int, l0: int := Lo(x, k), Lo(x, k - 1);
      Scale(l, p);
      Scale(l0, p);
      Scale(l - 1, p);
      if 2 * l == l0 { Scale(l0 - 1, p); }
    }
  }

  lemma {:induction false} HiBounds(x: nat, k: nat)
    ensures Hi(x, k) * Pow2(k) <= x < Hi(x, k) * Pow2(k) + Pow2(k)
  {
    if k > 0 {
      HiBounds(x, k - 1);
      var p, h, h0 := Pow2(k - 1), Hi(x, k), Hi(x, k - 1);
      Scale(h, p);
      Scale(h0, p);
      assert 2 * h == h0 || 2 * h == h0 - 1;
    }
  }

  /** A block is usable iff both of its halves are. */
  lemma UsableHalves(c: nat, n: nat, b: Block)
    requires b.level > 0
    ensures Usable(c, n, b) <==> Usable(c, n, Left(b)) && Usable(c, n, Right(b))
  {
  }

  /** Usable, but not part of a larger usable block. */
  predicate Maximal(c: nat, n: nat, b: Block) {
    Usable(c, n, b) && !Usable(c, n, Parent(b))
  }

  /** The maximal usable blocks of a level: at most one at each end. */
  lemma MaximalAtEnds(c: nat, n: nat, b: Block)
    ensures Maximal(c, n, b) <==>
            && Usable(c, n, b)
            && ((b.index == Lo(c, b.level) && b.index % 2 == 1) || (b.index == Hi(n, b.level) - 1 && b.index % 2 == 0))
  {
  }

  function FinalList(c: nat, n: nat, k: nat): seq<nat> {
    var lo, hi := Lo(c, k), Hi(n, k);
    if lo >= hi then []
    else (if hi % 2 == 1 then [hi - 1] else []) + (if lo % 2 == 1 then [lo] else [])
  }

  /** The one situation in which both calls of init_free_pair meet the same free block. */
  predicate MetTwice(c: nat, n: nat, k: nat) {
    Lo(c, k) % 2 == 0 && Hi(n, k) == Lo(c, k) + 1
  }

  function FinalLists(c: nat, n: nat, max: nat): seq<seq<nat>> {
    seq(max + 1, k requires 0 <= k <= max => FinalList(c, n, k))
  }

  /** The bits that init is to leave set: those of the blocks that are not usable. */
  ghost predicate FinalBit(t: Tree, c: nat, n: nat, b: Block) {
    && (b in t.alloc <==> InRange(t, b) && !Usable(c, n, b))
    && (b in t.split <==> InRange(t, b) && !Usable(c, n, b) && b.level > 0)
    && (b in t.reserved <==> InRange(t, b) && !Usable(c, n, b) && b.level == 0)
  }

  ghost predicate FinalBits(t: Tree, c: nat, n: nat) {
    forall b {:trigger FinalBit(t, c, n, b)} :: FinalBit(t, c, n, b)
  }

  ghost predicate Geometry(c: nat, n: nat, max: nat) {
    0 < c && 0 < max && Pow2(max - 1) < n < Pow2(max) && c <= Pow2(max - 1)
  }

  lemma {:induction false} EndsInRange(c: nat, n: nat, max: nat, k: nat)
    requires Geometry(c, n, max) && k <= max
    ensures Hi(n, k) < Pow2(max - k) && (k < max ==> 0 < Lo(c, k) <= Pow2(max - 1 - k))
    ensures k == max ==> Hi(n, k) == 0
    ensures k == max - 1 ==> Lo(c, k) == 1 && Hi(n, k) == 1
  {
    if k > 0 {
      EndsInRange(c, n, max, k - 1);
    }
    if k == max - 1 {
      HiBounds(n, k);
      assert Pow2(max) == 2 * Pow2(k) && Pow2(max - k) == 2;
      if Hi(n, k) == 0 { assert false; }
    }
  }

  lemma InFinalList(c: nat, n: nat, max: nat, b: Block)
    requires Geometry(c, n, max) && b.level <= max
    ensures b.index in FinalList(c, n, b.level) <==> Maximal(c, n, b)
    ensures Usable(c, n, b) ==> b.index < Pow2(max - b.level) && b.level < max
  {
    EndsInRange(c, n, max, b.level);
    MaximalAtEnds(c, n, b);
  }

  lemma FinalBlockOk(t: Tree, c: nat, n: nat, b: Block)
    requires Geometry(c, n, t.max) && FinalBits(t, c, n) && t.free == FinalLists(c, n, t.max)
    ensures AllocOk(t, b) && PairOk(t, b) && FreeOk(t, b)
  {
    assert FinalBit(t, c, n, b) && FinalBit(t, c, n, Parent(b));
    Family(b);
    UsableHalves(c, n, Parent(b));
    if b.level > 0 {
      UsableHalves(c, n, b);
      assert FinalBit(t, c, n, Left(b)) && FinalBit(t, c, n, Right(b));
    }
    RangeOfFamily(t, b);
    if b.level <= t.max { InFinalList(c, n, t.max, b); }
  }

  /** Lists with exactly the maximal usable blocks give an allocator that satisfies its invariant. */
  lemma FinalTreeInv(t: Tree, c: nat, n: nat)
    requires Geometry(c, n, t.max) && FinalBits(t, c, n) && t.free == FinalLists(c, n, t.max)
    ensures Inv(t)
  {
    forall b ensures AllocOk(t, b) { FinalBlockOk(t, c, n, b); }
    forall b ensures PairOk(t, b) { FinalBlockOk(t, c, n, b); }
    forall b ensures FreeOk(t, b) { FinalBlockOk(t, c, n, b); }
    assert FinalBit(t, c, n, Block(0, 0));
    assert Block(0, 0) in t.reserved;
    forall b | b in t.reserved ensures b.level == 0 && IsLeaf(t, b) { assert FinalBit(t, c, n, b); }
  }

  /** The last pair that init_free looks at exists, and so do its bits, unless the region is exactly 2^max leaves:
    * then the index is one too large on every level. */
  lemma LastPairExists(n: nat, max: nat, k: nat)
    requires k <= max && n <= Pow2(max)
    ensures Hi(n, k) < Pow2(max - k) <==> n < Pow2(max)
  {
    HiBounds(n, k);
    PowSplits(max, k);
    if Hi(n, k) < Pow2(max - k) { MulMono(Hi(n, k) + 1, Pow2(max - k), Pow2(k)); }
    if Hi(n, k) >= Pow2(max - k) { MulMono(Pow2(max - k), Hi(n, k), Pow2(k)); }
  }

  lemma MulMono(a: nat, b: nat, p: nat)
    requires a <= b
    ensures a * p <= b * p
  {
  }

  lemma {:induction false} PowSplits(max: nat, k: nat)
    requires k <= max
    ensures Pow2(max - k) * Pow2(k) == Pow2(max)
  {
    if k > 0 {
      PowSplits(max - 1, k - 1);
      assert Pow2(max - k) * Pow2(k) == 2 * (Pow2(max - k) * Pow2(k - 1));
    }
  }

  /** The free lists of the levels below `i` are final, the others are empty. */
  ghost predicate ListsBelow(free: seq<seq<nat>>, c: nat, n: nat, max: nat, i: nat) {
    |free| == max + 1 && forall k :: 0 <= k <= max ==> free[k] == if k < i then FinalList(c, n, k) else []
  }

  lemma ListsGoOn(free: seq<seq<nat>>, c: nat, n: nat, max: nat, i: nat)
    requires ListsBelow(free, c, n, max, i) && i < max
    ensures free[i] == [] && ListsBelow(free[i := FinalList(c, n, i)], c, n, max, i + 1)
  {
  }

  lemma ListsAreFinal(free: seq<seq<nat>>, c: nat, n: nat, max: nat)
    requires Geometry(c, n, max) && ListsBelow(free, c, n, max, max)
    ensures free == FinalLists(c, n, max)
  {
    EndsInRange(c, n, max, max);
    assert FinalList(c, n, max) == [];
  }

  // ----- What init_free pushes

  /** Bytes (in leaves) that a call of init_free_pair(k, bi) puts on the list of level k. */
  function PairGain(c: nat, n: nat, k: nat, bi: nat): nat {
    if PairSplits(c, n, k, bi) then Pow2(k) else 0
  }

  /** The total that init_free returns after the levels below `k`. */
  function Gain(c: nat, n: nat, k: nat): nat {
    if k == 0 then 0
    else Gain(c, n, k - 1) + PairGain(c, n, k - 1, Lo(c, k - 1)) + PairGain(c, n, k - 1, Hi(n, k - 1))
  }

  /** The bytes that the levels below `k` contribute. */
  function GainBytes(c: nat, n: nat, k: nat, leafSize: nat): nat {
    Gain(c, n, k) * leafSize
  }

  lemma GainGoesOn(c: nat, n: nat, k: nat, leafSize: nat, gain: int)
    requires gain == (PairGain(c, n, k, Lo(c, k)) + PairGain(c, n, k, Hi(n, k))) * leafSize
    ensures GainBytes(c, n, k, leafSize) + gain == GainBytes(c, n, k + 1, leafSize)
  {
    var more := PairGain(c, n, k, Lo(c, k)) + PairGain(c, n, k, Hi(n, k));
    SumTimes(Gain(c, n, k), more, leafSize);
    assert Gain(c, n, k + 1) == Gain(c, n, k) + more;
  }

  lemma SumTimes(a: nat, b: nat, p: nat)
    ensures (a + b) * p == a * p + b * p
  {
  }

  /** What the levels below `k` count twice. */
  function Twice(c: nat, n: nat, k: nat): nat {
    if k == 0 then 0 else Twice(c, n, k - 1) + if MetTwice(c, n, k - 1) then Pow2(k - 1) else 0
  }

  /** The leaves of [c, n) that lie in whole blocks of level k. */
  function Whole(c: nat, n: nat, k: nat): nat {
    Count(c, n, k) * Pow2(k)
  }

  function One(b: bool): nat { if b then 1 else 0 }

  predicate PairSplits(c: nat, n: nat, k: nat, bi: nat) {
    Usable(c, n, Block(k, bi)) != Usable(c, n, Buddy(Block(k, bi)))
  }

  function Count(c: nat, n: nat, k: nat): nat {
    if Lo(c, k) <= Hi(n, k) then Hi(n, k) - Lo(c, k) else 0
  }

  lemma CountOfLevel(c: nat, n: nat, k: nat)
    ensures One(PairSplits(c, n, k, Lo(c, k))) + One(PairSplits(c, n, k, Hi(n, k))) + 2 * Count(c, n, k + 1) ==
            Count(c, n, k) + One(MetTwice(c, n, k))
  {
  }

  lemma GainOfLevel(c: nat, n: nat, k: nat)
    ensures PairGain(c, n, k, Lo(c, k)) + PairGain(c, n, k, Hi(n, k)) + Whole(c, n, k + 1) ==
            Whole(c, n, k) + if MetTwice(c, n, k) then Pow2(k) else 0
  {
    CountOfLevel(c, n, k);
    var p := Pow2(k);
    var a, b := One(PairSplits(c, n, k, Lo(c, k))), One(PairSplits(c, n, k, Hi(n, k)));
    var x, y, m := Count(c, n, k), Count(c, n, k + 1), One(MetTwice(c, n, k));
    Distribute(a, b, y, x, m, p);
  }

  lemma Distribute(a: int, b: int, y: int, x: int, m: int, p: int)
    requires a + b + 2 * y == x + m
    ensures a * p + b * p + y * (2 * p) == x * p + m * p
  {
    assert (a + b + 2 * y) * p == (x + m) * p;
  }

  lemma {:induction false} GainIs(c: nat, n: nat, k: nat)
    requires c <= n
    ensures Gain(c, n, k) == n - c - Whole(c, n, k) + Twice(c, n, k)
  {
    if k > 0 {
      GainIs(c, n, k - 1);
      GainOfLevel(c, n, k - 1);
    }
  }

  lemma {:induction false} TwiceIsZero(c: nat, n: nat, k: nat)
    ensures Twice(c, n, k) == 0 <==> forall j :: 0 <= j < k ==> !MetTwice(c, n, j)
  {
    if k > 0 { TwiceIsZero(c, n, k - 1); }
  }

  /** The accounting at the end of init comes out right iff no level has the shape of `MetTwice`. */
  lemma Accounting(c: nat, n: nat, max: nat)
    requires Geometry(c, n, max) && c <= n
    ensures Gain(c, n, max) == n - c <==> forall k :: 0 <= k < max ==> !MetTwice(c, n, k)
  {
    GainIs(c, n, max);
    EndsInRange(c, n, max, max);
    TwiceIsZero(c, n, max);
  }

  lemma AccountingHolds(c: nat, n: nat, max: nat)
    requires Geometry(c, n, max) && c <= n
    requires forall k :: 0 <= k < max ==> !MetTwice(c, n, k)
    ensures Gain(c, n, max) == n - c
  {
    Accounting(c, n, max);
  }

  /** The condition is not idle: three leaves, two of them metadata, are counted wrong. `init` cannot receive this
    * region, since it rounds to pages of 256 leaves; `SmallMetadata` covers all that it can receive. */
  lemma AccountingCanFail()
    ensures Geometry(2, 3, 2) && Gain(2, 3, 2) != 3 - 2
  {
    assert Pow2(1) == 2 && Pow2(2) == 4;
    assert Gain(2, 3, 1) == 2;
  }

  /** When the metadata takes at most an eighth of the rounded region, no free block is met twice. */
  lemma {:induction false} SmallMetadata(c: nat, n: nat, max: nat, k: nat)
    requires 3 <= max && k < max && 0 < c <= Pow2(max - 3) && Pow2(max - 1) < n < Pow2(max)
    ensures !MetTwice(c, n, k)
  {
    LevelEnds(c, n, max, k);
    assert Pow2(2) == 4;
  }

  lemma {:induction false} LevelEnds(c: nat, n: nat, max: nat, k: nat)
    requires 3 <= max && k < max && 0 < c <= Pow2(max - 3) && Pow2(max - 1) < n < Pow2(max)
    ensures Hi(n, k) >= Pow2(max - 1 - k)
    ensures if k <= max - 3 then 0 < Lo(c, k) <= Pow2(max - 3 - k) else Lo(c, k) == 1
  {
    if k > 0 {
      LevelEnds(c, n, max, k - 1);
    }
  }

  /** Of two buddies of which one is usable, that one. */
  function UsableOne(c: nat, n: nat, k: nat, bi: nat): nat {
    if Usable(c, n, Block(k, bi)) then bi else Buddy(Block(k, bi)).index
  }

  /** The list after init_free_pair(k, bi). */
  function PairPush(c: nat, n: nat, k: nat, bi: nat, list: seq<nat>): seq<nat> {
    if PairSplits(c, n, k, bi) then [UsableOne(c, n, k, bi)] + list else list
  }

  /** What init_free_pair(k, bi) puts on the list belongs there and is not there yet. */
  predicate CanPush(c: nat, n: nat, k: nat, bi: nat, list: seq<nat>) {
    PairSplits(c, n, k, bi) ==> UsableOne(c, n, k, bi) in FinalList(c, n, k) && UsableOne(c, n, k, bi) !in list
  }

  /** The two calls for one level, as long as they do not meet the same block. */
  lemma PairsOfLevel(c: nat, n: nat, k: nat)
    requires !MetTwice(c, n, k)
    ensures CanPush(c, n, k, Lo(c, k), [])
    ensures var l := PairPush(c, n, k, Lo(c, k), []);
            CanPush(c, n, k, Hi(n, k), l) && PairPush(c, n, k, Hi(n, k), l) == FinalList(c, n, k)
  {
    var lo, hi := Lo(c, k), Hi(n, k);
    assert PairSplits(c, n, k, lo) <==> lo < hi && lo % 2 == 1;
    assert PairSplits(c, n, k, hi) <==> lo < hi && hi % 2 == 1;
  }

  // ----- How large the metadata is

  /** sizeof(BuddyInfo): a list head and two slices. */
  const INFO_SIZE: int := 48

  /** Bytes of a bitmap of `blocks` bits: round_up(blocks, 8) / 8. */
  function BitmapBytes(blocks: nat): (r: nat)
    requires blocks > 0
    ensures blocks <= 8 * r
  {
    ((blocks - 1) / 8 + 1) * 8 / 8
  }

  /** Bytes of the bitmaps of the levels from `first` up to, but not including, `end`. */
  function BitmapsBytes(max: nat, first: nat, end: nat): nat
    requires first <= end <= max + 1
  {
    if end == first then 0 else BitmapsBytes(max, first, end - 1) + BitmapBytes(Pow2(max - (end - 1)))
  }

  function MetaBytes(max: nat): int
    requires max > 0
  {
    INFO_SIZE * (max + 1) + BitmapsBytes(max, 0, max + 1) + BitmapsBytes(max, 1, max + 1)
  }

  lemma {:induction false} BitmapsAre(max: nat, first: nat, end: nat)
    requires first <= end <= max + 1 && first + 2 <= max
    ensures end <= max - 2 ==> BitmapsBytes(max, first, end) + Pow2(max - 2 - end) == Pow2(max - 2 - first)
    ensures end > max - 2 ==> BitmapsBytes(max, first, end) == Pow2(max - 2 - first) - 1 + (end - (max - 2))
    decreases end
  {
    assert Pow2(1) == 2 && Pow2(2) == 4;
    if end > first {
      BitmapsAre(max, first, end - 1);
      if end <= max - 2 {
        var q := Pow2(max - 2 - end);
        assert Pow2(max - (end - 1)) == 8 * q by {
          assert Pow2(max - 1 - end) == 2 * q && Pow2(max - end) == 4 * q;
        }
      }
    }
  }

  lemma {:induction false} MetadataIsSmall(max: nat)
    requires max >= 10
    ensures MetaBytes(max) + 15 <= 16 * Pow2(max - 3)
  {
    BitmapsAre(max, 0, max + 1);
    BitmapsAre(max, 1, max + 1);
    assert Pow2(max - 2) == 2 * Pow2(max - 3);
    PowerBeatsLine(max);
  }

  lemma {:induction false} PowerBeatsLine(max: nat)
    requires max >= 10
    ensures 48 * max + 67 <= 13 * Pow2(max - 3)
  {
    if max == 10 {
      assert Pow2(2) == 4 && Pow2(4) == 16 && Pow2(6) == 64 && Pow2(7) == 128;
    } else {
      PowerBeatsLine(max - 1);
    }
  }

  /** Every page-aligned region whose length is not a power of two has at least 2^9 leaves, and its metadata
      is small enough for `SmallMetadata`. */
  lemma PageAlignedGeometry(n: nat, max: nat, c: nat)
    requires n > 0 && n % 256 == 0 && (forall e :: n != Pow2(e))
    requires max > 0 && Pow2(max - 1) < n < Pow2(max)
    requires c == (MetaBytes(max) + 15) / 16
    ensures max >= 10 && 0 < c <= Pow2(max - 3) && Geometry(c, n, max) && c < n
  {
    PageAlignedIsLarge(n);
    if max <= 9 { Pow2Grows(max, 9); }
    MetadataIsSmall(max);
    Pow2Grows(max - 3, max - 1);
  }

  lemma PageAlignedIsLarge(n: nat)
    requires n > 0 && n % 256 == 0 && (forall e :: n != Pow2(e))
    ensures n >= 768 > Pow2(9)
  {
    assert Pow2(2) == 4 && Pow2(4) == 16 && Pow2(6) == 64 && Pow2(8) == 256 && Pow2(9) == 512;
  }
}
