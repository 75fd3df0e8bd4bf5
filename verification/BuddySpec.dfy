/** What the buddy allocator of `kernel/src/mm/kalloc.rs` keeps, on values: the two bit sets, the free
    lists, and the effect of one allocation and one release on them.

    A block of level k is 2^k leaves; the blocks of a level are numbered from the start of the managed
    region. A leaf's number therefore determines, level by level, the block that contains it. */
module BuddySpec {
  datatype Block = Block(level: nat, index: nat)

  function Pow2(n: nat): (r: nat)
    ensures r > 0
  {
    if n == 0 then 1 else 2 * Pow2(n - 1)
  }

  function Parent(b: Block): Block { Block(b.level + 1, b.index / 2) }

  function Buddy(b: Block): Block { Block(b.level, if b.index % 2 == 0 then b.index + 1 else b.index - 1) }

  function Left(b: Block): Block requires b.level > 0 { Block(b.level - 1, 2 * b.index) }

  function Right(b: Block): Block requires b.level > 0 { Block(b.level - 1, 2 * b.index + 1) }

  /** The block of level `k` that contains leaf `u`. */
  function At(u: nat, k: nat): (b: Block)
    ensures b.level == k
  {
    if k == 0 then Block(0, u) else Parent(At(u, k - 1))
  }

  function First(b: Block): nat {
    b.index * Pow2(b.level)
  }

  /** `alloc` and `split` are the blocks whose bits are set, `free[k]` is the free list of level k (block
      numbers, head first), `reserved` are the leaves taken by metadata or beyond the end of memory. */
  datatype Tree = Tree(max: nat, alloc: set<Block>, split: set<Block>, free: seq<seq<nat>>, reserved: set<Block>)

  predicate InRange(t: Tree, b: Block) {
    b.level <= t.max && b.index < Pow2(t.max - b.level)
  }

  predicate IsFree(t: Tree, b: Block) {
    b.level < |t.free| && b.index in t.free[b.level]
  }

  /** Allocated and not split: handed out or reserved. */
  predicate IsLeaf(t: Tree, b: Block) {
    b in t.alloc && b !in t.split
  }

  ghost predicate AllocOk(t: Tree, b: Block) {
    && (b in t.split ==> b in t.alloc && b.level > 0)
    && (b in t.alloc ==> InRange(t, b) && (b.level < t.max ==> Parent(b) in t.split))
  }

  /** On the list of its level iff its parent is split and it is not allocated. */
  ghost predicate FreeOk(t: Tree, b: Block) {
    && (b.level < t.max && InRange(t, b) ==> (IsFree(t, b) <==> Parent(b) in t.split && b !in t.alloc))
    && (b.level == t.max ==> !IsFree(t, b))
    && (IsFree(t, b) ==> InRange(t, b))
  }

  /** No two buddies are both free. */
  ghost predicate PairOk(t: Tree, b: Block) {
    b in t.split && b.level > 0 ==> Left(b) in t.alloc || Right(b) in t.alloc
  }

  ghost predicate NoDuplicates(s: seq<nat>) {
    forall i, j :: 0 <= i < j < |s| ==> s[i] != s[j]
  }

  ghost predicate Inv(t: Tree) {
    && t.max > 0 && |t.free| == t.max + 1
    && (forall b {:trigger AllocOk(t, b)} :: AllocOk(t, b))
    && (forall b {:trigger FreeOk(t, b)} :: FreeOk(t, b))
    && (forall b {:trigger PairOk(t, b)} :: PairOk(t, b))
    && (forall k {:trigger NoDuplicates(t.free[k])} :: 0 <= k < |t.free| ==> NoDuplicates(t.free[k]))
    && t.reserved != {} && (forall b :: b in t.reserved ==> b.level == 0 && IsLeaf(t, b))
  }

  // ----- Families

  lemma Family(b: Block)
    ensures b.level > 0 ==>
              Parent(Left(b)) == b && Parent(Right(b)) == b && Buddy(Left(b)) == Right(b) && Buddy(Right(b)) == Left(b)
    ensures Parent(Buddy(b)) == Parent(b) && Buddy(Buddy(b)) == b && Buddy(b) != b
    ensures b == Left(Parent(b)) || b == Right(Parent(b))
  {
  }

  lemma RangeOfFamily(t: Tree, b: Block)
    ensures InRange(t, b) && b.level < t.max ==> InRange(t, Buddy(b)) && InRange(t, Parent(b))
    ensures InRange(t, b) && b.level > 0 ==> InRange(t, Left(b)) && InRange(t, Right(b))
  {
  }

  /** Whatever contains a split block is split. */
  lemma {:induction false} SplitUpward(t: Tree, u: nat, j: nat, k: nat)
    requires Inv(t) && j <= k <= t.max && At(u, j) in t.split
    ensures At(u, k) in t.split
    decreases k - j
  {
    if j < k {
      assert AllocOk(t, At(u, j));
      SplitUpward(t, u, j + 1, k);
    }
  }

  /** Whatever lies inside a block that is not split is neither allocated nor on a list. */
  lemma {:induction false} NothingInside(t: Tree, u: nat, j: nat, k: nat)
    requires Inv(t) && j < k <= t.max && At(u, k) !in t.split
    ensures At(u, j) !in t.alloc && At(u, j) !in t.split && !IsFree(t, At(u, j))
    decreases k - j
  {
    assert AllocOk(t, At(u, j)) && FreeOk(t, At(u, j));
    if j + 1 < k {
      NothingInside(t, u, j + 1, k);
    }
  }

  lemma {:induction false} TopOf(t: Tree, u: nat, k: nat)
    requires k <= t.max && InRange(t, At(u, k))
    ensures At(u, t.max) == Block(t.max, 0)
    decreases t.max - k
  {
    if k < t.max {
      RangeOfFamily(t, At(u, k));
      TopOf(t, u, k + 1);
    }
  }

  /** The whole region is always split, because some leaf is reserved. */
  lemma RootSplit(t: Tree)
    requires Inv(t)
    ensures Block(t.max, 0) in t.split
  {
    var r :| r in t.reserved;
    assert AllocOk(t, r) && At(r.index, 0) == r;
    TopOf(t, r.index, 0);
    SplitUpward(t, r.index, 1, t.max);
  }

  /** `b` is one of the blocks that the allocator hands out or can hand out. */
  predicate IsPiece(t: Tree, b: Block) {
    IsLeaf(t, b) || IsFree(t, b)
  }

  lemma {:induction false} PieceBelow(t: Tree, u: nat, k: nat) returns (j: nat)
    requires Inv(t) && 0 < k <= t.max && At(u, k) in t.split && InRange(t, At(u, 0))
    ensures j < k && IsPiece(t, At(u, j))
    decreases k
  {
    j := k - 1;
    var b := At(u, j);
    InRangeUp(t, u, j);
    assert AllocOk(t, b) && FreeOk(t, b);
    if b in t.split {
      j := PieceBelow(t, u, j);
    }
  }

  lemma {:induction false} InRangeUp(t: Tree, u: nat, k: nat)
    requires k <= t.max && InRange(t, At(u, 0))
    ensures InRange(t, At(u, k))
  {
    if k > 0 {
      InRangeUp(t, u, k - 1);
      RangeOfFamily(t, At(u, k - 1));
    }
  }

  /** Partition: every leaf of the region lies in exactly one block that is free, handed out or reserved. */
  lemma Partition(t: Tree, u: nat)
    requires Inv(t) && u < Pow2(t.max)
    ensures exists j :: 0 <= j < t.max && IsPiece(t, At(u, j))
    ensures forall j, k :: 0 <= j <= t.max && 0 <= k <= t.max && IsPiece(t, At(u, j)) && IsPiece(t, At(u, k)) ==> j == k
    ensures forall j :: 0 <= j <= t.max ==> !(IsLeaf(t, At(u, j)) && IsFree(t, At(u, j)))
  {
    RootSplit(t);
    TopOf(t, u, 0);
    var j := PieceBelow(t, u, t.max);
    forall j, k | 0 <= j < k <= t.max && IsPiece(t, At(u, k)) ensures !IsPiece(t, At(u, j)) {
      assert FreeOk(t, At(u, k)) && AllocOk(t, At(u, k));
      NothingInside(t, u, j, k);
    }
    forall j | 0 <= j <= t.max ensures !(IsLeaf(t, At(u, j)) && IsFree(t, At(u, j))) {
      assert FreeOk(t, At(u, j));
    }
  }

  /** The level of an allocated block can be read off the split bits of the blocks around its first leaf:
      none below it is set, the one right above it is. */
  lemma LevelFromSplitBits(t: Tree, b: Block, u: nat)
    requires Inv(t) && IsLeaf(t, b) && At(u, b.level) == b
    ensures b.level < t.max
    ensures At(u, b.level + 1) in t.split
    ensures forall j :: 1 <= j <= b.level ==> At(u, j) !in t.split
  {
    assert AllocOk(t, b);
    RootSplit(t);
    forall j | 1 <= j <= b.level ensures At(u, j) !in t.split {
      if j < b.level { NothingInside(t, u, j, b.level); }
    }
  }

  // ----- The four moves that allocation and release are made of

  function SetFree(t: Tree, k: nat, list: seq<nat>): Tree
    requires k < |t.free|
  {
    t.(free := t.free[k := list])
  }

  /** The head of a list is handed out. */
  function Take(t: Tree, k: nat): Tree
    requires k < |t.free| && t.free[k] != []
  {
    SetFree(t, k, t.free[k][1..]).(alloc := t.alloc + {Block(k, t.free[k][0])})
  }

  /** An allocated block is split; its lower half stays allocated, its upper half goes on a list. */
  function Split(t: Tree, b: Block): Tree
    requires 0 < b.level <= |t.free|
  {
    SetFree(t, b.level - 1, [Right(b).index] + t.free[b.level - 1])
      .(split := t.split + {b}, alloc := t.alloc + {Left(b)})
  }

  function Without(s: seq<nat>, x: nat): seq<nat> {
    if s == [] then [] else if s[0] == x then s[1..] else [s[0]] + Without(s[1..], x)
  }

  /** An allocated block whose buddy is free is absorbed into their parent. */
  function Merge(t: Tree, b: Block): Tree
    requires b.level < |t.free|
  {
    SetFree(t, b.level, Without(t.free[b.level], Buddy(b).index))
      .(alloc := t.alloc - {b}, split := t.split - {Parent(b)})
  }

  /** An allocated block whose buddy is not free goes on its list. */
  function PutBack(t: Tree, b: Block): Tree
    requires b.level < |t.free|
  {
    SetFree(t, b.level, [b.index] + t.free[b.level]).(alloc := t.alloc - {b})
  }

  lemma {:induction false} WithoutIs(s: seq<nat>, x: nat)
    requires NoDuplicates(s)
    ensures forall y :: y in Without(s, x) <==> y in s && y != x
    ensures NoDuplicates(Without(s, x))
    ensures |Without(s, x)| == |s| - (if x in s then 1 else 0)
  {
    if s != [] {
      assert NoDuplicates(s[1..]);
      WithoutIs(s[1..], x);
      if s[0] == x {
        assert x !in s[1..];
      } else {
        assert s == [s[0]] + s[1..];
        var w := Without(s[1..], x);
        forall i, j | 0 <= i < j < |w| + 1 ensures ([s[0]] + w)[i] != ([s[0]] + w)[j] {
          if i == 0 { assert w[j - 1] in w && s[0] !in s[1..]; }
        }
      }
    }
  }

  lemma {:induction false} WithoutAt(s: seq<nat>, m: nat)
    requires m < |s| && NoDuplicates(s)
    ensures Without(s, s[m]) == s[..m] + s[m + 1..]
  {
    if m > 0 {
      assert s[1..][m - 1] == s[m] && NoDuplicates(s[1..]);
      WithoutAt(s[1..], m - 1);
      assert [s[0]] + (s[1..][..m - 1] + s[1..][m..]) == s[..m] + s[m + 1..];
    }
  }

  lemma TakeKeepsInv(t: Tree, k: nat)
    requires Inv(t) && k < |t.free| && t.free[k] != []
    ensures Inv(Take(t, k)) && IsLeaf(Take(t, k), Block(k, t.free[k][0]))
    ensures k < t.max && Block(k, t.free[k][0]) !in t.alloc
  {
    var t', b := Take(t, k), Block(k, t.free[k][0]);
    assert FreeOk(t, b) && AllocOk(t, b);
    assert NoDuplicates(t.free[k]);
    forall j | 0 <= j < |t.free| ensures NoDuplicates(t'.free[j]) { assert NoDuplicates(t.free[j]); }
    forall c ensures AllocOk(t', c) { assert AllocOk(t, c); }
    forall c ensures PairOk(t', c) { assert PairOk(t, c); }
    forall c ensures FreeOk(t', c) {
      assert FreeOk(t, c);
      if c.level == k { assert t.free[k] == [b.index] + t.free[k][1..]; }
    }
  }

  lemma SplitAllocOk(t: Tree, b: Block, c: Block)
    requires Inv(t) && IsLeaf(t, b) && b.level > 0 && b.level < |t.free|
    ensures var t' := Split(t, b); AllocOk(t', c) && PairOk(t', c)
  {
    Family(b);
    assert AllocOk(t, b);
    RangeOfFamily(t, b);
    assert AllocOk(t, c) && PairOk(t, c);
  }

  lemma SplitIsFree(t: Tree, b: Block, c: Block)
    requires 0 < b.level < |t.free|
    ensures IsFree(Split(t, b), c) <==> IsFree(t, c) || c == Right(b)
  {
  }

  lemma SplitFreeOk(t: Tree, b: Block, c: Block)
    requires Inv(t) && IsLeaf(t, b) && b.level > 0 && b.level < |t.free|
    ensures FreeOk(Split(t, b), c)
  {
    Family(b);
    RangeOfFamily(t, b);
    SplitIsFree(t, b, c);
    assert AllocOk(t, b) && AllocOk(t, Left(b)) && AllocOk(t, Right(b)) && FreeOk(t, c);
    if c != Left(b) && c != Right(b) {
      Family(c);
      assert Parent(c) != b;
    }
  }

  lemma SplitKeepsInv(t: Tree, b: Block)
    requires Inv(t) && IsLeaf(t, b) && b.level > 0 && b.level < |t.free|
    ensures Inv(Split(t, b)) && IsLeaf(Split(t, b), Left(b))
    ensures Left(b) !in t.alloc && Right(b) !in t.alloc && !IsFree(t, Right(b))
  {
    var t' := Split(t, b);
    Family(b);
    assert AllocOk(t, b) && AllocOk(t, Left(b)) && AllocOk(t, Right(b)) && FreeOk(t, Right(b));
    forall c ensures AllocOk(t', c) { SplitAllocOk(t, b, c); }
    forall c ensures PairOk(t', c) { SplitAllocOk(t, b, c); }
    forall c ensures FreeOk(t', c) { SplitFreeOk(t, b, c); }
    forall j | 0 <= j < |t.free| ensures NoDuplicates(t'.free[j]) { assert NoDuplicates(t.free[j]); }
  }

  /** `b` may be given back: handed out, and not one of the reserved leaves. */
  predicate IsHandedOut(t: Tree, b: Block) {
    IsLeaf(t, b) && b !in t.reserved
  }

  lemma BuddyIsFree(t: Tree, b: Block)
    requires Inv(t) && IsLeaf(t, b) && b.level < t.max && Buddy(b) !in t.alloc
    ensures IsFree(t, Buddy(b)) && InRange(t, Buddy(b)) && Parent(b) in t.split && Parent(b) in t.alloc
  {
    assert AllocOk(t, b) && AllocOk(t, Parent(b)) && FreeOk(t, Buddy(b));
    Family(b);
    RangeOfFamily(t, b);
  }

  lemma MergeKeepsAlloc(t: Tree, b: Block, c: Block)
    requires Inv(t) && IsHandedOut(t, b) && b.level < t.max && Buddy(b) !in t.alloc
    ensures AllocOk(Merge(t, b), c) && PairOk(Merge(t, b), c)
  {
    Family(b);
    Family(c);
    assert AllocOk(t, b) && AllocOk(t, c) && PairOk(t, c);
    assert Parent(c) == Parent(b) ==> c == b || c == Buddy(b);
  }

  lemma MergeKeepsFree(t: Tree, b: Block, c: Block)
    requires Inv(t) && IsHandedOut(t, b) && b.level < t.max && Buddy(b) !in t.alloc
    ensures FreeOk(Merge(t, b), c)
  {
    var t' := Merge(t, b);
    BuddyIsFree(t, b);
    Family(b);
    Family(c);
    assert NoDuplicates(t.free[b.level]);
    WithoutIs(t.free[b.level], Buddy(b).index);
    assert FreeOk(t, c) && FreeOk(t, b) && FreeOk(t, Parent(b));
    assert Parent(c) == Parent(b) ==> c == b || c == Buddy(b);
    assert c.level == b.level ==> (IsFree(t', c) <==> IsFree(t, c) && c != Buddy(b));
    assert c.level != b.level ==> (IsFree(t', c) <==> IsFree(t, c));
  }

  lemma MergeKeepsInv(t: Tree, b: Block)
    requires Inv(t) && IsHandedOut(t, b) && b.level < t.max && Buddy(b) !in t.alloc
    ensures Inv(Merge(t, b)) && IsHandedOut(Merge(t, b), Parent(b)) && Parent(b).level < t.max
  {
    var t' := Merge(t, b);
    BuddyIsFree(t, b);
    assert NoDuplicates(t.free[b.level]);
    WithoutIs(t.free[b.level], Buddy(b).index);
    forall c ensures AllocOk(t', c) { MergeKeepsAlloc(t, b, c); }
    forall c ensures PairOk(t', c) { MergeKeepsAlloc(t, b, c); }
    forall c ensures FreeOk(t', c) { MergeKeepsFree(t, b, c); }
    forall j | 0 <= j < |t.free| ensures NoDuplicates(t'.free[j]) { assert NoDuplicates(t.free[j]); }
    RootSplit(t');
  }

  lemma PutBackKeepsInv(t: Tree, b: Block)
    requires Inv(t) && IsHandedOut(t, b) && b.level < t.max && Buddy(b) in t.alloc
    ensures Inv(PutBack(t, b))
  {
    var t' := PutBack(t, b);
    assert AllocOk(t, b) && FreeOk(t, b);
    Family(b);
    forall c ensures AllocOk(t', c) {
      assert AllocOk(t, c);
    }
    forall c ensures PairOk(t', c) {
      assert PairOk(t, c);
      if c.level > 0 { Family(c); }
    }
    forall c ensures FreeOk(t', c) {
      assert FreeOk(t, c);
    }
    forall j | 0 <= j < |t.free| ensures NoDuplicates(t'.free[j]) { assert NoDuplicates(t.free[j]); }
  }

  // ----- Allocation and release

  /** Splits the allocated block `b` until its lowest part has level `small`. */
  function SplitDown(t: Tree, b: Block, small: nat): (r: Tree)
    requires small <= b.level < |t.free|
    ensures r.max == t.max && |r.free| == |t.free| && r.reserved == t.reserved
    decreases b.level
  {
    if b.level == small then t else SplitDown(Split(t, b), Left(b), small)
  }

  function Lowest(b: Block, small: nat): (r: Block)
    requires small <= b.level
    ensures r.level == small
    decreases b.level
  {
    if b.level == small then b else Lowest(Left(b), small)
  }

  /** What alloc does once it has found the non-empty list `k`. */
  function AllocFrom(t: Tree, small: nat, k: nat): Tree
    requires small <= k < |t.free| && t.free[k] != []
  {
    SplitDown(Take(t, k), Block(k, t.free[k][0]), small)
  }

  /** What dealloc does with a block it has found to be allocated. */
  function Release(t: Tree, b: Block): Tree
    requires b.level <= t.max && |t.free| == t.max + 1
    decreases t.max - b.level
  {
    if b.level < t.max && Buddy(b) !in t.alloc then Release(Merge(t, b), Parent(b)) else PutBack(t, b)
  }

  lemma {:induction false} SplitDownKeepsInv(t: Tree, b: Block, small: nat)
    requires Inv(t) && IsHandedOut(t, b) && small <= b.level < |t.free|
    ensures Inv(SplitDown(t, b, small)) && IsHandedOut(SplitDown(t, b, small), Lowest(b, small))
    decreases b.level
  {
    if b.level > small {
      SplitKeepsInv(t, b);
      SplitDownKeepsInv(Split(t, b), Left(b), small);
    }
  }

  /** alloc keeps the invariant, and the block it returns was free, or part of a free block, before. */
  lemma AllocKeepsInv(t: Tree, small: nat, k: nat)
    requires Inv(t) && small <= k < |t.free| && t.free[k] != []
    ensures Inv(AllocFrom(t, small, k)) && IsHandedOut(AllocFrom(t, small, k), Lowest(Block(k, t.free[k][0]), small))
  {
    TakeKeepsInv(t, k);
    SplitDownKeepsInv(Take(t, k), Block(k, t.free[k][0]), small);
  }

  lemma {:induction false} ReleaseKeepsInv(t: Tree, b: Block)
    requires Inv(t) && IsHandedOut(t, b) && b.level < t.max
    ensures Inv(Release(t, b))
    decreases t.max - b.level
  {
    if Buddy(b) !in t.alloc {
      MergeKeepsInv(t, b);
      ReleaseKeepsInv(Merge(t, b), Parent(b));
    } else {
      PutBackKeepsInv(t, b);
    }
  }

  lemma {:induction false} SplitDownLeaves(t: Tree, b: Block, small: nat, c: Block)
    requires Inv(t) && IsHandedOut(t, b) && small <= b.level < |t.free|
    ensures IsLeaf(SplitDown(t, b, small), c) <==> (IsLeaf(t, c) && c != b) || c == Lowest(b, small)
    decreases b.level
  {
    if b.level > small {
      SplitKeepsInv(t, b);
      SplitDownLeaves(Split(t, b), Left(b), small, c);
    }
  }

  /** Allocation adds one block to the ones handed out and leaves all others alone. */
  lemma AllocLeaves(t: Tree, small: nat, k: nat, c: Block)
    requires Inv(t) && small <= k < |t.free| && t.free[k] != []
    ensures var r := Lowest(Block(k, t.free[k][0]), small);
            && (IsLeaf(AllocFrom(t, small, k), c) <==> IsLeaf(t, c) || c == r)
            && !IsLeaf(t, r)
  {
    var b := Block(k, t.free[k][0]);
    TakeKeepsInv(t, k);
    SplitDownLeaves(Take(t, k), b, small, c);
    SplitDownLeaves(Take(t, k), b, small, Lowest(b, small));
    LowestNotAllocated(t, b, small);
  }

  lemma {:induction false} LowestNotAllocated(t: Tree, b: Block, small: nat)
    requires Inv(t) && b !in t.alloc && small <= b.level <= t.max
    ensures Lowest(b, small) !in t.alloc
    decreases b.level
  {
    if b.level > small {
      Family(b);
      assert AllocOk(t, Left(b)) && AllocOk(t, b);
      LowestNotAllocated(t, Left(b), small);
    }
  }

  /** Release takes the block out of the ones handed out and leaves all others alone. */
  lemma {:induction false} ReleaseLeaves(t: Tree, b: Block, c: Block)
    requires Inv(t) && IsHandedOut(t, b) && b.level < t.max
    ensures IsLeaf(Release(t, b), c) <==> IsLeaf(t, c) && c != b
    decreases t.max - b.level
  {
    if Buddy(b) !in t.alloc {
      MergeKeepsInv(t, b);
      BuddyIsFree(t, b);
      ReleaseLeaves(Merge(t, b), Parent(b), c);
    }
  }

  lemma MergeUndoesSplit(t: Tree, b: Block)
    requires Inv(t) && IsLeaf(t, b) && 0 < b.level < |t.free|
    ensures Buddy(Left(b)) !in Split(t, b).alloc && Merge(Split(t, b), Left(b)) == t
  {
    SplitKeepsInv(t, b);
    Family(b);
    var l := t.free[b.level - 1];
    assert Without([Right(b).index] + l, Right(b).index) == l;
    assert t.free[b.level - 1 := l] == t.free;
    assert (t.alloc + {Left(b)}) - {Left(b)} == t.alloc && (t.split + {b}) - {b} == t.split;
  }

  lemma {:induction false} ReleaseUndoesSplitDown(t: Tree, b: Block, small: nat)
    requires Inv(t) && IsHandedOut(t, b) && small <= b.level < |t.free|
    ensures Release(SplitDown(t, b, small), Lowest(b, small)) == Release(t, b)
    decreases b.level
  {
    if b.level > small {
      SplitKeepsInv(t, b);
      ReleaseUndoesSplitDown(Split(t, b), Left(b), small);
      MergeUndoesSplit(t, b);
      Family(b);
    }
  }

  /** alloc followed by dealloc of what it returned restores the state exactly, down to the order of the
      free lists. */
  lemma ReleaseUndoesAlloc(t: Tree, small: nat, k: nat)
    requires Inv(t) && small <= k < |t.free| && t.free[k] != []
    ensures Release(AllocFrom(t, small, k), Lowest(Block(k, t.free[k][0]), small)) == t
  {
    TakeKeepsInv(t, k);
    ReleaseUndoesSplitDown(Take(t, k), Block(k, t.free[k][0]), small);
    ReleaseUndoesTake(t, k);
  }

  lemma ReleaseUndoesTake(t: Tree, k: nat)
    requires Inv(t) && k < |t.free| && t.free[k] != []
    ensures Release(Take(t, k), Block(k, t.free[k][0])) == t
  {
    TakeKeepsInv(t, k);
    FirstIsFree(t, k);
    BuddyNotFree(t, Block(k, t.free[k][0]));
    PutBackTaken(t, k);
  }

  lemma FirstIsFree(t: Tree, k: nat)
    requires Inv(t) && k < |t.free| && t.free[k] != []
    ensures var b := Block(k, t.free[k][0]); FreeOk(t, b) && PairOk(t, Parent(b)) && IsFree(t, b)
  {
    assert FreeOk(t, Block(k, t.free[k][0])) && PairOk(t, Parent(Block(k, t.free[k][0])));
  }

  /** The buddy of a free block is not free. */
  lemma BuddyNotFree(t: Tree, b: Block)
    requires FreeOk(t, b) && PairOk(t, Parent(b)) && IsFree(t, b) && b.level < t.max
    ensures Buddy(b) in t.alloc && Buddy(b) != b
  {
    Family(b);
  }

  lemma PutBackTaken(t: Tree, k: nat)
    requires k < |t.free| && t.free[k] != [] && Block(k, t.free[k][0]) !in t.alloc
    ensures PutBack(Take(t, k), Block(k, t.free[k][0])) == t
  {
    var b := Block(k, t.free[k][0]);
    assert t.free[k] == [b.index] + t.free[k][1..];
    assert t.free[k := t.free[k][1..]][k := t.free[k]] == t.free;
    assert (t.alloc + {b}) - {b} == t.alloc;
  }

  // ----- Where blocks are

  lemma {:induction false} AtFirst(b: Block)
    ensures At(First(b), b.level) == b
    decreases b.level
  {
    if b.level > 0 {
      var l := Block(b.level - 1, 2 * b.index);
      assert First(b) == First(l) by {
        assert Pow2(b.level) == 2 * Pow2(b.level - 1);
        assert b.index * (2 * Pow2(b.level - 1)) == (2 * b.index) * Pow2(b.level - 1);
      }
      AtFirst(l);
    }
  }

  lemma FirstOfLeft(b: Block)
    requires b.level > 0
    ensures First(Left(b)) == First(b) && First(Right(b)) == First(b) + Pow2(b.level - 1)
  {
    var p := Pow2(b.level - 1);
    assert Pow2(b.level) == 2 * p;
    assert b.index * (2 * p) == (2 * b.index) * p;
    assert (2 * b.index + 1) * p == (2 * b.index) * p + p;
  }

  lemma {:induction false} FirstOfLowest(b: Block, small: nat)
    requires small <= b.level
    ensures First(Lowest(b, small)) == First(b)
    decreases b.level
  {
    if b.level > small {
      FirstOfLeft(b);
      FirstOfLowest(Left(b), small);
    }
  }

  lemma FirstInRange(t: Tree, b: Block)
    requires InRange(t, b)
    ensures First(b) < Pow2(t.max)
    ensures First(b) + Pow2(b.level) <= Pow2(t.max)
  {
    Pow2Adds(t.max - b.level, b.level);
    NextMultiple(b.index, Pow2(t.max - b.level), Pow2(b.level));
  }

  lemma NextMultiple(i: nat, q: nat, p: nat)
    requires i < q
    ensures i * p + p <= q * p
  {
    assert (i + 1) * p == i * p + p;
    MulMono(i + 1, q, p);
  }

  lemma MulMono(a: nat, b: nat, c: nat)
    requires a <= b
    ensures a * c <= b * c
  {
  }

  lemma Double(x: nat, y: nat)
    ensures (2 * x) * y == 2 * (x * y)
  {
  }

  lemma {:induction false} Pow2Adds(a: nat, b: nat)
    ensures Pow2(a + b) == Pow2(a) * Pow2(b)
  {
    if a > 0 {
      Pow2Adds(a - 1, b);
      Double(Pow2(a - 1), Pow2(b));
    }
  }

  lemma {:induction false} Pow2Grows(a: nat, b: nat)
    requires a <= b
    ensures Pow2(a) <= Pow2(b)
    decreases b
  {
    if a < b { Pow2Grows(a, b - 1); }
  }

  /** Two blocks that are free, handed out or reserved never start at the same leaf. */
  lemma PiecesApart(t: Tree, b: Block, c: Block)
    requires Inv(t) && IsPiece(t, b) && IsPiece(t, c) && First(b) == First(c)
    ensures b == c
  {
    assert AllocOk(t, b) && AllocOk(t, c) && FreeOk(t, b) && FreeOk(t, c);
    AtFirst(b);
    AtFirst(c);
    FirstInRange(t, b);
    Partition(t, First(b));
  }
}
