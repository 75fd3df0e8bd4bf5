/** Block ownership: each taken block is metadata or belongs to one slot of one inode. */
module FsOwner {
  import opened Words
  import opened LogSpec
  import opened FsSpec

  type Inodes = seq<DiskInode>

  /** A place that holds a block number: a direct address, the indirect address, or a word of the indirect block. */
  datatype Slot = Direct(i: nat, k: nat) | Indirect(i: nat) | Leaf(i: nat, k: nat)

  predicate SlotIn(n: nat, s: Slot) {
    s.i < n && match s case Direct(_, k) => k < NDIRECT case Indirect(_) => true case Leaf(_, k) => k < NINDIRECT
  }

  function Addr(dinodes: Inodes, i: nat, k: nat): nat {
    if i < |dinodes| && k < |dinodes[i].addrs| then dinodes[i].addrs[k] else 0
  }

  /** The block number in a slot, 0 if there is none. */
  function Get(disk: Disk, dinodes: Inodes, s: Slot): nat {
    match s
    case Direct(i, k) => Addr(dinodes, i, k)
    case Indirect(i) => Addr(dinodes, i, NDIRECT)
    case Leaf(i, k) =>
      var b := Addr(dinodes, i, NDIRECT);
      if b == 0 || b >= |disk| || k >= NINDIRECT then 0 else WordAt(disk[b].bytes, 4 * k)
  }

  /** The slot of block `k` of a file. */
  function SlotOf(i: nat, k: nat): Slot {
    if k < NDIRECT then Direct(i, k) else Leaf(i, k - NDIRECT)
  }

  /** Block `k` of file `i`. */
  function Chunk(disk: Disk, dinodes: Inodes, i: nat, k: nat): Block {
    var b := Get(disk, dinodes, SlotOf(i, k));
    if b == 0 || b >= |disk| then ZeroBlock() else disk[b]
  }

  type Owner = map<nat, Slot>

  ghost predicate SlotOk(disk: Disk, dinodes: Inodes, owner: Owner, s: Slot) {
    var b := Get(disk, dinodes, s);
    SlotIn(|dinodes|, s) && b != 0 ==> b in owner && owner[b] == s
  }

  ghost predicate OwnerOk(sb: Super, disk: Disk, dinodes: Inodes, owner: Owner, b: nat) {
    b in owner ==> sb.datastart <= b < |disk| && SlotIn(|dinodes|, owner[b]) && Get(disk, dinodes, owner[b]) == b
  }

  /** A block is marked exactly if it is metadata, has an owner, or is on its way between owners. */
  ghost predicate BitOk(sb: Super, disk: Disk, owner: Owner, limbo: set<nat>, b: nat)
  {
    && (b in limbo ==> sb.datastart <= b < |disk| && b !in owner)
    && (b < |disk| ==> (Bit(sb, disk, b) <==> b < sb.datastart || b in owner || b in limbo))
  }

  ghost predicate SlotsOk(disk: Disk, dinodes: Inodes, owner: Owner) {
    forall s {:trigger SlotOk(disk, dinodes, owner, s)} :: SlotOk(disk, dinodes, owner, s)
  }

  ghost predicate OwnersOk(sb: Super, disk: Disk, dinodes: Inodes, owner: Owner) {
    forall b {:trigger OwnerOk(sb, disk, dinodes, owner, b)} :: OwnerOk(sb, disk, dinodes, owner, b)
  }

  ghost predicate BitsOk(sb: Super, disk: Disk, owner: Owner, limbo: set<nat>)
  {
    forall b: nat {:trigger BitOk(sb, disk, owner, limbo, b)} :: BitOk(sb, disk, owner, limbo, b)
  }

  ghost predicate InodesFit(dinodes: Inodes) {
    forall i :: 0 <= i < |dinodes| ==> InodeFits(dinodes[i])
  }

  ghost predicate Owned(sb: Super, disk: Disk, dinodes: Inodes, owner: Owner, limbo: set<nat>) {
    && SuperOk(sb) && |disk| == sb.size && |dinodes| == sb.ninodes && InodesFit(dinodes)
    && SlotsOk(disk, dinodes, owner) && OwnersOk(sb, disk, dinodes, owner) && BitsOk(sb, disk, owner, limbo)
  }

  /** The bitmap says exactly who owns what: a block is marked iff it is metadata or exactly one slot refers to it. */
  lemma BitmapIsOwnership(sb: Super, disk: Disk, dinodes: Inodes, owner: Owner, b: nat)
    requires Owned(sb, disk, dinodes, owner, {}) && b < |disk|
    ensures Bit(sb, disk, b) <==> b < sb.datastart || exists s :: SlotIn(|dinodes|, s) && Get(disk, dinodes, s) == b
    ensures b > 0 ==>
              forall s, t ::
                SlotIn(|dinodes|, s) && SlotIn(|dinodes|, t) && Get(disk, dinodes, s) == Get(disk, dinodes, t) == b ==>
                  s == t
    ensures b < sb.datastart ==> forall s :: SlotIn(|dinodes|, s) && b > 0 ==> Get(disk, dinodes, s) != b
  {
    assert BitOk(sb, disk, owner, {}, b) && OwnerOk(sb, disk, dinodes, owner, b);
    forall s | SlotIn(|dinodes|, s) && Get(disk, dinodes, s) == b && b > 0 ensures b in owner && owner[b] == s {
      assert SlotOk(disk, dinodes, owner, s);
    }
  }

  // ----- Changes that leave the owned blocks alone

  ghost predicate SameOwned(disk: Disk, disk': Disk, owner: Owner) {
    |disk'| == |disk| && forall b :: b in owner && b < |disk| ==> disk'[b] == disk[b]
  }

  lemma GetKept(disk: Disk, dinodes: Inodes, owner: Owner, disk': Disk, s: Slot)
    requires SlotsOk(disk, dinodes, owner) && SameOwned(disk, disk', owner) && SlotIn(|dinodes|, s)
    ensures Get(disk', dinodes, s) == Get(disk, dinodes, s)
  {
    if s.Leaf? { assert SlotOk(disk, dinodes, owner, Indirect(s.i)); }
  }

  lemma ChunkKept(disk: Disk, dinodes: Inodes, owner: Owner, disk': Disk, i: nat, k: nat)
    requires SlotsOk(disk, dinodes, owner) && SameOwned(disk, disk', owner) && i < |dinodes| && k < MAXBLOCKS
    ensures Chunk(disk', dinodes, i, k) == Chunk(disk, dinodes, i, k)
  {
    GetKept(disk, dinodes, owner, disk', SlotOf(i, k));
    assert SlotOk(disk, dinodes, owner, SlotOf(i, k));
  }

  lemma SlotsKept(sb: Super, disk: Disk, dinodes: Inodes, owner: Owner, disk': Disk)
    requires SlotsOk(disk, dinodes, owner) && OwnersOk(sb, disk, dinodes, owner) && SameOwned(disk, disk', owner)
    ensures SlotsOk(disk', dinodes, owner) && OwnersOk(sb, disk', dinodes, owner)
  {
    forall s ensures SlotOk(disk', dinodes, owner, s) {
      assert SlotOk(disk, dinodes, owner, s);
      if SlotIn(|dinodes|, s) { GetKept(disk, dinodes, owner, disk', s); }
    }
    forall b ensures OwnerOk(sb, disk', dinodes, owner, b) {
      assert OwnerOk(sb, disk, dinodes, owner, b);
      if b in owner { GetKept(disk, dinodes, owner, disk', owner[b]); }
    }
  }

  /** All chunks of all files, as one value. */
  ghost predicate IsChunks(disk: Disk, dinodes: Inodes, chunks: map<(nat, nat), Block>) {
    && (forall i, k :: (i, k) in chunks <==> 0 <= i < |dinodes| && 0 <= k < MAXBLOCKS)
    && forall i: nat, k: nat {:trigger Chunk(disk, dinodes, i, k)} ::
         i < |dinodes| && k < MAXBLOCKS ==> chunks[(i, k)] == Chunk(disk, dinodes, i, k)
  }

  lemma ChunksKept(disk: Disk, dinodes: Inodes, owner: Owner, disk': Disk, chunks: map<(nat, nat), Block>)
    requires SlotsOk(disk, dinodes, owner) && SameOwned(disk, disk', owner) && IsChunks(disk, dinodes, chunks)
    ensures IsChunks(disk', dinodes, chunks)
  {
    forall i: nat, k: nat | i < |dinodes| && k < MAXBLOCKS ensures chunks[(i, k)] == Chunk(disk', dinodes, i, k) {
      ChunkKept(disk, dinodes, owner, disk', i, k);
    }
  }

  // ----- The bitmap

  /** A metadata block other than the bitmap changes. */
  lemma MetaKeepsOwned(sb: Super, disk: Disk, dinodes: Inodes, owner: Owner, limbo: set<nat>, b: nat, x: Block)
    requires Owned(sb, disk, dinodes, owner, limbo) && b < sb.datastart && forall c :: 0 <= c < sb.size ==>
               BitmapBlock(sb, c) != b
    ensures Owned(sb, disk[b := x], dinodes, owner, limbo) && SameOwned(disk, disk[b := x], owner)
  {
    var disk' := disk[b := x];
    forall c | c in owner ensures c != b { assert OwnerOk(sb, disk, dinodes, owner, c); }
    SlotsKept(sb, disk, dinodes, owner, disk');
    forall c: nat ensures BitOk(sb, disk', owner, limbo, c) { assert BitOk(sb, disk, owner, limbo, c); }
  }

  lemma DivBitmap(b: nat, n: nat)
    requires b < n
    ensures b / BPB <= (n - 1) / BPB
  {
  }

  lemma BitmapInMeta(sb: Super, b: nat)
    requires SuperOk(sb) && b < sb.size
    ensures sb.bmapstart <= BitmapBlock(sb, b) < sb.datastart
  {
    DivBitmap(b, sb.size);
  }

  lemma BitsAfterSet(sb: Super, disk: Disk, owner: Owner, limbo: set<nat>, b: nat, v: bool, limbo': set<nat>)
    requires SuperOk(sb) && |disk| == sb.size && BitsOk(sb, disk, owner, limbo) && sb.datastart <= b < |disk|
             && b !in owner
    requires limbo' == if v then limbo + {b} else limbo - {b}
    ensures BitsOk(sb, Mark(sb, disk, b, v), owner, limbo')
  {
    var disk' := Mark(sb, disk, b, v);
    forall c: nat ensures BitOk(sb, disk', owner, limbo', c) {
      assert BitOk(sb, disk, owner, limbo, c);
      if c < |disk| { MarkSets(sb, disk, b, v, c); }
    }
  }

  /** No bitmap block changes, and the taken blocks change hands only. */
  lemma BitsMoved(sb: Super, disk: Disk, owner: Owner, limbo: set<nat>, disk': Disk, owner': Owner, limbo': set<nat>)
    requires SuperOk(sb) && |disk| == |disk'| == sb.size && BitsOk(sb, disk, owner, limbo)
    requires forall c :: 0 <= c < sb.datastart ==> disk'[c] == disk[c]
    requires owner'.Keys + limbo' == owner.Keys + limbo && owner'.Keys !! limbo'
    requires forall c :: c in owner ==> sb.datastart <= c < |disk|
    ensures BitsOk(sb, disk', owner', limbo')
  {
    forall c: nat ensures BitOk(sb, disk', owner', limbo', c) {
      assert BitOk(sb, disk, owner, limbo, c);
      assert c in owner'.Keys + limbo' <==> c in owner.Keys + limbo;
    }
  }

  /** `bm_alloc`: a free block is marked and zeroed. */
  lemma AllocKeepsOwned(sb: Super, disk: Disk, dinodes: Inodes, owner: Owner, limbo: set<nat>, b: nat)
    requires Owned(sb, disk, dinodes, owner, limbo) && b < |disk| && !Bit(sb, disk, b)
    ensures var disk' := Mark(sb, disk, b, true)[b := ZeroBlock()];
            && sb.datastart <= b && b !in owner && b !in limbo
            && Owned(sb, disk', dinodes, owner, limbo + {b}) && SameOwned(disk, disk', owner)
  {
    var disk1 := Mark(sb, disk, b, true);
    var disk' := disk1[b := ZeroBlock()];
    assert BitOk(sb, disk, owner, limbo, b);
    DataOwners(sb, disk, dinodes, owner);
    BitmapInMeta(sb, b);
    BitsAfterSet(sb, disk, owner, limbo, b, true, limbo + {b});
    BitsMoved(sb, disk1, owner, limbo + {b}, disk', owner, limbo + {b}) by {
      forall c | c in limbo + {b} ensures c !in owner { assert BitOk(sb, disk1, owner, limbo + {b}, c); }
    }
    SlotsKept(sb, disk, dinodes, owner, disk');
  }

  lemma DataOwners(sb: Super, disk: Disk, dinodes: Inodes, owner: Owner)
    requires OwnersOk(sb, disk, dinodes, owner)
    ensures forall c :: c in owner ==> sb.datastart <= c < |disk|
  {
    forall c | c in owner ensures sb.datastart <= c < |disk| { assert OwnerOk(sb, disk, dinodes, owner, c); }
  }

  lemma LimboApart(sb: Super, disk: Disk, owner: Owner, limbo: set<nat>)
    requires SuperOk(sb) && |disk| == sb.size && BitsOk(sb, disk, owner, limbo)
    ensures owner.Keys !! limbo && forall c :: c in limbo ==> sb.datastart <= c < |disk|
  {
    forall c | c in limbo ensures c !in owner && sb.datastart <= c < |disk| { assert BitOk(sb, disk, owner, limbo, c); }
  }

  /** `bm_free` of a block that no slot refers to any more. */
  lemma FreeKeepsOwned(sb: Super, disk: Disk, dinodes: Inodes, owner: Owner, limbo: set<nat>, b: nat)
    requires Owned(sb, disk, dinodes, owner, limbo) && b in limbo
    ensures b < |disk| && Bit(sb, disk, b)
    ensures Owned(sb, Mark(sb, disk, b, false), dinodes, owner, limbo - {b})
            && SameOwned(disk, Mark(sb, disk, b, false), owner)
  {
    assert BitOk(sb, disk, owner, limbo, b);
    DataOwners(sb, disk, dinodes, owner);
    BitmapInMeta(sb, b);
    BitsAfterSet(sb, disk, owner, limbo, b, false, limbo - {b});
    assert SameOwned(disk, Mark(sb, disk, b, false), owner);
    SlotsKept(sb, disk, dinodes, owner, Mark(sb, disk, b, false));
  }

  // ----- Slots get and lose blocks

  function SetAddr(dinodes: Inodes, i: nat, k: nat, b: nat): (r: Inodes)
    requires i < |dinodes| && k < |dinodes[i].addrs|
    ensures |r| == |dinodes|
  {
    dinodes[i := dinodes[i].(addrs := dinodes[i].addrs[k := b])]
  }

  function SetLeaf(disk: Disk, ib: nat, k: nat, b: nat): (r: Disk)
    requires ib < |disk| && k < NINDIRECT && IsWord(b)
    ensures |r| == |disk|
  {
    disk[ib := Data(PutWord(disk[ib].bytes, 4 * k, b))]
  }

  lemma SetLeafSets(disk: Disk, ib: nat, k: nat, b: nat, l: nat)
    requires ib < |disk| && k < NINDIRECT && IsWord(b) && l < NINDIRECT
    ensures WordAt(SetLeaf(disk, ib, k, b)[ib].bytes, 4 * l) == if l == k then b else WordAt(disk[ib].bytes, 4 * l)
  {
    if l != k { SameWord(SetLeaf(disk, ib, k, b)[ib].bytes, disk[ib].bytes, 4 * l); }
  }

  /** An empty direct or indirect address receives a zeroed block. */
  lemma AttachAddr(sb: Super, disk: Disk, dinodes: Inodes, owner: Owner, limbo: set<nat>, i: nat, k: nat, b: nat)
    requires Owned(sb, disk, dinodes, owner, limbo) && i < |dinodes| && k <= NDIRECT && Addr(dinodes, i, k) == 0
    requires b in limbo && b < |disk| && disk[b] == ZeroBlock()
    ensures |dinodes[i].addrs| == NDIRECT + 1
    ensures var s := if k < NDIRECT then Direct(i, k) else Indirect(i);
            Owned(sb, disk, SetAddr(dinodes, i, k, b), owner[b := s], limbo - {b})
  {
    var s := if k < NDIRECT then Direct(i, k) else Indirect(i);
    assert BitOk(sb, disk, owner, limbo, b) && InodeFits(dinodes[i]);
    DataOwners(sb, disk, dinodes, owner);
    LimboApart(sb, disk, owner, limbo);
    var dinodes', owner' := SetAddr(dinodes, i, k, b), owner[b := s];
    forall t ensures SlotOk(disk, dinodes', owner', t) {
      assert SlotOk(disk, dinodes, owner, t);
      if t.Leaf? && t.i == i && k == NDIRECT && t.k < NINDIRECT { ZeroWord(4 * t.k); }
    }
    forall c ensures OwnerOk(sb, disk, dinodes', owner', c) { assert OwnerOk(sb, disk, dinodes, owner, c); }
    BitsMoved(sb, disk, owner, limbo, disk, owner', limbo - {b});
  }

  lemma ZeroWord(off: nat)
    requires off + 4 <= BSIZE
    ensures WordAt(ZeroBlock().bytes, off) == 0
  {
  }

  lemma AttachAddrKeepsChunks(sb: Super, disk: Disk, dinodes: Inodes, i: nat, k: nat, b: nat, chunks: map<(nat, nat),
                              Block>)
    requires i < |dinodes| && |dinodes[i].addrs| == NDIRECT + 1 && k <= NDIRECT && Addr(dinodes, i, k) == 0
    requires 0 < b < |disk| && disk[b] == ZeroBlock() && IsChunks(disk, dinodes, chunks)
    ensures IsChunks(disk, SetAddr(dinodes, i, k, b), chunks)
  {
    var dinodes' := SetAddr(dinodes, i, k, b);
    forall j: nat, l: nat | j < |dinodes'| && l < MAXBLOCKS ensures chunks[(j, l)] == Chunk(disk, dinodes', j, l) {
      assert chunks[(j, l)] == Chunk(disk, dinodes, j, l);
      if l >= NDIRECT && k == NDIRECT && j == i { ZeroWord(4 * (l - NDIRECT)); }
    }
  }

  /** An indirect block, and the slot of one of its words. */
  ghost predicate HasIndirect(disk: Disk, dinodes: Inodes, i: nat, k: nat) {
    i < |dinodes| && k < NINDIRECT && 0 < Addr(dinodes, i, NDIRECT) < |disk|
  }

  lemma GetAfterSetLeaf(disk: Disk, dinodes: Inodes, owner: Owner, i: nat, k: nat, b: nat, s: Slot)
    requires SlotsOk(disk, dinodes, owner) && HasIndirect(disk, dinodes, i, k) && IsWord(b) && SlotIn(|dinodes|, s)
    ensures Get(SetLeaf(disk, Addr(dinodes, i, NDIRECT), k, b), dinodes, s) == if s == Leaf(i, k) then b
            else Get(disk, dinodes, s)
  {
    var ib := Addr(dinodes, i, NDIRECT);
    assert SlotOk(disk, dinodes, owner, Indirect(i));
    if s.Leaf? {
      assert SlotOk(disk, dinodes, owner, Indirect(s.i));
      SetLeafSets(disk, ib, k, b, s.k);
    }
  }

  lemma AttachLeafSlots(sb: Super, disk: Disk, dinodes: Inodes, owner: Owner, i: nat, k: nat, b: nat)
    requires SlotsOk(disk, dinodes, owner) && OwnersOk(sb, disk, dinodes, owner)
    requires HasIndirect(disk, dinodes, i, k) && Get(disk, dinodes, Leaf(i, k)) == 0
    requires 0 < sb.datastart <= b < |disk| && b !in owner && IsWord(b)
    ensures SlotsOk(SetLeaf(disk, Addr(dinodes, i, NDIRECT), k, b), dinodes, owner[b := Leaf(i, k)])
    ensures OwnersOk(sb, SetLeaf(disk, Addr(dinodes, i, NDIRECT), k, b), dinodes, owner[b := Leaf(i, k)])
  {
    var disk', owner' := SetLeaf(disk, Addr(dinodes, i, NDIRECT), k, b), owner[b := Leaf(i, k)];
    forall t ensures SlotOk(disk', dinodes, owner', t) {
      assert SlotOk(disk, dinodes, owner, t);
      if SlotIn(|dinodes|, t) { GetAfterSetLeaf(disk, dinodes, owner, i, k, b, t); }
    }
    forall c ensures OwnerOk(sb, disk', dinodes, owner', c) {
      assert OwnerOk(sb, disk, dinodes, owner, c);
      if c in owner' { GetAfterSetLeaf(disk, dinodes, owner, i, k, b, owner'[c]); }
    }
  }

  /** An empty word of an indirect block receives a zeroed block. */
  lemma AttachLeaf(sb: Super, disk: Disk, dinodes: Inodes, owner: Owner, limbo: set<nat>, i: nat, k: nat, b: nat)
    requires Owned(sb, disk, dinodes, owner, limbo) && HasIndirect(disk, dinodes, i, k)
             && Get(disk, dinodes, Leaf(i, k)) == 0
    requires b in limbo && IsWord(b)
    ensures Owned(sb, SetLeaf(disk, Addr(dinodes, i, NDIRECT), k, b), dinodes, owner[b := Leaf(i, k)], limbo - {b})
    ensures b < |disk| && b != Addr(dinodes, i, NDIRECT) && sb.datastart <= Addr(dinodes, i, NDIRECT)
  {
    var ib := Addr(dinodes, i, NDIRECT);
    assert SlotOk(disk, dinodes, owner, Indirect(i));
    DataOwners(sb, disk, dinodes, owner);
    LimboApart(sb, disk, owner, limbo);
    AttachLeafSlots(sb, disk, dinodes, owner, i, k, b);
    BitsMoved(sb, disk, owner, limbo, SetLeaf(disk, ib, k, b), owner[b := Leaf(i, k)], limbo - {b});
  }

  lemma AttachLeafKeepsChunks(disk: Disk, dinodes: Inodes, owner: Owner, i: nat, k: nat, b: nat,
                              chunks: map<(nat, nat), Block>)
    requires SlotsOk(disk, dinodes, owner) && HasIndirect(disk, dinodes, i, k) && Get(disk, dinodes, Leaf(i, k)) == 0
    requires IsWord(b) && 0 < b < |disk| && b != Addr(dinodes, i, NDIRECT) && disk[b] == ZeroBlock()
    requires IsChunks(disk, dinodes, chunks)
    ensures IsChunks(SetLeaf(disk, Addr(dinodes, i, NDIRECT), k, b), dinodes, chunks)
  {
    var disk' := SetLeaf(disk, Addr(dinodes, i, NDIRECT), k, b);
    assert SlotOk(disk, dinodes, owner, Indirect(i));
    forall j: nat, l: nat | j < |dinodes| && l < MAXBLOCKS ensures chunks[(j, l)] == Chunk(disk', dinodes, j, l) {
      assert chunks[(j, l)] == Chunk(disk, dinodes, j, l);
      assert SlotOk(disk, dinodes, owner, SlotOf(j, l));
      GetAfterSetLeaf(disk, dinodes, owner, i, k, b, SlotOf(j, l));
    }
  }

  /** A data block of a file changes. */
  lemma WriteKeepsOwned(sb: Super, disk: Disk, dinodes: Inodes, owner: Owner, limbo: set<nat>, i: nat, k: nat, x: Block)
    requires Owned(sb, disk, dinodes, owner, limbo) && i < |dinodes| && k < MAXBLOCKS
             && Get(disk, dinodes, SlotOf(i, k)) != 0
    ensures Get(disk, dinodes, SlotOf(i, k)) < |disk|
    ensures Owned(sb, disk[Get(disk, dinodes, SlotOf(i, k)) := x], dinodes, owner, limbo)
  {
    var b := Get(disk, dinodes, SlotOf(i, k));
    assert SlotOk(disk, dinodes, owner, SlotOf(i, k)) && OwnerOk(sb, disk, dinodes, owner, b);
    var disk' := disk[b := x];
    DataOwners(sb, disk, dinodes, owner);
    LimboApart(sb, disk, owner, limbo);
    BitsMoved(sb, disk, owner, limbo, disk', owner, limbo);
    forall t ensures SlotOk(disk', dinodes, owner, t) {
      assert SlotOk(disk, dinodes, owner, t);
      if t.Leaf? { assert SlotOk(disk, dinodes, owner, Indirect(t.i)); }
    }
    forall c ensures OwnerOk(sb, disk', dinodes, owner, c) {
      assert OwnerOk(sb, disk, dinodes, owner, c);
      if c in owner && owner[c].Leaf? { assert SlotOk(disk, dinodes, owner, Indirect(owner[c].i)); }
    }
  }

  lemma WriteChangesChunk(sb: Super, disk: Disk, dinodes: Inodes, owner: Owner, limbo: set<nat>, i: nat, k: nat,
                          x: Block,
                          chunks: map<(nat, nat), Block>)
    requires Owned(sb, disk, dinodes, owner, limbo) && i < |dinodes| && k < MAXBLOCKS
             && Get(disk, dinodes, SlotOf(i, k)) != 0
    requires Get(disk, dinodes, SlotOf(i, k)) < |disk| && IsChunks(disk, dinodes, chunks)
    ensures IsChunks(disk[Get(disk, dinodes, SlotOf(i, k)) := x], dinodes, chunks[(i, k) := x])
  {
    var b := Get(disk, dinodes, SlotOf(i, k));
    var disk' := disk[b := x];
    assert SlotOk(disk, dinodes, owner, SlotOf(i, k));
    forall j: nat, l: nat | j < |dinodes| && l < MAXBLOCKS
      ensures chunks[(i, k) := x][(j, l)] == Chunk(disk', dinodes, j, l) {
      assert chunks[(j, l)] == Chunk(disk, dinodes, j, l);
      assert SlotOk(disk, dinodes, owner, SlotOf(j, l)) && SlotOk(disk, dinodes, owner, Indirect(j));
    }
  }

  // ----- Releasing blocks

  /** A direct address lets go of its block. */
  lemma DetachDirect(sb: Super, disk: Disk, dinodes: Inodes, owner: Owner, limbo: set<nat>, i: nat, k: nat)
    requires Owned(sb, disk, dinodes, owner, limbo) && i < |dinodes| && k < NDIRECT && Addr(dinodes, i, k) != 0
    ensures |dinodes[i].addrs| == NDIRECT + 1
    ensures var b := Addr(dinodes, i, k);
            Owned(sb, disk, SetAddr(dinodes, i, k, 0), owner - {b}, limbo + {b})
  {
    var b := Addr(dinodes, i, k);
    var dinodes', owner' := SetAddr(dinodes, i, k, 0), owner - {b};
    assert InodeFits(dinodes[i]) && SlotOk(disk, dinodes, owner, Direct(i, k));
    DataOwners(sb, disk, dinodes, owner);
    LimboApart(sb, disk, owner, limbo);
    forall t ensures SlotOk(disk, dinodes', owner', t) {
      assert SlotOk(disk, dinodes, owner, t);
      assert t != Direct(i, k) ==> Get(disk, dinodes', t) == Get(disk, dinodes, t);
    }
    forall c ensures OwnerOk(sb, disk, dinodes', owner', c) { assert OwnerOk(sb, disk, dinodes, owner, c); }
    BitsMoved(sb, disk, owner, limbo, disk, owner', limbo + {b});
  }

  /** The blocks in words `k` and up of the indirect block `ib`. */
  function LeavesFrom(disk: Disk, ib: nat, k: nat): set<nat>
    requires ib < |disk|
    decreases NINDIRECT - k
  {
    if k >= NINDIRECT then {}
    else
      var b := WordAt(disk[ib].bytes, 4 * k);
      LeavesFrom(disk, ib, k + 1) + if b == 0 then {} else {b}
  }

  lemma {:induction false} LeavesHave(disk: Disk, ib: nat, k: nat, b: nat)
    requires ib < |disk|
    ensures b in LeavesFrom(disk, ib, k) <==>
              b != 0 && exists l :: k <= l < NINDIRECT && WordAt(disk[ib].bytes, 4 * l) == b
    decreases NINDIRECT - k
  {
    if k < NINDIRECT { LeavesHave(disk, ib, k + 1, b); }
  }

  /** The owners of the blocks that hang on the indirect address of inode `i`, and of the indirect block, let go of
    * them. */
  function WithoutIndirect(disk: Disk, owner: Owner, i: nat, ib: nat): Owner
    requires ib < |disk|
  {
    owner - (LeavesFrom(disk, ib, 0) + {ib})
  }

  lemma IndirectOwns(disk: Disk, dinodes: Inodes, owner: Owner, i: nat, c: nat)
    requires SlotsOk(disk, dinodes, owner) && HasIndirect(disk, dinodes, i, 0) && c in owner
             && SlotIn(|dinodes|, owner[c])
    requires Get(disk, dinodes, owner[c]) == c && c != 0
    ensures c in LeavesFrom(disk, Addr(dinodes, i, NDIRECT), 0) + {Addr(dinodes, i, NDIRECT)}
            <==> owner[c].i == i && !owner[c].Direct?
  {
    var ib := Addr(dinodes, i, NDIRECT);
    LeavesHave(disk, ib, 0, c);
    assert SlotOk(disk, dinodes, owner, Indirect(i));
    if c in LeavesFrom(disk, ib, 0) {
      var l :| 0 <= l < NINDIRECT && WordAt(disk[ib].bytes, 4 * l) == c;
      assert SlotOk(disk, dinodes, owner, Leaf(i, l));
    }
  }

  lemma GetAfterDetach(disk: Disk, dinodes: Inodes, i: nat, t: Slot)
    requires i < |dinodes| && |dinodes[i].addrs| == NDIRECT + 1 && SlotIn(|dinodes|, t)
    ensures Get(disk, SetAddr(dinodes, i, NDIRECT, 0), t) == if t.i == i && !t.Direct? then 0 else Get(disk, dinodes, t)
  {
  }

  lemma DetachIndirectSlots(sb: Super, disk: Disk, dinodes: Inodes, owner: Owner, i: nat)
    requires 0 < sb.datastart && SlotsOk(disk, dinodes, owner) && OwnersOk(sb, disk, dinodes, owner)
    requires HasIndirect(disk, dinodes, i, 0) && |dinodes[i].addrs| == NDIRECT + 1
    ensures var dinodes', owner' := SetAddr(dinodes, i, NDIRECT, 0),
            WithoutIndirect(disk, owner, i, Addr(dinodes, i, NDIRECT));
            SlotsOk(disk, dinodes', owner') && OwnersOk(sb, disk, dinodes', owner')
  {
    var ib := Addr(dinodes, i, NDIRECT);
    var dinodes', owner' := SetAddr(dinodes, i, NDIRECT, 0), WithoutIndirect(disk, owner, i, ib);
    forall c | c in owner ensures c in owner' <==> owner[c].i != i || owner[c].Direct? {
      assert OwnerOk(sb, disk, dinodes, owner, c);
      IndirectOwns(disk, dinodes, owner, i, c);
    }
    forall t ensures SlotOk(disk, dinodes', owner', t) {
      assert SlotOk(disk, dinodes, owner, t);
      if SlotIn(|dinodes|, t) { GetAfterDetach(disk, dinodes, i, t); }
    }
    forall c ensures OwnerOk(sb, disk, dinodes', owner', c) {
      assert OwnerOk(sb, disk, dinodes, owner, c);
      if c in owner' { GetAfterDetach(disk, dinodes, i, owner'[c]); }
    }
  }

  /** The indirect address lets go of the indirect block and of all blocks in it. */
  lemma DetachIndirect(sb: Super, disk: Disk, dinodes: Inodes, owner: Owner, limbo: set<nat>, i: nat)
    requires Owned(sb, disk, dinodes, owner, limbo) && HasIndirect(disk, dinodes, i, 0)
    ensures |dinodes[i].addrs| == NDIRECT + 1
    ensures var ib := Addr(dinodes, i, NDIRECT);
            Owned(sb, disk, SetAddr(dinodes, i, NDIRECT, 0), WithoutIndirect(disk, owner, i, ib),
                  limbo + (LeavesFrom(disk, ib, 0) + {ib}))
  {
    var ib := Addr(dinodes, i, NDIRECT);
    assert InodeFits(dinodes[i]);
    DetachIndirectSlots(sb, disk, dinodes, owner, i);
    DataOwners(sb, disk, dinodes, owner);
    LimboApart(sb, disk, owner, limbo);
    GoneWereOwned(disk, dinodes, owner, i);
    BitsMoved(sb, disk, owner, limbo, disk, WithoutIndirect(disk, owner, i, ib),
              limbo + (LeavesFrom(disk, ib, 0) + {ib}));
  }

  lemma GoneWereOwned(disk: Disk, dinodes: Inodes, owner: Owner, i: nat)
    requires SlotsOk(disk, dinodes, owner) && HasIndirect(disk, dinodes, i, 0)
    ensures LeavesFrom(disk, Addr(dinodes, i, NDIRECT), 0) + {Addr(dinodes, i, NDIRECT)} <= owner.Keys
  {
    var ib := Addr(dinodes, i, NDIRECT);
    assert SlotOk(disk, dinodes, owner, Indirect(i));
    assert ib in owner;
    forall c | c in LeavesFrom(disk, ib, 0) ensures c in owner { LeafWasOwned(disk, dinodes, owner, i, c); }
  }

  lemma LeafWasOwned(disk: Disk, dinodes: Inodes, owner: Owner, i: nat, c: nat)
    requires SlotsOk(disk, dinodes, owner) && HasIndirect(disk, dinodes, i, 0)
    requires c in LeavesFrom(disk, Addr(dinodes, i, NDIRECT), 0)
    ensures c in owner
  {
    var ib := Addr(dinodes, i, NDIRECT);
    LeavesHave(disk, ib, 0, c);
    var l :| 0 <= l < NINDIRECT && WordAt(disk[ib].bytes, 4 * l) == c;
    assert SlotOk(disk, dinodes, owner, Leaf(i, l)) && Get(disk, dinodes, Leaf(i, l)) == c;
  }

  /** Each block hangs on one word only, and none of them is the indirect block. */
  lemma LeafOnce(disk: Disk, dinodes: Inodes, owner: Owner, i: nat, k: nat)
    requires SlotsOk(disk, dinodes, owner) && HasIndirect(disk, dinodes, i, k) && Get(disk, dinodes, Leaf(i, k)) != 0
    ensures Get(disk, dinodes, Leaf(i, k)) !in LeavesFrom(disk, Addr(dinodes, i, NDIRECT), k + 1)
    ensures Get(disk, dinodes, Leaf(i, k)) != Addr(dinodes, i, NDIRECT)
  {
    var ib, b := Addr(dinodes, i, NDIRECT), Get(disk, dinodes, Leaf(i, k));
    LeavesHave(disk, ib, k + 1, b);
    assert SlotOk(disk, dinodes, owner, Leaf(i, k)) && SlotOk(disk, dinodes, owner, Indirect(i));
    forall l | k + 1 <= l < NINDIRECT ensures WordAt(disk[ib].bytes, 4 * l) != b {
      assert SlotOk(disk, dinodes, owner, Leaf(i, l));
    }
  }
}
