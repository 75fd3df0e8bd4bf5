/** `truncate`: the blocks of one inode go back to the bitmap, one at a time. */
module FsTruncate {
  import opened Words
  import opened LogSpec
  import opened FsSpec
  import opened FsOwner
  import opened FsFile
  import opened FsInode

  datatype Store = Store(disk: Disk, dinodes: Inodes, owner: Owner)

  /** The bitmap may change, no other block. */
  ghost predicate BitmapOnly(sb: Super, disk: Disk, disk': Disk) {
    |disk'| == |disk| && forall c :: 0 <= c < |disk| && (c < sb.bmapstart || sb.datastart <= c) ==> disk'[c] == disk[c]
  }

  /** Inode `i` keeps all but its addresses, the other inodes and their blocks keep everything. */
  ghost predicate OnlyFrom(was: Store, now: Store, i: nat)
    requires i < |was.dinodes|
  {
    && OnlyAddrs(was.dinodes, now.dinodes, i)
    && (forall b :: b in now.owner ==> b in was.owner && now.owner[b] == was.owner[b])
    && forall b :: b in was.owner && was.owner[b].i != i ==> b in now.owner
  }

  /** Part of the blocks of inode `i` are released; those in `limbo` are still marked. */
  ghost predicate Shrinking(sb: Super, was: Store, now: Store, limbo: set<nat>, i: nat) {
    && i < |was.dinodes| && Owned(sb, now.disk, now.dinodes, now.owner, limbo)
    && BitmapOnly(sb, was.disk, now.disk) && OnlyFrom(was, now, i)
  }

  lemma ShrinkStarts(sb: Super, was: Store, i: nat)
    requires i < |was.dinodes| && Owned(sb, was.disk, was.dinodes, was.owner, {})
    ensures Shrinking(sb, was, was, {}, i)
  {
    assert was.dinodes[i := was.dinodes[i]] == was.dinodes;
  }

  lemma MarkIsBitmapOnly(sb: Super, disk: Disk, b: nat, v: bool)
    requires SuperOk(sb) && |disk| == sb.size && b < sb.size
    ensures BitmapBlock(sb, b) < |disk| && BitmapOnly(sb, disk, Mark(sb, disk, b, v))
  {
    BitmapInMeta(sb, b);
  }

  /** A block on its way out is marked, so freeing it does not panic. */
  lemma FreeOne(sb: Super, was: Store, now: Store, limbo: set<nat>, i: nat, b: nat)
    requires Shrinking(sb, was, now, limbo, i) && b in limbo
    ensures b < sb.size && BitmapBlock(sb, b) < |now.disk| && Bit(sb, now.disk, b)
    ensures Shrinking(sb, was, now.(disk := Mark(sb, now.disk, b, false)), limbo - {b}, i)
  {
    FreeKeepsOwned(sb, now.disk, now.dinodes, now.owner, limbo, b);
    MarkIsBitmapOnly(sb, now.disk, b, false);
  }

  lemma DropDirect(sb: Super, was: Store, now: Store, i: nat, k: nat)
    requires Shrinking(sb, was, now, {}, i) && k < NDIRECT && Addr(now.dinodes, i, k) != 0
    ensures i < |now.dinodes| && k < |now.dinodes[i].addrs|
    ensures var b := Addr(now.dinodes, i, k);
            Shrinking(sb, was, Store(now.disk, SetAddr(now.dinodes, i, k, 0), now.owner - {b}), {b}, i)
  {
    var b := Addr(now.dinodes, i, k);
    DetachDirect(sb, now.disk, now.dinodes, now.owner, {}, i, k);
    assert SlotOk(now.disk, now.dinodes, now.owner, Direct(i, k));
    assert {} + {b} == {b};
  }

  lemma DropIndirect(sb: Super, was: Store, now: Store, i: nat)
    requires Shrinking(sb, was, now, {}, i) && Addr(now.dinodes, i, NDIRECT) != 0
    ensures i < |now.dinodes| && NDIRECT < |now.dinodes[i].addrs| && HasIndirect(now.disk, now.dinodes, i, 0)
    ensures var ib := Addr(now.dinodes, i, NDIRECT);
            Shrinking(sb, was,
                      Store(now.disk, SetAddr(now.dinodes, i, NDIRECT, 0), WithoutIndirect(now.disk, now.owner, i, ib)),
                      LeavesFrom(now.disk, ib, 0) + {ib}, i)
  {
    var ib := Addr(now.dinodes, i, NDIRECT);
    SlotInRange(sb, now.disk, now.dinodes, now.owner, {}, Indirect(i));
    DetachIndirect(sb, now.disk, now.dinodes, now.owner, {}, i);
    assert {} + (LeavesFrom(now.disk, ib, 0) + {ib}) == LeavesFrom(now.disk, ib, 0) + {ib};
    forall c | c in now.owner && now.owner[c].i != i ensures c in WithoutIndirect(now.disk, now.owner, i, ib) {
      assert OwnerOk(sb, now.disk, now.dinodes, now.owner, c);
      IndirectOwns(now.disk, now.dinodes, now.owner, i, c);
    }
  }

  /** The words of the indirect block, each a block of its own. */
  lemma NextLeaf(sb: Super, disk: Disk, dinodes: Inodes, owner: Owner, i: nat, k: nat)
    requires Owned(sb, disk, dinodes, owner, {}) && HasIndirect(disk, dinodes, i, k)
    ensures var ib := Addr(dinodes, i, NDIRECT);
            var b := WordAt(disk[ib].bytes, 4 * k);
            && (b == 0 ==> LeavesFrom(disk, ib, k) == LeavesFrom(disk, ib, k + 1))
            && (b != 0 ==>
                  (LeavesFrom(disk, ib, k) + {ib}) - {b} == LeavesFrom(disk, ib, k + 1) + {ib}
                      && b in LeavesFrom(disk, ib, k))
  {
    if Get(disk, dinodes, Leaf(i, k)) != 0 { LeafOnce(disk, dinodes, owner, i, k); }
  }

  function NoAddrs(): seq<nat> {
    seq(NDIRECT + 1, _ => 0)
  }

  function WithoutInode(owner: Owner, i: nat): Owner {
    map b | b in owner && owner[b].i != i :: owner[b]
  }

  function Blanked(chunks: Chunks, i: nat): Chunks {
    map p | p in chunks :: if p.0 == i then ZeroBlock() else chunks[p]
  }

  /** All addresses are empty: nothing of the inode is left, and nothing else has changed. */
  lemma ShrinkEnds(sb: Super, was: Store, now: Store, i: nat, chunks: Chunks)
    requires Owned(sb, was.disk, was.dinodes, was.owner, {}) && Shrinking(sb, was, now, {}, i)
             && IsChunks(was.disk, was.dinodes, chunks) && now.dinodes[i].addrs == NoAddrs()
    ensures now.owner == WithoutInode(was.owner, i) && IsChunks(now.disk, now.dinodes, Blanked(chunks, i))
    ensures forall s :: SlotIn(|now.dinodes|, s) ==>
              Get(now.disk, now.dinodes, s) == if s.i == i then 0 else Get(was.disk, was.dinodes, s)
  {
    forall s | SlotIn(|now.dinodes|, s)
      ensures Get(now.disk, now.dinodes, s) == if s.i == i then 0 else Get(was.disk, was.dinodes, s)
    {
      if s.i != i { OtherSlotKept(sb, was, now, {}, i, s); }
    }
    forall b | b in now.owner ensures now.owner[b].i != i { assert OwnerOk(sb, now.disk, now.dinodes, now.owner, b); }
    forall j: nat, k: nat | j < |now.dinodes| && k < MAXBLOCKS
      ensures Blanked(chunks, i)[(j, k)] == Chunk(now.disk, now.dinodes, j, k)
    {
      assert chunks[(j, k)] == Chunk(was.disk, was.dinodes, j, k);
      assert SlotOk(was.disk, was.dinodes, was.owner, SlotOf(j, k));
      assert OwnerOk(sb, was.disk, was.dinodes, was.owner, Get(was.disk, was.dinodes, SlotOf(j, k)));
    }
  }

  lemma OtherSlotKept(sb: Super, was: Store, now: Store, limbo: set<nat>, i: nat, s: Slot)
    requires Owned(sb, was.disk, was.dinodes, was.owner, {}) && Shrinking(sb, was, now, limbo, i)
             && SlotIn(|now.dinodes|, s) && s.i != i
    ensures Get(now.disk, now.dinodes, s) == Get(was.disk, was.dinodes, s)
  {
    assert now.dinodes[s.i] == was.dinodes[s.i];
    assert SlotOk(was.disk, was.dinodes, was.owner, Indirect(s.i));
    var ib := Addr(was.dinodes, s.i, NDIRECT);
    assert OwnerOk(sb, was.disk, was.dinodes, was.owner, ib);
  }

  /** Exactly the blocks of the inode have lost their mark. */
  lemma FreedExactly(sb: Super, was: Store, now: Store, i: nat, b: nat)
    requires Owned(sb, was.disk, was.dinodes, was.owner, {}) && Shrinking(sb, was, now, {}, i)
             && now.owner == WithoutInode(was.owner, i) && b < sb.size
    ensures Bit(sb, now.disk, b) <==> Bit(sb, was.disk, b) && !(b in was.owner && was.owner[b].i == i)
  {
    assert BitOk(sb, was.disk, was.owner, {}, b) && BitOk(sb, now.disk, now.owner, {}, b);
    assert OwnerOk(sb, was.disk, was.dinodes, was.owner, b);
  }

  /** Exactly the blocks of inode `i` have lost their mark. */
  ghost predicate FreedOnly(sb: Super, was: Store, disk: Disk, i: nat) {
    forall b :: 0 <= b < sb.size ==>
      (Bit(sb, disk, b) <==> Bit(sb, was.disk, b) && !(b in was.owner && was.owner[b].i == i))
  }

  lemma SyncMore(sb: Super, disk: Disk, dinodes: Inodes, dirty: set<nat>, more: set<nat>)
    requires Synced(sb, disk, dinodes, dirty) && dirty <= more
    ensures Synced(sb, disk, dinodes, more)
  {
    forall j: nat | j !in more ensures SyncedAt(sb, disk, dinodes, j) { assert SyncedAt(sb, disk, dinodes, j); }
  }

  lemma SyncAfterFree(sb: Super, disk: Disk, dinodes: Inodes, i: nat, k: nat, b: nat)
    requires SuperOk(sb) && |disk| == sb.size && b < sb.size && BitmapBlock(sb, b) < |disk| && |dinodes| == sb.ninodes
    requires Synced(sb, disk, dinodes, {i}) && i < |dinodes| && k < |dinodes[i].addrs|
    ensures Synced(sb, Mark(sb, disk, b, false), SetAddr(dinodes, i, k, 0), {i})
  {
    MarkIsBitmapOnly(sb, disk, b, false);
    SyncKept(sb, disk, dinodes, {i}, Mark(sb, disk, b, false));
    SyncDirty(sb, Mark(sb, disk, b, false), dinodes, {i}, i, SetAddr(dinodes, i, k, 0));
    assert {i} + {i} == {i};
  }

  lemma LeafBlockInRange(sb: Super, now: Store, i: nat)
    requires Owned(sb, now.disk, now.dinodes, now.owner, {}) && HasIndirect(now.disk, now.dinodes, i, 0)
    ensures sb.datastart <= Addr(now.dinodes, i, NDIRECT) < |now.disk|
  {
    SlotInRange(sb, now.disk, now.dinodes, now.owner, {}, Indirect(i));
  }

  /** `was` without the blocks and the size of inode `i`. */
  function Emptied(dinodes: Inodes, i: nat): Inodes
    requires i < |dinodes|
  {
    dinodes[i := dinodes[i].(addrs := NoAddrs(), size := 0)]
  }

  lemma NoAddrsLeft(was: Inodes, dinodes: Inodes, i: nat)
    requires i < |was| && OnlyAddrs(was, dinodes, i) && |dinodes[i].addrs| == NDIRECT + 1
    requires forall k :: 0 <= k <= NDIRECT ==> dinodes[i].addrs[k] == 0
    ensures dinodes[i].addrs == NoAddrs() && dinodes[i := dinodes[i].(size := 0)] == Emptied(was, i)
  {
  }

  /** The file is empty, the others are as they were. */
  lemma FilesAfterTruncate(dinodes: Inodes, chunks: Chunks, i: nat)
    requires i < |dinodes|
    ensures forall j: nat ::
              FileOf(Emptied(dinodes, i), Blanked(chunks, i), j) == if j == i then [] else FileOf(dinodes, chunks, j)
  {
    forall j: nat
      ensures FileOf(Emptied(dinodes, i), Blanked(chunks, i), j) == if j == i then [] else FileOf(dinodes, chunks, j) {
      if j != i && j < |dinodes| && dinodes[j].size <= MAX_FILE_SIZE && HasFile(chunks, j) {
        SameFile(chunks, Blanked(chunks, i), j, dinodes[j].size);
      }
    }
  }

  /** The emptied inode before it is written to disk. */
  lemma NothingLeft(sb: Super, was: Store, now: Store, i: nat, chunks: Chunks)
    requires Owned(sb, was.disk, was.dinodes, was.owner, {}) && Shrinking(sb, was, now, {}, i)
             && IsChunks(was.disk, was.dinodes, chunks) && FilesOk(was.disk, was.dinodes)
    requires now.dinodes[i].addrs == NoAddrs()
             && now.dinodes[i := now.dinodes[i].(size := 0)] == Emptied(was.dinodes, i)
    requires Synced(sb, now.disk, now.dinodes, {i})
    ensures FsInv(sb, now.disk, Emptied(was.dinodes, i), WithoutInode(was.owner, i), {}, Blanked(chunks, i), {i})
    ensures now.owner == WithoutInode(was.owner, i) && FilesOk(now.disk, Emptied(was.dinodes, i))
            && FreedOnly(sb, was, now.disk, i)
    ensures forall s :: SlotIn(|was.dinodes|, s) && s.i == i ==> Get(now.disk, Emptied(was.dinodes, i), s) == 0
  {
    var dinodes' := Emptied(was.dinodes, i);
    ShrinkEnds(sb, was, now, i, chunks);
    assert InodeFits(now.dinodes[i]);
    SameAddrs(sb, now.disk, now.dinodes, now.owner, {}, Blanked(chunks, i), i, dinodes');
    SyncDirty(sb, now.disk, now.dinodes, {i}, i, dinodes');
    assert {i} + {i} == {i};
    forall b | 0 <= b < sb.size ensures Bit(sb, now.disk, b) <==>
      Bit(sb, was.disk, b) && !(b in was.owner && was.owner[b].i == i) {
      FreedExactly(sb, was, now, i, b);
    }
    EmptiedFilesOk(was, now, i);
  }

  lemma EmptiedFilesOk(was: Store, now: Store, i: nat)
    requires i < |was.dinodes| == |now.dinodes| && FilesOk(was.disk, was.dinodes)
    requires SameSlots(now.disk, now.dinodes, now.disk, Emptied(was.dinodes, i))
    requires forall s :: SlotIn(|now.dinodes|, s) ==>
               Get(now.disk, now.dinodes, s) == if s.i == i then 0 else Get(was.disk, was.dinodes, s)
    ensures FilesOk(now.disk, Emptied(was.dinodes, i))
  {
    var dinodes' := Emptied(was.dinodes, i);
    forall j | 0 <= j < |dinodes'| ensures FileOk(now.disk, dinodes', j) {
      assert FileOk(was.disk, was.dinodes, j);
      forall l: nat | l * BSIZE < dinodes'[j].size ensures Get(now.disk, dinodes', SlotOf(j, l)) != 0 {
        assert SlotIn(|now.dinodes|, SlotOf(j, l)) && Get(was.disk, was.dinodes, SlotOf(j, l)) != 0;
      }
    }
  }

  /** Writing the inode to disk changes neither slots nor bitmap. */
  lemma WrittenBack(sb: Super, was: Store, disk: Disk, dinodes: Inodes, owner: Owner, i: nat)
    requires Owned(sb, disk, dinodes, owner, {}) && i < |dinodes| && InodeBlock(sb, i) < |disk| && InodeFits(dinodes[i])
    requires FilesOk(disk, dinodes) && FreedOnly(sb, was, disk, i)
    ensures var disk' := WriteInode(sb, disk, i, dinodes[i]);
            FilesOk(disk', dinodes) && FreedOnly(sb, was, disk', i) && SameSlots(disk, dinodes, disk', dinodes)
  {
    var disk' := WriteInode(sb, disk, i, dinodes[i]);
    InodeKeepsSlots(sb, disk, dinodes, owner, {}, i, disk');
    FilesKept(disk, dinodes, disk');
    InodeBlockInMeta(sb, i);
    forall b | 0 <= b < sb.size ensures Bit(sb, disk', b) <==> Bit(sb, disk, b) { BitmapInMeta(sb, b); }
  }

  /** Inode `i` has no addresses left; its size and the inode on disk are still to be brought up to date. */
  ghost predicate Drained(sb: Super, was: Store, now: Store, i: nat, chunks: Chunks) {
    && Owned(sb, was.disk, was.dinodes, was.owner, {}) && Shrinking(sb, was, now, {}, i)
    && IsChunks(was.disk, was.dinodes, chunks) && FilesOk(was.disk, was.dinodes)
    && now.dinodes[i].addrs == NoAddrs() && now.dinodes[i := now.dinodes[i].(size := 0)] == Emptied(was.dinodes, i)
    && Synced(sb, now.disk, now.dinodes, {i})
  }

  /** The effect of `truncate` on what is on disk. */
  ghost predicate Truncated(sb: Super, was: Store, disk: Disk, i: nat)
    requires i < |was.dinodes|
  {
    && FilesOk(disk, Emptied(was.dinodes, i)) && FreedOnly(sb, was, disk, i)
    && forall s :: SlotIn(|was.dinodes|, s) && s.i == i ==> Get(disk, Emptied(was.dinodes, i), s) == 0
  }

  lemma TruncateEnds(sb: Super, was: Store, now: Store, limbo: set<nat>, i: nat, chunks: Chunks)
    requires Drained(sb, was, now, i, chunks) && limbo == {}
    ensures var di := now.dinodes[i].(size := 0);
            && InodeBlock(sb, i) < |now.disk| && InodeFits(di) && now.owner == WithoutInode(was.owner, i)
            && FsInv(sb, now.disk, now.dinodes[i := di], now.owner, limbo, Blanked(chunks, i), {i})
            && Truncated(sb, was, WriteInode(sb, now.disk, i, di), i)
  {
    NothingLeft(sb, was, now, i, chunks);
    InodeBlockInMeta(sb, i);
    WrittenBack(sb, was, now.disk, Emptied(was.dinodes, i), WithoutInode(was.owner, i), i);
  }

  /** The words of the indirect block from the k-th on are still to be freed. */
  ghost predicate LeavesLeft(sb: Super, was: Store, now: Store, gone: Store, disk: Disk, i: nat, k: nat) {
    && Owned(sb, now.disk, now.dinodes, now.owner, {}) && HasIndirect(now.disk, now.dinodes, i, 0)
    && var ib := Addr(now.dinodes, i, NDIRECT);
       |disk| == |now.disk| && disk[ib] == now.disk[ib]
       && Shrinking(sb, was, gone.(disk := disk), LeavesFrom(now.disk, ib, k) + {ib}, i)
  }

  lemma LeavesStart(sb: Super, was: Store, now: Store, gone: Store, i: nat)
    requires Owned(sb, now.disk, now.dinodes, now.owner, {}) && HasIndirect(now.disk, now.dinodes, i, 0)
    requires gone.disk == now.disk
             && Shrinking(sb, was, gone,
                          LeavesFrom(now.disk, Addr(now.dinodes, i, NDIRECT), 0) + {Addr(now.dinodes, i, NDIRECT)}, i)
    ensures LeavesLeft(sb, was, now, gone, now.disk, i, 0)
  {
    assert gone.(disk := now.disk) == gone;
  }

  lemma LeavesEnd(sb: Super, was: Store, now: Store, gone: Store, disk: Disk, i: nat)
    requires LeavesLeft(sb, was, now, gone, disk, i, NINDIRECT)
    ensures Shrinking(sb, was, gone.(disk := disk), {Addr(now.dinodes, i, NDIRECT)}, i)
  {
    var ib := Addr(now.dinodes, i, NDIRECT);
    assert LeavesFrom(now.disk, ib, NINDIRECT) + {ib} == {ib};
  }

  lemma NextLeafLeft(sb: Super, was: Store, now: Store, gone: Store, disk: Disk, i: nat, k: nat)
    requires LeavesLeft(sb, was, now, gone, disk, i, k) && k < NINDIRECT
    ensures var ib := Addr(now.dinodes, i, NDIRECT);
            var b := WordAt(disk[ib].bytes, 4 * k);
            if b == 0 then LeavesLeft(sb, was, now, gone, disk, i, k + 1)
            else && b < sb.size && BitmapBlock(sb, b) < |disk| && Bit(sb, disk, b)
                 && BitmapOnly(sb, disk, Mark(sb, disk, b, false))
                 && LeavesLeft(sb, was, now, gone, Mark(sb, disk, b, false), i, k + 1)
  {
    var ib := Addr(now.dinodes, i, NDIRECT);
    var b := WordAt(disk[ib].bytes, 4 * k);
    NextLeaf(sb, now.disk, now.dinodes, now.owner, i, k);
    LeafBlockInRange(sb, now, i);
    if b != 0 {
      FreeOne(sb, was, gone.(disk := disk), LeavesFrom(now.disk, ib, k) + {ib}, i, b);
      MarkIsBitmapOnly(sb, disk, b, false);
    }
  }
}
