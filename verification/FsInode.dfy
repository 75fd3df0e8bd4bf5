/** Cached inodes and their disk: what an operation of the file system keeps, as facts about values. */
module FsInode {
  import opened Bits
  import opened Words
  import opened LogSpec
  import opened FsSpec
  import opened FsOwner
  import opened FsFile

  /** The inodes on disk are the cached ones, but for those being changed. */
  ghost predicate SyncedAt(sb: Super, disk: Disk, dinodes: Inodes, j: nat)
  {
    j < |dinodes| ==> InodeBlock(sb, j) < |disk| && InodeAt(disk[InodeBlock(sb, j)].bytes, InodeOff(j)) == dinodes[j]
  }

  function InodeOff(j: nat): (r: nat)
    ensures r + INODE_BYTES <= BSIZE
  {
    j % IPB * INODE_BYTES
  }

  ghost predicate Synced(sb: Super, disk: Disk, dinodes: Inodes, dirty: set<nat>)
  {
    forall j: nat {:trigger SyncedAt(sb, disk, dinodes, j)} :: j !in dirty ==> SyncedAt(sb, disk, dinodes, j)
  }

  lemma DivInode(j: nat, n: nat)
    requires j < n
    ensures j / IPB <= (n - 1) / IPB
  {
  }

  lemma InodeBlockInMeta(sb: Super, j: nat)
    requires SuperOk(sb) && j < sb.ninodes
    ensures InodeBlock(sb, j) < sb.bmapstart < sb.datastart
  {
    DivInode(j, sb.ninodes);
  }

  /** The blocks that hold inodes do not change. */
  lemma SyncKept(sb: Super, disk: Disk, dinodes: Inodes, dirty: set<nat>, disk': Disk)
    requires SuperOk(sb) && |disk| == |disk'| == sb.size && |dinodes| == sb.ninodes && Synced(sb, disk, dinodes, dirty)
    requires forall c :: 0 <= c < sb.bmapstart ==> disk'[c] == disk[c]
    ensures Synced(sb, disk', dinodes, dirty)
  {
    forall j: nat | j !in dirty ensures SyncedAt(sb, disk', dinodes, j) {
      assert SyncedAt(sb, disk, dinodes, j);
      if j < sb.ninodes { InodeBlockInMeta(sb, j); }
    }
  }

  /** Only the inode `i` differs, and it is being changed. */
  lemma SyncDirty(sb: Super, disk: Disk, dinodes: Inodes, dirty: set<nat>, i: nat, dinodes': Inodes)
    requires Synced(sb, disk, dinodes, dirty) && i < |dinodes| == |dinodes'| && dinodes' == dinodes[i := dinodes'[i]]
    ensures Synced(sb, disk, dinodes', dirty + {i})
  {
    forall j: nat | j !in dirty + {i} ensures SyncedAt(sb, disk, dinodes', j) { assert SyncedAt(sb, disk, dinodes, j); }
  }

  /** `update`: the block with inode `i` rewritten. */
  function WriteInode(sb: Super, disk: Disk, i: nat, di: DiskInode): (r: Disk)
    requires InodeBlock(sb, i) < |disk| && InodeFits(di)
    ensures |r| == |disk|
  {
    disk[InodeBlock(sb, i) := Data(PutInode(disk[InodeBlock(sb, i)].bytes, InodeOff(i), di))]
  }

  lemma UpdateSyncs(sb: Super, disk: Disk, dinodes: Inodes, dirty: set<nat>, i: nat)
    requires SuperOk(sb) && |disk| == sb.size && |dinodes| == sb.ninodes && i < sb.ninodes && InodeFits(dinodes[i])
    requires Synced(sb, disk, dinodes, dirty + {i})
    ensures InodeBlock(sb, i) < sb.bmapstart
    ensures Synced(sb, WriteInode(sb, disk, i, dinodes[i]), dinodes, dirty - {i})
  {
    InodeBlockInMeta(sb, i);
    var disk' := WriteInode(sb, disk, i, dinodes[i]);
    var b := disk[InodeBlock(sb, i)].bytes;
    forall j: nat | j !in dirty - {i} ensures SyncedAt(sb, disk', dinodes, j) {
      if j == i { InodeRoundTrip(b, InodeOff(i), dinodes[i]); }
      if j != i && j < sb.ninodes {
        assert SyncedAt(sb, disk, dinodes, j);
        InodeBlockInMeta(sb, j);
        if j / IPB == i / IPB {
          OtherPlaces(i, j);
          OtherInode(disk'[InodeBlock(sb, i)].bytes, b, InodeOff(j));
        }
      }
    }
  }

  lemma OtherPlaces(i: nat, j: nat)
    requires i / IPB == j / IPB && i != j
    ensures InodeOff(j) + INODE_BYTES <= InodeOff(i) || InodeOff(i) + INODE_BYTES <= InodeOff(j)
  {
  }

  ghost predicate FsInv(sb: Super, disk: Disk, dinodes: Inodes, owner: Owner, limbo: set<nat>, chunks: Chunks,
                        dirty: set<nat>) {
    Owned(sb, disk, dinodes, owner, limbo) && IsChunks(disk, dinodes, chunks) && Synced(sb, disk, dinodes, dirty)
  }

  /** Blocks are handed to the log and stay there, and no other block changes. */
  ghost predicate Covered(d0: Disk, d1: Disk, l0: set<nat>, l1: set<nat>) {
    l0 <= l1 && |d1| == |d0| && forall b {:trigger d1[b]} :: 0 <= b < |d0| && b !in l1 ==> d1[b] == d0[b]
  }

  lemma CoveredTwice(d0: Disk, d1: Disk, d2: Disk, l0: set<nat>, l1: set<nat>, l2: set<nat>)
    requires Covered(d0, d1, l0, l1) && Covered(d1, d2, l1, l2)
    ensures Covered(d0, d2, l0, l2)
  {
  }

  // ----- The search for a free block

  ghost predicate TakenBelow(sb: Super, disk: Disk, n: nat) {
    forall c :: 0 <= c < n ==> Bit(sb, disk, c)
  }

  lemma OneMoreTaken(sb: Super, disk: Disk, n: nat)
    requires TakenBelow(sb, disk, n) && Bit(sb, disk, n)
    ensures TakenBelow(sb, disk, n + 1)
  {
  }

  lemma Multiple(n: nat)
    ensures n * BPB % BPB == 0
  {
  }

  lemma SplitBit(base: nat, offset: nat)
    requires base % BPB == 0 && offset < BPB
    ensures (base + offset) / BPB == base / BPB && (base + offset) % BPB == offset
  {
  }

  lemma BitInBlock(sb: Super, disk: Disk, base: nat, offset: nat)
    requires SuperOk(sb) && |disk| == sb.size && base % BPB == 0 && offset < BPB && base + offset < sb.size
    ensures BitmapBlock(sb, base) < |disk|
    ensures Bit(sb, disk, base + offset) <==> GetAt(disk[BitmapBlock(sb, base)].bytes, offset)
  {
    BitmapInMeta(sb, base);
    SplitBit(base, offset);
  }

  // ----- What slots hold after a change

  ghost predicate OnlyAddrs(dinodes: Inodes, dinodes': Inodes, i: nat)
    requires i < |dinodes|
  {
    |dinodes'| == |dinodes| && dinodes' == dinodes[i := dinodes[i].(addrs := dinodes'[i].addrs)]
  }

  /** All inodes but `i` are as they were. */
  ghost predicate OthersSame(dinodes: Inodes, dinodes': Inodes, i: nat) {
    i < |dinodes| == |dinodes'| && dinodes' == dinodes[i := dinodes'[i]]
  }

  /** A slot that has a block keeps it. */
  ghost predicate MappedKept(disk: Disk, dinodes: Inodes, disk': Disk, dinodes': Inodes) {
    forall s {:trigger Get(disk', dinodes', s)} ::
      SlotIn(|dinodes|, s) && Get(disk, dinodes, s) != 0 ==> Get(disk', dinodes', s) == Get(disk, dinodes, s)
  }

  lemma MappedTwice(d0: Disk, n0: Inodes, d1: Disk, n1: Inodes, d2: Disk, n2: Inodes)
    requires MappedKept(d0, n0, d1, n1) && MappedKept(d1, n1, d2, n2) && |n1| == |n0|
    ensures MappedKept(d0, n0, d2, n2)
  {
    forall s | SlotIn(|n0|, s) && Get(d0, n0, s) != 0 ensures Get(d2, n2, s) == Get(d0, n0, s) {
      assert Get(d1, n1, s) == Get(d0, n0, s);
    }
  }

  /** All slots but `t` hold what they held. */
  ghost predicate OthersKept(disk: Disk, disk': Disk, dinodes: Inodes, t: Slot) {
    forall s :: SlotIn(|dinodes|, s) && s != t ==> Get(disk', dinodes, s) == Get(disk, dinodes, s)
  }

  ghost predicate SameSlots(disk: Disk, dinodes: Inodes, disk': Disk, dinodes': Inodes) {
    forall s {:trigger Get(disk', dinodes', s)} :: SlotIn(|dinodes|, s) ==>
      Get(disk', dinodes', s) == Get(disk, dinodes, s)
  }

  lemma SlotInRange(sb: Super, disk: Disk, dinodes: Inodes, owner: Owner, limbo: set<nat>, s: Slot)
    requires Owned(sb, disk, dinodes, owner, limbo) && SlotIn(|dinodes|, s) && Get(disk, dinodes, s) != 0
    ensures sb.datastart <= Get(disk, dinodes, s) < |disk|
  {
    assert SlotOk(disk, dinodes, owner, s) && OwnerOk(sb, disk, dinodes, owner, Get(disk, dinodes, s));
  }

  lemma AttachAddrOk(sb: Super, disk0: Disk, disk: Disk, dinodes: Inodes, owner: Owner, limbo: set<nat>,
                     chunks: Chunks, dirty: set<nat>, i: nat, k: nat, b: nat)
    requires FsInv(sb, disk, dinodes, owner, limbo, chunks, dirty) && i < |dinodes| && k <= NDIRECT
             && Addr(dinodes, i, k) == 0
    requires 0 < b < |disk| && limbo == {b} && disk[b] == ZeroBlock() && SlotsOk(disk0, dinodes, owner)
             && SameOwned(disk0, disk, owner)
    ensures |dinodes[i].addrs| == NDIRECT + 1
    ensures MappedKept(disk0, dinodes, disk, SetAddr(dinodes, i, k, b))
    ensures FsInv(sb, disk, SetAddr(dinodes, i, k, b), owner[b := if k < NDIRECT then Direct(i, k) else Indirect(i)],
                  {}, chunks, dirty + {i})
  {
    AttachAddr(sb, disk, dinodes, owner, limbo, i, k, b);
    AttachAddrKeepsChunks(sb, disk, dinodes, i, k, b, chunks);
    SyncDirty(sb, disk, dinodes, dirty, i, SetAddr(dinodes, i, k, b));
    assert limbo - {b} == {};
    forall s | SlotIn(|dinodes|, s) && Get(disk0, dinodes, s) != 0
      ensures Get(disk, SetAddr(dinodes, i, k, b), s) == Get(disk0, dinodes, s)
    {
      GetKept(disk0, dinodes, owner, disk, s);
    }
  }

  lemma AttachLeafOk(sb: Super, disk0: Disk, disk: Disk, dinodes: Inodes, owner: Owner, limbo: set<nat>,
                     chunks: Chunks, dirty: set<nat>,
                     i: nat, k: nat, b: nat)
    requires FsInv(sb, disk, dinodes, owner, limbo, chunks, dirty) && SlotsOk(disk0, dinodes, owner)
             && SameOwned(disk0, disk, owner)
    requires HasIndirect(disk0, dinodes, i, k) && Get(disk0, dinodes, Leaf(i, k)) == 0
    requires 0 < b < |disk| && limbo == {b} && disk[b] == ZeroBlock()
    ensures IsWord(b)
    ensures var disk' := SetLeaf(disk, Addr(dinodes, i, NDIRECT), k, b);
            && FsInv(sb, disk', dinodes, owner[b := Leaf(i, k)], {}, chunks, dirty)
            && Get(disk', dinodes, Leaf(i, k)) == b && OthersKept(disk0, disk', dinodes, Leaf(i, k))
  {
    var ib := Addr(dinodes, i, NDIRECT);
    GetKept(disk0, dinodes, owner, disk, Leaf(i, k));
    AttachLeaf(sb, disk, dinodes, owner, limbo, i, k, b);
    AttachLeafKeepsChunks(disk, dinodes, owner, i, k, b, chunks);
    SyncKept(sb, disk, dinodes, dirty, SetLeaf(disk, ib, k, b));
    assert limbo - {b} == {};
    forall s | SlotIn(|dinodes|, s)
      ensures Get(SetLeaf(disk, ib, k, b), dinodes, s) == if s == Leaf(i, k) then b else Get(disk0, dinodes, s)
    {
      GetKept(disk0, dinodes, owner, disk, s);
      GetAfterSetLeaf(disk, dinodes, owner, i, k, b, s);
    }
  }

  /** A data block changes. */
  lemma PutOk(sb: Super, disk: Disk, dinodes: Inodes, owner: Owner, limbo: set<nat>, chunks: Chunks, dirty: set<nat>,
              i: nat, k: nat, x: Block)
    requires FsInv(sb, disk, dinodes, owner, limbo, chunks, dirty) && i < |dinodes| && k < MAXBLOCKS
             && Get(disk, dinodes, SlotOf(i, k)) != 0
    ensures Get(disk, dinodes, SlotOf(i, k)) < |disk|
    ensures chunks[(i, k)] == disk[Get(disk, dinodes, SlotOf(i, k))] && HasFile(chunks, i)
    ensures var disk' := disk[Get(disk, dinodes, SlotOf(i, k)) := x];
            && FsInv(sb, disk', dinodes, owner, limbo, chunks[(i, k) := x], dirty)
            && MappedKept(disk, dinodes, disk', dinodes) && Get(disk', dinodes, SlotOf(i, k)) != 0
  {
    var b := Get(disk, dinodes, SlotOf(i, k));
    SlotInRange(sb, disk, dinodes, owner, limbo, SlotOf(i, k));
    assert chunks[(i, k)] == Chunk(disk, dinodes, i, k);
    WriteKeepsOwned(sb, disk, dinodes, owner, limbo, i, k, x);
    WriteChangesChunk(sb, disk, dinodes, owner, limbo, i, k, x, chunks);
    SyncKept(sb, disk, dinodes, dirty, disk[b := x]);
    forall s | SlotIn(|dinodes|, s) ensures Get(disk[b := x], dinodes, s) == Get(disk, dinodes, s) {
      assert SlotOk(disk, dinodes, owner, SlotOf(i, k));
      if s.Leaf? { assert SlotOk(disk, dinodes, owner, Indirect(s.i)); }
    }
  }

  lemma UpdateOk(sb: Super, disk: Disk, dinodes: Inodes, owner: Owner, limbo: set<nat>, chunks: Chunks,
                 dirty: set<nat>, i: nat)
    requires Owned(sb, disk, dinodes, owner, limbo) && IsChunks(disk, dinodes, chunks)
             && Synced(sb, disk, dinodes, dirty)
    requires i < sb.ninodes && InodeBlock(sb, i) < |disk| && InodeFits(dinodes[i])
    ensures var disk' := WriteInode(sb, disk, i, dinodes[i]);
            Owned(sb, disk', dinodes, owner, limbo) && IsChunks(disk', dinodes, chunks)
                && Synced(sb, disk', dinodes, dirty - {i})
  {
    UpdateSyncs(sb, disk, dinodes, dirty, i);
    var x := WriteInode(sb, disk, i, dinodes[i])[InodeBlock(sb, i)];
    forall c | 0 <= c < sb.size ensures BitmapBlock(sb, c) != InodeBlock(sb, i) { BitmapInMeta(sb, c); }
    MetaKeepsOwned(sb, disk, dinodes, owner, limbo, InodeBlock(sb, i), x);
    ChunksKept(disk, dinodes, owner, disk[InodeBlock(sb, i) := x], chunks);
  }

  // ----- Sizes

  ghost predicate FileOk(disk: Disk, dinodes: Inodes, j: nat)
    requires j < |dinodes|
  {
    && dinodes[j].size <= MAX_FILE_SIZE
    && forall l: nat {:trigger SlotOf(j, l)} :: l * BSIZE < dinodes[j].size ==> Get(disk, dinodes, SlotOf(j, l)) != 0
  }

  /** No file has a hole, and none is too long. */
  ghost predicate FilesOk(disk: Disk, dinodes: Inodes) {
    forall j {:trigger FileOk(disk, dinodes, j)} :: 0 <= j < |dinodes| ==> FileOk(disk, dinodes, j)
  }

  /** The file reaches at least to `end`; but for this and its addresses no inode has changed. */
  ghost predicate Grew(dinodes: Inodes, dinodes': Inodes, i: nat, end: nat)
    requires i < |dinodes|
  {
    && |dinodes'| == |dinodes| && dinodes'[i].size == (if end > dinodes[i].size then end else dinodes[i].size)
    && dinodes' == dinodes[i := dinodes[i].(addrs := dinodes'[i].addrs, size := dinodes'[i].size)]
  }

  function WithSize(dinodes: Inodes, i: nat, size: nat): Inodes
    requires i < |dinodes|
  {
    if size > dinodes[i].size then dinodes[i := dinodes[i].(size := size)] else dinodes
  }

  /** A change of an inode that leaves its addresses alone changes no slot and no block of a file. */
  lemma SameAddrs(sb: Super, disk: Disk, dinodes: Inodes, owner: Owner, limbo: set<nat>, chunks: Chunks, i: nat,
                  dinodes': Inodes)
    requires Owned(sb, disk, dinodes, owner, limbo) && IsChunks(disk, dinodes, chunks) && i < |dinodes| == |dinodes'|
    requires dinodes' == dinodes[i := dinodes'[i]] && dinodes'[i].addrs == dinodes[i].addrs && InodeFits(dinodes'[i])
    ensures Owned(sb, disk, dinodes', owner, limbo) && IsChunks(disk, dinodes', chunks)
            && SameSlots(disk, dinodes, disk, dinodes')
  {
    forall s ensures Get(disk, dinodes', s) == Get(disk, dinodes, s) {}
    forall s ensures SlotOk(disk, dinodes', owner, s) { assert SlotOk(disk, dinodes, owner, s); }
    forall b ensures OwnerOk(sb, disk, dinodes', owner, b) { assert OwnerOk(sb, disk, dinodes, owner, b); }
    forall j: nat, k: nat | j < |dinodes'| && k < MAXBLOCKS ensures chunks[(j, k)] == Chunk(disk, dinodes', j, k) {
      assert chunks[(j, k)] == Chunk(disk, dinodes, j, k);
    }
  }

  lemma WithSizeOk(sb: Super, disk: Disk, dinodes: Inodes, owner: Owner, limbo: set<nat>, chunks: Chunks,
                   dirty: set<nat>, i: nat, size: nat)
    requires FsInv(sb, disk, dinodes, owner, limbo, chunks, dirty) && i < |dinodes| && IsWord(size)
    ensures var dinodes' := WithSize(dinodes, i, size);
            && FsInv(sb, disk, dinodes', owner, limbo, chunks, if dinodes' == dinodes then dirty else dirty + {i})
            && SameSlots(disk, dinodes, disk, dinodes')
            && (size > dinodes[i].size <==> dinodes' != dinodes)
  {
    var dinodes' := WithSize(dinodes, i, size);
    if size > dinodes[i].size {
      assert dinodes'[i] != dinodes[i];
      SameAddrs(sb, disk, dinodes, owner, limbo, chunks, i, dinodes');
      SyncDirty(sb, disk, dinodes, dirty, i, dinodes');
    }
  }

  lemma FilesKept(disk: Disk, dinodes: Inodes, disk': Disk)
    requires FilesOk(disk, dinodes) && SameSlots(disk, dinodes, disk', dinodes)
    ensures FilesOk(disk', dinodes)
  {
    forall j | 0 <= j < |dinodes| ensures FileOk(disk', dinodes, j) {
      assert FileOk(disk, dinodes, j);
      forall l: nat | l * BSIZE < dinodes[j].size ensures Get(disk', dinodes, SlotOf(j, l)) != 0 {
        assert Get(disk, dinodes, SlotOf(j, l)) != 0 && SlotIn(|dinodes|, SlotOf(j, l));
      }
    }
  }

  lemma InodeKeepsSlots(sb: Super, disk: Disk, dinodes: Inodes, owner: Owner, limbo: set<nat>, i: nat, disk': Disk)
    requires Owned(sb, disk, dinodes, owner, limbo) && i < |dinodes| && InodeBlock(sb, i) < |disk|
             && InodeFits(dinodes[i])
    requires disk' == WriteInode(sb, disk, i, dinodes[i])
    ensures SameSlots(disk, dinodes, disk', dinodes)
  {
    InodeBlockInMeta(sb, i);
    forall c | c in owner ensures c != InodeBlock(sb, i) { assert OwnerOk(sb, disk, dinodes, owner, c); }
    forall s | SlotIn(|dinodes|, s) ensures Get(disk', dinodes, s) == Get(disk, dinodes, s) {
      GetKept(disk, dinodes, owner, disk', s);
    }
  }

  // ----- Files

  /** The bytes of file `i`. */
  ghost function FileOf(dinodes: Inodes, chunks: Chunks, i: nat): seq<u8> {
    if i < |dinodes| && dinodes[i].size <= MAX_FILE_SIZE
        && HasFile(chunks, i) then FileBytes(chunks, i, dinodes[i].size) else []
  }

  /** A write puts its bytes into one file and leaves the others as they were. */
  lemma FilesAfterWrite(disk: Disk, dinodes: Inodes, chunks: Chunks, dinodes': Inodes, chunks': Chunks, i: nat,
                        offset: nat, s: seq<u8>)
    requires i < |dinodes| && FilesOk(disk, dinodes) && Grew(dinodes, dinodes', i, offset + |s|)
             && offset <= dinodes[i].size
    requires Spliced(chunks, chunks', i, offset, s)
    ensures |FileOf(dinodes, chunks, i)| == dinodes[i].size
    ensures FileOf(dinodes', chunks', i) == Splice(FileOf(dinodes, chunks, i), offset, s)
    ensures forall j: nat :: j != i ==> FileOf(dinodes', chunks', j) == FileOf(dinodes, chunks, j)
  {
    assert FileOk(disk, dinodes, i);
    SplicedFile(chunks, chunks', i, offset, s, dinodes[i].size);
    forall j: nat | j != i ensures FileOf(dinodes', chunks', j) == FileOf(dinodes, chunks, j) {
      if j < |dinodes| && dinodes[j].size <= MAX_FILE_SIZE && HasFile(chunks, j) {
        SameFile(chunks, chunks', j, dinodes[j].size);
      }
    }
  }

  lemma SameFile(chunks: Chunks, chunks': Chunks, j: nat, size: nat)
    requires size <= MAX_FILE_SIZE && HasFile(chunks, j) && chunks'.Keys == chunks.Keys
    requires forall p :: p in chunks && p.0 == j ==> chunks'[p] == chunks[p]
    ensures HasFile(chunks', j) && FileBytes(chunks', j, size) == FileBytes(chunks, j, size)
  {
    var f, g := FileBytes(chunks, j, size), FileBytes(chunks', j, size);
    forall o | 0 <= o < size ensures g[o] == f[o] {
      assert g[o] == ByteAt(chunks', j, o) && f[o] == ByteAt(chunks, j, o);
      assert (j, o / BSIZE) in chunks;
    }
  }

  /** Every file has its blocks. */
  lemma FilesThere(disk: Disk, dinodes: Inodes, chunks: Chunks, i: nat)
    requires IsChunks(disk, dinodes, chunks) && i < |dinodes|
    ensures HasFile(chunks, i)
  {
  }

  /** An inode that is not in use has no blocks. */
  ghost predicate EmptyOk(dinodes: Inodes) {
    forall j :: 0 <= j < |dinodes| && dinodes[j].itype == 0 ==> Unused(dinodes[j])
  }

  ghost predicate Unused(di: DiskInode) {
    di.size == 0 && |di.addrs| == NDIRECT + 1 && forall k :: 0 <= k <= NDIRECT ==> di.addrs[k] == 0
  }

  function FreshInode(itype: nat): DiskInode {
    DiskInode(itype, 0, 0, 0, 0, seq(NDIRECT + 1, _ => 0))
  }

  /** An inode changes in everything but its blocks. */
  lemma RetypeOk(sb: Super, disk: Disk, dinodes: Inodes, owner: Owner, limbo: set<nat>, chunks: Chunks,
                 dirty: set<nat>, i: nat, di: DiskInode)
    requires FsInv(sb, disk, dinodes, owner, limbo, chunks, dirty) && i < |dinodes| && FilesOk(disk, dinodes)
    requires InodeFits(di) && di.addrs == dinodes[i].addrs && di.size == dinodes[i].size
    ensures FsInv(sb, disk, dinodes[i := di], owner, limbo, chunks, dirty + {i}) && FilesOk(disk, dinodes[i := di])
    ensures forall j: nat :: FileOf(dinodes[i := di], chunks, j) == FileOf(dinodes, chunks, j)
  {
    var dinodes' := dinodes[i := di];
    SameAddrs(sb, disk, dinodes, owner, limbo, chunks, i, dinodes');
    SyncDirty(sb, disk, dinodes, dirty, i, dinodes');
    forall j | 0 <= j < |dinodes'| ensures FileOk(disk, dinodes', j) {
      assert FileOk(disk, dinodes, j);
      forall l: nat | l * BSIZE < dinodes'[j].size ensures Get(disk, dinodes', SlotOf(j, l)) != 0 {
        assert Get(disk, dinodes', SlotOf(j, l)) == Get(disk, dinodes, SlotOf(j, l));
      }
    }
  }
}
