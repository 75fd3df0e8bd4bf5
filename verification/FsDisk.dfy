/** Files as they are on disk: what can be read after a restart, when no inode is cached. */
module FsDisk {
  import opened Words
  import opened LogSpec
  import opened FsSpec
  import opened FsOwner
  import opened FsFile
  import opened FsInode

  function DiskInodeAt(sb: Super, disk: Disk, j: nat): DiskInode {
    if InodeBlock(sb, j) < |disk| then InodeAt(disk[InodeBlock(sb, j)].bytes, InodeOff(j)) else FreshInode(0)
  }

  /** The inodes that the disk holds. */
  function DiskInodes(sb: Super, disk: Disk): (r: Inodes)
    ensures |r| == sb.ninodes
  {
    seq(sb.ninodes, j requires 0 <= j < sb.ninodes => DiskInodeAt(sb, disk, j))
  }

  ghost function FileIn(disk: Disk, dinodes: Inodes, i: nat): seq<u8>
    requires i < |dinodes|
  {
    seq(dinodes[i].size, o requires 0 <= o < dinodes[i].size => Chunk(disk, dinodes, i, o / BSIZE).bytes[o % BSIZE])
  }

  /** The bytes of file `i` on disk. */
  ghost function DiskFile(sb: Super, disk: Disk, i: nat): seq<u8>
    requires i < sb.ninodes
  {
    FileIn(disk, DiskInodes(sb, disk), i)
  }

  /** The contents of all files. */
  type Files = seq<seq<u8>>

  ghost predicate HoldsFile(sb: Super, disk: Disk, files: Files, i: nat) {
    i < sb.ninodes && i < |files| ==> DiskFile(sb, disk, i) == files[i]
  }

  ghost predicate HoldsFiles(sb: Super, disk: Disk, files: Files) {
    |files| == sb.ninodes && forall i: nat {:trigger HoldsFile(sb, disk, files, i)} :: HoldsFile(sb, disk, files, i)
  }

  /** Between operations the disk has what is cached. */
  lemma DiskIsCached(sb: Super, disk: Disk, dinodes: Inodes, chunks: Chunks)
    requires |dinodes| == sb.ninodes && IsChunks(disk, dinodes, chunks) && Synced(sb, disk, dinodes, {})
    requires FilesOk(disk, dinodes)
    ensures DiskInodes(sb, disk) == dinodes
    ensures forall i: nat {:trigger DiskFile(sb, disk, i)} :: i < sb.ninodes ==>
              DiskFile(sb, disk, i) == FileOf(dinodes, chunks, i)
  {
    forall j | 0 <= j < sb.ninodes ensures DiskInodes(sb, disk)[j] == dinodes[j] {
      assert SyncedAt(sb, disk, dinodes, j);
    }
    assert DiskInodes(sb, disk) == dinodes;
    forall i: nat | i < sb.ninodes ensures DiskFile(sb, disk, i) == FileOf(dinodes, chunks, i) {
      assert FileOk(disk, dinodes, i);
      FilesThere(disk, dinodes, chunks, i);
      BytesOnDisk(disk, dinodes, chunks, i);
    }
  }

  lemma BytesOnDisk(disk: Disk, dinodes: Inodes, chunks: Chunks, i: nat)
    requires IsChunks(disk, dinodes, chunks) && i < |dinodes| && dinodes[i].size <= MAX_FILE_SIZE && HasFile(chunks, i)
    ensures forall o: nat :: o < dinodes[i].size ==>
              FileBytes(chunks, i, dinodes[i].size)[o] == Chunk(disk, dinodes, i, o / BSIZE).bytes[o % BSIZE]
  {
    var f := FileBytes(chunks, i, dinodes[i].size);
    forall o: nat | o < dinodes[i].size ensures f[o] == Chunk(disk, dinodes, i, o / BSIZE).bytes[o % BSIZE] {
      assert f[o] == ByteAt(chunks, i, o);
      assert chunks[(i, o / BSIZE)] == Chunk(disk, dinodes, i, o / BSIZE);
    }
  }

  // ----- Nothing of a file lies in the log

  ghost predicate SlotApart(sb: Super, disk: Disk, s: Slot) {
    var b := Get(disk, DiskInodes(sb, disk), s);
    SlotIn(sb.ninodes, s) && b != 0 ==> sb.datastart <= b
  }

  /** All blocks of files lie among the data blocks. */
  ghost predicate DataApart(sb: Super, disk: Disk) {
    forall s {:trigger SlotApart(sb, disk, s)} :: SlotApart(sb, disk, s)
  }

  lemma OwnedIsApart(sb: Super, disk: Disk, dinodes: Inodes, owner: Owner)
    requires Owned(sb, disk, dinodes, owner, {}) && DiskInodes(sb, disk) == dinodes
    ensures DataApart(sb, disk)
  {
    forall s ensures SlotApart(sb, disk, s) {
      if SlotIn(|dinodes|, s) && Get(disk, dinodes, s) != 0 { SlotInRange(sb, disk, dinodes, owner, {}, s); }
    }
  }

  /** The log lies before the inodes. */
  ghost predicate LogBefore(a: Area, sb: Super) {
    a.start + a.size <= sb.inodestart
  }

  // ----- What a file depends on

  /** The disks agree on the blocks of `mine`. */
  ghost predicate SameOn(d: Disk, e: Disk, mine: set<nat>) {
    |e| == |d| && forall b :: b in mine && b < |d| ==> e[b] == d[b]
  }

  ghost predicate SlotWithin(sb: Super, d: Disk, s: Slot, mine: set<nat>) {
    var b := Get(d, DiskInodes(sb, d), s);
    SlotIn(sb.ninodes, s) && 0 < b < |d| ==> b in mine
  }

  /** The blocks that hold file `i` are among `mine`: that of its inode, the indirect block and the data blocks. */
  ghost predicate Within(sb: Super, d: Disk, i: nat, mine: set<nat>) {
    && (InodeBlock(sb, i) < |d| ==> InodeBlock(sb, i) in mine)
    && forall s: Slot {:trigger SlotWithin(sb, d, s, mine)} :: s.i == i ==> SlotWithin(sb, d, s, mine)
  }

  lemma SameInode(sb: Super, d: Disk, e: Disk, j: nat)
    requires |e| == |d| && (InodeBlock(sb, j) < |d| ==> e[InodeBlock(sb, j)] == d[InodeBlock(sb, j)])
    ensures DiskInodeAt(sb, e, j) == DiskInodeAt(sb, d, j)
  {
  }

  lemma SameSlot(d: Disk, e: Disk, m: Inodes, n: Inodes, s: Slot)
    requires s.i < |m| == |n| && n[s.i] == m[s.i] && |e| == |d|
    requires var b := Addr(m, s.i, NDIRECT); s.Leaf? && 0 < b < |d| ==> e[b] == d[b]
    ensures Get(e, n, s) == Get(d, m, s)
  {
  }

  lemma SameOnSameChunk(sb: Super, d: Disk, e: Disk, i: nat, k: nat, mine: set<nat>)
    requires SameOn(d, e, mine) && Within(sb, d, i, mine) && i < sb.ninodes
    ensures Chunk(e, DiskInodes(sb, e), i, k) == Chunk(d, DiskInodes(sb, d), i, k)
  {
    SameInode(sb, d, e, i);
    assert SlotWithin(sb, d, Indirect(i), mine) && SlotWithin(sb, d, SlotOf(i, k), mine);
    SameSlot(d, e, DiskInodes(sb, d), DiskInodes(sb, e), SlotOf(i, k));
    var b := Get(d, DiskInodes(sb, d), SlotOf(i, k));
    assert b != 0 ==> SlotIn(sb.ninodes, SlotOf(i, k));
  }

  /** A file is what the blocks hold that it lies in. */
  lemma SameOnSameFile(sb: Super, d: Disk, e: Disk, i: nat, mine: set<nat>)
    requires SameOn(d, e, mine) && Within(sb, d, i, mine) && i < sb.ninodes
    ensures DiskFile(sb, e, i) == DiskFile(sb, d, i)
  {
    SameInode(sb, d, e, i);
    var f, g := DiskFile(sb, d, i), DiskFile(sb, e, i);
    forall o: nat | o < |f| ensures g[o] == f[o] { SameOnSameChunk(sb, d, e, i, o / BSIZE, mine); }
  }

  predicate FromInodes(sb: Super, b: nat) {
    sb.inodestart <= b
  }

  /** All blocks from the inodes on. */
  ghost function NotLog(sb: Super, n: nat): set<nat> {
    set b: nat | b < n && FromInodes(sb, b)
  }

  lemma WithinNotLog(sb: Super, d: Disk, i: nat)
    requires SuperOk(sb) && DataApart(sb, d)
    ensures Within(sb, d, i, NotLog(sb, |d|))
  {
    InodeBlockInMeta(sb, 0);
    forall s ensures SlotWithin(sb, d, s, NotLog(sb, |d|)) { assert SlotApart(sb, d, s); }
  }

  /** Two disks that differ in the log only hold the same files. */
  lemma SameHomeSameFile(a: Area, sb: Super, d: Disk, e: Disk, i: nat)
    requires SuperOk(sb) && LogBefore(a, sb) && SameHome(a, d, e) && DataApart(sb, d) && i < sb.ninodes
    ensures DiskFile(sb, e, i) == DiskFile(sb, d, i)
  {
    WithinNotLog(sb, d, i);
    SameOnSameFile(sb, d, e, i, NotLog(sb, |d|));
  }

  lemma SameHomeSameFiles(a: Area, sb: Super, d: Disk, e: Disk, files: Files)
    requires SuperOk(sb) && LogBefore(a, sb) && SameHome(a, d, e) && DataApart(sb, d) && HoldsFiles(sb, d, files)
    ensures HoldsFiles(sb, e, files)
  {
    forall i: nat ensures HoldsFile(sb, e, files, i) {
      assert HoldsFile(sb, d, files, i);
      if i < sb.ninodes { SameHomeSameFile(a, sb, d, e, i); }
    }
  }
}
