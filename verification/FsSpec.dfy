/** The file system on its blocks: inodes, indirect blocks, the bitmap, and who owns each block.
  * A file is its size and its blocks 0, 1, 2, ...; a block that is not allocated reads as zeros. */
module FsSpec {
  import opened Bits
  import opened Words
  import opened LogSpec

  const NDIRECT := 12
  const NINDIRECT := BSIZE / 4
  const MAXBLOCKS := NDIRECT + NINDIRECT
  const MAX_FILE_SIZE := MAXBLOCKS * BSIZE
  const BPB := BSIZE * 8
  const INODE_BYTES := 64
  const IPB := BSIZE / INODE_BYTES

  function ZeroBlock(): Block {
    Data(seq(BSIZE, _ => 0))
  }

  // ----- Layout

  /** Inodes and bitmap lie below `datastart`; the blocks from there on are handed out. */
  datatype Super = Super(size: nat, ninodes: nat, inodestart: nat, bmapstart: nat, datastart: nat)

  ghost predicate SuperOk(sb: Super) {
    && 0 < sb.datastart <= sb.size <= 0x1_0000_0000 && 0 < sb.ninodes
    && sb.inodestart + (sb.ninodes - 1) / IPB < sb.bmapstart
    && sb.bmapstart + (sb.size - 1) / BPB < sb.datastart
  }

  function BitmapBlock(sb: Super, b: nat): nat {
    b / BPB + sb.bmapstart
  }

  function InodeBlock(sb: Super, i: nat): nat {
    i / IPB + sb.inodestart
  }

  // ----- The bitmap

  /** Is block `b` marked as taken? */
  predicate Bit(sb: Super, disk: Disk, b: nat) {
    BitmapBlock(sb, b) < |disk| && GetAt(disk[BitmapBlock(sb, b)].bytes, b % BPB)
  }

  function Mark(sb: Super, disk: Disk, b: nat, v: bool): (r: Disk)
    requires BitmapBlock(sb, b) < |disk|
    ensures |r| == |disk|
  {
    disk[BitmapBlock(sb, b) := Data(SetAt(disk[BitmapBlock(sb, b)].bytes, b % BPB, v))]
  }

  lemma MarkSets(sb: Super, disk: Disk, b: nat, v: bool, c: nat)
    requires BitmapBlock(sb, b) < |disk| && BitmapBlock(sb, c) < |disk|
    ensures Bit(sb, Mark(sb, disk, b, v), c) == if c == b then v else Bit(sb, disk, c)
  {
    if c / BPB == b / BPB {
      var bytes := disk[BitmapBlock(sb, b)].bytes;
      assert GetAt(SetAt(bytes, b % BPB, v), c % BPB) == if c % BPB == b % BPB then v else GetAt(bytes, c % BPB);
    }
  }

  // ----- Inodes

  datatype DiskInode = DiskInode(itype: nat, major: nat, minor: nat, nlink: nat, size: nat, addrs: seq<nat>)

  ghost predicate InodeFits(di: DiskInode) {
    && di.itype < 0x1_0000 && di.major < 0x1_0000 && di.minor < 0x1_0000 && di.nlink < 0x1_0000 && IsWord(di.size)
    && |di.addrs| == NDIRECT + 1 && forall k :: 0 <= k <= NDIRECT ==> IsWord(di.addrs[k])
  }

  function InodeAt(bytes: seq<u8>, off: nat): DiskInode
    requires off + INODE_BYTES <= |bytes|
  {
    DiskInode(HalfAt(bytes, off), HalfAt(bytes, off + 2), HalfAt(bytes, off + 4), HalfAt(bytes, off + 6),
              WordAt(bytes, off + 8), WordsAt(bytes, off + 12, NDIRECT + 1))
  }

  /** The fields before the addresses. */
  function PutHead(bytes: seq<u8>, off: nat, di: DiskInode): (r: seq<u8>)
    requires off + INODE_BYTES <= |bytes| && InodeFits(di)
    ensures |r| == |bytes|
    ensures forall j :: 0 <= j < |bytes| && !(off <= j < off + 12) ==> r[j] == bytes[j]
  {
    var b1 := PutHalf(PutHalf(bytes, off, di.itype), off + 2, di.major);
    var b2 := PutHalf(PutHalf(b1, off + 4, di.minor), off + 6, di.nlink);
    PutWord(b2, off + 8, di.size)
  }

  function PutInode(bytes: seq<u8>, off: nat, di: DiskInode): (r: seq<u8>)
    requires off + INODE_BYTES <= |bytes| && InodeFits(di)
    ensures |r| == |bytes|
    ensures forall j :: 0 <= j < |bytes| && !(off <= j < off + INODE_BYTES) ==> r[j] == bytes[j]
  {
    PutWords(PutHead(bytes, off, di), off + 12, di.addrs)
  }

  lemma SameHalf(b: seq<u8>, c: seq<u8>, off: nat)
    requires off + 2 <= |b| == |c| && b[off] == c[off] && b[off + 1] == c[off + 1]
    ensures HalfAt(b, off) == HalfAt(c, off)
  {
  }

  lemma HeadRoundTrip(bytes: seq<u8>, off: nat, di: DiskInode, r: seq<u8>)
    requires off + INODE_BYTES <= |bytes| == |r| && InodeFits(di)
    requires forall j :: off <= j < off + 12 ==> r[j] == PutHead(bytes, off, di)[j]
    ensures HalfAt(r, off) == di.itype && HalfAt(r, off + 2) == di.major && HalfAt(r, off + 4) == di.minor
    ensures HalfAt(r, off + 6) == di.nlink && WordAt(r, off + 8) == di.size
  {
    var c0 := PutHalf(bytes, off, di.itype);
    var c1 := PutHalf(c0, off + 2, di.major);
    var c2 := PutHalf(c1, off + 4, di.minor);
    var c3 := PutHalf(c2, off + 6, di.nlink);
    SameHalf(c0, r, off);
    SameHalf(c1, r, off + 2);
    SameHalf(c2, r, off + 4);
    SameHalf(c3, r, off + 6);
    SameWord(PutWord(c3, off + 8, di.size), r, off + 8);
  }

  /** What is written can be read back. */
  lemma InodeRoundTrip(bytes: seq<u8>, off: nat, di: DiskInode)
    requires off + INODE_BYTES <= |bytes| && InodeFits(di)
    ensures InodeAt(PutInode(bytes, off, di), off) == di
  {
    HeadRoundTrip(bytes, off, di, PutInode(bytes, off, di));
    AllWordsRoundTrip(PutHead(bytes, off, di), off + 12, di.addrs);
  }

  /** An inode depends on its own bytes only. */
  lemma OtherInode(b: seq<u8>, c: seq<u8>, off: nat)
    requires off + INODE_BYTES <= |b| == |c| && forall j :: off <= j < off + INODE_BYTES ==> b[j] == c[j]
    ensures InodeAt(b, off) == InodeAt(c, off)
  {
    SameHalf(b, c, off);
    SameHalf(b, c, off + 2);
    SameHalf(b, c, off + 4);
    SameHalf(b, c, off + 6);
    SameWord(b, c, off + 8);
    SameWords(b, c, off + 12, NDIRECT + 1);
  }
}
