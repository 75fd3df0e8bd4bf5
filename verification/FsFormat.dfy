/** An empty file system: all inodes free, and only the metadata marked in the bitmap. */
module FsFormat {
  import opened Bits
  import opened Words
  import opened LogSpec
  import opened FsSpec
  import opened FsOwner
  import opened FsFile
  import opened FsInode

  /** All blocks zero, and the first `n` marked as taken. */
  function Formatted(sb: Super, n: nat): (d: Disk)
    requires SuperOk(sb) && n <= sb.datastart
    ensures |d| == sb.size
  {
    if n == 0 then seq(sb.size, _ => ZeroBlock())
    else
      BitmapInMeta(sb, n - 1);
      Mark(sb, Formatted(sb, n - 1), n - 1, true)
  }

  lemma ZeroBit(k: nat)
    requires k < BPB
    ensures !GetAt(ZeroBlock().bytes, k)
  {
  }

  lemma {:induction false} FormattedBits(sb: Super, n: nat, b: nat)
    requires SuperOk(sb) && n <= sb.datastart && b < sb.size
    ensures Bit(sb, Formatted(sb, n), b) <==> b < n
  {
    BitmapInMeta(sb, b);
    if n == 0 {
      ZeroBit(b % BPB);
    } else {
      BitmapInMeta(sb, n - 1);
      FormattedBits(sb, n - 1, b);
      MarkSets(sb, Formatted(sb, n - 1), n - 1, true, b);
    }
  }

  lemma {:induction false} FormattedRest(sb: Super, n: nat, c: nat)
    requires SuperOk(sb) && n <= sb.datastart && c < sb.size && (c < sb.bmapstart || c >= sb.datastart)
    ensures Formatted(sb, n)[c] == ZeroBlock()
  {
    if n > 0 {
      BitmapInMeta(sb, n - 1);
      FormattedRest(sb, n - 1, c);
    }
  }

  lemma ZeroHalf(off: nat)
    requires off + 2 <= BSIZE
    ensures HalfAt(ZeroBlock().bytes, off) == 0
  {
  }

  lemma ZeroInode(off: nat)
    requires off + INODE_BYTES <= BSIZE
    ensures InodeAt(ZeroBlock().bytes, off) == FreshInode(0)
  {
    ZeroHalf(off);
    ZeroHalf(off + 2);
    ZeroHalf(off + 4);
    ZeroHalf(off + 6);
    ZeroWord(off + 8);
    forall k | 0 <= k < NDIRECT + 1 ensures WordAt(ZeroBlock().bytes, off + 12 + 4 * k) == 0 {
      ZeroWord(off + 12 + 4 * k);
    }
    assert WordsAt(ZeroBlock().bytes, off + 12, NDIRECT + 1) == FreshInode(0).addrs;
  }

  function NoInodes(n: nat): Inodes {
    seq(n, _ => FreshInode(0))
  }

  ghost function NoChunks(n: nat): Chunks {
    map i: nat, k: nat | i < n && k < MAXBLOCKS :: (i, k) := ZeroBlock()
  }

  lemma NoSlots(disk: Disk, n: nat, s: Slot)
    ensures Get(disk, NoInodes(n), s) == 0
  {
  }

  /** An empty file system meets the invariant. */
  lemma FormatOk(sb: Super)
    requires SuperOk(sb)
    ensures var d, dinodes := Formatted(sb, sb.datastart), NoInodes(sb.ninodes);
            && FsInv(sb, d, dinodes, map[], {}, NoChunks(sb.ninodes), {}) && FilesOk(d, dinodes) && EmptyOk(dinodes)
  {
    var d, dinodes := Formatted(sb, sb.datastart), NoInodes(sb.ninodes);
    forall s ensures SlotOk(d, dinodes, map[], s) { NoSlots(d, sb.ninodes, s); }
    forall b ensures OwnerOk(sb, d, dinodes, map[], b) {}
    forall b: nat ensures BitOk(sb, d, map[], {}, b) { if b < |d| { FormattedBits(sb, sb.datastart, b); } }
    forall j: nat ensures SyncedAt(sb, d, dinodes, j) {
      if j < sb.ninodes {
        InodeBlockInMeta(sb, j);
        FormattedRest(sb, sb.datastart, InodeBlock(sb, j));
        ZeroInode(InodeOff(j));
      }
    }
    forall i: nat, k: nat | i < |dinodes| && k < MAXBLOCKS
      ensures NoChunks(sb.ninodes)[(i, k)] == Chunk(d, dinodes, i, k)
    {
      NoSlots(d, sb.ninodes, SlotOf(i, k));
    }
  }
}
