/** `kernel/src/fs/block.rs` and `kernel/src/fs/inode.rs`: the bitmap and the inodes, inside one operation.
  * The disk here is what the buffer cache shows; `logged` collects the blocks handed to the log. */
module Fs {
  import opened Bits
  import opened Words
  import opened LogSpec
  import opened FsSpec
  import opened FsOwner
  import opened FsFile
  import opened FsFormat
  import opened FsInode
  import opened FsWrite
  import opened FsTruncate

  class FileSystem {
    const sb: Super
    var disk: Disk
    var dinodes: Inodes
    ghost var owner: Owner
    /** Blocks taken from the bitmap and not yet entered in a slot, or taken out of their slot and not yet given
      * back. */
    ghost var limbo: set<nat>
    /** Inodes that differ from the disk. */
    ghost var dirty: set<nat>
    /** The blocks of all files. */
    ghost var chunks: Chunks
    ghost var logged: set<nat>

    ghost predicate Inv()
      reads this
    {
      FsInv(sb, disk, dinodes, owner, limbo, chunks, dirty)
    }

    /** Between operations. */
    ghost predicate Valid()
      reads this
    {
      Inv() && limbo == {} && dirty == {} && FilesOk(disk, dinodes) && EmptyOk(dinodes)
    }

    /** An empty file system. */
    constructor (sb: Super)
      requires SuperOk(sb)
      ensures Valid() && this.sb == sb && logged == {} && dinodes == NoInodes(sb.ninodes)
    {
      this.sb := sb;
      disk, dinodes := Formatted(sb, sb.datastart), NoInodes(sb.ninodes);
      owner, limbo, dirty, chunks, logged := map[], {}, {}, NoChunks(sb.ninodes), {};
      new;
      FormatOk(sb);
    }

    /** The search of `bm_alloc`: the first block that is not marked. */
    method FindFree() returns (ok: bool, b: nat)
      requires SuperOk(sb) && |disk| == sb.size
      ensures if ok then b < sb.size && !Bit(sb, disk, b) && TakenBelow(sb, disk, b) else TakenBelow(sb, disk, sb.size)
    {
      var base := 0;
      ghost var n := 0;
      while base < sb.size
        invariant base == n * BPB
                  && (if base < sb.size then TakenBelow(sb, disk, base) else TakenBelow(sb, disk, sb.size))
      {
        Multiple(n);
        var found, offset := FindInBlock(base);
        if found { return true, base + offset; }
        base, n := base + BPB, n + 1;
      }
      ok, b := false, 0;
    }

    /** The inner loop of the search: one bitmap block. */
    method FindInBlock(base: nat) returns (found: bool, offset: nat)
      requires SuperOk(sb) && |disk| == sb.size && base % BPB == 0 && base < sb.size && TakenBelow(sb, disk, base)
      ensures TakenBelow(sb, disk, base + offset) && base + offset <= sb.size
      ensures found ==> base + offset < sb.size && !Bit(sb, disk, base + offset)
      ensures !found ==> offset == BPB || base + offset == sb.size
    {
      offset := 0;
      while offset < BPB && base + offset < sb.size
        invariant offset <= BPB && base + offset <= sb.size && TakenBelow(sb, disk, base + offset)
      {
        BitInBlock(sb, disk, base, offset);
        if !GetAt(disk[BitmapBlock(sb, base)].bytes, offset) { return true, offset; }
        OneMoreTaken(sb, disk, base + offset);
        offset := offset + 1;
      }
      found := false;
    }

    /** Takes the first free block and zeroes it; fails (the source panics) when the disk is full. */
    method BmAlloc() returns (ok: bool, b: nat)
      requires Inv() && limbo == {}
      modifies `disk, `limbo, `logged
      ensures Inv()
      ensures !ok ==> TakenBelow(sb, disk, sb.size) && disk == old(disk) && limbo == {} && logged == old(logged)
      ensures ok ==> sb.datastart <= b < sb.size && !Bit(sb, old(disk), b) && TakenBelow(sb, old(disk), b)
      ensures ok ==> disk == Mark(sb, old(disk), b, true)[b := ZeroBlock()] && limbo == {b} && b !in owner
      ensures ok ==> logged == old(logged) + {BitmapBlock(sb, b), b} && SameOwned(old(disk), disk, owner)
    {
      ok, b := FindFree();
      if !ok { return; }
      BitmapInMeta(sb, b);
      AllocKeepsOwned(sb, disk, dinodes, owner, limbo, b);
      ghost var disk' := Mark(sb, disk, b, true)[b := ZeroBlock()];
      ChunksKept(disk, dinodes, owner, disk', chunks);
      SyncKept(sb, disk, dinodes, dirty, disk');
      disk := Mark(sb, disk, b, true);
      disk := disk[b := ZeroBlock()];
      limbo := limbo + {b};
      logged := logged + {BitmapBlock(sb, b), b};
    }

    /** Gives block `b` back; panics if it is not marked. */
    method BmFree(b: nat) returns (panicked: bool)
      requires SuperOk(sb) && |disk| == sb.size && b < sb.size
      modifies `disk, `logged
      ensures panicked == !Bit(sb, old(disk), b)
      ensures panicked ==> disk == old(disk) && logged == old(logged)
      ensures !panicked ==> disk == Mark(sb, old(disk), b, false) && logged == old(logged) + {BitmapBlock(sb, b)}
    {
      BitmapInMeta(sb, b);
      if !GetAt(disk[BitmapBlock(sb, b)].bytes, b % BPB) { return true; }
      disk := Mark(sb, disk, b, false);
      logged := logged + {BitmapBlock(sb, b)};
      panicked := false;
    }

    /** Writes the cached inode to its place on disk. */
    method Update(i: nat)
      requires Inv() && i < sb.ninodes && InodeBlock(sb, i) < sb.size && InodeFits(dinodes[i])
      modifies `disk, `dirty, `logged
      ensures Inv() && dirty == old(dirty) - {i} && disk == WriteInode(sb, old(disk), i, dinodes[i])
      ensures logged == old(logged) + {InodeBlock(sb, i)}
    {
      UpdateOk(sb, disk, dinodes, owner, limbo, chunks, dirty, i);
      disk := WriteInode(sb, disk, i, dinodes[i]);
      dirty := dirty - {i};
      logged := logged + {InodeBlock(sb, i)};
    }

    /** `inode_alloc`: the first free inode but inode 0 is cleared and gets its type; fails (the source panics) if
      * there is none. */
    method InodeAlloc(itype: nat) returns (ok: bool, i: nat)
      requires Valid() && 0 < itype < 0x1_0000
      modifies `disk, `dinodes, `dirty, `logged
      ensures Valid()
      ensures !ok ==>
                dinodes == old(dinodes) && disk == old(disk) && forall j :: 0 < j < sb.ninodes ==> dinodes[j].itype != 0
      ensures ok ==> 0 < i < sb.ninodes && old(dinodes)[i].itype == 0 && dinodes == old(dinodes)[i := FreshInode(itype)]
      ensures ok ==> forall j :: 0 < j < i ==> dinodes[j].itype != 0
      ensures forall j: nat :: FileOf(dinodes, chunks, j) == FileOf(old(dinodes), chunks, j)
    {
      i := 1;
      while i < sb.ninodes
        invariant 1 <= i && Valid() && dinodes == old(dinodes) && disk == old(disk)
        invariant forall j :: 0 < j < i && j < sb.ninodes ==> dinodes[j].itype != 0
      {
        if dinodes[i].itype == 0 {
          SetInode(i, FreshInode(itype));
          return true, i;
        }
        i := i + 1;
      }
      ok := false;
    }

    /** The inode gets new fields, in the cache and on disk. */
    method SetInode(i: nat, di: DiskInode)
      requires Valid() && i < sb.ninodes && InodeFits(di) && di.addrs == dinodes[i].addrs && di.size == dinodes[i].size
      requires di.itype != 0
      modifies `disk, `dinodes, `dirty, `logged
      ensures Valid() && dinodes == old(dinodes)[i := di]
      ensures forall j: nat :: FileOf(dinodes, chunks, j) == FileOf(old(dinodes), chunks, j)
    {
      RetypeOk(sb, disk, dinodes, owner, limbo, chunks, dirty, i, di);
      InodeBlockInMeta(sb, i);
      dinodes := dinodes[i := di];
      dirty := dirty + {i};
      ghost var disk0 := disk;
      Update(i);
      InodeKeepsSlots(sb, disk0, dinodes, owner, limbo, i, disk);
      FilesKept(disk0, dinodes, disk);
    }

    /** Allocates a block for an empty direct or indirect address. */
    method AllocAddr(i: nat, k: nat) returns (ok: bool, b: nat)
      requires Inv() && limbo == {} && i < sb.ninodes && k <= NDIRECT && Addr(dinodes, i, k) == 0
      modifies `disk, `dinodes, `owner, `limbo, `dirty, `logged
      ensures Inv() && limbo == {}
      ensures !ok ==> TakenBelow(sb, disk, sb.size)
      ensures !ok ==> disk == old(disk) && dinodes == old(dinodes) && dirty == old(dirty) && logged == old(logged)
      ensures ok ==>
                0 < b < sb.size && |old(dinodes)[i].addrs| == NDIRECT + 1 && dinodes == SetAddr(old(dinodes), i, k, b)
      ensures ok ==> dirty == old(dirty) + {i} && logged == old(logged) + {BitmapBlock(sb, b), b}
      ensures ok ==> MappedKept(old(disk), old(dinodes), disk, dinodes) && disk[b] == ZeroBlock()
      ensures Covered(old(disk), disk, old(logged), logged)
    {
      ghost var disk0 := disk;
      ok, b := BmAlloc();
      if !ok { return; }
      AttachAddrOk(sb, disk0, disk, dinodes, owner, limbo, chunks, dirty, i, k, b);
      dinodes := SetAddr(dinodes, i, k, b);
      owner := owner[b := if k < NDIRECT then Direct(i, k) else Indirect(i)];
      limbo := {};
      dirty := dirty + {i};
    }

    /** The block number of block `k` of the file; blocks that are missing on the way are allocated, and read as zeros.
      * `bms` are the bitmap blocks that this has changed. */
    method MapBlockno(i: nat, k: nat) returns (ok: bool, b: nat, ghost bms: set<nat>)
      requires Inv() && limbo == {} && i < sb.ninodes && k < MAXBLOCKS
      modifies `disk, `dinodes, `owner, `limbo, `dirty, `logged
      ensures Inv() && limbo == {}
      ensures OnlyAddrs(old(dinodes), dinodes, i) && MappedKept(old(disk), old(dinodes), disk, dinodes)
      ensures dirty <= old(dirty) + {i}
      ensures if ok then b == Get(disk, dinodes, SlotOf(i, k)) && 0 < b < sb.size else TakenBelow(sb, disk, sb.size)
      ensures old(Get(disk, dinodes, SlotOf(i, k))) != 0 ==>
                ok && disk == old(disk) && dinodes == old(dinodes) && dirty == old(dirty) && logged == old(logged)
                    && bms == {}
      ensures logged <= old(logged) + bms + {b} + IndirectOf(dinodes, i, k)
      ensures BitmapBlocks(sb, bms) && |bms| <= if k >= NDIRECT && old(Addr(dinodes, i, NDIRECT)) == 0 then 2 else 1
      ensures Covered(old(disk), disk, old(logged), logged)
    {
      if k < NDIRECT {
        ok, b, bms := MapAddr(i, k);
      } else {
        ghost var disk0, dinodes0, logged0 := disk, dinodes, logged;
        ok, b, bms := MapAddr(i, NDIRECT);
        if !ok { return; }
        ghost var disk1, dinodes1, logged1 := disk, dinodes, logged;
        ghost var more;
        ok, b, more := MapLeaf(i, k - NDIRECT);
        MappedTwice(disk0, dinodes0, disk1, dinodes1, disk, dinodes);
        CoveredTwice(disk0, disk1, disk, logged0, logged1, logged);
        bms := bms + more;
      }
    }

    /** The direct or indirect address `k`, allocated if it was empty. */
    method MapAddr(i: nat, k: nat) returns (ok: bool, b: nat, ghost bms: set<nat>)
      requires Inv() && limbo == {} && i < sb.ninodes && k <= NDIRECT
      modifies `disk, `dinodes, `owner, `limbo, `dirty, `logged
      ensures Inv() && limbo == {}
      ensures OnlyAddrs(old(dinodes), dinodes, i) && MappedKept(old(disk), old(dinodes), disk, dinodes)
      ensures dirty <= old(dirty) + {i}
      ensures if ok then b == Addr(dinodes, i, k) && 0 < b < sb.size else TakenBelow(sb, disk, sb.size)
      ensures old(Addr(dinodes, i, k)) != 0 ==>
                ok && disk == old(disk) && dinodes == old(dinodes) && dirty == old(dirty) && logged == old(logged)
                    && bms == {}
      ensures logged <= old(logged) + bms + {b} && BitmapBlocks(sb, bms) && |bms| <= 1
      ensures Covered(old(disk), disk, old(logged), logged)
    {
      bms := {};
      assert InodeFits(dinodes[i]);
      assert dinodes[i := dinodes[i]] == dinodes;
      if dinodes[i].addrs[k] == 0 {
        ok, b := AllocAddr(i, k);
        if ok { bms := {BitmapBlock(sb, b)}; }
      } else {
        SlotInRange(sb, disk, dinodes, owner, limbo, if k < NDIRECT then Direct(i, k) else Indirect(i));
        ok, b := true, dinodes[i].addrs[k];
      }
    }

    /** Word `k` of the indirect block, allocated if it was empty. */
    method MapLeaf(i: nat, k: nat) returns (ok: bool, b: nat, ghost bms: set<nat>)
      requires Inv() && limbo == {} && HasIndirect(disk, dinodes, i, k)
      modifies `disk, `owner, `limbo, `logged
      ensures Inv() && limbo == {} && MappedKept(old(disk), dinodes, disk, dinodes)
      ensures if ok then b == Get(disk, dinodes, Leaf(i, k)) && 0 < b < sb.size else TakenBelow(sb, disk, sb.size)
      ensures old(Get(disk, dinodes, Leaf(i, k))) != 0 ==> ok && disk == old(disk) && logged == old(logged) && bms == {}
      ensures logged <= old(logged) + bms + {b, Addr(dinodes, i, NDIRECT)} && BitmapBlocks(sb, bms) && |bms| <= 1
      ensures Covered(old(disk), disk, old(logged), logged)
    {
      bms := {};
      ok, b := true, WordAt(disk[dinodes[i].addrs[NDIRECT]].bytes, 4 * k);
      if b == 0 {
        ok, b := AllocLeaf(i, k);
        if ok { bms := {BitmapBlock(sb, b)}; }
      } else {
        SlotInRange(sb, disk, dinodes, owner, limbo, Leaf(i, k));
      }
    }

    /** Allocates a block for an empty word of the indirect block. */
    method AllocLeaf(i: nat, k: nat) returns (ok: bool, b: nat)
      requires Inv() && limbo == {} && HasIndirect(disk, dinodes, i, k) && Get(disk, dinodes, Leaf(i, k)) == 0
      modifies `disk, `owner, `limbo, `logged
      ensures Inv() && limbo == {}
      ensures !ok ==> TakenBelow(sb, disk, sb.size) && disk == old(disk) && logged == old(logged)
      ensures ok ==> 0 < b < sb.size && Get(disk, dinodes, Leaf(i, k)) == b
      ensures ok ==> logged == old(logged) + {BitmapBlock(sb, b), b, Addr(dinodes, i, NDIRECT)}
      ensures ok ==> OthersKept(old(disk), disk, dinodes, Leaf(i, k))
      ensures Covered(old(disk), disk, old(logged), logged)
    {
      ghost var disk0 := disk;
      var ib := Addr(dinodes, i, NDIRECT);
      ok, b := BmAlloc();
      if !ok { return; }
      AttachLeafOk(sb, disk0, disk, dinodes, owner, limbo, chunks, dirty, i, k, b);
      disk := SetLeaf(disk, ib, k, b);
      owner := owner[b := Leaf(i, k)];
      limbo := {};
      logged := logged + {ib};
    }

    // ----- Writing

    ghost function Now(): Snap
      reads this
    {
      Snap(disk, dinodes, chunks, logged)
    }

    /** One round of `try_iwrite`; `fault` says that `copy_in` fails. */
    method WriteOne(job: Job, p: Cursor, fault: bool) returns (r: RoundResult, b: nat, ghost bms: set<nat>)
      requires Inv() && limbo == {} && job.i < sb.ninodes && p.k < MAXBLOCKS && PlaceOk(job.offset, |job.src|, p)
      modifies `disk, `dinodes, `owner, `limbo, `dirty, `chunks, `logged
      ensures Inv() && limbo == {} && dirty <= old(dirty) + {job.i}
      ensures if r.NoSpace? then TakenBelow(sb, disk, sb.size) else r == if fault then Fault else Done
      ensures !r.NoSpace? ==> RoundWrites(old(Now()), Now(), job, p, r)
      ensures RoundLogs(sb, old(Now()), Now(), job.i, p.k, b, bms) && OthersSame(old(dinodes), dinodes, job.i)
    {
      ghost var mid := Now();
      var ok;
      ok, b, bms := MapBlockno(job.i, p.k);
      if !ok { return NoSpace, b, bms; }
      if fault { return Fault, b, bms; }
      PutRound(sb, mid, Now(), owner, dirty, job, p, b, bms);
      var x := PutBytes(disk[b], p.at, job.src[p.done..p.done + Width(|job.src|, p)]);
      disk := disk[b := x];
      chunks := chunks[(job.i, p.k) := x];
      logged := logged + {b};
      r := Done;
    }

    /** The same round, in the midst of a write. */
    method WriteRound(job: Job, p: Cursor, good: nat, ghost was: Snap, ghost c: Cost)
        returns (r: RoundResult, p': Cursor, ghost c': Cost)
      requires Inv() && limbo == {} && dirty <= {job.i} && |was.dinodes| == sb.ninodes && JobOk(was, job)
      requires p.done < |job.src| && Midway(sb, was, Now(), job, p, c, Done)
      modifies `disk, `dinodes, `owner, `limbo, `dirty, `chunks, `logged
      ensures Inv() && limbo == {} && dirty <= {job.i}
      ensures r.NoSpace? ==> TakenBelow(sb, disk, sb.size)
      ensures OthersSame(old(dinodes), dinodes, job.i)
      ensures r.Fault? ==> good < BlocksAt(job.offset, |job.src|) && p' == p
      ensures r.Done? ==> p.done < p'.done
      ensures !r.NoSpace? ==> Midway(sb, was, Now(), job, p', c', r)
    {
      MidwayBounds(sb, was, Now(), job, p, c);
      ghost var mid, w := Now(), Width(|job.src|, p);
      var b; ghost var bms;
      r, b, bms := WriteOne(job, p, p.n >= good);
      p', c' := Advance(p, Width(|job.src|, p), r), c;
      if !r.NoSpace? { c' := MidwayGoesOn(sb, was, mid, Now(), job, p, c, r, b, bms); }
    }

    /** The loop of `try_iwrite`. */
    method WriteBlocks(job: Job, good: nat) returns (full: bool, done: nat)
      requires Valid() && job.i < sb.ninodes && JobOk(Now(), job)
      modifies `disk, `dinodes, `owner, `limbo, `dirty, `chunks, `logged
      ensures full ==> TakenBelow(sb, disk, sb.size)
      ensures Inv() && limbo == {} && dirty <= {job.i} && OthersSame(old(dinodes), dinodes, job.i)
      ensures !full ==> |dinodes| == |old(dinodes)| && BlocksWritten(sb, old(Now()), Now(), job, done)
      ensures !full && good >= BlocksAt(job.offset, |job.src|) ==> done == |job.src|
    {
      ghost var was, c := Now(), Cost({}, {}, {}, 0, 0);
      var p, r := Cursor(job.offset / BSIZE, job.offset % BSIZE, 0, 0), Done;
      FilesThere(disk, dinodes, chunks, job.i);
      WriteStarts(was, job);
      while p.done < |job.src| && r.Done?
        invariant Inv() && limbo == {} && dirty <= {job.i} && !r.NoSpace?
        invariant Midway(sb, was, Now(), job, p, c, r) && OthersSame(was.dinodes, dinodes, job.i)
        invariant r.Fault? ==> good < BlocksAt(job.offset, |job.src|)
        decreases |job.src| - p.done, r.Done?
      {
        r, p, c := WriteRound(job, p, good, was, c);
        if r.NoSpace? { return true, p.done; }
      }
      MidwayEnds(sb, was, Now(), job, p, c, r);
      full, done := false, p.done;
    }

    /** The end of `try_iwrite`: the size, and the inode on disk. */
    method FinishWrite(i: nat, size: nat)
      requires Inv() && limbo == {} && dirty <= {i} && i < sb.ninodes && IsWord(size)
      modifies `disk, `dinodes, `dirty, `logged
      ensures Inv() && limbo == {} && dirty == {} && dinodes == WithSize(old(dinodes), i, size)
      ensures FilesOk(old(disk), dinodes) ==> FilesOk(disk, dinodes)
      ensures logged == old(logged) + {InodeBlock(sb, i)} && Covered(old(disk), disk, old(logged), logged)
    {
      ghost var disk0 := disk;
      WithSizeOk(sb, disk, dinodes, owner, limbo, chunks, dirty, i, size);
      if size > dinodes[i].size {
        dinodes := dinodes[i := dinodes[i].(size := size)];
        dirty := dirty + {i};
      }
      InodeBlockInMeta(sb, i);
      Update(i);
      InodeKeepsSlots(sb, disk0, dinodes, owner, limbo, i, disk);
      if FilesOk(disk0, dinodes) { FilesKept(disk0, dinodes, disk); }
    }

    /** Writes `src` at `offset` of file `i`, block by block; `copy_in` succeeds for the first `good` blocks.
      * The result is what the source returns, or its panic when the disk is full. */
    method TryIwrite(i: nat, src: seq<u8>, offset: nat, good: nat) returns (r: WriteResult)
      requires Valid() && i < sb.ninodes && dinodes[i].itype != 0
      modifies `disk, `dinodes, `owner, `limbo, `dirty, `chunks, `logged
      ensures r.Refused? <==> offset > old(dinodes)[i].size || offset + |src| > MAX_FILE_SIZE
      ensures r.Refused? ==>
                disk == old(disk) && dinodes == old(dinodes) && chunks == old(chunks) && logged == old(logged)
      ensures r.DiskFull? ==> TakenBelow(sb, disk, sb.size) && Inv() && limbo == {}
      ensures OthersSame(old(dinodes), dinodes, i)
      ensures !r.DiskFull? ==> Valid()
      ensures r.Wrote? ==> r.m <= |src| && (good >= BlocksAt(offset, |src|) ==> r.m == |src|)
      ensures r.Wrote? ==> |old(File(i))| == old(dinodes)[i].size && File(i) == Splice(old(File(i)), offset, src[..r.m])
      ensures r.Wrote? ==> Grew(old(dinodes), dinodes, i, offset + r.m)
      ensures r.Wrote? ==>
                forall j: nat :: j != i ==> FileOf(dinodes, chunks, j) == FileOf(old(dinodes), old(chunks), j)
      ensures r.Wrote? ==> Affordable(sb, logged - old(logged), offset, |src|)
      ensures r.Wrote? ==> Covered(old(disk), disk, old(logged), logged)
    {
      if offset > dinodes[i].size { return Refused; }
      if offset + |src| > MAX_FILE_SIZE { return Refused; }
      ghost var was := Now();
      var full, done := WriteBlocks(Job(i, offset, src), good);
      if full { return DiskFull; }
      ghost var mid := Now();
      FinishWrite(i, offset + done);
      WriteDone(sb, was, mid, Now(), i, offset, src, done);
      r := Wrote(done);
    }

    ghost function File(i: nat): seq<u8>
      reads this
    {
      FileOf(dinodes, chunks, i)
    }

    // ----- Reading

    /** Reads `count` bytes at `offset`; `copy_out` succeeds for the first `good` blocks. Reading allocates nothing. */
    method Iread(i: nat, offset: nat, count: nat, good: nat) returns (ok: bool, bytes: seq<u8>)
      requires Valid() && i < sb.ninodes
      modifies `disk, `dinodes, `owner, `limbo, `dirty, `logged
      ensures Valid() && disk == old(disk) && dinodes == old(dinodes) && dirty == {} && logged == old(logged)
      ensures |File(i)| == dinodes[i].size
      ensures ok <==> offset + count <= dinodes[i].size && good >= BlocksAt(offset, count)
      ensures ok ==> bytes == File(i)[offset..offset + count]
    {
      assert FileOk(disk, dinodes, i);
      FilesThere(disk, dinodes, chunks, i);
      bytes := [];
      if offset + count > dinodes[i].size { return false, bytes; }
      var p := Cursor(offset / BSIZE, offset % BSIZE, 0, 0);
      ReadStarts(File(i), offset, count);
      while p.done < count
        invariant Valid() && disk == old(disk) && dinodes == old(dinodes) && dirty == {} && logged == old(logged)
        invariant Reading(File(i), offset, count, p, bytes) && p.n <= good
        decreases count - p.done
      {
        ReadBounds(File(i), offset, count, p, bytes);
        var found, b, bms := MapBlockno(i, p.k);
        if p.n >= good { return false, bytes; }
        ReadGoesOn(disk, dinodes, chunks, i, offset, count, p, bytes);
        bytes := bytes + disk[b].bytes[p.at..p.at + Width(count, p)];
        p := Advance(p, Width(count, p), Done);
      }
      ok := true;
    }

    /** Reads at most `count` bytes at `offset`, as many as the file has. It fails when `offset + count` is no 32-bit
      * number, even if the file ends before. */
    method TryIread(i: nat, offset: nat, count: nat, good: nat) returns (ok: bool, bytes: seq<u8>)
      requires Valid() && i < sb.ninodes && IsWord(offset) && IsWord(count)
      modifies `disk, `dinodes, `owner, `limbo, `dirty, `logged
      ensures Valid() && disk == old(disk) && dinodes == old(dinodes) && logged == old(logged)
      ensures offset <= |File(i)| && !IsWord(offset + count) ==> !ok
      ensures ok && offset > |File(i)| ==> bytes == []
      ensures ok && offset <= |File(i)| ==>
                bytes == File(i)[offset..if offset + count > |File(i)| then |File(i)| else offset + count]
      ensures offset > |File(i)| || (good >= BlocksAt(offset, count) && IsWord(offset + count)) ==> ok
    {
      assert FileOk(disk, dinodes, i);
      FilesThere(disk, dinodes, chunks, i);
      if offset > dinodes[i].size { return true, []; }
      if !IsWord(offset + count) { return false, []; }
      var actual := if offset + count > dinodes[i].size then dinodes[i].size - offset else count;
      FewerBlocks(offset, actual, count);
      ok, bytes := Iread(i, offset, actual, good);
    }

    // ----- Releasing

    ghost function Blocks(): Store
      reads this
    {
      Store(disk, dinodes, owner)
    }

    /** The first loop of `truncate`: the direct addresses. */
    method FreeDirects(i: nat, ghost was: Store) returns (panicked: bool)
      requires Shrinking(sb, was, Blocks(), {}, i) && Synced(sb, disk, dinodes, {i})
      modifies `disk, `dinodes, `owner, `logged
      ensures !panicked && Shrinking(sb, was, Blocks(), {}, i) && Synced(sb, disk, dinodes, {i})
      ensures |dinodes[i].addrs| == NDIRECT + 1 && forall k :: 0 <= k < NDIRECT ==> dinodes[i].addrs[k] == 0
    {
      var k := 0;
      while k < NDIRECT
        invariant 0 <= k <= NDIRECT && Shrinking(sb, was, Blocks(), {}, i) && Synced(sb, disk, dinodes, {i})
        invariant |dinodes[i].addrs| == NDIRECT + 1 && forall l :: 0 <= l < k ==> dinodes[i].addrs[l] == 0
      {
        if dinodes[i].addrs[k] > 0 {
          panicked := FreeDirect(i, k, was);
          if panicked { return; }
        }
        k := k + 1;
      }
      panicked := false;
    }

    /** One direct address. */
    method FreeDirect(i: nat, k: nat, ghost was: Store) returns (panicked: bool)
      requires Shrinking(sb, was, Blocks(), {}, i) && Synced(sb, disk, dinodes, {i}) && k < NDIRECT
               && Addr(dinodes, i, k) > 0
      modifies `disk, `dinodes, `owner, `logged
      ensures !panicked && Shrinking(sb, was, Blocks(), {}, i) && Synced(sb, disk, dinodes, {i})
      ensures k < |old(dinodes)[i].addrs| && dinodes == SetAddr(old(dinodes), i, k, 0)
    {
      var b := dinodes[i].addrs[k];
      DropDirect(sb, was, Blocks(), i, k);
      ghost var gone := Store(disk, SetAddr(dinodes, i, k, 0), owner - {b});
      FreeOne(sb, was, gone, {b}, i, b);
      assert {b} - {b} == {};
      SyncAfterFree(sb, disk, dinodes, i, k, b);
      panicked := BmFree(b);
      dinodes := SetAddr(dinodes, i, k, 0);
      owner := owner - {b};
    }

    /** The second part of `truncate`: the indirect block and all blocks in it. */
    method FreeIndirect(i: nat, ghost was: Store) returns (panicked: bool)
      requires Shrinking(sb, was, Blocks(), {}, i) && Synced(sb, disk, dinodes, {i})
      modifies `disk, `dinodes, `owner, `logged
      ensures !panicked && Shrinking(sb, was, Blocks(), {}, i) && Synced(sb, disk, dinodes, {i})
      ensures |old(dinodes)[i].addrs| == NDIRECT + 1 && dinodes == SetAddr(old(dinodes), i, NDIRECT, 0)
    {
      assert InodeFits(dinodes[i]);
      panicked := false;
      if dinodes[i].addrs[NDIRECT] == 0 {
        assert dinodes[i].addrs[NDIRECT := 0] == dinodes[i].addrs;
        assert dinodes[i := dinodes[i].(addrs := dinodes[i].addrs)] == dinodes;
        return;
      }
      var ib := dinodes[i].addrs[NDIRECT];
      ghost var now := Blocks();
      DropIndirect(sb, was, now, i);
      ghost var gone := Store(disk, SetAddr(dinodes, i, NDIRECT, 0), WithoutIndirect(disk, owner, i, ib));
      LeavesStart(sb, was, now, gone, i);
      panicked := FreeLeaves(i, ib, was, now, gone);
      LeavesEnd(sb, was, now, gone, disk, i);
      FreeOne(sb, was, gone.(disk := disk), {ib}, i, ib);
      assert {ib} - {ib} == {};
      SyncAfterFree(sb, disk, dinodes, i, NDIRECT, ib);
      panicked := BmFree(ib);
      dinodes := SetAddr(dinodes, i, NDIRECT, 0);
      owner := gone.owner;
    }

    /** The loop over the words of the indirect block `ib`; in `gone` its slots have let go of their blocks already. */
    method FreeLeaves(i: nat, ib: nat, ghost was: Store, ghost now: Store, ghost gone: Store) returns (panicked: bool)
      requires now.dinodes == dinodes && ib == Addr(dinodes, i, NDIRECT) && Synced(sb, disk, dinodes, {i})
      requires LeavesLeft(sb, was, now, gone, disk, i, 0)
      modifies `disk, `logged
      ensures !panicked && LeavesLeft(sb, was, now, gone, disk, i, NINDIRECT) && Synced(sb, disk, dinodes, {i})
    {
      var k: nat := 0;
      panicked := false;
      while k < NINDIRECT
        invariant k <= NINDIRECT && !panicked
        invariant LeavesLeft(sb, was, now, gone, disk, i, k)
        invariant Synced(sb, disk, dinodes, {i})
      {
        panicked := FreeLeaf(i, ib, k, was, now, gone);
        if panicked { return; }
        k := k + 1;
      }
    }

    method FreeLeaf(i: nat, ib: nat, k: nat, ghost was: Store, ghost now: Store, ghost gone: Store)
        returns (panicked: bool)
      requires now.dinodes == dinodes && k < NINDIRECT && LeavesLeft(sb, was, now, gone, disk, i, k)
               && ib == Addr(dinodes, i, NDIRECT)
      requires Synced(sb, disk, dinodes, {i})
      modifies `disk, `logged
      ensures !panicked && LeavesLeft(sb, was, now, gone, disk, i, k + 1) && Synced(sb, disk, dinodes, {i})
    {
      NextLeafLeft(sb, was, now, gone, disk, i, k);
      panicked := false;
      var b := WordAt(disk[ib].bytes, 4 * k);
      if b > 0 {
        SyncKept(sb, disk, dinodes, {i}, Mark(sb, disk, b, false));
        panicked := BmFree(b);
      }
    }

    /** Gives all blocks of file `i` back. Panics only if a block is freed twice, which cannot happen. */
    method Truncate(i: nat) returns (panicked: bool)
      requires Inv() && limbo == {} && dirty <= {i} && FilesOk(disk, dinodes) && i < sb.ninodes
      modifies `disk, `dinodes, `owner, `limbo, `dirty, `chunks, `logged
      ensures !panicked
      ensures Inv() && limbo == {} && dirty == {} && FilesOk(disk, dinodes)
      ensures dinodes == Emptied(old(dinodes), i)
      ensures owner == WithoutInode(old(owner), i) && chunks == Blanked(old(chunks), i)
      ensures FreedOnly(sb, old(Blocks()), disk, i)
      ensures forall s :: SlotIn(|dinodes|, s) && s.i == i ==> Get(disk, dinodes, s) == 0
      ensures forall j: nat :: FileOf(dinodes, chunks, j) == if j == i then [] else FileOf(old(dinodes), old(chunks), j)
    {
      ghost var was := Blocks();
      ShrinkStarts(sb, was, i);
      SyncMore(sb, disk, dinodes, dirty, {i});
      panicked := FreeDirects(i, was);
      panicked := FreeIndirect(i, was);
      NoAddrsLeft(was.dinodes, dinodes, i);
      FilesAfterTruncate(was.dinodes, chunks, i);
      panicked := false;
      TruncateEnds(sb, was, Blocks(), limbo, i, chunks);
      FinishTruncate(i);
    }

    /** The end of `put` for an inode without links: it becomes a free inode without blocks. */
    method FreeInode(i: nat) returns (panicked: bool)
      requires Valid() && i < sb.ninodes
      modifies `disk, `dinodes, `owner, `limbo, `dirty, `chunks, `logged
      ensures !panicked && Valid() && dinodes[i].itype == 0 && dinodes[i].addrs == NoAddrs()
      ensures FreedOnly(sb, old(Blocks()), disk, i)
      ensures forall j: nat :: j != i ==> FileOf(dinodes, chunks, j) == FileOf(old(dinodes), old(chunks), j)
      ensures forall j :: 0 <= j < sb.ninodes && j != i ==> dinodes[j] == old(dinodes)[j]
    {
      var di := dinodes[i].(itype := 0);
      assert InodeFits(dinodes[i]);
      RetypeOk(sb, disk, dinodes, owner, limbo, chunks, dirty, i, di);
      dinodes := dinodes[i := di];
      dirty := dirty + {i};
      panicked := Truncate(i);
    }

    /** The end of `truncate`: the size, and the inode on disk. */
    method FinishTruncate(i: nat)
      requires i < sb.ninodes && InodeBlock(sb, i) < sb.size && i < |dinodes| && InodeFits(dinodes[i].(size := 0))
      requires FsInv(sb, disk, dinodes[i := dinodes[i].(size := 0)], owner, limbo, Blanked(chunks, i), {i})
      modifies `disk, `dinodes, `dirty, `chunks, `logged
      ensures Inv() && dirty == {} && dinodes == old(dinodes)[i := old(dinodes)[i].(size := 0)]
      ensures chunks == Blanked(old(chunks), i) && disk == WriteInode(sb, old(disk), i, dinodes[i])
    {
      dinodes := dinodes[i := dinodes[i].(size := 0)];
      dirty := {i};
      chunks := Blanked(chunks, i);
      Update(i);
    }
  }
}
