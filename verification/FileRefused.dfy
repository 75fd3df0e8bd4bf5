/** `fwrite` can fail after it has written: a call that shows it, on a disk with room for one file of maximal size. */
module FileRefused {
  import opened Common
  import opened LogSpec
  import opened FsSpec
  import opened FsOwner
  import opened FsFile
  import opened FsInode
  import opened FsFormat
  import opened FsWrite
  import opened FsDisk
  import opened Fs
  import opened FileWrite
  import opened Words

  // ----- The blocks that one file can take

  /** The slots of one inode, numbered. */
  function Code(s: Slot): nat {
    match s case Direct(_, k) => k case Indirect(_) => NDIRECT case Leaf(_, k) => NDIRECT + 1 + k
  }

  const SLOTS := NDIRECT + 1 + NINDIRECT

  /** All other inodes are without blocks. */
  ghost predicate OnlyFile(dinodes: Inodes, i: nat) {
    forall j, k :: 0 <= j < |dinodes| && j != i && 0 <= k <= NDIRECT ==> Addr(dinodes, j, k) == 0
  }

  /** The slots of the owners of blocks `lo` to `hi`. */
  ghost function Codes(owner: Owner, lo: nat, hi: nat): set<nat> {
    set b | b in owner && lo <= b < hi :: Code(owner[b])
  }

  ghost predicate OwnedBy(disk: Disk, dinodes: Inodes, owner: Owner, i: nat, b: nat) {
    b in owner && owner[b].i == i && SlotIn(|dinodes|, owner[b]) && Get(disk, dinodes, owner[b]) == b
  }

  lemma {:induction false} CountCodes(disk: Disk, dinodes: Inodes, owner: Owner, i: nat, lo: nat, hi: nat)
    requires lo <= hi && forall b :: lo <= b < hi ==> OwnedBy(disk, dinodes, owner, i, b)
    ensures |Codes(owner, lo, hi)| == hi - lo
  {
    if lo == hi {
      assert Codes(owner, lo, hi) == {};
    } else {
      var b := hi - 1;
      CountCodes(disk, dinodes, owner, i, lo, b);
      assert OwnedBy(disk, dinodes, owner, i, b);
      forall c | lo <= c < b ensures c in owner && Code(owner[c]) != Code(owner[b]) {
        assert OwnedBy(disk, dinodes, owner, i, c);
      }
      assert Codes(owner, lo, hi) == Codes(owner, lo, b) + {Code(owner[b])};
    }
  }

  ghost function Upto(n: nat): (s: set<nat>)
    ensures |s| == n && forall k :: k in s <==> 0 <= k < n
  {
    if n == 0 then {} else Upto(n - 1) + {n - 1}
  }

  lemma OwnedIfTaken(sb: Super, disk: Disk, dinodes: Inodes, owner: Owner, i: nat, b: nat)
    requires Owned(sb, disk, dinodes, owner, {}) && OnlyFile(dinodes, i) && sb.datastart <= b < sb.size
    requires Bit(sb, disk, b)
    ensures OwnedBy(disk, dinodes, owner, i, b)
  {
    assert BitOk(sb, disk, owner, {}, b) && OwnerOk(sb, disk, dinodes, owner, b);
    assert Addr(dinodes, owner[b].i, NDIRECT) == 0 ==> owner[b].Direct?;
  }

  /** A disk that is full with the blocks of one file is no larger than that file. */
  lemma FullOfOne(sb: Super, disk: Disk, dinodes: Inodes, owner: Owner, i: nat)
    requires Owned(sb, disk, dinodes, owner, {}) && OnlyFile(dinodes, i) && TakenBelow(sb, disk, sb.size)
    ensures sb.size - sb.datastart <= SLOTS
  {
    forall b | sb.datastart <= b < sb.size ensures OwnedBy(disk, dinodes, owner, i, b) {
      OwnedIfTaken(sb, disk, dinodes, owner, i, b);
    }
    CountCodes(disk, dinodes, owner, i, sb.datastart, sb.size);
    forall b | sb.datastart <= b < sb.size ensures b in owner && Code(owner[b]) in Upto(SLOTS) {
      assert OwnedBy(disk, dinodes, owner, i, b);
    }
    SubsetSize(Codes(owner, sb.datastart, sb.size), Upto(SLOTS));
  }

  // ----- The call

  /** The layout that `mkfs` chooses. */
  const MKFS := Super(2048, 200, 32, 45, 46)

  lemma MkfsOk()
    ensures SuperOk(MKFS) && MKFS.size - MKFS.datastart > SLOTS
  {
  }

  lemma NoneHasBlocks(n: nat, i: nat, dinodes: Inodes, dinodes': Inodes, itype: nat)
    requires i < n && dinodes == NoInodes(n)[i := FreshInode(itype)] && OthersSame(dinodes, dinodes', i)
    ensures OnlyFile(dinodes', i)
  {
    forall j, k | 0 <= j < |dinodes'| && j != i && 0 <= k <= NDIRECT ensures Addr(dinodes', j, k) == 0 {
      assert dinodes'[j] == NoInodes(n)[j];
    }
  }

  /** The files on a disk between operations. */
  lemma FilesOn(now: Snap, sb: Super) returns (files: Files)
    requires CachedOk(now, sb)
    ensures HoldsFiles(sb, now.disk, files)
    ensures forall i: nat :: i < sb.ninodes ==> |files[i]| == now.dinodes[i].size
  {
    DiskIsCached(sb, now.disk, now.dinodes, now.chunks);
    files := seq(sb.ninodes, i requires 0 <= i => FileOf(now.dinodes, now.chunks, i));
    forall i: nat | i < sb.ninodes ensures |files[i]| == now.dinodes[i].size {
      assert FileOk(now.disk, now.dinodes, i);
      FilesThere(now.disk, now.dinodes, now.chunks, i);
    }
    forall i: nat ensures HoldsFile(sb, now.disk, files, i) {
      if i < sb.ninodes { assert DiskFile(sb, now.disk, i) == FileOf(now.dinodes, now.chunks, i); }
    }
  }

  /** A new file on an empty disk. */
  method NewFile() returns (f: OpenFile)
    ensures f.Valid() && f.writable && f.offset == 0 && f.fs.sb == MKFS && fresh(f) && fresh(f.fs)
    ensures f.fs.dinodes == NoInodes(MKFS.ninodes)[f.i := FreshInode(2)]
  {
    MkfsOk();
    var fs := new FileSystem(MKFS);
    var ok, i := fs.InodeAlloc(2);
    assert ok by { assert NoInodes(MKFS.ninodes)[1].itype == 0; }
    f := new OpenFile(fs, i, true);
  }

  /** Writing one byte more than a file can hold to a new file on an empty disk fails, but leaves the file with all
    * whole batches that fit in. */
  method RefusedAfterWriting(src: seq<u8>)
      returns (f: OpenFile, r: WriteResult, ghost t: Trail, ghost done: nat)
    requires |src| == MAX_FILE_SIZE + 1
    ensures r.Refused? && f.Valid() && done == BatchStart(|t.costs|) > 0 && f.offset == done <= |src|
    ensures f.i < f.fs.sb.ninodes && DiskFile(f.fs.sb, f.fs.disk, f.i) == src[..done]
  {
    f := NewFile();
    ghost var files := FilesOn(f.fs.Now(), f.fs.sb);
    ghost var dinodes0 := f.fs.dinodes;
    r, t, done := f.Fwrite(src, n => 4, files);
    NoneHasBlocks(MKFS.ninodes, f.i, dinodes0, f.fs.dinodes, 2);
    if r.DiskFull? {
      FullOfOne(MKFS, f.fs.disk, f.fs.dinodes, f.fs.owner, f.i);
      MkfsOk();
      assert false;
    }
    ghost var job := Job(f.i, 0, src);
    assert AllGood(n => 4);
    assert FileWritten(f.fs.sb, f.fs.disk, files, job, done, f.i);
    assert files[f.i] == [];
    assert Content(files, job, done, f.i) == src[..done];
  }
}
