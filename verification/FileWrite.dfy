/** `fwrite` of `kernel/src/fs/file/mod.rs` for regular files: a long write goes to the log in batches of three blocks,
  * each in an operation of its own. */
module FileWrite {
  import opened Common
  import opened LogSpec
  import opened FsSpec
  import opened FsOwner
  import opened FsFile
  import opened FsInode
  import opened FsWrite
  import opened FsDisk
  import opened Fs
  import opened Words

  const BATCH := (MAXOPBLOCKS - 4) / 2 * BSIZE

  /** Bytes of the batch that starts after `done` of `count` bytes. */
  function BatchSize(count: nat, done: nat): nat
    requires done <= count
  {
    if BATCH < count - done then BATCH else count - done
  }

  // ----- What a batch costs the log

  lemma BlocksOfBatch(offset: nat, n: nat)
    requires n <= BATCH
    ensures BlocksAt(offset, n) <= 3 + Unaligned(offset)
  {
    if n > 0 && offset % BSIZE == 0 { assert (offset + n - 1) / BSIZE <= offset / BSIZE + 2; }
    if n > 0 { assert (offset + n - 1) / BSIZE <= offset / BSIZE + 3; }
  }

  /** A batch never logs more than the blocks that admission reserves, nor more than six besides bitmap blocks. It logs
    * as many as admission reserves only if it starts inside a block and the disk has at least four bitmap blocks. */
  lemma BatchFitsLog(sb: Super, s: set<nat>, offset: nat, n: nat)
    requires Affordable(sb, s, offset, n) && n <= BATCH
    ensures |s| <= MAXOPBLOCKS && |s - Bitmaps(sb)| <= 6
    ensures offset % BSIZE == 0 ==> |s| <= 9
    ensures BitmapCount(sb) == 1 ==> |s| <= 7
    ensures |s| == MAXOPBLOCKS ==> offset % BSIZE != 0 && BitmapCount(sb) >= 4
  {
    BlocksOfBatch(offset, n);
    assert Touches(offset, n, BlocksAt(offset, n));
    var own, maps := s - Bitmaps(sb), s * Bitmaps(sb);
    assert s == own + maps;
    SubsetSize(maps, Bitmaps(sb));
  }

  // ----- The batches of one call

  /** The disk before the first batch and after each, and the blocks that each batch hands to the log. */
  datatype Trail = Trail(disks: seq<Disk>, costs: seq<set<nat>>)

  /** Where the m-th batch starts. */
  function BatchStart(m: nat): nat {
    if m == 0 then 0 else BatchStart(m - 1) + BATCH
  }

  lemma {:induction false} BatchesInOrder(m: nat, n: nat)
    requires m <= n
    ensures BatchStart(m) <= BatchStart(n)
  {
    if m < n { BatchesInOrder(m, n - 1); }
  }

  function Least(a: nat, b: nat): nat {
    if a < b then a else b
  }

  function Upto(m: nat, done: nat): nat {
    Least(BatchStart(m), done)
  }

  function PutAt(f: seq<u8>, offset: nat, s: seq<u8>): seq<u8> {
    if offset <= |f| then Splice(f, offset, s) else f
  }

  /** File `j` when the first `done` bytes of the job are written. */
  function Content(files: Files, job: Job, done: nat, j: nat): seq<u8>
    requires j < |files| && done <= |job.src|
  {
    if j == job.i then PutAt(files[j], job.offset, job.src[..done]) else files[j]
  }

  ghost predicate FileWritten(sb: Super, d: Disk, files: Files, job: Job, done: nat, j: nat) {
    j < sb.ninodes && j < |files| && done <= |job.src| ==> DiskFile(sb, d, j) == Content(files, job, done, j)
  }

  /** On disk `d` the first `done` bytes of the job are written; the other files are as they were. */
  ghost predicate Written(sb: Super, d: Disk, files: Files, job: Job, done: nat) {
    && job.i < |files| == sb.ninodes && done <= |job.src| && DataApart(sb, d)
    && forall j: nat {:trigger FileWritten(sb, d, files, job, done, j)} :: FileWritten(sb, d, files, job, done, j)
  }

  /** The m-th batch changes only blocks that it logs, and no more than it can afford. */
  ghost predicate BatchOk(sb: Super, job: Job, d: Disk, d': Disk, cost: set<nat>, m: nat) {
    && BatchStart(m) <= |job.src| && Covered(d, d', {}, cost)
    && Affordable(sb, cost, job.offset + BatchStart(m), BatchSize(|job.src|, BatchStart(m)))
  }

  ghost predicate StageAt(sb: Super, files: Files, job: Job, t: Trail, m: nat, done: nat) {
    m < |t.disks| ==> Written(sb, t.disks[m], files, job, Upto(m, done))
  }

  ghost predicate BatchAt(sb: Super, job: Job, t: Trail, m: nat) {
    m < |t.costs| && m + 1 < |t.disks| ==> BatchOk(sb, job, t.disks[m], t.disks[m + 1], t.costs[m], m)
  }

  /** The trail `t` leads from `d0` to `d`: after `m` batches the file holds the first `m` pieces of the job. */
  ghost predicate Batches(sb: Super, files: Files, job: Job, t: Trail, done: nat, d0: Disk, d: Disk) {
    && |t.disks| == |t.costs| + 1 && t.disks[0] == d0 && t.disks[|t.costs|] == d && Written(sb, d, files, job, done)
    && (done > 0 ==> job.offset <= |files[job.i]|)
    && (forall m: nat {:trigger StageAt(sb, files, job, t, m, done)} :: StageAt(sb, files, job, t, m, done))
    && forall m: nat {:trigger BatchAt(sb, job, t, m)} :: BatchAt(sb, job, t, m)
  }

  ghost predicate CachedOk(now: Snap, sb: Super) {
    && |now.dinodes| == sb.ninodes && IsChunks(now.disk, now.dinodes, now.chunks)
       && Synced(sb, now.disk, now.dinodes, {})
    && FilesOk(now.disk, now.dinodes)
  }

  /** What is cached of the files before a batch. */
  lemma BeforeBatch(now: Snap, sb: Super, files: Files, job: Job, k: nat)
    requires CachedOk(now, sb) && Written(sb, now.disk, files, job, k) && (k > 0 ==> job.offset <= |files[job.i]|)
    ensures forall j: nat :: j < sb.ninodes ==> FileOf(now.dinodes, now.chunks, j) == Content(files, job, k, j)
    ensures now.dinodes[job.i].size == |Content(files, job, k, job.i)|
    ensures job.offset + k > now.dinodes[job.i].size <==> job.offset > |files[job.i]|
  {
    DiskIsCached(sb, now.disk, now.dinodes, now.chunks);
    forall j: nat | j < sb.ninodes ensures FileOf(now.dinodes, now.chunks, j) == Content(files, job, k, j) {
      assert FileWritten(sb, now.disk, files, job, k, j)
             && DiskFile(sb, now.disk, j) == FileOf(now.dinodes, now.chunks, j);
    }
    assert FileOk(now.disk, now.dinodes, job.i);
    FilesThere(now.disk, now.dinodes, now.chunks, job.i);
    NoBytes(files[job.i], job.offset, job.src, k);
  }

  lemma NoBytes(f: seq<u8>, offset: nat, src: seq<u8>, k: nat)
    requires k <= |src| && (k > 0 ==> offset <= |f|)
    ensures k == 0 ==> PutAt(f, offset, src[..k]) == f
    ensures offset + k > |PutAt(f, offset, src[..k])| <==> offset > |f|
  {
  }

  ghost predicate IsPiece(src: seq<u8>, k: nat, s: seq<u8>) {
    k + |s| <= |src| && s == src[k..k + |s|]
  }

  /** A batch of which `w` bytes are written. */
  lemma AfterBatch(was: Snap, now: Snap, sb: Super, owner: Owner, files: Files, job: Job, k: nat, s: seq<u8>, w: nat)
    requires CachedOk(now, sb) && Owned(sb, now.disk, now.dinodes, owner, {}) && job.i < |files| == sb.ninodes
    requires IsPiece(job.src, k, s) && w <= |s| && job.offset <= |files[job.i]|
    requires forall j: nat :: j < sb.ninodes ==> FileOf(was.dinodes, was.chunks, j) == Content(files, job, k, j)
    requires job.offset + k <= |FileOf(was.dinodes, was.chunks, job.i)|
    requires FileOf(now.dinodes, now.chunks, job.i) ==
             Splice(FileOf(was.dinodes, was.chunks, job.i), job.offset + k, s[..w])
    requires forall j: nat :: j != job.i ==> FileOf(now.dinodes, now.chunks, j) == FileOf(was.dinodes, was.chunks, j)
    ensures Written(sb, now.disk, files, job, k + w)
  {
    DiskIsCached(sb, now.disk, now.dinodes, now.chunks);
    OwnedIsApart(sb, now.disk, now.dinodes, owner);
    assert s[..w] == job.src[k..k + w];
    forall j: nat {:trigger FileWritten(sb, now.disk, files, job, k + w, j)}
      ensures FileWritten(sb, now.disk, files, job, k + w, j) {
      if j < sb.ninodes {
        assert DiskFile(sb, now.disk, j) == FileOf(now.dinodes, now.chunks, j);
        assert FileOf(was.dinodes, was.chunks, j) == Content(files, job, k, j);
        MoreContent(files, job, k, w, j, FileOf(was.dinodes, was.chunks, j), FileOf(now.dinodes, now.chunks, j));
      }
    }
  }

  lemma MoreContent(files: Files, job: Job, k: nat, w: nat, j: nat, f: seq<u8>, g: seq<u8>)
    requires job.i < |files| && j < |files| && k + w <= |job.src| && f == Content(files, job, k, j)
    requires j == job.i ==> job.offset <= |files[j]| && job.offset + k <= |f|
                            && g == Splice(f, job.offset + k, job.src[k..k + w])
    requires j != job.i ==> g == f
    ensures g == Content(files, job, k + w, j)
  {
    if j == job.i { PutAtTwice(files[j], job.offset, job.src, k, w); }
  }

  lemma PutAtTwice(f: seq<u8>, offset: nat, src: seq<u8>, done: nat, w: nat)
    requires done + w <= |src| && offset <= |f|
    ensures offset + done <= |PutAt(f, offset, src[..done])|
    ensures Splice(PutAt(f, offset, src[..done]), offset + done, src[done..done + w]) ==
            PutAt(f, offset, src[..done + w])
  {
    SpliceTwice(f, offset, src[..done], src[done..done + w]);
    assert src[..done] + src[done..done + w] == src[..done + w];
  }

  lemma WrittenNothing(sb: Super, d: Disk, files: Files, job: Job)
    requires job.i < |files| && DataApart(sb, d) && HoldsFiles(sb, d, files)
    ensures Written(sb, d, files, job, 0)
  {
    forall j: nat ensures FileWritten(sb, d, files, job, 0, j) {
      assert HoldsFile(sb, d, files, j);
      if j < |files| { NoBytes(files[j], job.offset, job.src, 0); }
    }
  }

  lemma BatchesStart(now: Snap, sb: Super, owner: Owner, files: Files, job: Job)
    requires CachedOk(now, sb) && Owned(sb, now.disk, now.dinodes, owner, {}) && job.i < sb.ninodes
    requires HoldsFiles(sb, now.disk, files)
    ensures Batches(sb, files, job, Trail([now.disk], []), 0, now.disk, now.disk)
  {
    DiskIsCached(sb, now.disk, now.dinodes, now.chunks);
    OwnedIsApart(sb, now.disk, now.dinodes, owner);
    WrittenNothing(sb, now.disk, files, job);
  }

  lemma StagesGoOn(sb: Super, files: Files, job: Job, t: Trail, k: nat, t': Trail, w: nat, n: nat)
    requires n == |t.costs| && |t.disks| == n + 1 && k == BatchStart(n) && w <= BATCH && k + w <= |job.src|
    requires forall m: nat {:trigger StageAt(sb, files, job, t, m, k)} :: StageAt(sb, files, job, t, m, k)
    requires t.disks < t'.disks && |t'.disks| == n + 2 && Written(sb, t'.disks[n + 1], files, job, k + w)
    ensures forall m: nat {:trigger StageAt(sb, files, job, t', m, k + w)} :: StageAt(sb, files, job, t', m, k + w)
  {
    forall m: nat {:trigger StageAt(sb, files, job, t', m, k + w)} ensures StageAt(sb, files, job, t', m, k + w) {
      assert StageAt(sb, files, job, t, m, k);
      if m <= n {
        BatchesInOrder(m, n);
        assert t'.disks[m] == t.disks[m] && Upto(m, k) == Upto(m, k + w);
      } else if m == n + 1 {
        assert Upto(m, k + w) == k + w;
      }
    }
  }

  /** After a batch that has written `w` bytes. */
  lemma BatchesGoOn(sb: Super, files: Files, job: Job, t: Trail, k: nat, d0: Disk, d: Disk, d': Disk, cost: set<nat>,
                    w: nat)
      returns (t': Trail)
    requires Batches(sb, files, job, t, k, d0, d) && k == BatchStart(|t.costs|) < |job.src|
             && w <= BatchSize(|job.src|, k)
    requires Covered(d, d', {}, cost) && Affordable(sb, cost, job.offset + k, BatchSize(|job.src|, k))
    requires job.offset <= |files[job.i]| && k + w <= |job.src| && Written(sb, d', files, job, k + w)
    ensures t' == Trail(t.disks + [d'], t.costs + [cost]) && Batches(sb, files, job, t', k + w, d0, d')
  {
    var n := |t.costs|;
    t' := Trail(t.disks + [d'], t.costs + [cost]);
    StagesGoOn(sb, files, job, t, k, t', w, n);
    forall m: nat {:trigger BatchAt(sb, job, t', m)} ensures BatchAt(sb, job, t', m) {
      assert BatchAt(sb, job, t, m);
      if m == n { assert BatchOk(sb, job, d, d', cost, n); }
    }
  }

  lemma WholeBatch(k: nat, count: nat)
    requires k < count
    ensures k + BatchSize(count, k) == Least(k + BATCH, count)
  {
  }

  lemma GoodEnoughIf(offset: nat, n: nat, good: nat)
    requires n <= BATCH
    ensures good >= 4 ==> good >= BlocksAt(offset, n)
  {
    BlocksOfBatch(offset, n);
  }

  // ----- When a call is refused

  /** The batch after `k` of `count` bytes at `offset` of a file of `size` bytes is refused. */
  predicate RefusesBatch(offset: nat, count: nat, size: nat, k: nat) {
    offset > size || (k <= count && offset + k + BatchSize(count, k) > MAX_FILE_SIZE)
  }

  /** Some batch is refused. */
  predicate Refuses(offset: nat, count: nat, size: nat) {
    count > 0 && (offset > size || offset + count > MAX_FILE_SIZE)
  }

  /** Some batch is refused, but not the first. */
  predicate RefusesLate(offset: nat, count: nat, size: nat) {
    offset <= size && offset + BATCH <= MAX_FILE_SIZE < offset + count
  }

  /** All bytes can be copied from the user. */
  ghost predicate AllGood(good: nat -> nat) {
    forall n :: good(n) >= 4
  }

  /** What a call on a writable file returns. If all bytes can be copied, it is refused exactly if some batch is, and
    * then bytes have been written exactly if that is not the first batch. */
  ghost predicate Outcome(r: WriteResult, job: Job, files: Files, done: nat, allGood: bool) {
    job.i < |files| &&
    var count, size := |job.src|, |files[job.i]|;
    && (r.Wrote? ==> r.m == done <= count && (allGood ==> done == count))
    && (r.Refused? ==> RefusesBatch(job.offset, count, size, done) && Refuses(job.offset, count, size))
    && (r.Refused? && done > 0 ==> RefusesLate(job.offset, count, size))
    && (allGood && !r.DiskFull? ==>
          && (r.Refused? <==> Refuses(job.offset, count, size))
          && (r.Refused? && done > 0 <==> RefusesLate(job.offset, count, size)))
  }

  /** No batch up to here is refused. */
  ghost predicate AllowedUpto(offset: nat, size: nat, k: nat, done: nat) {
    k > 0 ==> k >= BATCH && !Refuses(offset, done, size)
  }

  lemma RefusedAt(offset: nat, count: nat, size: nat, k: nat)
    requires k < count && AllowedUpto(offset, size, k, k)
    ensures RefusesBatch(offset, count, size, k) ==>
              Refuses(offset, count, size) && (k > 0 <==> RefusesLate(offset, count, size))
    ensures !RefusesBatch(offset, count, size, k) ==> AllowedUpto(offset, size, k + BATCH, Least(k + BATCH, count))
  {
    WholeBatch(k, count);
  }

  /** An open regular file. */
  class OpenFile {
    const fs: FileSystem
    const i: nat
    const writable: bool
    var offset: nat

    ghost predicate Valid()
      reads this, fs
    {
      fs.Valid() && i < fs.sb.ninodes && fs.dinodes[i].itype != 0
    }

    constructor (fs: FileSystem, i: nat, writable: bool)
      requires fs.Valid() && i < fs.sb.ninodes && fs.dinodes[i].itype != 0
      ensures Valid() && this.fs == fs && this.i == i && this.writable == writable && offset == 0
    {
      this.fs, this.i, this.writable, offset := fs, i, writable, 0;
    }

    /** One batch of `fwrite`, between `begin_op` and `end_op`: `s` are the bytes after the first `k`. */
    method WriteBatch(s: seq<u8>, good: nat, ghost job: Job, ghost k: nat, ghost files: Files) returns (r: WriteResult)
      requires Valid() && job.i == i && IsPiece(job.src, k, s) && |s| <= BATCH && offset == job.offset + k
      requires Written(fs.sb, fs.disk, files, job, k) && (k > 0 ==> job.offset <= |files[i]|)
      modifies this`offset, fs
      ensures r.DiskFull? ==> TakenBelow(fs.sb, fs.disk, fs.sb.size) && fs.Inv() && fs.limbo == {}
      ensures OthersSame(old(fs.dinodes), fs.dinodes, i)
      ensures !r.DiskFull? ==> Valid()
      ensures r.Refused? <==> job.offset > |files[i]| || old(offset) + |s| > MAX_FILE_SIZE
      ensures r.Refused? ==> fs.disk == old(fs.disk) && offset == old(offset)
      ensures r.Wrote? ==> offset == old(offset) + r.m && r.m <= |s| && (good >= 4 ==> r.m == |s|)
      ensures r.Wrote? ==> Written(fs.sb, fs.disk, files, job, k + r.m)
      ensures r.Wrote? ==>
                Covered(old(fs.disk), fs.disk, {}, fs.logged) && Affordable(fs.sb, fs.logged, old(offset), |s|)
    {
      fs.logged := {};
      ghost var was := fs.Now();
      BeforeBatch(was, fs.sb, files, job, k);
      GoodEnoughIf(offset, |s|, good);
      r := fs.TryIwrite(i, s, offset, good);
      if !r.Wrote? { return; }
      AfterBatch(was, fs.Now(), fs.sb, fs.owner, files, job, k, s, r.m);
      offset := offset + r.m;
      assert fs.logged - {} == fs.logged;
    }

    /** One round of the loop of `fwrite`, after `k` bytes. */
    method WriteRound(src: seq<u8>, k: nat, good: nat, ghost job: Job, ghost files: Files, ghost t: Trail,
                      ghost d0: Disk)
        returns (r: WriteResult, ghost t': Trail, ghost done: nat)
      requires Valid() && job == Job(i, job.offset, src) && k == BatchStart(|t.costs|) < |src|
               && offset == job.offset + k
      requires Batches(fs.sb, files, job, t, k, d0, fs.disk)
      modifies this`offset, fs
      ensures r.DiskFull? ==> TakenBelow(fs.sb, fs.disk, fs.sb.size) && fs.Inv() && fs.limbo == {} && t' == t
      ensures OthersSame(old(fs.dinodes), fs.dinodes, i)
      ensures !r.DiskFull? ==>
                Valid() && Batches(fs.sb, files, job, t', done, d0, fs.disk) && offset == job.offset + done
      ensures done == (if r.Wrote? then k + r.m else k) && (r.Wrote? ==> r.m <= BatchSize(|src|, k))
      ensures r.Wrote? && good >= 4 ==> r.m == BatchSize(|src|, k)
      ensures |t'.costs| == if r.Wrote? then |t.costs| + 1 else |t.costs|
      ensures r.Refused? <==> RefusesBatch(job.offset, |src|, |files[i]|, k)
    {
      ghost var d := fs.disk;
      r := WriteBatch(src[k..k + BatchSize(|src|, k)], good, job, k, files);
      t', done := t, k;
      if r.Wrote? {
        t' := BatchesGoOn(fs.sb, files, job, t, k, d0, d, fs.disk, fs.logged, r.m);
        done := k + r.m;
      }
    }

    /** The loop of `fwrite`. */
    method WriteAll(src: seq<u8>, good: nat -> nat, ghost files: Files)
        returns (r: WriteResult, ghost t: Trail, ghost done: nat)
      requires Valid() && HoldsFiles(fs.sb, fs.disk, files)
      modifies this`offset, fs
      ensures r.DiskFull? ==> TakenBelow(fs.sb, fs.disk, fs.sb.size) && fs.Inv() && fs.limbo == {}
      ensures OthersSame(old(fs.dinodes), fs.dinodes, i)
      ensures !r.DiskFull? ==> Valid() && offset == old(offset) + done
      ensures |t.disks| == |t.costs| + 1 && (!r.DiskFull? ==> t.disks[|t.costs|] == fs.disk)
      ensures Batches(fs.sb, files, Job(i, old(offset), src), t, done, old(fs.disk), t.disks[|t.costs|])
      ensures r.Refused? ==> done == BatchStart(|t.costs|) < |src|
      ensures Outcome(r, Job(i, old(offset), src), files, done, AllGood(good))
    {
      ghost var job, d0 := Job(i, offset, src), fs.disk;
      t, done := Trail([d0], []), 0;
      BatchesStart(fs.Now(), fs.sb, fs.owner, files, job);
      var k: nat, n: nat := 0, 0;
      while k < |src|
        invariant Valid() && Batches(fs.sb, files, job, t, done, d0, fs.disk)
        invariant n == |t.costs| && k == BatchStart(n) && done == Least(k, |src|) && offset == job.offset + done
        invariant AllowedUpto(job.offset, |files[i]|, k, done) && OthersSame(old(fs.dinodes), fs.dinodes, i)
        decreases |src| - k
      {
        WholeBatch(k, |src|);
        RefusedAt(job.offset, |src|, |files[i]|, k);
        r, t, done := WriteRound(src, k, good(n), job, files, t, d0);
        if !r.Wrote? { return; }
        if r.m != BatchSize(|src|, k) { return Wrote(k + r.m), t, done; }
        k, n := k + BATCH, n + 1;
      }
      r := Wrote(|src|);
    }

    /** Writes `src` at the file position, batch by batch; in batch `n` the first `good(n)` blocks can be copied from
      * the user. It fails when a batch is refused, even if others have been written. `t` and `done` say what has
      * been, also before the panic of a full disk. */
    method Fwrite(src: seq<u8>, good: nat -> nat, ghost files: Files)
        returns (r: WriteResult, ghost t: Trail, ghost done: nat)
      requires Valid() && HoldsFiles(fs.sb, fs.disk, files)
      modifies this`offset, fs
      ensures r.DiskFull? ==> TakenBelow(fs.sb, fs.disk, fs.sb.size) && fs.Inv() && fs.limbo == {}
      ensures OthersSame(old(fs.dinodes), fs.dinodes, i)
      ensures !r.DiskFull? ==> Valid() && offset == old(offset) + done
      ensures |t.disks| == |t.costs| + 1 && (!r.DiskFull? ==> t.disks[|t.costs|] == fs.disk)
      ensures Batches(fs.sb, files, Job(i, old(offset), src), t, done, old(fs.disk), t.disks[|t.costs|])
      ensures r.Wrote? ==> writable && r.m == done
      ensures !writable ==> r.Refused? && done == 0 && fs.disk == old(fs.disk)
      ensures r.Refused? && writable ==> done == BatchStart(|t.costs|) < |src|
      ensures writable ==> Outcome(r, Job(i, old(offset), src), files, done, AllGood(good))
    {
      if !writable {
        t, done := Trail([fs.disk], []), 0;
        BatchesStart(fs.Now(), fs.sb, fs.owner, files, Job(i, offset, src));
        return Refused, t, done;
      }
      r, t, done := WriteAll(src, good, files);
    }
  }
}
