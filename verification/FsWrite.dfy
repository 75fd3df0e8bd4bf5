/** The loop of `try_iwrite`: what is written so far, and how many blocks it hands to the log. */
module FsWrite {
  import opened Common
  import opened Words
  import opened LogSpec
  import opened FsSpec
  import opened FsOwner
  import opened FsFile
  import opened FsInode

  /** Outcome of a write: refused, so many bytes written, or the panic of a full disk. */
  datatype WriteResult = Refused | Wrote(m: nat) | DiskFull

  /** Outcome of one round: no block is free, `copy_in` has failed, or the block is written. */
  datatype RoundResult = NoSpace | Fault | Done

  /** The file system at one moment. */
  datatype Snap = Snap(disk: Disk, dinodes: Inodes, chunks: Chunks, logged: set<nat>)

  /** A write of `src` at `offset` of file `i`. */
  datatype Job = Job(i: nat, offset: nat, src: seq<u8>)

  /** `done` bytes are written, in `n` blocks; the next go to place `at` of block `k`. */
  datatype Cursor = Cursor(k: nat, at: nat, done: nat, n: nat)

  /** Bytes that the next round writes. */
  function Width(count: nat, p: Cursor): nat
    requires p.at <= BSIZE && p.done <= count
  {
    if BSIZE - p.at < count - p.done then BSIZE - p.at else count - p.done
  }

  function Advance(p: Cursor, w: nat, r: RoundResult): Cursor {
    if r.Done? then Cursor(p.k + 1, 0, p.done + w, p.n + 1) else p
  }

  /** Blocks that `count` bytes at `offset` touch. */
  function BlocksAt(offset: nat, count: nat): nat {
    if count == 0 then 0 else (offset + count - 1) / BSIZE - offset / BSIZE + 1
  }

  ghost predicate JobOk(was: Snap, job: Job) {
    && job.i < |was.dinodes| && FilesOk(was.disk, was.dinodes)
    && job.offset <= was.dinodes[job.i].size && job.offset + |job.src| <= MAX_FILE_SIZE
  }

  // ----- The bytes

  /** The cursor stands where `done` of `count` bytes at `offset` end. */
  ghost predicate PlaceOk(offset: nat, count: nat, p: Cursor) {
    && p.done <= count && p.k == offset / BSIZE + p.n && p.at < BSIZE
    && (if p.n == 0 then p.done == 0 && p.at == offset % BSIZE else p.at == 0)
    && (if p.done < count then p.k * BSIZE + p.at == offset + p.done else offset + p.done <= p.k * BSIZE + p.at)
    && p.n == BlocksAt(offset, p.done)
  }

  /** The blocks behind the cursor have been allocated. */
  ghost predicate Behind(now: Snap, job: Job, k: nat) {
    forall l {:trigger SlotOf(job.i, l)} :: job.offset / BSIZE <= l < k ==>
      Get(now.disk, now.dinodes, SlotOf(job.i, l)) != 0
  }

  ghost predicate Writing(was: Snap, now: Snap, job: Job, p: Cursor)
    requires job.i < |was.dinodes|
  {
    && OnlyAddrs(was.dinodes, now.dinodes, job.i) && MappedKept(was.disk, was.dinodes, now.disk, now.dinodes)
    && PlaceOk(job.offset, |job.src|, p) && Behind(now, job, p.k)
    && Spliced(was.chunks, now.chunks, job.i, job.offset, job.src[..p.done])
  }

  lemma WriteStarts(was: Snap, job: Job)
    requires JobOk(was, job) && HasFile(was.chunks, job.i)
    ensures Writing(was, was, job, Cursor(job.offset / BSIZE, job.offset % BSIZE, 0, 0))
  {
    SplicedNothing(was.chunks, job.i, job.offset);
    assert job.src[..0] == [] && was.dinodes[job.i := was.dinodes[job.i]] == was.dinodes;
    InBlock(job.offset, 0);
  }

  lemma PlaceBounds(was: Snap, now: Snap, job: Job, p: Cursor)
    requires JobOk(was, job) && PlaceOk(job.offset, |job.src|, p) && p.done < |job.src|
    ensures p.k < MAXBLOCKS && 0 < Width(|job.src|, p) && p.at + Width(|job.src|, p) <= BSIZE
            && p.n < BlocksAt(job.offset, |job.src|)
    ensures p.n == 0 && job.offset % BSIZE != 0 ==> Get(was.disk, was.dinodes, SlotOf(job.i, p.k)) != 0
  {
    assert FileOk(was.disk, was.dinodes, job.i);
    InBlock(job.offset, p.k);
    MoreBlocks(job.offset, p.done, |job.src|, p.k, p.at, p.n);
    if p.n == 0 && job.offset % BSIZE != 0 { assert p.k * BSIZE < was.dinodes[job.i].size; }
  }

  lemma MoreBlocks(offset: nat, done: nat, count: nat, k: nat, at: nat, n: nat)
    requires done < count && at < BSIZE && k == offset / BSIZE + n && k * BSIZE + at == offset + done
             && n == BlocksAt(offset, done)
    ensures n < BlocksAt(offset, count)
  {
    assert (offset + done) / BSIZE == k;
    assert (offset + count - 1) / BSIZE >= k;
  }

  lemma BlocksGrow(offset: nat, done: nat, k: nat, at: nat, n: nat, w: nat)
    requires at < BSIZE && 0 < w <= BSIZE - at && k == offset / BSIZE + n && k * BSIZE + at == offset + done
    ensures n + 1 == BlocksAt(offset, done + w)
    ensures at + w == BSIZE ==> (k + 1) * BSIZE == offset + done + w
    ensures offset + done + w <= (k + 1) * BSIZE
  {
    assert (offset + done + w - 1) / BSIZE == k;
  }

  lemma PlaceAdvances(offset: nat, count: nat, p: Cursor)
    requires PlaceOk(offset, count, p) && p.done < count
    ensures PlaceOk(offset, count, Advance(p, Width(count, p), Done))
  {
    BlocksGrow(offset, p.done, p.k, p.at, p.n, Width(count, p));
  }

  /** What one round does to the bytes of the file. */
  ghost predicate RoundWrites(mid: Snap, now: Snap, job: Job, p: Cursor, r: RoundResult)
    requires job.i < |mid.dinodes| && PlaceOk(job.offset, |job.src|, p)
  {
    && OnlyAddrs(mid.dinodes, now.dinodes, job.i) && MappedKept(mid.disk, mid.dinodes, now.disk, now.dinodes)
    && !r.NoSpace? && Get(now.disk, now.dinodes, SlotOf(job.i, p.k)) != 0
    && var w := Width(|job.src|, p);
       if r.Done? then Spliced(mid.chunks, now.chunks, job.i, p.k * BSIZE + p.at, job.src[p.done..p.done + w])
       else now.chunks == mid.chunks
  }

  lemma BehindGoesOn(mid: Snap, now: Snap, job: Job, k: nat)
    requires Behind(mid, job, k) && MappedKept(mid.disk, mid.dinodes, now.disk, now.dinodes)
    requires job.i < |mid.dinodes| && k < MAXBLOCKS && Get(now.disk, now.dinodes, SlotOf(job.i, k)) != 0
    ensures Behind(now, job, k) && Behind(now, job, k + 1)
  {
    forall l | job.offset / BSIZE <= l < k ensures Get(now.disk, now.dinodes, SlotOf(job.i, l)) != 0 {
      assert Get(mid.disk, mid.dinodes, SlotOf(job.i, l)) != 0 && SlotIn(|mid.dinodes|, SlotOf(job.i, l));
    }
  }

  lemma SpliceGoesOn(c0: Chunks, c1: Chunks, c2: Chunks, job: Job, done: nat, w: nat, place: nat)
    requires done + w <= |job.src| && Spliced(c0, c1, job.i, job.offset, job.src[..done])
    requires place == job.offset + done && Spliced(c1, c2, job.i, place, job.src[done..done + w])
    ensures Spliced(c0, c2, job.i, job.offset, job.src[..done + w])
  {
    SplicedMore(c0, c1, c2, job.i, job.offset, job.src[..done], job.src[done..done + w]);
    assert job.src[..done] + job.src[done..done + w] == job.src[..done + w];
  }

  lemma WriteGoesOn(was: Snap, mid: Snap, now: Snap, job: Job, p: Cursor, r: RoundResult)
    requires job.i < |was.dinodes| == |mid.dinodes| && Writing(was, mid, job, p) && p.done < |job.src|
             && p.k < MAXBLOCKS
    requires RoundWrites(mid, now, job, p, r)
    ensures Writing(was, now, job, Advance(p, Width(|job.src|, p), r))
  {
    MappedTwice(was.disk, was.dinodes, mid.disk, mid.dinodes, now.disk, now.dinodes);
    BehindGoesOn(mid, now, job, p.k);
    if r.Done? {
      PlaceAdvances(job.offset, |job.src|, p);
      SpliceGoesOn(was.chunks, mid.chunks, now.chunks, job, p.done, Width(|job.src|, p), p.k * BSIZE + p.at);
    }
  }

  lemma EndBlock(offset: nat, done: nat, k: nat, at: nat, l: nat)
    requires at < BSIZE && offset + done <= k * BSIZE + at && offset <= l * BSIZE < offset + done
    requires at == 0 || offset + done <= k * BSIZE
    ensures offset / BSIZE <= l < k
  {
  }

  /** The write ends where the cursor stands: no hole has appeared. */
  lemma WriteEnds(was: Snap, now: Snap, job: Job, p: Cursor)
    requires JobOk(was, job) && Writing(was, now, job, p)
    ensures var dinodes' := WithSize(now.dinodes, job.i, job.offset + p.done);
            FilesOk(now.disk, dinodes') && Grew(was.dinodes, dinodes', job.i, job.offset + p.done)
    ensures IsWord(job.offset + p.done)
  {
    var dinodes, dinodes' := now.dinodes, WithSize(now.dinodes, job.i, job.offset + p.done);
    forall j | 0 <= j < |dinodes'| ensures FileOk(now.disk, dinodes', j) {
      assert FileOk(was.disk, was.dinodes, j);
      forall l: nat | l * BSIZE < dinodes'[j].size ensures Get(now.disk, dinodes', SlotOf(j, l)) != 0 {
        assert Get(now.disk, dinodes', SlotOf(j, l)) == Get(now.disk, dinodes, SlotOf(j, l));
        if l * BSIZE < was.dinodes[j].size {
          assert Get(was.disk, was.dinodes, SlotOf(j, l)) != 0 && SlotIn(|was.dinodes|, SlotOf(j, l));
        } else {
          InBlock(job.offset, l);
          EndBlock(job.offset, p.done, p.k, p.at, l);
        }
      }
    }
  }

  // ----- What a write costs the log

  /** Blocks logged: data blocks, bitmap blocks, and the indirect block; `newData` data blocks were allocated. */
  datatype Cost = Cost(data: set<nat>, bms: set<nat>, ind: set<nat>, newData: nat, newInd: nat)

  /** The indirect block, if block `k` of the file hangs on it. */
  ghost function IndirectOf(dinodes: Inodes, i: nat, k: nat): set<nat> {
    if k < NDIRECT then {} else {Addr(dinodes, i, NDIRECT)}
  }

  ghost predicate BitmapBlocks(sb: Super, bms: set<nat>) {
    forall c :: c in bms ==> exists b :: 0 <= b < sb.size && c == BitmapBlock(sb, b)
  }

  /** How many bitmap blocks allocating block `k` of a file may change. */
  function NewBitmaps(disk: Disk, dinodes: Inodes, i: nat, k: nat): nat {
    if Get(disk, dinodes, SlotOf(i, k)) != 0 then 0 else if k >= NDIRECT && Addr(dinodes, i, NDIRECT) == 0 then 2 else 1
  }

  /** What one round hands to the log: the data block `b`, the bitmap blocks `bms`, and the indirect block. */
  ghost predicate RoundLogs(sb: Super, mid: Snap, now: Snap, i: nat, k: nat, b: nat, bms: set<nat>) {
    && now.logged <= mid.logged + bms + {b} + IndirectOf(now.dinodes, i, k) && BitmapBlocks(sb, bms)
    && |bms| <= NewBitmaps(mid.disk, mid.dinodes, i, k) && Covered(mid.disk, now.disk, mid.logged, now.logged)
  }

  function Unaligned(offset: nat): nat {
    if offset % BSIZE != 0 then 1 else 0
  }

  /** The cost of `n` blocks; a write that starts inside a block finds its first block allocated. */
  ghost predicate CostOk(sb: Super, c: Cost, n: nat, was: Snap, now: Snap, job: Job) {
    var ib := Addr(now.dinodes, job.i, NDIRECT);
    && now.logged <= was.logged + c.data + c.bms + c.ind
    && |c.data| <= n && BitmapBlocks(sb, c.bms) && |c.bms| <= c.newData + c.newInd
    && c.newInd <= 1 && (c.newInd == 1 ==> ib != 0)
    && (c.ind == {} || (c.ind == {ib} && ib != 0))
    && c.newData <= n && (n > 0 ==> c.newData + Unaligned(job.offset) <= n)
    && Covered(was.disk, now.disk, was.logged, now.logged)
  }

  lemma IndirectFound(mid: Snap, now: Snap, i: nat, k: nat)
    requires MappedKept(mid.disk, mid.dinodes, now.disk, now.dinodes) && i < |mid.dinodes| && k < MAXBLOCKS
    requires Get(now.disk, now.dinodes, SlotOf(i, k)) != 0
    ensures Addr(mid.dinodes, i, NDIRECT) != 0 ==> Addr(now.dinodes, i, NDIRECT) == Addr(mid.dinodes, i, NDIRECT)
    ensures k >= NDIRECT ==> Addr(now.dinodes, i, NDIRECT) != 0
  {
    var s := Indirect(i);
    assert Get(mid.disk, mid.dinodes, s) != 0 ==> Get(now.disk, now.dinodes, s) == Get(mid.disk, mid.dinodes, s);
  }

  lemma BitmapsJoin(sb: Super, s: set<nat>, t: set<nat>)
    requires BitmapBlocks(sb, s) && BitmapBlocks(sb, t)
    ensures BitmapBlocks(sb, s + t) && |s + t| <= |s| + |t|
  {
  }

  lemma LoggedMore(l0: set<nat>, l1: set<nat>, l2: set<nat>, c: Cost, b: nat, bms: set<nat>, ind: set<nat>,
                   ind': set<nat>)
    requires l1 <= l0 + c.data + c.bms + c.ind && l2 <= l1 + bms + {b} + ind && c.ind <= ind' && ind <= ind'
    ensures l2 <= l0 + (c.data + {b}) + (c.bms + bms) + ind'
  {
  }

  lemma CostMore(sb: Super, c: Cost, was: Snap, mid: Snap, now: Snap, job: Job, p: Cursor, b: nat, bms: set<nat>)
      returns (c': Cost)
    requires CostOk(sb, c, p.n, was, mid, job) && RoundLogs(sb, mid, now, job.i, p.k, b, bms)
    requires p.n == 0 && Unaligned(job.offset) == 1 ==> Get(mid.disk, mid.dinodes, SlotOf(job.i, p.k)) != 0
    requires Addr(mid.dinodes, job.i, NDIRECT) != 0 ==>
               Addr(now.dinodes, job.i, NDIRECT) == Addr(mid.dinodes, job.i, NDIRECT)
    requires p.k >= NDIRECT ==> Addr(now.dinodes, job.i, NDIRECT) != 0
    ensures CostOk(sb, c', p.n + 1, was, now, job)
  {
    var newData := if Get(mid.disk, mid.dinodes, SlotOf(job.i, p.k)) != 0 then 0 else 1;
    var newInd := if newData == 1 && p.k >= NDIRECT && Addr(mid.dinodes, job.i, NDIRECT) == 0 then 1 else 0;
    var ind := IndirectOf(now.dinodes, job.i, p.k);
    c' := Cost(c.data + {b}, c.bms + bms, if c.ind == {} then ind else c.ind, c.newData + newData, c.newInd + newInd);
    BitmapsJoin(sb, c.bms, bms);
    CoveredTwice(was.disk, mid.disk, now.disk, was.logged, mid.logged, now.logged);
    LoggedMore(was.logged, mid.logged, now.logged, c, b, bms, ind, c'.ind);
  }

  /** The file system after the bytes of one round have gone into block `b`. */
  function AfterPut(now: Snap, job: Job, p: Cursor, b: nat): Snap
    requires PlaceOk(job.offset, |job.src|, p) && b < |now.disk|
  {
    var x := PutBytes(now.disk[b], p.at, job.src[p.done..p.done + Width(|job.src|, p)]);
    Snap(now.disk[b := x], now.dinodes, now.chunks[(job.i, p.k) := x], now.logged + {b})
  }

  lemma PutWrites(mid: Snap, now: Snap, job: Job, p: Cursor, b: nat)
    requires PlaceOk(job.offset, |job.src|, p) && b < |now.disk| && HasFile(now.chunks, job.i) && p.k < MAXBLOCKS
    requires now.chunks[(job.i, p.k)] == now.disk[b] && job.i < |mid.dinodes|
             && OnlyAddrs(mid.dinodes, now.dinodes, job.i)
    requires var end := AfterPut(now, job, p, b);
             && MappedKept(mid.disk, mid.dinodes, end.disk, now.dinodes) && now.chunks == mid.chunks
             && Get(end.disk, now.dinodes, SlotOf(job.i, p.k)) != 0
    ensures RoundWrites(mid, AfterPut(now, job, p, b), job, p, Done)
  {
    SpliceBlock(now.chunks, job.i, p.k, p.at, job.src[p.done..p.done + Width(|job.src|, p)]);
  }

  lemma PutLogs(sb: Super, mid: Snap, now: Snap, end: Snap, i: nat, k: nat, b: nat, bms: set<nat>)
    requires RoundLogs(sb, mid, now, i, k, b, bms) && b < |now.disk| && end.dinodes == now.dinodes
    requires end.logged == now.logged + {b} && |end.disk| == |now.disk| && end.disk == now.disk[b := end.disk[b]]
    ensures RoundLogs(sb, mid, end, i, k, b, bms)
  {
  }

  /** One round, from the block that `map_blockno` has found. */
  lemma PutRound(sb: Super, mid: Snap, now: Snap, owner: Owner, dirty: set<nat>, job: Job, p: Cursor, b: nat,
                 bms: set<nat>)
    requires FsInv(sb, now.disk, now.dinodes, owner, {}, now.chunks, dirty) && job.i < |now.dinodes| && p.k < MAXBLOCKS
    requires PlaceOk(job.offset, |job.src|, p) && job.i < |mid.dinodes| && OnlyAddrs(mid.dinodes, now.dinodes, job.i)
    requires MappedKept(mid.disk, mid.dinodes, now.disk, now.dinodes) && now.chunks == mid.chunks
    requires b == Get(now.disk, now.dinodes, SlotOf(job.i, p.k)) != 0 && RoundLogs(sb, mid, now, job.i, p.k, b, bms)
    ensures b < |now.disk|
    ensures var end := AfterPut(now, job, p, b);
            && FsInv(sb, end.disk, now.dinodes, owner, {}, end.chunks, dirty)
            && RoundWrites(mid, end, job, p, Done) && RoundLogs(sb, mid, end, job.i, p.k, b, bms)
  {
    SlotInRange(sb, now.disk, now.dinodes, owner, {}, SlotOf(job.i, p.k));
    var x := PutBytes(now.disk[b], p.at, job.src[p.done..p.done + Width(|job.src|, p)]);
    PutOk(sb, now.disk, now.dinodes, owner, {}, now.chunks, dirty, job.i, p.k, x);
    MappedTwice(mid.disk, mid.dinodes, now.disk, now.dinodes, now.disk[b := x], now.dinodes);
    PutWrites(mid, now, job, p, b);
    PutLogs(sb, mid, now, AfterPut(now, job, p, b), job.i, p.k, b, bms);
  }

  /** How many bitmap blocks the disk has. */
  function BitmapCount(sb: Super): nat {
    if sb.size == 0 then 0 else (sb.size - 1) / BPB + 1
  }

  /** A write logs the blocks it touches, the bitmap blocks of those it allocates, the indirect block and the inode:
    * at most two blocks for each block it touches and three more, one less if it starts inside a block. Without the
    * bitmap blocks these are at most the blocks it touches and two. */
  ghost predicate Affordable(sb: Super, s: set<nat>, offset: nat, count: nat) {
    forall blocks: nat {:trigger Touches(offset, count, blocks)} :: Touches(offset, count, blocks) ==>
      && |s| <= 2 * blocks + 3 - (if blocks > 0 then Unaligned(offset) else 0)
      && |s - Bitmaps(sb)| <= blocks + 2
  }

  ghost predicate Touches(offset: nat, count: nat, blocks: nat) {
    blocks == BlocksAt(offset, count)
  }

  /** The bitmap blocks before the n-th. */
  ghost function FirstBitmaps(sb: Super, n: nat): (s: set<nat>)
    ensures |s| <= n
  {
    if n == 0 then {} else FirstBitmaps(sb, n - 1) + {sb.bmapstart + n - 1}
  }

  lemma {:induction false} InFirstBitmaps(sb: Super, n: nat, k: nat)
    requires k < n
    ensures sb.bmapstart + k in FirstBitmaps(sb, n)
  {
    if k < n - 1 { InFirstBitmaps(sb, n - 1, k); }
  }

  /** All bitmap blocks of the disk. */
  ghost function Bitmaps(sb: Super): (s: set<nat>)
    ensures |s| <= BitmapCount(sb)
  {
    FirstBitmaps(sb, BitmapCount(sb))
  }

  lemma AllBitmaps(sb: Super, bms: set<nat>)
    requires BitmapBlocks(sb, bms)
    ensures bms <= Bitmaps(sb)
  {
    forall c | c in bms ensures c in Bitmaps(sb) {
      var b :| 0 <= b < sb.size && c == BitmapBlock(sb, b);
      DivBitmap(b, sb.size);
      InFirstBitmaps(sb, BitmapCount(sb), b / BPB);
    }
  }

  lemma EndOfCost(sb: Super, c: Cost, n: nat, was: Snap, now: Snap, job: Job)
    requires CostOk(sb, c, n, was, now, job) && n <= BlocksAt(job.offset, |job.src|)
    ensures Affordable(sb, now.logged + {InodeBlock(sb, job.i)} - was.logged, job.offset, |job.src|)
  {
    AllBitmaps(sb, c.bms);
    CostInAll(now.logged + {InodeBlock(sb, job.i)} - was.logged, c, InodeBlock(sb, job.i), Bitmaps(sb));
  }

  lemma CostInAll(s: set<nat>, c: Cost, inode: nat, maps: set<nat>)
    requires s <= c.data + c.bms + c.ind + {inode} && c.bms <= maps
    ensures |s| <= |c.data| + |c.bms| + |c.ind| + 1 && |s - maps| <= |c.data| + |c.ind| + 1
  {
    SubsetSize(s, c.data + c.bms + c.ind + {inode});
    SubsetSize(s - maps, c.data + c.ind + {inode});
  }

  // ----- Both together

  /** In the midst of a write; a block more is paid for than is written if `copy_in` has failed. */
  ghost predicate Midway(sb: Super, was: Snap, now: Snap, job: Job, p: Cursor, c: Cost, r: RoundResult)
    requires job.i < |was.dinodes|
  {
    && Writing(was, now, job, p) && CostOk(sb, c, if r.Fault? then p.n + 1 else p.n, was, now, job)
    && (r.Fault? ==> p.n < BlocksAt(job.offset, |job.src|))
    && (p.n == 0 && !r.Fault? ==> now.disk == was.disk && now.dinodes == was.dinodes)
  }

  /** What a round needs. */
  lemma MidwayBounds(sb: Super, was: Snap, mid: Snap, job: Job, p: Cursor, c: Cost)
    requires JobOk(was, job) && Midway(sb, was, mid, job, p, c, Done) && p.done < |job.src|
    ensures PlaceOk(job.offset, |job.src|, p) && |mid.dinodes| == |was.dinodes|
    ensures p.k < MAXBLOCKS && 0 < Width(|job.src|, p) && p.at + Width(|job.src|, p) <= BSIZE
            && p.n < BlocksAt(job.offset, |job.src|)
  {
    PlaceBounds(was, mid, job, p);
  }

  lemma MidwayGoesOn(sb: Super, was: Snap, mid: Snap, now: Snap, job: Job, p: Cursor, c: Cost, r: RoundResult, b: nat,
                     bms: set<nat>)
      returns (c': Cost)
    requires JobOk(was, job) && Midway(sb, was, mid, job, p, c, Done) && p.done < |job.src|
             && |mid.dinodes| == |was.dinodes|
    requires PlaceOk(job.offset, |job.src|, p) && RoundWrites(mid, now, job, p, r)
             && RoundLogs(sb, mid, now, job.i, p.k, b, bms)
    ensures Midway(sb, was, now, job, Advance(p, Width(|job.src|, p), r), c', r)
  {
    PlaceBounds(was, mid, job, p);
    IndirectFound(mid, now, job.i, p.k);
    c' := CostMore(sb, c, was, mid, now, job, p, b, bms);
    WriteGoesOn(was, mid, now, job, p, r);
  }

  /** The bytes up to `done` are written; the size and the inode on disk are still to be brought up to date. */
  ghost predicate BlocksWritten(sb: Super, was: Snap, now: Snap, job: Job, done: nat)
    requires job.i < |was.dinodes| == |now.dinodes|
  {
    var dinodes' := WithSize(now.dinodes, job.i, job.offset + done);
    && done <= |job.src| && IsWord(job.offset + done)
    && FilesOk(now.disk, dinodes') && Grew(was.dinodes, dinodes', job.i, job.offset + done)
    && Spliced(was.chunks, now.chunks, job.i, job.offset, job.src[..done])
    && Affordable(sb, now.logged + {InodeBlock(sb, job.i)} - was.logged, job.offset, |job.src|)
    && Covered(was.disk, now.disk, was.logged, now.logged)
  }

  lemma MidwayEnds(sb: Super, was: Snap, now: Snap, job: Job, p: Cursor, c: Cost, r: RoundResult)
    requires JobOk(was, job) && Midway(sb, was, now, job, p, c, r) && (r.Fault? || p.done == |job.src|)
    ensures |now.dinodes| == |was.dinodes| && BlocksWritten(sb, was, now, job, p.done)
  {
    WriteEnds(was, now, job, p);
    EndOfCost(sb, c, if r.Fault? then p.n + 1 else p.n, was, now, job);
  }

  /** The whole write: the bytes are in the file, the other files are as they were, and the log can afford it. */
  lemma WriteDone(sb: Super, was: Snap, mid: Snap, now: Snap, i: nat, offset: nat, src: seq<u8>, done: nat)
    requires JobOk(was, Job(i, offset, src)) && |mid.dinodes| == |was.dinodes|
    requires BlocksWritten(sb, was, mid, Job(i, offset, src), done)
    requires now.dinodes == WithSize(mid.dinodes, i, offset + done) && now.chunks == mid.chunks
    requires now.logged == mid.logged + {InodeBlock(sb, i)} && Covered(mid.disk, now.disk, mid.logged, now.logged)
    ensures done <= |src| && Grew(was.dinodes, now.dinodes, i, offset + done)
    ensures |FileOf(was.dinodes, was.chunks, i)| == was.dinodes[i].size
    ensures FileOf(now.dinodes, now.chunks, i) == Splice(FileOf(was.dinodes, was.chunks, i), offset, src[..done])
    ensures forall j: nat :: j != i ==> FileOf(now.dinodes, now.chunks, j) == FileOf(was.dinodes, was.chunks, j)
    ensures Affordable(sb, now.logged - was.logged, offset, |src|)
            && Covered(was.disk, now.disk, was.logged, now.logged)
  {
    FilesAfterWrite(was.disk, was.dinodes, was.chunks, now.dinodes, now.chunks, i, offset, src[..done]);
    CoveredTwice(was.disk, mid.disk, now.disk, was.logged, mid.logged, now.logged);
  }

  // ----- The loop of `iread`

  /** The first `done` of `count` bytes at `offset` of the file `f` are read. */
  ghost predicate Reading(f: seq<u8>, offset: nat, count: nat, p: Cursor, bytes: seq<u8>) {
    && offset + count <= |f| <= MAX_FILE_SIZE && PlaceOk(offset, count, p)
    && bytes == f[offset..offset + p.done]
  }

  lemma ReadStarts(f: seq<u8>, offset: nat, count: nat)
    requires offset + count <= |f| <= MAX_FILE_SIZE
    ensures Reading(f, offset, count, Cursor(offset / BSIZE, offset % BSIZE, 0, 0), [])
  {
    InBlock(offset, 0);
  }

  lemma ReadBounds(f: seq<u8>, offset: nat, count: nat, p: Cursor, bytes: seq<u8>)
    requires Reading(f, offset, count, p, bytes) && p.done < count
    ensures p.k < MAXBLOCKS && p.n < BlocksAt(offset, count) && p.k * BSIZE < |f|
    ensures 0 < Width(count, p) && p.at + Width(count, p) <= BSIZE
  {
    MoreBlocks(offset, p.done, count, p.k, p.at, p.n);
  }

  /** The next bytes of the file lie in one block. */
  lemma NextBytes(disk: Disk, dinodes: Inodes, chunks: Chunks, i: nat, o: nat, k: nat, at: nat, w: nat)
    requires IsChunks(disk, dinodes, chunks) && i < |dinodes| && k < MAXBLOCKS
             && 0 < Get(disk, dinodes, SlotOf(i, k)) < |disk|
    requires at + w <= BSIZE && 0 < w && o == k * BSIZE + at && at < BSIZE && o + w <= |FileOf(dinodes, chunks, i)|
    ensures FileOf(dinodes, chunks, i)[o..o + w] == disk[Get(disk, dinodes, SlotOf(i, k))].bytes[at..at + w]
  {
    FilesThere(disk, dinodes, chunks, i);
    assert chunks[(i, k)] == Chunk(disk, dinodes, i, k);
    BytesAt(chunks, i, |FileOf(dinodes, chunks, i)|, o, k, at, w);
  }

  lemma BytesAt(chunks: Chunks, i: nat, size: nat, o: nat, k: nat, at: nat, w: nat)
    requires HasFile(chunks, i) && k < MAXBLOCKS && at + w <= BSIZE && 0 < w && o == k * BSIZE + at
             && o + w <= size <= MAX_FILE_SIZE
    ensures FileBytes(chunks, i, size)[o..o + w] == chunks[(i, k)].bytes[at..at + w]
  {
    InBlock(o, k);
    assert o % BSIZE == at;
    ReadBlock(chunks, i, size, o, w);
  }

  lemma ReadGoesOn(disk: Disk, dinodes: Inodes, chunks: Chunks, i: nat, offset: nat, count: nat, p: Cursor,
                   bytes: seq<u8>)
    requires IsChunks(disk, dinodes, chunks) && i < |dinodes| && p.k < MAXBLOCKS
             && 0 < Get(disk, dinodes, SlotOf(i, p.k)) < |disk|
    requires Reading(FileOf(dinodes, chunks, i), offset, count, p, bytes) && p.done < count
    ensures p.at + Width(count, p) <= BSIZE
    ensures var b := Get(disk, dinodes, SlotOf(i, p.k));
            Reading(FileOf(dinodes, chunks, i), offset, count, Advance(p, Width(count, p), Done),
                    bytes + disk[b].bytes[p.at..p.at + Width(count, p)])
  {
    var f, w, o := FileOf(dinodes, chunks, i), Width(count, p), offset + p.done;
    var more := disk[Get(disk, dinodes, SlotOf(i, p.k))].bytes[p.at..p.at + w];
    NextBytes(disk, dinodes, chunks, i, o, p.k, p.at, w);
    ReadMore(f, offset, count, p, bytes, w, more);
  }

  lemma ReadMore(f: seq<u8>, offset: nat, count: nat, p: Cursor, bytes: seq<u8>, w: nat, more: seq<u8>)
    requires Reading(f, offset, count, p, bytes) && p.done < count && w == Width(count, p)
    requires more == f[offset + p.done..offset + p.done + w]
    ensures Reading(f, offset, count, Advance(p, w, Done), bytes + more)
  {
    PlaceAdvances(offset, count, p);
    SlicesJoin(f, offset, offset + p.done, offset + p.done + w);
  }

  lemma SlicesJoin(f: seq<u8>, a: nat, b: nat, c: nat)
    requires a <= b <= c <= |f|
    ensures f[a..b] + f[b..c] == f[a..c]
  {
  }

  lemma FewerBlocks(offset: nat, count: nat, more: nat)
    requires count <= more
    ensures BlocksAt(offset, count) <= BlocksAt(offset, more)
  {
  }
}
