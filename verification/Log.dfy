/** `kernel/src/fs/log.rs`: the log object, whose methods are proved to make the writes that LogSpec describes. */
module Log {
  import opened Common
  import opened LogSpec
  import opened BlockCache

  /** `commit` makes exactly these writes, and the disk ends up with every logged block in place and an empty log. */
  ghost predicate Commits(a: Area, h: Header, logged: seq<Block>, d0: Disk, t0: seq<Write>, d: Disk, t: seq<Write>)
    requires a.start < |d0| && HeaderFits(h) && |logged| == h.len <= LOGSIZE - 1
  {
    && WritesFit(d0, CommitWrites(a, d0, h, logged)) && d == Apply(d0, CommitWrites(a, d0, h, logged))
    && t == t0 + CommitWrites(a, d0, h, logged) && Finished(a, d, h, logged, d0)
  }

  ghost predicate Recovers(a: Area, d0: Disk, t0: seq<Write>, d: Disk, t: seq<Write>) {
    DiskOk(a, d0) && d == Recovered(a, d0) && t == t0 + RecoverWrites(a, d0)
  }

  /** The disk when the header has been written. */
  ghost function Headed(a: Area, d: Disk, h: Header, logged: seq<Block>): Disk
    requires a.start + |logged| < |d| && HeaderFits(h)
  {
    var d1 := Apply(d, CopyWrites(a, logged));
    d1[a.start := PutHeader(d1[a.start], h)]
  }

  ghost predicate CanCommit(a: Area, held: Held, d: Disk, h: Header, logged: seq<Block>) {
    && HeldOk(held, d) && |held| < NBUF && (forall b :: b in held ==> !InArea(a, b)) && HeaderOk(a, |d|, h)
    && DiskOk(a, d) && HeaderOf(d[a.start]).len == 0 && |logged| == h.len && InCache(held, h, logged)
  }

  /** `InstallTrans` may run once the header is on disk, and it copies what `WriteLog` has put into the log. */
  lemma CommitStart(a: Area, held: Held, d: Disk, h: Header, logged: seq<Block>)
    requires CanCommit(a, held, d, h, logged)
    ensures Copies(a, Headed(a, d, h, logged), h.len) == logged
    ensures CanInstall(false, a, held, Headed(a, d, h, logged), h)
  {
    HeaderCommits(a, d, h, logged);
  }

  /** The disk after the four parts of `Commit`. */
  lemma DiskOfCommit(a: Area, d: Disk, h: Header, logged: seq<Block>, d3: Disk)
    requires DiskOk(a, d) && HeaderOf(d[a.start]).len == 0 && HeaderOk(a, |d|, h) && |logged| == h.len
    requires WritesFit(d, InstallWrites(h, logged)) && d3 == Apply(Headed(a, d, h, logged), InstallWrites(h, logged))
    ensures WritesFit(d, CommitWrites(a, d, h, logged))
    ensures d3[a.start := PutEmpty(d3[a.start])] == Apply(d, CommitWrites(a, d, h, logged))
    ensures d3[a.start] == PutHeader(d[a.start], h) == PutHeader(Apply(d, CopyWrites(a, logged))[a.start], h)
  {
    HeaderCommits(a, d, h, logged);
    CommitInTwo(a, d, h, logged);
    InstallThenEmpty(a, Headed(a, d, h, logged), h, logged, d3);
  }

  /** The four parts of `Commit`, one after the other. */
  lemma CommitEnd(a: Area, held: Held, d: Disk, t: seq<Write>, h: Header, logged: seq<Block>, held3: Held, d3: Disk,
                  t3: seq<Write>)
    requires CanCommit(a, held, d, h, logged)
    requires var t2 :=
             (t + CopyWrites(a, logged)) + [Write(a.start, PutHeader(Apply(d, CopyWrites(a, logged))[a.start], h))];
             Installed(false, held, Headed(a, d, h, logged), t2, h, InstallWrites(h, logged), h.len, held3, d3, t3)
    ensures held3 == UnpinAll(held, Blocks(h, h.len)) && a.start !in held3 && CanGet(held3, a.start)
    ensures Commits(a, h, logged, d, t, d3[a.start := PutEmpty(d3[a.start])],
                    t3 + [Write(a.start, PutEmpty(d3[a.start]))])
  {
    var ins := InstallWrites(h, logged);
    assert ins[..h.len] == ins;
    UnpinSize(held, Blocks(h, h.len));
    assert InArea(a, a.start);
    DiskOfCommit(a, d, h, logged, d3);
    CommitInstalls(a, d, h, logged);
    TraceOfCommit(a, d, t, h, logged);
  }

  lemma TraceOfCommit(a: Area, d: Disk, t: seq<Write>, h: Header, logged: seq<Block>)
    requires a.start < |d| && HeaderFits(h) && |logged| == h.len <= LOGSIZE - 1
    ensures var head, ins := PutHeader(d[a.start], h), InstallWrites(h, logged);
            t + CommitWrites(a, d, h, logged)
            == (((t + CopyWrites(a, logged)) + [Write(a.start, head)]) + ins) + [Write(a.start, PutEmpty(head))]
  {
  }

  lemma InstallThenEmpty(a: Area, d: Disk, h: Header, logged: seq<Block>, d3: Disk)
    requires HeaderOk(a, |d|, h) && |logged| == h.len
    requires WritesFit(d, InstallWrites(h, logged)) && d3 == Apply(d, InstallWrites(h, logged))
    ensures d3[a.start] == d[a.start]
    ensures d3[a.start := PutEmpty(d3[a.start])] ==
            Apply(d, InstallWrites(h, logged) + [Write(a.start, PutEmpty(d[a.start]))])
  {
    assert logged[..h.len] == logged;
    CopyStays(a, d, h, logged, h.len, a.start);
    ApplyAppend(d, InstallWrites(h, logged), Write(a.start, PutEmpty(d[a.start])));
  }

  lemma RecoverEnd(a: Area, d: Disk, t: seq<Write>, h: Header, held3: Held, d3: Disk, t3: seq<Write>)
    requires DiskOk(a, d) && h == HeaderOf(d[a.start]) && h.len > 0
    requires Installed(true, map[], d, t, h, InstallWrites(h, Copies(a, d, h.len)), h.len, held3, d3, t3)
    ensures held3 == map[]
    ensures Recovers(a, d, t, d3[a.start := PutEmpty(d3[a.start])], t3 + [Write(a.start, PutEmpty(d3[a.start]))])
  {
    var ins := InstallWrites(h, Copies(a, d, h.len));
    assert ins[..h.len] == ins;
    InstallThenEmpty(a, d, h, Copies(a, d, h.len), d3);
  }

  lemma RecoverEmpties(a: Area, d: Disk, t: seq<Write>)
    requires DiskOk(a, d)
    ensures DiskOk(a, Recovered(a, d)) && HeaderOf(Recovered(a, d)[a.start]).len == 0
    ensures HeaderOf(d[a.start]).len == 0 ==> Recovers(a, d, t, d, t)
  {
    var h := HeaderOf(d[a.start]);
    if h.len > 0 { FinishCommitted(a, d, h, Copies(a, d, h.len), d); }
  }

  /** One reference fewer on each block of `bs`. */
  ghost function UnpinAll(held: Held, bs: set<nat>): Held {
    map b | b in held && (b in bs ==> held[b].refs > 1) ::
      if b in bs then Slot(held[b].data, held[b].refs - 1) else held[b]
  }

  ghost function Blocks(h: Header, n: nat): set<nat>
    requires n <= |h.blocknos|
  {
    set i | 0 <= i < n :: h.blocknos[i]
  }

  ghost function Contents(held: Held, disk: Disk, h: Header): (s: seq<Block>)
    requires h.len <= |h.blocknos| && forall i :: 0 <= i < h.len ==> h.blocknos[i] < |disk|
    ensures |s| == h.len
    ensures forall i :: 0 <= i < h.len ==> s[i] == View(held, disk, h.blocknos[i])
  {
    seq(h.len, i requires 0 <= i < h.len => View(held, disk, h.blocknos[i]))
  }

  lemma UnpinSize(held: Held, bs: set<nat>)
    ensures |UnpinAll(held, bs)| <= |held|
  {
    SubsetSize(UnpinAll(held, bs).Keys, held.Keys);
  }

  lemma UnpinOneMore(held: Held, bs: set<nat>, b: nat)
    requires b in held && b !in bs && held[b].refs > 0
    ensures b in UnpinAll(held, bs) && UnpinAll(held, bs)[b] == held[b]
    ensures UnpinAll(held, bs + {b}) == Drop(UnpinAll(held, bs), b)
  {
  }

  /** How `write` ends; the first two are panics. */
  datatype LogWrite = NoRoom | NoOperation | Absorbed | Added

  predicate LogFull(a: Area, n: nat) {
    n >= LOGSIZE || n >= a.size
  }

  /** `write` on the buffer of block `b`: it panics if the log is full or no operation is active, drops the handle if
    * the block is in the header, and otherwise enters the block and keeps the handle as its pin. */
  ghost predicate WriteDoes(a: Area, outstanding: nat, h: Header, held: Held, b: nat, r: LogWrite, h': Header,
                            held': Held)
    requires h.len <= |h.blocknos| && h'.len <= |h'.blocknos| && b in held && held[b].refs > 0
  {
    && (r.NoRoom? <==> LogFull(a, h.len + 1) || (outstanding >= 1 && !Logged(h, b) && LogFull(a, h.len + 2)))
    && (r.NoOperation? <==> !LogFull(a, h.len + 1) && outstanding < 1)
    && (r.NoRoom? || r.NoOperation? ==> h' == h && held' == held)
    && (r.Absorbed? ==> Logged(h, b) && h' == h && held' == Drop(held, b))
    && (r.Added? ==>
          !Logged(h, b) && held' == held && h.len < |h.blocknos| && h' == Header(h.len + 1, h.blocknos[h.len := b]))
  }

  /** `begin_op` lets an operation in. */
  predicate Room(committing: bool, outstanding: nat, len: nat) {
    !committing && 1 + len + (outstanding + 1) * MAXOPBLOCKS <= LOGSIZE
  }

  /** The `end_op` that leaves `outstanding` operations commits what is logged. */
  predicate EndCommits(committing: bool, outstanding: nat, len: nat) {
    !committing && outstanding == 0 && len > 0
  }

  class Log {
    var area: Area
    var outstanding: nat
    var committing: bool
    var lh: Header
    var held: Held
    var disk: Disk
    /** Every block write so far, in order. */
    ghost var trace: seq<Write>

    ghost predicate Valid()
      reads this
    {
      HeldOk(held, disk) && DiskOk(area, disk) && HeaderOk(area, |disk|, lh)
    }

    /** Nobody but the log itself uses the blocks of the log area. */
    ghost predicate AreaUnused()
      reads this
    {
      forall b :: b in held ==> !InArea(area, b)
    }

    /** The log of a disk: `init` recovers what a crash has left in it. */
    constructor (area: Area, disk: Disk)
      requires DiskOk(area, disk)
      ensures Consistent() && held == map[] && lh.len == 0 && outstanding == 0 && !committing
      ensures this.area == area && Recovers(area, disk, [], this.disk, trace)
    {
      this.area, this.disk, lh := area, disk, HeaderOf(disk[area.start]);
      outstanding, committing, held, trace := 0, false, map[], [];
      new;
      Recover();
    }

    method Bread(b: nat)
      requires HeldOk(held, disk) && b < |disk| && CanGet(held, b)
      modifies `held
      ensures HeldOk(held, disk) && held == Get(old(held), disk, b)
    {
      held := Get(held, disk, b);
    }

    method Bwrite(b: nat)
      requires HeldOk(held, disk) && b in held
      modifies `disk, `trace
      ensures HeldOk(held, disk) && disk == old(disk)[b := held[b].data]
      ensures trace == old(trace) + [Write(b, held[b].data)]
    {
      disk := disk[b := held[b].data];
      trace := trace + [Write(b, held[b].data)];
    }

    /** The buffer may lose its last reference only when the disk holds what it holds. */
    method Brelse(b: nat)
      requires HeldOk(held, disk) && b in held && (held[b].refs == 1 ==> held[b].data == disk[b])
      modifies `held
      ensures HeldOk(held, disk) && held == Drop(old(held), b)
    {
      held := Drop(held, b);
    }

    method ReadHead()
      requires HeldOk(held, disk) && area.start < |disk| && CanGet(held, area.start)
      modifies `held, `lh
      ensures held == old(held) && lh == HeaderOf(View(held, disk, area.start))
    {
      Bread(area.start);
      lh := HeaderOf(held[area.start].data);
      GetThenDrop(old(held), disk, area.start);
      Brelse(area.start);
    }

    method WriteHead()
      requires HeldOk(held, disk) && area.start < |disk| && HeaderFits(lh)
      requires area.start !in held && CanGet(held, area.start)
      modifies `held, `disk, `trace
      ensures held == old(held)
      ensures disk == old(disk)[area.start := PutHeader(old(disk)[area.start], lh)]
      ensures trace == old(trace) + [Write(area.start, PutHeader(old(disk)[area.start], lh))]
    {
      Bread(area.start);
      held := SetData(held, area.start, PutHeader(held[area.start].data, lh));
      Bwrite(area.start);
      Brelse(area.start);
      assert held == old(held);
    }

    method EmptyHead()
      requires HeldOk(held, disk) && area.start < |disk|
      requires area.start !in held && CanGet(held, area.start)
      modifies `held, `disk, `trace, `lh
      ensures held == old(held) && lh == old(lh).(len := 0)
      ensures disk == old(disk)[area.start := PutEmpty(old(disk)[area.start])]
      ensures trace == old(trace) + [Write(area.start, PutEmpty(old(disk)[area.start]))]
    {
      lh := lh.(len := 0);
      Bread(area.start);
      held := SetData(held, area.start, PutEmpty(held[area.start].data));
      Bwrite(area.start);
      Brelse(area.start);
      assert held == old(held);
    }

    /** The contents of the logged blocks. */
    ghost function Modified(): seq<Block>
      requires Valid()
      reads this
    {
      Contents(held, disk, lh)
    }

    /** Every logged block is in the cache, kept there by its pin. */
    ghost predicate Pinned()
      requires Valid()
      reads this
    {
      forall i :: 0 <= i < lh.len ==> lh.blocknos[i] in held
    }

    method WriteLog(ghost logged: seq<Block>)
      requires CanCommit(area, held, disk, lh, logged)
      modifies `held, `disk, `trace
      ensures HeldOk(held, disk) && held == old(held)
      ensures disk == Apply(old(disk), CopyWrites(area, logged)) && trace == old(trace) + CopyWrites(area, logged)
    {
      ghost var d0, t0 := disk, trace;
      var i := 0;
      assert CopyWrites(area, logged[..0]) == [];
      while i < lh.len
        invariant 0 <= i <= lh.len && HeldOk(held, disk) && held == old(held)
        invariant WritesFit(d0, CopyWrites(area, logged[..i]))
        invariant disk == Apply(d0, CopyWrites(area, logged[..i]))
        invariant trace == t0 + CopyWrites(area, logged[..i])
      {
        CopyOne(area.start + 1 + i, lh.blocknos[i]);
        CopyOneMore(area, d0, logged, i);
        i := i + 1;
      }
      assert logged[..lh.len] == logged;
    }

    /** Copies the logged blocks from the log to their places; after a commit it also takes their pins away. */
    method InstallTrans(recovering: bool)
      requires CanInstall(recovering, area, held, disk, lh)
      modifies `held, `disk, `trace
      ensures var ws := InstallWrites(lh, Copies(area, old(disk), lh.len));
              Installed(recovering, old(held), old(disk), old(trace), lh, ws, lh.len, held, disk, trace)
    {
      ghost var ws, held0, d0, t0 := InstallWrites(lh, Copies(area, disk, lh.len)), held, disk, trace;
      NothingInstalled(recovering, area, held, disk, trace, lh, ws);
      var i := 0;
      while i < lh.len
        invariant 0 <= i <= lh.len && Installed(recovering, held0, d0, t0, lh, ws, i, held, disk, trace)
      {
        InstallNext(recovering, i, held0, d0, t0, ws);
        i := i + 1;
      }
    }

    method InstallNext(recovering: bool, i: nat, ghost held0: Held, ghost d0: Disk, ghost t0: seq<Write>,
                       ghost ws: seq<Write>)
      requires CanInstall(recovering, area, held0, d0, lh) && ws == InstallWrites(lh, Copies(area, d0, lh.len))
      requires i < lh.len && Installed(recovering, held0, d0, t0, lh, ws, i, held, disk, trace)
      modifies `held, `disk, `trace
      ensures Installed(recovering, held0, d0, t0, lh, ws, i + 1, held, disk, trace)
    {
      Round(recovering, area, held0, d0, t0, lh, ws, i, held, disk, trace);
      InstallOne(recovering, area.start + 1 + i, lh.blocknos[i]);
    }

    /** One round of `InstallTrans`. */
    method InstallOne(recovering: bool, source: nat, b: nat)
      requires Ready(recovering, held, disk, source, b)
      modifies `held, `disk, `trace
      ensures HeldOk(held, disk) && held == HeldThen(recovering, old(held), b)
      ensures disk == old(disk)[b := old(disk)[source]]
      ensures trace == old(trace) + [Write(b, old(disk)[source])]
    {
      if !recovering { RoundOfInstall(held, disk, source, b); }
      Bread(source);
      Bread(b);
      held := SetData(held, b, held[source].data);
      Bwrite(b);
      if !recovering { Unpin(b); }
      Brelse(source);
      Brelse(b);
      assert recovering ==> held == map[];
    }

    /** What holds between operations: the log on disk is empty, and each block in the header is in the cache. */
    ghost predicate Consistent()
      reads this
    {
      Valid() && HeaderOf(disk[area.start]).len == 0 && Pinned() && AreaUnused() && |held| < NBUF
    }

    method Recover()
      requires DiskOk(area, disk) && held == map[]
      modifies `held, `disk, `trace, `lh
      ensures held == map[] && lh.len == 0 && Consistent()
      ensures Recovers(area, old(disk), old(trace), disk, trace)
    {
      ghost var d0, t0 := disk, trace;
      RecoverEmpties(area, d0, t0);
      ReadHead();
      if lh.len > 0 {
        InstallTrans(true);
        RecoverEnd(area, d0, t0, lh, held, disk, trace);
        EmptyHead();
      }
    }

    /** Panics unless the committing flag is set. */
    method Commit() returns (panicked: bool)
      requires Consistent()
      modifies `held, `disk, `trace, `lh
      ensures panicked == !committing
      ensures panicked || old(lh).len == 0 ==>
                held == old(held) && disk == old(disk) && trace == old(trace) && lh == old(lh)
      ensures !panicked && old(lh).len > 0 ==>
                && Commits(area, old(lh), old(Modified()), old(disk), old(trace), disk, trace)
                && held == UnpinAll(old(held), Blocks(old(lh), old(lh).len)) && lh == old(lh).(len := 0)
    {
      if !committing { return true; }
      panicked := false;
      if lh.len > 0 { CommitLogged(Modified()); }
    }

    /** The four parts of a commit: copy, write the header, install, empty the header. */
    method CommitLogged(ghost logged: seq<Block>)
      requires CanCommit(area, held, disk, lh, logged)
      modifies `held, `disk, `trace, `lh
      ensures Commits(area, old(lh), logged, old(disk), old(trace), disk, trace)
      ensures held == UnpinAll(old(held), Blocks(old(lh), old(lh).len)) && lh == old(lh).(len := 0)
    {
      ghost var h0, d0, t0 := held, disk, trace;
      CommitStart(area, h0, d0, lh, logged);
      WriteLog(logged);
      WriteHead();
      InstallTrans(false);
      CommitEnd(area, h0, d0, t0, lh, logged, held, disk, trace);
      EmptyHead();
    }

    /** One attempt of `begin_op`; the caller sleeps and tries again until it is admitted. */
    method TryBegin() returns (admitted: bool)
      modifies `outstanding
      ensures admitted == Room(committing, old(outstanding), lh.len)
      ensures outstanding == if admitted then old(outstanding) + 1 else old(outstanding)
    {
      if committing || 1 + lh.len + (outstanding + 1) * MAXOPBLOCKS > LOGSIZE {
        return false;
      }
      outstanding := outstanding + 1;
      admitted := true;
    }

    /** `write`: enters the caller's buffer of block `b` in the header and pins it, unless it is there already.
      * The caller's handle is used up; on a new block it turns into the pin. */
    method WriteBuf(b: nat) returns (r: LogWrite)
      requires Valid() && Pinned() && b < |disk| <= 0x1_0000_0000 && !InArea(area, b) && b in held
      requires Logged(lh, b) ==> held[b].refs > 1
      modifies `held, `lh
      ensures Valid() && Pinned()
      ensures WriteDoes(area, outstanding, old(lh), old(held), b, r, lh, held)
    {
      if LogFull(area, lh.len + 1) { return NoRoom; }
      if outstanding < 1 { return NoOperation; }
      var i := 0;
      while i < lh.len
        invariant 0 <= i <= lh.len && forall j :: 0 <= j < i ==> lh.blocknos[j] != b
      {
        if lh.blocknos[i] == b {
          Brelse(b);
          return Absorbed;
        }
        i := i + 1;
      }
      if LogFull(area, lh.len + 2) { return NoRoom; }
      held := Pin(held, b);
      lh := Header(lh.len + 1, lh.blocknos[lh.len := b]);
      Brelse(b);
      assert held == old(held);
      return Added;
    }

    /** `end_op` of the only process in sight: the last operation commits. Panics while somebody else commits. */
    method EndOp() returns (panicked: bool)
      requires Consistent() && outstanding > 0
      modifies this
      ensures area == old(area) && outstanding == old(outstanding) - 1
      ensures panicked == old(committing)
      ensures !EndCommits(old(committing), outstanding, old(lh).len) ==>
                held == old(held) && disk == old(disk) && trace == old(trace) && lh == old(lh)
                    && committing == old(committing)
      ensures EndCommits(old(committing), outstanding, old(lh).len) ==>
                && Commits(area, old(lh), old(Modified()), old(disk), old(trace), disk, trace)
                && held == UnpinAll(old(held), Blocks(old(lh), old(lh).len)) && lh == old(lh).(len := 0) && !committing
    {
      outstanding := outstanding - 1;
      if committing { return true; }
      panicked := false;
      if outstanding == 0 {
        committing := true;
        var failed := Commit();
        committing := false;
      }
    }

    /** Panics on a buffer whose only reference is the handle of the caller. */
    method Unpin(b: nat)
      requires HeldOk(held, disk) && b in held && held[b].refs > 1
      modifies `held
      ensures HeldOk(held, disk) && held == Drop(old(held), b)
    {
      held := Drop(held, b);
    }

    /** One round of `WriteLog`: block `to` of the log receives the contents of `b`. */
    method CopyOne(target: nat, b: nat)
      requires HeldOk(held, disk) && target < |disk| && target !in held && b in held && CanGet(held, target)
      modifies `held, `disk, `trace
      ensures held == old(held) && HeldOk(held, disk)
      ensures disk == old(disk)[target := held[b].data]
      ensures trace == old(trace) + [Write(target, held[b].data)]
    {
      Bread(target);
      Bread(b);
      held := SetData(held, target, held[b].data);
      Bwrite(target);
      Brelse(b);
      Brelse(target);
      assert held == old(held);
    }
  }

  /** The writes of `InstallTrans` never touch the log. */
  lemma {:induction false} CopyStays(a: Area, d: Disk, h: Header, logged: seq<Block>, n: nat, b: nat)
    requires HeaderOk(a, |d|, h) && |logged| == h.len && n <= h.len && InArea(a, b)
    ensures WritesFit(d, InstallWrites(h, logged[..n])) && Apply(d, InstallWrites(h, logged[..n]))[b] == d[b]
  {
    if n > 0 {
      CopyStays(a, d, h, logged, n - 1, b);
      InstallOneMore(d, h, logged, n - 1);
    }
  }

  /** Each logged block is in the cache and holds what its copy in the log holds. */
  ghost predicate InCache(held: Held, h: Header, logged: seq<Block>)
    requires |logged| == h.len <= |h.blocknos|
  {
    forall i :: 0 <= i < h.len ==> h.blocknos[i] in held && held[h.blocknos[i]].data == logged[i]
  }

  /** The buffers in use after `n` rounds of `InstallTrans`. */
  ghost function HeldAfter(recovering: bool, held: Held, h: Header, n: nat): Held
    requires n <= |h.blocknos|
  {
    if recovering then map[] else UnpinAll(held, Blocks(h, n))
  }

  lemma NextHeld(recovering: bool, held: Held, h: Header, logged: seq<Block>, n: nat)
    requires n < h.len <= |h.blocknos| && forall i, j :: 0 <= i < j < h.len ==> h.blocknos[i] != h.blocknos[j]
    requires |logged| == h.len && (if recovering then held == map[] else InCache(held, h, logged))
    requires forall b :: b in held ==> held[b].refs > 0
    ensures |HeldAfter(recovering, held, h, n)| <= |held|
    ensures HeldAfter(recovering, held, h, n).Keys <= held.Keys
    ensures !recovering ==>
              var b := h.blocknos[n];
              && b in HeldAfter(recovering, held, h, n) && HeldAfter(recovering, held, h, n)[b].data == logged[n]
              && HeldAfter(recovering, held, h, n)[b].refs > 0
              && HeldAfter(recovering, held, h, n + 1) == Drop(HeldAfter(recovering, held, h, n), b)
  {
    OneMoreBlock(h, n);
    UnpinSize(held, Blocks(h, n));
    if !recovering { UnpinOneMore(held, Blocks(h, n), h.blocknos[n]); }
  }

  /** What `InstallTrans` starts from. */
  ghost predicate CanInstall(recovering: bool, a: Area, held: Held, disk: Disk, h: Header) {
    && HeldOk(held, disk) && |held| < NBUF && (forall b :: b in held ==> !InArea(a, b)) && HeaderOk(a, |disk|, h)
    && if recovering then held == map[] else InCache(held, h, Copies(a, disk, h.len))
  }

  /** Buffers, disk and trace after the first `n` of the writes `ws`. */
  ghost predicate Installed(recovering: bool, held0: Held, d0: Disk, t0: seq<Write>, h: Header, ws: seq<Write>, n: nat,
                            held: Held, disk: Disk, trace: seq<Write>)
    requires n <= |ws| <= |h.blocknos|
  {
    && HeldOk(held, disk) && held == HeldAfter(recovering, held0, h, n)
    && WritesFit(d0, ws) && disk == Apply(d0, ws[..n]) && trace == t0 + ws[..n]
  }

  lemma NothingInstalled(recovering: bool, a: Area, held: Held, disk: Disk, t: seq<Write>, h: Header, ws: seq<Write>)
    requires CanInstall(recovering, a, held, disk, h) && ws == InstallWrites(h, Copies(a, disk, h.len))
    ensures Installed(recovering, held, disk, t, h, ws, 0, held, disk, t)
  {
    assert held == HeldAfter(recovering, held, h, 0);
  }

  /** One more block can be copied, from `source` in the log to its place `b`. */
  ghost predicate Ready(recovering: bool, held: Held, disk: Disk, source: nat, b: nat) {
    && HeldOk(held, disk) && source < |disk| && b < |disk| && source != b
    && source !in held && CanGet(held, source)
    && if recovering then held == map[] else b in held && held[b].data == disk[source]
  }

  lemma Round(recovering: bool, a: Area, held0: Held, d0: Disk, t0: seq<Write>, h: Header, ws: seq<Write>, n: nat,
              held: Held, disk: Disk, trace: seq<Write>)
    requires CanInstall(recovering, a, held0, d0, h) && n < h.len && ws == InstallWrites(h, Copies(a, d0, h.len))
    requires Installed(recovering, held0, d0, t0, h, ws, n, held, disk, trace)
    ensures Ready(recovering, held, disk, a.start + 1 + n, h.blocknos[n])
    ensures Installed(recovering, held0, d0, t0, h, ws, n + 1, HeldThen(recovering, held, h.blocknos[n]),
                      disk[h.blocknos[n] := disk[a.start + 1 + n]],
                          trace + [Write(h.blocknos[n], disk[a.start + 1 + n])])
  {
    var logged := Copies(a, d0, h.len);
    assert ws[..n] == InstallWrites(h, logged[..n]) && ws[n] == Write(h.blocknos[n], logged[n]);
    CopyStays(a, d0, h, logged, n, a.start + 1 + n);
    NextHeld(recovering, held0, h, logged, n);
    assert InArea(a, a.start + 1 + n) && !InArea(a, h.blocknos[n]);
    OneMoreWrite(d0, t0, ws, n);
  }

  lemma OneMoreWrite(d: Disk, t: seq<Write>, ws: seq<Write>, n: nat)
    requires WritesFit(d, ws) && n < |ws|
    ensures Apply(d, ws[..n + 1]) == Apply(d, ws[..n])[ws[n].b := ws[n].data]
    ensures t + ws[..n + 1] == (t + ws[..n]) + [ws[n]]
  {
    assert ws[..n + 1] == ws[..n] + [ws[n]];
    ApplyAppend(d, ws[..n], ws[n]);
  }

  /** A round of recovery leaves no buffer in use; a round of a commit takes a pin away. */
  ghost function HeldThen(recovering: bool, held: Held, b: nat): Held
    requires !recovering ==> b in held && held[b].refs > 0
  {
    if recovering then map[] else Drop(held, b)
  }

  /** Two handles, one of them on a pinned block: when they are gone, so is the pin. */
  lemma RoundOfInstall(held: Held, disk: Disk, source: nat, b: nat)
    requires HeldOk(held, disk) && source < |disk| && source !in held && b in held && held[b].data == disk[source]
    ensures var h := Get(Get(held, disk, source), disk, b);
            && b in h && source in h && h[b].refs > 1 && h[source] == Slot(disk[source], 1)
            && SetData(h, b, disk[source]) == h
            && Drop(Drop(Drop(h, b), source), b) == Drop(held, b)
  {
    var h := Get(Get(held, disk, source), disk, b);
    assert Drop(h, b) == Get(held, disk, source);
    assert Drop(Get(held, disk, source), source) == held;
  }

  lemma OneMoreBlock(h: Header, n: nat)
    requires n < h.len <= |h.blocknos| && forall i, j :: 0 <= i < j < h.len ==> h.blocknos[i] != h.blocknos[j]
    ensures Blocks(h, n + 1) == Blocks(h, n) + {h.blocknos[n]} && h.blocknos[n] !in Blocks(h, n)
  {
    assert h.blocknos[n] in Blocks(h, n + 1);
  }
}
