/** Group commit over all interleavings: any number of processes run file system operations against one log.
  * A step is one critical section of `begin_op`, `write` or `end_op`, one use of the buffer cache,
  * or one block write of the process that commits. */
module LogProtocol {
  import opened Words
  import opened LogSpec
  import opened BlockCache

  /** Operation `op` has put `data` into block `b`. */
  datatype Update = Update(op: nat, b: nat, data: Block)

  /** An operation between `begin_op` and `end_op`; `added` counts the blocks it was first to enter in the header. */
  datatype Op = Op(id: nat, added: nat)

  /** Where the commit stands; `committing` is set in all phases but the first. */
  datatype Phase = Idle | Copying(done: nat) | Installing(done: nat) | Emptied

  datatype Panic = NoPanic | NoRoom | NoBuffer | EndWhileCommitting | UnpinMismatch

  datatype State = State(
    area: Area, disk: Disk,
    ops: seq<Op>, phase: Phase, h: Header,
    held: Held,               // referenced buffers
    handles: map<nat, nat>,   // handles on each block
    logged: seq<Block>,       // contents copied to the log by the commit under way
    pending: seq<Update>,     // updates since the last commit point
    history: seq<seq<Update>>,// updates of each committed group
    durable: Disk,            // what a crash would leave outside the log
    epoch: map<nat, nat>,     // number of groups committed when an operation began
    panic: Panic)

  function HandlesOf(s: State, b: nat): nat {
    if b in s.handles then s.handles[b] else 0
  }

  function AddHandle(s: State, b: nat): map<nat, nat> {
    s.handles[b := HandlesOf(s, b) + 1]
  }

  function DropHandle(s: State, b: nat): map<nat, nat>
    requires HandlesOf(s, b) > 0
  {
    s.handles[b := HandlesOf(s, b) - 1]
  }

  predicate IsHome(s: State, b: nat) {
    b < |s.disk| && !InArea(s.area, b)
  }

  /** The block of the log that holds the i-th copy. */
  function CopyAt(a: Area, i: nat): nat {
    a.start + 1 + i
  }

  predicate Full(s: State, n: nat) {
    n >= LOGSIZE || n >= s.area.size
  }

  function ApplyUpdates(d: Disk, us: seq<Update>): (e: Disk)
    ensures |e| == |d|
    decreases |us|
  {
    if us == [] then d
    else
      var e, u := ApplyUpdates(d, us[..|us| - 1]), us[|us| - 1];
      if u.b < |d| then e[u.b := u.data] else e
  }

  function Replay(d: Disk, groups: seq<seq<Update>>): (e: Disk)
    ensures |e| == |d|
    decreases |groups|
  {
    if groups == [] then d
    else ApplyUpdates(Replay(d, groups[..|groups| - 1]), groups[|groups| - 1])
  }

  /** What the file system sees: the committed groups and the pending updates. */
  function Logical(s: State): Disk {
    ApplyUpdates(s.durable, s.pending)
  }

  // ----- Steps

  datatype Step =
    | Begin(id: nat)
    | GetBuf(b: nat)
    | Release(b: nat)
    | WriteBuf(i: nat, b: nat, data: Block)
    | End(i: nat)
    | CopyRound | WriteHead | InstallRound | EmptyHead | Finish

  predicate Admits(s: State) {
    s.phase.Idle? && 1 + s.h.len + (|s.ops| + 1) * MAXOPBLOCKS <= LOGSIZE
  }

  ghost predicate Enabled(s: State, limit: nat, step: Step) {
    && s.panic.NoPanic? && s.h.len <= |s.h.blocknos| == LOGSIZE - 1 && s.area.start + 1 + s.h.len <= |s.disk|
    && match step
       case Begin(id) => Admits(s) && id !in s.epoch
       case GetBuf(b) => IsHome(s, b)
       case Release(b) => HandlesOf(s, b) > 0 && b in s.held && s.held[b].refs > 0
       // an operation enters at most `limit` new blocks
       case WriteBuf(i, b, data) =>
         i < |s.ops| && IsHome(s, b) && HandlesOf(s, b) > 0 && b in s.held && s.held[b].refs > 0
         && (Logged(s.h, b) || s.ops[i].added < limit)
       case End(i) => i < |s.ops|
       case CopyRound => s.phase.Copying? && s.phase.done < s.h.len && s.h.blocknos[s.phase.done] < |s.disk|
       case WriteHead => s.phase.Copying? && s.phase.done == s.h.len > 0 && HeaderFits(s.h)
       case InstallRound => s.phase.Installing? && s.phase.done < s.h.len && s.h.blocknos[s.phase.done] < |s.disk|
       case EmptyHead => s.phase.Installing? && s.phase.done == s.h.len
       case Finish => s.phase.Emptied? || (s.phase.Copying? && s.h.len == 0)
  }

  ghost function AfterWrite(s: State, i: nat, b: nat, data: Block): State
    requires i < |s.ops| && HandlesOf(s, b) > 0 && b in s.held && s.held[b].refs > 0
    requires s.h.len <= |s.h.blocknos| == LOGSIZE - 1
  {
    var u := Update(s.ops[i].id, b, data);
    if Full(s, s.h.len + 1) then s.(panic := NoRoom)
    else if Logged(s.h, b) then
      s.(held := Drop(SetData(s.held, b, data), b), handles := DropHandle(s, b), pending := s.pending + [u])
    else if Full(s, s.h.len + 2) then s.(panic := NoRoom)
    else
      // the handle turns into the pin
      s.(held := Drop(Pin(SetData(s.held, b, data), b), b), handles := DropHandle(s, b), pending := s.pending + [u],
         h := Header(s.h.len + 1, s.h.blocknos[s.h.len := b]),
         ops := s.ops[i := Op(s.ops[i].id, s.ops[i].added + 1)])
  }

  ghost function AfterEnd(s: State, i: nat): State
    requires i < |s.ops|
  {
    var s' := s.(ops := s.ops[..i] + s.ops[i + 1..]);
    if !s.phase.Idle? then s'.(panic := EndWhileCommitting)
    else if s'.ops == [] then s'.(phase := Copying(0), logged := [])
    else s'
  }

  ghost function AfterInstall(s: State): State
    requires s.phase.Installing? && s.phase.done < s.h.len <= |s.h.blocknos| && s.h.blocknos[s.phase.done] < |s.disk|
    requires s.area.start + 1 + s.h.len <= |s.disk|
  {
    var b, data := s.h.blocknos[s.phase.done], s.disk[CopyAt(s.area, s.phase.done)];
    if !CanGet(s.held, CopyAt(s.area, s.phase.done)) || !CanGet(s.held, b) then s.(panic := NoBuffer)
    else if b !in s.held || s.held[b].refs == 0 then s.(panic := UnpinMismatch)
    else s.(disk := s.disk[b := data], held := Drop(SetData(s.held, b, data), b), phase := Installing(s.phase.done + 1))
  }

  function AfterBegin(s: State, id: nat): State {
    s.(ops := s.ops + [Op(id, 0)], epoch := s.epoch[id := |s.history|])
  }

  function AfterGet(s: State, b: nat): State
    requires b < |s.disk|
  {
    if CanGet(s.held, b) then s.(held := Get(s.held, s.disk, b), handles := AddHandle(s, b)) else s.(panic := NoBuffer)
  }

  function AfterRelease(s: State, b: nat): State
    requires HandlesOf(s, b) > 0 && b in s.held && s.held[b].refs > 0
  {
    s.(held := Drop(s.held, b), handles := DropHandle(s, b))
  }

  function AfterCopy(s: State): State
    requires s.phase.Copying? && s.phase.done < s.h.len <= |s.h.blocknos| && s.h.blocknos[s.phase.done] < |s.disk|
    requires s.area.start + 1 + s.h.len <= |s.disk|
  {
    var target, b := CopyAt(s.area, s.phase.done), s.h.blocknos[s.phase.done];
    if !CanGet(s.held, target) || !CanGet(s.held, b) then s.(panic := NoBuffer)
    else
      var data := View(s.held, s.disk, b);
      s.(disk := s.disk[target := data], logged := s.logged + [data], phase := Copying(s.phase.done + 1))
  }

  function AfterHead(s: State): State
    requires s.area.start < |s.disk| && HeaderFits(s.h)
  {
    if !CanGet(s.held, s.area.start) then s.(panic := NoBuffer)
    else
      s.(disk := s.disk[s.area.start := PutHeader(s.disk[s.area.start], s.h)], phase := Installing(0),
         durable := Logical(s), history := s.history + [s.pending], pending := [])
  }

  function AfterEmpty(s: State): State
    requires s.area.start < |s.disk|
  {
    if !CanGet(s.held, s.area.start) then s.(panic := NoBuffer)
    else s.(disk := s.disk[s.area.start := PutEmpty(s.disk[s.area.start])], h := s.h.(len := 0), phase := Emptied)
  }

  ghost function After(s: State, limit: nat, step: Step): State
    requires Enabled(s, limit, step)
  {
    match step
    case Begin(id) => AfterBegin(s, id)
    case GetBuf(b) => AfterGet(s, b)
    case Release(b) => AfterRelease(s, b)
    case WriteBuf(i, b, data) => AfterWrite(s, i, b, data)
    case End(i) => AfterEnd(s, i)
    case CopyRound => AfterCopy(s)
    case WriteHead => AfterHead(s)
    case InstallRound => AfterInstall(s)
    case EmptyHead => AfterEmpty(s)
    case Finish => s.(phase := Idle)
  }

  /** A freshly recovered file system. */
  ghost predicate Init(s: State) {
    && Quiet(s.area, s.disk, s.durable) && s.h == HeaderOf(s.disk[s.area.start])
    && LOGSIZE <= s.area.size && |s.disk| <= 0x1_0000_0000
    && s.ops == [] && s.phase.Idle? && s.held == map[] && s.handles == map[]
    && s.pending == [] && s.history == [] && s.epoch == map[] && s.panic.NoPanic?
  }

  // ----- The invariant

  /** The pins of blocks already installed are gone. */
  function FirstPinned(phase: Phase): nat {
    if phase.Installing? then phase.done else 0
  }

  ghost predicate Pinned(h: Header, phase: Phase, b: nat)
    requires h.len <= |h.blocknos|
  {
    exists j :: FirstPinned(phase) <= j < h.len && h.blocknos[j] == b
  }

  /** References are handles plus the pin; a pinned buffer holds the logical contents, any other what the disk holds. */
  ghost predicate BufferOk(s: State, b: nat, pinned: bool, logical: Disk)
    requires |logical| == |s.disk|
  {
    if !IsHome(s, b) then b !in s.held && HandlesOf(s, b) == 0
    else
      && (b in s.held <==> HandlesOf(s, b) > 0 || pinned)
      && (b in s.held ==> s.held[b].refs == HandlesOf(s, b) + (if pinned then 1 else 0))
      && if pinned then s.held[b].data == logical[b]
         else s.disk[b] == logical[b] && (b in s.held ==> s.held[b].data == s.disk[b])
  }

  ghost predicate BlockOk(s: State, b: nat)
    requires s.h.len <= |s.h.blocknos| && |s.durable| == |s.disk|
  {
    BufferOk(s, b, Pinned(s.h, s.phase, b), Logical(s))
  }

  ghost predicate BlocksOk(s: State)
    requires s.h.len <= |s.h.blocknos| && |s.durable| == |s.disk|
  {
    forall b {:trigger BlockOk(s, b)} :: BlockOk(s, b)
  }

  ghost predicate Shape(a: Area, n: nat, h: Header, durable: Disk, phase: Phase, ops: seq<Op>) {
    && HeaderOk(a, n, h) && LOGSIZE <= a.size && n <= 0x1_0000_0000
    && |durable| == n && (phase.Idle? || ops == [])
  }

  ghost predicate LoggedIs(h: Header, logged: seq<Block>, n: nat, logical: Disk)
    requires n <= |logged| && n <= h.len <= |h.blocknos|
  {
    forall j :: 0 <= j < n ==> h.blocknos[j] < |logical| && logged[j] == logical[h.blocknos[j]]
  }

  ghost predicate OnDisk(a: Area, disk: Disk, durable: Disk, h: Header, phase: Phase, logged: seq<Block>,
                         pending: seq<Update>)
    requires HeaderOk(a, |disk|, h)
  {
    match phase
    case Idle => Quiet(a, disk, durable)
    case Copying(n) =>
      && Quiet(a, disk, durable) && |logged| == n <= h.len
      && Copies(a, disk, n) == logged && LoggedIs(h, logged, n, ApplyUpdates(durable, pending))
    case Installing(n) =>
      && n <= h.len && pending == [] && Committed(a, disk, h, logged, durable) && LoggedIs(h, logged, h.len, durable)
    case Emptied => Quiet(a, disk, durable) && pending == [] && h.len == 0
  }

  /** Only blocks in the header have pending updates. */
  ghost predicate PendingLogged(h: Header, pending: seq<Update>)
    requires h.len <= |h.blocknos|
  {
    forall i :: 0 <= i < |pending| ==> Logged(h, pending[i].b)
  }

  ghost predicate Inv(s: State) {
    && Shape(s.area, |s.disk|, s.h, s.durable, s.phase, s.ops) && BlocksOk(s)
    && OnDisk(s.area, s.disk, s.durable, s.h, s.phase, s.logged, s.pending) && PendingLogged(s.h, s.pending)
  }

  lemma {:induction false} UpdatesKeepOthers(d: Disk, us: seq<Update>, b: nat)
    requires b < |d| && forall i :: 0 <= i < |us| ==> us[i].b != b
    ensures ApplyUpdates(d, us)[b] == d[b]
    decreases |us|
  {
    if us != [] { UpdatesKeepOthers(d, us[..|us| - 1], b); }
  }

  lemma OneMoreUpdate(d: Disk, us: seq<Update>, u: Update)
    requires u.b < |d|
    ensures ApplyUpdates(d, us + [u]) == ApplyUpdates(d, us)[u.b := u.data]
  {
    assert (us + [u])[..|us|] == us;
  }

  lemma GetKeepsInv(s: State, b: nat)
    requires Inv(s) && IsHome(s, b)
    ensures Inv(s.(held := Get(s.held, s.disk, b), handles := AddHandle(s, b)))
  {
    var s' := s.(held := Get(s.held, s.disk, b), handles := AddHandle(s, b));
    assert BlockOk(s, b);
    forall c ensures BlockOk(s', c) { assert BlockOk(s, c); }
  }

  lemma ReleaseKeepsInv(s: State, b: nat)
    requires Inv(s) && HandlesOf(s, b) > 0 && b in s.held && s.held[b].refs > 0
    ensures Inv(s.(held := Drop(s.held, b), handles := DropHandle(s, b)))
  {
    var s' := s.(held := Drop(s.held, b), handles := DropHandle(s, b));
    assert BlockOk(s, b);
    forall c ensures BlockOk(s', c) { assert BlockOk(s, c); }
  }

  /** A write to a block that is in the header already. */
  lemma AbsorbKeepsInv(s: State, b: nat, u: Update)
    requires Inv(s) && s.phase.Idle? && HandlesOf(s, b) > 0 && b in s.held && s.held[b].refs > 0
    requires Logged(s.h, b) && u.b == b
    ensures Inv(s.(held := Drop(SetData(s.held, b, u.data), b), handles := DropHandle(s, b),
                   pending := s.pending + [u]))
  {
    var s' := s.(held := Drop(SetData(s.held, b, u.data), b), handles := DropHandle(s, b), pending := s.pending + [u]);
    assert BlockOk(s, b) && Pinned(s.h, s.phase, b);
    OneMoreUpdate(s.durable, s.pending, u);
    forall c ensures BlockOk(s', c) { assert BlockOk(s, c); }
  }

  lemma HeaderGrows(a: Area, n: nat, h: Header, b: nat)
    requires HeaderOk(a, n, h) && h.len + 2 < LOGSIZE && h.len + 2 < a.size && n <= 0x1_0000_0000
    requires b < n && !InArea(a, b) && !Logged(h, b)
    ensures var h' := Header(h.len + 1, h.blocknos[h.len := b]);
            HeaderOk(a, n, h') && (forall c :: Logged(h', c) <==> Logged(h, c) || c == b)
  {
    var h' := Header(h.len + 1, h.blocknos[h.len := b]);
    forall c ensures Logged(h', c) <==> Logged(h, c) || c == b {
      if Logged(h, c) {
        var j :| 0 <= j < h.len && h.blocknos[j] == c;
        assert h'.blocknos[j] == c;
      }
      if c == b { assert h'.blocknos[h.len] == c; }
    }
    forall i | 0 <= i < h.len ensures h.blocknos[i] != b { assert !Logged(h, b); }
  }

  lemma IdlePinned(h: Header, b: nat)
    requires h.len <= |h.blocknos|
    ensures Pinned(h, Idle, b) <==> Logged(h, b)
  {
  }

  lemma AddKeepsBlocks(s: State, b: nat, u: Update, h': Header, ops: seq<Op>)
    requires Inv(s) && s.phase.Idle? && HandlesOf(s, b) > 0 && b in s.held && s.held[b].refs > 0
    requires !Logged(s.h, b) && u.b == b && IsHome(s, b)
    requires h'.len <= |h'.blocknos| && forall c :: Logged(h', c) <==> Logged(s.h, c) || c == b
    ensures BlocksOk(s.(held := Drop(Pin(SetData(s.held, b, u.data), b), b), handles := DropHandle(s, b),
                        pending := s.pending + [u], h := h', ops := ops))
  {
    var s' := s.(held := Drop(Pin(SetData(s.held, b, u.data), b), b), handles := DropHandle(s, b),
                 pending := s.pending + [u], h := h', ops := ops);
    OneMoreUpdate(s.durable, s.pending, u);
    assert BlockOk(s, b);
    forall c ensures BlockOk(s', c) {
      assert BlockOk(s, c);
      IdlePinned(s.h, c);
      IdlePinned(h', c);
    }
  }

  /** A write to a new block. */
  lemma AddKeepsInv(s: State, b: nat, u: Update, ops: seq<Op>)
    requires Inv(s) && s.phase.Idle? && HandlesOf(s, b) > 0 && b in s.held && s.held[b].refs > 0
    requires !Logged(s.h, b) && u.b == b && IsHome(s, b) && s.h.len + 2 < LOGSIZE && s.h.len + 2 < s.area.size
    ensures Inv(s.(held := Drop(Pin(SetData(s.held, b, u.data), b), b), handles := DropHandle(s, b),
                   pending := s.pending + [u], h := Header(s.h.len + 1, s.h.blocknos[s.h.len := b]), ops := ops))
  {
    HeaderGrows(s.area, |s.disk|, s.h, b);
    AddKeepsBlocks(s, b, u, Header(s.h.len + 1, s.h.blocknos[s.h.len := b]), ops);
  }

  lemma CopyKeepsInv(s: State)
    requires Inv(s) && s.phase.Copying? && s.phase.done < s.h.len
    ensures var data := View(s.held, s.disk, s.h.blocknos[s.phase.done]);
            Inv(s.(disk := s.disk[CopyAt(s.area, s.phase.done) := data], logged := s.logged + [data],
                   phase := Copying(s.phase.done + 1)))
  {
    var n, b := s.phase.done, s.h.blocknos[s.phase.done];
    var data := View(s.held, s.disk, b);
    var s' := s.(disk := s.disk[CopyAt(s.area, n) := data], logged := s.logged + [data], phase := Copying(n + 1));
    assert BlockOk(s, b) && Pinned(s.h, s.phase, b);
    assert Copies(s.area, s'.disk, n + 1) == Copies(s.area, s.disk, n) + [data];
    forall c ensures BlockOk(s', c) { assert BlockOk(s, c); }
  }

  /** The commit point. */
  lemma HeadKeepsInv(s: State)
    requires Inv(s) && s.phase.Copying? && s.phase.done == s.h.len > 0
    ensures Inv(s.(disk := s.disk[s.area.start := PutHeader(s.disk[s.area.start], s.h)], phase := Installing(0),
                   durable := Logical(s), history := s.history + [s.pending], pending := []))
  {
    var s' := s.(disk := s.disk[s.area.start := PutHeader(s.disk[s.area.start], s.h)], phase := Installing(0),
                 durable := Logical(s), history := s.history + [s.pending], pending := []);
    HeaderRoundTrip(s.disk[s.area.start], s.h);
    assert Copies(s.area, s'.disk, s.h.len) == Copies(s.area, s.disk, s.h.len);
    forall b | 0 <= b < |s.disk| && !InArea(s.area, b) && !Logged(s.h, b) ensures s'.disk[b] == s'.durable[b] {
      UpdatesKeepOthers(s.durable, s.pending, b);
    }
    forall c ensures BlockOk(s', c) { assert BlockOk(s, c); }
  }

  lemma PinnedAfterInstall(h: Header, n: nat, b: nat)
    requires n < h.len <= |h.blocknos| && forall i, j :: 0 <= i < j < h.len ==> h.blocknos[i] != h.blocknos[j]
    ensures Pinned(h, Installing(n + 1), b) <==> Pinned(h, Installing(n), b) && b != h.blocknos[n]
    ensures Pinned(h, Installing(n), h.blocknos[n])
  {
    assert forall j :: n <= j < h.len && h.blocknos[j] == b ==> j == n || n + 1 <= j;
  }

  /** What an install round finds: the buffer is pinned, and the copy in the log is what it holds. */
  lemma InstallFinds(s: State)
    requires Inv(s) && s.phase.Installing? && s.phase.done < s.h.len
    ensures var b := s.h.blocknos[s.phase.done];
            && IsHome(s, b) && b in s.held && s.held[b].refs == HandlesOf(s, b) + 1
            && s.held[b].data == s.disk[CopyAt(s.area, s.phase.done)] == Logical(s)[b]
  {
    var n, b := s.phase.done, s.h.blocknos[s.phase.done];
    PinnedAfterInstall(s.h, n, b);
    assert BlockOk(s, b);
    assert Copies(s.area, s.disk, s.h.len)[n] == s.disk[CopyAt(s.area, n)];
  }

  lemma InstallKeepsBlocks(s: State, b: nat, data: Block)
    requires Inv(s) && s.phase.Installing? && s.phase.done < s.h.len && b == s.h.blocknos[s.phase.done]
    requires IsHome(s, b) && b in s.held && s.held[b].refs == HandlesOf(s, b) + 1
             && s.held[b].data == data == Logical(s)[b]
    ensures BlocksOk(s.(disk := s.disk[b := data], held := Drop(SetData(s.held, b, data), b),
                        phase := Installing(s.phase.done + 1)))
  {
    var s' :=
        s.(disk := s.disk[b := data], held := Drop(SetData(s.held, b, data), b), phase := Installing(s.phase.done + 1));
    forall c ensures BlockOk(s', c) {
      assert BlockOk(s, c);
      PinnedAfterInstall(s.h, s.phase.done, c);
    }
  }

  lemma InstallKeepsInv(s: State)
    requires Inv(s) && s.phase.Installing? && s.phase.done < s.h.len
    ensures var b, data := s.h.blocknos[s.phase.done], s.disk[CopyAt(s.area, s.phase.done)];
            && b in s.held && s.held[b].refs > 0
            && Inv(s.(disk := s.disk[b := data], held := Drop(SetData(s.held, b, data), b),
                      phase := Installing(s.phase.done + 1)))
  {
    var b, data := s.h.blocknos[s.phase.done], s.disk[CopyAt(s.area, s.phase.done)];
    InstallFinds(s);
    InstallKeepsBlocks(s, b, data);
    assert Logged(s.h, b);
    WriteLoggedBlock(s.area, s.disk, s.h, s.logged, s.durable, b, s.disk[b := data]);
  }

  lemma EmptyKeepsInv(s: State)
    requires Inv(s) && s.phase.Installing? && s.phase.done == s.h.len
    ensures Inv(s.(disk := s.disk[s.area.start := PutEmpty(s.disk[s.area.start])], h := s.h.(len := 0),
                   phase := Emptied))
  {
    var s' := s.(disk := s.disk[s.area.start := PutEmpty(s.disk[s.area.start])], h := s.h.(len := 0), phase := Emptied);
    EmptyKeepsBlocknos(s.disk[s.area.start]);
    forall c ensures BlockOk(s', c) { assert BlockOk(s, c); }
    forall b | 0 <= b < |s.disk| && !InArea(s.area, b) ensures s'.disk[b] == s.durable[b] { assert BlockOk(s, b); }
  }

  lemma FinishKeepsInv(s: State)
    requires Inv(s) && (s.phase.Emptied? || (s.phase.Copying? && s.h.len == 0))
    ensures Inv(s.(phase := Idle))
  {
    forall c ensures BlockOk(s.(phase := Idle), c) { assert BlockOk(s, c); }
  }

  lemma OpsKeepInv(s: State, ops: seq<Op>, epoch: map<nat, nat>)
    requires Inv(s) && s.phase.Idle?
    ensures Inv(s.(ops := ops, epoch := epoch))
    ensures Inv(s.(ops := [], phase := Copying(0), logged := []))
  {
    var s', s'' := s.(ops := ops, epoch := epoch), s.(ops := [], phase := Copying(0), logged := []);
    forall c ensures BlockOk(s', c) && BlockOk(s'', c) { assert BlockOk(s, c); }
  }

  lemma PanicKeepsInv(s: State, p: Panic)
    requires Inv(s)
    ensures Inv(s.(panic := p))
  {
    forall c ensures BlockOk(s.(panic := p), c) { assert BlockOk(s, c); }
  }

  lemma WriteStepInv(s: State, i: nat, b: nat, data: Block)
    requires Inv(s) && i < |s.ops| && IsHome(s, b) && HandlesOf(s, b) > 0 && b in s.held && s.held[b].refs > 0
    ensures Inv(AfterWrite(s, i, b, data))
  {
    var u := Update(s.ops[i].id, b, data);
    PanicKeepsInv(s, NoRoom);
    if Full(s, s.h.len + 1) {
    } else if Logged(s.h, b) {
      AbsorbKeepsInv(s, b, u);
    } else if !Full(s, s.h.len + 2) {
      AddKeepsInv(s, b, u, s.ops[i := Op(s.ops[i].id, s.ops[i].added + 1)]);
    }
  }

  lemma CopyStepInv(s: State)
    requires Inv(s) && s.phase.Copying? && s.phase.done < s.h.len
    ensures Inv(AfterCopy(s))
  {
    PanicKeepsInv(s, NoBuffer);
    CopyKeepsInv(s);
  }

  lemma HeadStepInv(s: State)
    requires Inv(s) && s.phase.Copying? && s.phase.done == s.h.len > 0
    ensures Inv(AfterHead(s))
  {
    PanicKeepsInv(s, NoBuffer);
    HeadKeepsInv(s);
  }

  lemma InstallStepInv(s: State)
    requires Inv(s) && s.phase.Installing? && s.phase.done < s.h.len
    ensures Inv(AfterInstall(s))
  {
    PanicKeepsInv(s, NoBuffer);
    InstallKeepsInv(s);
  }

  lemma EmptyStepInv(s: State)
    requires Inv(s) && s.phase.Installing? && s.phase.done == s.h.len
    ensures Inv(AfterEmpty(s))
  {
    PanicKeepsInv(s, NoBuffer);
    EmptyKeepsInv(s);
  }

  lemma UseStepInv(s: State)
    requires Inv(s)
    ensures s.phase.Idle? ==> forall id :: Inv(AfterBegin(s, id))
    ensures forall b | IsHome(s, b) :: Inv(AfterGet(s, b))
    ensures forall b | HandlesOf(s, b) > 0 && b in s.held && s.held[b].refs > 0 :: Inv(AfterRelease(s, b))
    ensures forall i | 0 <= i < |s.ops| :: Inv(AfterEnd(s, i))
  {
    forall id ensures s.phase.Idle? ==> Inv(AfterBegin(s, id)) {
      if s.phase.Idle? { OpsKeepInv(s, s.ops + [Op(id, 0)], s.epoch[id := |s.history|]); }
    }
    PanicKeepsInv(s, NoBuffer);
    forall b | IsHome(s, b) ensures Inv(AfterGet(s, b)) { GetKeepsInv(s, b); }
    forall b | HandlesOf(s, b) > 0 && b in s.held && s.held[b].refs > 0 ensures Inv(AfterRelease(s, b)) {
      ReleaseKeepsInv(s, b);
    }
    forall i | 0 <= i < |s.ops| ensures Inv(AfterEnd(s, i)) { OpsKeepInv(s, s.ops[..i] + s.ops[i + 1..], s.epoch); }
  }

  /** Every step keeps the invariant. */
  lemma StepKeepsInv(s: State, limit: nat, step: Step)
    requires Inv(s) && Enabled(s, limit, step)
    ensures Inv(After(s, limit, step))
  {
    match step
    case WriteBuf(i, b, data) => WriteStepInv(s, i, b, data);
    case CopyRound => CopyStepInv(s);
    case WriteHead => HeadStepInv(s);
    case InstallRound => InstallStepInv(s);
    case EmptyHead => EmptyStepInv(s);
    case Finish => FinishKeepsInv(s);
    case _ => UseStepInv(s);
  }

  lemma InitHasInv(s: State)
    requires Init(s)
    ensures Inv(s)
  {
    forall b ensures BlockOk(s, b) { IdlePinned(s.h, b); }
  }

  /** The kernel panics in two ways only: no buffer is left, or `write` finds the log full. */
  lemma PanicsOf(s: State, limit: nat, step: Step)
    requires Inv(s) && s.h.len <= LOGSIZE - 2 && Enabled(s, limit, step)
    ensures var s' := After(s, limit, step);
            && !s'.panic.EndWhileCommitting? && !s'.panic.UnpinMismatch? && s'.h.len <= LOGSIZE - 2
            && (s'.panic.NoRoom? <==> step.WriteBuf? && !Logged(s.h, step.b) && s.h.len == LOGSIZE - 2)
  {
    if step.InstallRound? { InstallFinds(s); }
  }

  // ----- Runs

  ghost predicate Next(s: State, limit: nat, s': State) {
    exists step :: Enabled(s, limit, step) && s' == After(s, limit, step)
  }

  /** A run in which every operation enters at most `limit` new blocks in the header. */
  ghost predicate Run(limit: nat, ss: seq<State>) {
    |ss| > 0 && Init(ss[0]) && forall i :: 0 <= i < |ss| - 1 ==> Next(ss[i], limit, ss[i + 1])
  }

  lemma RunPrefix(limit: nat, ss: seq<State>)
    requires Run(limit, ss) && |ss| > 1
    ensures Run(limit, ss[..|ss| - 1]) && Next(ss[|ss| - 2], limit, ss[|ss| - 1])
  {
    var n := |ss| - 1;
    assert Next(ss[n - 1], limit, ss[n - 1 + 1]);
    forall i | 0 <= i < n - 1 ensures Next(ss[..n][i], limit, ss[..n][i + 1]) { assert Next(ss[i], limit, ss[i + 1]); }
  }

  ghost predicate Safe(s: State) {
    Inv(s) && s.h.len <= LOGSIZE - 2 && !s.panic.EndWhileCommitting? && !s.panic.UnpinMismatch?
  }

  lemma NextKeepsSafe(s: State, limit: nat, s': State)
    requires Safe(s) && Next(s, limit, s')
    ensures Safe(s')
  {
    var step :| Enabled(s, limit, step) && s' == After(s, limit, step);
    StepKeepsInv(s, limit, step);
    PanicsOf(s, limit, step);
  }

  lemma {:induction false} RunKeepsInv(limit: nat, ss: seq<State>)
    requires Run(limit, ss)
    ensures Safe(ss[|ss| - 1])
    decreases |ss|
  {
    var n := |ss| - 1;
    if n == 0 {
      InitHasInv(ss[0]);
    } else {
      RunPrefix(limit, ss);
      RunKeepsInv(limit, ss[..n]);
      NextKeepsSafe(ss[n - 1], limit, ss[n]);
    }
  }

  // ----- Crashes

  /** What a crash may leave on disk: the disk as it is, or the block that the commit writes next torn.
    * (The header is written whole or not at all.) */
  ghost predicate Crashed(s: State, e: Disk)
    requires Inv(s)
  {
    || e == s.disk
    || (s.phase.Copying? && s.phase.done < s.h.len && Torn(s.disk, CopyAt(s.area, s.phase.done), e))
    || (s.phase.Installing? && s.phase.done < s.h.len && Torn(s.disk, s.h.blocknos[s.phase.done], e))
  }

  /** After a crash at any point and any number of crashes in recovery, the recovered disk holds the committed
    * groups. */
  lemma CrashSafe(s: State, e: Disk, k: nat, e': Disk)
    requires Inv(s) && Crashed(s, e) && (DiskOk(s.area, e) ==> AfterCrashes(s.area, e, k, e'))
    ensures DiskOk(s.area, e) && DiskOk(s.area, e') && SameHome(s.area, Recovered(s.area, e'), s.durable)
  {
    if s.phase.Installing? {
      if s.h.len == 0 {
        assert Committed(s.area, e, s.h, s.logged, s.durable);
        QuietStays(s.area, e, s.durable, k, e');
      } else {
        if e != s.disk {
          assert Logged(s.h, s.h.blocknos[s.phase.done]);
          WriteLoggedBlock(s.area, s.disk, s.h, s.logged, s.durable, s.h.blocknos[s.phase.done], e);
        }
        DurableStays(s.area, e, s.h, s.logged, s.durable, k, e');
      }
    } else {
      QuietStays(s.area, e, s.durable, k, e');
    }
  }

  // ----- Groups

  /** All updates of `us` come from operations that began when `g` groups were committed. */
  ghost predicate FromEpoch(us: seq<Update>, epoch: map<nat, nat>, g: nat) {
    forall i :: 0 <= i < |us| ==> us[i].op in epoch && epoch[us[i].op] == g
  }

  ghost predicate OpsFromEpoch(ops: seq<Op>, epoch: map<nat, nat>, g: nat) {
    forall i :: 0 <= i < |ops| ==> ops[i].id in epoch && epoch[ops[i].id] == g
  }

  /** Each group holds the updates of the operations of its own epoch. */
  ghost predicate EpochsOk(history: seq<seq<Update>>, pending: seq<Update>, ops: seq<Op>, epoch: map<nat, nat>) {
    && (forall g {:trigger history[g]} :: 0 <= g < |history| ==> FromEpoch(history[g], epoch, g))
    && FromEpoch(pending, epoch, |history|) && OpsFromEpoch(ops, epoch, |history|)
  }

  lemma WriteKeepsEpochs(s: State, i: nat, u: Update, ops: seq<Op>)
    requires EpochsOk(s.history, s.pending, s.ops, s.epoch) && i < |s.ops| && u.op == s.ops[i].id
    ensures EpochsOk(s.history, s.pending + [u], s.ops, s.epoch)
    ensures forall added :: EpochsOk(s.history, s.pending + [u], s.ops[i := Op(u.op, added)], s.epoch)
  {
  }

  lemma BeginKeepsEpochs(s: State, id: nat)
    requires EpochsOk(s.history, s.pending, s.ops, s.epoch) && id !in s.epoch
    ensures EpochsOk(s.history, s.pending, s.ops + [Op(id, 0)], s.epoch[id := |s.history|])
  {
  }

  lemma EndKeepsEpochs(s: State, i: nat)
    requires EpochsOk(s.history, s.pending, s.ops, s.epoch) && i < |s.ops|
    ensures EpochsOk(s.history, s.pending, s.ops[..i] + s.ops[i + 1..], s.epoch)
  {
  }

  lemma HeadKeepsEpochs(s: State)
    requires EpochsOk(s.history, s.pending, [], s.epoch)
    ensures EpochsOk(s.history + [s.pending], [], [], s.epoch)
  {
  }

  lemma StepKeepsEpochs(s: State, limit: nat, step: Step)
    requires s.phase.Idle? || s.ops == []
    requires EpochsOk(s.history, s.pending, s.ops, s.epoch) && Enabled(s, limit, step)
    ensures var s' := After(s, limit, step); EpochsOk(s'.history, s'.pending, s'.ops, s'.epoch)
  {
    match step
    case Begin(id) => BeginKeepsEpochs(s, id);
    case WriteBuf(i, b, data) => WriteKeepsEpochs(s, i, Update(s.ops[i].id, b, data), s.ops);
    case End(i) => EndKeepsEpochs(s, i);
    case WriteHead => HeadKeepsEpochs(s);
    case _ =>
  }

  /** The durable disk is the initial one with the committed groups applied. */
  lemma StepReplays(s: State, limit: nat, step: Step, d0: Disk)
    requires s.durable == Replay(d0, s.history) && Enabled(s, limit, step)
    ensures var s' := After(s, limit, step); s'.durable == Replay(d0, s'.history)
  {
    assert (s.history + [s.pending])[..|s.history|] == s.history;
  }

  ghost predicate GroupsOk(s: State, d0: Disk) {
    s.durable == Replay(d0, s.history) && EpochsOk(s.history, s.pending, s.ops, s.epoch)
  }

  lemma NextKeepsGroups(s: State, limit: nat, s': State, d0: Disk)
    requires s.phase.Idle? || s.ops == []
    requires GroupsOk(s, d0) && Next(s, limit, s')
    ensures GroupsOk(s', d0)
  {
    var step :| Enabled(s, limit, step) && s' == After(s, limit, step);
    StepKeepsEpochs(s, limit, step);
    StepReplays(s, limit, step, d0);
  }

  lemma {:induction false} RunKeepsGroups(limit: nat, ss: seq<State>)
    requires Run(limit, ss)
    ensures GroupsOk(ss[|ss| - 1], ss[0].durable)
    decreases |ss|
  {
    var n := |ss| - 1;
    if n > 0 {
      RunPrefix(limit, ss);
      RunKeepsGroups(limit, ss[..n]);
      RunKeepsInv(limit, ss[..n]);
      NextKeepsGroups(ss[n - 1], limit, ss[n], ss[0].durable);
    }
  }

  /** All updates of one operation fall in a single group: no commit point ever separates them. */
  lemma OneCommit(limit: nat, ss: seq<State>, g: nat, i: nat, g': nat, i': nat)
    requires Run(limit, ss)
    requires var s := ss[|ss| - 1];
             && g < |s.history| && i < |s.history[g]|
             && (g' < |s.history| || g' == |s.history|)
             && var us := if g' < |s.history| then s.history[g'] else s.pending;
                i' < |us| && s.history[g][i].op == us[i'].op
    ensures g == g'
  {
    RunKeepsGroups(limit, ss);
    var s := ss[|ss| - 1];
    assert FromEpoch(s.history[g], s.epoch, g);
  }

  // ----- Order

  /** An operation's epoch is never later than now. */
  ghost predicate EpochsPast(epoch: map<nat, nat>, n: nat) {
    forall a :: a in epoch ==> epoch[a] <= n
  }

  /** Epochs never change, and operations that begin later have later epochs. */
  ghost predicate LaterEpochs(epoch0: map<nat, nat>, n0: nat, epoch: map<nat, nat>, n: nat) {
    && n0 <= n && (forall a :: a in epoch0 ==> a in epoch && epoch[a] == epoch0[a])
    && forall b :: b in epoch && b !in epoch0 ==> n0 <= epoch[b]
  }

  lemma StepEpochs(s: State, limit: nat, step: Step, epoch0: map<nat, nat>, n0: nat)
    requires EpochsPast(s.epoch, |s.history|) && Enabled(s, limit, step)
    ensures var s' := After(s, limit, step); EpochsPast(s'.epoch, |s'.history|)
    ensures var s' := After(s, limit, step);
            LaterEpochs(epoch0, n0, s.epoch, |s.history|) ==> LaterEpochs(epoch0, n0, s'.epoch, |s'.history|)
  {
  }

  lemma NextEpochs(s: State, limit: nat, s': State, epoch0: map<nat, nat>, n0: nat)
    requires EpochsPast(s.epoch, |s.history|) && Next(s, limit, s')
    ensures EpochsPast(s'.epoch, |s'.history|)
    ensures LaterEpochs(epoch0, n0, s.epoch, |s.history|) ==> LaterEpochs(epoch0, n0, s'.epoch, |s'.history|)
  {
    var step :| Enabled(s, limit, step) && s' == After(s, limit, step);
    StepEpochs(s, limit, step, epoch0, n0);
  }

  lemma {:induction false} RunEpochsPast(limit: nat, ss: seq<State>)
    requires Run(limit, ss)
    ensures EpochsPast(ss[|ss| - 1].epoch, |ss[|ss| - 1].history|)
    decreases |ss|
  {
    var n := |ss| - 1;
    if n > 0 {
      RunPrefix(limit, ss);
      RunEpochsPast(limit, ss[..n]);
      NextEpochs(ss[n - 1], limit, ss[n], map[], 0);
    }
  }

  lemma {:induction false} RunEpochs(limit: nat, ss: seq<State>, j: nat)
    requires Run(limit, ss) && j < |ss|
    ensures EpochsPast(ss[j].epoch, |ss[j].history|)
    ensures LaterEpochs(ss[j].epoch, |ss[j].history|, ss[|ss| - 1].epoch, |ss[|ss| - 1].history|)
    decreases |ss|
  {
    var n := |ss| - 1;
    RunEpochsPast(limit, ss);
    if j < n {
      RunPrefix(limit, ss);
      RunEpochs(limit, ss[..n], j);
      RunEpochsPast(limit, ss[..n]);
      NextEpochs(ss[n - 1], limit, ss[n], ss[j].epoch, |ss[j].history|);
    }
  }

  /** Operations survive in the order in which they begin: if an update of `b` is committed, so is every update of an
    * operation `a` that had begun when `b` had not, in the same group or an earlier one. */
  lemma CommittedInOrder(limit: nat, ss: seq<State>, j: nat, a: nat, g: nat, i: nat, g': nat, i': nat)
    requires Run(limit, ss) && j < |ss|
    requires var s := ss[|ss| - 1];
             && g < |s.history| && i < |s.history[g]| && s.history[g][i].op !in ss[j].epoch && a in ss[j].epoch
             && g' <= |s.history|
             && var us := if g' < |s.history| then s.history[g'] else s.pending;
                i' < |us| && us[i'].op == a
    ensures g' <= g
  {
    RunKeepsGroups(limit, ss);
    RunEpochs(limit, ss, j);
    var s := ss[|ss| - 1];
    assert FromEpoch(s.history[g], s.epoch, g);
  }

  /** Crash atomicity over whole runs: what recovery finds is the initial disk with a prefix of the groups applied,
    * namely all groups whose header had been written; it never holds part of a group, hence never part of an
    * operation. */
  lemma CrashLeavesWholeGroups(limit: nat, ss: seq<State>, e: Disk, k: nat, e': Disk)
    requires Run(limit, ss)
    requires var s := ss[|ss| - 1];
             Inv(s) ==> Crashed(s, e) && (DiskOk(s.area, e) ==> AfterCrashes(s.area, e, k, e'))
    ensures var s := ss[|ss| - 1];
            DiskOk(s.area, e') && SameHome(s.area, Recovered(s.area, e'), Replay(ss[0].durable, s.history))
  {
    RunKeepsInv(limit, ss);
    RunKeepsGroups(limit, ss);
    CrashSafe(ss[|ss| - 1], e, k, e');
  }

  /** While a commit is under way no operation is active, so nothing is written and nobody is admitted. */
  lemma QuietWhileCommitting(limit: nat, ss: seq<State>, step: Step)
    requires Run(limit, ss)
    requires var s := ss[|ss| - 1]; !s.phase.Idle? && Enabled(s, limit, step)
    ensures ss[|ss| - 1].ops == [] && !step.WriteBuf? && !step.Begin? && !step.End?
  {
    RunKeepsInv(limit, ss);
  }

  /** The log and the cache agree: the references of a buffer are its handles and its pin, a block has a pin
    * exactly if it is in the header and not installed yet, and its buffer then holds the logical contents. */
  lemma LogAndCacheAgree(limit: nat, ss: seq<State>, b: nat)
    requires Run(limit, ss) && IsHome(ss[|ss| - 1], b)
    ensures var s := ss[|ss| - 1];
            && s.h.len <= |s.h.blocknos| && |Logical(s)| == |s.disk|
            && (if b in s.held then s.held[b].refs else 0) ==
               HandlesOf(s, b) + (if Pinned(s.h, s.phase, b) then 1 else 0)
            && (!s.phase.Installing? ==> (Pinned(s.h, s.phase, b) <==> Logged(s.h, b)))
            && View(s.held, s.disk, b) == Logical(s)[b]
  {
    RunKeepsInv(limit, ss);
    assert BlockOk(ss[|ss| - 1], b);
  }
}
