/** When the log of `kernel/src/fs/log.rs` can fill up: what admission reserves against what operations log. */
module LogRoom {
  import opened Common
  import opened Words
  import opened LogSpec
  import opened BlockCache
  import opened LogProtocol

  // ----- Room in the log

  /** Blocks that the active operations may still enter within their share of the log. */
  function Reserve(ops: seq<Op>): int {
    if ops == [] then 0 else Reserve(ops[..|ops| - 1]) + MAXOPBLOCKS - ops[|ops| - 1].added
  }

  ghost predicate SpaceOk(len: nat, ops: seq<Op>, limit: nat) {
    len + Reserve(ops) <= LOGSIZE - 1 && forall i :: 0 <= i < |ops| ==> ops[i].added <= limit
  }

  lemma {:induction false} ReserveBound(ops: seq<Op>)
    ensures Reserve(ops) <= MAXOPBLOCKS * |ops|
  {
    if ops != [] { ReserveBound(ops[..|ops| - 1]); }
  }

  lemma {:induction false} ReserveAtLeast(ops: seq<Op>, i: nat, limit: nat)
    requires i < |ops| && limit <= MAXOPBLOCKS && forall j :: 0 <= j < |ops| ==> ops[j].added <= limit
    ensures Reserve(ops) >= MAXOPBLOCKS - ops[i].added
  {
    ReserveRemove(ops, i);
    ReserveNonNegative(ops[..i] + ops[i + 1..]);
  }

  lemma {:induction false} ReserveNonNegative(ops: seq<Op>)
    requires forall j :: 0 <= j < |ops| ==> ops[j].added <= MAXOPBLOCKS
    ensures Reserve(ops) >= 0
  {
    if ops != [] { ReserveNonNegative(ops[..|ops| - 1]); }
  }

  lemma {:induction false} ReserveUpdate(ops: seq<Op>, i: nat, o: Op)
    requires i < |ops|
    ensures Reserve(ops[i := o]) == Reserve(ops) + ops[i].added - o.added
  {
    var n := |ops| - 1;
    if i < n {
      ReserveUpdate(ops[..n], i, o);
      assert ops[i := o][..n] == ops[..n][i := o];
    } else {
      assert ops[i := o][..n] == ops[..n];
    }
  }

  lemma {:induction false} ReserveRemove(ops: seq<Op>, i: nat)
    requires i < |ops|
    ensures Reserve(ops[..i] + ops[i + 1..]) == Reserve(ops) + ops[i].added - MAXOPBLOCKS
  {
    var n := |ops| - 1;
    var rest := ops[..i] + ops[i + 1..];
    if i < n {
      ReserveRemove(ops[..n], i);
      assert rest[..n - 1] == ops[..n][..i] + ops[..n][i + 1..];
    } else {
      assert rest == ops[..n];
    }
  }

  lemma BeginKeepsSpace(len: nat, ops: seq<Op>, limit: nat, id: nat)
    requires SpaceOk(len, ops, limit) && 1 + len + (|ops| + 1) * MAXOPBLOCKS <= LOGSIZE
    ensures SpaceOk(len, ops + [Op(id, 0)], limit)
  {
    assert (ops + [Op(id, 0)])[..|ops|] == ops;
    ReserveBound(ops);
  }

  lemma EndKeepsSpace(len: nat, ops: seq<Op>, limit: nat, i: nat)
    requires SpaceOk(len, ops, limit) && limit <= MAXOPBLOCKS && i < |ops|
    ensures SpaceOk(len, ops[..i] + ops[i + 1..], limit)
  {
    ReserveRemove(ops, i);
  }

  lemma WriteKeepsSpace(s: State, limit: nat, i: nat, b: nat, data: Block)
    requires i < |s.ops| && HandlesOf(s, b) > 0 && b in s.held && s.held[b].refs > 0
    requires s.h.len <= |s.h.blocknos| == LOGSIZE - 1 && (Logged(s.h, b) || s.ops[i].added < limit)
    requires SpaceOk(s.h.len, s.ops, limit)
    ensures SpaceOk(AfterWrite(s, i, b, data).h.len, AfterWrite(s, i, b, data).ops, limit)
  {
    if !Logged(s.h, b) { ReserveUpdate(s.ops, i, Op(s.ops[i].id, s.ops[i].added + 1)); }
  }

  /** The other steps leave the operations alone and the header no longer. */
  lemma OtherSteps(s: State, limit: nat, step: Step)
    requires Enabled(s, limit, step) && !step.Begin? && !step.WriteBuf? && !step.End?
    ensures After(s, limit, step).ops == s.ops && After(s, limit, step).h.len <= s.h.len
  {
  }

  lemma StepKeepsSpace(s: State, limit: nat, step: Step)
    requires SpaceOk(s.h.len, s.ops, limit) && limit <= MAXOPBLOCKS && Enabled(s, limit, step)
    ensures var s' := After(s, limit, step); SpaceOk(s'.h.len, s'.ops, limit)
  {
    match step
    case Begin(id) => BeginKeepsSpace(s.h.len, s.ops, limit, id);
    case WriteBuf(i, b, data) => WriteKeepsSpace(s, limit, i, b, data);
    case End(i) => EndKeepsSpace(s.h.len, s.ops, limit, i);
    case _ => OtherSteps(s, limit, step);
  }

  lemma NextKeepsSpace(s: State, limit: nat, s': State)
    requires Safe(s) && Roomy(s, limit) && limit < MAXOPBLOCKS && Next(s, limit, s')
    ensures Roomy(s', limit)
  {
    var step :| Enabled(s, limit, step) && s' == After(s, limit, step);
    StepKeepsSpace(s, limit, step);
    PanicsOf(s, limit, step);
    if step.WriteBuf? { ReserveAtLeast(s.ops, step.i, limit); }
  }

  ghost predicate Roomy(s: State, limit: nat) {
    SpaceOk(s.h.len, s.ops, limit) && !s.panic.NoRoom?
  }

  lemma {:induction false} RunKeepsSpace(limit: nat, ss: seq<State>)
    requires Run(limit, ss) && limit < MAXOPBLOCKS
    ensures Roomy(ss[|ss| - 1], limit)
    decreases |ss|
  {
    var n := |ss| - 1;
    if n == 0 {
      InitIsRoomy(ss[0], limit);
    } else {
      RunPrefix(limit, ss);
      RunKeepsSpace(limit, ss[..n]);
      RunKeepsInv(limit, ss[..n]);
      NextKeepsSpace(ss[n - 1], limit, ss[n]);
    }
  }

  lemma InitIsRoomy(s: State, limit: nat)
    requires Init(s)
    ensures Roomy(s, limit)
  {
  }

  // ----- Operations that share some of their blocks

  /** Blocks that an operation may log outside a shared set: the six of an unaligned batch of `fwrite`. */
  const OWN := 6

  /** No more blocks than admission reserves, and at most OWN of them outside `shared`. */
  ghost predicate Frugal(blocks: set<nat>, shared: set<nat>) {
    |blocks| <= MAXOPBLOCKS && |blocks - shared| <= OWN
  }

  lemma FrugalPart(part: set<nat>, blocks: set<nat>, shared: set<nat>)
    requires part <= blocks && Frugal(blocks, shared)
    ensures Frugal(part, shared)
  {
    SubsetSize(part, blocks);
    SubsetSize(part - shared, blocks - shared);
  }

  /** The blocks that operation `id` has updated. */
  ghost function BlocksOf(us: seq<Update>, id: nat): set<nat> {
    set i | 0 <= i < |us| && us[i].op == id :: us[i].b
  }

  lemma OneMoreBlock(us: seq<Update>, u: Update, id: nat)
    ensures BlocksOf(us + [u], id) == BlocksOf(us, id) + if id == u.op then {u.b} else {}
  {
    var vs := us + [u];
    forall b | b in BlocksOf(us, id) ensures b in BlocksOf(vs, id) {
      var i :| 0 <= i < |us| && us[i].op == id && us[i].b == b;
      assert vs[i] == us[i];
    }
    assert vs[|us|] == u;
  }

  /** The operation stays frugal with this write. (All its updates are pending: an operation falls in one group.) */
  ghost predicate FrugalStep(s: State, step: Step, shared: set<nat>) {
    step.WriteBuf? && step.i < |s.ops| ==> Frugal(BlocksOf(s.pending, s.ops[step.i].id) + {step.b}, shared)
  }

  ghost predicate FrugalNext(s: State, limit: nat, s': State, shared: set<nat>) {
    exists step :: Enabled(s, limit, step) && s' == After(s, limit, step) && FrugalStep(s, step, shared)
  }

  /** A run of frugal operations; they share the blocks of `shared`. */
  ghost predicate FrugalRun(limit: nat, ss: seq<State>, shared: set<nat>) {
    |ss| > 0 && Init(ss[0]) && forall i :: 0 <= i < |ss| - 1 ==> FrugalNext(ss[i], limit, ss[i + 1], shared)
  }

  lemma FrugalIsRun(limit: nat, ss: seq<State>, shared: set<nat>)
    requires FrugalRun(limit, ss, shared)
    ensures Run(limit, ss)
  {
    forall i | 0 <= i < |ss| - 1 ensures Next(ss[i], limit, ss[i + 1]) {
      assert FrugalNext(ss[i], limit, ss[i + 1], shared);
    }
  }

  lemma FrugalPrefix(limit: nat, ss: seq<State>, shared: set<nat>)
    requires FrugalRun(limit, ss, shared) && |ss| > 1
    ensures FrugalRun(limit, ss[..|ss| - 1], shared)
    ensures FrugalNext(ss[|ss| - 2], limit, ss[|ss| - 1], shared)
  {
    var n := |ss| - 1;
    assert FrugalNext(ss[n - 1], limit, ss[n - 1 + 1], shared);
    forall i | 0 <= i < n - 1 ensures FrugalNext(ss[..n][i], limit, ss[..n][i + 1], shared) {
      assert FrugalNext(ss[i], limit, ss[i + 1], shared);
    }
  }

  // ----- Room for frugal operations

  /** The blocks in the header. */
  ghost function Entries(h: Header): set<nat>
    requires h.len <= |h.blocknos|
  {
    set j | 0 <= j < h.len :: h.blocknos[j]
  }

  predicate Distinct(h: Header)
    requires h.len <= |h.blocknos|
  {
    forall i, j :: 0 <= i < j < h.len ==> h.blocknos[i] != h.blocknos[j]
  }

  lemma {:induction false} CountEntries(h: Header)
    requires h.len <= |h.blocknos| && Distinct(h)
    ensures |Entries(h)| == h.len
    decreases h.len
  {
    if h.len > 0 {
      var g := h.(len := h.len - 1);
      CountEntries(g);
      assert Entries(h) == Entries(g) + {h.blocknos[h.len - 1]};
    }
  }

  /** Blocks outside `shared` that operation `id` may still log. */
  ghost function Rest(pending: seq<Update>, id: nat, shared: set<nat>): int {
    OWN - |BlocksOf(pending, id) - shared|
  }

  /** The same for all active operations; there are at most two. */
  ghost function Rests(pending: seq<Update>, ops: seq<Op>, shared: set<nat>): int {
    (if |ops| > 0 then Rest(pending, ops[0].id, shared) else 0)
    + (if |ops| > 1 then Rest(pending, ops[1].id, shared) else 0)
  }

  ghost predicate OpFrugal(pending: seq<Update>, id: nat, shared: set<nat>) {
    Rest(pending, id, shared) >= 0
  }

  ghost predicate OpsFrugal(pending: seq<Update>, shared: set<nat>) {
    forall id: nat {:trigger OpFrugal(pending, id, shared)} :: OpFrugal(pending, id, shared)
  }

  /** At most 3 * OWN + 3 entries lie outside `shared`, counting those still to come. */
  ghost predicate ShareAt(h: Header, phase: Phase, ops: seq<Op>, pending: seq<Update>, shared: set<nat>) {
    && h.len <= |h.blocknos| && |ops| <= 2 && OpsFrugal(pending, shared)
    && |Entries(h) - shared| + Rests(pending, ops, shared) <= MAXOPBLOCKS - 1 + 2 * OWN
    && (phase.Idle? && ops == [] ==> h.len == 0)
  }

  ghost predicate ShareOk(h: Header, phase: Phase, ops: seq<Op>, pending: seq<Update>, shared: set<nat>) {
    forall g {:trigger ShareAt(g, phase, ops, pending, shared)} :: g == h ==> ShareAt(g, phase, ops, pending, shared)
  }

  lemma NothingPending(shared: set<nat>)
    ensures OpsFrugal([], shared)
  {
    forall id: nat ensures OpFrugal([], id, shared) { assert BlocksOf([], id) == {}; }
  }

  lemma ShareStarts(s: State, shared: set<nat>)
    requires Init(s)
    ensures ShareOk(s.h, s.phase, s.ops, s.pending, shared)
  {
    NothingPending(shared);
    assert Entries(s.h) == {};
  }

  lemma BeginKeepsShare(h: Header, phase: Phase, ops: seq<Op>, pending: seq<Update>, id: nat, shared: set<nat>)
    requires ShareOk(h, phase, ops, pending, shared) && h.len <= |h.blocknos| && Distinct(h)
    requires phase.Idle? && 1 + h.len + (|ops| + 1) * MAXOPBLOCKS <= LOGSIZE
    ensures ShareOk(h, phase, ops + [Op(id, 0)], pending, shared)
  {
    assert ShareAt(h, phase, ops, pending, shared);
    CountEntries(h);
    SubsetSize(Entries(h) - shared, Entries(h));
  }

  lemma EndKeepsShare(s: State, i: nat, shared: set<nat>)
    requires ShareOk(s.h, s.phase, s.ops, s.pending, shared) && i < |s.ops|
    ensures ShareOk(AfterEnd(s, i).h, AfterEnd(s, i).phase, AfterEnd(s, i).ops, s.pending, shared)
  {
    assert ShareAt(s.h, s.phase, s.ops, s.pending, shared);
    forall j | 0 <= j < |s.ops| ensures Rest(s.pending, s.ops[j].id, shared) >= 0 {
      assert OpFrugal(s.pending, s.ops[j].id, shared);
    }
  }

  /** A write uses up its own share of the block it enters, and nobody's share grows. */
  lemma WriteTakesShare(pending: seq<Update>, ops: seq<Op>, i: nat, u: Update, added: nat, shared: set<nat>)
    requires i < |ops| <= 2 && u.op == ops[i].id
    ensures Rests(pending + [u], ops[i := Op(u.op, added)], shared) <= Rests(pending, ops, shared)
    ensures Rests(pending + [u], ops, shared) <= Rests(pending, ops, shared)
    ensures u.b !in shared && u.b !in BlocksOf(pending, u.op) ==>
              Rests(pending + [u], ops[i := Op(u.op, added)], shared) < Rests(pending, ops, shared)
  {
    forall j | 0 <= j < |ops| ensures Rest(pending + [u], ops[j].id, shared) <= Rest(pending, ops[j].id, shared) {
      RestShrinks(pending, u, ops[j].id, shared);
    }
    RestShrinks(pending, u, u.op, shared);
  }

  lemma RestShrinks(pending: seq<Update>, u: Update, id: nat, shared: set<nat>)
    ensures Rest(pending + [u], id, shared) <= Rest(pending, id, shared)
    ensures id == u.op && u.b !in shared && u.b !in BlocksOf(pending, id) ==>
              Rest(pending + [u], id, shared) == Rest(pending, id, shared) - 1
  {
    var was, now := BlocksOf(pending, id) - shared, BlocksOf(pending + [u], id) - shared;
    OneMoreBlock(pending, u, id);
    SubsetSize(was, now);
    if id == u.op && u.b !in shared { assert now == was + {u.b}; }
  }

  lemma WriteKeepsFrugal(pending: seq<Update>, u: Update, shared: set<nat>)
    requires OpsFrugal(pending, shared) && Frugal(BlocksOf(pending, u.op) + {u.b}, shared)
    ensures OpsFrugal(pending + [u], shared)
  {
    forall id: nat ensures OpFrugal(pending + [u], id, shared) {
      assert OpFrugal(pending, id, shared);
      OneMoreBlock(pending, u, id);
      assert id != u.op ==> BlocksOf(pending + [u], id) == BlocksOf(pending, id);
    }
  }

  /** An operation that has updated a block has it in the header. */
  lemma UpdatedIsEntered(h: Header, pending: seq<Update>, id: nat, b: nat)
    requires h.len <= |h.blocknos| && PendingLogged(h, pending) && !Logged(h, b)
    ensures b !in BlocksOf(pending, id)
  {
  }

  lemma EnterBlock(h: Header, b: nat, shared: set<nat>)
    requires h.len < |h.blocknos|
    ensures |Entries(Header(h.len + 1, h.blocknos[h.len := b])) - shared|
            <= |Entries(h) - shared| + if b in shared then 0 else 1
  {
    var was, now := Entries(h) - shared, Entries(Header(h.len + 1, h.blocknos[h.len := b])) - shared;
    SubsetSize(now, if b in shared then was else was + {b});
  }

  lemma AbsorbKeepsShare(h: Header, phase: Phase, ops: seq<Op>, pending: seq<Update>, i: nat, u: Update,
                         shared: set<nat>)
    requires ShareOk(h, phase, ops, pending, shared) && i < |ops| && u.op == ops[i].id
    requires Frugal(BlocksOf(pending, u.op) + {u.b}, shared)
    ensures ShareOk(h, phase, ops, pending + [u], shared)
  {
    assert ShareAt(h, phase, ops, pending, shared);
    WriteKeepsFrugal(pending, u, shared);
    WriteTakesShare(pending, ops, i, u, 0, shared);
  }

  lemma EnterKeepsShare(h: Header, phase: Phase, ops: seq<Op>, pending: seq<Update>, i: nat, u: Update, added: nat,
                        shared: set<nat>)
    requires ShareOk(h, phase, ops, pending, shared) && i < |ops| && u.op == ops[i].id && h.len < |h.blocknos|
    requires Frugal(BlocksOf(pending, u.op) + {u.b}, shared) && u.b !in BlocksOf(pending, u.op)
    ensures var h' := Header(h.len + 1, h.blocknos[h.len := u.b]);
            ShareOk(h', phase, ops[i := Op(u.op, added)], pending + [u], shared)
  {
    assert ShareAt(h, phase, ops, pending, shared);
    WriteKeepsFrugal(pending, u, shared);
    WriteTakesShare(pending, ops, i, u, added, shared);
    EnterBlock(h, u.b, shared);
  }

  lemma WriteKeepsShare(s: State, i: nat, b: nat, data: Block, shared: set<nat>)
    requires i < |s.ops| && HandlesOf(s, b) > 0 && b in s.held && s.held[b].refs > 0
    requires s.h.len <= |s.h.blocknos| == LOGSIZE - 1 && PendingLogged(s.h, s.pending)
    requires ShareOk(s.h, s.phase, s.ops, s.pending, shared) && FrugalStep(s, WriteBuf(i, b, data), shared)
    ensures var s' := AfterWrite(s, i, b, data); ShareOk(s'.h, s'.phase, s'.ops, s'.pending, shared)
  {
    var u := Update(s.ops[i].id, b, data);
    var full := WriteEffect(s, i, b, data);
    if full {
    } else if Logged(s.h, b) {
      AbsorbKeepsShare(s.h, s.phase, s.ops, s.pending, i, u, shared);
    } else {
      UpdatedIsEntered(s.h, s.pending, u.op, b);
      EnterKeepsShare(s.h, s.phase, s.ops, s.pending, i, u, s.ops[i].added + 1, shared);
    }
  }

  /** What `write` does to header, operations and updates: nothing, if it finds the log full. */
  lemma WriteEffect(s: State, i: nat, b: nat, data: Block) returns (full: bool)
    requires i < |s.ops| && HandlesOf(s, b) > 0 && b in s.held && s.held[b].refs > 0
    requires s.h.len <= |s.h.blocknos| == LOGSIZE - 1
    ensures var s', u := AfterWrite(s, i, b, data), Update(s.ops[i].id, b, data);
            && s'.phase == s.phase && s'.pending == (if full then s.pending else s.pending + [u])
            && if full || Logged(s.h, b) then s'.h == s.h && s'.ops == s.ops
               else
                 && s.h.len < |s.h.blocknos| && s'.h == Header(s.h.len + 1, s.h.blocknos[s.h.len := b])
                 && s'.ops == s.ops[i := Op(u.op, s.ops[i].added + 1)]
  {
    full := Full(s, s.h.len + 1) || (!Logged(s.h, b) && Full(s, s.h.len + 2));
  }

  /** What the steps of the commit and of the buffer cache do to header, operations and updates. */
  lemma OtherEffect(s: State, limit: nat, step: Step)
    requires Enabled(s, limit, step) && !step.Begin? && !step.WriteBuf? && !step.End?
    requires (s.phase.Idle? || s.ops == []) && (s.phase.Emptied? ==> s.h.len == 0)
    ensures var s' := After(s, limit, step);
            && s'.ops == s.ops && (s'.h == s.h || s'.h == s.h.(len := 0))
            && (s'.pending == s.pending || (s'.pending == [] && s.ops == []))
            && (s'.phase.Idle? ==> s'.h == s.h && (s.phase.Idle? || s.h.len == 0))
  {
  }

  lemma OtherKeepsShare(s: State, limit: nat, step: Step, shared: set<nat>)
    requires ShareOk(s.h, s.phase, s.ops, s.pending, shared) && Enabled(s, limit, step)
    requires !step.Begin? && !step.WriteBuf? && !step.End?
    requires (s.phase.Idle? || s.ops == []) && (s.phase.Emptied? ==> s.h.len == 0)
    ensures var s' := After(s, limit, step); ShareOk(s'.h, s'.phase, s'.ops, s'.pending, shared)
  {
    assert ShareAt(s.h, s.phase, s.ops, s.pending, shared);
    OtherEffect(s, limit, step);
    NothingPending(shared);
    assert Entries(s.h.(len := 0)) == {};
  }

  /** What the invariant says about header, updates and operations. */
  ghost predicate BooksOk(h: Header, phase: Phase, ops: seq<Op>, pending: seq<Update>) {
    && h.len <= |h.blocknos| && Distinct(h) && PendingLogged(h, pending)
    && (phase.Idle? || ops == []) && (phase.Emptied? ==> h.len == 0)
  }

  lemma InvBooks(s: State)
    requires Inv(s)
    ensures BooksOk(s.h, s.phase, s.ops, s.pending)
  {
  }

  lemma StepKeepsShare(s: State, limit: nat, step: Step, shared: set<nat>)
    requires BooksOk(s.h, s.phase, s.ops, s.pending) && Enabled(s, limit, step) && FrugalStep(s, step, shared)
    requires ShareOk(s.h, s.phase, s.ops, s.pending, shared)
    ensures var s' := After(s, limit, step); ShareOk(s'.h, s'.phase, s'.ops, s'.pending, shared)
  {
    match step
    case Begin(id) => BeginKeepsShare(s.h, s.phase, s.ops, s.pending, id, shared);
    case WriteBuf(i, b, data) => WriteKeepsShare(s, i, b, data, shared);
    case End(i) => EndKeepsShare(s, i, shared);
    case _ => OtherKeepsShare(s, limit, step, shared);
  }

  /** A write that finds the log full would be too much for the shared blocks or for its operation's share. */
  lemma ShareLeavesRoom(h: Header, phase: Phase, ops: seq<Op>, pending: seq<Update>, i: nat, b: nat, shared: set<nat>)
    requires h.len <= |h.blocknos| && Distinct(h) && i < |ops|
    requires ShareOk(h, phase, ops, pending, shared) && |shared| <= 7
    requires Frugal(BlocksOf(pending, ops[i].id) + {b}, shared) && !Logged(h, b) && PendingLogged(h, pending)
    ensures h.len < LOGSIZE - 2
  {
    assert ShareAt(h, phase, ops, pending, shared);
    CountEntries(h);
    assert Entries(h) == Entries(h) - shared + Entries(h) * shared;
    SubsetSize(Entries(h) * shared, shared - {b});
    UpdatedIsEntered(h, pending, ops[i].id, b);
    RestsForMore(pending, ops, i, b, shared);
  }

  lemma RestForMore(pending: seq<Update>, id: nat, b: nat, shared: set<nat>)
    requires Frugal(BlocksOf(pending, id) + {b}, shared) && b !in BlocksOf(pending, id) && b !in shared
    ensures Rest(pending, id, shared) >= 1
  {
    assert BlocksOf(pending, id) + {b} - shared == BlocksOf(pending, id) - shared + {b};
  }

  /** As long as an operation may log a block of its own, something is left of the shares. */
  lemma RestsForMore(pending: seq<Update>, ops: seq<Op>, i: nat, b: nat, shared: set<nat>)
    requires OpsFrugal(pending, shared) && i < |ops| <= 2 && b !in BlocksOf(pending, ops[i].id)
    requires Frugal(BlocksOf(pending, ops[i].id) + {b}, shared)
    ensures Rests(pending, ops, shared) >= if b in shared then 0 else 1
  {
    assert OpFrugal(pending, ops[0].id, shared);
    if |ops| > 1 { assert OpFrugal(pending, ops[1].id, shared); }
    if b !in shared { RestForMore(pending, ops[i].id, b, shared); }
  }

  ghost predicate Shares(s: State, shared: set<nat>) {
    ShareOk(s.h, s.phase, s.ops, s.pending, shared) && !s.panic.NoRoom?
  }

  lemma NextKeepsShare(s: State, limit: nat, s': State, shared: set<nat>)
    requires Safe(s) && Shares(s, shared) && |shared| <= 7 && FrugalNext(s, limit, s', shared)
    ensures Shares(s', shared)
  {
    var step :| Enabled(s, limit, step) && s' == After(s, limit, step) && FrugalStep(s, step, shared);
    InvBooks(s);
    StepKeepsShare(s, limit, step, shared);
    PanicsOf(s, limit, step);
    if s'.panic.NoRoom? { ShareLeavesRoom(s.h, s.phase, s.ops, s.pending, step.i, step.b, shared); }
  }

  /** Frugal operations that share at most seven blocks never fill the log. */
  lemma {:induction false} FrugalKeepsSpace(limit: nat, ss: seq<State>, shared: set<nat>)
    requires FrugalRun(limit, ss, shared) && |shared| <= 7
    ensures Shares(ss[|ss| - 1], shared)
    decreases |ss|
  {
    var n := |ss| - 1;
    if n == 0 {
      ShareStarts(ss[0], shared);
    } else {
      FrugalPrefix(limit, ss, shared);
      FrugalKeepsSpace(limit, ss[..n], shared);
      FrugalIsRun(limit, ss[..n], shared);
      RunKeepsInv(limit, ss[..n]);
      NextKeepsShare(ss[n - 1], limit, ss[n], shared);
    }
  }

  // ----- The limits are sharp

  const FIRST := 30

  /** A disk of 60 empty blocks, the first half of it the log. */
  ghost function Blank(): State {
    var d := seq(60, i => Data(seq(BSIZE, j => 0)));
    State(Area(0, 30), d, [], Idle, HeaderOf(d[0]), map[], map[], [], [], [], d, map[], NoPanic)
  }

  lemma BlankIsInit()
    ensures Init(Blank()) && Blank().h.len == 0
  {
    assert WordAt(seq(BSIZE, j => 0), 0) == 0;
  }

  lemma BlankRun(limit: nat, shared: set<nat>) returns (ss: seq<State>)
    ensures FrugalRun(limit, ss, shared) && Filled(ss[|ss| - 1], 0)
    ensures ss[|ss| - 1].ops == [] && ss[|ss| - 1].epoch == map[] && ss[|ss| - 1].pending == []
  {
    BlankIsInit();
    ss := [Blank()];
    assert Span(0, 0) == {};
  }

  predicate AfterLog(b: nat) {
    FIRST <= b
  }

  /** The blocks from the lo-th to the hi-th after the log. */
  ghost function Span(lo: nat, hi: nat): set<nat> {
    set b: nat | b < FIRST + hi && AfterLog(b) && FIRST + lo <= b
  }

  lemma {:induction false} SizeOfSpan(lo: nat, hi: nat)
    requires lo <= hi
    ensures |Span(lo, hi)| == hi - lo
  {
    if lo < hi {
      SizeOfSpan(lo, hi - 1);
      assert Span(lo, hi) == Span(lo, hi - 1) + {FIRST + hi - 1};
    } else {
      assert Span(lo, hi) == {};
    }
  }

  /** The first `n` blocks after the log are in the header, nothing else is in use. */
  ghost predicate Filled(s: State, n: nat) {
    && s.area == Area(0, 30) && |s.disk| == 60 && s.phase.Idle? && s.panic.NoPanic?
    && s.h.len == n <= |s.h.blocknos| == LOGSIZE - 1 && (forall j :: 0 <= j < n ==> s.h.blocknos[j] == FIRST + j)
    && s.held.Keys == Span(0, n)
  }

  lemma Extend(limit: nat, ss: seq<State>, t: State, shared: set<nat>)
    requires FrugalRun(limit, ss, shared) && FrugalNext(ss[|ss| - 1], limit, t, shared)
    ensures FrugalRun(limit, ss + [t], shared)
  {
    var ss' := ss + [t];
    forall i | 0 <= i < |ss'| - 1 ensures FrugalNext(ss'[i], limit, ss'[i + 1], shared) {
      if i < |ss| - 1 { assert FrugalNext(ss[i], limit, ss[i + 1], shared); }
    }
  }

  /** Operation `i` has entered the n-th block after the log; with the header at its limit, that is the panic. */
  ghost predicate OneMore(s: State, s': State, n: nat, i: nat) {
    if n >= LOGSIZE - 2 then s'.panic.NoRoom?
    else
      && Filled(s', n + 1) && i < |s.ops| && FIRST + n < |s.disk| && s'.epoch == s.epoch
      && s'.ops == s.ops[i := Op(s.ops[i].id, s.ops[i].added + 1)]
      && s'.pending == s.pending + [Update(s.ops[i].id, FIRST + n, s.disk[FIRST + n])]
  }

  lemma RoomForOne(s: State, n: nat)
    requires Filled(s, n) && n <= LOGSIZE - 2
    ensures FIRST + n !in s.held && CanGet(s.held, FIRST + n) && Span(0, n + 1) == Span(0, n) + {FIRST + n}
  {
    SizeOfSpan(0, n);
    assert |s.held| == |s.held.Keys| == n;
  }

  /** One operation reads and writes one more block. */
  lemma FillStates(limit: nat, s: State, n: nat, i: nat, shared: set<nat>) returns (s1: State, s2: State)
    requires Filled(s, n) && n <= LOGSIZE - 2 && i < |s.ops| && s.ops[i].added < limit
    requires Frugal(BlocksOf(s.pending, s.ops[i].id) + {FIRST + n}, shared)
    ensures FrugalNext(s, limit, s1, shared) && FrugalNext(s1, limit, s2, shared) && OneMore(s, s2, n, i)
  {
    RoomForOne(s, n);
    s1 := FillFirst(limit, s, n, shared);
    s2 := FillSecond(limit, s, s1, n, i, shared);
  }

  lemma FillFirst(limit: nat, s: State, n: nat, shared: set<nat>) returns (s1: State)
    requires Filled(s, n) && n <= LOGSIZE - 2 && FIRST + n !in s.held && CanGet(s.held, FIRST + n)
    ensures FrugalNext(s, limit, s1, shared) && s1 == AfterGet(s, FIRST + n)
  {
    var get := GetBuf(FIRST + n);
    assert Enabled(s, limit, get) && FrugalStep(s, get, shared);
    s1 := AfterGet(s, FIRST + n);
    assert s1 == After(s, limit, get);
  }

  lemma FillSecond(limit: nat, s: State, s1: State, n: nat, i: nat, shared: set<nat>) returns (s2: State)
    requires Filled(s, n) && n <= LOGSIZE - 2 && i < |s.ops| && s.ops[i].added < limit
    requires FIRST + n !in s.held && CanGet(s.held, FIRST + n) && s1 == AfterGet(s, FIRST + n)
    requires Frugal(BlocksOf(s.pending, s.ops[i].id) + {FIRST + n}, shared)
    requires Span(0, n + 1) == Span(0, n) + {FIRST + n}
    ensures FrugalNext(s1, limit, s2, shared) && OneMore(s, s2, n, i)
  {
    var put := WriteBuf(i, FIRST + n, s.disk[FIRST + n]);
    assert Enabled(s1, limit, put) && FrugalStep(s1, put, shared);
    s2 := AfterWrite(s1, i, FIRST + n, s.disk[FIRST + n]);
    assert s2 == After(s1, limit, put);
    EnterEffect(s, s1, n, i, s.disk[FIRST + n]);
  }

  lemma EnterEffect(s: State, s1: State, n: nat, i: nat, data: Block)
    requires Filled(s, n) && n <= LOGSIZE - 2 && i < |s.ops| && data == s.disk[FIRST + n]
    requires s1 == s.(held := s1.held, handles := s1.handles) && s1.held.Keys == s.held.Keys + {FIRST + n}
    requires HandlesOf(s1, FIRST + n) > 0 && s1.held[FIRST + n].refs > 0
    requires Span(0, n + 1) == Span(0, n) + {FIRST + n}
    ensures OneMore(s, AfterWrite(s1, i, FIRST + n, data), n, i)
  {
    assert !Logged(s1.h, FIRST + n);
    var held := SetData(s1.held, FIRST + n, data);
    assert held.Keys == s1.held.Keys;
    assert Drop(Pin(held, FIRST + n), FIRST + n).Keys == s1.held.Keys;
  }

  lemma FillOne(limit: nat, ss: seq<State>, n: nat, i: nat, shared: set<nat>) returns (ss': seq<State>)
    requires FrugalRun(limit, ss, shared) && Filled(ss[|ss| - 1], n) && n <= LOGSIZE - 2
    requires i < |ss[|ss| - 1].ops| && ss[|ss| - 1].ops[i].added < limit
    requires Frugal(BlocksOf(ss[|ss| - 1].pending, ss[|ss| - 1].ops[i].id) + {FIRST + n}, shared)
    ensures FrugalRun(limit, ss', shared) && OneMore(ss[|ss| - 1], ss'[|ss'| - 1], n, i)
  {
    var s1, s2 := FillStates(limit, ss[|ss| - 1], n, i, shared);
    Extend(limit, ss, s1, shared);
    Extend(limit, ss + [s1], s2, shared);
    ss' := ss + [s1] + [s2];
  }

  /** The operation `id` has entered blocks from the lo-th on, and those up to the hi-th are within its share. */
  ghost predicate Spends(s: State, id: nat, lo: nat, n: nat, hi: nat, shared: set<nat>) {
    BlocksOf(s.pending, id) <= Span(lo, n) && Frugal(Span(lo, hi), shared)
  }

  /** All operations but `id` have updated what they had. */
  ghost predicate OnlyOf(s: State, s': State, id: nat) {
    forall other: nat :: other != id ==> BlocksOf(s'.pending, other) == BlocksOf(s.pending, other)
  }

  /** Operation `i` has entered `m` blocks more, up to the hi-th; with all entries used, that is the panic. */
  ghost predicate ManyMore(s: State, s': State, hi: nat, i: nat, m: nat) {
    if hi >= LOGSIZE - 1 then s'.panic.NoRoom?
    else
      && Filled(s', hi) && i < |s.ops| && OnlyOf(s, s', s.ops[i].id) && s'.epoch == s.epoch
      && s'.ops == s.ops[i := Op(s.ops[i].id, s.ops[i].added + m)]
  }

  /** Operation `i` is to enter the blocks from the n-th to the hi-th. */
  ghost predicate ToSpend(s: State, limit: nat, lo: nat, n: nat, hi: nat, i: nat, shared: set<nat>) {
    && Filled(s, n) && lo <= n < hi <= LOGSIZE - 1 && i < |s.ops| && s.ops[i].added + hi - n <= limit
    && Spends(s, s.ops[i].id, lo, n, hi, shared)
  }

  lemma MaySpend(s: State, limit: nat, lo: nat, n: nat, hi: nat, i: nat, shared: set<nat>)
    requires ToSpend(s, limit, lo, n, hi, i, shared)
    ensures Filled(s, n) && n <= LOGSIZE - 2 && i < |s.ops| && s.ops[i].added < limit
    ensures Frugal(BlocksOf(s.pending, s.ops[i].id) + {FIRST + n}, shared)
  {
    FrugalPart(BlocksOf(s.pending, s.ops[i].id) + {FIRST + n}, Span(lo, hi), shared);
  }

  lemma SpendOne(s: State, s1: State, limit: nat, lo: nat, n: nat, hi: nat, i: nat, shared: set<nat>)
    requires ToSpend(s, limit, lo, n, hi, i, shared) && OneMore(s, s1, n, i)
    ensures if n + 1 < hi then ToSpend(s1, limit, lo, n + 1, hi, i, shared) else ManyMore(s, s1, hi, i, 1)
    ensures n + 1 < hi ==> OnlyOf(s, s1, s.ops[i].id)
  {
    if n < LOGSIZE - 2 {
      var u := Update(s.ops[i].id, FIRST + n, s.disk[FIRST + n]);
      forall id: nat ensures BlocksOf(s1.pending, id) == BlocksOf(s.pending, id) + if id == u.op then {u.b} else {} {
        OneMoreBlock(s.pending, u, id);
      }
    }
  }

  lemma ManyOfOne(s: State, s1: State, s': State, n: nat, hi: nat, i: nat)
    requires n + 1 < hi <= LOGSIZE - 1 && i < |s.ops| && OneMore(s, s1, n, i) && OnlyOf(s, s1, s.ops[i].id)
    requires ManyMore(s1, s', hi, i, hi - n - 1)
    ensures ManyMore(s, s', hi, i, hi - n)
  {
  }

  lemma FillStep(limit: nat, ss: seq<State>, lo: nat, n: nat, hi: nat, i: nat, shared: set<nat>)
      returns (ss': seq<State>)
    requires FrugalRun(limit, ss, shared) && ToSpend(ss[|ss| - 1], limit, lo, n, hi, i, shared)
    ensures FrugalRun(limit, ss', shared) && OneMore(ss[|ss| - 1], ss'[|ss'| - 1], n, i)
    ensures if n + 1 < hi then ToSpend(ss'[|ss'| - 1], limit, lo, n + 1, hi, i, shared)
            else ManyMore(ss[|ss| - 1], ss'[|ss'| - 1], hi, i, 1)
    ensures i < |ss[|ss| - 1].ops|
    ensures n + 1 < hi ==> OnlyOf(ss[|ss| - 1], ss'[|ss'| - 1], ss[|ss| - 1].ops[i].id)
  {
    MaySpend(ss[|ss| - 1], limit, lo, n, hi, i, shared);
    ss' := FillOne(limit, ss, n, i, shared);
    SpendOne(ss[|ss| - 1], ss'[|ss'| - 1], limit, lo, n, hi, i, shared);
  }

  lemma FillMany(limit: nat, ss: seq<State>, lo: nat, n: nat, hi: nat, i: nat, shared: set<nat>)
      returns (ss': seq<State>)
    requires FrugalRun(limit, ss, shared) && ToSpend(ss[|ss| - 1], limit, lo, n, hi, i, shared)
    ensures FrugalRun(limit, ss', shared) && ManyMore(ss[|ss| - 1], ss'[|ss'| - 1], hi, i, hi - n)
    decreases hi - n
  {
    var ss1 := FillStep(limit, ss, lo, n, hi, i, shared);
    if n + 1 < hi {
      ss' := FillMany(limit, ss1, lo, n + 1, hi, i, shared);
      ManyOfOne(ss[|ss| - 1], ss1[|ss1| - 1], ss'[|ss'| - 1], n, hi, i);
    } else {
      ss' := ss1;
    }
  }

  lemma OneStep(limit: nat, ss: seq<State>, n: nat, step: Step, shared: set<nat>) returns (ss': seq<State>)
    requires FrugalRun(limit, ss, shared) && Filled(ss[|ss| - 1], n) && Enabled(ss[|ss| - 1], limit, step)
    requires step.Begin? || (step.End? && |ss[|ss| - 1].ops| > 1)
    ensures FrugalRun(limit, ss', shared) && Filled(ss'[|ss'| - 1], n)
            && ss'[|ss'| - 1] == After(ss[|ss| - 1], limit, step)
  {
    ss' := ss + [After(ss[|ss| - 1], limit, step)];
    Extend(limit, ss, ss'[|ss|], shared);
  }

  /** The shared blocks of the run below. */
  ghost function FourAndFour(): set<nat> {
    Span(9, 13) + Span(19, 23)
  }

  lemma FourAndFourCount()
    ensures |FourAndFour()| == 8
    ensures Frugal(Span(0, 6), FourAndFour()) && Frugal(Span(6, 9), FourAndFour())
    ensures Frugal(Span(9, 19), FourAndFour()) && Frugal(Span(19, 29), FourAndFour())
  {
    var shared := FourAndFour();
    SizeOfSpan(0, 6); SizeOfSpan(6, 9); SizeOfSpan(9, 19); SizeOfSpan(19, 29);
    SizeOfSpan(9, 13); SizeOfSpan(19, 23); SizeOfSpan(13, 19); SizeOfSpan(23, 29);
    assert Span(9, 13) * Span(19, 23) == {};
    SubsetSize(Span(0, 6) - shared, Span(0, 6));
    SubsetSize(Span(6, 9) - shared, Span(6, 9));
    SubsetSize(Span(9, 19) - shared, Span(13, 19));
    SubsetSize(Span(19, 29) - shared, Span(23, 29));
  }

  /** Four frugal operations that share eight blocks fill the log: A and B begin; A enters six blocks and ends; C
    * begins, enters three and ends; D begins; B and D enter six blocks of their own and four shared ones each. */
  lemma FrugalOverflows(limit: nat) returns (ss: seq<State>)
    requires limit >= MAXOPBLOCKS
    ensures FrugalRun(limit, ss, FourAndFour()) && ss[|ss| - 1].panic.NoRoom?
  {
    var shared := FourAndFour();
    FourAndFourCount();
    ss := FirstNine(limit, shared);
    ss := FillMany(limit, ss, 9, 9, 19, 0, shared);
    ss := FillMany(limit, ss, 19, 19, 29, 1, shared);
  }

  /** The run until A has ended, with six entries in the header. */
  lemma FirstSix(limit: nat, shared: set<nat>) returns (ss: seq<State>)
    requires limit >= MAXOPBLOCKS && Frugal(Span(0, 6), shared)
    ensures FrugalRun(limit, ss, shared) && Filled(ss[|ss| - 1], 6) && ss[|ss| - 1].ops == [Op(1, 0)]
    ensures ss[|ss| - 1].epoch.Keys == {0, 1}
    ensures BlocksOf(ss[|ss| - 1].pending, 1) == BlocksOf(ss[|ss| - 1].pending, 2) == {}
    ensures BlocksOf(ss[|ss| - 1].pending, 3) == {}
  {
    ss := BlankRun(limit, shared);
    assert forall id: nat :: BlocksOf([], id) == {};
    ss := OneStep(limit, ss, 0, Begin(0), shared);
    ss := OneStep(limit, ss, 0, Begin(1), shared);
    ss := FillMany(limit, ss, 0, 0, 6, 0, shared);
    ss := OneStep(limit, ss, 6, End(0), shared);
  }

  /** The run until B and D are the active operations and the header has nine entries, none of them theirs. */
  lemma FirstNine(limit: nat, shared: set<nat>) returns (ss: seq<State>)
    requires limit >= MAXOPBLOCKS && Frugal(Span(0, 6), shared) && Frugal(Span(6, 9), shared)
    ensures FrugalRun(limit, ss, shared) && Filled(ss[|ss| - 1], 9) && ss[|ss| - 1].ops == [Op(1, 0), Op(3, 0)]
    ensures BlocksOf(ss[|ss| - 1].pending, 1) == {} && BlocksOf(ss[|ss| - 1].pending, 3) == {}
  {
    ss := FirstSix(limit, shared);
    ss := OneStep(limit, ss, 6, Begin(2), shared);
    ss := FillMany(limit, ss, 6, 6, 9, 1, shared);
    ss := OneStep(limit, ss, 9, End(1), shared);
    ss := OneStep(limit, ss, 9, Begin(3), shared);
  }

  /** Operations that log up to MAXOPBLOCKS blocks, at most OWN of them outside a set of `n` shared blocks, never find
    * the log full exactly if that set has at most seven blocks. */
  lemma RoomIffFewShared(limit: nat, n: nat)
    requires limit >= MAXOPBLOCKS
    ensures (forall ss: seq<State>, shared: set<nat> :: |shared| <= n && FrugalRun(limit, ss, shared) ==>
               !ss[|ss| - 1].panic.NoRoom?)
            <==> n <= 7
  {
    if n <= 7 {
      forall ss: seq<State>, shared: set<nat> | |shared| <= n && FrugalRun(limit, ss, shared)
        ensures !ss[|ss| - 1].panic.NoRoom?
      {
        FrugalKeepsSpace(limit, ss, shared);
      }
    } else {
      FourAndFourCount();
      var ss := FrugalOverflows(limit);
      assert |FourAndFour()| <= n && FrugalRun(limit, ss, FourAndFour());
    }
  }

  /** Operations that enter the MAXOPBLOCKS blocks that admission allows for can fill the log. */
  lemma LogOverflows(limit: nat) returns (ss: seq<State>)
    requires limit >= MAXOPBLOCKS
    ensures Run(limit, ss) && ss[|ss| - 1].panic.NoRoom?
  {
    ss := FrugalOverflows(limit);
    FrugalIsRun(limit, ss, FourAndFour());
  }

  /** `write` never finds the log full exactly if operations enter fewer than MAXOPBLOCKS new blocks each. */
  lemma RoomIffFewerBlocks(limit: nat)
    ensures (forall ss: seq<State> :: Run(limit, ss) ==> !ss[|ss| - 1].panic.NoRoom?) <==> limit < MAXOPBLOCKS
  {
    if limit < MAXOPBLOCKS {
      forall ss: seq<State> | Run(limit, ss) ensures !ss[|ss| - 1].panic.NoRoom? { RunKeepsSpace(limit, ss); }
    } else {
      var ss := LogOverflows(limit);
    }
  }
}
