/** A long write and a crash: each batch is an operation of the log, so a prefix of the batches survives. */
module FileCommit {
  import opened Words
  import opened LogSpec
  import opened BlockCache
  import opened LogProtocol
  import opened LogRoom
  import opened FsSpec
  import opened FsInode
  import opened FsWrite
  import opened FsDisk
  import opened FileWrite

  /** The blocks that each batch hands to `write` of the log, in order. */
  type Plan = seq<seq<Write>>

  /** The plan of a batch leads from the disk before to the disk after it, and stays within its cost. */
  ghost predicate PlanAt(t: Trail, plan: Plan, m: nat) {
    m < |plan| && m < |t.costs| && m + 1 < |t.disks| ==>
      && WritesFit(t.disks[m], plan[m]) && Apply(t.disks[m], plan[m]) == t.disks[m + 1]
      && forall i :: 0 <= i < |plan[m]| ==> plan[m][i].b in t.costs[m]
  }

  ghost predicate PlanOk(t: Trail, plan: Plan) {
    && |plan| == |t.costs| && |t.disks| == |t.costs| + 1
    && forall m: nat {:trigger PlanAt(t, plan, m)} :: PlanAt(t, plan, m)
  }

  /** Every batch has such a plan: it need only log what it changes. */
  lemma {:induction false} BatchHasPlan(d: Disk, d': Disk, cost: set<nat>, n: nat) returns (ws: seq<Write>)
    requires Covered(d, d', {}, cost) && n <= |d|
    ensures WritesFit(d, ws) && forall i :: 0 <= i < |ws| ==> ws[i].b in cost
    ensures forall b :: 0 <= b < |d| ==> Apply(d, ws)[b] == if b < n then d'[b] else d[b]
  {
    if n == 0 { return []; }
    ws := BatchHasPlan(d, d', cost, n - 1);
    if n - 1 in cost {
      ApplyAppend(d, ws, Write(n - 1, d'[n - 1]));
      ws := ws + [Write(n - 1, d'[n - 1])];
    }
  }

  lemma {:induction false} TrailHasPlan(t: Trail, m: nat) returns (plan: Plan)
    requires |t.disks| == |t.costs| + 1 && m <= |t.costs|
    requires forall j :: 0 <= j < m ==> Covered(t.disks[j], t.disks[j + 1], {}, t.costs[j])
    ensures |plan| == m && forall j: nat {:trigger PlanAt(t, plan, j)} :: PlanAt(t, plan, j)
  {
    if m == 0 { return []; }
    var before := TrailHasPlan(t, m - 1);
    var ws := BatchHasPlan(t.disks[m - 1], t.disks[m], t.costs[m - 1], |t.disks[m - 1]|);
    assert Apply(t.disks[m - 1], ws) == t.disks[m];
    plan := before + [ws];
    forall j: nat ensures PlanAt(t, plan, j) { assert PlanAt(t, before, j); }
  }

  // ----- One process carries out the plan, among others

  function Tagged(ws: seq<Write>, op: nat): (us: seq<Update>)
    ensures |us| == |ws| && forall i :: 0 <= i < |us| ==> us[i] == Update(op, ws[i].b, ws[i].data)
  {
    seq(|ws|, i requires 0 <= i < |ws| => Update(op, ws[i].b, ws[i].data))
  }

  /** The updates of the first `m` batches; batch `m` is operation `m`. */
  function PlanUpto(plan: Plan, m: nat): seq<Update>
    requires m <= |plan|
  {
    if m == 0 then [] else PlanUpto(plan, m - 1) + Tagged(plan[m - 1], m - 1)
  }

  function Flat(groups: seq<seq<Update>>): seq<Update>
    decreases |groups|
  {
    if groups == [] then [] else Flat(groups[..|groups| - 1]) + groups[|groups| - 1]
  }

  /** All updates so far. */
  function All(s: State): seq<Update> {
    Flat(s.history) + s.pending
  }

  /** The updates of the batches; other operations have numbers from `n` on. */
  function Own(us: seq<Update>, n: nat): seq<Update>
    decreases |us|
  {
    if us == [] then []
    else
      var rest, u := Own(us[..|us| - 1], n), us[|us| - 1];
      if u.op < n then rest + [u] else rest
  }

  lemma OwnOne(us: seq<Update>, u: Update, n: nat)
    ensures Own(us + [u], n) == Own(us, n) + if u.op < n then [u] else []
  {
    assert (us + [u])[..|us|] == us;
  }

  /** The other operations keep away from the blocks of `mine`. */
  ghost predicate Apart(us: seq<Update>, n: nat, mine: set<nat>) {
    forall i :: 0 <= i < |us| && us[i].op >= n ==> us[i].b !in mine
  }

  /** No batch is under way. */
  ghost predicate Pausing(ops: seq<Op>, n: nat) {
    forall i :: 0 <= i < |ops| ==> ops[i].id >= n
  }

  /** Operation `i` is the batch under way. */
  ghost predicate Working(ops: seq<Op>, n: nat, i: nat) {
    i < |ops| && ops[i].id < n && forall j :: 0 <= j < |ops| && j != i ==> ops[j].id >= n
  }

  /** The process runs one batch after the other, and hands over what the plan says; what others hand over lies outside
    * `mine`. */
  ghost predicate Follows(s: State, plan: Plan, mine: set<nat>, step: Step) {
    match step
    case Begin(id) => id < |plan| ==> Pausing(s.ops, |plan|) && Own(All(s), |plan|) == PlanUpto(plan, id)
    case WriteBuf(i, b, data) =>
      i < |s.ops| &&
      if s.ops[i].id < |plan| then
        var k := |Own(All(s), |plan|)| - |PlanUpto(plan, s.ops[i].id)|;
        0 <= k < |plan[s.ops[i].id]| && plan[s.ops[i].id][k] == Write(b, data)
      else b !in mine
    case End(i) =>
      i < |s.ops| && (s.ops[i].id < |plan| ==> Own(All(s), |plan|) == PlanUpto(plan, s.ops[i].id + 1))
    case _ => true
  }

  ghost predicate FollowsNext(s: State, limit: nat, plan: Plan, mine: set<nat>, s': State) {
    exists step :: Enabled(s, limit, step) && Follows(s, plan, mine, step) && s' == After(s, limit, step)
  }

  ghost predicate PlanRun(limit: nat, ss: seq<State>, plan: Plan, mine: set<nat>) {
    Run(limit, ss) && forall i :: 0 <= i < |ss| - 1 ==> FollowsNext(ss[i], limit, plan, mine, ss[i + 1])
  }

  ghost predicate IsPart(own: seq<Update>, plan: Plan, m: nat, k: nat) {
    m < |plan| && k <= |plan[m]| && own == PlanUpto(plan, m) + Tagged(plan[m], m)[..k]
  }

  ghost predicate IsWhole(us: seq<Update>, plan: Plan, m: nat) {
    m <= |plan| && us == PlanUpto(plan, m)
  }

  /** Between batches whole ones are handed over, and the committed ones are a prefix. */
  ghost predicate Progress(all: seq<Update>, committed: seq<Update>, ops: seq<Op>, plan: Plan, mine: set<nat>) {
    && Apart(all, |plan|, mine) && (exists m: nat :: IsWhole(Own(committed, |plan|), plan, m))
    && ((Pausing(ops, |plan|) && exists m: nat :: IsWhole(Own(all, |plan|), plan, m))
        || exists i: nat, k: nat :: Working(ops, |plan|, i) && IsPart(Own(all, |plan|), plan, ops[i].id, k))
  }

  lemma PartIsWhole(plan: Plan, m: nat)
    requires m < |plan|
    ensures Tagged(plan[m], m)[..0] == [] && Tagged(plan[m], m)[..|plan[m]|] == Tagged(plan[m], m)
  {
  }

  lemma BeginFollows(all: seq<Update>, committed: seq<Update>, ops: seq<Op>, plan: Plan, mine: set<nat>, id: nat)
    requires Progress(all, committed, ops, plan, mine)
    requires id < |plan| ==> Pausing(ops, |plan|) && Own(all, |plan|) == PlanUpto(plan, id)
    ensures Progress(all, committed, ops + [Op(id, 0)], plan, mine)
  {
    var ops' := ops + [Op(id, 0)];
    if id < |plan| {
      PartIsWhole(plan, id);
      assert PlanUpto(plan, id) + [] == PlanUpto(plan, id);
      assert Working(ops', |plan|, |ops|) && IsPart(Own(all, |plan|), plan, ops'[|ops|].id, 0);
    } else if !Pausing(ops, |plan|) {
      var i: nat, k: nat :| Working(ops, |plan|, i) && IsPart(Own(all, |plan|), plan, ops[i].id, k);
      assert Working(ops', |plan|, i) && IsPart(Own(all, |plan|), plan, ops'[i].id, k);
    }
  }

  lemma PartGrows(own: seq<Update>, plan: Plan, m: nat, k: nat, u: Update)
    requires IsPart(own, plan, m, k) && k < |plan[m]| && u == Update(m, plan[m][k].b, plan[m][k].data)
    ensures IsPart(own + [u], plan, m, k + 1)
  {
    assert Tagged(plan[m], m)[..k] + [u] == Tagged(plan[m], m)[..k + 1];
    assert PlanUpto(plan, m) + Tagged(plan[m], m)[..k] + [u] == PlanUpto(plan, m) + Tagged(plan[m], m)[..k + 1];
  }

  /** The same operations, whatever they have added. */
  ghost predicate SameIds(ops: seq<Op>, ops': seq<Op>) {
    |ops'| == |ops| && forall i :: 0 <= i < |ops| ==> ops'[i].id == ops[i].id
  }

  lemma SameIdsProgress(all: seq<Update>, committed: seq<Update>, ops: seq<Op>, ops': seq<Op>, plan: Plan,
                        mine: set<nat>)
    requires Progress(all, committed, ops, plan, mine) && SameIds(ops, ops')
    ensures Progress(all, committed, ops', plan, mine)
  {
    if !Pausing(ops, |plan|) {
      var i: nat, k: nat :| Working(ops, |plan|, i) && IsPart(Own(all, |plan|), plan, ops[i].id, k);
      assert Working(ops', |plan|, i) && IsPart(Own(all, |plan|), plan, ops'[i].id, k);
    }
  }

  lemma ApartOne(us: seq<Update>, u: Update, n: nat, mine: set<nat>)
    requires Apart(us, n, mine) && (u.op >= n ==> u.b !in mine)
    ensures Apart(us + [u], n, mine)
  {
  }

  lemma OwnUpdateFollows(own: seq<Update>, ops: seq<Op>, plan: Plan, i: nat, u: Update)
    requires exists j: nat, k: nat :: Working(ops, |plan|, j) && IsPart(own, plan, ops[j].id, k)
    requires i < |ops| && u.op == ops[i].id < |plan|
    requires var k := |own| - |PlanUpto(plan, u.op)|; 0 <= k < |plan[u.op]| && plan[u.op][k] == Write(u.b, u.data)
    ensures exists j: nat, k: nat :: Working(ops, |plan|, j) && IsPart(own + [u], plan, ops[j].id, k)
  {
    var j: nat, k: nat :| Working(ops, |plan|, j) && IsPart(own, plan, ops[j].id, k);
    assert j == i;
    PartGrows(own, plan, u.op, k, u);
    assert Working(ops, |plan|, i) && IsPart(own + [u], plan, ops[i].id, k + 1);
  }

  /** An update is handed over. */
  lemma UpdateFollows(all: seq<Update>, committed: seq<Update>, ops: seq<Op>, plan: Plan, mine: set<nat>, i: nat,
                      u: Update)
    requires Progress(all, committed, ops, plan, mine) && i < |ops| && u.op == ops[i].id
    requires if u.op < |plan| then
               var k := |Own(all, |plan|)| - |PlanUpto(plan, u.op)|;
               0 <= k < |plan[u.op]| && plan[u.op][k] == Write(u.b, u.data)
             else u.b !in mine
    ensures Progress(all + [u], committed, ops, plan, mine)
  {
    OwnOne(all, u, |plan|);
    ApartOne(all, u, |plan|, mine);
    if u.op < |plan| {
      OwnUpdateFollows(Own(all, |plan|), ops, plan, i, u);
    } else {
      assert Own(all + [u], |plan|) == Own(all, |plan|);
    }
  }

  /** The update is handed over, or `write` panics. */
  lemma WriteHands(s: State, i: nat, b: nat, data: Block)
    requires i < |s.ops|
    requires HandlesOf(s, b) > 0 && b in s.held && s.held[b].refs > 0 && s.h.len <= |s.h.blocknos| == LOGSIZE - 1
    ensures var s' := AfterWrite(s, i, b, data);
            && s'.history == s.history && SameIds(s.ops, s'.ops)
            && (All(s') == All(s) || All(s') == All(s) + [Update(s.ops[i].id, b, data)])
  {
    var u := Update(s.ops[i].id, b, data);
    assert Flat(s.history) + (s.pending + [u]) == All(s) + [u];
  }

  lemma WriteFollows(s: State, plan: Plan, mine: set<nat>, i: nat, b: nat, data: Block)
    requires Progress(All(s), Flat(s.history), s.ops, plan, mine) && Follows(s, plan, mine, WriteBuf(i, b, data))
    requires HandlesOf(s, b) > 0 && b in s.held && s.held[b].refs > 0 && s.h.len <= |s.h.blocknos| == LOGSIZE - 1
    ensures var s' := AfterWrite(s, i, b, data); Progress(All(s'), Flat(s'.history), s'.ops, plan, mine)
  {
    var s', u := AfterWrite(s, i, b, data), Update(s.ops[i].id, b, data);
    UpdateFollows(All(s), Flat(s.history), s.ops, plan, mine, i, u);
    WriteHands(s, i, b, data);
    SameIdsProgress(All(s'), Flat(s.history), s.ops, s'.ops, plan, mine);
  }

  lemma EndFollows(all: seq<Update>, committed: seq<Update>, ops: seq<Op>, plan: Plan, mine: set<nat>, i: nat)
    requires Progress(all, committed, ops, plan, mine) && i < |ops|
    requires ops[i].id < |plan| ==> Own(all, |plan|) == PlanUpto(plan, ops[i].id + 1)
    ensures Progress(all, committed, ops[..i] + ops[i + 1..], plan, mine)
  {
    var ops' := ops[..i] + ops[i + 1..];
    if ops[i].id < |plan| {
      var j: nat, k: nat :| Working(ops, |plan|, j) && IsPart(Own(all, |plan|), plan, ops[j].id, k);
      assert j == i && Pausing(ops', |plan|);
      assert IsWhole(Own(all, |plan|), plan, ops[i].id + 1);
    } else if Pausing(ops, |plan|) {
      assert Pausing(ops', |plan|);
    } else {
      var j: nat, k: nat :| Working(ops, |plan|, j) && IsPart(Own(all, |plan|), plan, ops[j].id, k);
      var j' := if j < i then j else j - 1;
      assert Working(ops', |plan|, j') && IsPart(Own(all, |plan|), plan, ops'[j'].id, k);
    }
  }

  lemma CommitFollows(all: seq<Update>, committed: seq<Update>, plan: Plan, mine: set<nat>)
    requires Progress(all, committed, [], plan, mine)
    ensures Progress(all, all, [], plan, mine)
  {
  }

  lemma FlatMore(history: seq<seq<Update>>, pending: seq<Update>)
    ensures Flat(history + [pending]) == Flat(history) + pending
    ensures Flat(history + [pending]) + [] == Flat(history) + pending
  {
    assert (history + [pending])[..|history|] == history;
  }

  lemma HeadFollows(s: State, plan: Plan, mine: set<nat>)
    requires Progress(All(s), Flat(s.history), s.ops, plan, mine) && s.ops == []
    requires s.area.start < |s.disk| && HeaderFits(s.h)
    ensures var s' := AfterHead(s); Progress(All(s'), Flat(s'.history), s'.ops, plan, mine)
  {
    CommitFollows(All(s), Flat(s.history), plan, mine);
    FlatMore(s.history, s.pending);
  }

  lemma OtherSteps(s: State, limit: nat, step: Step)
    requires Enabled(s, limit, step) && !step.Begin? && !step.WriteBuf? && !step.End? && !step.WriteHead?
    ensures var s' := After(s, limit, step); s'.ops == s.ops && s'.history == s.history && s'.pending == s.pending
  {
  }

  /** Every step of the process, of others and of the commit keeps whole batches together and in order. */
  lemma StepFollows(s: State, limit: nat, plan: Plan, mine: set<nat>, step: Step)
    requires Progress(All(s), Flat(s.history), s.ops, plan, mine)
    requires Enabled(s, limit, step) && Follows(s, plan, mine, step) && (s.phase.Idle? || s.ops == [])
    ensures var s' := After(s, limit, step); Progress(All(s'), Flat(s'.history), s'.ops, plan, mine)
  {
    match step
    case Begin(id) => BeginFollows(All(s), Flat(s.history), s.ops, plan, mine, id);
    case WriteBuf(i, b, data) => WriteFollows(s, plan, mine, i, b, data);
    case End(i) => EndFollows(All(s), Flat(s.history), s.ops, plan, mine, i);
    case WriteHead => HeadFollows(s, plan, mine);
    case _ => OtherSteps(s, limit, step);
  }

  lemma NextFollows(s: State, limit: nat, plan: Plan, mine: set<nat>, s': State)
    requires Progress(All(s), Flat(s.history), s.ops, plan, mine) && FollowsNext(s, limit, plan, mine, s')
    requires s.phase.Idle? || s.ops == []
    ensures Progress(All(s'), Flat(s'.history), s'.ops, plan, mine)
  {
    var step :| Enabled(s, limit, step) && Follows(s, plan, mine, step) && s' == After(s, limit, step);
    StepFollows(s, limit, plan, mine, step);
  }

  lemma PlanPrefix(limit: nat, ss: seq<State>, plan: Plan, mine: set<nat>)
    requires PlanRun(limit, ss, plan, mine) && |ss| > 1
    ensures PlanRun(limit, ss[..|ss| - 1], plan, mine) && FollowsNext(ss[|ss| - 2], limit, plan, mine, ss[|ss| - 1])
  {
    RunPrefix(limit, ss);
    var n := |ss| - 1;
    assert FollowsNext(ss[n - 1], limit, plan, mine, ss[n - 1 + 1]);
    forall i | 0 <= i < n - 1 ensures FollowsNext(ss[..n][i], limit, plan, mine, ss[..n][i + 1]) {
      assert FollowsNext(ss[i], limit, plan, mine, ss[i + 1]);
    }
  }

  lemma {:induction false} RunFollows(limit: nat, ss: seq<State>, plan: Plan, mine: set<nat>)
    requires PlanRun(limit, ss, plan, mine)
    ensures var s := ss[|ss| - 1]; Progress(All(s), Flat(s.history), s.ops, plan, mine)
    decreases |ss|
  {
    var n := |ss| - 1;
    if n == 0 {
      StartFollows(ss[0], plan, mine);
    } else {
      PlanPrefix(limit, ss, plan, mine);
      RunFollows(limit, ss[..n], plan, mine);
      IdleOrQuiet(limit, ss[..n]);
      NextFollows(ss[n - 1], limit, plan, mine, ss[n]);
    }
  }

  lemma StartFollows(s: State, plan: Plan, mine: set<nat>)
    requires Init(s)
    ensures Progress(All(s), Flat(s.history), s.ops, plan, mine)
  {
    assert IsWhole(Own(All(s), |plan|), plan, 0) && IsWhole(Own(Flat(s.history), |plan|), plan, 0);
  }

  lemma IdleOrQuiet(limit: nat, ss: seq<State>)
    requires Run(limit, ss)
    ensures ss[|ss| - 1].phase.Idle? || ss[|ss| - 1].ops == []
  {
    RunKeepsInv(limit, ss);
  }

  // ----- What the committed batches leave on disk

  lemma {:induction false} ApplyUpdatesConcat(d: Disk, us: seq<Update>, vs: seq<Update>)
    ensures ApplyUpdates(d, us + vs) == ApplyUpdates(ApplyUpdates(d, us), vs)
    decreases |vs|
  {
    if vs == [] {
      assert us + vs == us;
    } else {
      var n := |vs| - 1;
      ApplyUpdatesConcat(d, us, vs[..n]);
      assert (us + vs)[..|us + vs| - 1] == us + vs[..n];
    }
  }

  lemma {:induction false} ReplayIsFlat(d: Disk, groups: seq<seq<Update>>)
    ensures Replay(d, groups) == ApplyUpdates(d, Flat(groups))
    decreases |groups|
  {
    if groups != [] {
      var n := |groups| - 1;
      ReplayIsFlat(d, groups[..n]);
      ApplyUpdatesConcat(d, Flat(groups[..n]), groups[n]);
    }
  }

  lemma {:induction false} ApplyTagged(d: Disk, ws: seq<Write>, op: nat)
    requires WritesFit(d, ws)
    ensures ApplyUpdates(d, Tagged(ws, op)) == Apply(d, ws)
    decreases |ws|
  {
    if ws != [] {
      var n := |ws| - 1;
      ApplyTagged(d, ws[..n], op);
      assert Tagged(ws, op)[..n] == Tagged(ws[..n], op);
      assert ws == ws[..n] + [ws[n]];
      ApplyAppend(d, ws[..n], ws[n]);
    }
  }

  lemma {:induction false} PlanReaches(t: Trail, plan: Plan, m: nat)
    requires PlanOk(t, plan) && m <= |plan|
    ensures ApplyUpdates(t.disks[0], PlanUpto(plan, m)) == t.disks[m]
  {
    if m > 0 {
      PlanReaches(t, plan, m - 1);
      assert PlanAt(t, plan, m - 1);
      ApplyUpdatesConcat(t.disks[0], PlanUpto(plan, m - 1), Tagged(plan[m - 1], m - 1));
      ApplyTagged(t.disks[m - 1], plan[m - 1], m - 1);
    }
  }

  /** The blocks of `mine` hold what the batches have put there. */
  lemma {:induction false} OwnDecides(d: Disk, us: seq<Update>, n: nat, mine: set<nat>)
    requires Apart(us, n, mine)
    ensures SameOn(ApplyUpdates(d, Own(us, n)), ApplyUpdates(d, us), mine)
    decreases |us|
  {
    if us != [] {
      var rest, u := us[..|us| - 1], us[|us| - 1];
      OwnDecides(d, rest, n, mine);
      if u.op < n { assert (Own(rest, n) + [u])[..|Own(rest, n)|] == Own(rest, n); }
    }
  }

  /** What the `m` committed batches leave in the blocks of `mine`. */
  lemma CommittedBatches(s: State, d: Disk, plan: Plan, mine: set<nat>, t: Trail) returns (m: nat)
    requires Progress(All(s), Flat(s.history), s.ops, plan, mine) && PlanOk(t, plan) && t.disks[0] == d
    ensures m <= |t.costs| && Own(Flat(s.history), |plan|) == PlanUpto(plan, m)
    ensures SameOn(t.disks[m], Replay(d, s.history), mine)
  {
    m :| IsWhole(Own(Flat(s.history), |plan|), plan, m);
    forall i | 0 <= i < |Flat(s.history)| ensures Flat(s.history)[i] == All(s)[i] {}
    ReplayIsFlat(d, s.history);
    OwnDecides(d, Flat(s.history), |plan|, mine);
    PlanReaches(t, plan, m);
  }

  /** File `j` lies in the blocks of `mine`, whatever batches have been written. */
  ghost predicate StaysWithin(sb: Super, t: Trail, mine: set<nat>, j: nat) {
    forall m :: 0 <= m < |t.disks| ==> Within(sb, t.disks[m], j, mine)
  }

  /** A crash at any point of a long write, and any number of crashes in recovery, leave the old file with a whole
    * number of leading batches applied: the batches whose commit had come to its end. Any other operations may run
    * meanwhile, in any number of processes, as long as they leave the blocks of `mine` alone; all files that lie in
    * these are what the batches have made of them. */
  lemma FwriteIsAtomic(limit: nat, ss: seq<State>, plan: Plan, mine: set<nat>, sb: Super, files: Files, job: Job,
                       t: Trail, done: nat, e: Disk, k: nat, e': Disk)
      returns (m: nat)
    requires PlanRun(limit, ss, plan, mine) && PlanOk(t, plan)
             && Batches(sb, files, job, t, done, ss[0].durable, t.disks[|t.costs|])
    requires forall b :: b in mine ==> !InArea(ss[|ss| - 1].area, b)
    requires var s := ss[|ss| - 1];
             Inv(s) ==> Crashed(s, e) && (DiskOk(s.area, e) ==> AfterCrashes(s.area, e, k, e'))
    ensures var s := ss[|ss| - 1];
            && m <= |t.costs| && Own(Flat(s.history), |plan|) == PlanUpto(plan, m) && DiskOk(s.area, e')
            && job.i < |files| == sb.ninodes && Upto(m, done) <= |job.src|
            && forall j: nat {:trigger StaysWithin(sb, t, mine, j)} :: j < sb.ninodes && StaysWithin(sb, t, mine, j) ==>
                 DiskFile(sb, Recovered(s.area, e'), j) == Content(files, job, Upto(m, done), j)
  {
    var s := ss[|ss| - 1];
    RunFollows(limit, ss, plan, mine);
    m := CommittedBatches(s, ss[0].durable, plan, mine, t);
    CrashLeavesWholeGroups(limit, ss, e, k, e');
    assert StageAt(sb, files, job, t, m, done);
    forall j: nat | j < sb.ninodes && StaysWithin(sb, t, mine, j)
      ensures DiskFile(sb, Recovered(s.area, e'), j) == Content(files, job, Upto(m, done), j)
    {
      assert FileWritten(sb, t.disks[m], files, job, Upto(m, done), j);
      SameOnSameFile(sb, t.disks[m], Recovered(s.area, e'), j, mine);
    }
  }

  /** If no other process writes, all files but this one are as they were. */
  lemma AloneIsAtomic(limit: nat, ss: seq<State>, plan: Plan, sb: Super, files: Files, job: Job, t: Trail, done: nat,
                      e: Disk, k: nat, e': Disk)
      returns (m: nat)
    requires |ss| > 0 && SuperOk(sb) && LogBefore(ss[|ss| - 1].area, sb)
    requires PlanOk(t, plan) && Batches(sb, files, job, t, done, ss[0].durable, t.disks[|t.costs|])
    requires PlanRun(limit, ss, plan, NotLog(sb, |ss[0].durable|))
    requires var s := ss[|ss| - 1];
             Inv(s) ==> Crashed(s, e) && (DiskOk(s.area, e) ==> AfterCrashes(s.area, e, k, e'))
    ensures var s := ss[|ss| - 1];
            && m <= |t.costs| && Own(Flat(s.history), |plan|) == PlanUpto(plan, m) && DiskOk(s.area, e')
            && job.i < |files| == sb.ninodes && Upto(m, done) <= |job.src|
            && forall j: nat {:trigger DiskFile(sb, Recovered(s.area, e'), j)} :: j < sb.ninodes ==>
                 DiskFile(sb, Recovered(s.area, e'), j) == Content(files, job, Upto(m, done), j)
  {
    var mine := NotLog(sb, |ss[0].durable|);
    m := FwriteIsAtomic(limit, ss, plan, mine, sb, files, job, t, done, e, k, e');
    forall j: nat, l | 0 <= l < |t.disks| ensures Within(sb, t.disks[l], j, mine) {
      assert StageAt(sb, files, job, t, l, done);
      PlanReaches(t, plan, l);
      WithinNotLog(sb, t.disks[l], j);
    }
    forall j: nat | j < sb.ninodes
      ensures DiskFile(sb, Recovered(ss[|ss| - 1].area, e'), j) == Content(files, job, Upto(m, done), j)
    {
      assert StaysWithin(sb, t, mine, j);
    }
  }

  /** After a crash and any number of crashes in recovery, the disk holds the files that the committed groups have
    * left. */
  lemma CrashKeepsFiles(limit: nat, ss: seq<State>, sb: Super, files: Files, e: Disk, k: nat, e': Disk)
    requires Run(limit, ss) && SuperOk(sb) && LogBefore(ss[|ss| - 1].area, sb)
    requires var s := ss[|ss| - 1];
             && (Inv(s) ==> Crashed(s, e) && (DiskOk(s.area, e) ==> AfterCrashes(s.area, e, k, e')))
             && DataApart(sb, Replay(ss[0].durable, s.history))
             && HoldsFiles(sb, Replay(ss[0].durable, s.history), files)
    ensures DiskOk(ss[|ss| - 1].area, e') && HoldsFiles(sb, Recovered(ss[|ss| - 1].area, e'), files)
  {
    var s := ss[|ss| - 1];
    CrashLeavesWholeGroups(limit, ss, e, k, e');
    SameHomeSameFiles(s.area, sb, Replay(ss[0].durable, s.history), Recovered(s.area, e'), files);
  }

  // ----- Room in the log

  /** What a batch of `fwrite` logs is frugal: all but six of its blocks are bitmap blocks, which batches share. */
  lemma BatchIsFrugal(sb: Super, job: Job, t: Trail, m: nat)
    requires m < |t.costs| && m + 1 < |t.disks| && BatchAt(sb, job, t, m)
    ensures Frugal(t.costs[m], Bitmaps(sb)) && |Bitmaps(sb)| <= BitmapCount(sb)
  {
    BatchFitsLog(sb, t.costs[m], job.offset + BatchStart(m), BatchSize(|job.src|, BatchStart(m)));
  }

  /** However many processes write with `fwrite`, `write` never finds the log full on a disk with at most seven bitmap
    * blocks; with more, what batches may log does not keep it from filling up. */
  lemma BatchesFitLog(sb: Super)
    ensures BitmapCount(sb) <= 7 ==>
              forall ss: seq<State> :: FrugalRun(MAXOPBLOCKS, ss, Bitmaps(sb)) ==> !ss[|ss| - 1].panic.NoRoom?
    ensures BitmapCount(sb) > 7 ==>
              exists ss: seq<State>, maps: set<nat> ::
                |maps| <= BitmapCount(sb) && FrugalRun(MAXOPBLOCKS, ss, maps) && ss[|ss| - 1].panic.NoRoom?
  {
    RoomIffFewShared(MAXOPBLOCKS, BitmapCount(sb));
  }
}
