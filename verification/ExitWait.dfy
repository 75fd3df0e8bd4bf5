/** `exiting`, `waiting` and `fork` of `kernel/src/process`, with reparenting to init, as a state machine
    over all interleavings.

    The parents lock and each process's own lock (`excl`) are explicit. What happens while one of them
    is held is split wherever another process can still interfere: a wakeup visits one slot per step.
    Two ghost records say which incarnation of a slot exited with which status and who collected it. */
module ExitWait {
  import opened Common

  datatype ProcState = UNUSED | SLEEPING | RUNNABLE | RUNNING | ALLOCATED | ZOMBIE

  datatype Channel = NoChannel | ProcAddr(p: nat) | Other(id: nat)

  datatype Pc =
    | Free                               // the slot is not in use
    | Setup(forker: nat)                 // allocated by a fork() that has not finished
    | User                               // outside the code below
    | Elsewhere                          // asleep on a channel that is not a process
    | ForkParent(child: nat)             // fork(): about to call set_parent
    | ForkRun(child: nat)                // fork(): about to make the child runnable
    | ExitLock(status: int)              // exiting(): about to take the parents lock
    | ExitReparent(status: int)
    | ExitWakeInit(next: nat, status: int)
    | ExitWakeParent(next: nat, status: int)
    | ExitZombie(status: int)            // about to take its own excl and become a zombie
    | ExitDrop                           // holds excl and the parents lock
    | ExitSched                          // holds excl, about to switch away for good
    | Dead                               // switched away
    | WaitLock                           // waiting(): about to take the parents lock
    | WaitScan(next: nat, haveChild: bool)
    | WaitReturn                         // about to drop the parents lock and return
    | SleepSelf                          // sleep(): about to take its own excl
    | SleepDrop                          // sleep(): holds excl, about to drop the parents lock
    | SleepSet                           // sleep(): holds excl, about to become a sleeper
    | Parked                             // switched away in sleep()
    | Awake                              // switched back in, holds excl

  datatype Proc = Proc(pc: Pc, state: ProcState, channel: Channel, excl: bool, status: int, killed: bool)

  datatype Reaped = Reaped(parent: nat, status: int)

  datatype RawState = State(
    lock: Option<nat>,                   // who holds the parents lock
    parents: seq<Option<nat>>,
    procs: seq<Proc>,
    gen: seq<nat>,                       // incarnation of each slot
    exited: map<(nat, nat), int>,        // (slot, incarnation) -> exit status
    reaped: map<(nat, nat), Reaped>)     // (slot, incarnation) -> collected by whom, with which status

  /** One entry per slot in each table. */
  type State = s: RawState | |s.procs| > 0 && |s.parents| == |s.procs| && |s.gen| == |s.procs|
    witness State(None, [None], [unused], [0], map[], map[])

  const INIT_PROC: nat := 0

  const unused := Proc(Free, UNUSED, NoChannel, false, 0, false)

  function Init(n: nat): State
    requires n > 0
  {
    State(None, seq(n, _ => None),
          [unused.(pc := User, state := RUNNABLE)] + seq(n - 1, _ => unused),
          seq(n, _ => 0), map[], map[])
  }

  datatype Action =
    | Run(p: nat)                        // p executes its next step
    | Fork(p: nat, child: nat)           // p calls fork() and alloc_proc picks the slot `child`
    | Exit(p: nat, exitStatus: int)
    | Wait(p: nat)
    | CopyFails(p: nat)                  // the zombie that p looks at is found, but copy_out fails
    | Nap(p: nat, id: nat)
    | WakeOther(p: nat)                  // somebody wakes a sleeper for an unrelated reason
    | Kill(p: nat)
    | Preempt(p: nat)

  /** May `p` execute its next step now? It must be on a CPU or be runnable, and the lock it needs free. */
  predicate CanRun(s: State, p: nat)
    requires p < |s.procs|
  {
    var me := s.procs[p];
    match me.pc
    case Free => false
    case Setup(_) => false
    case Dead => false
    case User => me.state == RUNNABLE && !me.excl
    case Elsewhere => me.state == RUNNABLE && !me.excl
    case Parked => me.state == RUNNABLE && !me.excl
    case ForkParent(c) => s.lock.None? && c < |s.procs|
    case ForkRun(c) => c < |s.procs| && !s.procs[c].excl
    case ExitLock(_) => s.lock.None?
    case ExitWakeInit(i, _) => i < |s.procs| ==> !s.procs[i].excl
    case ExitWakeParent(i, _) => s.parents[p].Some? && (i < |s.procs| ==> !s.procs[i].excl)
    case ExitZombie(_) => !me.excl
    case WaitLock => s.lock.None?
    case WaitScan(i, _) => i < |s.procs| && s.parents[i] == Some(p) ==> !s.procs[i].excl
    case SleepSelf => !me.excl
    case _ => true
  }

  /** In waiting(), `p` looks at a child that is a zombie. */
  predicate AtZombie(s: State, p: nat) {
    && p < |s.procs| && s.procs[p].pc.WaitScan?
    && var i := s.procs[p].pc.next;
    i < |s.procs| && s.parents[i] == Some(p) && s.procs[i].state == ZOMBIE
  }

  predicate Enabled(s: State, a: Action) {
    && a.p < |s.procs|
    && var me := s.procs[a.p];
    match a
    case Run(p) => CanRun(s, p)
    case Fork(_, c) => me.pc == User && me.state == RUNNING && c < |s.procs| && s.procs[c].state == UNUSED
                       && !s.procs[c].excl
    case Exit(p, _) => me.pc == User && me.state == RUNNING && p != INIT_PROC
    case Wait(_) => me.pc == User && me.state == RUNNING
    case CopyFails(p) => CanRun(s, p) && AtZombie(s, p)
    case Nap(_, _) => me.pc == User && me.state == RUNNING
    case WakeOther(_) => me.state == SLEEPING && me.pc == Elsewhere && !me.excl
    case Kill(_) => !me.excl
    case Preempt(_) => me.pc == User && me.state == RUNNING && !me.excl
  }

  /** What a step does: `p` becomes `me`, at most one other slot is touched, and the shared tables change. */
  datatype Effect = Effect(me: Proc, slot: nat, other: Proc, lock: Option<nat>, parents: seq<Option<nat>>,
                           gen: seq<nat>, exited: map<(nat, nat), int>, reaped: map<(nat, nat), Reaped>)

  /** The body of the loop in `wakeup` for one process. */
  function Wake(q: Proc, channel: Channel): Proc {
    if q.state == SLEEPING && q.channel == channel then q.(state := RUNNABLE) else q
  }

  /** The loop of exiting() that hands every child of `p` to init. */
  function Reparent(parents: seq<Option<nat>>, p: nat): seq<Option<nat>> {
    seq(|parents|, i requires 0 <= i < |parents| => if parents[i] == Some(p) then Some(INIT_PROC) else parents[i])
  }

  /** No table changes its length. */
  predicate EffectFits(s: State, e: Effect) {
    e.slot < |s.procs| && |e.parents| == |s.parents| && |e.gen| == |s.gen|
  }

  /** `p` moves to `pc` and nothing else changes. */
  function Goto(s: State, p: nat, pc: Pc): Effect
    requires p < |s.procs|
  {
    Effect(s.procs[p].(pc := pc), p, s.procs[p], s.lock, s.parents, s.gen, s.exited, s.reaped)
  }

  function ForkStep(s: State, p: nat): (e: Effect)
    requires p < |s.procs| && CanRun(s, p) && (s.procs[p].pc.ForkParent? || s.procs[p].pc.ForkRun?)
    ensures EffectFits(s, e)
  {
    match s.procs[p].pc
    case ForkParent(c) => Goto(s, p, ForkRun(c)).(parents := s.parents[c := Some(p)])
    case ForkRun(c) => Goto(s, p, User).(slot := c, other := s.procs[c].(pc := User, state := RUNNABLE))
  }

  function ExitStep(s: State, p: nat): (e: Effect)
    requires p < |s.procs| && CanRun(s, p) && ExitCode(s.procs[p].pc)
    ensures EffectFits(s, e)
  {
    var me := s.procs[p];
    match me.pc
    case ExitLock(st) => Goto(s, p, ExitReparent(st)).(lock := Some(p))
    case ExitReparent(st) =>
      var pc := if Some(p) in s.parents then ExitWakeInit(0, st) else ExitWakeParent(0, st);
      Goto(s, p, pc).(parents := Reparent(s.parents, p))
    case ExitWakeInit(i, st) =>
      if i >= |s.procs| then Goto(s, p, ExitWakeParent(0, st))
      else Goto(s, p, ExitWakeInit(i + 1, st)).(slot := i, other := Wake(s.procs[i], ProcAddr(INIT_PROC)))
    case ExitWakeParent(i, st) =>
      if i >= |s.procs| then Goto(s, p, ExitZombie(st))
      else Goto(s, p, ExitWakeParent(i + 1, st)).(slot := i, other := Wake(s.procs[i], ProcAddr(s.parents[p].value)))
    case ExitZombie(st) =>
      Goto(s, p, ExitDrop).(me := me.(pc := ExitDrop, state := ZOMBIE, excl := true, status := st),
                            exited := s.exited[(p, s.gen[p]) := st])
    case ExitDrop => Goto(s, p, ExitSched).(lock := None)
    case ExitSched => Goto(s, p, Dead).(me := me.(pc := Dead, excl := false))
  }

  function WaitStep(s: State, p: nat): (e: Effect)
    requires p < |s.procs| && CanRun(s, p) && WaitCode(s.procs[p].pc)
    ensures EffectFits(s, e)
  {
    var me := s.procs[p];
    match me.pc
    case WaitLock => Goto(s, p, WaitScan(0, false)).(lock := Some(p))
    case WaitScan(i, have) =>
      if i >= |s.procs| then Goto(s, p, if !have || me.killed then WaitReturn else SleepSelf)
      else if s.parents[i] != Some(p) then Goto(s, p, WaitScan(i + 1, have))
      else if s.procs[i].state != ZOMBIE then Goto(s, p, WaitScan(i + 1, true))
      else Goto(s, p, WaitReturn).(slot := i, other := unused, parents := s.parents[i := None],
                                   reaped := s.reaped[(i, s.gen[i]) := Reaped(p, s.procs[i].status)])
    case WaitReturn => Goto(s, p, User).(lock := None)
    case SleepSelf => Goto(s, p, SleepDrop).(me := me.(pc := SleepDrop, excl := true))
    case SleepDrop => Goto(s, p, SleepSet).(lock := None)
    case SleepSet =>
      Goto(s, p, Parked).(me := me.(pc := Parked, state := SLEEPING, channel := ProcAddr(p), excl := false))
    case Parked => Goto(s, p, Awake).(me := me.(pc := Awake, state := RUNNING, excl := true))
    case Awake => Goto(s, p, WaitLock).(me := me.(pc := WaitLock, channel := NoChannel, excl := false))
  }

  predicate ExitCode(pc: Pc) {
    || pc.ExitLock? || pc.ExitReparent? || pc.ExitWakeInit? || pc.ExitWakeParent?
    || pc.ExitZombie? || pc.ExitDrop? || pc.ExitSched?
  }

  predicate WaitCode(pc: Pc) {
    || pc.WaitLock? || pc.WaitScan? || pc.WaitReturn? || pc.SleepSelf? || pc.SleepDrop?
    || pc.SleepSet? || pc.Parked? || pc.Awake?
  }

  function Step(s: State, a: Action): (e: Effect)
    requires Enabled(s, a)
    ensures EffectFits(s, e)
  {
    var p := a.p;
    var me := s.procs[p];
    match a
    case Run(_) =>
      if me.pc.User? then Goto(s, p, User).(me := me.(state := RUNNING))
      else if me.pc.Elsewhere? then Goto(s, p, User).(me := me.(pc := User, state := RUNNING, channel := NoChannel))
      else if me.pc.ForkParent? || me.pc.ForkRun? then ForkStep(s, p)
      else if ExitCode(me.pc) then ExitStep(s, p)
      else WaitStep(s, p)
    case Fork(_, c) =>
      Goto(s, p, ForkParent(c)).(slot := c, other := s.procs[c].(pc := Setup(p), state := ALLOCATED),
                                 gen := s.gen[c := s.gen[c] + 1])
    case Exit(_, st) => Goto(s, p, ExitLock(st))
    case Wait(_) => Goto(s, p, WaitLock)
    case CopyFails(_) => Goto(s, p, WaitReturn)
    case Nap(_, id) => Goto(s, p, Elsewhere).(me := me.(pc := Elsewhere, state := SLEEPING, channel := Other(id)))
    case WakeOther(_) => Goto(s, p, Elsewhere).(me := me.(state := RUNNABLE))
    case Kill(_) =>
      var state := if me.state == SLEEPING then RUNNABLE else me.state;
      Goto(s, p, me.pc).(me := me.(killed := true, state := state))
    case Preempt(_) => Goto(s, p, User).(me := me.(state := RUNNABLE))
  }

  function Apply(s: State, p: nat, e: Effect): State
    requires p < |s.procs| && e.slot < |s.procs| && |e.parents| == |s.parents| && |e.gen| == |s.gen|
  {
    State(e.lock, e.parents, s.procs[e.slot := e.other][p := e.me], e.gen, e.exited, e.reaped)
  }

  function Do(s: State, a: Action): State
    requires Enabled(s, a)
  {
    Apply(s, a.p, Step(s, a))
  }

  predicate IsRun(states: seq<State>, actions: seq<Action>) {
    && |states| == |actions| + 1
    && |states[0].procs| > 0
    && states[0] == Init(|states[0].procs|)
    && forall i :: 0 <= i < |actions| ==> Enabled(states[i], actions[i]) && states[i + 1] == Do(states[i], actions[i])
  }

  // ----- The invariant

  predicate HoldsParents(pc: Pc) {
    || pc.ExitReparent? || pc.ExitWakeInit? || pc.ExitWakeParent? || pc.ExitZombie? || pc.ExitDrop?
    || pc.WaitScan? || pc.WaitReturn? || pc.SleepSelf? || pc.SleepDrop?
  }

  /** In exiting(), after the children have been handed to init. */
  predicate GaveUpChildren(pc: Pc) {
    pc.ExitWakeInit? || pc.ExitWakeParent? || pc.ExitZombie? || pc.ExitDrop? || pc.ExitSched? || pc.Dead?
  }

  predicate IsZombie(pc: Pc) {
    pc.ExitDrop? || pc.ExitSched? || pc.Dead?
  }

  ghost predicate ProcOk(p: nat, q: Proc) {
    && (q.excl <==> q.pc.SleepDrop? || q.pc.SleepSet? || q.pc.Awake? || q.pc.ExitDrop? || q.pc.ExitSched?)
    && (q.state == UNUSED <==> q.pc.Free?)
    && (q.state == ALLOCATED <==> q.pc.Setup?)
    && (q.state == ZOMBIE <==> IsZombie(q.pc))
    && (q.state == SLEEPING ==> q.pc.Parked? || q.pc.Elsewhere?)
    && (q.state == RUNNABLE ==> q.pc.Parked? || q.pc.Elsewhere? || q.pc.User?)
    && (q.pc.Parked? ==> q.channel == ProcAddr(p))
    && (q.pc.Elsewhere? ==> q.channel.Other?)
  }

  ghost predicate ProcsOk(s: State) {
    forall p :: 0 <= p < |s.procs| ==> ProcOk(p, s.procs[p])
  }

  ghost predicate LockOk(s: State) {
    forall p :: 0 <= p < |s.procs| ==> (HoldsParents(s.procs[p].pc) <==> s.lock == Some(p))
  }

  ghost predicate ForkOk(s: State, p: nat)
    requires p < |s.procs|
  {
    match s.procs[p].pc
    case ForkParent(c) => c < |s.procs| && s.procs[c].pc == Setup(p) && s.parents[c].None?
    case ForkRun(c) => c < |s.procs| && s.procs[c].pc == Setup(p) && s.parents[c] == Some(p)
    case _ => true
  }

  /** Who a slot's parent can be: a process that still looks after its children. */
  ghost predicate ParentOk(s: State, c: nat)
    requires c < |s.procs|
  {
    var pc := s.procs[c].pc;
    match s.parents[c]
    case None => pc.Free? || pc.Setup? || c == INIT_PROC
    case Some(q) => !pc.Free? && q < |s.procs| && q != c &&
                    var qc := s.procs[q].pc; !qc.Free? && !qc.Setup? && !GaveUpChildren(qc)
  }

  ghost predicate FamilyOk(s: State) {
    && (forall p :: 0 <= p < |s.procs| ==> ForkOk(s, p) && ParentOk(s, p))
    && s.parents[INIT_PROC].None?
    && var ic := s.procs[INIT_PROC].pc;
       !ic.Free? && !ic.Setup? && !GaveUpChildren(ic) && !ic.ExitLock? && !ic.ExitReparent?
  }

  /** `p` has decided to sleep in waiting() and has not been made runnable since. */
  predicate Waits(q: Proc) {
    q.pc.SleepSelf? || q.pc.SleepDrop? || q.pc.SleepSet? || (q.pc.Parked? && q.state == SLEEPING)
  }

  predicate ZombieChild(s: State, p: nat, c: nat)
    requires c < |s.procs|
  {
    s.parents[c] == Some(p) && IsZombie(s.procs[c].pc)
  }

  /** The holder of the parents lock is about to reach init with a wakeup. */
  ghost predicate InitWakeupPending(s: State) {
    s.lock.Some? && s.lock.value < |s.procs| &&
    var pc := s.procs[s.lock.value].pc; pc.ExitWakeInit? && pc.next == INIT_PROC
  }

  ghost predicate WaitsOk(s: State) {
    forall p, c :: 0 <= p < |s.procs| && 0 <= c < |s.procs| && Waits(s.procs[p]) && ZombieChild(s, p, c) ==>
      p == INIT_PROC && InitWakeupPending(s)
  }

  /** What the holder of the parents lock knows about the process it is going to leave asleep. */
  ghost predicate HolderOk(s: State) {
    s.lock.Some? ==>
      var e := s.lock.value;
      e < |s.procs| &&
      match s.procs[e].pc
      case WaitScan(i, _) => forall c :: 0 <= c < |s.procs| && c < i ==> !ZombieChild(s, e, c)
      case ExitWakeParent(i, _) =>
        && s.parents[e].Some?
        && (s.parents[e].value < |s.procs| && Waits(s.procs[s.parents[e].value]) ==> i <= s.parents[e].value)
      case ExitZombie(_) =>
        s.parents[e].Some? && s.parents[e].value < |s.procs| && !Waits(s.procs[s.parents[e].value])
      case _ => true
  }

  /** Each exit is either still there to be collected or has been collected once, with its own status. */
  ghost predicate HistoryOk(s: State) {
    && (forall c :: 0 <= c < |s.procs| && IsZombie(s.procs[c].pc) ==>
          (c, s.gen[c]) in s.exited && s.exited[(c, s.gen[c])] == s.procs[c].status && (c, s.gen[c]) !in s.reaped)
    && (forall c :: 0 <= c < |s.procs| && !s.procs[c].pc.Free? && !IsZombie(s.procs[c].pc) ==>
          (c, s.gen[c]) !in s.exited)
    && (forall k :: k in s.exited ==> k.0 < |s.procs| && k.1 <= s.gen[k.0])
    && (forall k :: k in s.exited && k !in s.reaped ==> k.1 == s.gen[k.0] && IsZombie(s.procs[k.0].pc))
    && (forall k :: k in s.reaped ==> k in s.exited && s.reaped[k].status == s.exited[k])
  }

  ghost predicate Inv(s: State) {
    ProcsOk(s) && LockOk(s) && FamilyOk(s) && WaitsOk(s) && HolderOk(s) && HistoryOk(s)
  }

  lemma InitInv(n: nat)
    requires n > 0
    ensures Inv(Init(n))
  {
  }

  /** The slot of the acting process and the parents lock, before and after. */
  ghost predicate ActorFacts(s: State, p: nat, e: Effect) {
    && ProcOk(p, e.me)
    && (HoldsParents(e.me.pc) <==> e.lock == Some(p))
    && (e.lock != s.lock ==> (e.lock.None? && s.lock == Some(p)) || (s.lock.None? && e.lock == Some(p)))
  }

  lemma ExitActor(s: State, p: nat)
    requires p < |s.procs| && CanRun(s, p) && ExitCode(s.procs[p].pc) && ProcOk(p, s.procs[p])
    requires HoldsParents(s.procs[p].pc) <==> s.lock == Some(p)
    ensures ActorFacts(s, p, ExitStep(s, p))
  {
  }

  lemma WaitActor(s: State, p: nat)
    requires p < |s.procs| && CanRun(s, p) && WaitCode(s.procs[p].pc) && ProcOk(p, s.procs[p])
    requires HoldsParents(s.procs[p].pc) <==> s.lock == Some(p)
    ensures ActorFacts(s, p, WaitStep(s, p))
  {
  }

  /** Steps outside exiting() and waiting(). */
  lemma PlainActor(s: State, p: nat)
    requires Enabled(s, Run(p)) && ProcOk(p, s.procs[p]) && !ExitCode(s.procs[p].pc) && !WaitCode(s.procs[p].pc)
    requires HoldsParents(s.procs[p].pc) <==> s.lock == Some(p)
    ensures ActorFacts(s, p, Step(s, Run(p)))
  {
  }

  lemma CallActor(s: State, a: Action)
    requires Enabled(s, a) && ProcOk(a.p, s.procs[a.p]) && !a.Run?
    requires HoldsParents(s.procs[a.p].pc) <==> s.lock == Some(a.p)
    ensures ActorFacts(s, a.p, Step(s, a))
  {
  }

  lemma ActorOk(s: State, a: Action)
    requires Enabled(s, a) && ProcOk(a.p, s.procs[a.p])
    requires HoldsParents(s.procs[a.p].pc) <==> s.lock == Some(a.p)
    ensures ActorFacts(s, a.p, Step(s, a))
  {
    if !a.Run? { CallActor(s, a); }
    else if ExitCode(s.procs[a.p].pc) { ExitActor(s, a.p); }
    else if WaitCode(s.procs[a.p].pc) { WaitActor(s, a.p); }
    else { PlainActor(s, a.p); }
  }

  /** What a step can do to another slot. */
  predicate Touched(p: nat, x: Proc, y: Proc) {
    || x == y
    || (x.state == SLEEPING && y == x.(state := RUNNABLE))
    || (x.pc.Free? && y == x.(pc := Setup(p), state := ALLOCATED))
    || (x.pc == Setup(p) && y == x.(pc := User, state := RUNNABLE))
    || (x.pc.Dead? && y == unused)
  }

  lemma OtherTouched(s: State, a: Action)
    requires Enabled(s, a) && ProcsOk(s) && ForkOk(s, a.p)
    ensures var e := Step(s, a); e.slot != a.p ==> Touched(a.p, s.procs[e.slot], e.other)
  {
    assert ProcOk(a.p, s.procs[a.p]);
    var e := Step(s, a);
    assert ProcOk(e.slot, s.procs[e.slot]);
  }

  /** What any step can do to the slots and to the parents lock. */
  ghost predicate Local(s: State, p: nat, t: State) {
    && p < |s.procs| == |t.procs|
    && ProcOk(p, t.procs[p])
    && (HoldsParents(t.procs[p].pc) <==> t.lock == Some(p))
    && (t.lock != s.lock ==> (t.lock.None? && s.lock == Some(p)) || (s.lock.None? && t.lock == Some(p)))
    && (forall q :: 0 <= q < |s.procs| && q != p ==> Touched(p, s.procs[q], t.procs[q]))
  }

  lemma StepIsLocal(s: State, a: Action)
    requires ProcsOk(s) && LockOk(s) && Enabled(s, a) && ForkOk(s, a.p)
    ensures Local(s, a.p, Do(s, a))
  {
    var e := Step(s, a);
    assert ProcOk(a.p, s.procs[a.p]);
    assert HoldsParents(s.procs[a.p].pc) <==> s.lock == Some(a.p);
    ActorOk(s, a);
    OtherTouched(s, a);
    ApplyIsLocal(s, a.p, e);
  }

  lemma ApplyIsLocal(s: State, p: nat, e: Effect)
    requires p < |s.procs| && e.slot < |s.procs| && |e.parents| == |s.parents| && |e.gen| == |s.gen|
    requires ActorFacts(s, p, e)
    requires e.slot != p ==> Touched(p, s.procs[e.slot], e.other)
    ensures Local(s, p, Apply(s, p, e))
  {
  }

  lemma LocalKeepsProcs(s: State, p: nat, t: State)
    requires ProcsOk(s) && LockOk(s) && Local(s, p, t)
    ensures ProcsOk(t) && LockOk(t)
  {
    forall q | 0 <= q < |s.procs|
      ensures ProcOk(q, t.procs[q]) && (HoldsParents(t.procs[q].pc) <==> t.lock == Some(q))
    {
      assert ProcOk(q, s.procs[q]);
      assert HoldsParents(s.procs[q].pc) <==> s.lock == Some(q);
    }
  }

  // ----- Parents

  /** The five steps that change the family tables; every other step leaves them alone. */
  predicate FamilyStep(s: State, a: Action)
    requires Enabled(s, a)
  {
    var pc := s.procs[a.p].pc;
    a.Fork? || (a.Run? && (pc.ForkParent? || pc.ForkRun? || pc.ExitReparent? || AtZombie(s, a.p)))
  }

  /** As far as the family tables are concerned, the slot is where it was, or has just called exit(). */
  predicate SameRole(p: nat, x: Pc, y: Pc) {
    || x == y
    || (p != INIT_PROC && x.User? && y.ExitLock?)
    || (x.ExitLock? && y.ExitReparent?)
    || (GaveUpChildren(x) && GaveUpChildren(y))
    || (Plain(x) && Plain(y))
  }

  predicate Plain(pc: Pc) {
    || pc.User? || pc.Elsewhere? || WaitCode(pc)
  }

  ghost predicate RoleFacts(s: State, p: nat, e: Effect)
    requires p < |s.procs|
  {
    && SameRole(p, s.procs[p].pc, e.me.pc) && e.parents == s.parents && e.gen == s.gen
    && (e.slot != p ==> e.slot < |s.procs| && e.other.pc == s.procs[e.slot].pc)
  }

  lemma ExitKeepsRole(s: State, p: nat)
    requires p < |s.procs| && CanRun(s, p) && ExitCode(s.procs[p].pc) && !s.procs[p].pc.ExitReparent?
    ensures RoleFacts(s, p, ExitStep(s, p))
  {
  }

  lemma WaitKeepsRole(s: State, p: nat)
    requires p < |s.procs| && CanRun(s, p) && WaitCode(s.procs[p].pc) && !AtZombie(s, p)
    ensures RoleFacts(s, p, WaitStep(s, p))
  {
  }

  lemma ActorKeepsRole(s: State, a: Action)
    requires Enabled(s, a) && !FamilyStep(s, a) && ProcOk(a.p, s.procs[a.p])
    ensures RoleFacts(s, a.p, Step(s, a))
  {
    if a.Run? {
      if ExitCode(s.procs[a.p].pc) { ExitKeepsRole(s, a.p); }
      else if WaitCode(s.procs[a.p].pc) { WaitKeepsRole(s, a.p); }
    }
  }

  lemma RolesKeepFamily(s: State, t: State)
    requires FamilyOk(s) && t.parents == s.parents && |t.procs| == |s.procs|
    requires forall q :: 0 <= q < |s.procs| ==> SameRole(q, s.procs[q].pc, t.procs[q].pc)
    ensures FamilyOk(t)
  {
    forall q | 0 <= q < |s.procs| ensures ForkOk(t, q) && ParentOk(t, q) {
      assert ForkOk(s, q) && ParentOk(s, q);
    }
  }

  lemma AllocMoves(s: State, p: nat, c: nat)
    requires Enabled(s, Fork(p, c)) && c != p
    ensures var t := Do(s, Fork(p, c));
            && t.parents == s.parents && |t.procs| == |s.procs| && t.procs[c].pc == Setup(p)
               && t.procs[p].pc == ForkParent(c)
            && s.procs[p].pc.User? && (forall q :: 0 <= q < |s.procs| && q != p && q != c ==> t.procs[q] == s.procs[q])
  {
  }

  lemma AllocKeepsFamily(s: State, p: nat, c: nat)
    requires Inv(s) && Enabled(s, Fork(p, c))
    ensures FamilyOk(Do(s, Fork(p, c)))
  {
    assert ProcOk(c, s.procs[c]) && ParentOk(s, c);
    AllocMoves(s, p, c);
    AllocatedOne(s, p, c, Do(s, Fork(p, c)));
  }

  lemma AllocatedOne(s: State, p: nat, c: nat, t: State)
    requires FamilyOk(s) && p < |s.procs| && c < |s.procs| == |t.procs| && t.parents == s.parents && c != p
    requires s.procs[p].pc.User? && s.procs[c].pc.Free? && t.procs[c].pc == Setup(p) && t.procs[p].pc == ForkParent(c)
    requires forall q :: 0 <= q < |s.procs| && q != p && q != c ==> t.procs[q] == s.procs[q]
    ensures FamilyOk(t)
  {
    assert ParentOk(s, c);
    forall q | 0 <= q < |s.procs| ensures ForkOk(t, q) && ParentOk(t, q) {
      assert ForkOk(s, q) && ParentOk(s, q);
    }
  }

  lemma SetParentKeepsFamily(s: State, p: nat, c: nat)
    requires Inv(s) && Enabled(s, Run(p)) && s.procs[p].pc == ForkParent(c)
    ensures FamilyOk(Do(s, Run(p)))
  {
    var t := Do(s, Run(p));
    assert ForkOk(s, p);
    forall q | 0 <= q < |s.procs| ensures ForkOk(t, q) && ParentOk(t, q) {
      assert ForkOk(s, q) && ParentOk(s, q);
    }
  }

  lemma StartKeepsFamily(s: State, p: nat, c: nat)
    requires Inv(s) && Enabled(s, Run(p)) && s.procs[p].pc == ForkRun(c)
    ensures FamilyOk(Do(s, Run(p)))
  {
    var t := Do(s, Run(p));
    assert ForkOk(s, p);
    forall q | 0 <= q < |s.procs| ensures ForkOk(t, q) && ParentOk(t, q) {
      assert ForkOk(s, q) && ParentOk(s, q);
    }
  }

  lemma ReparentKeepsFamily(s: State, p: nat)
    requires Inv(s) && Enabled(s, Run(p)) && s.procs[p].pc.ExitReparent?
    ensures FamilyOk(Do(s, Run(p)))
  {
    var t := Do(s, Run(p));
    forall q | 0 <= q < |s.procs| ensures ForkOk(t, q) && ParentOk(t, q) {
      assert ForkOk(s, q) && ParentOk(s, q);
    }
  }

  lemma ReapKeepsFamily(s: State, p: nat)
    requires FamilyOk(s) && Enabled(s, Run(p)) && AtZombie(s, p) && IsZombie(s.procs[s.procs[p].pc.next].pc)
    ensures FamilyOk(Do(s, Run(p)))
  {
    var t := Do(s, Run(p));
    var i := s.procs[p].pc.next;
    forall q | 0 <= q < |s.procs| ensures ForkOk(t, q) && ParentOk(t, q) {
      assert ForkOk(s, q) && ParentOk(s, q);
    }
    assert ParentOk(s, i);
  }

  lemma StepKeepsFamily(s: State, a: Action)
    requires Inv(s) && Enabled(s, a)
    ensures FamilyOk(Do(s, a))
  {
    var p := a.p;
    if !FamilyStep(s, a) {
      assert ProcOk(p, s.procs[p]);
      ActorKeepsRole(s, a);
      RolesKeepFamily(s, Do(s, a));
    } else if a.Fork? {
      AllocKeepsFamily(s, p, a.child);
    } else if s.procs[p].pc.ForkParent? {
      SetParentKeepsFamily(s, p, s.procs[p].pc.child);
    } else if s.procs[p].pc.ForkRun? {
      StartKeepsFamily(s, p, s.procs[p].pc.child);
    } else if s.procs[p].pc.ExitReparent? {
      ReparentKeepsFamily(s, p);
    } else {
      assert ProcOk(s.procs[p].pc.next, s.procs[s.procs[p].pc.next]);
      ReapKeepsFamily(s, p);
    }
  }

  // ----- Sleepers

  ghost predicate SleepersOk(s: State) {
    WaitsOk(s) && HolderOk(s)
  }

  lemma QuietKeepsWaits(s: State, t: State)
    requires WaitsOk(s) && t.parents == s.parents && |t.procs| == |s.procs|
    requires forall q :: 0 <= q < |s.procs| ==> IsZombie(t.procs[q].pc) == IsZombie(s.procs[q].pc)
    requires forall q :: 0 <= q < |s.procs| && Waits(t.procs[q]) ==> Waits(s.procs[q])
    requires InitWakeupPending(s) ==> InitWakeupPending(t) || !Waits(t.procs[INIT_PROC])
    ensures WaitsOk(t)
  {
    forall q, c | 0 <= q < |s.procs| && 0 <= c < |s.procs| && Waits(t.procs[q]) && ZombieChild(t, q, c)
      ensures q == INIT_PROC && InitWakeupPending(t)
    {
      assert ZombieChild(s, q, c);
    }
  }

  lemma ExitLockKeepsSleepers(s: State, p: nat)
    requires Inv(s) && Enabled(s, Run(p)) && s.procs[p].pc.ExitLock?
    ensures SleepersOk(Do(s, Run(p)))
  {
    var t := Do(s, Run(p));
    assert ProcOk(p, s.procs[p]);
    assert HoldsParents(s.procs[p].pc) <==> s.lock == Some(p);
    QuietKeepsWaits(s, t);
  }

  /** One step of the wakeup of init. */
  lemma WakeInitMoves(s: State, p: nat)
    requires Enabled(s, Run(p)) && s.procs[p].pc.ExitWakeInit?
    ensures var t := Do(s, Run(p)); var i := s.procs[p].pc.next;
            && t.lock == s.lock && t.parents == s.parents && |t.procs| == |s.procs|
            && t.procs[p].pc ==
               (if i >= |s.procs| then ExitWakeParent(0, s.procs[p].pc.status)
                else ExitWakeInit(i + 1, s.procs[p].pc.status))
            && (forall q :: 0 <= q < |s.procs| && q != p ==>
                  t.procs[q] == if q == i then Wake(s.procs[q], ProcAddr(INIT_PROC)) else s.procs[q])
  {
  }

  lemma WakeInitKeepsSleepers(s: State, p: nat)
    requires Inv(s) && Enabled(s, Run(p)) && s.procs[p].pc.ExitWakeInit?
    ensures SleepersOk(Do(s, Run(p)))
  {
    var t := Do(s, Run(p));
    WakeInitMoves(s, p);
    assert ParentOk(s, p) && ProcOk(INIT_PROC, s.procs[INIT_PROC]);
    assert HoldsParents(s.procs[p].pc) <==> s.lock == Some(p);
    assert HoldsParents(s.procs[INIT_PROC].pc) <==> s.lock == Some(INIT_PROC);
    QuietKeepsWaits(s, t);
  }

  lemma WakeParentKeepsSleepers(s: State, p: nat)
    requires Inv(s) && Enabled(s, Run(p)) && s.procs[p].pc.ExitWakeParent? && s.procs[p].pc.next < |s.procs|
    ensures SleepersOk(Do(s, Run(p)))
  {
    var t := Do(s, Run(p));
    var q := s.parents[p].value;
    assert s.lock == Some(p) && t.lock == Some(p) by { assert HoldsParents(s.procs[p].pc) <==> s.lock == Some(p); }
    assert ProcOk(p, s.procs[p]) && ParentOk(s, p);
    assert q != p && ProcOk(q, s.procs[q]);
    assert !HoldsParents(s.procs[q].pc) by { assert HoldsParents(s.procs[q].pc) <==> s.lock == Some(q); }
    assert Waits(t.procs[q]) ==> s.procs[p].pc.next < q;
    QuietKeepsWaits(s, t);
  }

  lemma ParentAwakeKeepsSleepers(s: State, p: nat)
    requires Inv(s) && Enabled(s, Run(p)) && s.procs[p].pc.ExitWakeParent? && s.procs[p].pc.next >= |s.procs|
    ensures SleepersOk(Do(s, Run(p)))
  {
    var t := Do(s, Run(p));
    assert s.lock == Some(p) by { assert HoldsParents(s.procs[p].pc) <==> s.lock == Some(p); }
    assert ParentOk(s, p);
    QuietKeepsWaits(s, t);
  }

  lemma ExitDropKeepsSleepers(s: State, p: nat)
    requires Inv(s) && Enabled(s, Run(p)) && s.procs[p].pc.ExitDrop?
    ensures SleepersOk(Do(s, Run(p)))
  {
    var t := Do(s, Run(p));
    assert ProcOk(p, s.procs[p]);
    assert HoldsParents(s.procs[p].pc) <==> s.lock == Some(p);
    QuietKeepsWaits(s, t);
  }

  lemma WaitLockKeepsSleepers(s: State, p: nat)
    requires Inv(s) && Enabled(s, Run(p)) && s.procs[p].pc.WaitLock?
    ensures SleepersOk(Do(s, Run(p)))
  {
    var t := Do(s, Run(p));
    assert ProcOk(p, s.procs[p]);
    assert HoldsParents(s.procs[p].pc) <==> s.lock == Some(p);
    QuietKeepsWaits(s, t);
  }

  lemma WaitReturnKeepsSleepers(s: State, p: nat)
    requires Inv(s) && Enabled(s, Run(p)) && s.procs[p].pc.WaitReturn?
    ensures SleepersOk(Do(s, Run(p)))
  {
    var t := Do(s, Run(p));
    assert ProcOk(p, s.procs[p]);
    assert HoldsParents(s.procs[p].pc) <==> s.lock == Some(p);
    QuietKeepsWaits(s, t);
  }

  lemma SleepSelfKeepsSleepers(s: State, p: nat)
    requires Inv(s) && Enabled(s, Run(p)) && s.procs[p].pc.SleepSelf?
    ensures SleepersOk(Do(s, Run(p)))
  {
    var t := Do(s, Run(p));
    assert ProcOk(p, s.procs[p]);
    assert HoldsParents(s.procs[p].pc) <==> s.lock == Some(p);
    QuietKeepsWaits(s, t);
  }

  lemma SleepDropKeepsSleepers(s: State, p: nat)
    requires Inv(s) && Enabled(s, Run(p)) && s.procs[p].pc.SleepDrop?
    ensures SleepersOk(Do(s, Run(p)))
  {
    var t := Do(s, Run(p));
    assert ProcOk(p, s.procs[p]);
    assert HoldsParents(s.procs[p].pc) <==> s.lock == Some(p);
    QuietKeepsWaits(s, t);
  }

  lemma SetParentKeepsSleepers(s: State, p: nat)
    requires Inv(s) && Enabled(s, Run(p)) && s.procs[p].pc.ForkParent?
    ensures SleepersOk(Do(s, Run(p)))
  {
    var t := Do(s, Run(p));
    assert ProcOk(p, s.procs[p]);
    assert HoldsParents(s.procs[p].pc) <==> s.lock == Some(p);
    forall q, c | 0 <= q < |s.procs| && 0 <= c < |s.procs|
      ensures Waits(t.procs[q]) && ZombieChild(t, q, c) ==> q == INIT_PROC && InitWakeupPending(t)
    {
      assert Waits(s.procs[q]) ==> !ZombieChild(s, q, c);
      assert ProcOk(c, s.procs[c]);
    }
  }

  lemma ReparentMoves(s: State, p: nat)
    requires Enabled(s, Run(p)) && s.procs[p].pc.ExitReparent?
    ensures var t := Do(s, Run(p));
            && t.lock == s.lock && t.parents == Reparent(s.parents, p) && |t.procs| == |s.procs|
            && t.procs[p].pc ==
               (if Some(p) in s.parents then ExitWakeInit(0, s.procs[p].pc.status)
                else ExitWakeParent(0, s.procs[p].pc.status))
            && (forall q :: 0 <= q < |s.procs| && q != p ==> t.procs[q] == s.procs[q])
  {
  }

  lemma ReparentKeepsSleepers(s: State, p: nat)
    requires Inv(s) && Enabled(s, Run(p)) && s.procs[p].pc.ExitReparent?
    ensures SleepersOk(Do(s, Run(p)))
  {
    var t := Do(s, Run(p));
    ReparentMoves(s, p);
    assert ParentOk(s, p) && ProcOk(p, s.procs[p]);
    assert HoldsParents(s.procs[p].pc) <==> s.lock == Some(p);
    forall q, c | 0 <= q < |s.procs| && 0 <= c < |s.procs|
      ensures Waits(t.procs[q]) && ZombieChild(t, q, c) ==> q == INIT_PROC && InitWakeupPending(t)
    {
      assert Waits(s.procs[q]) ==> !ZombieChild(s, q, c);
      assert ProcOk(c, s.procs[c]);
    }
  }

  lemma ZombieKeepsSleepers(s: State, p: nat)
    requires Inv(s) && Enabled(s, Run(p)) && s.procs[p].pc.ExitZombie?
    ensures SleepersOk(Do(s, Run(p)))
  {
    var t := Do(s, Run(p));
    assert ProcOk(p, s.procs[p]);
    assert HoldsParents(s.procs[p].pc) <==> s.lock == Some(p);
    forall q, c | 0 <= q < |s.procs| && 0 <= c < |s.procs|
      ensures Waits(t.procs[q]) && ZombieChild(t, q, c) ==> q == INIT_PROC && InitWakeupPending(t)
    {
      assert Waits(s.procs[q]) ==> !ZombieChild(s, q, c);
      assert ProcOk(c, s.procs[c]);
    }
  }

  /** A scan that meets no zombie moves on. */
  lemma ScanMoves(s: State, p: nat)
    requires Enabled(s, Run(p)) && s.procs[p].pc.WaitScan? && s.procs[p].pc.next < |s.procs| && !AtZombie(s, p)
    ensures var t := Do(s, Run(p));
            && t.lock == s.lock && t.parents == s.parents && t.procs[p].pc.WaitScan?
               && t.procs[p].pc.next == s.procs[p].pc.next + 1
            && t.procs == s.procs[p := s.procs[p].(pc := t.procs[p].pc)]
  {
  }

  lemma ScanKeepsSleepers(s: State, p: nat)
    requires Inv(s) && Enabled(s, Run(p)) && s.procs[p].pc.WaitScan? && s.procs[p].pc.next < |s.procs|
             && !AtZombie(s, p)
    ensures SleepersOk(Do(s, Run(p)))
  {
    ScanMoves(s, p);
    assert s.lock == Some(p) by { assert HoldsParents(s.procs[p].pc) <==> s.lock == Some(p); }
    assert ProcOk(s.procs[p].pc.next, s.procs[s.procs[p].pc.next]);
    ScannedOneMore(s, p, Do(s, Run(p)));
  }

  lemma ScannedOneMore(s: State, p: nat, t: State)
    requires WaitsOk(s) && HolderOk(s) && p < |s.procs| == |t.procs| && s.procs[p].pc.WaitScan?
             && s.procs[p].pc.next < |s.procs|
    requires s.lock == Some(p) && !AtZombie(s, p) && ProcOk(s.procs[p].pc.next, s.procs[s.procs[p].pc.next])
    requires t.lock == s.lock && t.parents == s.parents && t.procs[p].pc.WaitScan?
             && t.procs[p].pc.next == s.procs[p].pc.next + 1
    requires t.procs == s.procs[p := s.procs[p].(pc := t.procs[p].pc)]
    ensures SleepersOk(t)
  {
    QuietKeepsWaits(s, t);
    forall c | 0 <= c < |s.procs| && c < t.procs[p].pc.next ensures !ZombieChild(t, p, c) {
      assert c < s.procs[p].pc.next ==> !ZombieChild(s, p, c);
    }
  }

  /** Having found no zombie among its children, `p` either returns or goes to sleep. */
  lemma ScanEndKeepsSleepers(s: State, p: nat)
    requires Inv(s) && Enabled(s, Run(p)) && s.procs[p].pc.WaitScan? && s.procs[p].pc.next >= |s.procs|
    ensures SleepersOk(Do(s, Run(p)))
  {
    var t := Do(s, Run(p));
    assert s.lock == Some(p) by { assert HoldsParents(s.procs[p].pc) <==> s.lock == Some(p); }
    forall q, c | 0 <= q < |s.procs| && 0 <= c < |s.procs|
      ensures Waits(t.procs[q]) && ZombieChild(t, q, c) ==> q == INIT_PROC && InitWakeupPending(t)
    {
      assert Waits(s.procs[q]) || q == p ==> !ZombieChild(s, q, c);
    }
  }

  lemma ReapMoves(s: State, p: nat)
    requires Enabled(s, Run(p)) && AtZombie(s, p)
    ensures var t := Do(s, Run(p)); var i := s.procs[p].pc.next;
            && t.lock == s.lock && t.parents == s.parents[i := None] && |t.procs| == |s.procs|
               && t.procs[p].pc.WaitReturn?
            && (forall q :: 0 <= q < |s.procs| && q != p ==> t.procs[q] == if q == i then unused else s.procs[q])
  {
  }

  lemma ReapKeepsSleepers(s: State, p: nat)
    requires Inv(s) && Enabled(s, Run(p)) && AtZombie(s, p)
    ensures SleepersOk(Do(s, Run(p)))
  {
    ReapMoves(s, p);
    assert s.lock == Some(p) by { assert HoldsParents(s.procs[p].pc) <==> s.lock == Some(p); }
    ReapedOne(s, p, Do(s, Run(p)));
  }

  lemma ReapedOne(s: State, p: nat, t: State)
    requires WaitsOk(s) && p < |s.procs| && s.lock == Some(p) == t.lock && AtZombie(s, p)
    requires var i := s.procs[p].pc.next;
             && t.parents == s.parents[i := None] && |t.procs| == |s.procs| && t.procs[p].pc.WaitReturn?
             && (forall q :: 0 <= q < |s.procs| && q != p ==> t.procs[q] == if q == i then unused else s.procs[q])
    ensures SleepersOk(t)
  {
    forall q, c | 0 <= q < |s.procs| && 0 <= c < |s.procs|
      ensures Waits(t.procs[q]) && ZombieChild(t, q, c) ==> q == INIT_PROC && InitWakeupPending(t)
    {
      assert Waits(s.procs[q]) ==> !ZombieChild(s, q, c);
    }
  }

  lemma CopyFailsKeepsSleepers(s: State, p: nat)
    requires Inv(s) && Enabled(s, CopyFails(p))
    ensures SleepersOk(Do(s, CopyFails(p)))
  {
    var t := Do(s, CopyFails(p));
    assert s.lock == Some(p) by { assert HoldsParents(s.procs[p].pc) <==> s.lock == Some(p); }
    QuietKeepsWaits(s, t);
  }

  /** Steps that have nothing to do with the parents lock. */
  predicate Unlocked(s: State, a: Action)
    requires Enabled(s, a)
  {
    var pc := s.procs[a.p].pc;
    match a
    case Run(_) =>
      pc.User? || pc.Elsewhere? || pc.ForkRun? || pc.ExitSched? || pc.SleepSet? || pc.Parked? || pc.Awake?
    case CopyFails(_) => false
    case _ => true
  }

  lemma UnlockedActor(s: State, a: Action)
    requires Enabled(s, a) && Unlocked(s, a)
    ensures var e := Step(s, a); var x := s.procs[a.p];
            && e.lock == s.lock && e.parents == s.parents
            && IsZombie(e.me.pc) == IsZombie(x.pc)
            && (Waits(e.me) ==> Waits(x))
            && (HoldsParents(x.pc) ==> e.me.pc == x.pc)
            && (e.slot != a.p ==> a.Fork? || x.pc.ForkRun?)
  {
  }

  lemma UnlockedKeepsSleepers(s: State, a: Action)
    requires Inv(s) && Enabled(s, a) && Unlocked(s, a)
    ensures SleepersOk(Do(s, a))
  {
    var t := Do(s, a);
    UnlockedActor(s, a);
    OtherTouchedByFork(s, a);
    QuietKeepsWaits(s, t);
    QuietKeepsHolder(s, t);
  }

  /** The only other slot that such a step touches is the child of a fork. */
  lemma ForkTouches(s: State, a: Action)
    requires Enabled(s, a) && Unlocked(s, a) && ForkOk(s, a.p) && (a.Fork? ==> ProcOk(a.child, s.procs[a.child]))
    ensures var e := Step(s, a);
            && e.slot < |s.procs|
            && (e.slot == a.p || (var x := s.procs[e.slot];
                !HoldsParents(x.pc) && !Waits(e.other) && !IsZombie(x.pc) && !IsZombie(e.other.pc)))
  {
  }

  lemma OtherTouchedByFork(s: State, a: Action)
    requires Inv(s) && Enabled(s, a) && Unlocked(s, a)
    ensures forall q :: 0 <= q < |s.procs| && q != a.p ==>
      var x, y := s.procs[q], Do(s, a).procs[q];
      y == x || (!HoldsParents(x.pc) && !Waits(y) && !IsZombie(x.pc) && !IsZombie(y.pc))
  {
    assert ForkOk(s, a.p);
    if a.Fork? { assert ProcOk(a.child, s.procs[a.child]); }
    ForkTouches(s, a);
    ghost var e := Step(s, a);
    assert Do(s, a).procs == s.procs[e.slot := e.other][a.p := e.me];
  }

  lemma QuietKeepsHolder(s: State, t: State)
    requires HolderOk(s) && t.parents == s.parents && |t.procs| == |s.procs| && t.lock == s.lock
    requires forall q :: 0 <= q < |s.procs| ==> IsZombie(t.procs[q].pc) == IsZombie(s.procs[q].pc)
    requires forall q :: 0 <= q < |s.procs| && Waits(t.procs[q]) ==> Waits(s.procs[q])
    requires s.lock.Some? && s.lock.value < |s.procs| ==> t.procs[s.lock.value].pc == s.procs[s.lock.value].pc
    ensures HolderOk(t)
  {
    if s.lock.Some? && s.procs[s.lock.value].pc.WaitScan? {
      var e := s.lock.value;
      forall c | 0 <= c < |s.procs| && c < s.procs[e].pc.next ensures !ZombieChild(t, e, c) {
        assert !ZombieChild(s, e, c);
      }
    }
  }

  lemma StepKeepsSleepers(s: State, a: Action)
    requires Inv(s) && Enabled(s, a)
    ensures SleepersOk(Do(s, a))
  {
    var p := a.p;
    if Unlocked(s, a) {
      UnlockedKeepsSleepers(s, a);
    } else if a.CopyFails? {
      CopyFailsKeepsSleepers(s, p);
    } else {
      match s.procs[p].pc
      case ForkParent(_) => SetParentKeepsSleepers(s, p);
      case ExitLock(_) => ExitLockKeepsSleepers(s, p);
      case ExitReparent(_) => ReparentKeepsSleepers(s, p);
      case ExitWakeInit(_, _) => WakeInitKeepsSleepers(s, p);
      case ExitWakeParent(i, _) =>
        if i < |s.procs| { WakeParentKeepsSleepers(s, p); }
        else { ParentAwakeKeepsSleepers(s, p); }
      case ExitZombie(_) => ZombieKeepsSleepers(s, p);
      case ExitDrop => ExitDropKeepsSleepers(s, p);
      case WaitLock => WaitLockKeepsSleepers(s, p);
      case WaitScan(i, _) =>
        if AtZombie(s, p) { ReapKeepsSleepers(s, p); }
        else if i < |s.procs| { ScanKeepsSleepers(s, p); }
        else { ScanEndKeepsSleepers(s, p); }
      case WaitReturn => WaitReturnKeepsSleepers(s, p);
      case SleepSelf => SleepSelfKeepsSleepers(s, p);
      case SleepDrop => SleepDropKeepsSleepers(s, p);
      case _ =>
    }
  }

  // ----- History

  /** The three steps that write the history. */
  predicate HistoryStep(s: State, a: Action)
    requires Enabled(s, a)
  {
    a.Fork? || (a.Run? && (s.procs[a.p].pc.ExitZombie? || AtZombie(s, a.p)))
  }

  ghost predicate SameHistory(x: Proc, y: Proc) {
    IsZombie(y.pc) == IsZombie(x.pc) && y.pc.Free? == x.pc.Free? && (IsZombie(x.pc) ==> y.status == x.status)
  }

  ghost predicate HistoryFacts(s: State, p: nat, e: Effect)
    requires p < |s.procs|
  {
    && e.gen == s.gen && e.exited == s.exited && e.reaped == s.reaped
    && SameHistory(s.procs[p], e.me)
    && (e.slot != p ==> e.slot < |s.procs| && SameHistory(s.procs[e.slot], e.other))
  }

  lemma ExitKeepsHistory(s: State, p: nat)
    requires p < |s.procs| && CanRun(s, p) && ExitCode(s.procs[p].pc) && !s.procs[p].pc.ExitZombie?
    ensures HistoryFacts(s, p, ExitStep(s, p))
  {
  }

  lemma WaitKeepsHistory(s: State, p: nat)
    requires p < |s.procs| && CanRun(s, p) && WaitCode(s.procs[p].pc) && !AtZombie(s, p)
    ensures HistoryFacts(s, p, WaitStep(s, p))
  {
  }

  lemma ActorKeepsHistory(s: State, a: Action)
    requires Enabled(s, a) && !HistoryStep(s, a) && ForkOk(s, a.p)
    ensures HistoryFacts(s, a.p, Step(s, a))
  {
    if a.Run? {
      if ExitCode(s.procs[a.p].pc) { ExitKeepsHistory(s, a.p); }
      else if WaitCode(s.procs[a.p].pc) { WaitKeepsHistory(s, a.p); }
    }
  }

  lemma SameHistoryKeeps(s: State, p: nat, e: Effect)
    requires HistoryOk(s) && p < |s.procs| && e.slot < |s.procs| && |e.parents| == |s.parents|
    requires HistoryFacts(s, p, e)
    ensures HistoryOk(Apply(s, p, e))
  {
    var t := Apply(s, p, e);
    forall q | 0 <= q < |s.procs| ensures SameHistory(s.procs[q], t.procs[q]) {}
  }

  lemma AllocKeepsHistory(s: State, p: nat, c: nat)
    requires Inv(s) && Enabled(s, Fork(p, c))
    ensures HistoryOk(Do(s, Fork(p, c)))
  {
    assert ProcOk(c, s.procs[c]);
  }

  lemma DeathKeepsHistory(s: State, p: nat)
    requires HistoryOk(s) && Enabled(s, Run(p)) && s.procs[p].pc.ExitZombie?
    ensures HistoryOk(Do(s, Run(p)))
  {
    var t := Do(s, Run(p));
    assert t.gen == s.gen && t.reaped == s.reaped;
    assert t.exited == s.exited[(p, s.gen[p]) := t.procs[p].status];
    assert forall c :: 0 <= c < |s.procs| && c != p ==> t.procs[c] == s.procs[c];
    assert (p, s.gen[p]) !in s.exited;
    RecordKeepsHistory(s, p, t);
  }

  lemma RecordKeepsHistory(s: State, p: nat, t: State)
    requires HistoryOk(s) && p < |s.procs| == |t.procs| && (p, s.gen[p]) !in s.exited
    requires t.gen == s.gen && t.reaped == s.reaped && t.exited == s.exited[(p, s.gen[p]) := t.procs[p].status]
    requires forall c :: 0 <= c < |s.procs| && c != p ==> t.procs[c] == s.procs[c]
    requires IsZombie(t.procs[p].pc)
    ensures HistoryOk(t)
  {
  }

  lemma ReapKeepsHistory(s: State, p: nat)
    requires HistoryOk(s) && Enabled(s, Run(p)) && AtZombie(s, p) && IsZombie(s.procs[s.procs[p].pc.next].pc)
    ensures HistoryOk(Do(s, Run(p)))
  {
    var t := Do(s, Run(p));
    var i := s.procs[p].pc.next;
    assert t.gen == s.gen && t.exited == s.exited && t.procs[i].pc.Free?;
    assert t.reaped == s.reaped[(i, s.gen[i]) := Reaped(p, s.procs[i].status)];
    assert forall c :: 0 <= c < |s.procs| && c != i ==> SameHistory(s.procs[c], t.procs[c]);
    CollectKeepsHistory(s, p, i, t);
  }

  lemma CollectKeepsHistory(s: State, p: nat, i: nat, t: State)
    requires HistoryOk(s) && i < |s.procs| == |t.procs| && IsZombie(s.procs[i].pc) && t.procs[i].pc.Free?
    requires t.gen == s.gen && t.exited == s.exited
    requires t.reaped == s.reaped[(i, s.gen[i]) := Reaped(p, s.procs[i].status)]
    requires forall c :: 0 <= c < |s.procs| && c != i ==> SameHistory(s.procs[c], t.procs[c])
    ensures HistoryOk(t)
  {
  }

  lemma StepKeepsHistory(s: State, a: Action)
    requires Inv(s) && Enabled(s, a)
    ensures HistoryOk(Do(s, a))
  {
    var p := a.p;
    if !HistoryStep(s, a) {
      assert ForkOk(s, p);
      ActorKeepsHistory(s, a);
      SameHistoryKeeps(s, p, Step(s, a));
    } else if a.Fork? {
      AllocKeepsHistory(s, p, a.child);
    } else if s.procs[p].pc.ExitZombie? {
      DeathKeepsHistory(s, p);
    } else {
      assert ProcOk(s.procs[p].pc.next, s.procs[s.procs[p].pc.next]);
      ReapKeepsHistory(s, p);
    }
  }

  // ----- The theorems

  /** Every state of every run satisfies the invariant, whatever the interleaving. */
  lemma {:induction false} RunKeepsInv(states: seq<State>, actions: seq<Action>, i: nat)
    requires IsRun(states, actions) && i < |states|
    ensures Inv(states[i])
  {
    if i == 0 {
      InitInv(|states[0].procs|);
    } else {
      RunKeepsInv(states, actions, i - 1);
      var s, a := states[i - 1], actions[i - 1];
      assert ForkOk(s, a.p);
      StepIsLocal(s, a);
      LocalKeepsProcs(s, a.p, states[i]);
      StepKeepsFamily(s, a);
      StepKeepsSleepers(s, a);
      StepKeepsHistory(s, a);
    }
  }

  /** No lost wakeup: while the parents lock is free, a process asleep in waiting() has no zombie child,
      not even one that it inherited as init. */
  lemma {:induction false} NoSleeperWithZombie(states: seq<State>, actions: seq<Action>, i: nat, p: nat, c: nat)
    requires IsRun(states, actions) && i < |states| && p < |states[i].procs| && c < |states[i].procs|
    requires states[i].lock.None?
    requires states[i].procs[p].state == SLEEPING && states[i].procs[p].channel == ProcAddr(p)
    ensures !(states[i].parents[c] == Some(p) && states[i].procs[c].state == ZOMBIE)
  {
    var s := states[i];
    RunKeepsInv(states, actions, i);
    assert ProcOk(p, s.procs[p]) && ProcOk(c, s.procs[c]);
    assert ZombieChild(s, p, c) ==> !Waits(s.procs[p]);
  }

  /** A zombie always has a parent that is alive and still looks after its children. */
  lemma {:induction false} ZombieHasLivingParent(states: seq<State>, actions: seq<Action>, i: nat, c: nat)
    requires IsRun(states, actions) && i < |states| && c < |states[i].procs|
    requires states[i].procs[c].state == ZOMBIE
    ensures states[i].parents[c].Some? && states[i].parents[c].value < |states[i].procs|
    ensures var q := states[i].procs[states[i].parents[c].value]; q.state != UNUSED && q.state != ZOMBIE
  {
    var s := states[i];
    RunKeepsInv(states, actions, i);
    assert ProcOk(c, s.procs[c]) && ParentOk(s, c);
    assert ProcOk(s.parents[c].value, s.procs[s.parents[c].value]);
  }

  /** Whoever collects a zombie is its parent at that moment, collects it for the first time, obtains the
      status with which this incarnation called exit(), and the slot is then off every CPU. */
  lemma {:induction false} ReapedOnceByParent(states: seq<State>, actions: seq<Action>, i: nat, k: (nat, nat))
    requires IsRun(states, actions) && i < |actions|
    requires k in states[i + 1].reaped && (k !in states[i].reaped || states[i + 1].reaped[k] != states[i].reaped[k])
    ensures k !in states[i].reaped && k in states[i].exited
    ensures k.0 < |states[i].procs| && states[i].parents[k.0] == Some(states[i + 1].reaped[k].parent)
    ensures states[i + 1].reaped[k].status == states[i].exited[k]
    ensures states[i].procs[k.0].pc == Dead && states[i + 1].procs[k.0].state == UNUSED
  {
    RunKeepsInv(states, actions, i);
    NewlyReaped(states[i], actions[i], k);
  }

  lemma NewlyReaped(s: State, a: Action, k: (nat, nat))
    requires Inv(s) && Enabled(s, a) && k in Do(s, a).reaped
    requires k !in s.reaped || Do(s, a).reaped[k] != s.reaped[k]
    ensures k !in s.reaped && k in s.exited
    ensures k.0 < |s.procs| && s.parents[k.0] == Some(Do(s, a).reaped[k].parent)
    ensures Do(s, a).reaped[k].status == s.exited[k]
    ensures s.procs[k.0].pc == Dead && Do(s, a).procs[k.0].state == UNUSED
  {
    if !HistoryStep(s, a) {
      assert ForkOk(s, a.p);
      ActorKeepsHistory(s, a);
    } else if a.Run? && !s.procs[a.p].pc.ExitZombie? {
      var i := s.procs[a.p].pc.next;
      assert ProcOk(i, s.procs[i]) && ProcOk(a.p, s.procs[a.p]);
    }
  }

  /** Every exit is remembered until it is collected: it has been collected with its own status, or its
      slot is still that zombie. */
  lemma {:induction false} NoExitForgotten(states: seq<State>, actions: seq<Action>, i: nat, k: (nat, nat))
    requires IsRun(states, actions) && i < |states| && k in states[i].exited
    ensures if k in states[i].reaped then states[i].reaped[k].status == states[i].exited[k]
            else k.0 < |states[i].procs| && states[i].procs[k.0].state == ZOMBIE && states[i].gen[k.0] == k.1
                 && states[i].procs[k.0].status == states[i].exited[k]
  {
    RunKeepsInv(states, actions, i);
    if k !in states[i].reaped {
      assert ProcOk(k.0, states[i].procs[k.0]);
    }
  }
}
