/** The sleep lock of `kernel/src/sleeplock.rs` together with the two process primitives it is built
    on, `Process::sleep` and `ProcManager::wakeup`, as a state machine over all interleavings.

    Any number of processes run; a step is the code between two points where another process can
    interfere. The inner spinlock and every process's own lock (`excl`) are explicit, because the hand
    over between them is what keeps wakeups from being lost. Processes may also sleep on other channels
    and may be made runnable for reasons unrelated to the lock (`kill`). */
module SleepLock {
  datatype ProcState = SLEEPING | RUNNABLE | RUNNING

  datatype Pc =
    | Idle                  // outside lock() and unlock(), not holding the sleep lock
    | Elsewhere             // asleep on another channel
    | Acquire               // lock(): about to take the inner spinlock
    | Test                  // lock(): holds the inner spinlock, evaluates the loop condition
    | LockSelf              // sleep(): holds the inner spinlock, about to take its own excl
    | DropInner             // sleep(): holds both, about to drop the inner spinlock
    | Doze                  // sleep(): holds excl, about to set its state and switch away
    | Parked                // switched away; the scheduler has dropped excl
    | Awake                 // switched back in with excl held, about to clear the channel
    | Critical              // holds the sleep lock
    | UnlockAcquire         // unlock(): about to take the inner spinlock
    | Clear                 // unlock(): holds the inner spinlock, about to clear `locked`
    | Scan(next: nat)       // wakeup(): holds the inner spinlock, about to visit table[next]
    | Release               // unlock(): wakeup is done, about to drop the inner spinlock

  datatype Proc = Proc(pc: Pc, state: ProcState, channel: nat, excl: bool)

  datatype State = State(locked: bool, inner: bool, procs: seq<Proc>)

  /** The address of the `locked` cell, which serves as the sleep channel. */
  const LOCK: nat := 1

  datatype Action =
    | Run(p: nat)                    // process p executes its next step
    | Want(p: nat)                   // an idle process calls lock()
    | Nap(p: nat, channel: nat)      // an idle process goes to sleep on another channel
    | Kick(p: nat)                   // a sleeper is made runnable by somebody else

  function Init(n: nat): State {
    State(false, false, seq(n, _ => Proc(Idle, RUNNING, 0, false)))
  }

  predicate Enabled(s: State, a: Action) {
    && a.p < |s.procs|
    && var me := s.procs[a.p];
    match a
    case Want(_) => me.pc == Idle
    case Nap(_, channel) => me.pc == Idle && channel != LOCK
    case Kick(_) => me.state == SLEEPING && !me.excl
    case Run(_) =>
      match me.pc
      case Idle => false
      case Elsewhere => me.state == RUNNABLE && !me.excl
      case Acquire => !s.inner
      case LockSelf => !me.excl
      case Parked => me.state == RUNNABLE && !me.excl
      case UnlockAcquire => !s.inner
      case Scan(i) => i < |s.procs| ==> !s.procs[i].excl
      case _ => true
  }

  function SetPc(s: State, p: nat, pc: Pc): State
    requires p < |s.procs|
  {
    s.(procs := s.procs[p := s.procs[p].(pc := pc)])
  }

  /** The body of the loop in `wakeup` for one process. */
  function Wake(q: Proc, channel: nat): Proc {
    if q.state == SLEEPING && q.channel == channel then q.(state := RUNNABLE) else q
  }

  function Do(s: State, a: Action): State
    requires Enabled(s, a)
  {
    var p := a.p;
    var me := s.procs[p];
    match a
    case Want(_) => SetPc(s, p, Acquire)
    case Nap(_, channel) => s.(procs := s.procs[p := Proc(Elsewhere, SLEEPING, channel, false)])
    case Kick(_) => s.(procs := s.procs[p := me.(state := RUNNABLE)])
    case Run(_) =>
      match me.pc
      case Elsewhere => s.(procs := s.procs[p := Proc(Idle, RUNNING, 0, false)])
      case Acquire => SetPc(s.(inner := true), p, Test)
      case Test => if s.locked then SetPc(s, p, LockSelf)
                   else SetPc(s.(locked := true, inner := false), p, Critical)
      case LockSelf => s.(procs := s.procs[p := me.(pc := DropInner, excl := true)])
      case DropInner => SetPc(s.(inner := false), p, Doze)
      case Doze => s.(procs := s.procs[p := Proc(Parked, SLEEPING, LOCK, false)])
      case Parked => s.(procs := s.procs[p := me.(pc := Awake, state := RUNNING, excl := true)])
      case Awake => s.(procs := s.procs[p := me.(pc := Acquire, channel := 0, excl := false)])
      case Critical => SetPc(s, p, UnlockAcquire)
      case UnlockAcquire => SetPc(s.(inner := true), p, Clear)
      case Clear => SetPc(s.(locked := false), p, Scan(0))
      case Scan(i) =>
        if i >= |s.procs| then SetPc(s, p, Release)
        else SetPc(s.(procs := s.procs[i := Wake(s.procs[i], LOCK)]), p, Scan(i + 1))
      case Release => SetPc(s.(inner := false), p, Idle)
      case Idle => s
  }

  predicate IsRun(states: seq<State>, actions: seq<Action>) {
    && |states| == |actions| + 1
    && states[0] == Init(|states[0].procs|)
    && forall i :: 0 <= i < |actions| ==> Enabled(states[i], actions[i]) && states[i + 1] == Do(states[i], actions[i])
  }

  // ----- The invariant

  predicate HoldsInner(pc: Pc) {
    pc.Test? || pc.LockSelf? || pc.DropInner? || pc.Clear? || pc.Scan? || pc.Release?
  }

  predicate HoldsLock(pc: Pc) {
    pc.Critical? || pc.UnlockAcquire? || pc.Clear?
  }

  /** `p` has found the lock taken and has not been made runnable since. */
  predicate Waits(q: Proc) {
    q.pc.LockSelf? || q.pc.DropInner? || q.pc.Doze? || (q.pc.Parked? && q.state == SLEEPING)
  }

  ghost predicate ProcOk(q: Proc) {
    && (q.excl <==> q.pc.DropInner? || q.pc.Doze? || q.pc.Awake?)
    && (q.state != RUNNING <==> q.pc.Parked? || q.pc.Elsewhere?)
    && (q.pc.Parked? ==> q.channel == LOCK)
    && (q.pc.Elsewhere? ==> q.channel != LOCK)
  }

  /** A wakeup that has not yet reached `p` is under way. */
  ghost predicate WakeupPending(s: State, p: nat) {
    exists u :: 0 <= u < |s.procs| && s.procs[u].pc.Scan? && s.procs[u].pc.next <= p
  }

  ghost predicate InnerOk(s: State) {
    && (s.inner <==> exists p :: 0 <= p < |s.procs| && HoldsInner(s.procs[p].pc))
    && (forall p, q | 0 <= p < |s.procs| && 0 <= q < |s.procs| ::
          HoldsInner(s.procs[p].pc) && HoldsInner(s.procs[q].pc) ==> p == q)
  }

  ghost predicate LockedOk(s: State) {
    && (s.locked <==> exists p :: 0 <= p < |s.procs| && HoldsLock(s.procs[p].pc))
    && (forall p, q | 0 <= p < |s.procs| && 0 <= q < |s.procs| ::
          HoldsLock(s.procs[p].pc) && HoldsLock(s.procs[q].pc) ==> p == q)
  }

  ghost predicate Inv(s: State) {
    && (forall p :: 0 <= p < |s.procs| ==> ProcOk(s.procs[p]))
    && InnerOk(s)
    && LockedOk(s)
    && (forall p :: 0 <= p < |s.procs| && Waits(s.procs[p]) ==> s.locked || WakeupPending(s, p))
  }

  /** Taking or dropping a lock word together with entering or leaving the code it protects. */
  predicate HandOver(had: bool, has: bool, before: bool, after: bool) {
    || (has == had && after == before)
    || (!before && !had && has && after)
    || (had && !has && !after)
  }

  lemma StepEffect(s: State, a: Action)
    requires Enabled(s, a) && (HoldsLock(s.procs[a.p].pc) ==> s.locked) && (HoldsInner(s.procs[a.p].pc) ==> s.inner)
    ensures var t := Do(s, a); var p := a.p;
            && |t.procs| == |s.procs|
            && (forall q :: 0 <= q < |t.procs| && q != p ==> t.procs[q].pc == s.procs[q].pc)
            && HandOver(HoldsInner(s.procs[p].pc), HoldsInner(t.procs[p].pc), s.inner, t.inner)
            && HandOver(HoldsLock(s.procs[p].pc), HoldsLock(t.procs[p].pc), s.locked, t.locked)
            && (s.locked && !t.locked ==> t.procs[p].pc == Scan(0))
  {
  }

  lemma StepKeepsLocks(s: State, a: Action)
    requires Inv(s) && Enabled(s, a)
    ensures InnerOk(Do(s, a)) && LockedOk(Do(s, a))
  {
    StepEffect(s, a);
    var t := Do(s, a);
    var p := a.p;
    forall h | 0 <= h < |s.procs| && HoldsInner(s.procs[h].pc) ensures h == p || HoldsInner(t.procs[h].pc) {}
    forall h | 0 <= h < |s.procs| && HoldsLock(s.procs[h].pc) ensures h == p || HoldsLock(t.procs[h].pc) {}
  }

  lemma StepKeepsProcs(s: State, a: Action)
    requires Inv(s) && Enabled(s, a)
    ensures forall q :: 0 <= q < |s.procs| ==> ProcOk(Do(s, a).procs[q])
  {
  }

  /** Whoever waits after the step waited before, or has just seen the lock taken; and a scan that has
      just passed `q` has made it runnable. */
  lemma StepWaits(s: State, a: Action, q: nat)
    requires Inv(s) && Enabled(s, a) && q < |s.procs|
    requires Waits(Do(s, a).procs[q])
    ensures Waits(s.procs[q]) || s.locked
    ensures s.procs[a.p].pc.Scan? && s.procs[a.p].pc.next <= q ==>
            Do(s, a).procs[a.p].pc.Scan? && Do(s, a).procs[a.p].pc.next <= q
  {
    assert ProcOk(s.procs[q]) && ProcOk(s.procs[a.p]);
  }

  lemma StepKeepsInv(s: State, a: Action)
    requires Inv(s) && Enabled(s, a)
    ensures Inv(Do(s, a))
  {
    var t := Do(s, a);
    StepEffect(s, a);
    StepKeepsLocks(s, a);
    StepKeepsProcs(s, a);
    forall q | 0 <= q < |t.procs| && Waits(t.procs[q]) ensures t.locked || WakeupPending(t, q) {
      StepWaits(s, a, q);
      if !s.locked {
        var u :| 0 <= u < |s.procs| && s.procs[u].pc.Scan? && s.procs[u].pc.next <= q;
        assert t.procs[u].pc.Scan? && t.procs[u].pc.next <= q;
      } else if !t.locked {
        assert t.procs[a.p].pc.Scan? && t.procs[a.p].pc.next <= q;
      }
    }
  }

  lemma InitInv(n: nat)
    ensures Inv(Init(n))
  {
  }

  /** Every state of every run, whatever the interleaving, satisfies the invariant. */
  lemma {:induction false} RunKeepsInv(states: seq<State>, actions: seq<Action>, i: nat)
    requires IsRun(states, actions) && i < |states|
    ensures Inv(states[i])
  {
    if i == 0 {
      InitInv(|states[0].procs|);
    } else {
      RunKeepsInv(states, actions, i - 1);
      StepKeepsInv(states[i - 1], actions[i - 1]);
    }
  }

  /** At most one process is between the return of lock() and the clearing of `locked` in unlock(). */
  lemma {:induction false} MutualExclusion(states: seq<State>, actions: seq<Action>, i: nat, p: nat, q: nat)
    requires IsRun(states, actions) && i < |states|
    requires p < |states[i].procs| && q < |states[i].procs|
    requires HoldsLock(states[i].procs[p].pc) && HoldsLock(states[i].procs[q].pc)
    ensures p == q
  {
    RunKeepsInv(states, actions, i);
  }

  /** No wakeup is lost: while the inner spinlock is free, a process asleep on the lock's channel means
      that the lock is taken, and taken by exactly one process, which will wake it in unlock(). */
  lemma {:induction false} NoLostWakeup(states: seq<State>, actions: seq<Action>, i: nat, p: nat)
    requires IsRun(states, actions) && i < |states| && p < |states[i].procs|
    requires !states[i].inner
    requires states[i].procs[p].state == SLEEPING && states[i].procs[p].channel == LOCK
    ensures states[i].locked
    ensures exists h :: 0 <= h < |states[i].procs| && h != p && HoldsLock(states[i].procs[h].pc)
  {
    var s := states[i];
    RunKeepsInv(states, actions, i);
    assert ProcOk(s.procs[p]) && Waits(s.procs[p]);
    assert forall u :: 0 <= u < |s.procs| && s.procs[u].pc.Scan? ==> HoldsInner(s.procs[u].pc);
    var h :| 0 <= h < |s.procs| && HoldsLock(s.procs[h].pc);
    assert h != p;
  }
}
