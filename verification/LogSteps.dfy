/** The steps of the log protocol are what the methods of the log object do, one critical section or block write
  * each. */
module LogSteps {
  import opened LogSpec
  import opened BlockCache
  import opened Log
  import opened LogProtocol

  /** A caller that changes its buffer and hands it to `write`. */
  lemma WriteIsWrite(s: State, i: nat, b: nat, data: Block, r: LogWrite, h: Header, held: Held)
    requires i < |s.ops| && HandlesOf(s, b) > 0 && b in s.held && s.held[b].refs > 0
    requires s.h.len <= |s.h.blocknos| == LOGSIZE - 1 && h.len <= |h.blocknos|
    requires WriteDoes(s.area, |s.ops|, s.h, SetData(s.held, b, data), b, r, h, held)
    ensures var t := AfterWrite(s, i, b, data);
            && !r.NoOperation? && (r.NoRoom? <==> t == s.(panic := LogProtocol.NoRoom))
            && (!r.NoRoom? ==> t.h == h && t.held == held && t.disk == s.disk && t.panic == s.panic)
  {
    var x := SetData(s.held, b, data);
    assert Drop(Pin(x, b), b) == x;
  }

  /** One round of copying: `CopyOne` finds the block in its pinned buffer. */
  lemma CopyIsCopyOne(s: State)
    requires Inv(s) && s.phase.Copying? && s.phase.done < s.h.len && !AfterCopy(s).panic.NoBuffer?
    ensures var target, b := CopyAt(s.area, s.phase.done), s.h.blocknos[s.phase.done];
            && b in s.held && target !in s.held
            && AfterCopy(s).disk == s.disk[target := s.held[b].data] && AfterCopy(s).held == s.held
  {
    var target, b := CopyAt(s.area, s.phase.done), s.h.blocknos[s.phase.done];
    assert BlockOk(s, b) && BlockOk(s, target);
  }

  /** One round of installing: what `InstallOne` needs is there, and its effect is that of the step. */
  lemma InstallIsInstallOne(s: State)
    requires Inv(s) && s.phase.Installing? && s.phase.done < s.h.len
    requires CanGet(s.held, CopyAt(s.area, s.phase.done))
    ensures var source, b := CopyAt(s.area, s.phase.done), s.h.blocknos[s.phase.done];
            && b in s.held && s.held[b].refs > 0 && AfterInstall(s).panic == s.panic
            && AfterInstall(s).disk == s.disk[b := s.disk[source]] && AfterInstall(s).held == HeldThen(false, s.held, b)
  {
    var source, b := CopyAt(s.area, s.phase.done), s.h.blocknos[s.phase.done];
    InstallFinds(s);
    assert BlockOk(s, b) && BlockOk(s, source);
  }

  /** `begin_op` lets an operation in exactly when the protocol does. */
  lemma BeginIsTryBegin(s: State, id: nat)
    ensures Admits(s) <==> Room(!s.phase.Idle?, |s.ops|, s.h.len)
    ensures var t := AfterBegin(s, id);
            |t.ops| == |s.ops| + 1 && t.h == s.h && t.held == s.held && t.disk == s.disk && t.phase == s.phase
  {
  }

  /** `end_op` panics exactly when the protocol does. Otherwise it leaves all else alone; after the last operation, what
    * is logged is committed, round by round. */
  lemma EndIsEndOp(s: State, i: nat, limit: nat)
    requires Inv(s) && s.panic.NoPanic? && i < |s.ops|
    ensures var t := AfterEnd(s, i);
            && |t.ops| == |s.ops| - 1 && t.h == s.h && t.held == s.held && t.disk == s.disk
            && (t.panic.EndWhileCommitting? <==> !s.phase.Idle?)
            && (EndCommits(!s.phase.Idle?, |t.ops|, s.h.len) <==> t.phase == Copying(0) && s.phase.Idle? && s.h.len > 0)
            && (t.phase == Copying(0) && t.h.len == 0 && t.panic.NoPanic? ==>
                  Enabled(t, limit, Finish) && After(t, limit, Finish) == t.(phase := Idle))
  {
  }

  /** The commit point is `write_head`: what it needs is there, and its effect is that of the step. */
  lemma HeadIsWriteHead(s: State)
    requires Inv(s) && s.phase.Copying? && CanGet(s.held, s.area.start)
    ensures s.area.start < |s.disk| && HeaderFits(s.h) && s.area.start !in s.held && HeldOk(s.held, s.disk)
    ensures var t := AfterHead(s);
            && t.disk == s.disk[s.area.start := PutHeader(s.disk[s.area.start], s.h)] && t.held == s.held
            && t.panic == s.panic
  {
    assert BlockOk(s, s.area.start);
    HeldInRange(s);
  }

  /** The commit is over with `empty_head`. */
  lemma EmptyIsEmptyHead(s: State)
    requires Inv(s) && s.phase.Installing? && CanGet(s.held, s.area.start)
    ensures s.area.start < |s.disk| && s.area.start !in s.held && HeldOk(s.held, s.disk)
    ensures var t := AfterEmpty(s);
            && t.disk == s.disk[s.area.start := PutEmpty(s.disk[s.area.start])] && t.held == s.held
            && t.h == s.h.(len := 0) && t.panic == s.panic
  {
    assert BlockOk(s, s.area.start);
    HeldInRange(s);
  }

  lemma HeldInRange(s: State)
    requires Inv(s)
    ensures HeldOk(s.held, s.disk)
  {
    forall b | b in s.held ensures b < |s.disk| && s.held[b].refs > 0 { assert BlockOk(s, b); }
  }
}
