/** When the buffer cache runs out under the log: what pins and handles take of its buffers. */
module LogBuffers {
  import opened Common
  import opened Words
  import opened LogSpec
  import opened BlockCache
  import opened LogProtocol
  import opened LogRoom

  /** How many blocks the log keeps pinned. */
  function Pins(h: Header, phase: Phase): int {
    h.len - FirstPinned(phase)
  }

  ghost function PinnedBlocks(h: Header, from: nat): set<nat>
    requires h.len <= |h.blocknos|
  {
    set j | from <= j < h.len :: h.blocknos[j]
  }

  /** Blocks that somebody has a handle on, and that are not pinned. */
  ghost function Handled(s: State): set<nat> {
    set b | b in s.held && !(s.h.len <= |s.h.blocknos| && Pinned(s.h, s.phase, b))
  }

  lemma {:induction false} CountPinned(h: Header, from: nat)
    requires from <= h.len <= |h.blocknos| && Distinct(h)
    ensures |PinnedBlocks(h, from)| == h.len - from
    decreases h.len
  {
    if from < h.len {
      var g := h.(len := h.len - 1);
      CountPinned(g, from);
      assert PinnedBlocks(h, from) == PinnedBlocks(g, from) + {h.blocknos[h.len - 1]};
    } else {
      assert PinnedBlocks(h, from) == {};
    }
  }

  /** Every referenced buffer is pinned, or somebody has a handle on it. */
  lemma CountHeld(s: State)
    requires Inv(s)
    ensures |s.held| == Pins(s.h, s.phase) + |Handled(s)|
    ensures forall b :: b in Handled(s) ==> HandlesOf(s, b) > 0
  {
    var pinned, handled := PinnedBlocks(s.h, FirstPinned(s.phase)), Handled(s);
    CountPinned(s.h, FirstPinned(s.phase));
    forall b ensures HeldFor(s, pinned, handled, b) { WhyHeld(s, b); }
    HeldSplits(s, pinned, handled);
  }

  ghost predicate HeldFor(s: State, pinned: set<nat>, handled: set<nat>, b: nat) {
    && (b in s.held <==> b in pinned || b in handled) && !(b in pinned && b in handled)
    && (b in handled ==> HandlesOf(s, b) > 0)
  }

  lemma WhyHeld(s: State, b: nat)
    requires Inv(s)
    ensures HeldFor(s, PinnedBlocks(s.h, FirstPinned(s.phase)), Handled(s), b)
  {
    assert BlockOk(s, b);
    assert b in PinnedBlocks(s.h, FirstPinned(s.phase)) <==> Pinned(s.h, s.phase, b);
  }

  lemma HeldSplits(s: State, pinned: set<nat>, handled: set<nat>)
    requires forall b: nat {:trigger HeldFor(s, pinned, handled, b)} :: HeldFor(s, pinned, handled, b)
    ensures |s.held| == |pinned| + |handled| && forall b :: b in handled ==> HandlesOf(s, b) > 0
  {
    forall b: nat ensures (b in s.held.Keys <==> b in pinned + handled) && b !in pinned * handled
                          && (b in handled ==> HandlesOf(s, b) > 0) {
      assert HeldFor(s, pinned, handled, b);
    }
    assert s.held.Keys == pinned + handled && pinned * handled == {};
    assert |s.held| == |s.held.Keys|;
  }

  /** The step asks for a buffer of a block that has none. (The blocks to be copied are pinned, and the log's own blocks
    * are not kept.) */
  predicate AsksForBuffer(s: State, step: Step) {
    (step.GetBuf? && step.b !in s.held) || step.CopyRound? || step.WriteHead? || step.InstallRound? || step.EmptyHead?
  }

  lemma FullCache(s: State, limit: nat, step: Step)
    requires Inv(s) && Enabled(s, limit, step)
    ensures After(s, limit, step).panic.NoBuffer? <==> AsksForBuffer(s, step) && |s.held| >= NBUF
  {
    if step.CopyRound? {
      assert BlockOk(s, CopyAt(s.area, s.phase.done));
      assert Pinned(s.h, s.phase, s.h.blocknos[s.phase.done]);
      assert BlockOk(s, s.h.blocknos[s.phase.done]);
    } else if step.InstallRound? {
      InstallFinds(s);
      assert BlockOk(s, CopyAt(s.area, s.phase.done));
      assert Pinned(s.h, s.phase, s.h.blocknos[s.phase.done]);
      assert BlockOk(s, s.h.blocknos[s.phase.done]);
    } else if step.WriteHead? || step.EmptyHead? {
      assert BlockOk(s, s.area.start);
    }
  }

  /** The cache has no buffer for a step exactly if the pinned blocks and those with handles take all of them. */
  lemma NoBufferIff(s: State, limit: nat, step: Step)
    requires Inv(s) && Enabled(s, limit, step)
    ensures After(s, limit, step).panic.NoBuffer? <==>
            AsksForBuffer(s, step) && Pins(s.h, s.phase) + |Handled(s)| >= NBUF
  {
    CountHeld(s);
    FullCache(s, limit, step);
  }

  /** The header never pins more than LOGSIZE - 2 blocks, so as long as there are handles on at most one other block at
    * a time, in all processes together, the cache never runs out. */
  lemma {:induction false} OneHandleIsSafe(limit: nat, ss: seq<State>)
    requires Run(limit, ss) && forall i :: 0 <= i < |ss| ==> |Handled(ss[i])| < NBUF - (LOGSIZE - 2)
    ensures !ss[|ss| - 1].panic.NoBuffer?
    decreases |ss|
  {
    var n := |ss| - 1;
    if n > 0 {
      RunPrefix(limit, ss);
      forall i | 0 <= i < n ensures |Handled(ss[..n][i])| < NBUF - (LOGSIZE - 2) { assert ss[..n][i] == ss[i]; }
      OneHandleIsSafe(limit, ss[..n]);
      RunKeepsInv(limit, ss[..n]);
      var s := ss[n - 1];
      assert |Handled(s)| < NBUF - (LOGSIZE - 2);
      var step :| Enabled(s, limit, step) && ss[n] == After(s, limit, step);
      NoBufferIff(s, limit, step);
    }
  }
}
