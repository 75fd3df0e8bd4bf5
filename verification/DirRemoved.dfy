/** What the source allows in directories that have been removed while somebody holds them. `create`, `link` and
  * lookups do not ask whether the directory is still linked. */
module DirRemoved {
  import opened Words
  import opened DirSpec
  import opened DirSteps

  // ----- Removed directories in runs

  /** A directory without links has "." and ".." and no other entries. */
  ghost predicate BareAt(nodes: Nodes, d: nat) {
    d < |nodes| && nodes[d].kind.Directory? && nodes[d].nlink == 0 ==>
      var es := nodes[d].entries;
      && |es| >= 2 && es[0].inum == d && IsDot(es[0].name) && IsDotDot(es[1].name) && es[1].inum < |nodes|
      && NoChildren(es)
  }

  ghost predicate Bare(nodes: Nodes) {
    forall d: nat {:trigger BareAt(nodes, d)} :: BareAt(nodes, d)
  }

  lemma UnlinkKeepsBare(s: State, d: nat, name: Name)
    requires Inv(s) && Bare(s.nodes) && Linked(s.nodes, d) && CanUnlink(s, d, name)
    ensures Bare(AfterUnlink(s, d, name).nodes)
  {
    var c, k := Target(s, d, name), FirstNamed(s.nodes[d].entries, name, 0);
    FoundBehind(s, d, name);
    assert EntryAt(s.nodes, d, k);
    if s.nodes[c].kind.Directory? {
      assert DirAt(s.nodes, c) && c != ROOT;
      TwoLinks(s, d, c);
    }
    forall x: nat ensures BareAt(AfterUnlink(s, d, name).nodes, x) { assert BareAt(s.nodes, x); }
  }

  lemma StepKeepsBare(s: State, step: Step)
    requires Inv(s) && Bare(s.nodes) && Enabled(s, step) && Proper(s, step)
    ensures Bare(After(s, step).nodes)
  {
    if step.Unlink? {
      UnlinkKeepsBare(s, step.d, step.name);
    } else {
      if step.LinkRevert? { assert RefAt(s, step.i); }
      forall x: nat ensures BareAt(After(s, step).nodes, x) { assert BareAt(s.nodes, x); }
    }
  }

  lemma {:induction false} RunKeepsBare(ss: seq<State>, steps: seq<Step>, n: nat)
    requires Run(ss, steps) && n <= |steps|
    ensures Inv(ss[n]) && Bare(ss[n].nodes)
  {
    RunKeepsInv(ss, steps, n);
    if n == 0 {
      forall d: nat ensures BareAt(ss[0].nodes, d) {}
    } else {
      RunKeepsBare(ss, steps, n - 1);
      StepKeepsBare(ss[n - 1], steps[n - 1]);
    }
  }

  // ----- What each step breaks

  /** A file that is created in a directory has a right count exactly if the directory is linked. */
  lemma FileIffLinked(s: State, d: nat, name: Name, kind: Kind)
    requires Inv(s) && d < |s.nodes| && s.nodes[d].kind.Directory? && CanCreate(s, d, name, kind) && !kind.Directory?
    ensures CountAt(AfterCreate(s, d, name, kind), FirstEmpty(s.nodes, 1)) <==> Linked(s.nodes, d)
  {
    var s', i := AfterCreate(s, d, name, kind), FirstEmpty(s.nodes, 1);
    assert FreeAt(s, i) && RefAt(s, i);
    if Linked(s.nodes, d) {
      CreateKeepsInv(s, d, name, kind);
    } else {
      SameDirsSameLinks(s.nodes, s'.nodes, i);
    }
  }

  /** A directory that is created in a removed one raises that one's count, so that it passes for linked again. The
    * counts may be right, but then no linked directory has an entry for it. */
  lemma DirIffLinked(s: State, d: nat, name: Name)
    requires Inv(s) && d < |s.nodes| && s.nodes[d].kind.Directory? && CanCreate(s, d, name, Directory)
    ensures var s' := AfterCreate(s, d, name, Directory);
            Linked(s'.nodes, d) && (CountAt(s', d) && DirAt(s'.nodes, d) <==> Linked(s.nodes, d))
  {
    var s', i := AfterCreate(s, d, name, Directory), FirstEmpty(s.nodes, 1);
    if Linked(s.nodes, d) {
      CreateKeepsInv(s, d, name, Directory);
    } else if CountAt(s', d) && DirAt(s'.nodes, d) {
      assert RefAt(s, d) && d != ROOT;
      var p := ParentOf(s'.nodes, d);
      var k :| k >= 2 && InumAt(s'.nodes, p, k) == d;
      InLinks(s'.nodes, p, k, d);
      InLinks(s'.nodes, i, 1, d);
      assert |Links(s'.nodes, d)| <= 1;
      OneAtMost(Links(s'.nodes, d), (p, k), (i, 1));
      assert false;
    }
  }

  lemma OneAtMost<T>(s: set<T>, x: T, y: T)
    requires |s| <= 1 && x in s && y in s
    ensures x == y
  {
    assert |s - {x}| == 0;
  }

  /** `create` keeps counts and tree right exactly in linked directories. */
  lemma CreateIffLinked(s: State, d: nat, name: Name, kind: Kind)
    requires Inv(s) && d < |s.nodes| && s.nodes[d].kind.Directory? && CanCreate(s, d, name, kind)
    ensures Inv(AfterCreate(s, d, name, kind)) <==> Linked(s.nodes, d)
  {
    if Linked(s.nodes, d) { CreateKeepsInv(s, d, name, kind); }
    else if kind.Directory? { DirIffLinked(s, d, name); }
    else { FileIffLinked(s, d, name, kind); }
  }

  /** The same for the new name that `link` enters. */
  lemma LinkIffLinked(s: State, d: nat, name: Name, i: nat)
    requires Inv(s) && Enabled(s, LinkFinish(d, name, i))
    ensures CountAt(AfterLinkFinish(s, d, name, i), i) <==> Linked(s.nodes, d)
    ensures Inv(AfterLinkFinish(s, d, name, i)) <==> Linked(s.nodes, d)
  {
    assert CountAt(s, i) && FreeAt(s, i) && RefAt(s, i);
    if Linked(s.nodes, d) {
      LinkFinishKeepsInv(s, d, name, i);
    } else {
      SameDirsSameLinks(s.nodes, AfterLinkFinish(s, d, name, i).nodes, i);
    }
  }

  /** A lookup is right exactly if what it finds is in use; in a linked directory it always is. */
  lemma FindIffInUse(s: State, d: nat, k: nat)
    requires Inv(s) && Enabled(s, Find(d, k))
    ensures Inv(After(s, Find(d, k))) <==> InUse(s.nodes, InumAt(s.nodes, d, k))
    ensures Linked(s.nodes, d) ==> InUse(s.nodes, InumAt(s.nodes, d, k))
  {
    var i := InumAt(s.nodes, d, k);
    if InUse(s.nodes, i) {
      UseKeepsInv(s, i);
    } else {
      assert !FreeAt(After(s, Find(d, k)), i);
    }
    if Linked(s.nodes, d) { NamedInUse(s, d, k); }
  }

  /** `lock` of what a lookup has found panics exactly if it is free, which cannot happen in a linked directory. */
  lemma LockAfterFind(s: State, d: nat, k: nat)
    requires Inv(s) && Enabled(s, Find(d, k)) && InumAt(s.nodes, d, k) < |s.nodes|
    ensures LockPanics(After(s, Find(d, k)), InumAt(s.nodes, d, k)) <==> s.nodes[InumAt(s.nodes, d, k)].kind.Empty?
    ensures LockPanics(After(s, Find(d, k)), InumAt(s.nodes, d, k)) ==> !Linked(s.nodes, d)
  {
    assert FreeAt(s, InumAt(s.nodes, d, k));
    FindIffInUse(s, d, k);
  }

  /** The only names in a removed directory are "." and "..", which cannot be unlinked. */
  lemma NoUnlinkInRemoved(s: State, d: nat, name: Name)
    requires Bare(s.nodes) && d < |s.nodes| && s.nodes[d].kind.Directory? && s.nodes[d].nlink == 0
    ensures !CanUnlink(s, d, name)
  {
    assert BareAt(s.nodes, d);
    var es, k := s.nodes[d].entries, FirstNamed(s.nodes[d].entries, name, 0);
    if k < |es| {
      assert k < 2;
      SameSpecial(es[k].name, name);
    }
  }

  /** Whatever a run of proper steps has led to, a step keeps counts, references and tree right if and only if it is
    * proper: it works in linked directories, or it is a lookup that finds an inode in use. */
  lemma KeepsInvIffProper(ss: seq<State>, steps: seq<Step>, n: nat, step: Step)
    requires Run(ss, steps) && n <= |steps| && Enabled(ss[n], step)
    ensures Inv(After(ss[n], step)) <==> Proper(ss[n], step)
  {
    var s := ss[n];
    RunKeepsBare(ss, steps, n);
    if Proper(s, step) {
      StepKeepsInv(s, step);
    } else {
      match step
      case Find(d, k) => FindIffInUse(s, d, k);
      case Create(d, name, kind) => CreateIffLinked(s, d, name, kind);
      case Unlink(d, name) => NoUnlinkInRemoved(s, d, name);
      case LinkFinish(d, name, i) => LinkIffLinked(s, d, name, i);
    }
  }

  /** In runs of proper steps `lock` never panics; and it panics after a lookup exactly in a removed directory whose
    * parent has been freed. */
  lemma LockPanicsIff(ss: seq<State>, steps: seq<Step>, n: nat)
    requires Run(ss, steps) && n <= |steps|
    ensures forall i :: i in ss[n].refs ==> i < |ss[n].nodes| && !LockPanics(ss[n], i)
    ensures forall d: nat, k: nat | Enabled(ss[n], Find(d, k)) ::
              && InumAt(ss[n].nodes, d, k) < |ss[n].nodes|
              && (LockPanics(After(ss[n], Find(d, k)), InumAt(ss[n].nodes, d, k)) <==>
                  !Linked(ss[n].nodes, d) && k == 1 && !InUse(ss[n].nodes, ParentOf(ss[n].nodes, d)))
  {
    var s := ss[n];
    RunKeepsBare(ss, steps, n);
    forall i | i in s.refs ensures i < |s.nodes| && !LockPanics(s, i) { assert FreeAt(s, i); }
    forall d: nat, k: nat | Enabled(s, Find(d, k))
      ensures && InumAt(s.nodes, d, k) < |s.nodes|
              && (LockPanics(After(s, Find(d, k)), InumAt(s.nodes, d, k)) <==>
                  !Linked(s.nodes, d) && k == 1 && !InUse(s.nodes, ParentOf(s.nodes, d)))
    {
      assert BareAt(s.nodes, d);
      FindIffInUse(s, d, k);
      LockAfterFind(s, d, k);
    }
  }

  // ----- It does happen

  /** A name of one character. */
  function OneChar(c: u8): Name {
    seq(MAX_DIR_SIZE, i => if i == 0 then c else 0)
  }

  const A := OneChar(97)
  const B := OneChar(98)

  function Dots(i: nat, parent: nat): seq<Entry> {
    [Entry(i, DotName()), Entry(parent, DotDotName())]
  }

  lemma OtherName(a: Name, b: Name)
    requires a[0] != b[0]
    ensures !SameName(a, b)
  {
  }

  /** With one entry behind "." and "..": searches for its name and for another. */
  lemma Searches(i: nat, parent: nat, e: Entry, name: Name)
    requires (name == A || name == B) && i > 0 && parent > 0
    ensures FirstNamed(Dots(i, parent), name, 0) == FirstFree(Dots(i, parent), 0) == 2
    ensures e.inum != 0 && e.name == name ==> FirstNamed(Dots(i, parent) + [e], name, 0) == 2
  {
    var es := Dots(i, parent);
    OtherName(DotName(), name);
    OtherName(DotDotName(), name);
    assert FirstNamed(es, name, 2) == 2 && FirstNamed(es, name, 1) == 2;
    assert FirstFree(es, 2) == 2;
    if e.inum != 0 && e.name == name {
      assert name[1] == 0 && name[..2] == name[..2] && SameName(name, name);
      assert (es + [e])[0] == es[0] && (es + [e])[1] == es[1] && (es + [e])[2] == e;
      assert FirstNamed(es + [e], name, 2) == 2 && FirstNamed(es + [e], name, 1) == 2;
    }
  }

  /** The root with `more` entries. In the states below inode 2 is the directory A in it, inode 3 the directory B in A,
    * and the number counts the steps. */
  function Root(count: nat, more: seq<Entry>): Node {
    Node(Directory, count, Dots(1, 1) + more)
  }

  const NONE := Node(Empty, 0, [])

  const S0 := State([NONE, Root(1, []), NONE, NONE], map[], multiset{})
  const S1 := State([NONE, Root(2, [Entry(2, A)]), Node(Directory, 1, Dots(2, 1)), NONE],
                    map[2 := Ref(1, true)], multiset{})
  const S2 := State([NONE, Root(2, [Entry(2, A)]), Node(Directory, 2, Dots(2, 1) + [Entry(3, B)]),
                     Node(Directory, 1, Dots(3, 2))],
                    map[2 := Ref(1, true), 3 := Ref(1, true)], multiset{})
  const S3 := State([NONE, Root(2, [Entry(2, A)]), Node(Directory, 1, Dots(2, 1) + [FreeEntry()]),
                     Node(Directory, 0, Dots(3, 2))],
                    map[2 := Ref(1, true), 3 := Ref(2, true)], multiset{})
  const S4 := State([NONE, Root(1, [FreeEntry()]), Node(Directory, 0, Dots(2, 1) + [FreeEntry()]),
                     Node(Directory, 0, Dots(3, 2))],
                    map[2 := Ref(2, true), 3 := Ref(2, true)], multiset{})
  const S5 := S4.(refs := map[2 := Ref(1, true), 3 := Ref(2, true)])
  const S6 := State([NONE, Root(1, [FreeEntry()]), NONE, Node(Directory, 0, Dots(3, 2))],
                    map[3 := Ref(2, true)], multiset{})

  predicate Leads(s: State, step: Step, t: State) {
    Enabled(s, step) && Proper(s, step) && After(s, step) == t
  }

  lemma MakeA()
    ensures Leads(S0, Create(ROOT, A, Directory), S1)
  {
    Searches(1, 1, FreeEntry(), A);
    assert Dots(1, 1) + [] == Dots(1, 1);
    assert FirstEmpty(S0.nodes, 2) == 2;
  }

  lemma MakeB()
    ensures Leads(S1, Create(2, B, Directory), S2)
  {
    Searches(2, 1, FreeEntry(), B);
    assert FirstEmpty(S1.nodes, 3) == 3 && FirstEmpty(S1.nodes, 2) == 3;
  }

  lemma RemoveB()
    ensures Leads(S2, Unlink(2, B), S3)
  {
    Searches(2, 1, Entry(3, B), B);
    assert S2.nodes[2].entries[2] == Entry(3, B);
    assert PutEntry(Dots(2, 1) + [Entry(3, B)], 2, FreeEntry()) == Dots(2, 1) + [FreeEntry()];
  }

  lemma RemoveA()
    ensures Leads(S3, Unlink(ROOT, A), S4)
  {
    Searches(1, 1, Entry(2, A), A);
    assert S3.nodes[1].entries[2] == Entry(2, A);
    assert PutEntry(Dots(1, 1) + [Entry(2, A)], 2, FreeEntry()) == Dots(1, 1) + [FreeEntry()];
  }

  lemma LetGoOfA()
    ensures Leads(S4, Put(2), S5) && Leads(S5, Put(2), S6)
  {
  }

  function Stage(n: nat): State {
    match n case 0 => S0 case 1 => S1 case 2 => S2 case 3 => S3 case 4 => S4 case 5 => S5 case _ => S6
  }

  function Act(n: nat): Step {
    match n
    case 0 => Create(ROOT, A, Directory)
    case 1 => Create(2, B, Directory)
    case 2 => Unlink(2, B)
    case 3 => Unlink(ROOT, A)
    case _ => Put(2)
  }

  lemma StageLeads(n: nat)
    requires n < 6
    ensures Leads(Stage(n), Act(n), Stage(n + 1))
  {
    match n
    case 0 => MakeA();
    case 1 => MakeB();
    case 2 => RemoveB();
    case 3 => RemoveA();
    case _ => LetGoOfA();
  }

  lemma StartOk()
    ensures Init(S0)
  {
    assert Dots(1, 1) + [] == Dots(1, 1);
  }

  lemma LeadsToRun(ss: seq<State>, steps: seq<Step>)
    requires |ss| == |steps| + 1 && Init(ss[0])
    requires forall n :: 0 <= n < |steps| ==> Leads(ss[n], steps[n], ss[n + 1])
    ensures Run(ss, steps)
  {
    forall i | 0 <= i < |steps|
      ensures Enabled(ss[i], steps[i]) && Proper(ss[i], steps[i]) && ss[i + 1] == After(ss[i], steps[i])
    {
      assert Leads(ss[i], steps[i], ss[i + 1]);
    }
  }

  /** The run: make A and B in it, remove both, and put A, which is freed, while B is still held. */
  lemma RunToFreedParent() returns (ss: seq<State>, steps: seq<Step>)
    ensures Run(ss, steps) && |steps| == 6 && ss[6] == S6
  {
    StartOk();
    ss, steps := [S0, S1, S2, S3, S4, S5, S6], seq(6, n requires 0 <= n => Act(n));
    forall n | 0 <= n < |steps| ensures Leads(ss[n], steps[n], ss[n + 1]) {
      StageLeads(n);
      assert ss[n] == Stage(n) && ss[n + 1] == Stage(n + 1);
    }
    LeadsToRun(ss, steps);
  }

  /** Whoever still holds B, say as the current directory, and looks up ".." there makes `lock` panic. */
  lemma FreedParentFound() returns (ss: seq<State>, steps: seq<Step>)
    ensures Run(ss, steps) && 3 in ss[|steps|].refs && Enabled(ss[|steps|], Find(3, 1))
    ensures InumAt(ss[|steps|].nodes, 3, 1) == 2 && 2 < |ss[|steps|].nodes|
    ensures LockPanics(After(ss[|steps|], Find(3, 1)), 2)
  {
    ss, steps := RunToFreedParent();
  }

  /** A directory that is removed while a process holds it, and files and directories can be created in it. */
  lemma RemovedButHeld(kind: Kind) returns (ss: seq<State>, steps: seq<Step>, d: nat)
    requires !kind.Empty?
    ensures Run(ss, steps) && d < |ss[|steps|].nodes| && ss[|steps|].nodes[d].kind.Directory?
    ensures d in ss[|steps|].refs && !Linked(ss[|steps|].nodes, d) && Enabled(ss[|steps|], Create(d, B, kind))
  {
    d := 3;
    ss, steps := RunToFreedParent();
    Searches(3, 2, FreeEntry(), B);
    assert FirstEmpty(S6.nodes, 2) == 2 && FirstEmpty(S6.nodes, 1) == 2;
  }
}
