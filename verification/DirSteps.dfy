/** The operations on directories, as steps of any number of processes, and what every run of them keeps. */
module DirSteps {
  import opened Common
  import opened DirSpec

  // ----- References

  function Acquire(refs: map<nat, Ref>, i: nat): map<nat, Ref> {
    refs[i := if i in refs then refs[i].(count := refs[i].count + 1) else Ref(1, false)]
  }

  function Load(refs: map<nat, Ref>, i: nat): map<nat, Ref> {
    if i in refs then refs[i := refs[i].(loaded := true)] else refs
  }

  /** `lock` reads an inode in that is not loaded, and panics if it is free. */
  predicate LockPanics(s: State, i: nat)
    requires i in s.refs && i < |s.nodes|
  {
    !s.refs[i].loaded && s.nodes[i].kind.Empty?
  }

  /** `put`: the last reference to an inode without links frees it. */
  predicate PutFrees(s: State, i: nat)
    requires i in s.refs && i < |s.nodes|
  {
    s.refs[i].count == 1 && s.refs[i].loaded && s.nodes[i].nlink == 0
  }

  function AfterPut(s: State, i: nat): State
    requires i in s.refs && s.refs[i].count > 0 && i < |s.nodes|
  {
    State(if PutFrees(s, i) then s.nodes[i := Node(Empty, 0, [])] else s.nodes,
          if s.refs[i].count == 1 then s.refs - {i} else s.refs[i := s.refs[i].(count := s.refs[i].count - 1)],
          s.pending)
  }

  // ----- Unlinking

  /** `dir_unlink` removes the entry that it finds, unless it names "." or ".." or a directory with children. */
  predicate CanUnlink(s: State, d: nat, name: Name)
    requires d < |s.nodes|
  {
    var es := s.nodes[d].entries;
    var k := FirstNamed(es, name, 0);
    && !Special(name) && k < |es| && es[k].inum < |s.nodes|
    && (s.nodes[es[k].inum].kind.Directory? ==> NoChildren(s.nodes[es[k].inum].entries))
  }

  function Target(s: State, d: nat, name: Name): nat
    requires d < |s.nodes| && CanUnlink(s, d, name)
  {
    s.nodes[d].entries[FirstNamed(s.nodes[d].entries, name, 0)].inum
  }

  function Less(n: nat): nat {
    if n == 0 then 0 else n - 1
  }

  /** Entry `k` of `d`, which names `c`, is gone; a directory takes its ".." with it. */
  function Removal(nodes: Nodes, d: nat, k: nat, c: nat): Nodes
    requires d < |nodes| && k <= |nodes[d].entries| && c < |nodes|
  {
    var nodes1 := SetEntry(nodes, d, k, FreeEntry());
    var nodes2 := if nodes1[c].kind.Directory? then SetCount(nodes1, d, Less(nodes1[d].nlink)) else nodes1;
    SetCount(nodes2, c, Less(nodes2[c].nlink))
  }

  function AfterUnlink(s: State, d: nat, name: Name): State
    requires d < |s.nodes| && CanUnlink(s, d, name)
  {
    var c := Target(s, d, name);
    State(Removal(s.nodes, d, FirstNamed(s.nodes[d].entries, name, 0), c), Load(Acquire(s.refs, c), c), s.pending)
  }

  // ----- Creating

  /** `inode_alloc`: the first free inode from `i` on. */
  function FirstEmpty(nodes: Nodes, i: nat): (r: nat)
    requires i <= |nodes|
    ensures i <= r <= |nodes| && (r < |nodes| ==> nodes[r].kind.Empty?)
    ensures forall j :: i <= j < r ==> !nodes[j].kind.Empty?
    decreases |nodes| - i
  {
    if i == |nodes| || nodes[i].kind.Empty? then i else FirstEmpty(nodes, i + 1)
  }

  predicate CanCreate(s: State, d: nat, name: Name, kind: Kind)
    requires d < |s.nodes|
  {
    && !kind.Empty? && FirstNamed(s.nodes[d].entries, name, 0) == |s.nodes[d].entries|
    && FirstEmpty(s.nodes, 1) < |s.nodes| && FirstEmpty(s.nodes, 1) != d
  }

  function NewNode(i: nat, d: nat, kind: Kind): Node {
    Node(kind, 1, if kind.Directory? then [Entry(i, DotName()), Entry(d, DotDotName())] else [])
  }

  function AfterCreate(s: State, d: nat, name: Name, kind: Kind): State
    requires d < |s.nodes| && CanCreate(s, d, name, kind)
  {
    var i := FirstEmpty(s.nodes, 1);
    var nodes := s.nodes[i := NewNode(i, d, kind)];
    var nodes' := if kind.Directory? then SetCount(nodes, d, nodes[d].nlink + 1) else nodes;
    State(SetEntry(nodes', d, FirstFree(nodes'[d].entries, 0), Entry(i, name)), Load(Acquire(s.refs, i), i), s.pending)
  }

  // ----- The steps of `link`

  function AfterLinkBegin(s: State, i: nat): State
    requires i < |s.nodes|
  {
    State(SetCount(s.nodes, i, s.nodes[i].nlink + 1), Load(s.refs, i), s.pending + multiset{i})
  }

  function AfterLinkFinish(s: State, d: nat, name: Name, i: nat): State
    requires d < |s.nodes|
  {
    State(SetEntry(s.nodes, d, FirstFree(s.nodes[d].entries, 0), Entry(i, name)), s.refs, s.pending - multiset{i})
  }

  function AfterLinkRevert(s: State, i: nat): State
    requires i < |s.nodes|
  {
    State(SetCount(s.nodes, i, Less(s.nodes[i].nlink)), Load(s.refs, i), s.pending - multiset{i})
  }

  // ----- Facts about one state

  lemma Get0(s: State, d: nat)
    requires Inv(s) && Linked(s.nodes, d)
    ensures d > 0 && |s.nodes[d].entries| >= 2 && InumAt(s.nodes, d, 0) == d && InumAt(s.nodes, d, 1) > 0
    ensures Linked(s.nodes, ParentOf(s.nodes, d))
  {
    assert DirAt(s.nodes, d);
  }

  /** What an entry names is in use. */
  lemma NamedInUse(s: State, d: nat, k: nat)
    requires Inv(s) && Linked(s.nodes, d) && k < |s.nodes[d].entries| && InumAt(s.nodes, d, k) != 0
    ensures InumAt(s.nodes, d, k) < |s.nodes| && !s.nodes[InumAt(s.nodes, d, k)].kind.Empty?
  {
    var i := InumAt(s.nodes, d, k);
    Get0(s, d);
    assert FreeAt(s, i);
    if !(d == i && k == 0) { InLinks(s.nodes, d, k, i); }
  }

  /** A new entry goes behind "." and "..". */
  lemma FreeBehind(s: State, d: nat)
    requires Inv(s) && Linked(s.nodes, d)
    ensures FirstFree(s.nodes[d].entries, 0) >= 2
    ensures InumAt(s.nodes, d, FirstFree(s.nodes[d].entries, 0)) == 0
  {
    Get0(s, d);
  }

  /** A name that is not found is neither "." nor "..". */
  lemma NewIsOrdinary(s: State, d: nat, name: Name)
    requires Inv(s) && Linked(s.nodes, d) && FirstNamed(s.nodes[d].entries, name, 0) == |s.nodes[d].entries|
    ensures !Special(name)
  {
    Get0(s, d);
    assert DirAt(s.nodes, d);
    var es := s.nodes[d].entries;
    if IsDot(name) { SpecialsSame(es[0].name, name); }
    if IsDotDot(name) { SpecialsSame(es[1].name, name); }
  }

  /** An ordinary name is found behind "." and "..". */
  lemma FoundBehind(s: State, d: nat, name: Name)
    requires Inv(s) && Linked(s.nodes, d) && !Special(name)
    requires FirstNamed(s.nodes[d].entries, name, 0) < |s.nodes[d].entries|
    ensures 2 <= FirstNamed(s.nodes[d].entries, name, 0) < |s.nodes[d].entries|
  {
    Get0(s, d);
    assert DirAt(s.nodes, d);
    var es, k := s.nodes[d].entries, FirstNamed(s.nodes[d].entries, name, 0);
    SameSpecial(es[k].name, name);
  }

  /** An empty directory is linked by its entry in the parent only. */
  lemma OnlyLink(s: State, d: nat, k: nat)
    requires Inv(s) && Linked(s.nodes, d) && 2 <= k < |s.nodes[d].entries|
    requires var c := InumAt(s.nodes, d, k);
             0 < c < |s.nodes| && s.nodes[c].kind.Directory? && NoChildren(s.nodes[c].entries)
    ensures Links(s.nodes, InumAt(s.nodes, d, k)) == {(d, k)}
  {
    var nodes, c := s.nodes, InumAt(s.nodes, d, k);
    assert EntryAt(nodes, d, k);
    InLinks(nodes, d, k, c);
    forall p | p in Links(nodes, c) ensures p == (d, k) {
      var (x, l) := p;
      InLinks(nodes, x, l, c);
      assert DirAt(nodes, x) && EntryAt(nodes, x, l);
      assert OnceAt(nodes, d, k, l) && OnceAt(nodes, d, l, k);
    }
  }

  /** A directory with a child keeps a link when the child goes. */
  lemma TwoLinks(s: State, d: nat, c: nat)
    requires Inv(s) && Linked(s.nodes, d) && Linked(s.nodes, c) && ParentOf(s.nodes, c) == d && c != ROOT
    ensures s.nodes[d].nlink >= 2
  {
    var nodes := s.nodes;
    Get0(s, c);
    assert DirAt(nodes, d) && CountAt(s, d);
    InLinks(nodes, c, 1, d);
    var other: (nat, nat) := (ROOT, 1);
    if d != ROOT {
      var k :| k >= 2 && InumAt(nodes, ParentOf(nodes, d), k) == d;
      other := (ParentOf(nodes, d), k);
    }
    InLinks(nodes, other.0, other.1, d);
    SubsetSize({(c, 1), other}, Links(nodes, d));
  }

  // ----- Each step keeps the invariant

  /** Changes of references alone. */
  lemma RefsKeepInv(s: State, i: nat, refs: map<nat, Ref>)
    requires Inv(s) && i < |s.nodes| && !s.nodes[i].kind.Empty?
    requires refs.Keys == s.refs.Keys + {i} && forall j :: j in s.refs && j != i ==> refs[j] == s.refs[j]
    requires refs[i].count > 0 && s.pending[i] <= refs[i].count && (i in s.refs && s.refs[i].loaded ==> refs[i].loaded)
    requires s.pending[i] > 0 ==> i in s.refs
    ensures Inv(State(s.nodes, refs, s.pending))
  {
    var s' := State(s.nodes, refs, s.pending);
    forall j: nat ensures CountAt(s', j) { assert CountAt(s, j); }
    forall j: nat ensures FreeAt(s', j) { assert FreeAt(s, j); }
    forall j: nat ensures RefAt(s', j) { assert RefAt(s, j) && RefAt(s, i); }
  }

  /** `get`, `dup` and `lock` of an inode in use. */
  lemma UseKeepsInv(s: State, i: nat)
    requires Inv(s) && i < |s.nodes| && !s.nodes[i].kind.Empty?
    ensures Inv(State(s.nodes, Acquire(s.refs, i), s.pending))
    ensures i in s.refs ==> Inv(State(s.nodes, Load(s.refs, i), s.pending))
    ensures Inv(State(s.nodes, Load(Acquire(s.refs, i), i), s.pending))
  {
    assert RefAt(s, i);
    RefsKeepInv(s, i, Acquire(s.refs, i));
    RefsKeepInv(s, i, Load(Acquire(s.refs, i), i));
    if i in s.refs { RefsKeepInv(s, i, Load(s.refs, i)); }
  }

  /** Dropping a reference that no call of `link` relies on. If that frees the inode, nothing names it any more. */
  lemma PutKeepsInv(s: State, i: nat)
    requires Inv(s) && i in s.refs && s.refs[i].count > s.pending[i]
    ensures i < |s.nodes| && s.refs[i].count > 0 && Inv(AfterPut(s, i))
    ensures PutFrees(s, i) <==> s.refs[i].count == 1 && Links(s.nodes, i) == {} && s.pending[i] == 0
    ensures !s.nodes[i].kind.Empty? && (AfterPut(s, i).nodes[i].kind.Empty? <==> PutFrees(s, i))
  {
    assert FreeAt(s, i) && CountAt(s, i) && RefAt(s, i);
    var s' := AfterPut(s, i);
    if PutFrees(s, i) { FreeKeepsTree(s.nodes, i); }
    forall j: nat ensures CountAt(s', j) {
      assert CountAt(s, j);
      SameDirsSameLinks(s.nodes, s'.nodes, j);
    }
    forall j: nat ensures FreeAt(s', j) {
      assert FreeAt(s, j);
      SameDirsSameLinks(s.nodes, s'.nodes, j);
    }
    forall j: nat ensures RefAt(s', j) { assert RefAt(s, j); }
  }

  lemma FreeKeepsTree(nodes: Nodes, i: nat)
    requires TreeOk(nodes) && i < |nodes| && nodes[i].nlink == 0
    ensures TreeOk(nodes[i := Node(Empty, 0, [])]) && SameDirs(nodes, nodes[i := Node(Empty, 0, [])])
  {
    SameDirsSameTree(nodes, nodes[i := Node(Empty, 0, [])]);
  }

  /** Directories stay as they are, and nothing becomes a directory. */
  lemma SameDirsSameTree(nodes: Nodes, nodes': Nodes)
    requires TreeOk(nodes) && SameDirs(nodes, nodes')
    requires forall i :: 0 <= i < |nodes| && nodes'[i].kind.Directory? ==> nodes[i].kind.Directory?
    ensures TreeOk(nodes')
  {
    assert Linked(nodes', ROOT) == Linked(nodes, ROOT);
    forall d: nat ensures DirAt(nodes', d) {
      assert DirAt(nodes, d) && Linked(nodes', d) == Linked(nodes, d);
      if Linked(nodes, d) {
        var p := nodes[d].entries[1].inum;
        assert Linked(nodes', p) == Linked(nodes, p);
        if d != ROOT {
          var k :| k >= 2 && InumAt(nodes, p, k) == d;
          assert InumAt(nodes', p, k) == d;
        }
      }
    }
    forall d: nat, k: nat ensures EntryAt(nodes', d, k) {
      assert EntryAt(nodes, d, k) && Linked(nodes', d) == Linked(nodes, d);
      assert Linked(nodes', InumAt(nodes, d, k)) == Linked(nodes, InumAt(nodes, d, k));
    }
    forall d: nat, k: nat, l: nat ensures OnceAt(nodes', d, k, l) {
      assert OnceAt(nodes, d, k, l) && Linked(nodes', d) == Linked(nodes, d);
    }
  }

  // ----- `link`

  lemma CountChanged(nodes: Nodes, i: nat, n: nat)
    requires TreeOk(nodes) && i < |nodes| && (!nodes[i].kind.Directory? || (nodes[i].nlink > 0 && n > 0))
    ensures TreeOk(SetCount(nodes, i, n)) && SameDirs(nodes, SetCount(nodes, i, n))
  {
    SameDirsSameTree(nodes, SetCount(nodes, i, n));
  }

  lemma LinkBeginKeepsInv(s: State, i: nat)
    requires Inv(s) && i in s.refs && s.refs[i].count > s.pending[i] && i < |s.nodes| && !s.nodes[i].kind.Directory?
    ensures Inv(AfterLinkBegin(s, i))
  {
    var s' := AfterLinkBegin(s, i);
    assert FreeAt(s, i);
    CountChanged(s.nodes, i, s.nodes[i].nlink + 1);
    forall j: nat ensures CountAt(s', j) && FreeAt(s', j) && RefAt(s', j) {
      assert CountAt(s, j) && FreeAt(s, j) && RefAt(s, j);
      SameDirsSameLinks(s.nodes, s'.nodes, j);
    }
  }

  lemma LinkRevertKeepsInv(s: State, i: nat)
    requires Inv(s) && s.pending[i] > 0
    ensures i < |s.nodes| && s.nodes[i].nlink > 0 && Inv(AfterLinkRevert(s, i))
  {
    assert FreeAt(s, i) && RefAt(s, i) && CountAt(s, i);
    var s' := AfterLinkRevert(s, i);
    CountChanged(s.nodes, i, Less(s.nodes[i].nlink));
    forall j: nat ensures CountAt(s', j) && FreeAt(s', j) && RefAt(s', j) {
      assert CountAt(s, j) && FreeAt(s, j) && RefAt(s, j);
      SameDirsSameLinks(s.nodes, s'.nodes, j);
    }
  }

  /** A new entry for an inode that is not a directory. */
  lemma EntryKeepsTree(nodes: Nodes, d: nat, k: nat, e: Entry)
    requires TreeOk(nodes) && Linked(nodes, d) && 2 <= k <= |nodes[d].entries| && InumAt(nodes, d, k) == 0
    requires 0 < e.inum < |nodes| && e.inum != ROOT && !nodes[e.inum].kind.Directory? && !Special(e.name)
    ensures TreeOk(SetEntry(nodes, d, k, e))
  {
    var nodes' := SetEntry(nodes, d, k, e);
    forall x: nat ensures DirAt(nodes', x) {
      assert DirAt(nodes, x);
      if Linked(nodes, x) && x != ROOT { ChildKept(nodes, d, k, e, nodes[x].entries[1].inum, x); }
    }
    forall x: nat, l: nat ensures EntryAt(nodes', x, l) {
      assert EntryAt(nodes, x, l);
      var c := InumAt(nodes', x, l);
      assert DirAt(nodes, c);
    }
    forall x: nat, l: nat, m: nat ensures OnceAt(nodes', x, l, m) { assert OnceAt(nodes, x, l, m); }
  }

  lemma ChildKept(nodes: Nodes, d: nat, k: nat, e: Entry, p: nat, c: nat)
    requires d < |nodes| && k <= |nodes[d].entries| && HasChild(nodes, p, c) && (InumAt(nodes, d, k) == c ==> p != d)
             && c != 0
    ensures HasChild(SetEntry(nodes, d, k, e), p, c)
  {
    var l :| l >= 2 && InumAt(nodes, p, l) == c;
    assert InumAt(SetEntry(nodes, d, k, e), p, l) == c;
  }

  lemma LinkFinishKeepsInv(s: State, d: nat, name: Name, i: nat)
    requires Inv(s) && Linked(s.nodes, d) && s.pending[i] > 0
    requires FirstNamed(s.nodes[d].entries, name, 0) == |s.nodes[d].entries|
    ensures Inv(AfterLinkFinish(s, d, name, i))
  {
    var s', k := AfterLinkFinish(s, d, name, i), FirstFree(s.nodes[d].entries, 0);
    assert FreeAt(s, i) && RefAt(s, i);
    FreeBehind(s, d);
    NewIsOrdinary(s, d, name);
    EntryKeepsTree(s.nodes, d, k, Entry(i, name));
    forall j: nat ensures CountAt(s', j) && FreeAt(s', j) && RefAt(s', j) {
      assert CountAt(s, j) && FreeAt(s, j) && RefAt(s, j);
      if j > 0 { LinkAdded(s.nodes, d, k, Entry(i, name), j); }
    }
  }

  // ----- `dir_unlink`

  lemma UnlinkFileKeepsTree(nodes: Nodes, d: nat, k: nat)
    requires TreeOk(nodes) && Linked(nodes, d) && 2 <= k < |nodes[d].entries|
    requires var c := InumAt(nodes, d, k); 0 < c < |nodes| && !nodes[c].kind.Directory?
    ensures TreeOk(SetEntry(nodes, d, k, FreeEntry()))
  {
    var nodes', c := SetEntry(nodes, d, k, FreeEntry()), InumAt(nodes, d, k);
    forall x: nat ensures DirAt(nodes', x) {
      assert DirAt(nodes, x);
      if Linked(nodes, x) && x != ROOT { ChildKept(nodes, d, k, FreeEntry(), nodes[x].entries[1].inum, x); }
    }
    forall x: nat, l: nat ensures EntryAt(nodes', x, l) {
      assert EntryAt(nodes, x, l);
      assert DirAt(nodes, InumAt(nodes', x, l));
    }
    forall x: nat, l: nat, m: nat ensures OnceAt(nodes', x, l, m) { assert OnceAt(nodes, x, l, m); }
  }

  /** The links that are left when entry `k` of `d`, naming the file `c`, is gone. */
  lemma FileUnlinked(nodes: Nodes, d: nat, k: nat, c: nat, n: nat, j: nat)
    requires d < |nodes| && 2 <= k < |nodes[d].entries| && Linked(nodes, d) && InumAt(nodes, d, k) == c < |nodes|
    requires !nodes[c].kind.Directory? && j > 0
    ensures Links(SetCount(SetEntry(nodes, d, k, FreeEntry()), c, n), j) ==
            Links(nodes, j) - if j == c then {(d, k)} else {}
  {
    LinkRemoved(nodes, d, k, j);
    SameDirsSameLinks(SetEntry(nodes, d, k, FreeEntry()), SetCount(SetEntry(nodes, d, k, FreeEntry()), c, n), j);
  }

  lemma UnlinkFileKeepsInv(s: State, d: nat, name: Name)
    requires Inv(s) && Linked(s.nodes, d) && CanUnlink(s, d, name) && !s.nodes[Target(s, d, name)].kind.Directory?
    ensures Inv(AfterUnlink(s, d, name))
  {
    var s', c, k := AfterUnlink(s, d, name), Target(s, d, name), FirstNamed(s.nodes[d].entries, name, 0);
    var nodes := SetEntry(s.nodes, d, k, FreeEntry());
    FoundBehind(s, d, name);
    NamedInUse(s, d, k);
    UnlinkFileKeepsTree(s.nodes, d, k);
    CountChanged(nodes, c, Less(nodes[c].nlink));
    InLinks(s.nodes, d, k, c);
    assert RefAt(s, c);
    forall j: nat ensures CountAt(s', j) && FreeAt(s', j) && RefAt(s', j) {
      assert CountAt(s, j) && FreeAt(s, j) && RefAt(s, j);
      if j > 0 { FileUnlinked(s.nodes, d, k, c, Less(nodes[c].nlink), j); }
    }
  }

  /** The directories after the removal of directory `c`, entry `k` of `d`. */
  function WithoutDir(nodes: Nodes, d: nat, k: nat, c: nat): Nodes
    requires d < |nodes| && c < |nodes| && k <= |nodes[d].entries| && c != d
  {
    SetCount(SetEntry(SetCount(nodes, c, 0), d, k, FreeEntry()), d, Less(nodes[d].nlink))
  }

  lemma WithoutDirLinks(nodes: Nodes, d: nat, k: nat, c: nat, i: nat)
    requires Linked(nodes, d) && nodes[d].nlink >= 2 && Linked(nodes, c) && DirAt(nodes, c)
             && NoChildren(nodes[c].entries)
    requires 2 <= k < |nodes[d].entries| && InumAt(nodes, d, k) == c != d && ParentOf(nodes, c) == d && i > 0 && d > 0
    ensures Links(WithoutDir(nodes, d, k, c), i) ==
            Links(nodes, i) - (if i == d then {(c, 1)} else if i == c then {(d, k)} else {})
    ensures (c, 1) in Links(nodes, d)
  {
    var n1 := SetCount(nodes, c, 0);
    var n2 := SetEntry(n1, d, k, FreeEntry());
    DirUnlinked(nodes, c, i);
    DirUnlinked(nodes, c, d);
    LinkRemoved(n1, d, k, i);
    SameDirsSameLinks(n2, WithoutDir(nodes, d, k, c), i);
    assert InumAt(n1, d, k) == c;
  }

  lemma WithoutDirKeepsTree(s: State, d: nat, k: nat, c: nat)
    requires Inv(s) && Linked(s.nodes, d) && s.nodes[d].nlink >= 2 && 2 <= k < |s.nodes[d].entries|
    requires InumAt(s.nodes, d, k) == c != d && c != 0 && Linked(s.nodes, c) && NoChildren(s.nodes[c].entries)
             && c != ROOT
    requires Links(s.nodes, c) == {(d, k)}
    ensures TreeOk(WithoutDir(s.nodes, d, k, c))
  {
    var nodes, nodes' := s.nodes, WithoutDir(s.nodes, d, k, c);
    forall x: nat ensures Linked(nodes', x) == (Linked(nodes, x) && x != c) {}
    forall x: nat ensures DirAt(nodes', x) {
      assert DirAt(nodes, x);
      if Linked(nodes', x) { InLinks(nodes, x, 1, c); }
      if Linked(nodes', x) && x != ROOT {
        var p := ParentOf(nodes, x);
        var l :| l >= 2 && InumAt(nodes, p, l) == x;
        assert InumAt(nodes', p, l) == x;
      }
    }
    forall x: nat, l: nat ensures EntryAt(nodes', x, l) {
      assert EntryAt(nodes, x, l);
      InLinks(nodes, x, l, c);
    }
    forall x: nat, l: nat, m: nat ensures OnceAt(nodes', x, l, m) { assert OnceAt(nodes, x, l, m); }
  }

  lemma UnlinkDirKeepsInv(s: State, d: nat, name: Name)
    requires Inv(s) && Linked(s.nodes, d) && CanUnlink(s, d, name) && s.nodes[Target(s, d, name)].kind.Directory?
    ensures Inv(AfterUnlink(s, d, name))
  {
    var s', c, k := AfterUnlink(s, d, name), Target(s, d, name), FirstNamed(s.nodes[d].entries, name, 0);
    FoundBehind(s, d, name);
    NamedInUse(s, d, k);
    OnlyLink(s, d, k);
    Get0(s, d);
    assert EntryAt(s.nodes, d, k) && DirAt(s.nodes, c) && RefAt(s, c) && CountAt(s, c);
    TwoLinks(s, d, c);
    WithoutDirKeepsTree(s, d, k, c);
    assert s'.nodes == WithoutDir(s.nodes, d, k, c);
    forall j: nat ensures CountAt(s', j) && FreeAt(s', j) && RefAt(s', j) {
      assert CountAt(s, j) && FreeAt(s, j) && RefAt(s, j);
      if j > 0 { WithoutDirLinks(s.nodes, d, k, c, j); }
    }
  }

  lemma UnlinkKeepsInv(s: State, d: nat, name: Name)
    requires Inv(s) && Linked(s.nodes, d) && CanUnlink(s, d, name)
    ensures Inv(AfterUnlink(s, d, name))
    ensures s.nodes[Target(s, d, name)].nlink > 0
  {
    var k := FirstNamed(s.nodes[d].entries, name, 0);
    FoundBehind(s, d, name);
    NamedInUse(s, d, k);
    InLinks(s.nodes, d, k, Target(s, d, name));
    assert CountAt(s, Target(s, d, name));
    if s.nodes[Target(s, d, name)].kind.Directory? {
      UnlinkDirKeepsInv(s, d, name);
    } else {
      UnlinkFileKeepsInv(s, d, name);
    }
  }

  // ----- `create`

  lemma CreateFileKeepsInv(s: State, d: nat, name: Name, kind: Kind)
    requires Inv(s) && Linked(s.nodes, d) && CanCreate(s, d, name, kind) && !kind.Directory?
    ensures Inv(AfterCreate(s, d, name, kind))
  {
    var s', i, k := AfterCreate(s, d, name, kind), FirstEmpty(s.nodes, 1), FirstFree(s.nodes[d].entries, 0);
    var nodes := s.nodes[i := NewNode(i, d, kind)];
    FreeBehind(s, d);
    NewIsOrdinary(s, d, name);
    assert FreeAt(s, i) && RefAt(s, i) && i != ROOT;
    SameDirsSameTree(s.nodes, nodes);
    EntryKeepsTree(nodes, d, k, Entry(i, name));
    forall j: nat ensures CountAt(s', j) && FreeAt(s', j) && RefAt(s', j) {
      assert CountAt(s, j) && FreeAt(s, j) && RefAt(s, j);
      if j > 0 {
        SameDirsSameLinks(s.nodes, nodes, j);
        LinkAdded(nodes, d, k, Entry(i, name), j);
      }
    }
  }

  /** The directories with the new directory `i`, entry `k` of `d`. */
  function WithDir(nodes: Nodes, d: nat, k: nat, i: nat, name: Name): Nodes
    requires d < |nodes| && i < |nodes| && i != d && k <= |nodes[d].entries|
  {
    SetEntry(SetCount(nodes[i := NewNode(i, d, Directory)], d, nodes[d].nlink + 1), d, k, Entry(i, name))
  }

  lemma WithDirLinks(nodes: Nodes, d: nat, k: nat, i: nat, name: Name, j: nat)
    requires Linked(nodes, d) && 2 <= k <= |nodes[d].entries| && InumAt(nodes, d, k) == 0
    requires 0 < i < |nodes| && nodes[i].kind.Empty? && j > 0 && d > 0
    ensures Links(WithDir(nodes, d, k, i, name), j) ==
            Links(nodes, j) + (if j == d then {(i, 1)} else if j == i then {(d, k)} else {})
    ensures (i, 1) !in Links(nodes, d) && (d, k) !in Links(nodes, j)
  {
    var n1 := nodes[i := NewNode(i, d, Directory)];
    var n2 := SetCount(n1, d, nodes[d].nlink + 1);
    DirAdded(nodes, i, NewNode(i, d, Directory), j);
    DirAdded(nodes, i, NewNode(i, d, Directory), d);
    SameDirsSameLinks(n1, n2, j);
    LinkAdded(n2, d, k, Entry(i, name), j);
  }

  lemma WithDirKeepsTree(nodes: Nodes, d: nat, k: nat, i: nat, name: Name)
    requires TreeOk(nodes) && Linked(nodes, d) && 2 <= k <= |nodes[d].entries| && InumAt(nodes, d, k) == 0
    requires 0 < i < |nodes| && nodes[i].kind.Empty? && i != ROOT && !Special(name) && Links(nodes, i) == {}
    ensures TreeOk(WithDir(nodes, d, k, i, name))
  {
    var nodes' := WithDir(nodes, d, k, i, name);
    forall x: nat ensures Linked(nodes', x) == (Linked(nodes, x) || x == i) {}
    assert InumAt(nodes', d, k) == i;
    forall x: nat ensures DirAt(nodes', x) {
      assert DirAt(nodes, x);
      if Linked(nodes, x) && x != ROOT {
        var p := ParentOf(nodes, x);
        var l :| l >= 2 && InumAt(nodes, p, l) == x;
        assert InumAt(nodes', p, l) == x;
      }
    }
    forall x: nat, l: nat ensures EntryAt(nodes', x, l) {
      assert EntryAt(nodes, x, l);
      InLinks(nodes, x, l, i);
      assert DirAt(nodes, InumAt(nodes', x, l));
    }
    forall x: nat, l: nat, m: nat ensures OnceAt(nodes', x, l, m) {
      assert OnceAt(nodes, x, l, m);
      InLinks(nodes, x, l, i);
      InLinks(nodes, x, m, i);
    }
  }

  lemma CreateDirKeepsInv(s: State, d: nat, name: Name)
    requires Inv(s) && Linked(s.nodes, d) && CanCreate(s, d, name, Directory)
    ensures Inv(AfterCreate(s, d, name, Directory))
  {
    var s', i, k := AfterCreate(s, d, name, Directory), FirstEmpty(s.nodes, 1), FirstFree(s.nodes[d].entries, 0);
    Get0(s, d);
    FreeBehind(s, d);
    NewIsOrdinary(s, d, name);
    assert FreeAt(s, i) && RefAt(s, i) && i != ROOT;
    WithDirKeepsTree(s.nodes, d, k, i, name);
    assert s'.nodes == WithDir(s.nodes, d, k, i, name);
    forall j: nat ensures CountAt(s', j) && FreeAt(s', j) && RefAt(s', j) {
      assert CountAt(s, j) && FreeAt(s, j) && RefAt(s, j);
      if j > 0 { WithDirLinks(s.nodes, d, k, i, name, j); }
    }
  }

  lemma CreateKeepsInv(s: State, d: nat, name: Name, kind: Kind)
    requires Inv(s) && Linked(s.nodes, d) && CanCreate(s, d, name, kind)
    ensures Inv(AfterCreate(s, d, name, kind))
  {
    if kind.Directory? { CreateDirKeepsInv(s, d, name); } else { CreateFileKeepsInv(s, d, name, kind); }
  }

  // ----- Runs

  /** What a process does while it holds the lock of a directory or of an inode. A process finds an inode by an entry or
    * at the root, and holds a reference to it from then on. */
  datatype Step =
    | Find(d: nat, k: nat)
    | FindRoot
    | Dup(i: nat)
    | Lock(i: nat)
    | Put(i: nat)
    | Create(d: nat, name: Name, kind: Kind)
    | Unlink(d: nat, name: Name)
    | LinkBegin(i: nat)
    | LinkFinish(d: nat, name: Name, i: nat)
    | LinkRevert(i: nat)

  /** The directories that a step works in. */
  function DirsOf(step: Step): set<nat> {
    match step
    case Find(d, _) => {d}
    case Create(d, _, _) => {d}
    case Unlink(d, _) => {d}
    case LinkFinish(d, _, _) => {d}
    case _ => {}
  }

  /** References that no call of `link` relies on. */
  predicate Spare(s: State, i: nat) {
    i in s.refs && i < |s.nodes| && s.refs[i].count > s.pending[i]
  }

  predicate Enabled(s: State, step: Step) {
    && (forall d :: d in DirsOf(step) ==> d < |s.nodes| && s.nodes[d].kind.Directory?)
    && match step
       case Find(d, k) => InumAt(s.nodes, d, k) != 0
       case FindRoot => true
       case Dup(i) => i in s.refs
       case Lock(i) => i in s.refs
       case Put(i) => Spare(s, i)
       case Create(d, name, kind) => CanCreate(s, d, name, kind)
       case Unlink(d, name) => CanUnlink(s, d, name)
       case LinkBegin(i) => Spare(s, i) && !s.nodes[i].kind.Directory?
       case LinkFinish(d, name, i) =>
         s.pending[i] > 0 && FirstNamed(s.nodes[d].entries, name, 0) == |s.nodes[d].entries|
       case LinkRevert(i) => s.pending[i] > 0 && i < |s.nodes|
  }

  function After(s: State, step: Step): State
    requires Enabled(s, step)
  {
    match step
    case Find(d, k) => State(s.nodes, Acquire(s.refs, InumAt(s.nodes, d, k)), s.pending)
    case FindRoot => State(s.nodes, Acquire(s.refs, ROOT), s.pending)
    case Dup(i) => State(s.nodes, Acquire(s.refs, i), s.pending)
    case Lock(i) => State(s.nodes, Load(s.refs, i), s.pending)
    case Put(i) => AfterPut(s, i)
    case Create(d, name, kind) => AfterCreate(s, d, name, kind)
    case Unlink(d, name) => AfterUnlink(s, d, name)
    case LinkBegin(i) => AfterLinkBegin(s, i)
    case LinkFinish(d, name, i) => AfterLinkFinish(s, d, name, i)
    case LinkRevert(i) => AfterLinkRevert(s, i)
  }

  predicate InUse(nodes: Nodes, i: nat) {
    i < |nodes| && !nodes[i].kind.Empty?
  }

  /** A step that works in linked directories only, or finds an inode that is in use. */
  predicate Proper(s: State, step: Step) {
    forall d :: d in DirsOf(step) ==> Linked(s.nodes, d) || (step.Find? && InUse(s.nodes, InumAt(s.nodes, d, step.k)))
  }

  lemma StepKeepsInv(s: State, step: Step)
    requires Inv(s) && Enabled(s, step) && Proper(s, step)
    ensures Inv(After(s, step))
  {
    match step
    case Find(d, k) =>
      if Linked(s.nodes, d) { NamedInUse(s, d, k); }
      UseKeepsInv(s, InumAt(s.nodes, d, k));
    case FindRoot => UseKeepsInv(s, ROOT);
    case Dup(i) => assert FreeAt(s, i); UseKeepsInv(s, i);
    case Lock(i) => assert FreeAt(s, i); UseKeepsInv(s, i);
    case Put(i) => PutKeepsInv(s, i);
    case Create(d, name, kind) => CreateKeepsInv(s, d, name, kind);
    case Unlink(d, name) => UnlinkKeepsInv(s, d, name);
    case LinkBegin(i) => LinkBeginKeepsInv(s, i);
    case LinkFinish(d, name, i) => LinkFinishKeepsInv(s, d, name, i);
    case LinkRevert(i) => LinkRevertKeepsInv(s, i);
  }

  /** The file system that `mkfs` makes: the root with "." and ".." and other free entries. */
  predicate Init(s: State) {
    && ROOT < |s.nodes| <= MAX_INUM + 1 && s.refs == map[] && s.pending == multiset{}
    && (forall i :: 0 <= i < |s.nodes| && i != ROOT ==> s.nodes[i].kind.Empty?)
    && s.nodes[ROOT].kind.Directory? && s.nodes[ROOT].nlink == 1
    && var es := s.nodes[ROOT].entries;
       |es| >= 2 && es[0] == Entry(ROOT, DotName()) && es[1] == Entry(ROOT, DotDotName()) && NoChildren(es)
  }

  lemma InitLinks(s: State, i: nat)
    requires Init(s) && i > 0
    ensures Links(s.nodes, i) == if i == ROOT then {(ROOT, 1)} else {}
  {
    forall d: nat, k: nat ensures Names(s.nodes, d, k, i) <==> i == ROOT && d == ROOT && k == 1 {}
    assert forall p :: p in Links(s.nodes, i) <==> i == ROOT && p == (ROOT, 1);
  }

  lemma InitHasInv(s: State)
    requires Init(s)
    ensures Inv(s)
  {
    forall i: nat ensures i > 0 ==> Links(s.nodes, i) == if i == ROOT then {(ROOT, 1)} else {} {
      if i > 0 { InitLinks(s, i); }
    }
    forall i: nat ensures CountAt(s, i) && FreeAt(s, i) && RefAt(s, i) {}
  }

  ghost predicate Run(ss: seq<State>, steps: seq<Step>) {
    && |ss| == |steps| + 1 && Init(ss[0])
    && forall i :: 0 <= i < |steps| ==>
         Enabled(ss[i], steps[i]) && Proper(ss[i], steps[i]) && ss[i + 1] == After(ss[i], steps[i])
  }

  lemma {:induction false} RunKeepsInv(ss: seq<State>, steps: seq<Step>, n: nat)
    requires Run(ss, steps) && n <= |steps|
    ensures Inv(ss[n])
  {
    if n == 0 {
      InitHasInv(ss[0]);
    } else {
      RunKeepsInv(ss, steps, n - 1);
      StepKeepsInv(ss[n - 1], steps[n - 1]);
    }
  }

  /** In every run, the link count of an inode in use is the number of entries that name it in linked directories, a
    * directory's own "." aside, plus the calls of `link` that have yet to enter their name; and nothing names a free
    * inode. */
  lemma CountsMatch(ss: seq<State>, steps: seq<Step>, n: nat, i: nat)
    requires Run(ss, steps) && n <= |steps| && 0 < i < |ss[n].nodes|
    ensures var s := ss[n];
            if s.nodes[i].kind.Empty? then Links(s.nodes, i) == {} && i !in s.refs && s.pending[i] == 0
            else s.nodes[i].nlink == |Links(s.nodes, i)| + s.pending[i]
  {
    RunKeepsInv(ss, steps, n);
    assert CountAt(ss[n], i) && FreeAt(ss[n], i) && RefAt(ss[n], i);
  }

  /** `put` frees an inode exactly when the last reference goes and no entry names it; and only `put` frees inodes. */
  lemma OnlyPutFrees(ss: seq<State>, steps: seq<Step>, n: nat, i: nat)
    requires Run(ss, steps) && n < |steps| && i < |ss[n].nodes| && !ss[n].nodes[i].kind.Empty?
    ensures i < |ss[n + 1].nodes|
    ensures ss[n + 1].nodes[i].kind.Empty? <==>
              && steps[n] == Put(i) && ss[n].refs[i].count == 1
              && Links(ss[n].nodes, i) == {} && ss[n].pending[i] == 0
  {
    var s, step := ss[n], steps[n];
    RunKeepsInv(ss, steps, n);
    match step
    case Put(j) => PutKeepsInv(s, j);
    case Unlink(d, name) => UnlinkKeepsInv(s, d, name);
    case _ =>
  }

  /** No inode without links is lost: somebody still holds it, and the last to let go frees it. */
  lemma NothingLost(ss: seq<State>, steps: seq<Step>, n: nat, i: nat)
    requires Run(ss, steps) && n <= |steps| && i < |ss[n].nodes| && !ss[n].nodes[i].kind.Empty?
    requires Links(ss[n].nodes, i) == {} && i > 0
    ensures i in ss[n].refs
    ensures ss[n].refs[i].count == 1 && ss[n].pending[i] == 0 ==> PutFrees(ss[n], i)
  {
    RunKeepsInv(ss, steps, n);
    assert CountAt(ss[n], i) && RefAt(ss[n], i) && FreeAt(ss[n], i);
    if ss[n].pending[i] == 0 { assert ss[n].nodes[i].nlink == 0; }
  }
}
