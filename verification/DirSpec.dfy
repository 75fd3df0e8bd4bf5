/** Directories and link counts of `kernel/src/fs/inode.rs`: entries as sequences, inodes with their link counts, the
  * references held through the inode cache, and the calls of `link` that are under way. */
module DirSpec {
  import opened Words

  const ROOT := 1
  const MAX_DIR_SIZE := 14
  const MAX_INUM := 0xFFFF
  const DOT := 46

  type Name = n: seq<u8> | |n| == MAX_DIR_SIZE witness seq(MAX_DIR_SIZE, _ => 0)

  /** A directory entry; 0 marks a free one. */
  datatype Entry = Entry(inum: nat, name: Name)

  datatype Kind = Empty | Directory | File | Device

  datatype Node = Node(kind: Kind, nlink: nat, entries: seq<Entry>)
  type Nodes = seq<Node>

  /** References to a cached inode; `loaded` says that its contents have been read in. */
  datatype Ref = Ref(count: nat, loaded: bool)

  /** `pending` holds the inodes whose count `link` has raised before entering the new name. */
  datatype State = State(nodes: Nodes, refs: map<nat, Ref>, pending: multiset<nat>)

  // ----- Names

  /** Names are compared up to and including the first 0. */
  predicate SameName(a: Name, b: Name) {
    exists j: nat :: j < MAX_DIR_SIZE && a[j] == 0 && a[..j + 1] == b[..j + 1]
  }

  predicate IsDot(n: Name) {
    n[0] == DOT && n[1] == 0
  }

  predicate IsDotDot(n: Name) {
    n[0] == DOT && n[1] == DOT && n[2] == 0
  }

  predicate Special(n: Name) {
    IsDot(n) || IsDotDot(n)
  }

  function DotName(): Name {
    seq(MAX_DIR_SIZE, i => if i == 0 then DOT else 0)
  }

  function DotDotName(): Name {
    seq(MAX_DIR_SIZE, i => if i < 2 then DOT else 0)
  }

  lemma SameSpecial(a: Name, b: Name)
    requires SameName(a, b)
    ensures Special(a) ==> Special(b)
  {
    var j: nat :| j < MAX_DIR_SIZE && a[j] == 0 && a[..j + 1] == b[..j + 1];
    assert forall l :: 0 <= l <= j ==> a[..j + 1][l] == a[l] && b[..j + 1][l] == b[l];
  }

  lemma SpecialsSame(a: Name, b: Name)
    requires (IsDot(a) && IsDot(b)) || (IsDotDot(a) && IsDotDot(b))
    ensures SameName(a, b)
  {
    var j := if IsDot(a) then 1 else 2;
    assert a[j] == 0 && a[..j + 1] == b[..j + 1];
  }

  // ----- Searches

  /** The first entry from `k` on that is in use and has this name. */
  function FirstNamed(es: seq<Entry>, name: Name, k: nat): (r: nat)
    requires k <= |es|
    ensures k <= r <= |es|
    ensures r < |es| ==> es[r].inum != 0 && SameName(es[r].name, name)
    ensures forall l :: k <= l < r ==> es[l].inum == 0 || !SameName(es[l].name, name)
    decreases |es| - k
  {
    if k == |es| || (es[k].inum != 0 && SameName(es[k].name, name)) then k else FirstNamed(es, name, k + 1)
  }

  /** The place for a new entry: the first free one from `k` on, or the end. */
  function FirstFree(es: seq<Entry>, k: nat): (r: nat)
    requires k <= |es|
    ensures k <= r <= |es| && (r < |es| ==> es[r].inum == 0) && forall l :: k <= l < r ==> es[l].inum != 0
    decreases |es| - k
  {
    if k == |es| || es[k].inum == 0 then k else FirstFree(es, k + 1)
  }

  /** No entries but the first two. */
  predicate NoChildren(es: seq<Entry>) {
    forall k :: 2 <= k < |es| ==> es[k].inum == 0
  }

  // ----- Counting

  predicate Linked(nodes: Nodes, d: nat) {
    d < |nodes| && nodes[d].kind.Directory? && nodes[d].nlink > 0
  }

  function InumAt(nodes: Nodes, d: nat, k: nat): nat {
    if d < |nodes| && k < |nodes[d].entries| then nodes[d].entries[k].inum else 0
  }

  /** Entry `k` of the linked directory `d` names inode `i`; a directory's own "." does not count. */
  predicate Names(nodes: Nodes, d: nat, k: nat, i: nat) {
    Linked(nodes, d) && k < |nodes[d].entries| && InumAt(nodes, d, k) == i && !(d == i && k == 0)
  }

  /** All entries in linked directories that name inode `i`. */
  ghost function Links(nodes: Nodes, i: nat): set<(nat, nat)> {
    set d: nat, k: nat | d < |nodes| && k < |nodes[d].entries| && Names(nodes, d, k, i) :: (d, k)
  }

  /** The count of inode `i` is right. */
  ghost predicate CountAt(s: State, i: nat) {
    i < |s.nodes| && !s.nodes[i].kind.Empty? ==> s.nodes[i].nlink == |Links(s.nodes, i)| + s.pending[i]
  }

  /** Nothing refers to a free inode. */
  ghost predicate FreeAt(s: State, i: nat) {
    (i < |s.nodes| && s.nodes[i].kind.Empty?) || i >= |s.nodes| ==> i !in s.refs && (i > 0 ==> Links(s.nodes, i) == {})
  }

  /** Every call of `link` under way holds a reference, and an inode in use without links is held by somebody. */
  ghost predicate RefAt(s: State, i: nat) {
    && (i in s.refs ==> s.refs[i].count > 0 && s.pending[i] <= s.refs[i].count)
    && (s.pending[i] > 0 ==> i in s.refs && i < |s.nodes| && !s.nodes[i].kind.Directory?)
    && (i < |s.nodes| && !s.nodes[i].kind.Empty? && s.nodes[i].nlink == 0 ==> i in s.refs && s.refs[i].loaded)
  }

  // ----- The tree

  function ParentOf(nodes: Nodes, d: nat): nat {
    InumAt(nodes, d, 1)
  }

  ghost predicate HasChild(nodes: Nodes, p: nat, c: nat) {
    exists k :: k >= 2 && InumAt(nodes, p, k) == c
  }

  /** A linked directory has "." and ".." and, unless it is the root, an entry in its parent. */
  ghost predicate DirAt(nodes: Nodes, d: nat) {
    Linked(nodes, d) ==>
      var es := nodes[d].entries;
      && |es| >= 2 && es[0].inum == d && IsDot(es[0].name) && IsDotDot(es[1].name) && Linked(nodes, es[1].inum)
      && if d == ROOT then es[1].inum == ROOT else HasChild(nodes, es[1].inum, d)
  }

  /** Other entries name inodes below the root; a directory among them has this one as its parent. */
  ghost predicate EntryAt(nodes: Nodes, d: nat, k: nat) {
    Linked(nodes, d) && 2 <= k < |nodes[d].entries| && InumAt(nodes, d, k) != 0 ==>
      var c := InumAt(nodes, d, k);
      && c != ROOT && c < |nodes| && !Special(nodes[d].entries[k].name)
      && (nodes[c].kind.Directory? ==> Linked(nodes, c) && ParentOf(nodes, c) == d)
  }

  /** No directory is entered twice. */
  ghost predicate OnceAt(nodes: Nodes, d: nat, k: nat, l: nat) {
    Linked(nodes, d) && 2 <= k < l < |nodes[d].entries| && InumAt(nodes, d, k) == InumAt(nodes, d, l) != 0 ==>
      InumAt(nodes, d, k) < |nodes| && !nodes[InumAt(nodes, d, k)].kind.Directory?
  }

  ghost predicate TreeOk(nodes: Nodes) {
    && Linked(nodes, ROOT) && !nodes[0].kind.Directory?
    && (forall d: nat {:trigger DirAt(nodes, d)} :: DirAt(nodes, d))
    && (forall d: nat, k: nat {:trigger EntryAt(nodes, d, k)} :: EntryAt(nodes, d, k))
    && forall d: nat, k: nat, l: nat {:trigger OnceAt(nodes, d, k, l)} :: OnceAt(nodes, d, k, l)
  }

  ghost predicate CountsOk(s: State) {
    forall i: nat {:trigger CountAt(s, i)} :: CountAt(s, i)
  }

  ghost predicate FreesOk(s: State) {
    forall i: nat {:trigger FreeAt(s, i)} :: FreeAt(s, i)
  }

  ghost predicate RefsOk(s: State) {
    forall i: nat {:trigger RefAt(s, i)} :: RefAt(s, i)
  }

  ghost predicate Inv(s: State) {
    0 < |s.nodes| <= MAX_INUM + 1 && s.nodes[0].kind.Empty? && TreeOk(s.nodes) && CountsOk(s) && FreesOk(s) && RefsOk(s)
  }

  // ----- Changes of the directories

  function PutEntry(es: seq<Entry>, k: nat, e: Entry): seq<Entry>
    requires k <= |es|
  {
    if k < |es| then es[k := e] else es + [e]
  }

  function SetEntry(nodes: Nodes, d: nat, k: nat, e: Entry): (r: Nodes)
    requires d < |nodes| && k <= |nodes[d].entries|
    ensures |r| == |nodes|
  {
    nodes[d := nodes[d].(entries := PutEntry(nodes[d].entries, k, e))]
  }

  function SetCount(nodes: Nodes, i: nat, n: nat): (r: Nodes)
    requires i < |nodes|
    ensures |r| == |nodes|
  {
    nodes[i := nodes[i].(nlink := n)]
  }

  function FreeEntry(): Entry {
    Entry(0, seq(MAX_DIR_SIZE, _ => 0))
  }

  lemma InLinks(nodes: Nodes, d: nat, k: nat, i: nat)
    ensures (d, k) in Links(nodes, i) <==> Names(nodes, d, k, i)
  {
  }

  /** The same directories are linked, with the same entries. */
  ghost predicate SameDirs(nodes: Nodes, nodes': Nodes) {
    |nodes'| == |nodes| && forall d: nat {:trigger Linked(nodes', d)} ::
      (Linked(nodes', d) <==> Linked(nodes, d)) && (Linked(nodes, d) ==> nodes'[d].entries == nodes[d].entries)
  }

  lemma SameDirsSameLinks(nodes: Nodes, nodes': Nodes, i: nat)
    requires SameDirs(nodes, nodes')
    ensures Links(nodes', i) == Links(nodes, i)
  {
    forall d: nat, k: nat ensures Names(nodes', d, k, i) == Names(nodes, d, k, i) {
      assert Linked(nodes', d) == Linked(nodes, d);
    }
    assert forall p :: p in Links(nodes', i) <==> p in Links(nodes, i);
  }

  /** A new entry in a linked directory is one more link to the inode that it names. */
  lemma LinkAdded(nodes: Nodes, d: nat, k: nat, e: Entry, i: nat)
    requires Linked(nodes, d) && 2 <= k <= |nodes[d].entries| && InumAt(nodes, d, k) == 0 && e.inum != 0 && i > 0
    ensures Links(SetEntry(nodes, d, k, e), i) == Links(nodes, i) + (if i == e.inum then {(d, k)} else {})
    ensures (d, k) !in Links(nodes, i)
  {
    var nodes' := SetEntry(nodes, d, k, e);
    forall x: nat, l: nat
      ensures Names(nodes', x, l, i) <==> Names(nodes, x, l, i) || (x == d && l == k && i == e.inum)
    {
      assert Linked(nodes', x) == Linked(nodes, x);
    }
    assert forall p :: p in Links(nodes', i) <==> p in Links(nodes, i) || (p == (d, k) && i == e.inum);
  }

  lemma LinkRemoved(nodes: Nodes, d: nat, k: nat, i: nat)
    requires Linked(nodes, d) && 2 <= k < |nodes[d].entries| && i > 0
    ensures Links(SetEntry(nodes, d, k, FreeEntry()), i) == Links(nodes, i) - {(d, k)}
    ensures (d, k) in Links(nodes, i) <==> InumAt(nodes, d, k) == i
  {
    var nodes' := SetEntry(nodes, d, k, FreeEntry());
    forall x: nat, l: nat
      ensures Names(nodes', x, l, i) <==> Names(nodes, x, l, i) && !(x == d && l == k)
    {
      assert Linked(nodes', x) == Linked(nodes, x);
    }
    assert forall p :: p in Links(nodes', i) <==> p in Links(nodes, i) && p != (d, k);
  }

  /** A directory without children ceases to be linked: its ".." no longer counts. */
  lemma DirUnlinked(nodes: Nodes, c: nat, i: nat)
    requires DirAt(nodes, c) && Linked(nodes, c) && NoChildren(nodes[c].entries) && i > 0
    ensures Links(SetCount(nodes, c, 0), i) == Links(nodes, i) - {(c, 1)}
    ensures (c, 1) in Links(nodes, i) <==> i == ParentOf(nodes, c)
  {
    var nodes' := SetCount(nodes, c, 0);
    forall x: nat, l: nat
      ensures Names(nodes', x, l, i) <==> Names(nodes, x, l, i) && !(x == c && l == 1)
    {
      assert Linked(nodes', x) == (Linked(nodes, x) && x != c);
    }
    assert forall p :: p in Links(nodes', i) <==> p in Links(nodes, i) && p != (c, 1);
  }

  /** A new directory: its ".." counts. */
  lemma DirAdded(nodes: Nodes, c: nat, node: Node, i: nat)
    requires c < |nodes| && !Linked(nodes, c) && i > 0
    requires node.kind.Directory? && node.nlink > 0 && |node.entries| == 2 && node.entries[0].inum == c
    ensures Links(nodes[c := node], i) == Links(nodes, i) + (if i == node.entries[1].inum then {(c, 1)} else {})
    ensures (c, 1) !in Links(nodes, i)
  {
    var nodes' := nodes[c := node];
    forall x: nat, l: nat
      ensures Names(nodes', x, l, i) <==> Names(nodes, x, l, i) || (x == c && l == 1 && i == node.entries[1].inum)
    {
      assert Linked(nodes', x) == (Linked(nodes, x) || x == c);
    }
    assert forall p :: p in Links(nodes', i) <==> p in Links(nodes, i) || (p == (c, 1) && i == node.entries[1].inum);
  }
}
