/** The directory operations of `kernel/src/fs/inode.rs`, the inode cache, and `link` of
  * `kernel/src/process/proc/syscall.rs`, as methods; each takes one of the steps of DirSteps, or several. */
module Dir {
  import opened Common
  import opened Words
  import opened DirSpec
  import opened DirSteps

  const NINODE := 50
  /** Entries of 16 bytes in the longest file. */
  const MAX_ENTRIES := 17152

  /** A place in the cache; it is free when nobody refers to it. */
  datatype Slot = Slot(inum: nat, refs: nat, loaded: bool)

  ghost predicate SlotOk(s: Slot, refs: map<nat, Ref>) {
    if s.refs > 0 then s.inum in refs && refs[s.inum] == Ref(s.refs, s.loaded) else !s.loaded
  }

  ghost predicate HasSlot(slots: seq<Slot>, i: nat) {
    exists x :: 0 <= x < |slots| && slots[x].refs > 0 && slots[x].inum == i
  }

  /** What the places say is what `refs` says, and no inode has two places. */
  ghost predicate CacheOk(slots: seq<Slot>, refs: map<nat, Ref>) {
    && |slots| == NINODE
    && (forall x, y :: 0 <= x < y < NINODE && slots[x].refs > 0 && slots[y].refs > 0 ==> slots[x].inum != slots[y].inum)
    && (forall x :: 0 <= x < NINODE ==> SlotOk(slots[x], refs))
    && forall i: nat {:trigger HasSlot(slots, i)} :: HasSlot(slots, i) <==> i in refs
  }

  /** The references after a change of one place. */
  function Changed(refs: map<nat, Ref>, s: Slot, t: Slot): map<nat, Ref> {
    if t.refs > 0 then refs[t.inum := Ref(t.refs, t.loaded)] else refs - {s.inum}
  }

  lemma ChangeSlot(slots: seq<Slot>, refs: map<nat, Ref>, x: nat, t: Slot)
    requires CacheOk(slots, refs) && x < NINODE && (t.refs == 0 ==> !t.loaded && slots[x].refs > 0)
    requires if slots[x].refs > 0 then t.inum == slots[x].inum else t.inum !in refs
    ensures CacheOk(slots[x := t], Changed(refs, slots[x], t))
  {
    var slots', refs' := slots[x := t], Changed(refs, slots[x], t);
    forall i: nat ensures HasSlot(slots', i) <==> i in refs' {
      assert HasSlot(slots, i) <==> i in refs;
      if i == t.inum { assert t.refs > 0 ==> slots'[x].inum == i; }
      if i in refs && i != t.inum {
        var y :| 0 <= y < |slots| && slots[y].refs > 0 && slots[y].inum == i;
        assert slots'[y].inum == i;
      }
    }
    assert slots[x].refs > 0 ==> HasSlot(slots, slots[x].inum);
  }

  ghost predicate Full(slots: seq<Slot>) {
    forall x :: 0 <= x < |slots| ==> slots[x].refs > 0
  }

  lemma AcquirePut(s: State, i: nat)
    requires i < |s.nodes| && (i in s.refs ==> s.refs[i].count > 0)
    ensures AfterPut(State(s.nodes, Acquire(s.refs, i), s.pending), i) == s
  {
  }

  lemma CountPositive(slots: seq<Slot>, refs: map<nat, Ref>, i: nat)
    requires CacheOk(slots, refs)
    ensures i in refs ==> refs[i].count > 0
  {
    assert HasSlot(slots, i) <==> i in refs;
  }

  /** Getting, reading in and dropping an inode that has links. */
  lemma AcquireLoadPut(s: State, i: nat)
    requires i < |s.nodes| && (i in s.refs ==> s.refs[i].count > 0) && s.nodes[i].nlink > 0
    ensures AfterPut(State(s.nodes, Load(Acquire(s.refs, i), i), s.pending), i) ==
            State(s.nodes, Load(s.refs, i), s.pending)
  {
  }

  /** The inode that a name stands for, 0 if there is none. */
  function NamedBy(nodes: Nodes, d: nat, name: Name): nat
    requires d < |nodes|
  {
    InumAt(nodes, d, FirstNamed(nodes[d].entries, name, 0))
  }

  predicate InRange(nodes: Nodes, d: nat)
    requires d < |nodes|
  {
    forall k :: 0 <= k < |nodes[d].entries| ==> nodes[d].entries[k].inum < |nodes|
  }

  lemma LinkedInRange(s: State, d: nat)
    requires Inv(s) && Linked(s.nodes, d)
    ensures InRange(s.nodes, d)
  {
    forall k: nat | k < |s.nodes[d].entries| ensures s.nodes[d].entries[k].inum < |s.nodes| {
      if InumAt(s.nodes, d, k) != 0 { NamedInUse(s, d, k); }
    }
  }

  datatype LookupResult = NotFound | Found(x: nat, k: nat) | NoSlot

  datatype LinkResult = Entered | Exists | Panic

  datatype UnlinkResult = Removed | Kept | Panicked

  datatype CreateResult = Made(x: nat) | Reused(x: nat) | Refused | NoRoom

  class Tree {
    var nodes: Nodes
    var slots: seq<Slot>
    ghost var refs: map<nat, Ref>
    ghost var pending: multiset<nat>

    ghost function Now(): State
      reads this
    {
      State(nodes, refs, pending)
    }

    ghost predicate Valid()
      reads this
    {
      CacheOk(slots, refs) && Inv(Now())
    }

    /** The file system of `mkfs`, before anybody uses it. */
    constructor (size: nat, spare: nat)
      requires ROOT < size <= MAX_INUM + 1
      ensures Valid() && Init(Now()) && |nodes| == size
    {
      var es := [Entry(ROOT, DotName()), Entry(ROOT, DotDotName())] + seq(spare, _ => FreeEntry());
      nodes := seq(size, i => if i == ROOT then Node(Directory, 1, es) else Node(Empty, 0, []));
      slots := seq(NINODE, _ => Slot(0, 0, false));
      refs, pending := map[], multiset{};
      new;
      InitHasInv(Now());
    }

    // ----- The inode cache

    /** `get`: one more reference to inode `i`, in its place or in a free one; none if the cache is full. */
    method Get(i: nat) returns (r: Option<nat>)
      requires CacheOk(slots, refs)
      modifies `slots, `refs
      ensures CacheOk(slots, refs)
      ensures r.None? ==> Full(slots) && i !in refs && slots == old(slots) && refs == old(refs)
      ensures r.Some? ==> r.value < NINODE && slots[r.value].inum == i && slots[r.value].refs > 0
      ensures r.Some? ==> refs == Acquire(old(refs), i)
    {
      var x: nat, empty: Option<nat> := 0, None;
      while x < NINODE
        invariant x <= NINODE && slots == old(slots) && refs == old(refs)
        invariant forall y :: 0 <= y < x ==> !(slots[y].inum == i && slots[y].refs > 0)
        invariant empty.Some? ==> empty.value < NINODE && slots[empty.value].refs == 0
        invariant empty.None? ==> forall y :: 0 <= y < x ==> slots[y].refs > 0
      {
        if slots[x].inum == i && slots[x].refs > 0 {
          ChangeSlot(slots, refs, x, slots[x].(refs := slots[x].refs + 1));
          slots := slots[x := slots[x].(refs := slots[x].refs + 1)];
          refs := Acquire(refs, i);
          return Some(x);
        }
        if empty.None? && slots[x].refs == 0 { empty := Some(x); }
        x := x + 1;
      }
      assert !HasSlot(slots, i);
      if empty.None? { return None; }
      ChangeSlot(slots, refs, empty.value, Slot(i, 1, false));
      slots := slots[empty.value := Slot(i, 1, false)];
      refs := Acquire(refs, i);
      r := empty;
    }

    method Dup(x: nat)
      requires CacheOk(slots, refs) && x < NINODE && slots[x].refs > 0
      modifies `slots, `refs
      ensures CacheOk(slots, refs) && refs == Acquire(old(refs), old(slots)[x].inum)
      ensures slots == old(slots)[x := old(slots)[x].(refs := old(slots)[x].refs + 1)]
    {
      ChangeSlot(slots, refs, x, slots[x].(refs := slots[x].refs + 1));
      refs := Acquire(refs, slots[x].inum);
      slots := slots[x := slots[x].(refs := slots[x].refs + 1)];
    }

    /** `lock`: reads the inode in if it has not been; panics if it is a free one. */
    method Lock(x: nat) returns (panicked: bool)
      requires CacheOk(slots, refs) && x < NINODE && slots[x].refs > 0 && slots[x].inum < |nodes|
      modifies `slots, `refs
      ensures CacheOk(slots, refs) && refs == Load(old(refs), old(slots)[x].inum)
      ensures slots == old(slots)[x := old(slots)[x].(loaded := true)]
      ensures old(slots)[x].inum in old(refs) && panicked == LockPanics(old(Now()), old(slots)[x].inum)
    {
      ChangeSlot(slots, refs, x, slots[x].(loaded := true));
      panicked := !slots[x].loaded && nodes[slots[x].inum].kind.Empty?;
      refs := Load(refs, slots[x].inum);
      slots := slots[x := slots[x].(loaded := true)];
    }

    /** `put`: one reference less; the last reference to an inode without links frees it. */
    method Put(x: nat)
      requires CacheOk(slots, refs) && x < NINODE && slots[x].refs > 0 && slots[x].inum < |nodes|
      modifies `nodes, `slots, `refs
      ensures CacheOk(slots, refs) && pending == old(pending)
      ensures Now() == AfterPut(old(Now()), old(slots)[x].inum)
    {
      var i := slots[x].inum;
      ghost var s := Now();
      ghost var t :=
        if slots[x].refs == 1 then slots[x].(loaded := false, refs := 0) else slots[x].(refs := slots[x].refs - 1);
      ChangeSlot(slots, refs, x, t);
      if slots[x].refs == 1 {
        if !slots[x].loaded || nodes[i].nlink > 0 {
          slots := slots[x := slots[x].(loaded := false, refs := 0)];
        } else {
          nodes := nodes[i := nodes[i].(kind := Empty)];
          nodes := nodes[i := nodes[i].(entries := [])];
          slots := slots[x := slots[x].(loaded := false, refs := 0)];
        }
      } else {
        slots := slots[x := slots[x].(refs := slots[x].refs - 1)];
      }
      refs := AfterPut(s, i).refs;
    }

    // ----- Directories

    /** Compares a name with that of an entry. */
    method Matches(a: Name, b: Name) returns (same: bool)
      ensures same == SameName(a, b)
    {
      var j := 0;
      while j < MAX_DIR_SIZE
        invariant j <= MAX_DIR_SIZE && a[..j] == b[..j] && forall l :: 0 <= l < j ==> a[l] != 0
      {
        if a[j] != b[j] {
          DifferentAt(a, b, j);
          return false;
        }
        assert a[..j + 1] == b[..j + 1];
        if a[j] == 0 { return true; }
        j := j + 1;
      }
      same := false;
    }

    /** The loop of `dir_lookup`. */
    method Search(d: nat, name: Name) returns (k: nat)
      requires d < |nodes|
      ensures k == FirstNamed(nodes[d].entries, name, 0)
    {
      k := 0;
      while k < |nodes[d].entries|
        invariant k <= |nodes[d].entries|
                  && FirstNamed(nodes[d].entries, name, 0) == FirstNamed(nodes[d].entries, name, k)
      {
        if nodes[d].entries[k].inum != 0 {
          var same := Matches(nodes[d].entries[k].name, name);
          if same { return; }
        }
        k := k + 1;
      }
    }

    /** `dir_lookup`: finds the first entry with this name and gets a reference to what it names. */
    method DirLookup(d: nat, name: Name) returns (r: LookupResult)
      requires CacheOk(slots, refs) && d < |nodes| && nodes[d].kind.Directory?
      modifies `slots, `refs
      ensures CacheOk(slots, refs)
      ensures r.NotFound? <==> FirstNamed(nodes[d].entries, name, 0) == |nodes[d].entries|
      ensures !r.Found? ==> refs == old(refs) && slots == old(slots)
      ensures r.NoSlot? ==> Full(slots)
      ensures r.Found? ==> r.k == FirstNamed(nodes[d].entries, name, 0) < |nodes[d].entries|
      ensures r.Found? ==> r.x < NINODE && slots[r.x].refs > 0 && slots[r.x].inum == nodes[d].entries[r.k].inum
      ensures r.Found? ==> refs == Acquire(old(refs), nodes[d].entries[r.k].inum)
    {
      var k := Search(d, name);
      if k == |nodes[d].entries| { return NotFound; }
      var x := Get(nodes[d].entries[k].inum);
      if x.None? { return NoSlot; }
      r := Found(x.value, k);
    }

    /** `dir_link`: enters a name that is not there yet in the first free entry or at the end. */
    method DirLink(d: nat, name: Name, i: nat) returns (r: LinkResult)
      requires CacheOk(slots, refs) && d < |nodes| && nodes[d].kind.Directory?
      requires InRange(nodes, d)
      modifies `nodes, `slots, `refs
      ensures CacheOk(slots, refs) && pending == old(pending)
      ensures r.Entered? ==> refs == old(refs) && slots == old(slots) && i <= MAX_INUM
      ensures r.Entered? ==> nodes == SetEntry(old(nodes), d, FirstFree(old(nodes)[d].entries, 0), Entry(i, name))
      ensures r.Entered? ==> FirstNamed(old(nodes)[d].entries, name, 0) == |old(nodes)[d].entries|
      ensures r.Exists? ==> nodes == old(nodes) && refs == old(refs)
      ensures r.Exists? ==> FirstNamed(old(nodes)[d].entries, name, 0) < |old(nodes)[d].entries|
      ensures r.Panic? ==> slots == old(slots)
      ensures r.Panic? ==> i > MAX_INUM || Full(old(slots)) || FirstFree(old(nodes)[d].entries, 0) >= MAX_ENTRIES
    {
      if i > MAX_INUM { return Panic; }
      ghost var s := Now();
      var found := DirLookup(d, name);
      if found.NoSlot? { return Panic; }
      if found.Found? {
        CountPositive(old(slots), s.refs, nodes[d].entries[found.k].inum);
        AcquirePut(s, nodes[d].entries[found.k].inum);
        Put(found.x);
        return Exists;
      }
      var k := 0;
      while k < |nodes[d].entries| && nodes[d].entries[k].inum != 0
        invariant k <= |nodes[d].entries| && FirstFree(nodes[d].entries, 0) == FirstFree(nodes[d].entries, k)
      {
        k := k + 1;
      }
      if k >= MAX_ENTRIES { return Panic; }
      nodes := SetEntry(nodes, d, k, Entry(i, name));
      r := Entered;
    }

    /** `dir_is_empty`: nothing but the first two entries. */
    method DirIsEmpty(d: nat) returns (empty: bool)
      requires d < |nodes|
      ensures empty == NoChildren(nodes[d].entries)
    {
      var k := 2;
      while k < |nodes[d].entries|
        invariant forall l :: 2 <= l < k && l < |nodes[d].entries| ==> nodes[d].entries[l].inum == 0
      {
        if nodes[d].entries[k].inum != 0 { return false; }
        k := k + 1;
      }
      empty := true;
    }

    /** `dir_unlink`: removes the entry with this name, unless it is "." or ".." or a directory with children. */
    method DirUnlink(d: nat, name: Name) returns (r: UnlinkResult)
      requires CacheOk(slots, refs) && d < |nodes| && nodes[d].kind.Directory? && InRange(nodes, d)
      modifies `nodes, `slots, `refs
      ensures CacheOk(slots, refs) && pending == old(pending)
      ensures r.Removed? ==> old(CanUnlink(Now(), d, name))
      ensures r.Removed? ==> Now() == AfterPut(AfterUnlink(old(Now()), d, name), Target(old(Now()), d, name))
      ensures r.Kept? ==> !old(CanUnlink(Now(), d, name)) && nodes == old(nodes)
      ensures r.Kept? ==> refs == old(refs) || refs == Load(old(refs), NamedBy(old(nodes), d, name))
      ensures r.Panicked? ==> Full(old(slots)) || BadTarget(old(Now()), d, name)
    {
      ghost var s := Now();
      if name[0] == DOT && (name[1] == 0 || (name[1] == DOT && name[2] == 0)) { return Kept; }
      var found := DirLookup(d, name);
      if found.NotFound? { return Kept; }
      if found.NoSlot? { return Panicked; }
      CountPositive(old(slots), s.refs, nodes[d].entries[found.k].inum);
      r := UnlinkFound(s, d, name, found.k, found.x);
    }

    /** The part of `dir_unlink` behind the lookup; place `x` refers to what the entry names. */
    method UnlinkFound(ghost s: State, d: nat, ghost name: Name, k: nat, x: nat) returns (r: UnlinkResult)
      requires CacheOk(slots, refs) && d < |nodes| && nodes[d].kind.Directory? && x < NINODE && slots[x].refs > 0
      requires k < |nodes[d].entries| && slots[x].inum == nodes[d].entries[k].inum < |nodes|
      requires !Special(name) && k == FirstNamed(nodes[d].entries, name, 0)
      requires s.nodes == nodes && s.pending == pending && refs == Acquire(s.refs, slots[x].inum)
      requires slots[x].inum in s.refs ==> s.refs[slots[x].inum].count > 0
      modifies `nodes, `slots, `refs
      ensures CacheOk(slots, refs)
      ensures r.Removed? ==> CanUnlink(s, d, name) && Now() == AfterPut(AfterUnlink(s, d, name), Target(s, d, name))
      ensures r.Kept? ==> !CanUnlink(s, d, name) && nodes == s.nodes && refs == Load(s.refs, old(slots[x].inum))
      ensures r.Panicked? ==> BadTarget(s, d, name)
    {
      var c := nodes[d].entries[k].inum;
      var panicked := Lock(x);
      if panicked || nodes[c].nlink < 1 || (nodes[c].kind.Directory? && nodes[d].nlink < 1) { return Panicked; }
      if nodes[c].kind.Directory? {
        var empty := DirIsEmpty(c);
        if !empty {
          AcquireLoadPut(s, c);
          Put(x);
          return Kept;
        }
      }
      RemoveEntry(d, k, c);
      Put(x);
      r := Removed;
    }

    /** The entry goes, and the counts go down. */
    method RemoveEntry(d: nat, k: nat, c: nat)
      requires d < |nodes| && k < |nodes[d].entries| && c < |nodes| && nodes[c].nlink > 0
      requires nodes[c].kind.Directory? ==> nodes[d].nlink > 0
      modifies `nodes
      ensures nodes == Removal(old(nodes), d, k, c)
    {
      nodes := SetEntry(nodes, d, k, FreeEntry());
      if nodes[c].kind.Directory? { nodes := SetCount(nodes, d, nodes[d].nlink - 1); }
      nodes := SetCount(nodes, c, Less(nodes[c].nlink));
    }

    /** In a linked directory this keeps all counts right, and only a full cache makes it panic. */
    method Unlink(d: nat, name: Name) returns (r: UnlinkResult)
      requires Valid() && Linked(nodes, d)
      modifies `nodes, `slots, `refs
      ensures r.Panicked? ==> Full(old(slots))
      ensures !r.Panicked? ==> Valid()
      ensures r.Removed? <==> !r.Panicked? && old(CanUnlink(Now(), d, name))
      ensures r.Removed? ==> Now() == AfterPut(AfterUnlink(old(Now()), d, name), Target(old(Now()), d, name))
      ensures r.Kept? ==> nodes == old(nodes)
    {
      ghost var s := Now();
      LinkedInRange(s, d);
      NeverBad(s, d, name);
      if CanUnlink(s, d, name) { UnlinkedIsSpare(s, d, name); }
      KeptKeepsInv(s);
      r := DirUnlink(d, name);
    }

    /** `inode_alloc`: the first free inode, or none (the source panics). */
    method InodeAlloc(kind: Kind) returns (r: Option<nat>)
      requires |nodes| > 1 && !kind.Empty?
      modifies `nodes
      ensures r.None? ==> FirstEmpty(old(nodes), 1) == |nodes| && nodes == old(nodes)
      ensures r.Some? ==>
                r.value == FirstEmpty(old(nodes), 1) < |old(nodes)| && nodes == old(nodes)[r.value := Node(kind, 0, [])]
    {
      var i := 1;
      while i < |nodes|
        invariant 1 <= i <= |nodes| && nodes == old(nodes) && FirstEmpty(nodes, 1) == FirstEmpty(nodes, i)
      {
        if nodes[i].kind.Empty? {
          nodes := nodes[i := Node(kind, 0, [])];
          return Some(i);
        }
        i := i + 1;
      }
      r := None;
    }

    /** The new inode gets its links: those of a directory to itself and to its parent. */
    method LinkNew(d: nat, i: nat, kind: Kind) returns (panicked: bool)
      requires CacheOk(slots, refs) && d < |nodes| && i < |nodes| && i != d && nodes[d].kind.Directory?
      requires nodes[i] == Node(kind, 1, []) && i > 0
      modifies `nodes, `slots, `refs
      ensures CacheOk(slots, refs) && pending == old(pending)
      ensures panicked ==> slots == old(slots) && (i > MAX_INUM || d > MAX_INUM || Full(slots))
      ensures !panicked ==> refs == old(refs) && slots == old(slots) && nodes == WithNew(old(nodes), d, i, kind)
    {
      if !kind.Directory? { return false; }
      nodes := SetCount(nodes, d, nodes[d].nlink + 1);
      var dot := DirLink(i, DotName(), i);
      if dot.Panic? { return true; }
      assert nodes[i].entries == [Entry(i, DotName())];
      DotNames();
      assert FirstNamed(nodes[i].entries, DotDotName(), 0) == 1;
      var dotdot := DirLink(i, DotDotName(), d);
      if dotdot.Panic? { return true; }
      assert nodes[i].entries == [Entry(i, DotName()), Entry(d, DotDotName())];
      panicked := false;
    }

    /** A new inode with one link, held and read in; fails (the source panics) if no inode or no place is free. */
    method NewInode(kind: Kind) returns (r: Option<nat>)
      requires CacheOk(slots, refs) && |nodes| > 1 && !kind.Empty?
      modifies `nodes, `slots, `refs
      ensures r.None? ==> FirstEmpty(old(nodes), 1) == |old(nodes)| || Full(old(slots))
      ensures r.Some? ==> CacheOk(slots, refs) && FirstEmpty(old(nodes), 1) < |old(nodes)|
      ensures r.Some? ==>
                var i := FirstEmpty(old(nodes), 1);
                && nodes == old(nodes)[i := Node(kind, 1, [])] && refs == Load(Acquire(old(refs), i), i)
                && r.value < NINODE && slots[r.value].refs > 0 && slots[r.value].inum == i
    {
      var alloc := InodeAlloc(kind);
      if alloc.None? { return None; }
      r := Get(alloc.value);
      if r.None? { return None; }
      var unused := Lock(r.value);
      nodes := SetCount(nodes, alloc.value, 1);
    }

    /** The part of `create` behind the lookup: a new inode, and the entry for it. */
    method MakeNew(d: nat, name: Name, kind: Kind) returns (r: CreateResult)
      requires CacheOk(slots, refs) && d < |nodes| && nodes[d].kind.Directory? && InRange(nodes, d) && !kind.Empty?
      requires FirstNamed(nodes[d].entries, name, 0) == |nodes[d].entries| && 1 < |nodes| <= MAX_INUM + 1
      modifies `nodes, `slots, `refs
      ensures r.Made? || r.NoRoom?
      ensures r.Made? ==> CacheOk(slots, refs) && old(CanCreate(Now(), d, name, kind))
      ensures r.Made? ==> Now() == AfterCreate(old(Now()), d, name, kind)
      ensures r.Made? ==> r.x < NINODE && slots[r.x].refs > 0 && slots[r.x].inum == FirstEmpty(old(nodes), 1)
      ensures r.NoRoom? ==> FirstEmpty(old(nodes), 1) == |old(nodes)| || Full(old(slots)) || Full(slots)
                            || FirstFree(old(nodes)[d].entries, 0) >= MAX_ENTRIES
    {
      ghost var s, i := Now(), FirstEmpty(nodes, 1);
      var x := NewInode(kind);
      if x.None? { return NoRoom; }
      var panicked := LinkNew(d, slots[x.value].inum, kind);
      if panicked { return NoRoom; }
      NewInodes(s.nodes, d, i, kind);
      var entered := DirLink(d, name, slots[x.value].inum);
      if !entered.Entered? { return NoRoom; }
      r := Made(x.value);
    }

    /** `create` in directory `d`: what the name stands for, if that is asked for, or a new inode under this name. */
    method Create(d: nat, name: Name, kind: Kind, reuse: bool) returns (r: CreateResult)
      requires CacheOk(slots, refs) && d < |nodes| && nodes[d].kind.Directory? && InRange(nodes, d) && !kind.Empty?
      requires 1 < |nodes| <= MAX_INUM + 1
      modifies `nodes, `slots, `refs
      ensures !r.NoRoom? ==> CacheOk(slots, refs)
      ensures !r.NoRoom? ==> (r.Made? <==> FirstNamed(old(nodes)[d].entries, name, 0) == |old(nodes)[d].entries|)
      ensures r.Made? ==> old(CanCreate(Now(), d, name, kind)) && Now() == AfterCreate(old(Now()), d, name, kind)
      ensures r.Reused? ==> reuse && nodes == old(nodes) && refs == Acquire(old(refs), NamedBy(nodes, d, name))
      ensures r.Refused? ==> !reuse && Now() == old(Now())
      ensures r.NoRoom? ==> FirstEmpty(old(nodes), 1) == |old(nodes)| || Full(old(slots)) || Full(slots)
                            || FirstFree(old(nodes)[d].entries, 0) >= MAX_ENTRIES
    {
      ghost var s := Now();
      var found := DirLookup(d, name);
      if found.NoSlot? { return NoRoom; }
      if found.Found? {
        if reuse { return Reused(found.x); }
        CountPositive(old(slots), s.refs, nodes[d].entries[found.k].inum);
        AcquirePut(s, nodes[d].entries[found.k].inum);
        Put(found.x);
        return Refused;
      }
      r := MakeNew(d, name, kind);
    }

    // ----- `link`

    /** `sys_link`: one more name for the inode in place `x`, which must not be a directory. The count goes up first and
      * down again if the name cannot be entered; `d` is the directory of the new name, if it has been found. */
    method Link(x: nat, d: Option<nat>, name: Name) returns (r: LinkResult)
      requires CacheOk(slots, refs) && x < NINODE && slots[x].refs > 0 && slots[x].inum < |nodes|
      requires d.Some? ==> d.value < |nodes| && nodes[d.value].kind.Directory? && InRange(nodes, d.value)
      modifies `nodes, `slots, `refs, `pending
      ensures CacheOk(slots, refs)
      ensures r.Entered? ==> d.Some? && !old(nodes)[old(slots[x].inum)].kind.Directory?
      ensures r.Entered? ==>
                Now() ==
                    AfterLinkFinish(AfterLinkBegin(old(Now()), old(slots[x].inum)), d.value, name, old(slots[x].inum))
      ensures r.Exists? ==> Now() == State(old(nodes), Load(old(refs), old(slots[x].inum)), old(pending))
      ensures r.Exists? ==> d.None? || nodes[old(slots[x].inum)].kind.Directory?
                            || FirstNamed(nodes[d.value].entries, name, 0) < |nodes[d.value].entries|
    {
      var i := slots[x].inum;
      BeginRevert(Now(), i);
      var unused := Lock(x);
      if nodes[i].kind.Directory? { return Exists; }
      RaiseCount(i);
      if d.None? {
        Revert(i);
        return Exists;
      }
      r := EnterLink(d.value, name, i);
    }

    method RaiseCount(i: nat)
      requires i < |nodes| && (i in refs ==> refs[i].loaded)
      modifies `nodes, `pending
      ensures Now() == AfterLinkBegin(old(Now()), i)
      ensures forall j :: 0 <= j < |nodes| ==>
                nodes[j].entries == old(nodes)[j].entries && nodes[j].kind == old(nodes)[j].kind
    {
      nodes := SetCount(nodes, i, nodes[i].nlink + 1);
      pending := pending + multiset{i};
    }

    /** The second half of `sys_link`. */
    method EnterLink(d: nat, name: Name, i: nat) returns (r: LinkResult)
      requires CacheOk(slots, refs) && d < |nodes| && nodes[d].kind.Directory? && InRange(nodes, d)
      requires i < |nodes| && !nodes[i].kind.Directory? && (i in refs ==> refs[i].loaded)
      modifies `nodes, `slots, `refs, `pending
      ensures CacheOk(slots, refs)
      ensures r.Entered? ==> Now() == AfterLinkFinish(old(Now()), d, name, i)
      ensures r.Exists? ==> Now() == AfterLinkRevert(old(Now()), i)
      ensures r.Exists? ==> FirstNamed(old(nodes)[d].entries, name, 0) < |old(nodes)[d].entries|
    {
      r := DirLink(d, name, i);
      if r.Exists? { Revert(i); } else { pending := pending - multiset{i}; }
    }

    method Revert(i: nat)
      requires i < |nodes| && (i in refs ==> refs[i].loaded)
      modifies `nodes, `pending
      ensures Now() == AfterLinkRevert(old(Now()), i)
    {
      nodes := SetCount(nodes, i, Less(nodes[i].nlink));
      pending := pending - multiset{i};
    }
  }

  lemma BeginRevert(s: State, i: nat)
    requires i < |s.nodes|
    ensures AfterLinkRevert(AfterLinkBegin(s, i), i) == State(s.nodes, Load(s.refs, i), s.pending)
    ensures AfterLinkBegin(State(s.nodes, Load(s.refs, i), s.pending), i) == AfterLinkBegin(s, i)
  {
    assert s.nodes[i := s.nodes[i]] == s.nodes;
  }

  /** What `create` has done before it enters the name. */
  lemma NewInodes(nodes: Nodes, d: nat, i: nat, kind: Kind)
    requires d < |nodes| && i < |nodes| && i != d
    ensures WithNew(nodes[i := Node(kind, 1, [])], d, i, kind) == WithNew(nodes, d, i, kind)
    ensures WithNew(nodes, d, i, kind)[d].entries == nodes[d].entries
  {
  }

  lemma DotNames()
    ensures !SameName(DotName(), DotDotName())
  {
    DifferentAt(DotName(), DotDotName(), 1);
  }

  function WithNew(nodes: Nodes, d: nat, i: nat, kind: Kind): Nodes
    requires d < |nodes| && i < |nodes|
  {
    var nodes' := nodes[i := NewNode(i, d, kind)];
    if kind.Directory? then SetCount(nodes', d, nodes'[d].nlink + 1) else nodes'
  }

  lemma DifferentAt(a: Name, b: Name, j: nat)
    requires j < MAX_DIR_SIZE && a[j] != b[j] && forall l :: 0 <= l < j ==> a[l] != 0
    ensures !SameName(a, b)
  {
    forall l: nat | l < MAX_DIR_SIZE && a[l] == 0 ensures a[..l + 1] != b[..l + 1] {
      assert a[..l + 1][j] == a[j] && b[..l + 1][j] == b[j];
    }
  }

  /** What the source's checks guard against: an entry that names a free inode or one without links. */
  predicate BadTarget(s: State, d: nat, name: Name)
    requires d < |s.nodes|
  {
    var es := s.nodes[d].entries;
    var k := FirstNamed(es, name, 0);
    !Special(name) && k < |es| &&
    (es[k].inum < |s.nodes| ==>
       var c := s.nodes[es[k].inum];
       c.kind.Empty? || c.nlink == 0 || (c.kind.Directory? && s.nodes[d].nlink == 0))
  }

  lemma NeverBad(s: State, d: nat, name: Name)
    requires Inv(s) && Linked(s.nodes, d)
    ensures !BadTarget(s, d, name)
  {
    var k := FirstNamed(s.nodes[d].entries, name, 0);
    if !Special(name) && k < |s.nodes[d].entries| {
      var c := InumAt(s.nodes, d, k);
      FoundBehind(s, d, name);
      NamedInUse(s, d, k);
      InLinks(s.nodes, d, k, c);
      assert CountAt(s, c);
    }
  }

  lemma KeptKeepsInv(s: State)
    requires Inv(s)
    ensures forall i: nat {:trigger Load(s.refs, i)} :: Inv(State(s.nodes, Load(s.refs, i), s.pending))
  {
    forall i: nat ensures Inv(State(s.nodes, Load(s.refs, i), s.pending)) {
      assert FreeAt(s, i);
      if i in s.refs { UseKeepsInv(s, i); }
    }
  }

  lemma UnlinkedIsSpare(s: State, d: nat, name: Name)
    requires Inv(s) && Linked(s.nodes, d) && CanUnlink(s, d, name)
    ensures var s', c := AfterUnlink(s, d, name), Target(s, d, name);
            c in s'.refs && c < |s'.nodes| && s'.refs[c].count > 0 && Inv(AfterPut(s', c))
  {
    var s', c := AfterUnlink(s, d, name), Target(s, d, name);
    UnlinkKeepsInv(s, d, name);
    assert RefAt(s, c);
    PutKeepsInv(s', c);
  }
}
