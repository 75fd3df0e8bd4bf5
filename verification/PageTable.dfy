/** `kernel/src/mm/pagetable.rs`: the three-level tree of page tables and the flat map it stands for.
  * The format is Sv39: section 4.4 of the RISC-V Privileged Architecture. */
module PageTable {
  import opened Common
  import opened Words

  const PAGE := 0x1000
  const MAXVA := 0x40_0000_0000      // 1 << 38
  const PAGES := 0x800_0000          // page numbers that the three 9-bit indices tell apart: 1 << 27
  const ENTRIES := 512

  // ----- Page table entries: flags in bits 0 to 9, the page number above

  const V := 0x1
  const R := 0x2
  const W := 0x4
  const X := 0x8
  const U := 0x10

  predicate IsPage(a: nat) {
    a % PAGE == 0 && 0 < a < 0x100_0000_0000_0000
  }

  predicate IsValid(pte: nat) {
    pte % 2 == 1
  }

  predicate IsLeaf(pte: nat) {
    pte / 2 % 8 != 0
  }

  predicate IsUser(pte: nat) {
    pte / 0x10 % 2 == 1
  }

  predicate IsReadable(pte: nat) {
    pte / 2 % 2 == 1
  }

  predicate IsWritable(pte: nat) {
    pte / 4 % 2 == 1
  }

  predicate IsExecutable(pte: nat) {
    pte / 8 % 2 == 1
  }

  function AddrOf(pte: nat): nat {
    pte / 0x400 * PAGE
  }

  /** `write`: a pointer to the next table. */
  function PointerTo(a: nat): nat {
    a / PAGE * 0x400 + V
  }

  /** `write_perm`; `perm` holds flag bits. */
  function LeafTo(a: nat, perm: nat): nat {
    a / PAGE * 0x400 + perm / 2 * 2 + V
  }

  lemma LowBit(p: nat, f: nat)
    requires f < 0x400
    ensures (p * 0x400 + f) / 0x400 == p && (p * 0x400 + f) % 2 == f % 2
  {
  }

  lemma LeafBits(p: nat, f: nat)
    ensures (p * 0x400 + f) / 2 % 8 == f / 2 % 8
  {
    Quotient(p * 0x200, f, 2);
    assert p * 0x200 + f / 2 == 8 * (p * 0x40 + f / 2 / 8) + f / 2 % 8;
  }

  lemma UserBit(p: nat, f: nat)
    ensures (p * 0x400 + f) / 0x10 % 2 == f / 0x10 % 2
  {
    Quotient(p * 0x40, f, 0x10);
    Even(p * 0x20, f / 0x10);
  }

  lemma AccessBits(p: nat, f: nat)
    ensures (p * 0x400 + f) / 2 % 2 == f / 2 % 2 && (p * 0x400 + f) / 4 % 2 == f / 4 % 2
    ensures (p * 0x400 + f) / 8 % 2 == f / 8 % 2
  {
    Quotient(p * 0x200, f, 2);
    Quotient(p * 0x100, f, 4);
    Quotient(p * 0x80, f, 8);
    Even(p * 0x100, f / 2);
    Even(p * 0x80, f / 4);
    Even(p * 0x40, f / 8);
  }

  lemma Quotient(x: nat, f: nat, c: nat)
    requires c == 2 || c == 4 || c == 8 || c == 16
    ensures (c * x + f) / c == x + f / c
  {
    if c == 2 {
      assert (2 * x + f) / 2 == x + f / 2;
    } else if c == 4 {
      assert (4 * x + f) / 4 == x + f / 4;
    } else if c == 8 {
      assert (8 * x + f) / 8 == x + f / 8;
    }
  }

  lemma Even(x: nat, y: nat)
    ensures (2 * x + y) % 2 == y % 2
  {
  }

  /** The flag bits are unaffected by the page number above them. */
  lemma FlagsBelow(p: nat, f: nat)
    requires f < 0x400
    ensures (p * 0x400 + f) / 0x400 == p && (p * 0x400 + f) % 2 == f % 2
    ensures (p * 0x400 + f) / 2 % 8 == f / 2 % 8 && (p * 0x400 + f) / 0x10 % 2 == f / 0x10 % 2
  {
    LowBit(p, f);
    LeafBits(p, f);
    UserBit(p, f);
  }

  /** What is written can be read back: the page, and each flag. */
  lemma EntryRoundTrip(a: nat, perm: nat)
    requires perm < 0x400
    ensures AddrOf(LeafTo(a, perm)) == a / PAGE * PAGE && AddrOf(PointerTo(a)) == a / PAGE * PAGE
    ensures IsValid(LeafTo(a, perm)) && IsValid(PointerTo(a)) && !IsLeaf(PointerTo(a))
    ensures IsLeaf(LeafTo(a, perm)) <==> perm / 2 % 8 != 0
    ensures IsUser(LeafTo(a, perm)) <==> IsUser(perm)
    ensures IsReadable(LeafTo(a, perm)) <==> IsReadable(perm)
    ensures IsWritable(LeafTo(a, perm)) <==> IsWritable(perm)
    ensures IsExecutable(LeafTo(a, perm)) <==> IsExecutable(perm)
  {
    AccessBits(a / PAGE, perm / 2 * 2 + V);
    FlagsBelow(a / PAGE, perm / 2 * 2 + V);
    FlagsBelow(a / PAGE, V);
  }

  // ----- The tree

  /** `page_num` of the address of page `n`. */
  function Index(n: nat, level: nat): (i: nat)
    requires level <= 2
    ensures i < ENTRIES
  {
    if level == 2 then n / 0x4_0000 % ENTRIES else if level == 1 then n / 0x200 % ENTRIES else n % ENTRIES
  }

  lemma IndicesTellApart(n: nat, m: nat)
    requires n < PAGES && m < PAGES
    requires Index(n, 2) == Index(m, 2) && Index(n, 1) == Index(m, 1) && Index(n, 0) == Index(m, 0)
    ensures n == m
  {
    FromIndices(n);
    FromIndices(m);
  }

  lemma FromIndices(n: nat)
    requires n < PAGES
    ensures n == 0x4_0000 * Index(n, 2) + 0x200 * Index(n, 1) + Index(n, 0)
  {
    var q := n / 0x200;
    Split(n);
    Split(q);
    assert n / 0x4_0000 == q / 0x200 by { Nested(n); }
    assert q / 0x200 < 0x200;
  }

  lemma Split(n: nat)
    ensures n == 0x200 * (n / 0x200) + n % 0x200
  {
  }

  lemma Nested(n: nat)
    ensures n / 0x4_0000 == n / 0x200 / 0x200
  {
    Split(n);
    Split(n / 0x200);
  }

  type Table = seq<nat>
  type Tables = map<nat, Table>

  /** The place of a table in the tree, given by the indices that lead to it. */
  datatype Node = Root | Mid(i2: nat) | Low(i2: nat, i1: nat)

  function Child(node: Node, i: nat): Node
    requires !node.Low?
  {
    if node.Root? then Mid(i) else Low(node.i2, i)
  }

  /** A valid entry above the last level points to the table at the place below it. */
  ghost predicate EntryOk(tables: Tables, owner: map<nat, Node>, t: nat, i: nat)
    requires t in tables && t in owner && i < |tables[t]|
  {
    IsValid(tables[t][i]) && !owner[t].Low? ==>
      var c := AddrOf(tables[t][i]);
      c in tables && c in owner && owner[c] == Child(owner[t], i)
  }

  ghost predicate TableOk(tables: Tables, owner: map<nat, Node>, t: nat)
    requires t in tables
  {
    && t in owner && IsPage(t) && |tables[t]| == ENTRIES
    && forall i {:trigger EntryOk(tables, owner, t, i)} :: 0 <= i < ENTRIES ==> EntryOk(tables, owner, t, i)
  }

  ghost predicate TreeOk(root: nat, tables: Tables, owner: map<nat, Node>) {
    && root in tables && root in owner && owner[root] == Root
    && forall t {:trigger TableOk(tables, owner, t)} :: t in tables ==> TableOk(tables, owner, t)
  }

  /** The table one level below entry `i` of table `t`, if the entry is valid. */
  function Next(tables: Tables, t: nat, i: nat): Option<nat> {
    if t in tables && i < |tables[t]| && IsValid(tables[t][i]) then Some(AddrOf(tables[t][i])) else None
  }

  /** The table in which the walk for page `n` arrives at `level`. */
  function Walk(root: nat, tables: Tables, n: nat, level: nat): Option<nat>
    requires level <= 2
    decreases 2 - level
  {
    if level == 2 then Some(root)
    else
      var up := Walk(root, tables, n, level + 1);
      if up.None? then None else Next(tables, up.value, Index(n, level + 1))
  }

  /** The flat map: the entry of page `n`, 0 where there is none. */
  function Entry(root: nat, tables: Tables, n: nat): nat {
    var t := Walk(root, tables, n, 0);
    if t.Some? && t.value in tables && Index(n, 0) < |tables[t.value]| then tables[t.value][Index(n, 0)] else 0
  }

  ghost predicate IsFlat(root: nat, tables: Tables, flat: map<nat, nat>) {
    && (forall n :: n in flat <==> 0 <= n < PAGES)
    && forall n: nat {:trigger Entry(root, tables, n)} :: n < PAGES ==> flat[n] == Entry(root, tables, n)
  }

  function NodeAt(n: nat, level: nat): Node
    requires level <= 2
  {
    if level == 2 then Root else if level == 1 then Mid(Index(n, 2)) else Low(Index(n, 2), Index(n, 1))
  }

  lemma {:induction false} WalkInTree(root: nat, tables: Tables, owner: map<nat, Node>, n: nat, level: nat)
    requires TreeOk(root, tables, owner) && level <= 2
    ensures var t := Walk(root, tables, n, level);
            t.Some? ==>
              t.value in tables && t.value in owner && owner[t.value] == NodeAt(n, level)
                  && |tables[t.value]| == ENTRIES
    decreases 2 - level
  {
    assert TableOk(tables, owner, root);
    if level < 2 {
      WalkInTree(root, tables, owner, n, level + 1);
      var up := Walk(root, tables, n, level + 1);
      if up.Some? {
        assert TableOk(tables, owner, up.value) && EntryOk(tables, owner, up.value, Index(n, level + 1));
        var t := Walk(root, tables, n, level);
        if t.Some? { assert TableOk(tables, owner, t.value); }
      }
    }
  }

  // ----- Writing the tree

  function Put(tables: Tables, t: nat, i: nat, pte: nat): Tables
    requires t in tables && i < |tables[t]|
  {
    var s: seq<nat> := tables[t][i := pte];
    tables[t := s]
  }

  /** Writing an entry of the last level. */
  lemma PutKeepsTree(root: nat, tables: Tables, owner: map<nat, Node>, t: nat, i: nat, pte: nat)
    requires TreeOk(root, tables, owner) && t in tables && t in owner && owner[t].Low? && i < |tables[t]|
    ensures TreeOk(root, Put(tables, t, i, pte), owner)
  {
    var tables' := Put(tables, t, i, pte);
    forall u | u in tables' ensures TableOk(tables', owner, u) {
      assert TableOk(tables, owner, u);
      forall j | 0 <= j < ENTRIES ensures EntryOk(tables', owner, u, j) { assert EntryOk(tables, owner, u, j); }
    }
  }

  lemma {:induction false} PutKeepsWalk(root: nat, tables: Tables, owner: map<nat, Node>, t: nat, i: nat, pte: nat,
                                        m: nat, level: nat)
    requires TreeOk(root, tables, owner) && t in tables && t in owner && owner[t].Low? && i < |tables[t]| && level <= 2
    ensures Walk(root, Put(tables, t, i, pte), m, level) == Walk(root, tables, m, level)
    decreases 2 - level
  {
    if level < 2 {
      PutKeepsWalk(root, tables, owner, t, i, pte, m, level + 1);
      WalkInTree(root, tables, owner, m, level + 1);
    }
  }

  lemma PutChangesEntry(root: nat, tables: Tables, owner: map<nat, Node>, n: nat, pte: nat, m: nat)
    requires TreeOk(root, tables, owner) && Walk(root, tables, n, 0).Some? && n < PAGES && m < PAGES
    ensures var t := Walk(root, tables, n, 0).value;
            && t in tables && t in owner && owner[t].Low? && Index(n, 0) < |tables[t]|
            && Entry(root, Put(tables, t, Index(n, 0), pte), m) == if m == n then pte else Entry(root, tables, m)
  {
    var t, i := Walk(root, tables, n, 0).value, Index(n, 0);
    WalkInTree(root, tables, owner, n, 0);
    WalkInTree(root, tables, owner, m, 0);
    PutKeepsWalk(root, tables, owner, t, i, pte, m, 0);
    if Walk(root, tables, m, 0) == Some(t) && Index(m, 0) == i { IndicesTellApart(n, m); }
  }

  /** The flat map changes at one page only. */
  lemma PutChangesOne(root: nat, tables: Tables, owner: map<nat, Node>, n: nat, pte: nat, flat: map<nat, nat>)
    requires TreeOk(root, tables, owner) && IsFlat(root, tables, flat) && Walk(root, tables, n, 0).Some? && n < PAGES
    ensures var t := Walk(root, tables, n, 0).value;
            && t in tables && t in owner && owner[t].Low? && Index(n, 0) < |tables[t]|
            && IsFlat(root, Put(tables, t, Index(n, 0), pte), flat[n := pte])
  {
    WalkInTree(root, tables, owner, n, 0);
    forall m: nat | m < PAGES
      ensures Entry(root, Put(tables, Walk(root, tables, n, 0).value, Index(n, 0), pte), m)
              == if m == n then pte else Entry(root, tables, m)
    {
      PutChangesEntry(root, tables, owner, n, pte, m);
    }
  }

  /** A new, empty table below an invalid entry of table `t`. */
  function Grow(tables: Tables, t: nat, i: nat, p: nat): Tables
    requires t in tables && i < |tables[t]|
  {
    Put(tables, t, i, PointerTo(p))[p := seq(ENTRIES, _ => 0)]
  }

  ghost predicate CanGrow(root: nat, tables: Tables, owner: map<nat, Node>, t: nat, i: nat, p: nat) {
    && TreeOk(root, tables, owner) && t in tables && t in owner && !owner[t].Low? && i < |tables[t]|
    && !IsValid(tables[t][i]) && p !in tables && IsPage(p)
  }

  lemma GrowKeepsTree(root: nat, tables: Tables, owner: map<nat, Node>, t: nat, i: nat, p: nat)
    requires CanGrow(root, tables, owner, t, i, p)
    ensures TreeOk(root, Grow(tables, t, i, p), owner[p := Child(owner[t], i)])
  {
    var tables', owner' := Grow(tables, t, i, p), owner[p := Child(owner[t], i)];
    EntryRoundTrip(p, 0);
    forall u | u in tables' ensures TableOk(tables', owner', u) {
      if u != p { assert TableOk(tables, owner, u); }
      forall j | 0 <= j < ENTRIES ensures EntryOk(tables', owner', u, j) {
        if u != p { assert EntryOk(tables, owner, u, j); }
      }
    }
  }

  /** Walks that arrived somewhere arrive there still; the others may now reach the new table. */
  lemma {:induction false} GrowKeepsWalk(root: nat, tables: Tables, owner: map<nat, Node>, t: nat, i: nat, p: nat,
                                         m: nat, level: nat)
    requires CanGrow(root, tables, owner, t, i, p) && level <= 2
    ensures var w, w' := Walk(root, tables, m, level), Walk(root, Grow(tables, t, i, p), m, level);
            if w.Some? then w' == w else w'.None? || w' == Some(p)
    decreases 2 - level
  {
    if level < 2 {
      GrowKeepsWalk(root, tables, owner, t, i, p, m, level + 1);
      WalkInTree(root, tables, owner, m, level + 1);
      EntryRoundTrip(p, 0);
    }
  }

  lemma GrowKeepsEntry(root: nat, tables: Tables, owner: map<nat, Node>, t: nat, i: nat, p: nat, m: nat)
    requires CanGrow(root, tables, owner, t, i, p)
    ensures Entry(root, Grow(tables, t, i, p), m) == Entry(root, tables, m)
  {
    GrowKeepsWalk(root, tables, owner, t, i, p, m, 0);
    WalkInTree(root, tables, owner, m, 0);
    if Walk(root, tables, m, 0).Some? {
      assert owner[t] != NodeAt(m, 0);
    }
  }

  /** A new table changes no translation. */
  lemma GrowKeepsFlat(root: nat, tables: Tables, owner: map<nat, Node>, t: nat, i: nat, p: nat, flat: map<nat, nat>)
    requires CanGrow(root, tables, owner, t, i, p)
    requires IsFlat(root, tables, flat)
    ensures IsFlat(root, Grow(tables, t, i, p), flat)
  {
    forall m: nat | m < PAGES ensures Entry(root, Grow(tables, t, i, p), m) == Entry(root, tables, m) {
      GrowKeepsEntry(root, tables, owner, t, i, p, m);
    }
  }

  lemma GrowReaches(root: nat, tables: Tables, owner: map<nat, Node>, n: nat, level: nat, p: nat)
    requires 0 < level <= 2 && Walk(root, tables, n, level).Some?
    requires CanGrow(root, tables, owner, Walk(root, tables, n, level).value, Index(n, level), p)
    ensures Walk(root, Grow(tables, Walk(root, tables, n, level).value, Index(n, level), p), n, level - 1) == Some(p)
  {
    var t := Walk(root, tables, n, level).value;
    GrowKeepsWalk(root, tables, owner, t, Index(n, level), p, n, level);
    EntryRoundTrip(p, 0);
  }

  /** Where an entry lies: a table, and the index in it. */
  datatype Slot = Slot(table: nat, index: nat)

  datatype MapResult = Mapped | BadAddress | Remap | NoMemory

  function RoundDown(a: nat): nat {
    a / PAGE * PAGE
  }

  function RoundUp(a: nat): nat {
    (a + PAGE - 1) / PAGE * PAGE
  }

  predicate IsNumber(n: nat) {
    n < PAGES
  }

  function ZeroFlat(): map<nat, nat> {
    map n: nat | n < PAGES && IsNumber(n) :: 0
  }

  class AddressSpace {
    const root: nat
    var tables: Tables
    /** The pages that the page allocator can hand out. */
    var free: set<nat>
    /** The contents of pages. */
    var mem: map<nat, seq<u8>>
    ghost var owner: map<nat, Node>
    /** The flat map: the entry of each page, 0 where there is none. */
    ghost var flat: map<nat, nat>

    ghost predicate Valid()
      reads this
    {
      && TreeOk(root, tables, owner) && IsFlat(root, tables, flat) && Clean(flat)
      && forall p :: p in free ==> IsPage(p) && p !in tables
    }

    /** A zeroed root table. */
    constructor (root: nat, pool: set<nat>, mem: map<nat, seq<u8>>)
      requires IsPage(root) && root !in pool && forall p :: p in pool ==> IsPage(p)
      ensures Valid() && free == pool && this.mem == mem && forall n :: 0 <= n < PAGES ==> flat[n] == 0
    {
      this.root, tables, free, this.mem := root, map[root := seq(ENTRIES, _ => 0)], pool, mem;
      owner, flat := map[root := Root], ZeroFlat();
      new;
      forall i | 0 <= i < ENTRIES ensures EntryOk(tables, owner, root, i) {}
      forall n: nat | n < PAGES ensures Entry(root, tables, n) == 0 { assert Walk(root, tables, n, 1).None?; }
    }

    /** A page from the allocator, or none if it has none. */
    method TakePage() returns (r: Option<nat>)
      modifies `free
      ensures r.None? ==> free == old(free) == {}
      ensures r.Some? ==> r.value in old(free) && free == old(free) - {r.value}
    {
      if free == {} { return None; }
      var p :| p in free;
      free := free - {p};
      r := Some(p);
    }

    method FindPte(n: nat) returns (r: Option<Slot>)
      requires Valid()
      ensures r == match Walk(root, tables, n, 0) case None => None case Some(t) => Some(Slot(t, Index(n, 0)))
      ensures r.Some? ==> r.value.table in tables && r.value.index < |tables[r.value.table]|
      ensures Entry(root, tables, n) == if r.Some? then tables[r.value.table][r.value.index] else 0
    {
      var t, level := root, 2;
      while level >= 1
        invariant 0 <= level <= 2 && Walk(root, tables, n, level) == Some(t)
      {
        WalkInTree(root, tables, owner, n, level);
        var pte := tables[t][Index(n, level)];
        assert Walk(root, tables, n, level - 1) == Next(tables, t, Index(n, level));
        if !IsValid(pte) {
          NoWayDown(root, tables, n, level - 1);
          return None;
        }
        t := AddrOf(pte);
        level := level - 1;
      }
      WalkInTree(root, tables, owner, n, 0);
      r := Some(Slot(t, Index(n, 0)));
    }

    /** The slot of page `n`; tables that are missing on the way are added. No translation changes. */
    method FindPteCreate(n: nat) returns (r: Option<Slot>)
      requires Valid()
      modifies `tables, `free, `owner
      ensures Valid()
      ensures tables.Keys >= old(tables).Keys && tables.Keys + free == old(tables).Keys + old(free)
      ensures r.None? ==> free == {}
      ensures r.Some? ==> Walk(root, tables, n, 0) == Some(r.value.table) && r.value.index == Index(n, 0)
      ensures r.Some? ==> r.value.table in tables && r.value.index < |tables[r.value.table]|
    {
      var t, level := root, 2;
      while level >= 1
        invariant 0 <= level <= 2 && Valid() && Walk(root, tables, n, level) == Some(t)
        invariant tables.Keys >= old(tables).Keys && tables.Keys + free == old(tables).Keys + old(free)
      {
        WalkInTree(root, tables, owner, n, level);
        var pte := tables[t][Index(n, level)];
        assert Walk(root, tables, n, level - 1) == Next(tables, t, Index(n, level));
        if IsValid(pte) {
          t := AddrOf(pte);
        } else {
          var p := TakePage();
          if p.None? { return None; }
          t := AddTable(n, level, t, p.value);
        }
        level := level - 1;
      }
      WalkInTree(root, tables, owner, n, 0);
      r := Some(Slot(t, Index(n, 0)));
    }

    method AddTable(n: nat, level: nat, t: nat, p: nat) returns (t': nat)
      requires Valid() && 0 < level <= 2 && Walk(root, tables, n, level) == Some(t)
      requires t in tables && |tables[t]| == ENTRIES && !IsValid(tables[t][Index(n, level)])
      requires p !in tables && p !in free && IsPage(p)
      modifies `tables, `owner
      ensures Valid() && t' == p && Walk(root, tables, n, level - 1) == Some(p)
      ensures tables.Keys == old(tables).Keys + {p}
    {
      var i := Index(n, level);
      WalkInTree(root, tables, owner, n, level);
      GrowKeepsTree(root, tables, owner, t, i, p);
      GrowReaches(root, tables, owner, n, level, p);
      GrowKeepsFlat(root, tables, owner, t, i, p, flat);
      owner := owner[p := Child(owner[t], i)];
      tables := Grow(tables, t, i, p);
      t' := p;
    }

    /** One round of `map_pages`, after `k` others. */
    method MapNext(va: nat, p: nat, perm: nat, ghost flat0: map<nat, nat>, ghost first: nat, ghost k: nat,
                   ghost pa: nat)
        returns (r: MapResult)
      requires Valid() && va / PAGE == first + k < PAGES && perm < 0x400 && p == pa + k * PAGE && first + k in flat0
      requires NotMapped(flat0, first, k) && flat == WithRange(flat0, first, k, pa, perm)
      modifies `tables, `free, `owner, `flat
      ensures Valid() && !r.BadAddress?
      ensures tables.Keys >= old(tables).Keys && tables.Keys + free == old(tables).Keys + old(free)
      ensures r.Mapped? ==> NotMapped(flat0, first, k + 1) && flat == WithRange(flat0, first, k + 1, pa, perm)
      ensures r.Remap? ==> IsValid(flat0[first + k])
      ensures r.NoMemory? ==> free == {}
      ensures !r.Mapped? ==> flat == WithRange(flat0, first, k, pa, perm)
    {
      OneMorePage(flat0, first, k, pa, perm);
      var pte := FindPteCreate(va / PAGE);
      if pte.None? { return NoMemory; }
      var t, i := pte.value.table, pte.value.index;
      assert tables[t][i] == Entry(root, tables, va / PAGE);
      if IsValid(tables[t][i]) { return Remap; }
      EntryRoundTrip(p, perm);
      SetEntry(va / PAGE, t, LeafTo(p, perm));
      r := Mapped;
    }

    /** Writes the entry of page `n`, which lies in table `t`. */
    method SetEntry(n: nat, t: nat, pte: nat)
      requires Valid() && n < PAGES && Walk(root, tables, n, 0) == Some(t) && (IsValid(pte) || pte == 0)
      modifies `tables, `flat
      ensures Valid() && tables.Keys == old(tables).Keys
      ensures flat == old(flat)[n := pte]
    {
      PutChangesOne(root, tables, owner, n, pte, flat);
      PutKeepsTree(root, tables, owner, t, Index(n, 0), pte);
      tables := Put(tables, t, Index(n, 0), pte);
      flat := flat[n := pte];
    }

    /** Maps the pages from round-down(va) to round-up(va + size), in order, until it fails; `k` of them are mapped. */
    method MapPages(va: nat, size: nat, pa: nat, perm: nat) returns (r: MapResult, ghost k: nat)
      requires Valid() && perm < 0x400
      modifies `tables, `free, `owner, `flat
      ensures Valid()
      ensures tables.Keys >= old(tables).Keys && tables.Keys + free == old(tables).Keys + old(free)
      ensures r.BadAddress? <==> va + size > MAXVA
      ensures r.BadAddress? ==> k == 0 && tables == old(tables) && free == old(free)
      ensures k <= PageCount(va, size) && (r.Mapped? <==> k == PageCount(va, size) && !r.BadAddress?)
      ensures NotMapped(old(flat), va / PAGE, k)
      ensures r.Remap? ==> IsValid(old(flat)[va / PAGE + k])
      ensures r.NoMemory? ==> free == {}
      ensures flat == WithRange(old(flat), va / PAGE, k, pa, perm)
    {
      if va + size > MAXVA {
        k := 0;
        return BadAddress, k;
      }
      InRange(va, size);
      r, k := MapUpTo(RoundDown(va), RoundUp(va + size), pa, perm, va / PAGE, PageCount(va, size));
    }

    /** The loop of `map_pages`. */
    method MapUpTo(va: nat, last: nat, pa: nat, perm: nat, ghost first: nat, ghost total: nat)
        returns (r: MapResult, ghost k: nat)
      requires Valid() && perm < 0x400 && va == first * PAGE && last == (first + total) * PAGE && first + total < PAGES
      modifies `tables, `free, `owner, `flat
      ensures Valid() && !r.BadAddress?
      ensures tables.Keys >= old(tables).Keys && tables.Keys + free == old(tables).Keys + old(free)
      ensures k <= total && (r.Mapped? <==> k == total)
      ensures NotMapped(old(flat), first, k)
      ensures r.Remap? ==> IsValid(old(flat)[first + k])
      ensures r.NoMemory? ==> free == {}
      ensures flat == WithRange(old(flat), first, k, pa, perm)
    {
      var a, p := va, pa;
      ghost var flat0 := flat;
      r, k := Mapped, 0;
      while a != last
        invariant r.Mapped? && Valid() && k <= total
        invariant a == (first + k) * PAGE && p == pa + k * PAGE
        invariant tables.Keys >= old(tables).Keys && tables.Keys + free == old(tables).Keys + old(free)
        invariant NotMapped(flat0, first, k) && flat == WithRange(flat0, first, k, pa, perm)
        decreases total - k
      {
        PageOf(a, first + k);
        r := MapNext(a, p, perm, flat0, first, k, pa);
        if !r.Mapped? { return r, k; }
        a, p, k := a + PAGE, p + PAGE, k + 1;
      }
    }

    /** Returns a page to the allocator; a page that is free already, or a table, must not be returned. */
    method DropPage(p: nat)
      requires Valid() && IsPage(p) && p !in free && p !in tables
      modifies `free
      ensures Valid() && free == old(free) + {p}
    {
      free := free + {p};
    }

    /** One round of `uvm_unmap`, after `k` others. */
    method UnmapNext(ca: nat, freeing: bool, ghost flat0: map<nat, nat>, ghost first: nat, ghost count: nat,
                     ghost k: nat, ghost free0: set<nat>)
        returns (r: UnmapResult)
      requires Valid() && ca / PAGE == first + k < PAGES && k < count && first + k in flat0
      requires freeing ==> Freeable(flat0, first, count, free0, tables.Keys)
      requires CutOff(flat0, first, k, freeing, free0, flat, free)
      modifies `tables, `flat, `free
      ensures Valid() && tables.Keys == old(tables).Keys
      ensures r == if !IsValid(flat0[first + k]) then Hole else if !IsLeaf(flat0[first + k]) then NotLeaf else Unmapped
      ensures CutOff(flat0, first, if r.Unmapped? then k + 1 else k, freeing, free0, flat, free)
    {
      ClearOne(flat0, first, count, k, free0, tables.Keys, freeing);
      var pte := FindPte(ca / PAGE);
      if pte.None? { return Hole; }
      var t, e := pte.value.table, tables[pte.value.table][pte.value.index];
      if !IsValid(e) { return Hole; }
      if !IsLeaf(e) { return NotLeaf; }
      if freeing { DropPage(AddrOf(e)); }
      SetEntry(ca / PAGE, t, 0);
      r := Unmapped;
    }

    /** Unmaps `count` pages and frees their frames, but stops at the first page that is not mapped; `k` are
      * unmapped. */
    method UvmUnmap(va: nat, count: nat, freeing: bool) returns (panicked: bool, ghost k: nat)
      requires Valid() && va / PAGE + count <= PAGES
      requires freeing ==> Freeable(flat, va / PAGE, count, free, tables.Keys)
      modifies `tables, `flat, `free
      ensures Valid() && tables.Keys == old(tables).Keys && k <= count
      ensures va % PAGE != 0 ==> panicked && k == 0
      ensures CutOff(old(flat), va / PAGE, k, freeing, old(free), flat, free)
      ensures !panicked && k < count ==> !IsValid(old(flat)[va / PAGE + k])
      ensures panicked && va % PAGE == 0 ==>
                k < count && IsValid(old(flat)[va / PAGE + k]) && !IsLeaf(old(flat)[va / PAGE + k])
    {
      k := 0;
      if va % PAGE != 0 { return true, k; }
      ghost var first, flat0, free0 := va / PAGE, flat, free;
      var ca := va;
      while ca < va + PAGE * count
        invariant Valid() && tables.Keys == old(tables).Keys && k <= count && ca == va + PAGE * k
        invariant CutOff(flat0, first, k, freeing, free0, flat, free)
        decreases count - k
      {
        NextPage(va, ca, k);
        var r := UnmapNext(ca, freeing, flat0, first, count, k, free0);
        if !r.Unmapped? { return r.NotLeaf?, k; }
        ca, k := ca + PAGE, k + 1;
      }
      panicked := false;
    }

    /** Shrinks a user address space; `k` pages are unmapped and freed. */
    method UvmDealloc(oldSize: nat, newSize: nat) returns (size: nat, panicked: bool, ghost k: nat)
      requires Valid() && (newSize < oldSize ==> RoundUp(oldSize) <= PAGES * PAGE)
      requires newSize < oldSize ==>
                 Freeable(flat, RoundUp(newSize) / PAGE, PagesBetween(newSize, oldSize), free, tables.Keys)
      modifies `tables, `flat, `free
      ensures Valid() && tables.Keys == old(tables).Keys
      ensures newSize >= oldSize ==> size == oldSize && !panicked && k == 0 && flat == old(flat) && free == old(free)
      ensures newSize < oldSize ==>
                && (panicked || size == newSize) && k <= PagesBetween(newSize, oldSize)
                && CutOff(old(flat), RoundUp(newSize) / PAGE, k, true, old(free), flat, free)
                && (k < PagesBetween(newSize, oldSize) ==>
                   var e := old(flat)[RoundUp(newSize) / PAGE + k]; if panicked then IsValid(e)
                       && !IsLeaf(e) else !IsValid(e))
    {
      panicked, k := false, 0;
      if newSize >= oldSize { return oldSize, panicked, k; }
      var oldAligned, newAligned := RoundUp(oldSize), RoundUp(newSize);
      if newAligned < oldAligned {
        panicked, k := UvmUnmap(newAligned, (oldAligned - newAligned) / PAGE, true);
      }
      size := newSize;
    }

    /** Takes back what `UvmAlloc` has done so far. */
    method RollBack(cur: nat, start: nat, ghost taken: seq<nat>, ghost flat0: map<nat, nat>)
      requires Valid() && cur == start + |taken| * PAGE && start % PAGE == 0 && (taken == [] || cur <= MAXVA)
      requires Grown(flat0, start / PAGE, taken, flat, free, tables.Keys)
      modifies `tables, `flat, `free
      ensures Valid() && tables.Keys == old(tables).Keys && flat == flat0
      ensures free == old(free) + Elements(taken)
    {
      GrownIsFreeable(flat0, start / PAGE, taken, flat, free, tables.Keys);
      Aligned(cur, start, |taken|);
      var size, panicked, k := UvmDealloc(cur, start);
      assert k == |taken| || |taken| == 0;
    }

    /** Maps the single page `n` at `cur` for users. */
    method MapOne(cur: nat, page: nat, ghost n: nat) returns (r: MapResult)
      requires Valid() && cur % PAGE == 0 && cur / PAGE == n && PageCount(cur, PAGE) == 1
      modifies `tables, `free, `owner, `flat
      ensures Valid()
      ensures tables.Keys >= old(tables).Keys && tables.Keys + free == old(tables).Keys + old(free)
      ensures r.BadAddress? <==> cur + PAGE > MAXVA
      ensures r.NoMemory? ==> free == {}
      ensures r.Remap? || r.Mapped? ==> n in old(flat) && (IsValid(old(flat)[n]) <==> r.Remap?)
      ensures flat == if r.Mapped? then old(flat)[n := LeafTo(page, R + W + X + U)] else old(flat)
    {
      WithRangeOne(flat, n, page, R + W + X + U);
      ghost var k;
      r, k := MapPages(cur, PAGE, page, R + W + X + U);
    }

    /** One more page for `UvmAlloc`; if it cannot be mapped it is given back. */
    method GrowOne(cur: nat, ghost flat0: map<nat, nat>, ghost first: nat, ghost taken: seq<nat>, ghost free0: set<nat>,
                   ghost pool: set<nat>)
        returns (r: MapResult, ghost got: bool, page: nat)
      requires Valid() && cur % PAGE == 0 && cur / PAGE == first + |taken| && PageCount(cur, PAGE) == 1
      requires Growing(flat0, first, taken, flat, free, tables.Keys, free0, pool, mem)
      modifies `tables, `free, `owner, `flat, `mem
      ensures Valid() && tables.Keys >= old(tables).Keys
      ensures if r.Mapped? then cur + PAGE <= MAXVA
              else Blocked(r, flat0, first + |taken|, cur + PAGE, if got then {page} else {}, free)
      ensures r.Mapped? ==> Growing(flat0, first, taken + [page], flat, free, tables.Keys, free0, pool, mem)
      ensures !r.Mapped? ==> Growing(flat0, first, taken, flat, free, tables.Keys, free0, pool, mem)
    {
      ghost var flat1, free1, tables1, mem1, n := flat, free, tables.Keys, mem, first + |taken|;
      var p := TakePage();
      if p.None? { return NoMemory, false, 0; }
      got, page := true, p.value;
      NextEntry(flat0, first, taken, flat1, n);
      mem := mem[page := ZeroPage()];
      r := MapOne(cur, page, n);
      GrowEnds(Start(flat0, first, free0, pool), taken, flat1, free1, tables1, mem1, page, free, tables.Keys);
      if r.Mapped? {
        GrowMore(Start(flat0, first, free0, pool), taken, flat1, mem1, page, free, tables.Keys);
      } else {
        BlockedHere(r, flat0, n, cur + PAGE, page, free);
        DropPage(page);
      }
    }

    /** Grows a user address space by zeroed pages, or leaves its translations as they were and gives all pages back.
      * `taken` lists the frames that this took; after a failure, `mapped` pages were in place and `why` is what
      * stopped it. */
    method UvmAlloc(oldSize: nat, newSize: nat)
        returns (size: Option<nat>, ghost taken: seq<nat>, ghost mapped: nat, ghost why: MapResult)
      requires Valid()
      modifies `tables, `free, `owner, `flat, `mem
      ensures Valid() && tables.Keys >= old(tables).Keys
      ensures newSize <= oldSize ==>
                size == Some(oldSize) && flat == old(flat) && free == old(free) && tables == old(tables)
      ensures newSize > oldSize && size.Some? ==> size == Some(newSize) && |taken| == PagesBetween(oldSize, newSize)
      ensures newSize > oldSize && size.Some? ==>
                Growing(old(flat), RoundUp(oldSize) / PAGE, taken, flat, free, tables.Keys, old(free),
                        old(tables).Keys + old(free), mem)
      ensures size.None? ==> flat == old(flat) && tables.Keys + free == old(tables).Keys + old(free)
      ensures size.None? ==> oldSize < newSize && mapped < PagesBetween(oldSize, newSize) && |taken| <= mapped + 1
      ensures size.None? ==>
                Blocked(why, old(flat), RoundUp(oldSize) / PAGE + mapped, RoundUp(oldSize) + (mapped + 1) * PAGE,
                                     Elements(taken), free)
    {
      taken, mapped, why := [], 0, Mapped;
      if newSize <= oldSize { return Some(oldSize), taken, mapped, why; }
      var ok;
      ok, taken, mapped, why := GrowFrom(RoundUp(oldSize), newSize);
      RoundedUp(oldSize);
      if ok {
        Rounded(oldSize, newSize, RoundUp(oldSize) + |taken| * PAGE, |taken|);
        return Some(newSize), taken, mapped, why;
      }
      NotThereYet(oldSize, newSize, RoundUp(oldSize) + mapped * PAGE, mapped);
      size := None;
    }

    /** One round of the loop of `uvm_alloc`; if it fails, everything is taken back. */
    method GrowRound(cur: nat, start: nat, ghost flat0: map<nat, nat>, ghost taken: seq<nat>, ghost free0: set<nat>,
                     ghost pool: set<nat>)
        returns (ok: bool, page: nat, ghost all: seq<nat>, ghost why: MapResult)
      requires Valid() && start % PAGE == 0 && cur == start + |taken| * PAGE && (taken == [] || cur <= MAXVA)
      requires Growing(flat0, start / PAGE, taken, flat, free, tables.Keys, free0, pool, mem)
      modifies `tables, `free, `owner, `flat, `mem
      ensures Valid() && tables.Keys >= old(tables).Keys
      ensures ok ==> cur + PAGE <= MAXVA
      ensures ok ==> Growing(flat0, start / PAGE, taken + [page], flat, free, tables.Keys, free0, pool, mem)
      ensures !ok ==> flat == flat0 && tables.Keys + free == pool && |all| <= |taken| + 1
      ensures !ok ==> Blocked(why, flat0, start / PAGE + |taken|, start + (|taken| + 1) * PAGE, Elements(all), free)
    {
      Aligned(cur, start, |taken|);
      ghost var got;
      var r;
      r, got, page := GrowOne(cur, flat0, start / PAGE, taken, free0, pool);
      ok, all, why := r.Mapped?, [], r;
      if !ok {
        all := BlockedAfter(why, flat0, start / PAGE, start, cur, taken, got, page, free);
        RollBack(cur, start, taken, flat0);
      }
    }

    /** The loop of `uvm_alloc`. */
    method GrowFrom(start: nat, newSize: nat)
        returns (ok: bool, ghost taken: seq<nat>, ghost mapped: nat, ghost why: MapResult)
      requires Valid() && start % PAGE == 0
      modifies `tables, `free, `owner, `flat, `mem
      ensures Valid() && tables.Keys >= old(tables).Keys
      ensures ok ==> newSize <= start + |taken| * PAGE && (start + |taken| * PAGE < newSize + PAGE || taken == [])
      ensures ok ==>
                Growing(old(flat), start / PAGE, taken, flat, free, tables.Keys, old(free),
                        old(tables).Keys + old(free), mem)
      ensures !ok ==> flat == old(flat) && tables.Keys + free == old(tables).Keys + old(free)
      ensures !ok ==> start + mapped * PAGE < newSize && |taken| <= mapped + 1
      ensures !ok ==> Blocked(why, old(flat), start / PAGE + mapped, start + (mapped + 1) * PAGE, Elements(taken), free)
    {
      taken, mapped, why := [], 0, Mapped;
      var cur := start;
      ghost var first, flat0, free0, pool := start / PAGE, flat, free, tables.Keys + free;
      while cur < newSize
        invariant Valid() && tables.Keys >= old(tables).Keys && cur == start + |taken| * PAGE
        invariant (taken == [] || cur <= MAXVA) && (cur < newSize + PAGE || taken == [])
        invariant Growing(flat0, first, taken, flat, free, tables.Keys, free0, pool, mem)
        decreases newSize - cur
      {
        var page; ghost var all;
        ok, page, all, why := GrowRound(cur, start, flat0, taken, free0, pool);
        if !ok { return false, all, |taken|, why; }
        taken := taken + [page];
        cur := cur + PAGE;
      }
      ok := true;
    }

    /** The frame of page `n`, if the page is mapped for users. */
    method FindPa(n: nat) returns (r: Option<nat>)
      requires Valid()
      ensures r == if UserPage(flat, n) then Some(AddrOf(flat[n % PAGES])) else None
    {
      EntryWraps(root, tables, n);
      assert flat[n % PAGES] == Entry(root, tables, n % PAGES) == Entry(root, tables, n);
      var pte := FindPte(n);
      if pte.None? { return None; }
      var e := tables[pte.value.table][pte.value.index];
      if !IsValid(e) || !IsUser(e) { return None; }
      r := Some(AddrOf(e));
    }

    /** One round of the loop of `copy_in`. */
    method CopyPage(ghost src: nat, ghost count: nat, va: nat, s: nat, left: nat, bytes: seq<u8>)
        returns (done: bool, ok: bool, more: seq<u8>, s': nat, left': nat)
      requires Valid() && UserMemory(flat, mem) && Copied(flat, mem, src, count, va, s, left, bytes)
      ensures done ==> CopyResult(flat, mem, src, count, ok, bytes + more)
      ensures !done ==> Copied(flat, mem, src, count, va + PAGE, s', left', bytes + more) && left' < left
    {
      CopyRound(flat, mem, src, count, va, s, left, bytes);
      s', left' := s, left;
      var pa := FindPa(va / PAGE);
      if pa.None? { return true, false, [], s', left'; }
      var off := s - va;
      var offFromEnd := PAGE - off;
      if offFromEnd > left { return true, true, mem[pa.value][off..off + left], s', left'; }
      done, ok, more, s', left' := false, true, mem[pa.value][off..], s + offFromEnd, left - offFromEnd;
    }

    /** Copies `count` bytes from user address `src`. It needs the page of `src + count`, even when no byte of it is
      * read. */
    method CopyIn(src: nat, count: nat) returns (ok: bool, bytes: seq<u8>)
      requires Valid() && UserMemory(flat, mem) && src <= MAXVA
      ensures ok <==> UserPages(flat, src / PAGE, (src + count) / PAGE)
      ensures ok ==> bytes == UserBytes(flat, mem, src, count)
    {
      var va: nat := RoundDown(src);
      bytes := [];
      if count == 0 {
        var pa := FindPa(va / PAGE);
        NothingToCopy(flat, mem, src, va);
        return pa.Some?, bytes;
      }
      var s: nat, left: nat := src, count;
      NothingCopied(flat, mem, src, count, va);
      while true
        invariant Copied(flat, mem, src, count, va, s, left, bytes)
        decreases left
      {
        var done, more;
        done, ok, more, s, left := CopyPage(src, count, va, s, left, bytes);
        bytes := bytes + more;
        if done { return ok, bytes; }
        va := va + PAGE;
      }
    }
  }

  ghost predicate CopyResult(flat: map<nat, nat>, mem: map<nat, seq<u8>>, src: nat, count: nat, ok: bool,
                             bytes: seq<u8>)
    requires UserMemory(flat, mem)
  {
    && (ok <==> UserPages(flat, src / PAGE, (src + count) / PAGE))
    && (ok ==> bytes == UserBytes(flat, mem, src, count))
  }

  lemma NothingToCopy(flat: map<nat, nat>, mem: map<nat, seq<u8>>, src: nat, va: nat)
    requires UserMemory(flat, mem) && va == RoundDown(src)
    ensures CopyResult(flat, mem, src, 0, UserPage(flat, va / PAGE), [])
  {
    assert va / PAGE == src / PAGE;
  }

  lemma NothingCopied(flat: map<nat, nat>, mem: map<nat, seq<u8>>, src: nat, count: nat, va: nat)
    requires UserMemory(flat, mem) && va == RoundDown(src)
    ensures Copied(flat, mem, src, count, va, src, count, [])
  {
  }

  /** All pages below the one at `va` are read; `s` is the next address. */
  ghost predicate Copied(flat: map<nat, nat>, mem: map<nat, seq<u8>>, src: nat, count: nat, va: nat, s: nat, left: nat,
                         bytes: seq<u8>)
    requires UserMemory(flat, mem)
  {
    && s + left == src + count && va % PAGE == 0 && va <= s < va + PAGE && (s == src || s == va) && src <= s
    && src / PAGE <= va / PAGE && UserPagesBelow(flat, src / PAGE, va / PAGE)
    && bytes == UserBytes(flat, mem, src, s - src)
  }

  lemma OnePageMore(flat: map<nat, nat>, first: nat, n: nat, last: nat)
    requires first <= n <= last && UserPagesBelow(flat, first, n)
    ensures !UserPage(flat, n) ==> !UserPages(flat, first, last)
    ensures UserPage(flat, n) ==> UserPagesBelow(flat, first, n + 1) && (n == last ==> UserPages(flat, first, last))
  {
  }

  lemma CopyRound(flat: map<nat, nat>, mem: map<nat, seq<u8>>, src: nat, count: nat, va: nat, s: nat, left: nat,
                  bytes: seq<u8>)
    requires UserMemory(flat, mem) && Copied(flat, mem, src, count, va, s, left, bytes)
    ensures !UserPage(flat, va / PAGE) ==> !UserPages(flat, src / PAGE, (src + count) / PAGE)
    ensures UserPage(flat, va / PAGE) ==>
              var page, off := mem[AddrOf(flat[va / PAGE % PAGES])], s - va;
              && |page| == PAGE
              && if PAGE - off > left then
                   UserPages(flat, src / PAGE, (src + count) / PAGE)
                       && bytes + page[off..off + left] == UserBytes(flat, mem, src, count)
                 else Copied(flat, mem, src, count, va + PAGE, s + PAGE - off, left - (PAGE - off), bytes + page[off..])
  {
    LastPage(va, s, left);
    OnePageMore(flat, src / PAGE, va / PAGE, (src + count) / PAGE);
    if UserPage(flat, va / PAGE) {
      if PAGE - (s - va) > left {
        ReadOn(flat, mem, src, va, s, left);
      } else {
        CopyGoesOn(flat, mem, src, count, va, s, left, bytes);
      }
    }
  }

  lemma CopyGoesOn(flat: map<nat, nat>, mem: map<nat, seq<u8>>, src: nat, count: nat, va: nat, s: nat, left: nat,
                   bytes: seq<u8>)
    requires UserMemory(flat, mem) && Copied(flat, mem, src, count, va, s, left, bytes)
    requires UserPage(flat, va / PAGE) && PAGE - (s - va) <= left
    ensures var page, off := mem[AddrOf(flat[va / PAGE % PAGES])], s - va;
            && |page| == PAGE
            && Copied(flat, mem, src, count, va + PAGE, s + PAGE - off, left - (PAGE - off), bytes + page[off..])
  {
    var off := s - va;
    LastPage(va, s, left);
    OnePageMore(flat, src / PAGE, va / PAGE, va / PAGE);
    ReadOn(flat, mem, src, va, s, PAGE - off);
    var page := mem[AddrOf(flat[va / PAGE % PAGES])];
    assert page[off..] == page[off..PAGE];
  }

  lemma LastPage(va: nat, s: nat, left: nat)
    requires va % PAGE == 0 && va <= s < va + PAGE
    ensures va / PAGE <= (s + left) / PAGE && (left < PAGE - (s - va) ==> (s + left) / PAGE == va / PAGE)
    ensures (va + PAGE) / PAGE == va / PAGE + 1 && (va + PAGE) % PAGE == 0
  {
  }

  ghost predicate UserPage(flat: map<nat, nat>, n: nat) {
    n % PAGES in flat && IsValid(flat[n % PAGES]) && IsUser(flat[n % PAGES])
  }

  ghost predicate UserPages(flat: map<nat, nat>, first: nat, last: nat) {
    forall n {:trigger UserPage(flat, n)} :: first <= n <= last ==> UserPage(flat, n)
  }

  ghost predicate UserPagesBelow(flat: map<nat, nat>, first: nat, last: nat) {
    forall n {:trigger UserPage(flat, n)} :: first <= n < last ==> UserPage(flat, n)
  }

  /** Every byte from `src` on lies in a page mapped for users. */
  ghost predicate UserBytesMapped(flat: map<nat, nat>, src: nat, count: nat) {
    forall a {:trigger UserPage(flat, a / PAGE)} :: src <= a < src + count ==> UserPage(flat, a / PAGE)
  }

  /** `copy_in` fails for bytes that are all mapped exactly if they end with their page and the next is not mapped. */
  lemma CopyNeedsNext(flat: map<nat, nat>, src: nat, count: nat)
    requires UserBytesMapped(flat, src, count)
    ensures UserPages(flat, src / PAGE, (src + count) / PAGE) <==>
            ((src + count) % PAGE == 0 || count == 0 ==> UserPage(flat, (src + count) / PAGE))
  {
    forall n: nat | src / PAGE <= n <= (src + count) / PAGE && count > 0
                    && (n < (src + count) / PAGE || (src + count) % PAGE > 0)
      ensures UserPage(flat, n)
    {
      var a := if n == src / PAGE then src else n * PAGE;
      PageInRange(src, count, n);
      assert UserPage(flat, a / PAGE);
    }
    if UserPages(flat, src / PAGE, (src + count) / PAGE) {
      assert UserPage(flat, (src + count) / PAGE) by { PageInRange(src, count, (src + count) / PAGE); }
    }
  }

  lemma PageInRange(src: nat, count: nat, n: nat)
    requires src / PAGE <= n <= (src + count) / PAGE
    ensures src / PAGE <= (src + count) / PAGE
    ensures var a := if n == src / PAGE then src else n * PAGE;
            a / PAGE == n && src <= a
            && (count > 0 && (n < (src + count) / PAGE || (src + count) % PAGE > 0) ==> a < src + count)
  {
  }

  /** It does happen: one page is mapped, and all of it is to be copied. */
  lemma WholePageRefused(a: nat)
    requires IsPage(a)
    ensures var flat := map[0 := LeafTo(a, R + U)];
            UserBytesMapped(flat, 0, PAGE) && !UserPages(flat, 0, PAGE / PAGE)
  {
    var flat := map[0 := LeafTo(a, R + U)];
    EntryRoundTrip(a, R + U);
    assert UserPage(flat, 0);
    assert !UserPage(flat, 1);
  }

  /** The frames of user pages are in memory. */
  ghost predicate UserMemory(flat: map<nat, nat>, mem: map<nat, seq<u8>>) {
    forall n: nat {:trigger UserPage(flat, n)} :: UserPage(flat, n) ==>
      AddrOf(flat[n % PAGES]) in mem && |mem[AddrOf(flat[n % PAGES])]| == PAGE
  }

  /** The byte at a user address of the flat address space. */
  ghost function UserByte(flat: map<nat, nat>, mem: map<nat, seq<u8>>, a: nat): u8
    requires UserMemory(flat, mem)
  {
    if UserPage(flat, a / PAGE) then mem[AddrOf(flat[a / PAGE % PAGES])][a % PAGE] else 0
  }

  /** The `k` bytes from a user address on. */
  ghost function UserBytes(flat: map<nat, nat>, mem: map<nat, seq<u8>>, a: nat, k: nat): (r: seq<u8>)
    requires UserMemory(flat, mem)
    ensures |r| == k
  {
    if k == 0 then [] else UserBytes(flat, mem, a, k - 1) + [UserByte(flat, mem, a + k - 1)]
  }

  /** `k` more bytes, all in the page at `va`. */
  lemma {:induction false} ReadOn(flat: map<nat, nat>, mem: map<nat, seq<u8>>, src: nat, va: nat, s: nat, k: nat)
    requires UserMemory(flat, mem) && va % PAGE == 0 && va <= s && src <= s && s + k <= va + PAGE
             && UserPage(flat, va / PAGE)
    ensures var page := mem[AddrOf(flat[va / PAGE % PAGES])];
            |page| == PAGE
                && UserBytes(flat, mem, src, s - src) + page[s - va..s - va + k] ==
                   UserBytes(flat, mem, src, s - src + k)
  {
    if k > 0 {
      ReadOn(flat, mem, src, va, s, k - 1);
      InPage(va, s + k - 1);
      var page := mem[AddrOf(flat[va / PAGE % PAGES])];
      assert page[s - va..s - va + k] == page[s - va..s - va + k - 1] + [page[s - va + k - 1]];
    }
  }

  lemma InPage(va: nat, a: nat)
    requires va % PAGE == 0 && va <= a < va + PAGE
    ensures a / PAGE == va / PAGE && a % PAGE == a - va
  {
  }

  lemma Shifted(q: nat, r: nat)
    ensures (q * PAGES + r) / 0x4_0000 == q * ENTRIES + r / 0x4_0000
    ensures (q * PAGES + r) / 0x200 == q * 0x4_0000 + r / 0x200
  {
  }

  lemma LowIndex(p: nat, x: nat)
    ensures (p * ENTRIES + x) % ENTRIES == x % ENTRIES
  {
  }

  lemma IndexWraps(n: nat, level: nat)
    requires level <= 2
    ensures Index(n % PAGES, level) == Index(n, level)
  {
    var q, r := n / PAGES, n % PAGES;
    Shifted(q, r);
    LowIndex(q, r / 0x4_0000);
    LowIndex(q * 0x200, r / 0x200);
    LowIndex(q * 0x4_0000, r);
  }

  /** The walk uses the low 27 bits of the page number only. */
  lemma {:induction false} WalkWraps(root: nat, tables: Tables, n: nat, level: nat)
    requires level <= 2
    ensures Walk(root, tables, n % PAGES, level) == Walk(root, tables, n, level)
    decreases 2 - level
  {
    if level < 2 {
      IndexWraps(n, level + 1);
      WalkWraps(root, tables, n, level + 1);
    }
  }

  lemma EntryWraps(root: nat, tables: Tables, n: nat)
    ensures Entry(root, tables, n % PAGES) == Entry(root, tables, n)
  {
    IndexWraps(n, 0);
    WalkWraps(root, tables, n, 0);
  }

  /** Page `p` is taken and tables may be added: if `p` is given back, nothing is lost. */
  lemma GrowEnds(start: Start, taken: seq<nat>, flat: map<nat, nat>, free: set<nat>, tables: set<nat>,
                 mem: map<nat, seq<u8>>, p: nat, free': set<nat>, tables': set<nat>)
    requires Growing(start.flat, start.first, taken, flat, free, tables, start.free, start.pool, mem)
    requires p in free && p !in tables && IsPage(p) && tables' + free' == tables + (free - {p}) && tables <= tables'
             && tables' !! free'
    ensures p !in free' && p !in tables' && p !in taken && IsPage(p) && p in start.free
    ensures Growing(start.flat, start.first, taken, flat, free' + {p}, tables', start.free, start.pool,
                    mem[p := ZeroPage()])
  {
    assert p !in free';
    assert forall i :: 0 <= i < |taken| ==> taken[i] in Elements(taken) && taken[i] !in tables + free;
    assert Grown(start.flat, start.first, taken, flat, free' + {p}, tables');
  }

  /** If `p` has been mapped, it is one more of the new pages. */
  lemma GrowMore(start: Start, taken: seq<nat>, flat: map<nat, nat>, mem: map<nat, seq<u8>>, p: nat, free: set<nat>,
                 tables: set<nat>)
    requires Growing(start.flat, start.first, taken, flat, free + {p}, tables, start.free, start.pool,
                     mem[p := ZeroPage()])
    requires p !in free && p !in tables && p !in taken && IsPage(p) && p in start.free
    requires start.first + |taken| in flat && !IsValid(flat[start.first + |taken|])
    ensures var flat' := flat[start.first + |taken| := LeafTo(p, R + W + X + U)];
            Growing(start.flat, start.first, taken + [p], flat', free, tables, start.free, start.pool,
                    mem[p := ZeroPage()])
  {
    var flat' := flat[start.first + |taken| := LeafTo(p, R + W + X + U)];
    assert Grown(start.flat, start.first, taken, flat, free, tables);
    GrownOneMore(start.flat, start.first, taken, flat, p, flat', free, tables);
    assert Elements(taken + [p]) == Elements(taken) + {p};
  }

  /** The loop of `uvm_alloc` ends at the first page boundary that is not below the new size. */
  lemma Rounded(a: nat, b: nat, cur: nat, k: nat)
    requires a < b <= cur == RoundUp(a) + k * PAGE && (cur < b + PAGE || k == 0)
    ensures PagesBetween(a, b) == k
  {
  }

  lemma RoundedUp(a: nat)
    ensures RoundUp(a) % PAGE == 0
  {
  }

  lemma NotThereYet(a: nat, b: nat, cur: nat, k: nat)
    requires a < b && cur == RoundUp(a) + k * PAGE && cur < b
    ensures k < PagesBetween(a, b)
  {
  }

  /** Why page `n` could not be added: it ends beyond the address space, it is mapped already, or the allocator has
    * no page besides `own`. */
  ghost predicate Blocked(why: MapResult, flat: map<nat, nat>, n: nat, end: nat, own: set<nat>, free: set<nat>) {
    match why
    case Mapped => false
    case BadAddress => end > MAXVA
    case Remap => n in flat && IsValid(flat[n])
    case NoMemory => free == own
  }

  /** The entry behind the new pages is the one that the map had before. */
  lemma NextEntry(flat0: map<nat, nat>, first: nat, taken: seq<nat>, flat: map<nat, nat>, n: nat)
    requires flat == WithFrames(flat0, first, taken) && n == first + |taken|
    ensures n in flat <==> n in flat0
    ensures n in flat ==> flat[n] == flat0[n]
  {
    WithFramesAt(flat0, first, taken, n);
  }

  lemma BlockedHere(why: MapResult, flat: map<nat, nat>, n: nat, end: nat, page: nat, free: set<nat>)
    requires !why.Mapped? && (why.BadAddress? ==> end > MAXVA) && (why.NoMemory? ==> free == {})
    requires why.Remap? ==> n in flat && IsValid(flat[n])
    ensures Blocked(why, flat, n, end, {page}, free + {page})
  {
    assert why.NoMemory? ==> free + {page} == {page};
  }

  /** All pages that the growth has taken go back. */
  lemma BlockedAfter(why: MapResult, flat: map<nat, nat>, first: nat, start: nat, cur: nat, taken: seq<nat>,
                     got: bool, page: nat, free: set<nat>)
      returns (all: seq<nat>)
    requires Blocked(why, flat, first + |taken|, cur + PAGE, if got then {page} else {}, free)
             && cur == start + |taken| * PAGE
    ensures all == if got then taken + [page] else taken
    ensures Blocked(why, flat, first + |taken|, start + (|taken| + 1) * PAGE, Elements(all), free + Elements(taken))
  {
    all := if got then taken + [page] else taken;
    assert Elements(taken + [page]) == {page} + Elements(taken);
  }

  lemma WithRangeOne(flat: map<nat, nat>, first: nat, pa: nat, perm: nat)
    ensures WithRange(flat, first, 1, pa, perm) == flat[first := LeafTo(pa, perm)]
  {
  }

  /** Where growing has started: the map, the first new page, the free pages, and all pages of allocator and tables. */
  datatype Start = Start(flat: map<nat, nat>, first: nat, free: set<nat>, pool: set<nat>)

  /** The map has grown by the zeroed frames `taken`, all from the allocator; no page is lost. */
  ghost predicate Growing(flat0: map<nat, nat>, first: nat, taken: seq<nat>, flat: map<nat, nat>, free: set<nat>,
                          tables: set<nat>,
                          free0: set<nat>, pool: set<nat>, mem: map<nat, seq<u8>>)
  {
    && Grown(flat0, first, taken, flat, free, tables)
    && Elements(taken) <= free0 && free <= free0 && tables + free + Elements(taken) == pool
    && forall i :: 0 <= i < |taken| ==> taken[i] in mem && mem[taken[i]] == ZeroPage()
  }

  function ZeroPage(): seq<u8> {
    seq(PAGE, _ => 0)
  }

  /** Whole pages between two sizes, rounded up. */
  function PagesBetween(a: nat, b: nat): nat
    requires a <= b
  {
    RoundUp(b) / PAGE - RoundUp(a) / PAGE
  }

  ghost function Elements(s: seq<nat>): set<nat> {
    set x | x in s
  }

  /** Pages from page `first` on map to the frames `taken`, for user reads, writes and execution. */
  function WithFrames(flat: map<nat, nat>, first: nat, taken: seq<nat>): map<nat, nat> {
    if taken == [] then flat
    else WithFrames(flat, first, taken[..|taken| - 1])[first + |taken| - 1 := LeafTo(taken[|taken| - 1], R + W + X + U)]
  }

  ghost predicate Distinct(s: seq<nat>) {
    forall i, j :: 0 <= i < j < |s| ==> s[i] != s[j]
  }

  /** The map has grown by the frames `taken`, which nobody else has. */
  ghost predicate Grown(flat0: map<nat, nat>, first: nat, taken: seq<nat>, flat: map<nat, nat>, free: set<nat>,
                        tables: set<nat>) {
    && flat == WithFrames(flat0, first, taken) && NotMapped(flat0, first, |taken|) && Clean(flat0)
    && Distinct(taken) && forall i :: 0 <= i < |taken| ==> IsPage(taken[i]) && taken[i] !in free && taken[i] !in tables
  }

  lemma Aligned(cur: nat, start: nat, k: nat)
    requires start % PAGE == 0 && cur == start + k * PAGE
    ensures RoundUp(start) == start && RoundUp(cur) == cur && PagesBetween(start, cur) == k
    ensures cur / PAGE == start / PAGE + k && PageCount(cur, PAGE) == 1
  {
  }

  lemma {:induction false} WithFramesAt(flat: map<nat, nat>, first: nat, taken: seq<nat>, m: nat)
    ensures first <= m < first + |taken| ==> m in WithFrames(flat, first, taken)
    ensures first <= m < first + |taken| ==>
              WithFrames(flat, first, taken)[m] == LeafTo(taken[m - first], R + W + X + U)
    ensures !(first <= m < first + |taken|) ==> (m in WithFrames(flat, first, taken) <==> m in flat)
    ensures !(first <= m < first + |taken|) && m in flat ==> WithFrames(flat, first, taken)[m] == flat[m]
    decreases |taken|
  {
    if taken != [] { WithFramesAt(flat, first, taken[..|taken| - 1], m); }
  }

  lemma GrownAt(flat0: map<nat, nat>, first: nat, taken: seq<nat>, flat: map<nat, nat>, free: set<nat>,
                tables: set<nat>, i: nat)
    requires Grown(flat0, first, taken, flat, free, tables) && i < |taken|
    ensures first + i in flat && IsValid(flat[first + i]) && IsLeaf(flat[first + i])
            && AddrOf(flat[first + i]) == taken[i]
    ensures OwnFrame(flat, first + i, free, tables)
  {
    WithFramesAt(flat0, first, taken, first + i);
    EntryRoundTrip(taken[i], R + W + X + U);
  }

  lemma {:induction false} FramesOfGrown(flat0: map<nat, nat>, first: nat, taken: seq<nat>, flat: map<nat, nat>,
                                         free: set<nat>, tables: set<nat>, k: nat)
    requires Grown(flat0, first, taken, flat, free, tables) && k <= |taken|
    ensures Frames(flat, first, k) == Elements(taken[..k])
  {
    if k > 0 {
      FramesOfGrown(flat0, first, taken, flat, free, tables, k - 1);
      GrownAt(flat0, first, taken, flat, free, tables, k - 1);
      assert taken[..k] == taken[..k - 1] + [taken[k - 1]];
      assert Elements(taken[..k]) == Elements(taken[..k - 1]) + {taken[k - 1]};
    }
  }

  lemma GrownIsFreeable(flat0: map<nat, nat>, first: nat, taken: seq<nat>, flat: map<nat, nat>, free: set<nat>,
                        tables: set<nat>)
    requires Grown(flat0, first, taken, flat, free, tables)
    ensures Freeable(flat, first, |taken|, free, tables) && MappedLeaves(flat, first, |taken|)
    ensures Frames(flat, first, |taken|) == Elements(taken)
    ensures Cleared(flat, first, |taken|) == flat0
  {
    forall n | first <= n < first + |taken|
      ensures OwnFrame(flat, n, free, tables) && IsValid(flat[n]) && IsLeaf(flat[n]) {
      GrownAt(flat0, first, taken, flat, free, tables, n - first);
    }
    forall n, m | first <= n < m < first + |taken| ensures AddrOf(flat[n]) != AddrOf(flat[m]) {
      GrownAt(flat0, first, taken, flat, free, tables, n - first);
      GrownAt(flat0, first, taken, flat, free, tables, m - first);
    }
    assert taken[..|taken|] == taken;
    FramesOfGrown(flat0, first, taken, flat, free, tables, |taken|);
    ClearedGrown(flat0, first, taken);
  }

  /** Unmapping the new pages restores the map. */
  lemma ClearedGrown(flat0: map<nat, nat>, first: nat, taken: seq<nat>)
    requires NotMapped(flat0, first, |taken|) && Clean(flat0)
    ensures Cleared(WithFrames(flat0, first, taken), first, |taken|) == flat0
  {
    var flat1 := Cleared(WithFrames(flat0, first, taken), first, |taken|);
    forall m ensures (m in flat1 <==> m in flat0) && (m in flat0 ==> flat1[m] == flat0[m]) {
      if m >= 0 {
        WithFramesAt(flat0, first, taken, m);
        ClearedAt(WithFrames(flat0, first, taken), first, |taken|, m);
      }
    }
  }

  lemma GrownOneMore(flat0: map<nat, nat>, first: nat, taken: seq<nat>, flat1: map<nat, nat>, p: nat, flat: map<nat,
                     nat>,
                     free: set<nat>, tables: set<nat>)
    requires Grown(flat0, first, taken, flat1, free, tables) && first + |taken| in flat1
             && !IsValid(flat1[first + |taken|])
    requires flat == flat1[first + |taken| := LeafTo(p, R + W + X + U)]
    requires IsPage(p) && p !in free && p !in tables && p !in taken
    ensures Grown(flat0, first, taken + [p], flat, free, tables)
  {
    WithFramesAt(flat0, first, taken, first + |taken|);
    assert (taken + [p])[..|taken|] == taken;
  }

  datatype UnmapResult = Unmapped | Hole | NotLeaf

  /** `k` mapped pages from page `first` on have been unmapped, and their frames freed. */
  ghost predicate CutOff(flat0: map<nat, nat>, first: nat, k: nat, freeing: bool, free0: set<nat>, flat: map<nat, nat>,
                         free: set<nat>) {
    && flat == Cleared(flat0, first, k) && MappedLeaves(flat0, first, k)
    && free == if freeing then free0 + Frames(flat0, first, k) else free0
  }

  lemma NextPage(va: nat, ca: nat, k: nat)
    requires va % PAGE == 0 && ca == va + PAGE * k
    ensures ca / PAGE == va / PAGE + k
  {
  }

  /** `k` pages from page `first` on have no entry. */
  function Cleared(flat: map<nat, nat>, first: nat, k: nat): map<nat, nat> {
    if k == 0 then flat else Cleared(flat, first, k - 1)[first + k - 1 := 0]
  }

  lemma {:induction false} ClearedAt(flat: map<nat, nat>, first: nat, k: nat, m: nat)
    ensures first <= m < first + k ==> m in Cleared(flat, first, k) && Cleared(flat, first, k)[m] == 0
    ensures !(first <= m < first + k) ==> (m in Cleared(flat, first, k) <==> m in flat)
    ensures !(first <= m < first + k) && m in flat ==> Cleared(flat, first, k)[m] == flat[m]
  {
    if k > 0 { ClearedAt(flat, first, k - 1, m); }
  }

  ghost predicate MappedLeaves(flat: map<nat, nat>, first: nat, k: nat) {
    forall m :: first <= m < first + k ==> m in flat && IsValid(flat[m]) && IsLeaf(flat[m])
  }

  /** The frames of `k` pages from page `first` on. */
  function Frames(flat: map<nat, nat>, first: nat, k: nat): set<nat> {
    if k == 0 then {}
    else Frames(flat, first, k - 1) + if first + k - 1 in flat then {AddrOf(flat[first + k - 1])} else {}
  }

  ghost predicate OwnFrame(flat: map<nat, nat>, n: nat, free: set<nat>, tables: set<nat>) {
    n in flat && IsPage(AddrOf(flat[n])) && AddrOf(flat[n]) !in free && AddrOf(flat[n]) !in tables
  }

  /** Each mapped page in the range has a frame of its own, which is neither free nor a table. */
  ghost predicate Freeable(flat: map<nat, nat>, first: nat, count: nat, free: set<nat>, tables: set<nat>) {
    && (forall n {:trigger OwnFrame(flat, n, free, tables)} ::
          first <= n < first + count && n in flat && IsValid(flat[n]) ==> OwnFrame(flat, n, free, tables))
    && forall n, m ::
         first <= n < m < first + count && n in flat && m in flat && IsValid(flat[n]) && IsValid(flat[m]) ==>
          AddrOf(flat[n]) != AddrOf(flat[m])
  }

  lemma {:induction false} FrameOf(flat: map<nat, nat>, first: nat, k: nat, a: nat)
    ensures a in Frames(flat, first, k) <==> exists n :: first <= n < first + k && n in flat && AddrOf(flat[n]) == a
  {
    if k > 0 { FrameOf(flat, first, k - 1, a); }
  }

  /** One more page to unmap after `k` others. */
  lemma ClearOne(flat: map<nat, nat>, first: nat, count: nat, k: nat, free: set<nat>, tables: set<nat>, freeing: bool)
    requires k < count && first + k in flat && MappedLeaves(flat, first, k)
    requires freeing ==> Freeable(flat, first, count, free, tables)
    ensures first + k in Cleared(flat, first, k) && Cleared(flat, first, k)[first + k] == flat[first + k]
    ensures IsValid(flat[first + k]) && IsLeaf(flat[first + k]) ==> MappedLeaves(flat, first, k + 1)
    ensures freeing && IsValid(flat[first + k]) ==>
              var a := AddrOf(flat[first + k]);
              IsPage(a) && a !in free && a !in Frames(flat, first, k) && a !in tables
    ensures Frames(flat, first, k + 1) == Frames(flat, first, k) + {AddrOf(flat[first + k])}
    ensures Cleared(flat, first, k + 1) == Cleared(flat, first, k)[first + k := 0]
  {
    ClearedAt(flat, first, k, first + k);
    if freeing && IsValid(flat[first + k]) {
      assert OwnFrame(flat, first + k, free, tables);
      FrameOf(flat, first, k, AddrOf(flat[first + k]));
    }
  }

  lemma PageOf(a: nat, n: nat)
    requires a == n * PAGE
    ensures a / PAGE == n
  {
  }

  /** Pages from round-down(va) to round-up(va + size). */
  function PageCount(va: nat, size: nat): nat {
    (va + size + PAGE - 1) / PAGE - va / PAGE
  }

  lemma InRange(va: nat, size: nat)
    requires va + size <= MAXVA
    ensures 0 <= PageCount(va, size) && va / PAGE + PageCount(va, size) < PAGES
    ensures RoundDown(va) == va / PAGE * PAGE && RoundUp(va + size) == (va / PAGE + PageCount(va, size)) * PAGE
  {
  }

  /** `k` pages from page `first` on map to consecutive frames. */
  function WithRange(flat: map<nat, nat>, first: nat, k: nat, pa: nat, perm: nat): map<nat, nat> {
    if k == 0 then flat else WithRange(flat, first, k - 1, pa, perm)[first + k - 1 := LeafTo(pa + (k - 1) * PAGE, perm)]
  }

  lemma {:induction false} WithRangeAt(flat: map<nat, nat>, first: nat, k: nat, pa: nat, perm: nat, m: nat)
    ensures first <= m < first + k ==> m in WithRange(flat, first, k, pa, perm)
    ensures first <= m < first + k ==>
              WithRange(flat, first, k, pa, perm)[m] == LeafTo(pa + (m - first) * PAGE, perm)
    ensures !(first <= m < first + k) ==> (m in WithRange(flat, first, k, pa, perm) <==> m in flat)
    ensures !(first <= m < first + k) && m in flat ==> WithRange(flat, first, k, pa, perm)[m] == flat[m]
  {
    if k > 0 { WithRangeAt(flat, first, k - 1, pa, perm, m); }
  }

  lemma OneMorePage(flat: map<nat, nat>, first: nat, k: nat, pa: nat, perm: nat)
    requires NotMapped(flat, first, k) && first + k in flat
    ensures first + k in WithRange(flat, first, k, pa, perm)
            && WithRange(flat, first, k, pa, perm)[first + k] == flat[first + k]
    ensures WithRange(flat, first, k + 1, pa, perm) ==
            WithRange(flat, first, k, pa, perm)[first + k := LeafTo(pa + k * PAGE, perm)]
    ensures NotMapped(flat, first, k + 1) <==> !IsValid(WithRange(flat, first, k, pa, perm)[first + k])
  {
    WithRangeAt(flat, first, k, pa, perm, first + k);
  }

  /** An entry that is not valid is zero. */
  ghost predicate Clean(flat: map<nat, nat>) {
    forall n :: n in flat && !IsValid(flat[n]) ==> flat[n] == 0
  }

  ghost predicate NotMapped(flat: map<nat, nat>, first: nat, k: nat) {
    forall m :: first <= m < first + k ==> m in flat && !IsValid(flat[m])
  }

  /** A walk that has stopped does not arrive. */
  lemma {:induction false} NoWayDown(root: nat, tables: Tables, n: nat, level: nat)
    requires level <= 2 && Walk(root, tables, n, level).None?
    ensures Walk(root, tables, n, 0).None?
    decreases level
  {
    if level > 0 { NoWayDown(root, tables, n, level - 1); }
  }
}
