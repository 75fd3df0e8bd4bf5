/** The user-level allocator of `user/umalloc.c`: a circular list of free blocks in address order,
    first fit from a roving pointer, coalescing in `free`.

    Addresses are byte addresses, block sizes are in units of one 16-byte header. `mem` holds the headers.
    The ghost fields say what they are for: which blocks are on the list, which ones are handed out, and
    which bytes sbrk has given to the allocator. */
module Umalloc {
  /** sizeof(Header) */
  const HEADER: int := 16

  /** What morecore asks for at least. */
  const MIN_UNITS: int := 4096

  datatype Header = Header(ptr: int, size: int)

  type Memory = map<int, Header>

  /** The header count that malloc computes for a request. */
  function Units(nbytes: int): int {
    (nbytes + HEADER - 1) / HEADER + 1
  }

  function Last(a: int, size: int): int {
    a + HEADER * size
  }

  /** `ptr` leads from `a` to the next higher block on the list, or back to `base` from the highest one. */
  ghost predicate NextInOrder(base: int, free: set<int>, a: int, ptr: int) {
    && ptr in free
    && (a < ptr ==> forall x :: x in free ==> x <= a || ptr <= x)
    && (ptr <= a ==> ptr == base && forall x :: x in free ==> x <= a)
  }

  /** `base` is the lowest block and has size 0; blocks neither overlap nor touch. */
  ghost predicate Sizes(base: int, mem: Memory, free: set<int>) {
    && base in free && base in mem && mem[base].size == 0
    && (forall a :: a in free ==> a in mem && base <= a)
    && (forall a :: a in free && a != base ==> mem[a].size > 0)
    && (forall a, b :: a in free && b in free && base < a < b ==> Last(a, mem[a].size) < b)
  }

  /** The circular list of the blocks `free`, in address order with one wrap point. */
  ghost predicate ListOk(base: int, mem: Memory, free: set<int>) {
    && Sizes(base, mem, free)
    && (forall a {:trigger NextInOrder(base, free, a, mem[a].ptr)} :: a in free ==>
          NextInOrder(base, free, a, mem[a].ptr))
  }

  lemma LinkInOrder(base: int, mem: Memory, free: set<int>, a: int)
    requires ListOk(base, mem, free) && a in free
    ensures NextInOrder(base, free, a, mem[a].ptr)
  {
  }

  /** The blocks handed out: their headers are intact and they overlap neither each other nor the list. */
  ghost predicate LiveOk(base: int, mem: Memory, free: set<int>, live: map<int, int>) {
    && (forall a :: a in live ==> a in mem && mem[a].size == live[a] && live[a] > 0 && base < a && a !in free)
    && (forall a, b :: a in live && b in live && a < b ==> Last(a, live[a]) <= b)
    && (forall a, b :: a in live && b in free && a < b ==> Last(a, live[a]) <= b)
    && (forall a, b :: a in live && b in free && b in mem && base < b < a ==> Last(b, mem[b].size) <= a)
  }

  ghost predicate InFree(mem: Memory, free: set<int>, x: int) {
    exists a :: a in free && a in mem && a <= x < Last(a, mem[a].size)
  }

  ghost predicate InLive(live: map<int, int>, x: int) {
    exists a :: a in live && a <= x < Last(a, live[a])
  }

  /** Where the block `bp` of `n` units goes: right behind `p`, in front of everything above. */
  ghost predicate Gap(base: int, mem: Memory, free: set<int>, p: int, bp: int, n: int) {
    && p in free && base < bp && n > 0 && bp !in free && p < bp
    && (forall x :: x in free ==> x <= p || Last(bp, n) <= x)
    && (base < p ==> p in mem && Last(p, mem[p].size) <= bp)
  }

  /** The list after `bp` has been put behind `p`: joined with the block below (`low`), with the block `q`
      above (`high`), with both or with neither. */
  ghost predicate Put(mem: Memory, free: set<int>, p: int, bp: int, q: int, n: int, low: bool, high: bool,
                      mem': Memory, free': set<int>)
    requires p in mem && q in mem
  {
    && free' == (if high then free - {q} else free) + (if low then {} else {bp})
    && (forall a :: a in mem && a != p && a != bp ==> a in mem' && mem'[a] == mem[a])
    && p in mem' && bp in mem'
    && var ptr := if high then mem[q].ptr else q;
    var size := if high then n + mem[q].size else n;
    if low then mem'[p] == Header(ptr, mem[p].size + size)
    else mem'[p] == Header(bp, mem[p].size) && mem'[bp] == Header(ptr, size)
  }

  lemma PutKeepsSizes(base: int, mem: Memory, free: set<int>, p: int, bp: int, q: int, n: int, low: bool, high: bool,
                      mem': Memory, free': set<int>)
    requires Sizes(base, mem, free) && Gap(base, mem, free, p, bp, n) && q in free
    requires NextInOrder(base, free, p, q)
    requires low <==> Last(p, mem[p].size) == bp
    requires high <==> Last(bp, n) == q
    requires Put(mem, free, p, bp, q, n, low, high, mem', free')
    ensures Sizes(base, mem', free')
  {
    assert low ==> base < p;
    forall a, b | a in free' && b in free' && base < a < b ensures Last(a, mem'[a].size) < b {
      if a == p || a == bp {
        assert b != bp && b in free ==> q <= b && Last(bp, n) <= b;
      } else {
        assert mem'[a] == mem[a] && (b == bp ==> a <= p);
      }
    }
  }

  lemma PutKeepsOrder(base: int, mem: Memory, free: set<int>, p: int, bp: int, q: int, n: int, low: bool, high: bool,
                      mem': Memory, free': set<int>, a: int)
    requires Sizes(base, mem, free) && Gap(base, mem, free, p, bp, n) && q in free
    requires Put(mem, free, p, bp, q, n, low, high, mem', free')
    requires NextInOrder(base, free, p, q) && NextInOrder(base, free, q, mem[q].ptr)
    requires high ==> p < q
    requires a in free' && a in mem'
    requires a in free ==> NextInOrder(base, free, a, mem[a].ptr)
    ensures NextInOrder(base, free', a, mem'[a].ptr)
  {
    if a == p || a == bp {
      PutOrderHere(base, mem, free, p, bp, q, n, low, high, mem', free', a);
    } else {
      PutOrderElsewhere(base, mem, free, p, bp, q, n, low, high, mem', free', a);
    }
  }

  lemma PutOrderHere(base: int, mem: Memory, free: set<int>, p: int, bp: int, q: int, n: int, low: bool, high: bool,
                     mem': Memory, free': set<int>, a: int)
    requires Sizes(base, mem, free) && Gap(base, mem, free, p, bp, n) && q in free
    requires Put(mem, free, p, bp, q, n, low, high, mem', free')
    requires NextInOrder(base, free, p, q) && NextInOrder(base, free, q, mem[q].ptr)
    requires high ==> p < q
    requires a in free' && a in mem' && (a == p || a == bp)
    ensures NextInOrder(base, free', a, mem'[a].ptr)
  {
    assert mem'[a].ptr == if a == p && !low then bp else if high then mem[q].ptr else q;
  }

  lemma PutOrderElsewhere(base: int, mem: Memory, free: set<int>, p: int, bp: int, q: int, n: int, low: bool,
                          high: bool, mem': Memory, free': set<int>, a: int)
    requires Sizes(base, mem, free) && Gap(base, mem, free, p, bp, n) && q in free
    requires Put(mem, free, p, bp, q, n, low, high, mem', free')
    requires NextInOrder(base, free, p, q) && NextInOrder(base, free, q, mem[q].ptr)
    requires high ==> p < q
    requires a in free' && a in mem' && a != p && a != bp && NextInOrder(base, free, a, mem[a].ptr)
    ensures NextInOrder(base, free', a, mem'[a].ptr)
  {
    assert mem'[a] == mem[a];
    OnlyBefore(base, free, p, q, a, mem[a].ptr);
    assert high ==> mem[a].ptr != q;
  }

  /** Only one block leads to `q`, unless that is the base. */
  lemma OnlyBefore(base: int, free: set<int>, p: int, q: int, a: int, ptr: int)
    requires NextInOrder(base, free, p, q) && NextInOrder(base, free, a, ptr) && p in free && a in free && a != p
    ensures p < q ==> ptr != q || q <= a
  {
  }

  lemma PutCovers(base: int, mem: Memory, free: set<int>, p: int, bp: int, q: int, n: int, low: bool, high: bool,
                  mem': Memory, free': set<int>, x: int)
    requires Sizes(base, mem, free) && Gap(base, mem, free, p, bp, n) && q in free
    requires low <==> Last(p, mem[p].size) == bp
    requires high <==> Last(bp, n) == q
    requires Put(mem, free, p, bp, q, n, low, high, mem', free')
    ensures InFree(mem', free', x) <==> InFree(mem, free, x) || bp <= x < Last(bp, n)
  {
    if InFree(mem, free, x) || bp <= x < Last(bp, n) {
      PutLosesNothing(base, mem, free, p, bp, q, n, low, high, mem', free', x);
    }
    if InFree(mem', free', x) { PutAddsNoMore(base, mem, free, p, bp, q, n, low, high, mem', free', x); }
  }

  lemma PutLosesNothing(base: int, mem: Memory, free: set<int>, p: int, bp: int, q: int, n: int, low: bool, high: bool,
                        mem': Memory, free': set<int>, x: int)
    requires Sizes(base, mem, free) && Gap(base, mem, free, p, bp, n) && q in free
    requires low <==> Last(p, mem[p].size) == bp
    requires high <==> Last(bp, n) == q
    requires Put(mem, free, p, bp, q, n, low, high, mem', free')
    requires InFree(mem, free, x) || bp <= x < Last(bp, n)
    ensures InFree(mem', free', x)
  {
    var left := if low then p else bp;
    assert left in free' && left in mem';
    if bp <= x < Last(bp, n) {
      assert left <= x < Last(left, mem'[left].size);
    } else {
      var a :| a in free && a in mem && a <= x < Last(a, mem[a].size);
      var b := if a == q && high then left else a;
      assert b in free' && b in mem' && b <= x < Last(b, mem'[b].size);
    }
  }

  lemma PutAddsNoMore(base: int, mem: Memory, free: set<int>, p: int, bp: int, q: int, n: int, low: bool, high: bool,
                      mem': Memory, free': set<int>, x: int)
    requires Sizes(base, mem, free) && Gap(base, mem, free, p, bp, n) && q in free
    requires low <==> Last(p, mem[p].size) == bp
    requires high <==> Last(bp, n) == q
    requires Put(mem, free, p, bp, q, n, low, high, mem', free')
    requires InFree(mem', free', x)
    ensures InFree(mem, free, x) || bp <= x < Last(bp, n)
  {
    var a :| a in free' && a in mem' && a <= x < Last(a, mem'[a].size);
    assert (a in free && x < Last(a, mem[a].size)) || bp <= x < Last(bp, n)
           || (high && q <= x < Last(q, mem[q].size));
  }

  // ----- Walking around the list

  /** The blocks that a walk meets after `p`, up to and including the last one not above `goal`. */
  ghost function Ahead(free: set<int>, p: int, goal: int): set<int> {
    if p <= goal then set x | x in free && p < x <= goal
    else set x | x in free && (p < x || x <= goal)
  }

  /** One step of a walk that has not reached `goal` gets strictly closer. */
  lemma StepCloser(base: int, free: set<int>, p: int, q: int, goal: int)
    requires base in free && base <= goal && p in free && p != goal
    requires forall x :: x in free ==> base <= x
    requires NextInOrder(base, free, p, q)
    requires p < goal ==> p < q <= goal
    ensures Ahead(free, q, goal) < Ahead(free, p, goal)
    ensures Ahead(free, p, goal) == Ahead(free, q, goal) + {q}
  {
    assert q in Ahead(free, p, goal) && q !in Ahead(free, q, goal);
  }

  /** A walk that starts behind `p` meets every block before it is back at `p`. */
  lemma WholeRound(base: int, free: set<int>, p: int, q: int)
    requires base in free && p in free && NextInOrder(base, free, p, q)
    requires forall x :: x in free ==> base <= x
    ensures Ahead(free, q, p) + {q} == free
  {
  }

  // ----- The allocator

  /** Every byte that sbrk has given lies in exactly one block, free or handed out, and no other byte does. */
  ghost predicate Accounts(mem: Memory, free: set<int>, live: map<int, int>, granted: iset<int>) {
    forall x :: x in granted <==> InFree(mem, free, x) || InLive(live, x)
  }

  ghost predicate Blocks(base: int, mem: Memory, freep: int, free: set<int>, live: map<int, int>) {
    if freep == 0 then free == {} && live == map[]
    else freep in free && ListOk(base, mem, free) && LiveOk(base, mem, free, live)
  }

  lemma FoundGap(base: int, mem: Memory, free: set<int>, live: map<int, int>, p: int, bp: int)
    requires ListOk(base, mem, free) && LiveOk(base, mem, free, live) && p in free && bp in live
    requires p < bp && (bp < mem[p].ptr || mem[p].ptr <= p)
    ensures Gap(base, mem, free, p, bp, live[bp]) && NextInOrder(base, free, p, mem[p].ptr)
    ensures Last(bp, live[bp]) == mem[p].ptr ==> p < mem[p].ptr
  {
    assert NextInOrder(base, free, p, mem[p].ptr);
    assert forall x :: x in free && bp < x ==> Last(bp, live[bp]) <= x;
    assert Last(bp, live[bp]) > base;
  }

  lemma PutKeepsList(base: int, mem: Memory, free: set<int>, p: int, bp: int, n: int, mem': Memory, free': set<int>)
    requires ListOk(base, mem, free) && Gap(base, mem, free, p, bp, n) && NextInOrder(base, free, p, mem[p].ptr)
    requires Last(bp, n) == mem[p].ptr ==> p < mem[p].ptr
    requires Put(mem, free, p, bp, mem[p].ptr, n, Last(p, mem[p].size) == bp, Last(bp, n) == mem[p].ptr, mem', free')
    ensures ListOk(base, mem', free') && p in free'
  {
    var q := mem[p].ptr;
    var low, high := Last(p, mem[p].size) == bp, Last(bp, n) == q;
    PutKeepsSizes(base, mem, free, p, bp, q, n, low, high, mem', free');
    forall a | a in free' ensures NextInOrder(base, free', a, mem'[a].ptr) {
      assert NextInOrder(base, free, q, mem[q].ptr);
      assert a in free ==> NextInOrder(base, free, a, mem[a].ptr);
      PutKeepsOrder(base, mem, free, p, bp, q, n, low, high, mem', free', a);
    }
  }

  lemma PutKeepsLive(base: int, mem: Memory, free: set<int>, live: map<int, int>, p: int, bp: int, n: int,
                     mem': Memory, free': set<int>)
    requires Sizes(base, mem, free) && LiveOk(base, mem, free, live) && bp in live && live[bp] == n
    requires Gap(base, mem, free, p, bp, n) && mem[p].ptr in free
    requires Put(mem, free, p, bp, mem[p].ptr, n, Last(p, mem[p].size) == bp, Last(bp, n) == mem[p].ptr, mem', free')
    ensures LiveOk(base, mem', free', live - {bp})
  {
    var q, live' := mem[p].ptr, live - {bp};
    var low, high := Last(p, mem[p].size) == bp, Last(bp, n) == q;
    forall a | a in live' ensures a in mem' && mem'[a] == mem[a] && a !in free' {
      assert a in live && a != bp && a !in free;
    }
    forall a, b | a in live' && b in free' && a < b ensures Last(a, live'[a]) <= b {
      assert a in live && (b in free || b == bp);
    }
    forall a, b | a in live' && b in free' && base < b < a ensures b in mem' && Last(b, mem'[b].size) <= a {
      PutClearOf(base, mem, free, live, p, bp, n, mem', free', a, b);
    }
  }

  /** A block of the new list ends below every live block above it. */
  lemma PutClearOf(base: int, mem: Memory, free: set<int>, live: map<int, int>, p: int, bp: int, n: int,
                   mem': Memory, free': set<int>, a: int, b: int)
    requires Sizes(base, mem, free) && LiveOk(base, mem, free, live) && bp in live && live[bp] == n
    requires Gap(base, mem, free, p, bp, n) && mem[p].ptr in free
    requires Put(mem, free, p, bp, mem[p].ptr, n, Last(p, mem[p].size) == bp, Last(bp, n) == mem[p].ptr, mem', free')
    requires a in live && a != bp && b in free' && base < b < a
    ensures b in mem' && Last(b, mem'[b].size) <= a
  {
    var q := mem[p].ptr;
    assert (a < bp || Last(bp, n) <= a) && a != q && a !in free;
    if b != p && b != bp {
      assert mem'[b] == mem[b];
    } else if Last(bp, n) == q {
      assert a > bp ==> Last(q, mem[q].size) <= a;
    }
  }

  /** A change of sizes only. */
  lemma SameLinks(base: int, mem: Memory, free: set<int>, mem': Memory)
    requires ListOk(base, mem, free) && Sizes(base, mem', free)
    requires forall a :: a in free ==> a in mem' && mem'[a].ptr == mem[a].ptr
    ensures ListOk(base, mem', free)
  {
    forall a | a in free ensures NextInOrder(base, free, a, mem'[a].ptr) {
      assert NextInOrder(base, free, a, mem[a].ptr);
    }
  }

  lemma UnlinkKeepsOrder(base: int, free: set<int>, prev: int, p: int, q: int, a: int, ptr: int)
    requires prev in free && p in free && base in free && p != base && a in free && a != p
    requires NextInOrder(base, free, prev, p) && NextInOrder(base, free, p, q)
    requires forall x :: x in free ==> base <= x
    requires NextInOrder(base, free, a, ptr)
    ensures prev != p
    ensures NextInOrder(base, free - {p}, a, if a == prev then q else ptr)
  {
    assert prev < p;
    assert a != prev ==> ptr != p;
  }

  /** Handing out a whole block: it leaves the list and nothing else moves. */
  lemma UnlinkKeepsList(base: int, mem: Memory, free: set<int>, prev: int, p: int, mem': Memory)
    requires ListOk(base, mem, free) && prev in free && p in free && p != base && mem[prev].ptr == p
    requires mem' == mem[prev := Header(mem[p].ptr, mem[prev].size)]
    ensures ListOk(base, mem', free - {p}) && prev in free - {p}
  {
    var free' := free - {p};
    UnlinkKeepsSizes(base, mem, free, prev, p, mem');
    forall a | a in free' ensures NextInOrder(base, free', a, mem'[a].ptr) {
      UnlinkOne(base, mem, free, prev, p, mem', a);
    }
    UnlinkOne(base, mem, free, prev, p, mem', base);
  }

  lemma UnlinkOne(base: int, mem: Memory, free: set<int>, prev: int, p: int, mem': Memory, a: int)
    requires ListOk(base, mem, free) && prev in free && p in free && p != base && mem[prev].ptr == p
    requires mem' == mem[prev := Header(mem[p].ptr, mem[prev].size)] && a in free && a != p
    ensures prev != p && NextInOrder(base, free - {p}, a, mem'[a].ptr)
  {
    LinkInOrder(base, mem, free, prev);
    LinkInOrder(base, mem, free, p);
    LinkInOrder(base, mem, free, a);
    UnlinkKeepsOrder(base, free, prev, p, mem[p].ptr, a, mem[a].ptr);
  }

  lemma UnlinkKeepsSizes(base: int, mem: Memory, free: set<int>, prev: int, p: int, mem': Memory)
    requires Sizes(base, mem, free) && prev in free && p in free && p != base
    requires mem' == mem[prev := Header(mem[p].ptr, mem[prev].size)]
    ensures Sizes(base, mem', free - {p})
  {
  }

  lemma ShrinkKeepsSizes(base: int, mem: Memory, free: set<int>, p: int, n: int, h: Header, mem': Memory)
    requires Sizes(base, mem, free) && p in free && p != base && 0 < n < mem[p].size
    requires mem' == mem[p := Header(mem[p].ptr, mem[p].size - n)][Last(p, mem[p].size - n) := h]
    ensures Last(p, mem[p].size - n) !in free && Sizes(base, mem', free)
  {
    forall a | a in free && p < a ensures Last(p, mem[p].size - n) < a {}
  }

  /** Handing out the upper end of a larger block. */
  lemma ShrinkKeepsList(base: int, mem: Memory, free: set<int>, p: int, n: int, h: Header, mem': Memory)
    requires ListOk(base, mem, free) && p in free && p != base && 0 < n < mem[p].size
    requires mem' == mem[p := Header(mem[p].ptr, mem[p].size - n)][Last(p, mem[p].size - n) := h]
    ensures ListOk(base, mem', free) && Last(p, mem[p].size - n) !in free
  {
    ShrinkKeepsSizes(base, mem, free, p, n, h, mem');
    SameLinks(base, mem, free, mem');
  }

  /** A block of `n` units at `a`, taken out of the free block `p`, is a new live block. */
  lemma CarveKeepsLive(base: int, mem: Memory, free: set<int>, live: map<int, int>, p: int, a: int, n: int,
                       mem': Memory, free': set<int>)
    requires Sizes(base, mem, free) && LiveOk(base, mem, free, live)
    requires p in free && base < p <= a && n > 0 && Last(a, n) == Last(p, mem[p].size) && a !in free'
    requires free' <= free && (p in free' ==> p < a)
    requires a in mem' && mem'[a].size == n
    requires forall c :: c in free' ==>
               c in mem' && mem'[c].size == if c == p
                   && c in mem then mem[p].size - n else if c in mem then mem[c].size else 0
    requires forall c :: c in live && c != a ==> c in mem' && mem'[c] == mem[c]
    ensures LiveOk(base, mem', free', live[a := n]) && a !in live
  {
    forall c | c in live ensures Last(c, live[c]) <= p || Last(p, mem[p].size) <= c {
    }
  }

  lemma CarveAccounts(base: int, mem: Memory, free: set<int>, live: map<int, int>, granted: iset<int>, p: int, a: int,
                      n: int,
                      mem': Memory, free': set<int>)
    requires Accounts(mem, free, live, granted) && p in free && p in mem && p <= a && a !in live
    requires n > 0 && Last(a, n) == Last(p, mem[p].size)
    requires forall c :: c in free && c != p ==> c in free'
    requires free' <= free && (p in free' ==> p < a)
    requires forall c :: c in free' && c in mem ==>
               c in mem' && mem'[c].size == if c == p then mem[p].size - n else mem[c].size
    requires forall c :: c in free' ==> c in mem
    requires p in free' || a == p
    ensures Accounts(mem', free', live[a := n], granted)
  {
    var live' := live[a := n];
    forall x ensures InLive(live', x) <==> InLive(live, x) || a <= x < Last(a, n) {
      if c :| c in live && c <= x < Last(c, live[c]) { assert c in live'; }
      if a <= x < Last(a, n) { assert a in live'; }
    }
    forall x ensures InFree(mem, free, x) <==> InFree(mem', free', x) || a <= x < Last(a, n) {
      if c :| c in free && c in mem && c <= x < Last(c, mem[c].size) {
        assert c == p || c in free';
      }
      if c :| c in free' && c in mem' && c <= x < Last(c, mem'[c].size) {
        assert c in free && c in mem;
      }
      if a <= x < Last(a, n) { assert p <= x < Last(p, mem[p].size); }
    }
  }

  ghost predicate Between(x: int, lo: int, hi: int) {
    lo <= x < hi
  }

  /** The bytes that one sbrk call gives. */
  ghost function Region(a: int, n: int): iset<int> {
    iset x | Between(x, a, Last(a, n))
  }

  /** Blocks end below the break, because their bytes have been given by sbrk. */
  lemma BlocksBelow(base: int, mem: Memory, free: set<int>, live: map<int, int>, granted: iset<int>, brk: int)
    requires Sizes(base, mem, free) && LiveOk(base, mem, free, live) && Accounts(mem, free, live, granted)
    requires (forall x :: x in granted ==> x < brk) && base + HEADER <= brk
    ensures forall a :: a in free ==> a < brk && Last(a, mem[a].size) <= brk
    ensures forall a :: a in live ==> Last(a, live[a]) <= brk
  {
    forall a | a in free ensures a < brk && Last(a, mem[a].size) <= brk {
      if a != base { assert InFree(mem, free, Last(a, mem[a].size) - 1); }
    }
    forall a | a in live ensures Last(a, live[a]) <= brk {
      assert InLive(live, Last(a, live[a]) - 1);
    }
  }

  lemma NewBlockOk(base: int, mem: Memory, free: set<int>, live: map<int, int>, brk: int, h: Header, mem': Memory)
    requires ListOk(base, mem, free) && LiveOk(base, mem, free, live) && base < brk && h.size > 0
    requires forall a :: a in free ==> a < brk && Last(a, mem[a].size) <= brk
    requires forall a :: a in live ==> Last(a, live[a]) <= brk
    requires mem' == mem[brk := h]
    ensures ListOk(base, mem', free) && LiveOk(base, mem', free, live[brk := h.size]) && brk !in live && brk !in free
  {
    assert Sizes(base, mem', free);
    SameLinks(base, mem, free, mem');
    NewBlockLive(base, mem, free, live, brk, h, mem');
  }

  lemma NewBlockLive(base: int, mem: Memory, free: set<int>, live: map<int, int>, brk: int, h: Header, mem': Memory)
    requires Sizes(base, mem, free) && LiveOk(base, mem, free, live) && base < brk && h.size > 0
    requires forall a :: a in free ==> a < brk && Last(a, mem[a].size) <= brk
    requires forall a :: a in live ==> Last(a, live[a]) <= brk
    requires mem' == mem[brk := h]
    ensures LiveOk(base, mem', free, live[brk := h.size]) && brk !in live && brk !in free
  {
    assert forall a :: a in live ==> a < brk;
  }

  lemma NewBlockAccounts(mem: Memory, free: set<int>, live: map<int, int>, granted: iset<int>, a: int, h: Header)
    requires Accounts(mem, free, live, granted) && a !in free && a !in live
    ensures Accounts(mem[a := h], free, live[a := h.size], granted + Region(a, h.size))
  {
    var mem', live' := mem[a := h], live[a := h.size];
    forall x ensures InFree(mem', free, x) <==> InFree(mem, free, x) {
      if c :| c in free && c in mem && c <= x < Last(c, mem[c].size) { assert c in mem'; }
      if c :| c in free && c in mem' && c <= x < Last(c, mem'[c].size) { assert c in mem; }
    }
    forall x ensures InLive(live', x) <==> InLive(live, x) || x in Region(a, h.size) {
      if c :| c in live && c <= x < Last(c, live[c]) { assert c in live'; }
      if x in Region(a, h.size) { assert a in live'; }
    }
  }

  /** A block moves between the list and the live blocks without gaining or losing a byte. */
  lemma MoveAccounts(mem: Memory, free: set<int>, live: map<int, int>, granted: iset<int>, mem': Memory,
                     free': set<int>, a: int, n: int)
    requires Accounts(mem, free, live, granted) && a in live && live[a] == n
    requires forall x :: InFree(mem', free', x) <==> InFree(mem, free, x) || a <= x < Last(a, n)
    requires forall c :: c in live && c != a ==> Last(c, live[c]) <= a || Last(a, n) <= c
    ensures Accounts(mem', free', live - {a}, granted)
  {
    forall x ensures InLive(live, x) <==> InLive(live - {a}, x) || a <= x < Last(a, n) {
      if c :| c in live && c <= x < Last(c, live[c]) {
        assert c == a || c in live - {a};
      }
      if c :| c in live - {a} && c <= x < Last(c, (live - {a})[c]) {
        assert c in live;
      }
      if a <= x < Last(a, n) { assert a in live; }
    }
  }

  /** A new block right at the break. */
  lemma ExtendOk(base: int, mem: Memory, freep: int, free: set<int>, live: map<int, int>, granted: iset<int>, brk: int,
                 h: Header)
    requires freep != 0 && Blocks(base, mem, freep, free, live) && Accounts(mem, free, live, granted)
    requires (forall x :: x in granted ==> x < brk) && base + HEADER <= brk && h.size > 0
    ensures Blocks(base, mem[brk := h], freep, free, live[brk := h.size]) && brk !in live
    ensures Accounts(mem[brk := h], free, live[brk := h.size], granted + Region(brk, h.size))
    ensures forall x :: x in granted + Region(brk, h.size) ==> x < Last(brk, h.size)
  {
    BlocksBelow(base, mem, free, live, granted, brk);
    NewBlockOk(base, mem, free, live, brk, h, mem[brk := h]);
    NewBlockAccounts(mem, free, live, granted, brk, h);
  }

  lemma AddRemove(live: map<int, int>, a: int, n: int)
    requires a !in live
    ensures live[a := n] - {a} == live
  {
  }

  ghost predicate NoneFits(mem: Memory, blocks: set<int>, nunits: int) {
    forall a :: a in blocks ==> a in mem && mem[a].size < nunits
  }

  ghost predicate SomeFits(mem: Memory, blocks: set<int>, nunits: int) {
    exists a :: a in blocks && a in mem && mem[a].size >= nunits
  }

  /** The whole effect of linking a live block back into the list. */
  lemma FreedOk(base: int, mem: Memory, free: set<int>, live: map<int, int>, granted: iset<int>, p: int, bp: int,
                mem': Memory, free': set<int>)
    requires ListOk(base, mem, free) && LiveOk(base, mem, free, live) && Accounts(mem, free, live, granted)
    requires bp in live && p in free && p < bp && (bp < mem[p].ptr || mem[p].ptr <= p) && mem[p].ptr in mem
    requires Put(mem, free, p, bp, mem[p].ptr, live[bp], Last(p, mem[p].size) == bp, Last(bp, live[bp]) == mem[p].ptr,
                 mem', free')
    ensures ListOk(base, mem', free') && p in free' && LiveOk(base, mem', free', live - {bp})
    ensures Accounts(mem', free', live - {bp}, granted)
    ensures forall x :: InFree(mem', free', x) <==> InFree(mem, free, x) || bp <= x < Last(bp, live[bp])
    ensures SomeFits(mem', free', live[bp])
  {
    var q, n := mem[p].ptr, live[bp];
    var low, high := Last(p, mem[p].size) == bp, Last(bp, n) == q;
    FoundGap(base, mem, free, live, p, bp);
    PutKeepsList(base, mem, free, p, bp, n, mem', free');
    PutKeepsLive(base, mem, free, live, p, bp, n, mem', free');
    forall x ensures InFree(mem', free', x) <==> InFree(mem, free, x) || bp <= x < Last(bp, n) {
      PutCovers(base, mem, free, p, bp, q, n, low, high, mem', free', x);
    }
    MoveAccounts(mem, free, live, granted, mem', free', bp, n);
    assert p in free && p in mem && mem[p].size >= 0;
    assert mem'[if low then p else bp].size >= n;
  }

  lemma FirstCall(base: int, mem: Memory, granted: iset<int>)
    requires base > 0 && base in mem && mem[base] == Header(base, 0) && Accounts(mem, {}, map[], granted)
    ensures Blocks(base, mem, base, {base}, map[]) && Accounts(mem, {base}, map[], granted)
  {
  }

  /** A scan from behind `f` has the whole list ahead of it. */
  lemma ScanStart(base: int, mem: Memory, free: set<int>, f: int, n: int)
    requires ListOk(base, mem, free) && f in free
    ensures mem[f].ptr in free && NoneFits(mem, free - Ahead(free, mem[f].ptr, f) - {mem[f].ptr}, n)
  {
    LinkInOrder(base, mem, free, f);
    WholeRound(base, free, f, mem[f].ptr);
  }

  /** The scan stands at `p`, whose predecessor is `prevp`; what it has passed does not fit. */
  ghost predicate Scanning(mem: Memory, free: set<int>, freep: int, prevp: int, p: int, nunits: int) {
    && prevp in free && p in free && prevp in mem && p in mem && mem[prevp].ptr == p
    && NoneFits(mem, free - Ahead(free, p, freep) - {p}, nunits)
  }

  /** A scan that has come around to `freep` has seen every block. */
  lemma ScanDone(mem: Memory, free: set<int>, freep: int, prevp: int, p: int, nunits: int)
    requires Scanning(mem, free, freep, prevp, p, nunits) && p == freep && mem[p].size < nunits
    ensures NoneFits(mem, free, nunits) && !SomeFits(mem, free, nunits)
  {
    assert Ahead(free, p, freep) == {};
  }

  lemma NoneInBase(base: int, mem: Memory, free: set<int>, mem': Memory, free': set<int>, nunits: int)
    requires 0 < nunits
    requires (free == {} && free' == {base} && base in mem' && mem'[base].size == 0) || (mem' == mem && free' == free)
    ensures NoneFits(mem', free', nunits) <==> NoneFits(mem, free, nunits)
  {
  }

  lemma ScanStep(base: int, mem: Memory, free: set<int>, p: int, f: int, n: int)
    requires ListOk(base, mem, free) && f in free && p in free && p != f && mem[p].size < n
    requires NoneFits(mem, free - Ahead(free, p, f) - {p}, n)
    ensures var q := mem[p].ptr;
            q in free && NoneFits(mem, free - Ahead(free, q, f) - {q}, n) && Ahead(free, q, f) < Ahead(free, p, f)
  {
    LinkInOrder(base, mem, free, p);
    StepCloser(base, free, p, mem[p].ptr, f);
  }

  lemma TakeWhole(base: int, mem: Memory, free: set<int>, live: map<int, int>, granted: iset<int>, prev: int, p: int,
                  mem': Memory)
    requires ListOk(base, mem, free) && LiveOk(base, mem, free, live) && Accounts(mem, free, live, granted)
    requires prev in free && p in free && p != base && mem[prev].ptr == p && base > 0
    requires mem' == mem[prev := Header(mem[p].ptr, mem[prev].size)]
    ensures Blocks(base, mem', prev, free - {p}, live[p := mem[p].size]) && p !in live
    ensures Accounts(mem', free - {p}, live[p := mem[p].size], granted)
  {
    UnlinkKeepsList(base, mem, free, prev, p, mem');
    CarveKeepsLive(base, mem, free, live, p, p, mem[p].size, mem', free - {p});
    CarveAccounts(base, mem, free, live, granted, p, p, mem[p].size, mem', free - {p});
  }

  lemma TakeTail(base: int, mem: Memory, free: set<int>, live: map<int, int>, granted: iset<int>, prev: int, p: int,
                 n: int,
                 h: Header, mem': Memory)
    requires ListOk(base, mem, free) && LiveOk(base, mem, free, live) && Accounts(mem, free, live, granted)
    requires prev in free && p in free && p != base && 0 < n < mem[p].size && h.size == n && base > 0
    requires mem' == mem[p := Header(mem[p].ptr, mem[p].size - n)][Last(p, mem[p].size - n) := h]
    ensures var tail := Last(p, mem[p].size - n);
            Blocks(base, mem', prev, free, live[tail := n]) && tail !in live
                && Accounts(mem', free, live[tail := n], granted)
  {
    var tail := Last(p, mem[p].size - n);
    ShrinkKeepsList(base, mem, free, p, n, h, mem');
    CarveKeepsLive(base, mem, free, live, p, tail, n, mem', free);
    CarveAccounts(base, mem, free, live, granted, p, tail, n, mem', free);
  }

  class Heap {
    const base: int                      // the address of the static header
    var mem: Memory
    var freep: int                       // 0 before the first malloc
    var brk: int                         // the end of the process image
    ghost var free: set<int>
    ghost var live: map<int, int>
    ghost var granted: iset<int>         // the bytes that sbrk has given to the allocator

    ghost predicate Valid()
      reads this
    {
      && 0 < base && base + HEADER <= brk
      && Blocks(base, mem, freep, free, live)
      && Accounts(mem, free, live, granted)
      && (forall x :: x in granted ==> x < brk)
    }

    constructor (base: int, brk: int)
      requires 0 < base && base + HEADER <= brk
      ensures Valid() && live == map[] && granted == iset{} && this.base == base && this.brk == brk
    {
      this.base, this.brk := base, brk;
      mem, freep := map[], 0;
      free, live, granted := {}, map[], iset{};
    }

    /** sbrk: moves the end of the image, or fails. */
    method Sbrk(bytes: int, fails: bool) returns (p: int)
      requires bytes >= 0
      modifies this`brk
      ensures fails ==> p == -1 && brk == old(brk)
      ensures !fails ==> p == old(brk) && brk == old(brk) + bytes
    {
      if fails {
        return -1;
      }
      p := brk;
      brk := brk + bytes;
    }

    /** Some other part of the program calls sbrk for itself. */
    method GrowElsewhere(bytes: int)
      requires Valid() && bytes >= 0
      modifies this`brk
      ensures Valid() && brk == old(brk) + bytes
    {
      var _ := Sbrk(bytes, false);
    }

    /** The search loop of `free`: the block of the list behind which the live block `bp` belongs. */
    method Locate(bp: int) returns (p: int)
      requires Valid() && bp in live
      ensures freep != 0 && p in free && mem[p].ptr in mem
      ensures p < bp && (bp < mem[p].ptr || mem[p].ptr <= p)
    {
      p := freep;
      while !(bp > p && bp < mem[p].ptr)
        invariant p in free
        decreases Ahead(free, p, bp)
      {
        LinkInOrder(base, mem, free, p);
        if p >= mem[p].ptr && (bp > p || bp < mem[p].ptr) {
          break;
        }
        StepCloser(base, free, p, mem[p].ptr, bp);
        p := mem[p].ptr;
      }
      LinkInOrder(base, mem, free, p);
    }

    /** free: exactly the bytes of the freed block join the list, whatever it is joined with. */
    method Free(ap: int)
      requires Valid() && ap - HEADER in live
      modifies this`mem, this`freep, this`free, this`live
      ensures Valid()
      ensures live == old(live) - {ap - HEADER}
      ensures forall x :: InFree(mem, free, x) <==>
                old(InFree(mem, free, x)) || ap - HEADER <= x < old(Last(ap - HEADER, live[ap - HEADER]))
      ensures freep != 0 && SomeFits(mem, free, old(live[ap - HEADER]))
    {
      var bp := ap - HEADER;
      var p := Locate(bp);
      ghost var mem0, free0, live0 := mem, free, live;
      Insert(p, bp);
      freep := p;
      live := live - {bp};
      FreedOk(base, mem0, free0, live0, granted, p, bp, mem, free);
    }

    /** Links the block `bp` behind `p`, and joins it with its neighbours if they touch. */
    method Insert(p: int, bp: int)
      requires p in mem && bp in mem && p != bp && mem[p].ptr in mem && mem[p].ptr != bp
      requires mem[bp].size > 0 && p < bp
      modifies this`mem, this`free
      ensures Put(old(mem), old(free), p, bp, old(mem[p].ptr), old(mem[bp].size),
                  old(Last(p, mem[p].size) == bp), old(Last(bp, mem[bp].size) == mem[p].ptr), mem, free)
    {
      ghost var q := mem[p].ptr;
      ghost var low, high := Last(p, mem[p].size) == bp, Last(bp, mem[bp].size) == q;
      if Last(bp, mem[bp].size) == mem[p].ptr {
        mem := mem[bp := Header(mem[mem[p].ptr].ptr, mem[bp].size + mem[mem[p].ptr].size)];
      } else {
        mem := mem[bp := Header(mem[p].ptr, mem[bp].size)];
      }
      if Last(p, mem[p].size) == bp {
        mem := mem[p := Header(mem[bp].ptr, mem[p].size + mem[bp].size)];
      } else {
        mem := mem[p := Header(bp, mem[p].size)];
      }
      free := (if high then free - {q} else free) + (if low then {} else {bp});
    }

    /** morecore: asks sbrk for at least MIN_UNITS and frees what it gets into the list. */
    method MoreCore(nu: int, fails: bool) returns (p: int)
      requires Valid() && freep != 0 && nu > 0
      modifies this
      ensures Valid() && live == old(live)
      ensures fails ==> p == 0 && granted == old(granted) && free == old(free) && mem == old(mem) && freep == old(freep)
      ensures !fails ==> p == freep != 0 && SomeFits(mem, free, nu)
      ensures !fails ==> granted == old(granted) + Region(old(brk), if nu < MIN_UNITS then MIN_UNITS else nu)
    {
      var n := if nu < MIN_UNITS then MIN_UNITS else nu;
      var at := Sbrk(n * HEADER, fails);
      if at == -1 {
        return 0;
      }
      Adopt(at, n);
      AddRemove(old(live), at, n);
      Free(at + HEADER);
      return freep;
    }

    /** The new memory from `at` on becomes one live block. */
    method Adopt(at: int, n: int)
      requires 0 < base && base + HEADER <= at && at + HEADER * n == brk && freep != 0 && n > 0
      requires Blocks(base, mem, freep, free, live) && Accounts(mem, free, live, granted)
      requires forall x :: x in granted ==> x < at
      modifies this`mem, this`live, this`granted
      ensures Valid() && at !in old(live) && live == old(live)[at := n] && granted == old(granted) + Region(at, n)
    {
      var h := Header(if at in mem then mem[at].ptr else 0, n);
      ExtendOk(base, mem, freep, free, live, granted, at, h);
      mem := mem[at := h];
      live := live[at := n];
      granted := granted + Region(at, n);
    }

    /** malloc: first fit behind the roving pointer. The loop ends: it goes around the list at most once
        before and once after the single call of morecore. */
    method Malloc(nbytes: int, fails: bool) returns (ap: int)
      requires Valid() && 0 <= nbytes && HEADER * Units(nbytes) < 0x8000_0000
      modifies this
      ensures Valid()
      ensures ap == 0 ==> fails && live == old(live) && granted == old(granted)
      ensures ap != 0 ==> ap - HEADER !in old(live) && live == old(live)[ap - HEADER := Units(nbytes)]
      ensures old(granted) <= granted
      ensures granted == old(granted) || NoneFits(old(mem), old(free), Units(nbytes))
    {
      var nunits := Units(nbytes);
      Start();
      NoneInBase(base, old(mem), old(free), mem, free, nunits);
      var prevp, p := Search(nunits, fails);
      if p == 0 { return 0; }
      ap := Take(prevp, p, nunits);
    }

    /** The loop of `malloc`: the first block that fits, and the block in front of it. */
    method Search(nunits: int, fails: bool) returns (prevp: int, p: int)
      requires Valid() && freep != 0 && nunits > 0
      modifies this
      ensures Valid() && live == old(live) && freep != 0
      ensures p == 0 ==> fails && granted == old(granted)
      ensures p != 0 ==> prevp in free && p in free && mem[prevp].ptr == p && mem[p].size >= nunits
      ensures old(granted) <= granted
      ensures granted == old(granted) || NoneFits(old(mem), old(free), nunits)
    {
      ghost var mem1, free1 := mem, free;
      prevp, p := freep, mem[freep].ptr;
      var grown := false;
      ScanStart(base, mem, free, freep, nunits);
      while true
        invariant Valid() && freep != 0 && live == old(live)
        invariant Scanning(mem, free, freep, prevp, p, nunits)
        invariant !grown ==> granted == old(granted) && free == free1 && mem == mem1
        invariant grown ==> old(granted) <= granted && SomeFits(mem, free, nunits) && NoneFits(mem1, free1, nunits)
        decreases !grown, Ahead(free, p, freep)
      {
        if mem[p].size >= nunits { return; }
        if p == freep {
          p := Refill(prevp, p, nunits, fails);
          if p == 0 { return; }
          grown := true;
        } else {
          ScanStep(base, mem, free, p, freep, nunits);
        }
        prevp, p := p, mem[p].ptr;
      }
    }

    /** The scan has come around: it starts again on more memory. */
    method Refill(prevp: int, p: int, nunits: int, fails: bool) returns (f: int)
      requires Valid() && freep != 0 && nunits > 0
      requires Scanning(mem, free, freep, prevp, p, nunits) && p == freep && mem[p].size < nunits
      modifies this
      ensures Valid() && live == old(live) && freep != 0
      ensures NoneFits(old(mem), old(free), nunits) && !SomeFits(old(mem), old(free), nunits)
      ensures f == 0 ==> fails && granted == old(granted)
      ensures f != 0 ==> old(granted) <= granted && SomeFits(mem, free, nunits)
      ensures f != 0 ==> f in mem && Scanning(mem, free, freep, f, mem[f].ptr, nunits)
    {
      ScanDone(mem, free, freep, prevp, p, nunits);
      f := MoreCore(nunits, fails);
      if f != 0 { ScanStart(base, mem, free, f, nunits); }
    }

    /** The first call makes a list of the empty block `base`. */
    method Start()
      requires Valid()
      modifies this`mem, this`freep, this`free
      ensures Valid() && freep != 0
      ensures if old(freep) == 0 then old(free) == {} && free == {base} && base in mem && mem[base].size == 0
              else mem == old(mem) && free == old(free) && freep == old(freep)
    {
      if freep == 0 {
        mem := mem[base := Header(base, 0)];
        freep := base;
        free := {base};
        FirstCall(base, mem, granted);
      }
    }

    /** The part of `malloc` that hands out (the upper end of) the block `start` behind `prevp`. */
    method Take(prevp: int, start: int, nunits: int) returns (ap: int)
      requires Valid() && freep != 0 && prevp in free && start in free && mem[prevp].ptr == start
      requires 0 < nunits <= mem[start].size
      modifies this`mem, this`freep, this`free, this`live
      ensures Valid() && freep == prevp
      ensures ap - HEADER !in old(live) && live == old(live)[ap - HEADER := nunits] && ap != 0
    {
      var p := start;
      if mem[p].size == nunits {
        TakeAll(prevp, p);
      } else {
        p := TakeEnd(prevp, p, nunits);
      }
      return p + HEADER;
    }

    /** The whole block `p` is handed out. */
    method TakeAll(prevp: int, p: int)
      requires Valid() && freep != 0 && prevp in free && p in free && mem[prevp].ptr == p && 0 < mem[p].size
      modifies this`mem, this`freep, this`free, this`live
      ensures Valid() && freep == prevp && p !in old(live) && live == old(live)[p := old(mem[p].size)] && p > 0
    {
      ghost var mem0 := mem;
      mem := mem[prevp := Header(mem[p].ptr, mem[prevp].size)];
      TakeWhole(base, mem0, free, live, granted, prevp, p, mem);
      live := live[p := mem0[p].size];
      free := free - {p};
      freep := prevp;
    }

    /** The upper end of the block `start` is handed out. */
    method TakeEnd(prevp: int, start: int, nunits: int) returns (p: int)
      requires Valid() && freep != 0 && prevp in free && start in free && 0 < nunits < mem[start].size
      modifies this`mem, this`freep, this`free, this`live
      ensures Valid() && freep == prevp && p !in old(live) && live == old(live)[p := nunits] && p > 0
    {
      ghost var mem0 := mem;
      mem := mem[start := Header(mem[start].ptr, mem[start].size - nunits)];
      p := start + HEADER * mem[start].size;
      mem := mem[p := Header(if p in mem then mem[p].ptr else 0, nunits)];
      TakeTail(base, mem0, free, live, granted, prevp, start, nunits, mem[p], mem);
      freep := prevp;
      live := live[p := nunits];
    }
  }
}
