/** `kernel/src/fs/bio.rs`: the LRU list of buffers and the buffer cache built on it. */
module Bcache {
  import opened LogSpec
  import opened BlockCache

  /** A pointer to an element of the buffer array. */
  datatype Ptr = Null | At(i: nat)

  datatype BufCtrl = BufCtrl(dev: nat, blockno: nat, prev: Ptr, next: Ptr, refcnt: nat, index: nat)

  // ----- The list as a sequence

  /** `order` lists all buffers once, from the front; `pos` says where each of them is. */
  ghost predicate IsOrder(order: seq<nat>, pos: seq<nat>, n: nat) {
    && |order| == |pos| == n
    && (forall k :: 0 <= k < n ==> order[k] < n && pos[order[k]] == k)
    && forall i :: 0 <= i < n ==> pos[i] < n && order[pos[i]] == i
  }

  function PrevOf(order: seq<nat>, k: nat): Ptr
    requires k < |order|
  {
    if k == 0 then Null else At(order[k - 1])
  }

  function NextOf(order: seq<nat>, k: nat): Ptr
    requires k < |order|
  {
    if k + 1 == |order| then Null else At(order[k + 1])
  }

  ghost predicate Linked(inner: seq<BufCtrl>, order: seq<nat>, k: nat)
    requires k < |order| && order[k] < |inner|
  {
    inner[order[k]].prev == PrevOf(order, k) && inner[order[k]].next == NextOf(order, k)
  }

  ghost predicate ListOk(inner: seq<BufCtrl>, head: nat, tail: nat, order: seq<nat>, pos: seq<nat>) {
    && |inner| > 0 && IsOrder(order, pos, |inner|)
    && head == order[0] && tail == order[|inner| - 1]
    && (forall k {:trigger Linked(inner, order, k)} :: 0 <= k < |order| ==> Linked(inner, order, k))
    && forall i :: 0 <= i < |inner| ==> inner[i].index == i
  }

  /** The list with the element at `k` moved to the front. */
  function ToFront(order: seq<nat>, k: nat): seq<nat>
    requires k < |order|
  {
    [order[k]] + order[..k] + order[k + 1..]
  }

  function FrontPos(pos: seq<nat>, i: nat): seq<nat>
    requires i < |pos|
  {
    seq(|pos|, x requires 0 <= x < |pos| => if x == i then 0 else if pos[x] < pos[i] then pos[x] + 1 else pos[x])
  }

  lemma ToFrontIsOrder(order: seq<nat>, pos: seq<nat>, n: nat, i: nat)
    requires IsOrder(order, pos, n) && i < n
    ensures IsOrder(ToFront(order, pos[i]), FrontPos(pos, i), n)
  {
    var o, p := ToFront(order, pos[i]), FrontPos(pos, i);
    forall k | 0 <= k < n ensures o[k] < n && p[o[k]] == k {
      if 0 < k <= pos[i] { assert o[k] == order[k - 1]; }
    }
  }

  /** Sorted by the time of the last release, the latest first. */
  ghost predicate Sorted(order: seq<nat>, released: seq<nat>) {
    && |released| == |order|
    && (forall k :: 0 <= k < |order| ==> order[k] < |released|)
    && forall k, l :: 0 <= k < l < |order| ==> released[order[k]] >= released[order[l]]
  }

  lemma ToFrontIsSorted(order: seq<nat>, pos: seq<nat>, released: seq<nat>, i: nat, now: nat)
    requires IsOrder(order, pos, |order|) && Sorted(order, released) && i < |order|
    requires forall j :: 0 <= j < |released| ==> released[j] < now
    ensures Sorted(ToFront(order, pos[i]), released[i := now])
  {
    var o, r := ToFront(order, pos[i]), released[i := now];
    forall k, l | 0 <= k < l < |o| ensures r[o[k]] >= r[o[l]] {
      var k', l' := if k <= pos[i] then k - 1 else k, if l <= pos[i] then l - 1 else l;
      assert o[l] == order[l'] && pos[o[l]] == l';
      if k > 0 { assert o[k] == order[k'] && pos[o[k]] == k'; }
    }
  }

  ghost predicate StampsOk(order: seq<nat>, released: seq<nat>, now: nat) {
    Sorted(order, released) && forall i :: 0 <= i < |released| ==> released[i] <= now
  }

  // ----- Keys

  /** No two buffers are for the same block; buffers not used yet have device 0. */
  ghost predicate Unique(inner: seq<BufCtrl>) {
    && (forall i :: 0 <= i < |inner| && inner[i].refcnt > 0 ==> inner[i].dev != 0)
    && forall i, j :: 0 <= i < j < |inner| && inner[i].dev != 0 ==>
         inner[i].dev != inner[j].dev || inner[i].blockno != inner[j].blockno
  }

  ghost predicate LruOk(inner: seq<BufCtrl>, head: nat, tail: nat, order: seq<nat>, pos: seq<nat>, released: seq<nat>,
                        now: nat) {
    |inner| == NBUF && ListOk(inner, head, tail, order, pos) && Unique(inner) && StampsOk(order, released, now)
  }

  predicate IsFor(b: BufCtrl, dev: nat, blockno: nat) {
    b.dev == dev && b.blockno == blockno
  }

  /** Nothing happens through a null pointer. */
  function SetPrev(inner: seq<BufCtrl>, p: Ptr, v: Ptr): (r: seq<BufCtrl>)
    ensures |r| == |inner|
  {
    if p.At? && p.i < |inner| then inner[p.i := inner[p.i].(prev := v)] else inner
  }

  function SetNext(inner: seq<BufCtrl>, p: Ptr, v: Ptr): (r: seq<BufCtrl>)
    ensures |r| == |inner|
  {
    if p.At? && p.i < |inner| then inner[p.i := inner[p.i].(next := v)] else inner
  }

  class BufLru {
    var inner: seq<BufCtrl>
    var head: nat
    var tail: nat
    ghost var order: seq<nat>
    ghost var pos: seq<nat>
    /** When the references of each buffer last fell to zero; 0 if they never did. */
    ghost var released: seq<nat>
    ghost var now: nat

    ghost predicate Valid()
      reads this
    {
      LruOk(inner, head, tail, order, pos, released, now)
    }

    /** `binit`: all buffers unused, in the order of the array. */
    constructor ()
      ensures Valid() && fresh(this)
      ensures forall i :: 0 <= i < NBUF ==> inner[i].dev == 0 && inner[i].refcnt == 0
    {
      inner := seq(NBUF, i requires 0 <= i < NBUF =>
        BufCtrl(0, 0, if i == 0 then Null else At(i - 1), if i == NBUF - 1 then Null else At(i + 1), 0, i));
      head, tail := 0, NBUF - 1;
      order, pos := seq(NBUF, i => i), seq(NBUF, i => i);
      released, now := seq(NBUF, i => 0), 0;
      new;
      forall k | 0 <= k < NBUF ensures Linked(inner, order, k) {}
    }

    method FindCached(dev: nat, blockno: nat) returns (r: Ptr)
      requires Valid() && dev != 0
      modifies `inner
      ensures Valid()
      ensures r.Null? <==> forall i :: 0 <= i < NBUF ==> !IsFor(old(inner)[i], dev, blockno)
      ensures r.Null? ==> inner == old(inner)
      ensures r.At? ==> r.i < NBUF && IsFor(old(inner)[r.i], dev, blockno)
      ensures r.At? ==> inner == old(inner)[r.i := old(inner)[r.i].(refcnt := old(inner)[r.i].refcnt + 1)]
    {
      r := FindFor(dev, blockno);
      if r.At? {
        inner := inner[r.i := inner[r.i].(refcnt := inner[r.i].refcnt + 1)];
        SameLinks(old(inner), inner, head, tail, order, pos);
        r := At(inner[r.i].index);
      }
    }

    /** The search of `FindCached`, from the head. */
    method FindFor(dev: nat, blockno: nat) returns (r: Ptr)
      requires Valid()
      ensures r.Null? <==> forall i :: 0 <= i < NBUF ==> !IsFor(inner[i], dev, blockno)
      ensures r.At? ==> r.i < NBUF && IsFor(inner[r.i], dev, blockno)
    {
      r := At(head);
      ghost var k := 0;
      while r.At?
        invariant 0 <= k <= NBUF && (r == if k == NBUF then Null else At(order[k]))
        invariant forall l :: 0 <= l < k ==> !IsFor(inner[order[l]], dev, blockno)
        decreases NBUF - k
      {
        if IsFor(inner[r.i], dev, blockno) { return; }
        assert Linked(inner, order, k);
        r := inner[r.i].next;
        k := k + 1;
      }
      forall i | 0 <= i < NBUF ensures !IsFor(inner[i], dev, blockno) { assert i == order[pos[i]]; }
    }

    /** One more reference, taken by a pin. */
    method AddRef(i: nat)
      requires Valid() && i < NBUF && inner[i].refcnt > 0
      modifies `inner
      ensures Valid() && inner == old(inner)[i := old(inner)[i].(refcnt := old(inner)[i].refcnt + 1)]
    {
      inner := inner[i := inner[i].(refcnt := inner[i].refcnt + 1)];
      SameLinks(old(inner), inner, head, tail, order, pos);
    }

    /** The reference of a pin; the caller has another one. */
    method DropRef(i: nat)
      requires Valid() && i < NBUF && inner[i].refcnt > 1
      modifies `inner
      ensures Valid() && inner == old(inner)[i := old(inner)[i].(refcnt := old(inner)[i].refcnt - 1)]
    {
      inner := inner[i := inner[i].(refcnt := inner[i].refcnt - 1)];
      SameLinks(old(inner), inner, head, tail, order, pos);
    }

    /** Takes the buffer without references that was released longest ago. */
    method Recycle(dev: nat, blockno: nat) returns (r: Ptr)
      requires Valid() && dev != 0 && forall i :: 0 <= i < NBUF ==> !IsFor(inner[i], dev, blockno)
      modifies `inner
      ensures Valid()
      ensures r.Null? <==> forall i :: 0 <= i < NBUF ==> old(inner)[i].refcnt > 0
      ensures r.Null? ==> inner == old(inner)
      ensures r.At? ==> r.i < NBUF && old(inner)[r.i].refcnt == 0
      ensures r.At? ==> forall j :: 0 <= j < NBUF && old(inner)[j].refcnt == 0 ==> released[r.i] <= released[j]
      ensures r.At? ==> inner == old(inner)[r.i := old(inner)[r.i].(dev := dev, blockno := blockno, refcnt := 1)]
    {
      r := LastUnused();
      if r.At? {
        inner := inner[r.i := inner[r.i].(dev := dev, blockno := blockno, refcnt := inner[r.i].refcnt + 1)];
        SameLinks(old(inner), inner, head, tail, order, pos);
        r := At(inner[r.i].index);
      }
    }

    /** The search of `Recycle`, from the tail. */
    method LastUnused() returns (r: Ptr)
      requires Valid()
      ensures r.Null? <==> forall i :: 0 <= i < NBUF ==> inner[i].refcnt > 0
      ensures r.At? ==> r.i < NBUF && inner[r.i].refcnt == 0
      ensures r.At? ==> forall j :: 0 <= j < NBUF && inner[j].refcnt == 0 ==> released[r.i] <= released[j]
    {
      r := At(tail);
      ghost var k := NBUF - 1;
      while r.At?
        invariant -1 <= k < NBUF && (r == if k == -1 then Null else At(order[k]))
        invariant forall l :: k < l < NBUF ==> inner[order[l]].refcnt > 0
        decreases k + 1
      {
        if inner[r.i].refcnt == 0 {
          forall j | 0 <= j < NBUF && inner[j].refcnt == 0 ensures released[r.i] <= released[j] {
            assert j == order[pos[j]];
          }
          return;
        }
        assert Linked(inner, order, k);
        r := inner[r.i].prev;
        k := k - 1;
      }
      forall i | 0 <= i < NBUF ensures inner[i].refcnt > 0 { assert i == order[pos[i]]; }
    }

    /** Drops a reference; a buffer that has none left moves to the front. */
    method MoveIfNoRef(i: nat)
      requires Valid() && i < NBUF && inner[i].refcnt > 0
      modifies this
      ensures Valid()
      ensures SameSlots(old(inner)[i := old(inner)[i].(refcnt := old(inner)[i].refcnt - 1)], inner)
      ensures inner[i].refcnt == 0 ==> now == old(now) + 1 && released == old(released)[i := now]
                                       && order == ToFront(old(order), old(pos)[i])
      ensures inner[i].refcnt > 0 ==> released == old(released) && order == old(order)
    {
      inner := inner[i := inner[i].(refcnt := inner[i].refcnt - 1)];
      SameLinks(old(inner), inner, head, tail, order, pos);
      if inner[i].refcnt == 0 { MoveToFront(i); }
    }

    method MoveToFront(i: nat)
      requires Valid() && i < NBUF
      modifies this
      ensures Valid() && SameSlots(old(inner), inner)
      ensures now == old(now) + 1 && released == old(released)[i := now] && order == ToFront(old(order), old(pos)[i])
    {
      ReleaseOk(inner, head, tail, order, pos, released, now, i);
      if head != i { Relink(i); }
      order, pos, released, now := ToFront(order, pos[i]), FrontPos(pos, i), released[i := now + 1], now + 1;
    }

    /** Takes buffer `i` out of its place and puts it first. */
    method Relink(i: nat)
      requires ListOk(inner, head, tail, order, pos) && i < |inner| && head != i
      modifies `inner, `head, `tail
      ensures inner == Moved(old(inner), order, pos[i])
      ensures head == i && tail == NewTail(old(tail), order, pos[i])
    {
      assert Linked(inner, order, pos[i]);
      var b := inner[i];
      if tail == i && b.prev.At? { tail := b.prev.i; }
      inner := SetPrev(inner, b.next, b.prev);
      inner := SetNext(inner, b.prev, b.next);
      inner := inner[i := inner[i].(prev := Null, next := At(head))];
      inner := SetPrev(inner, At(head), At(i));
      head := i;
    }
  }

  /** All fields but the links agree. */
  ghost predicate SameSlots(inner: seq<BufCtrl>, inner': seq<BufCtrl>) {
    |inner'| == |inner| && forall i :: 0 <= i < |inner| ==>
      inner'[i] == inner[i].(prev := inner'[i].prev, next := inner'[i].next)
  }

  lemma SameLinks(inner: seq<BufCtrl>, inner': seq<BufCtrl>, head: nat, tail: nat, order: seq<nat>, pos: seq<nat>)
    requires ListOk(inner, head, tail, order, pos) && |inner'| == |inner|
    requires forall i :: 0 <= i < |inner| ==>
               inner'[i].prev == inner[i].prev && inner'[i].next == inner[i].next && inner'[i].index == inner[i].index
    ensures ListOk(inner', head, tail, order, pos)
  {
    forall k | 0 <= k < |order| ensures Linked(inner', order, k) { assert Linked(inner, order, k); }
  }

  /** The links that `MoveIfNoRef` rewrites: those of the neighbours of the element at `k`, of the head, and its own. */
  ghost function Moved(inner: seq<BufCtrl>, order: seq<nat>, k: nat): (r: seq<BufCtrl>)
    requires k < |order| && forall l :: 0 <= l < |order| ==> order[l] < |inner|
    ensures |r| == |inner|
  {
    if k == 0 then inner
    else
      var i := order[k];
      var a := SetNext(SetPrev(inner, NextOf(order, k), PrevOf(order, k)), PrevOf(order, k), NextOf(order, k));
      SetPrev(a[i := a[i].(prev := Null, next := At(order[0]))], At(order[0]), At(i))
  }

  function NewTail(tail: nat, order: seq<nat>, k: nat): nat
    requires k < |order|
  {
    if 0 < k == |order| - 1 then order[k - 1] else tail
  }

  /** Only the links differ. */
  lemma MovedKeeps(inner: seq<BufCtrl>, order: seq<nat>, k: nat)
    requires k < |order| && forall l :: 0 <= l < |order| ==> order[l] < |inner|
    ensures SameSlots(inner, Moved(inner, order, k))
  {
  }

  lemma MovedLinks(inner: seq<BufCtrl>, order: seq<nat>, pos: seq<nat>, k: nat, x: nat)
    requires IsOrder(order, pos, |inner|) && 0 < k < |inner| && x < |inner|
    ensures Moved(inner, order, k)[x].prev ==
              if x == order[k] then Null else if x == order[0] then At(order[k])
              else if pos[x] == k + 1 then At(order[k - 1]) else inner[x].prev
    ensures Moved(inner, order, k)[x].next ==
              if x == order[k] then At(order[0]) else if pos[x] == k - 1 then NextOf(order, k) else inner[x].next
  {
  }

  /** Where the element at `l` of the new order was before. */
  function Before(k: nat, l: nat): nat {
    if l == 0 then k else if l <= k then l - 1 else l
  }

  lemma ToFrontAt(order: seq<nat>, k: nat, l: nat)
    requires k < |order| && l < |order|
    ensures ToFront(order, k)[l] == order[Before(k, l)]
  {
  }

  lemma PrevInFront(order: seq<nat>, k: nat, l: nat)
    requires 0 < k < |order| && l < |order|
    ensures PrevOf(ToFront(order, k), l)
            == if l == 0 then Null else if l == 1 then At(order[k]) else if l == k + 1 then At(order[k - 1])
               else PrevOf(order, Before(k, l))
  {
    if l > 0 { ToFrontAt(order, k, l - 1); }
  }

  lemma NextInFront(order: seq<nat>, k: nat, l: nat)
    requires 0 < k < |order| && l < |order|
    ensures NextOf(ToFront(order, k), l)
            == if l == 0 then At(order[0]) else if l == k then NextOf(order, k) else NextOf(order, Before(k, l))
  {
    if l + 1 < |order| { ToFrontAt(order, k, l + 1); }
  }

  lemma MovedIsLinked(inner: seq<BufCtrl>, order: seq<nat>, pos: seq<nat>, k: nat, l: nat)
    requires IsOrder(order, pos, |inner|) && 0 < k < |inner| && l < |inner|
    requires Linked(inner, order, Before(k, l))
    ensures ToFront(order, k)[l] < |inner| && Linked(Moved(inner, order, k), ToFront(order, k), l)
  {
    var x := order[Before(k, l)];
    ToFrontAt(order, k, l);
    PrevInFront(order, k, l);
    NextInFront(order, k, l);
    MovedLinks(inner, order, pos, k, x);
    assert pos[x] == Before(k, l) && (x == order[k] <==> l == 0) && (x == order[0] <==> l == 1);
  }

  lemma MovedIsList(inner: seq<BufCtrl>, head: nat, tail: nat, order: seq<nat>, pos: seq<nat>, i: nat)
    requires ListOk(inner, head, tail, order, pos) && i < |inner|
    ensures ListOk(Moved(inner, order, pos[i]), i, NewTail(tail, order, pos[i]), ToFront(order, pos[i]),
                   FrontPos(pos, i))
    ensures SameSlots(inner, Moved(inner, order, pos[i]))
  {
    var k := pos[i];
    MovedKeeps(inner, order, k);
    ToFrontIsOrder(order, pos, |inner|, i);
    if k == 0 {
      StaysFirst(order, pos, |inner|);
    } else {
      forall l | 0 <= l < |inner| ensures Linked(Moved(inner, order, k), ToFront(order, k), l) {
        assert Linked(inner, order, Before(k, l));
        MovedIsLinked(inner, order, pos, k, l);
      }
    }
  }

  /** The list, the keys and the time stamps when buffer `i` has been released. */
  lemma ReleaseOk(inner: seq<BufCtrl>, head: nat, tail: nat, order: seq<nat>, pos: seq<nat>, released: seq<nat>,
                  now: nat, i: nat)
    requires LruOk(inner, head, tail, order, pos, released, now) && i < |inner|
    ensures LruOk(Moved(inner, order, pos[i]), i, NewTail(tail, order, pos[i]), ToFront(order, pos[i]),
                  FrontPos(pos, i),
                  released[i := now + 1], now + 1)
    ensures SameSlots(inner, Moved(inner, order, pos[i]))
    ensures head == i <==> pos[i] == 0
  {
    MovedIsList(inner, head, tail, order, pos, i);
    ToFrontIsSorted(order, pos, released, i, now + 1);
  }

  lemma StaysFirst(order: seq<nat>, pos: seq<nat>, n: nat)
    requires n > 0 && IsOrder(order, pos, n)
    ensures ToFront(order, 0) == order && FrontPos(pos, order[0]) == pos
  {
    assert ToFront(order, 0) == order;
    assert forall x :: 0 <= x < n && x != order[0] ==> order[pos[x]] == x && pos[x] != 0;
  }

  // ----- The cache as its users see it

  /** Buffer `i` holds block `blockno` of the device once it has been fetched; without references it holds what the
    * disk holds. */
  ghost predicate SlotOk(dev: nat, b: BufCtrl, valid: bool, data: Block, disk: Disk, held: Held) {
    && (b.dev != 0 ==> b.dev == dev && b.blockno < |disk|)
    && (b.refcnt > 0 ==> valid && b.blockno in held && held[b.blockno] == Slot(data, b.refcnt))
    && (b.refcnt == 0 && b.dev != 0 && valid ==> data == disk[b.blockno])
  }

  ghost predicate Backed(inner: seq<BufCtrl>, b: nat) {
    exists i :: 0 <= i < |inner| && inner[i].refcnt > 0 && inner[i].blockno == b
  }

  ghost predicate CacheOk(dev: nat, inner: seq<BufCtrl>, valid: seq<bool>, data: seq<Block>, disk: Disk, held: Held) {
    && |valid| == |data| == |inner|
    && (forall i :: 0 <= i < |inner| ==> SlotOk(dev, inner[i], valid[i], data[i], disk, held))
    && forall b :: b in held ==> Backed(inner, b)
  }

  /** The blocks of the referenced buffers among the first `n`. */
  ghost function RefBlocks(inner: seq<BufCtrl>, n: nat): set<nat>
    requires n <= |inner|
  {
    if n == 0 then {}
    else RefBlocks(inner, n - 1) + if inner[n - 1].refcnt > 0 then {inner[n - 1].blockno} else {}
  }

  lemma {:induction false} RefBlocksHas(inner: seq<BufCtrl>, n: nat, b: nat)
    requires n <= |inner|
    ensures b in RefBlocks(inner, n) <==> exists i :: 0 <= i < n && inner[i].refcnt > 0 && inner[i].blockno == b
  {
    if n > 0 { RefBlocksHas(inner, n - 1, b); }
  }

  lemma {:induction false} RefBlocksSize(dev: nat, inner: seq<BufCtrl>, n: nat)
    requires n <= |inner| && Unique(inner) && forall i :: 0 <= i < |inner| && inner[i].dev != 0 ==> inner[i].dev == dev
    ensures |RefBlocks(inner, n)| <= n
    ensures |RefBlocks(inner, n)| == n <==> forall i :: 0 <= i < n ==> inner[i].refcnt > 0
  {
    if n > 0 {
      RefBlocksSize(dev, inner, n - 1);
      RefBlocksHas(inner, n - 1, inner[n - 1].blockno);
    }
  }

  /** All buffers are referenced exactly if as many blocks are held. */
  lemma HeldSize(dev: nat, inner: seq<BufCtrl>, valid: seq<bool>, data: seq<Block>, disk: Disk, held: Held)
    requires CacheOk(dev, inner, valid, data, disk, held) && Unique(inner)
    ensures |held| <= |inner|
    ensures |held| == |inner| <==> forall i :: 0 <= i < |inner| ==> inner[i].refcnt > 0
  {
    var n := |inner|;
    forall i | 0 <= i < n && inner[i].dev != 0 ensures inner[i].dev == dev {
      assert SlotOk(dev, inner[i], valid[i], data[i], disk, held);
    }
    RefBlocksSize(dev, inner, n);
    forall b ensures b in RefBlocks(inner, n) <==> b in held {
      RefBlocksHas(inner, n, b);
      if b in held { assert Backed(inner, b); }
      if b in RefBlocks(inner, n) {
        var i :| 0 <= i < n && inner[i].refcnt > 0 && inner[i].blockno == b;
        assert SlotOk(dev, inner[i], valid[i], data[i], disk, held);
      }
    }
    assert held.Keys == RefBlocks(inner, n);
  }

  /** A slot of the cache: its control block, whether it is valid, and its data. */
  datatype Buffer = Buffer(ctrl: BufCtrl, valid: bool, data: Block)

  /** One slot changes, and only what is held of its block. */
  lemma SetSlot(dev: nat, inner: seq<BufCtrl>, valid: seq<bool>, data: seq<Block>, disk: Disk, held: Held,
                i: nat, buf: Buffer, disk': Disk, held': Held)
    requires var b := buf.ctrl;
             && CacheOk(dev, inner, valid, data, disk, held) && i < |inner| && Unique(inner[i := b])
             && b.dev == dev != 0 && b.blockno < |disk| == |disk'|
             && SlotOk(dev, b, buf.valid, buf.data, disk', held')
    requires var b := buf.ctrl;
             && (inner[i].refcnt > 0 ==> inner[i].blockno == b.blockno)
             && (forall c :: 0 <= c < |disk| && c != b.blockno ==> disk'[c] == disk[c])
             && held' - {b.blockno} == held - {b.blockno} && (b.blockno in held' <==> b.refcnt > 0)
    ensures CacheOk(dev, inner[i := buf.ctrl], valid[i := buf.valid], data[i := buf.data], disk', held')
  {
    var b, v, x := buf.ctrl, buf.valid, buf.data;
    var inner' := inner[i := b];
    forall j | 0 <= j < |inner| ensures SlotOk(dev, inner'[j], valid[i := v][j], data[i := x][j], disk', held') {
      assert SlotOk(dev, inner[j], valid[j], data[j], disk, held);
      if j != i {
        assert inner'[j].dev != 0 ==> inner'[j].blockno != inner'[i].blockno;
        assert inner[j].blockno != b.blockno ==>
                 (inner[j].blockno in held' <==> inner[j].blockno in held' - {b.blockno});
      }
    }
    forall c | c in held' ensures Backed(inner', c) {
      if c == b.blockno {
        assert inner'[i].refcnt > 0;
      } else {
        assert c in held' - {b.blockno};
        assert Backed(inner, c);
        var j :| 0 <= j < |inner| && inner[j].refcnt > 0 && inner[j].blockno == c;
        assert inner'[j] == inner[j];
      }
    }
  }

  /** `bget` found a buffer for block `b`, or took over one that nobody used. */
  ghost predicate Found(inner: seq<BufCtrl>, dev: nat, b: nat, i: nat, inner': seq<BufCtrl>) {
    i < |inner| && IsFor(inner[i], dev, b) && inner' == inner[i := inner[i].(refcnt := inner[i].refcnt + 1)]
  }

  ghost predicate TookOver(inner: seq<BufCtrl>, dev: nat, b: nat, i: nat, inner': seq<BufCtrl>) {
    && i < |inner| && inner[i].refcnt == 0 && inner' == inner[i := inner[i].(dev := dev, blockno := b, refcnt := 1)]
    && forall j :: 0 <= j < |inner| ==> !IsFor(inner[j], dev, b)
  }

  lemma HeldHasSlot(dev: nat, inner: seq<BufCtrl>, valid: seq<bool>, data: seq<Block>, disk: Disk, held: Held, b: nat)
    requires CacheOk(dev, inner, valid, data, disk, held) && Unique(inner) && b in held
    ensures exists i :: 0 <= i < |inner| && IsFor(inner[i], dev, b)
  {
    assert Backed(inner, b);
    var i :| 0 <= i < |inner| && inner[i].refcnt > 0 && inner[i].blockno == b;
    assert SlotOk(dev, inner[i], valid[i], data[i], disk, held);
    assert IsFor(inner[i], dev, b);
  }

  /** A buffer found in the cache is the held one, or has no references and then holds what the disk holds. */
  lemma FoundHeld(dev: nat, inner: seq<BufCtrl>, valid: seq<bool>, data: seq<Block>, disk: Disk, held: Held, b: nat,
                  i: nat)
    requires CacheOk(dev, inner, valid, data, disk, held) && Unique(inner) && dev != 0
    requires i < |inner| && IsFor(inner[i], dev, b)
    ensures b < |disk| && (b in held <==> inner[i].refcnt > 0)
    ensures valid[i] ==> data[i] == View(held, disk, b)
  {
    assert SlotOk(dev, inner[i], valid[i], data[i], disk, held);
    if b in held {
      assert Backed(inner, b);
      var j :| 0 <= j < |inner| && inner[j].refcnt > 0 && inner[j].blockno == b;
      assert SlotOk(dev, inner[j], valid[j], data[j], disk, held);
      assert j == i;
    }
  }

  lemma AllTaken(dev: nat, inner: seq<BufCtrl>, valid: seq<bool>, data: seq<Block>, disk: Disk, held: Held, b: nat)
    requires CacheOk(dev, inner, valid, data, disk, held) && Unique(inner) && |inner| == NBUF
    requires forall j :: 0 <= j < |inner| ==> inner[j].refcnt > 0 && !IsFor(inner[j], dev, b)
    ensures !CanGet(held, b)
  {
    HeldSize(dev, inner, valid, data, disk, held);
    if b in held { HeldHasSlot(dev, inner, valid, data, disk, held, b); }
  }

  lemma FoundReads(dev: nat, inner: seq<BufCtrl>, valid: seq<bool>, data: seq<Block>, disk: Disk, held: Held, b: nat,
                   i: nat, inner': seq<BufCtrl>)
    requires CacheOk(dev, inner, valid, data, disk, held) && Unique(inner) && Unique(inner') && |inner| == NBUF
             && dev != 0
    requires Found(inner, dev, b, i, inner')
    ensures b < |disk| && CanGet(held, b)
    ensures CacheOk(dev, inner', valid[i := true], data[i := if valid[i] then data[i] else disk[b]], disk,
                    Get(held, disk, b))
  {
    HeldSize(dev, inner, valid, data, disk, held);
    FoundHeld(dev, inner, valid, data, disk, held, b, i);
    var x := if valid[i] then data[i] else disk[b];
    assert SlotOk(dev, inner[i], valid[i], data[i], disk, held);
    SetSlot(dev, inner, valid, data, disk, held, i, Buffer(inner'[i], true, x), disk, Get(held, disk, b));
  }

  lemma TookOverReads(dev: nat, inner: seq<BufCtrl>, valid: seq<bool>, data: seq<Block>, disk: Disk, held: Held,
                      b: nat, i: nat, inner': seq<BufCtrl>)
    requires CacheOk(dev, inner, valid, data, disk, held) && Unique(inner) && Unique(inner') && |inner| == NBUF
             && dev != 0
    requires TookOver(inner, dev, b, i, inner') && b < |disk|
    ensures CanGet(held, b)
    ensures CacheOk(dev, inner', valid[i := true], data[i := disk[b]], disk, Get(held, disk, b))
  {
    HeldSize(dev, inner, valid, data, disk, held);
    if b in held { HeldHasSlot(dev, inner, valid, data, disk, held, b); }
    SetSlot(dev, inner, valid, data, disk, held, i, Buffer(inner'[i], true, disk[b]), disk, Get(held, disk, b));
  }

  /** What `Bread` leaves, depending on what `Bget` has found. */
  lemma ReadOk(dev: nat, inner: seq<BufCtrl>, valid: seq<bool>, data: seq<Block>, disk: Disk, held: Held, b: nat,
               r: Ptr,
               inner': seq<BufCtrl>, valid': seq<bool>)
    requires CacheOk(dev, inner, valid, data, disk, held) && Unique(inner) && Unique(inner') && |inner| == NBUF
             && dev != 0 && b < |disk|
    requires r.Null? ==> forall j :: 0 <= j < |inner| ==> inner[j].refcnt > 0 && !IsFor(inner[j], dev, b)
    requires r.At? ==> || (Found(inner, dev, b, r.i, inner') && valid' == valid)
                       || (TookOver(inner, dev, b, r.i, inner') && valid' == valid[r.i := false])
    ensures r.At? <==> CanGet(held, b)
    ensures r.At? && valid'[r.i] ==> CacheOk(dev, inner', valid', data, disk, Get(held, disk, b))
    ensures r.At? && !valid'[r.i] ==>
              CacheOk(dev, inner', valid'[r.i := true], data[r.i := disk[b]], disk, Get(held, disk, b))
  {
    if r.Null? {
      AllTaken(dev, inner, valid, data, disk, held, b);
    } else if TookOver(inner, dev, b, r.i, inner') {
      TookOverReads(dev, inner, valid, data, disk, held, b, r.i, inner');
      assert valid'[r.i := true] == valid[r.i := true];
    } else {
      FoundReads(dev, inner, valid, data, disk, held, b, r.i, inner');
      assert valid[r.i] ==> valid[r.i := true] == valid && data[r.i := data[r.i]] == data;
    }
  }

  /** The references of buffer `i` change, and its last one goes only when the disk holds what it holds. */
  lemma SetRefs(dev: nat, inner: seq<BufCtrl>, valid: seq<bool>, data: seq<Block>, disk: Disk, held: Held, i: nat,
                n: nat,
                inner': seq<BufCtrl>)
    requires CacheOk(dev, inner, valid, data, disk, held) && Unique(inner) && dev != 0 && i < |inner|
             && inner[i].refcnt > 0
    requires SameSlots(inner[i := inner[i].(refcnt := n)], inner') && (n == 0 ==> data[i] == disk[inner[i].blockno])
    ensures inner[i].blockno in held && held[inner[i].blockno] == Slot(data[i], inner[i].refcnt)
    ensures var b := inner[i].blockno;
            CacheOk(dev, inner', valid, data, disk, if n == 0 then held - {b} else held[b := Slot(data[i], n)])
  {
    var b := inner[i].(refcnt := n);
    assert SlotOk(dev, inner[i], valid[i], data[i], disk, held);
    var held' := if n == 0 then held - {b.blockno} else held[b.blockno := Slot(data[i], n)];
    SetSlot(dev, inner, valid, data, disk, held, i, Buffer(b, valid[i], data[i]), disk, held');
    assert valid[i := valid[i]] == valid && data[i := data[i]] == data;
    LinksDoNotMatter(dev, inner[i := b], inner', valid, data, disk, held');
  }

  class Bcache {
    const dev: nat
    const lru: BufLru
    var valid: seq<bool>
    var data: seq<Block>
    var disk: Disk
    /** The abstract cache of module BlockCache. */
    ghost var held: Held

    ghost predicate Valid()
      reads this, lru
    {
      lru.Valid() && dev != 0 && CacheOk(dev, lru.inner, valid, data, disk, held)
    }

    constructor (dev: nat, disk: Disk)
      requires dev != 0
      ensures Valid() && held == map[] && this.disk == disk && this.dev == dev && fresh(lru)
    {
      this.dev, this.disk := dev, disk;
      lru := new BufLru();
      valid := seq(NBUF, i => false);
      data := seq(NBUF, i => Data(seq(BSIZE, j => 0)));
      held := map[];
    }

    /** Null stands for the panic "no usable buffer". */
    method Bget(b: nat) returns (r: Ptr)
      requires Valid() && b < |disk|
      modifies lru`inner, this`valid
      ensures lru.Valid() && (r.At? ==> r.i < NBUF)
      ensures r.Null? ==> lru.inner == old(lru.inner) && valid == old(valid)
      ensures r.Null? <==>
                forall i :: 0 <= i < NBUF ==> old(lru.inner)[i].refcnt > 0 && !IsFor(old(lru.inner)[i], dev, b)
      ensures r.At? ==> || (Found(old(lru.inner), dev, b, r.i, lru.inner) && valid == old(valid))
                        || (TookOver(old(lru.inner), dev, b, r.i, lru.inner) && valid == old(valid)[r.i := false])
      ensures r.At? && !IsFor(old(lru.inner)[r.i], dev, b) ==>
                forall j :: 0 <= j < NBUF && old(lru.inner)[j].refcnt == 0 ==> lru.released[r.i] <= lru.released[j]
    {
      r := lru.FindCached(dev, b);
      if r.Null? {
        r := lru.Recycle(dev, b);
        if r.At? { valid := valid[r.i := false]; }
      }
    }

    /** Fails exactly when all buffers are referenced and none of them is for block `b`. */
    method Bread(b: nat) returns (r: Ptr)
      requires Valid() && b < |disk|
      modifies lru`inner, this`valid, this`data, this`held
      ensures Valid()
      ensures r.At? <==> CanGet(old(held), b)
      ensures r.Null? ==> held == old(held)
      ensures r.At? ==> r.i < NBUF && IsFor(lru.inner[r.i], dev, b) && held == Get(old(held), disk, b)
    {
      ghost var inner, valid0 := lru.inner, valid;
      r := Bget(b);
      ReadOk(dev, inner, valid0, data, disk, held, b, r, lru.inner, valid);
      if r.At? {
        if !valid[r.i] {
          data := data[r.i := disk[b]];
          valid := valid[r.i := true];
        }
        held := Get(held, disk, b);
      }
    }

    /** Writes buffer `i` to the disk. */
    method Bwrite(i: nat)
      requires Valid() && i < NBUF && lru.inner[i].refcnt > 0
      modifies `disk
      ensures Valid() && lru.inner[i].blockno in held
      ensures disk == old(disk)[lru.inner[i].blockno := held[lru.inner[i].blockno].data]
    {
      var b := lru.inner[i];
      assert SlotOk(dev, b, valid[i], data[i], disk, held);
      SetSlot(dev, lru.inner, valid, data, disk, held, i, Buffer(b, valid[i], data[i]),
              disk[b.blockno := data[i]], held);
      assert lru.inner[i := b] == lru.inner && valid[i := valid[i]] == valid && data[i := data[i]] == data;
      disk := disk[b.blockno := data[i]];
    }

    /** The holder of buffer `i` changes its contents. */
    method SetBuf(i: nat, x: Block)
      requires Valid() && i < NBUF && lru.inner[i].refcnt > 0
      modifies `data, `held
      ensures Valid() && lru.inner[i].blockno in old(held) && held == SetData(old(held), lru.inner[i].blockno, x)
    {
      var b := lru.inner[i];
      assert SlotOk(dev, b, valid[i], data[i], disk, held);
      SetSlot(dev, lru.inner, valid, data, disk, held, i, Buffer(b, valid[i], x), disk,
              SetData(held, b.blockno, x));
      assert lru.inner[i := b] == lru.inner && valid[i := valid[i]] == valid;
      data := data[i := x];
      held := SetData(held, b.blockno, x);
    }

    /** `brelse`. A buffer may lose its last reference only when the disk holds what it holds. */
    method Brelse(i: nat)
      requires Valid() && i < NBUF && lru.inner[i].refcnt > 0
      requires lru.inner[i].refcnt == 1 ==> data[i] == disk[lru.inner[i].blockno]
      modifies lru, `held
      ensures Valid() && old(lru.inner)[i].blockno in old(held) && held == Drop(old(held), old(lru.inner)[i].blockno)
    {
      ghost var inner := lru.inner;
      lru.MoveIfNoRef(i);
      SetRefs(dev, inner, valid, data, disk, held, i, inner[i].refcnt - 1, lru.inner);
      held := Drop(held, inner[i].blockno);
    }

    method Pin(i: nat)
      requires Valid() && i < NBUF && lru.inner[i].refcnt > 0
      modifies lru`inner, `held
      ensures Valid() && lru.inner[i].blockno in old(held) && held == BlockCache.Pin(old(held), lru.inner[i].blockno)
    {
      ghost var inner := lru.inner;
      lru.AddRef(i);
      SetRefs(dev, inner, valid, data, disk, held, i, inner[i].refcnt + 1, lru.inner);
      held := BlockCache.Pin(held, inner[i].blockno);
    }

    /** Panics when the handle of the caller is the only reference. */
    method Unpin(i: nat) returns (panicked: bool)
      requires Valid() && i < NBUF && lru.inner[i].refcnt > 0
      modifies lru`inner, `held
      ensures Valid() && panicked == (old(lru.inner)[i].refcnt <= 1)
      ensures panicked ==> held == old(held) && lru.inner == old(lru.inner)
      ensures !panicked ==> lru.inner[i].blockno in old(held) && held == Drop(old(held), lru.inner[i].blockno)
    {
      if lru.inner[i].refcnt <= 1 { return true; }
      panicked := false;
      ghost var inner := lru.inner;
      lru.DropRef(i);
      SetRefs(dev, inner, valid, data, disk, held, i, inner[i].refcnt - 1, lru.inner);
      held := Drop(held, inner[i].blockno);
    }
  }

  lemma LinksDoNotMatter(dev: nat, inner: seq<BufCtrl>, inner': seq<BufCtrl>, valid: seq<bool>, data: seq<Block>,
                         disk: Disk, held: Held)
    requires CacheOk(dev, inner, valid, data, disk, held) && SameSlots(inner, inner')
    ensures CacheOk(dev, inner', valid, data, disk, held)
  {
    forall i | 0 <= i < |inner| ensures SlotOk(dev, inner'[i], valid[i], data[i], disk, held) {
      assert SlotOk(dev, inner[i], valid[i], data[i], disk, held);
    }
    forall b | b in held ensures Backed(inner', b) {
      assert Backed(inner, b);
      var i :| 0 <= i < |inner| && inner[i].refcnt > 0 && inner[i].blockno == b;
      assert inner'[i].refcnt > 0;
    }
  }
}
