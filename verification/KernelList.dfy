/** The intrusive circular lists of `kernel/src/mm/list.rs`.

    A node is two words of memory at the node's own address; a list is named by the address of its head
    node. `prev` and `next` are the memory, `lists` says which nodes are linked behind which head. */
module KernelList {
  /** `nodes` behind the head, and back to the head. */
  function Around(head: int, nodes: seq<int>): seq<int> {
    [head] + nodes + [head]
  }

  /** Positions i and i + 1 of `c` point at each other. */
  ghost predicate LinkAt(prev: map<int, int>, next: map<int, int>, c: seq<int>, i: int)
    requires 0 <= i < |c| - 1
  {
    c[i] in next && next[c[i]] == c[i + 1] && c[i + 1] in prev && prev[c[i + 1]] == c[i]
  }

  ghost predicate Circle(prev: map<int, int>, next: map<int, int>, head: int, nodes: seq<int>) {
    forall i :: 0 <= i < |nodes| + 1 ==> LinkAt(prev, next, Around(head, nodes), i)
  }

  /** No address is used twice, as a head or as a node. */
  ghost predicate Separate(lists: map<int, seq<int>>) {
    && (forall g, h, i :: g in lists && h in lists && 0 <= i < |lists[h]| ==> lists[h][i] != g)
    && (forall g, h, i, j ::
          g in lists && h in lists && 0 <= i < |lists[g]| && 0 <= j < |lists[h]| && lists[g][i] == lists[h][j]
          ==> g == h && i == j)
  }

  ghost predicate Unused(lists: map<int, seq<int>>, a: int) {
    a !in lists && forall h :: h in lists ==> a !in lists[h]
  }

  ghost predicate Distinct(head: int, nodes: seq<int>) {
    head !in nodes && forall i, j :: 0 <= i < j < |nodes| ==> nodes[i] != nodes[j]
  }

  lemma LinkCircle(prev: map<int, int>, next: map<int, int>, h: int, s: seq<int>, a: int,
                   prev': map<int, int>, next': map<int, int>)
    requires Circle(prev, next, h, s) && a != h && a !in s && Distinct(h, s) && h in next
    requires prev' == prev[a := h][next[h] := a] && next' == next[a := next[h]][h := a]
    ensures Circle(prev', next', h, [a] + s)
  {
    var c, d := Around(h, s), Around(h, [a] + s);
    assert LinkAt(prev, next, c, 0);
    assert d == [h, a] + c[1..];
    forall i | 0 <= i < |s| + 2 ensures LinkAt(prev', next', d, i) {
      if i >= 2 { assert LinkAt(prev, next, c, i - 1); }
    }
  }

  lemma UnlinkCircle(prev: map<int, int>, next: map<int, int>, h: int, s: seq<int>, m: int,
                     prev': map<int, int>, next': map<int, int>)
    requires Circle(prev, next, h, s) && 0 <= m < |s| && Distinct(h, s) && s[m] in prev && s[m] in next
    requires next' == next[prev[s[m]] := next[s[m]]] && prev' == prev[next[s[m]] := prev[s[m]]]
    ensures Circle(prev', next', h, s[..m] + s[m + 1..])
  {
    var c, d := Around(h, s), Around(h, s[..m] + s[m + 1..]);
    assert d == c[..m + 1] + c[m + 2..];
    assert c[m + 1] == s[m] && LinkAt(prev, next, c, m) && LinkAt(prev, next, c, m + 1);
    forall i | 0 <= i < |s| ensures LinkAt(prev', next', d, i) {
      assert LinkAt(prev, next, c, if i <= m then i else i + 1);
    }
  }

  /** A change of links that belong to other circles. */
  lemma OtherCircle(prev: map<int, int>, next: map<int, int>, h: int, s: seq<int>, prev': map<int, int>,
                    next': map<int, int>)
    requires Circle(prev, next, h, s)
    requires forall a :: (a == h || a in s) && a in next ==> a in next' && next'[a] == next[a]
    requires forall a :: (a == h || a in s) && a in prev ==> a in prev' && prev'[a] == prev[a]
    ensures Circle(prev', next', h, s)
  {
    var c := Around(h, s);
    forall i | 0 <= i < |s| + 1 ensures LinkAt(prev', next', c, i) {
      assert LinkAt(prev, next, c, i);
      assert c[i] == h || c[i] in s;
      assert c[i + 1] == h || c[i + 1] in s;
    }
  }

  ghost predicate HeapOk(prev: map<int, int>, next: map<int, int>, lists: map<int, seq<int>>) {
    Separate(lists) && forall h :: h in lists ==> Circle(prev, next, h, lists[h])
  }

  lemma EndsOf(prev: map<int, int>, next: map<int, int>, h: int, s: seq<int>)
    requires Circle(prev, next, h, s)
    ensures h in next && h in prev && next[h] == (if s == [] then h else s[0])
    ensures forall m :: 0 <= m < |s| ==> s[m] in prev && s[m] in next
    ensures forall m :: 0 <= m < |s| ==> (prev[s[m]] == h || prev[s[m]] in s) && (next[s[m]] == h || next[s[m]] in s)
  {
    var c := Around(h, s);
    assert LinkAt(prev, next, c, 0) && LinkAt(prev, next, c, |s|);
    forall m | 0 <= m < |s|
      ensures s[m] in prev && s[m] in next
      ensures (prev[s[m]] == h || prev[s[m]] in s) && (next[s[m]] == h || next[s[m]] in s)
    {
      assert LinkAt(prev, next, c, m) && LinkAt(prev, next, c, m + 1);
      assert c[m + 1] == s[m] && (c[m] == h || c[m] in s) && (c[m + 2] == h || c[m + 2] in s);
    }
  }

  lemma PushOk(prev: map<int, int>, next: map<int, int>, lists: map<int, seq<int>>, h: int, a: int,
               prev': map<int, int>, next': map<int, int>)
    requires HeapOk(prev, next, lists) && h in lists && Unused(lists, a) && h in next
    requires prev' == prev[a := h][next[h] := a] && next' == next[a := next[h]][h := a]
    ensures HeapOk(prev', next', lists[h := [a] + lists[h]])
  {
    var s := lists[h];
    var lists' := lists[h := [a] + s];
    EndsOf(prev, next, h, s);
    LinkCircle(prev, next, h, s, a, prev', next');
    forall g | g in lists && g != h ensures Circle(prev', next', g, lists'[g]) {
      OtherCircle(prev, next, g, lists[g], prev', next');
    }
    SeparatePush(lists, h, a);
  }

  lemma SeparatePush(lists: map<int, seq<int>>, h: int, a: int)
    requires Separate(lists) && h in lists && Unused(lists, a)
    ensures Separate(lists[h := [a] + lists[h]])
  {
  }

  lemma SeparateRemove(lists: map<int, seq<int>>, h: int, m: int)
    requires Separate(lists) && h in lists && 0 <= m < |lists[h]|
    ensures Separate(lists[h := lists[h][..m] + lists[h][m + 1..]])
  {
  }

  lemma RemoveOk(prev: map<int, int>, next: map<int, int>, lists: map<int, seq<int>>, h: int, m: int,
                 prev': map<int, int>, next': map<int, int>)
    requires HeapOk(prev, next, lists) && h in lists && 0 <= m < |lists[h]|
    requires lists[h][m] in prev && lists[h][m] in next
    requires next' == next[prev[lists[h][m]] := next[lists[h][m]]]
             && prev' == prev[next[lists[h][m]] := prev[lists[h][m]]]
    ensures HeapOk(prev', next', lists[h := lists[h][..m] + lists[h][m + 1..]])
  {
    var s := lists[h];
    var lists' := lists[h := s[..m] + s[m + 1..]];
    EndsOf(prev, next, h, s);
    UnlinkCircle(prev, next, h, s, m, prev', next');
    forall g | g in lists && g != h ensures Circle(prev', next', g, lists'[g]) {
      OtherCircle(prev, next, g, lists[g], prev', next');
    }
    SeparateRemove(lists, h, m);
  }

  class ListHeap {
    var prev: map<int, int>
    var next: map<int, int>
    ghost var lists: map<int, seq<int>>

    ghost predicate Valid()
      reads this
    {
      HeapOk(prev, next, lists)
    }

    constructor ()
      ensures Valid() && lists == map[]
    {
      prev, next, lists := map[], map[], map[];
    }

    /** `init`: an empty list is a node linked to itself. */
    method Init(head: int)
      requires Valid() && Unused(lists, head)
      modifies this
      ensures Valid() && lists == old(lists)[head := []]
    {
      prev := prev[head := head];
      next := next[head := head];
      lists := lists[head := []];
      assert LinkAt(prev, next, Around(head, []), 0);
      forall g | g in old(lists) ensures Circle(prev, next, g, lists[g]) {
        OtherCircle(old(prev), old(next), g, lists[g], prev, next);
      }
    }

    method IsEmpty(head: int) returns (r: bool)
      requires Valid() && head in lists
      ensures r <==> lists[head] == []
    {
      EndsOf(prev, next, head, lists[head]);
      r := next[head] == head;
    }

    method Push(head: int, addr: int)
      requires Valid() && head in lists && Unused(lists, addr)
      modifies this
      ensures Valid() && lists == old(lists)[head := [addr] + old(lists[head])]
    {
      EndsOf(prev, next, head, lists[head]);
      PushOk(prev, next, lists, head, addr, prev[addr := head][next[head] := addr],
             next[addr := next[head]][head := addr]);
      prev := prev[addr := head];
      next := next[addr := next[head]];
      prev := prev[next[head] := addr];
      next := next[head := addr];
      lists := lists[head := [addr] + lists[head]];
    }

    /** `remove`, called on a node; `head` and `m` say where it is linked. */
    method Remove(node: int, ghost head: int, ghost m: int)
      requires Valid() && head in lists && 0 <= m < |lists[head]| && lists[head][m] == node
      modifies this
      ensures Valid() && lists == old(lists)[head := old(lists[head])[..m] + old(lists[head])[m + 1..]]
    {
      EndsOf(prev, next, head, lists[head]);
      RemoveOk(prev, next, lists, head, m, prev[next[node] := prev[node]], next[prev[node] := next[node]]);
      var before := prev[node];
      next := next[before := next[node]];
      prev := prev[next[node] := prev[node]];
      lists := lists[head := lists[head][..m] + lists[head][m + 1..]];
    }

    method Pop(head: int) returns (addr: int)
      requires Valid() && head in lists && lists[head] != []
      modifies this
      ensures Valid() && addr == old(lists[head])[0] && lists == old(lists)[head := old(lists[head])[1..]]
    {
      EndsOf(prev, next, head, lists[head]);
      addr := next[head];
      Remove(addr, head, 0);
      assert old(lists[head])[..0] + old(lists[head])[1..] == old(lists[head])[1..];
    }
  }
}
