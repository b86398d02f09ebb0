/**
 The intrusive double-linked list of hev-list.c.
 */
module List {
  import opened RBUnlink

  class ListNode<T> {
    var next: ListNode?<T>
    var prev: ListNode?<T>
    const entry: T

    constructor (entry: T)
      ensures this.entry == entry
    {
      this.entry := entry;
      next, prev := null, null;
    }
  }

  /** The link fields of one node, and a snapshot of a list header with those of a set of nodes. */
  datatype Links<T> = Links(next: ListNode?<T>, prev: ListNode?<T>)

  datatype Chain<T> = Chain(head: ListNode?<T>, tail: ListNode?<T>, s: map<ListNode<T>, Links<T>>) {
    function SetNext(n: ListNode<T>, c: ListNode?<T>): Chain<T>
      requires n in s
    {
      this.(s := s[n := s[n].(next := c)])
    }

    function SetPrev(n: ListNode<T>, c: ListNode?<T>): Chain<T>
      requires n in s
    {
      this.(s := s[n := s[n].(prev := c)])
    }
  }

  ghost function SetOf<A>(s: seq<A>): set<A> { set x | x in s }

  ghost predicate NoDup<A>(s: seq<A>) { forall i, j :: 0 <= i < j < |s| ==> s[i] != s[j] }

  /** Both directions of links spell out `q`. */
  ghost predicate Spells<T>(m: Chain<T>, q: seq<ListNode<T>>) {
    && NoDup(q)
    && m.head == (if q == [] then null else q[0])
    && m.tail == (if q == [] then null else q[|q| - 1])
    && (forall i :: 0 <= i < |q| ==> q[i] in m.s)
    && (forall i :: 0 <= i < |q| ==> m.s[q[i]] == Links(NextIn(q, i), PrevIn(q, i)))
  }

  ghost function NextIn<T>(q: seq<ListNode<T>>, i: nat): ListNode?<T>
    requires i < |q|
  {
    if i + 1 < |q| then q[i + 1] else null
  }

  ghost function PrevIn<T>(q: seq<ListNode<T>>, i: nat): ListNode?<T>
    requires i < |q|
  {
    if i > 0 then q[i - 1] else null
  }

  function WithTail<T>(m: Chain<T>, node: ListNode<T>): Chain<T>
    requires node in m.s && (m.tail == null || m.tail in m.s)
  {
    var m1 := m.SetPrev(node, m.tail).SetNext(node, null);
    var m2 := if m1.tail != null then m1.SetNext(m1.tail, node) else m1.(head := node);
    m2.(tail := node)
  }

  lemma AddTailSpells<T>(m: Chain<T>, q: seq<ListNode<T>>, node: ListNode<T>)
    requires Spells(m, q) && node in m.s && node !in q
    ensures m.tail == null || m.tail in m.s
    ensures Spells(WithTail(m, node), q + [node])
  {
    assert q != [] ==> m.tail == q[|q| - 1] && q[|q| - 1] in m.s;
    var q', m' := q + [node], WithTail(m, node);
    forall i | 0 <= i < |q'| ensures q'[i] in m'.s && m'.s[q'[i]] == Links(NextIn(q', i), PrevIn(q', i)) {
      if i < |q| {
        assert q'[i] == q[i] && q[i] != node && m.s[q[i]] == Links(NextIn(q, i), PrevIn(q, i));
        if i + 1 < |q| { assert q'[i + 1] == q[i + 1] && q[i] != m.tail; }
        if i > 0 { assert q'[i - 1] == q[i - 1]; }
      }
    }
  }

  function Cut<T>(m: Chain<T>, node: ListNode<T>): Chain<T>
    requires node in m.s && (m.s[node].prev == null || m.s[node].prev in m.s)
      && (m.s[node].next == null || m.s[node].next in m.s)
  {
    var m1 := if m.s[node].prev != null then m.SetNext(m.s[node].prev, m.s[node].next) else m.(head := m.s[node].next);
    if m1.s[node].next != null then m1.SetPrev(m1.s[node].next, m1.s[node].prev) else m1.(tail := m1.s[node].prev)
  }

  lemma DelSpells<T>(m: Chain<T>, q: seq<ListNode<T>>, k: nat)
    requires Spells(m, q) && k < |q|
    ensures var node := q[k];
      (m.s[node].prev == null || m.s[node].prev in m.s) && (m.s[node].next == null || m.s[node].next in m.s)
    ensures m.s[q[k]].prev != q[k] && m.s[q[k]].next != q[k] && NoDup(q)
    ensures Spells(Cut(m, q[k]), q[..k] + q[k + 1..])
  {
    CutWrites(m, q, k);
    CutNoDup(q, k);
    var q', m' := q[..k] + q[k + 1..], Cut(m, q[k]);
    hide Cut, NextIn, PrevIn, NoDup;
    forall i | 0 <= i < |q'| ensures q'[i] in m'.s && m'.s[q'[i]] == Links(NextIn(q', i), PrevIn(q', i)) {
      CutLinks(q, k, i);
    }
    CutEnds(q, k);
  }

  lemma CutLinks<T>(q: seq<ListNode<T>>, k: nat, i: nat)
    requires k < |q| && i + 1 < |q|
    ensures var q', j := q[..k] + q[k + 1..], if i < k then i else i + 1;
      && |q'| == |q| - 1 && q'[i] == q[j]
      && NextIn(q', i) == (if j + 1 == k then NextIn(q, k) else NextIn(q, j))
      && PrevIn(q', i) == (if j == k + 1 then PrevIn(q, k) else PrevIn(q, j))
  {
  }

  lemma CutEnds<T>(q: seq<ListNode<T>>, k: nat)
    requires k < |q|
    ensures var q' := q[..k] + q[k + 1..];
      && (if q' == [] then null else q'[0]) == (if k == 0 then NextIn(q, 0) else q[0])
      && (if q' == [] then null else q'[|q'| - 1]) == (if k + 1 == |q| then PrevIn(q, k) else q[|q| - 1])
  {
  }

  lemma CutNoDup<A>(q: seq<A>, k: nat)
    requires NoDup(q) && k < |q|
    ensures NoDup(q[..k] + q[k + 1..])
  {
    var q' := q[..k] + q[k + 1..];
    forall i, j | 0 <= i < j < |q'| ensures q'[i] != q'[j] {
      assert q'[i] == q[if i < k then i else i + 1] && q'[j] == q[if j < k then j else j + 1];
    }
  }

  lemma CutWrites<T>(m: Chain<T>, q: seq<ListNode<T>>, k: nat)
    requires Spells(m, q) && k < |q|
    ensures (m.s[q[k]].prev == null || m.s[q[k]].prev in m.s) && (m.s[q[k]].next == null || m.s[q[k]].next in m.s)
    ensures m.s[q[k]].prev != q[k] && m.s[q[k]].next != q[k]
    ensures var m' := Cut(m, q[k]);
      && m'.s.Keys == m.s.Keys
      && m'.head == (if k == 0 then NextIn(q, 0) else q[0])
      && m'.tail == (if k + 1 == |q| then PrevIn(q, k) else q[|q| - 1])
      && forall j :: 0 <= j < |q| && j != k ==>
        m'.s[q[j]] == Links(if j + 1 == k then NextIn(q, k) else NextIn(q, j), if j == k + 1 then PrevIn(q, k)
                            else PrevIn(q, j))
  {
    var node := q[k];
    assert m.s[node] == Links(NextIn(q, k), PrevIn(q, k));
    assert (k > 0 ==> q[k - 1] in m.s) && (k + 1 < |q| ==> q[k + 1] in m.s);
    var m' := Cut(m, node);
    forall j | 0 <= j < |q| && j != k
      ensures m'.s[q[j]] == Links(if j + 1 == k then NextIn(q, k) else NextIn(q, j), if j == k + 1 then PrevIn(q, k)
                                  else PrevIn(q, j))
    {
      assert q[j] != node && m.s[q[j]] == Links(NextIn(q, j), PrevIn(q, j));
      assert k > 0 && j + 1 != k ==> q[j] != q[k - 1];
      assert k + 1 < |q| && j != k + 1 ==> q[j] != q[k + 1];
    }
  }

  class List<T> {
    var head: ListNode?<T>
    var tail: ListNode?<T>
    ghost var nodes: seq<ListNode<T>>

    /** The snapshot of the header and of the link fields of `ns`. */
    ghost function C(ns: set<ListNode<T>>): Chain<T>
      reads this`head, this`tail, ns
    {
      Chain(head, tail, map n | n in ns :: Links(n.next, n.prev))
    }

    ghost predicate Valid()
      reads this, nodes
    {
      Spells(C(SetOf(nodes)), nodes)
    }

    constructor ()
      ensures Valid() && nodes == []
    {
      head, tail, nodes := null, null, [];
    }

    method SetNext(n: ListNode<T>, c: ListNode?<T>, ghost ns: set<ListNode<T>>)
      requires n in ns
      modifies n`next
      ensures C(ns) == old(C(ns)).SetNext(n, c)
    {
      n.next := c;
    }

    method SetPrev(n: ListNode<T>, c: ListNode?<T>, ghost ns: set<ListNode<T>>)
      requires n in ns
      modifies n`prev
      ensures C(ns) == old(C(ns)).SetPrev(n, c)
    {
      n.prev := c;
    }

    method SetHead(n: ListNode?<T>, ghost ns: set<ListNode<T>>)
      modifies `head
      ensures C(ns) == old(C(ns)).(head := n)
    {
      head := n;
    }

    method SetTail(n: ListNode?<T>, ghost ns: set<ListNode<T>>)
      modifies `tail
      ensures C(ns) == old(C(ns)).(tail := n)
    {
      tail := n;
    }

    /** The pointer writes of hev_list_add_tail. */
    method LinkTail(node: ListNode<T>, ghost ns: set<ListNode<T>>)
      requires node in ns && (tail == null || tail in ns)
      modifies `head, `tail, ns
      ensures C(ns) == WithTail(old(C(ns)), node)
    {
      SetPrev(node, tail, ns);
      SetNext(node, null, ns);
      if tail != null {
        SetNext(tail, node, ns);
      } else {
        SetHead(node, ns);
      }
      SetTail(node, ns);
    }

    /** The pointer writes of hev_list_del. */
    method UnlinkNode(node: ListNode<T>, ghost ns: set<ListNode<T>>)
      requires node in ns && (node.prev == null || node.prev in ns) && (node.next == null || node.next in ns)
      requires node.prev != node && node.next != node
      modifies `head, `tail, ns
      ensures C(ns) == Cut(old(C(ns)), node)
    {
      if node.prev != null {
        SetNext(node.prev, node.next, ns);
      } else {
        SetHead(node.next, ns);
      }
      if node.next != null {
        SetPrev(node.next, node.prev, ns);
      } else {
        SetTail(node.prev, ns);
      }
    }

    /** hev_list_first. */
    method First() returns (node: ListNode?<T>)
      requires Valid()
      ensures Valid() && node == (if nodes == [] then null else nodes[0]) && NoDup(nodes)
    {
      node := head;
    }

    method AddTail(node: ListNode<T>)
      requires Valid() && node !in nodes
      modifies this, nodes, node
      ensures Valid() && nodes == old(nodes) + [node]
    {
      hide Spells, WithTail;
      ghost var ns := SetOf(nodes) + {node};
      SpellsGrow(C(SetOf(nodes)), C(ns), nodes);
      AddTailSpells(C(ns), nodes, node);
      SetOfAppend(nodes, node);
      hide SetOf;
      LinkTail(node, ns);
      nodes := nodes + [node];
    }

    method Del(node: ListNode<T>)
      requires Valid() && node in nodes
      modifies this, nodes
      ensures Valid() && nodes == Without<ListNode<T>>(old(nodes), node) && node !in nodes
    {
      hide Spells, Cut;
      ghost var k :| 0 <= k < |nodes| && nodes[k] == node;
      ghost var ns := SetOf(nodes);
      DelSpells(C(ns), nodes, k);
      CutIsWithout(nodes, k);
      UnlinkNode(node, ns);
      nodes := nodes[..k] + nodes[k + 1..];
      SpellsShrink(C(ns), C(SetOf(nodes)), nodes);
    }

    /** hev_list_del followed by hev_list_add_tail. */
    method MoveToTail(node: ListNode<T>)
      requires Valid() && node in nodes
      modifies this, nodes
      ensures Valid() && nodes == Without<ListNode<T>>(old(nodes), node) + [node]
    {
      hide Spells, Without;
      WithoutMembers<ListNode<T>>(nodes, node);
      WithoutSubset(nodes, node);
      ghost var q := nodes;
      Del(node);
      assert forall i :: 0 <= i < |nodes| ==> nodes[i] in q;
      AddTail(node);
    }
  }

  lemma {:induction false} WithoutMembers<A>(s: seq<A>, x: A)
    ensures forall y :: y in Without(s, x) <==> y in s && y != x
  {
    if s != [] {
      WithoutMembers(s[1..], x);
      assert s == [s[0]] + s[1..];
    }
  }

  lemma WithoutSubset<A>(s: seq<A>, x: A)
    ensures forall i :: 0 <= i < |Without(s, x)| ==> Without(s, x)[i] in s
  {
    WithoutMembers(s, x);
  }

  lemma SetOfAppend<A>(s: seq<A>, x: A)
    ensures SetOf(s + [x]) == SetOf(s) + {x}
  {
  }

  lemma SpellsGrow<T>(m: Chain<T>, m': Chain<T>, q: seq<ListNode<T>>)
    requires Spells(m, q) && m'.head == m.head && m'.tail == m.tail
    requires m.s.Keys <= m'.s.Keys && forall n <- m.s :: m'.s[n] == m.s[n]
    ensures Spells(m', q)
  {
  }

  lemma SpellsShrink<T>(m: Chain<T>, m': Chain<T>, q: seq<ListNode<T>>)
    requires Spells(m, q) && m'.head == m.head && m'.tail == m.tail
    requires forall i :: 0 <= i < |q| ==> q[i] in m'.s && m'.s[q[i]] == m.s[q[i]]
    ensures Spells(m', q)
  {
  }

  lemma CutIsWithout<A>(s: seq<A>, k: nat)
    requires NoDup(s) && k < |s|
    ensures Without(s, s[k]) == s[..k] + s[k + 1..] && s[k] !in s[..k] + s[k + 1..]
  {
    var a, x, b := s[..k], s[k], s[k + 1..];
    OnceIn(s, k);
    hide Without, NoDup;
    assert x !in a + b;
    WithoutAround(a, x, b);
    assert a + [x] + b == s;
  }

  lemma OnceIn<A>(s: seq<A>, k: nat)
    requires NoDup(s) && k < |s|
    ensures s[k] !in s[..k] && s[k] !in s[k + 1..]
  {
  }
}
