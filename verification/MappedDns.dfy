/**
 The mapped-DNS index of hev-mapped-dns.c: a tree by name, a list by age and an array by index over the same
 entries, proved to behave as the bounded table of `LruSpec`.
 */
module MappedDns {
  import opened Options
  import opened Bytes
  import opened Words
  import opened RBShape
  import opened RBInsert
  import opened RBUnlink
  import opened RBTree
  import opened Sorted
  import opened List
  import LruSpec

  /** HevMappedDNSNode: the tree and list nodes are embedded, so an entry knows both. */
  class Entry {
    const name: Octets
    var idx: nat
    var tree: Node?<Entry>
    var list: ListNode?<Entry>

    constructor (name: Octets)
      ensures this.name == name && idx == 0
    {
      this.name := name;
      idx, tree, list := 0, null, null;
    }
  }

  /** The fields of an entry, as a value. */
  datatype Rec = Rec(tree: Node?<Entry>, list: ListNode?<Entry>, idx: nat)

  function ByName(a: Entry, b: Entry): int { Strcmp(a.name, b.name) }

  // ----- the three views agree ------------------------------------------------------------------

  ghost predicate TreeView(ts: set<Node<Entry>>, ln: seq<ListNode<Entry>>, records: seq<Entry?>, r: map<Entry, Rec>) {
    forall n <- ts :: n.entry in r && r[n.entry].tree == n && r[n.entry].list != null && r[n.entry].list in ln
      && r[n.entry].list.entry == n.entry && r[n.entry].idx < |ln| <= |records| && records[r[n.entry].idx] == n.entry
  }

  ghost predicate ListView(ts: set<Node<Entry>>, ln: seq<ListNode<Entry>>, r: map<Entry, Rec>) {
    forall l <- ln :: l.entry in r && r[l.entry].list == l && r[l.entry].tree != null && r[l.entry].tree in ts
      && r[l.entry].tree.entry == l.entry
  }

  ghost predicate ArrayView(ts: set<Node<Entry>>, use: nat, records: seq<Entry?>, r: map<Entry, Rec>) {
    && use <= |records|
    && (forall i :: 0 <= i < use ==> (
          && records[i] != null && records[i] in r && r[records[i]].idx == i
          && r[records[i]].tree != null && r[records[i]].tree in ts && r[records[i]].tree.entry == records[i]))
    && (forall i :: use <= i < |records| ==> records[i] == null)
  }

  ghost predicate Agree(ts: set<Node<Entry>>, ln: seq<ListNode<Entry>>, records: seq<Entry?>, r: map<Entry, Rec>) {
    TreeView(ts, ln, records, r) && ListView(ts, ln, r) && ArrayView(ts, |ln|, records, r) && NoDup(ln)
  }

  /** The list reads `lru`. */
  ghost predicate Shows(ln: seq<ListNode<Entry>>, r: map<Entry, Rec>, lru: seq<LruSpec.Item>) {
    |lru| == |ln| && forall i :: 0 <= i < |ln| ==>
      ln[i].entry in r
      && lru[i] == LruSpec.Item(ln[i].entry.name, r[ln[i].entry].idx)
  }

  lemma {:induction false} SortedInjective(tn: seq<Node<Entry>>, x: Node<Entry>, y: Node<Entry>)
    requires SortedBy(ByName, tn) && x in tn && y in tn && x.entry.name == y.entry.name
    ensures x == y
  {
    var i :| 0 <= i < |tn| && tn[i] == x;
    var j :| 0 <= j < |tn| && tn[j] == y;
    StrcmpOrder(x.entry.name, y.entry.name, x.entry.name);
    hide Strcmp;
    assert ByName(x.entry, y.entry) == 0 == ByName(y.entry, x.entry);
    assert i == j;
  }

  /** The abstract table is well formed. */
  lemma AgreeOk(shape: Tree<Entry>, ln: seq<ListNode<Entry>>, records: seq<Entry?>, r: map<Entry, Rec>,
                lru: seq<LruSpec.Item>)
    requires Agree(S(shape), ln, records, r) && Shows(ln, r, lru) && SortedBy(ByName, InOrder(shape)) && |records| >= 1
    ensures LruSpec.Ok(LruSpec.Cache(|records|, lru))
  {
    hide S, InOrder, SortedBy;
    forall i, j | 0 <= i < j < |lru| ensures lru[i].name != lru[j].name && lru[i].idx != lru[j].idx {
      var a, b := ln[i], ln[j];
      assert a in ln && b in ln && a != b;
      var x, y := r[a.entry].tree, r[b.entry].tree;
      assert x in S(shape) && y in S(shape);
      if lru[i].name == lru[j].name {
        Listed(shape);
        SortedInjective(InOrder(shape), x, y);
      }
    }
    forall i | 0 <= i < |lru| ensures lru[i].idx < |lru| {
      assert ln[i] in ln;
      var x := r[ln[i].entry].tree;
      assert x in S(shape);
    }
  }

  /** Moving a list node to the end touches its item. */
  lemma AgreeTouch(ts: set<Node<Entry>>, ln: seq<ListNode<Entry>>, records: seq<Entry?>, r: map<Entry, Rec>,
                   lru: seq<LruSpec.Item>, k: nat)
    requires Agree(ts, ln, records, r) && Shows(ln, r, lru) && k < |ln|
    ensures var ln' := Without(ln, ln[k]) + [ln[k]];
      Agree(ts, ln', records, r) && Shows(ln', r, LruSpec.Touch(lru, k)) && |ln'| == |ln| == |lru|
  {
    CutIsWithout(ln, k);
    var ln' := ln[..k] + ln[k + 1..] + [ln[k]];
    MoveToEnd(ln, k);
    assert Shows(ln', r, LruSpec.Touch(lru, k)) by {
      var lru' := LruSpec.Touch(lru, k);
      hide TreeView, ListView, ArrayView;
      forall i | 0 <= i < |ln'| ensures ln'[i].entry in r
        && lru'[i] == LruSpec.Item(ln'[i].entry.name, r[ln'[i].entry].idx) {
        var j := if i < k then i else if i < |ln| - 1 then i + 1 else k;
        assert ln'[i] == ln[j] && lru'[i] == lru[j];
      }
    }
    hide LruSpec.Touch, NoDup;
    AgreePermuted(ts, ln, ln', records, r);
  }

  lemma MoveToEnd<A>(s: seq<A>, k: nat)
    requires NoDup(s) && k < |s|
    ensures var t := s[..k] + s[k + 1..] + [s[k]]; NoDup(t) && |t| == |s| && forall x :: x in s <==> x in t
  {
    CutNoDup(s, k);
    CutIsWithout(s, k);
    var t := s[..k] + s[k + 1..] + [s[k]];
    forall x | x in s ensures x in t {
      var i :| 0 <= i < |s| && s[i] == x;
      assert t[if i < k then i else if i == k then |s| - 1 else i - 1] == x;
    }
  }

  lemma AgreePermuted(ts: set<Node<Entry>>, ln: seq<ListNode<Entry>>, ln': seq<ListNode<Entry>>, records: seq<Entry?>,
                      r: map<Entry, Rec>)
    requires Agree(ts, ln, records, r) && NoDup(ln') && |ln'| == |ln| && forall x :: x in ln <==> x in ln'
    ensures Agree(ts, ln', records, r)
  {
  }

  /** A new entry in a free slot. */
  lemma AgreeAdd(ts: set<Node<Entry>>, ln: seq<ListNode<Entry>>, records: seq<Entry?>, r: map<Entry, Rec>,
                 lru: seq<LruSpec.Item>, n: Node<Entry>, l: ListNode<Entry>)
    requires Agree(ts, ln, records, r) && Shows(ln, r, lru) && |ln| < |records|
    requires n.entry == l.entry && n.entry !in r
    ensures |lru| == |ln|
    ensures var e, use := n.entry, |ln|;
      var r' := r[e := Rec(n, l, use)];
      Agree(ts + {n}, ln + [l], records[use := e], r') && Shows(ln + [l], r', lru + [LruSpec.Item(e.name, use)])
  {
    var e, use := n.entry, |ln|;
    var r', ln', records' := r[e := Rec(n, l, use)], ln + [l], records[use := e];
    assert l !in ln;
    forall x | x in ln' ensures x == l || x in ln {}
    assert ln'[use] == l;
  }

  /** A new entry takes over the slot of the oldest one. */
  lemma AgreeReplace(ts: set<Node<Entry>>, ln: seq<ListNode<Entry>>, records: seq<Entry?>, r: map<Entry, Rec>,
                     lru: seq<LruSpec.Item>, n: Node<Entry>, l: ListNode<Entry>)
    requires Agree(ts, ln, records, r) && Shows(ln, r, lru) && |ln| > 0
    requires n.entry == l.entry && n.entry !in r && n !in ts
    ensures ln[0].entry in r && r[ln[0].entry].tree != null && r[ln[0].entry].idx < |records|
    ensures r[ln[0].entry].tree in ts && r[ln[0].entry].list == ln[0] && |lru| == |ln|
      && lru[0].idx == r[ln[0].entry].idx
    ensures var old', e := ln[0].entry, n.entry;
      var idx, nf := r[old'].idx, r[old'].tree;
      var r' := (r - {old'})[e := Rec(n, l, idx)];
      && Agree(ts + {n} - {nf}, ln[1..] + [l], records[idx := e], r')
      && Shows(ln[1..] + [l], r', lru[1..] + [LruSpec.Item(e.name, idx)])
  {
    var old', e := ln[0].entry, n.entry;
    assert ln[0] in ln;
    var idx, nf := r[old'].idx, r[old'].tree;
    assert nf in ts;
    var r', ln', records', ts' := (r - {old'})[e := Rec(n, l, idx)], ln[1..] + [l], records[idx := e], ts + {n} - {nf};
    forall x | x in ts' && x != n ensures x.entry != old' {}
    forall x | x in ln[1..] ensures x in ln && x.entry != old' {
      var i :| 0 <= i < |ln[1..]| && ln[1..][i] == x;
      assert ln[i + 1] == x;
    }
    assert l !in ln;
    forall x | x in ts' && x != n ensures r[x.entry].list in ln[1..] {
      var y := r[x.entry].list;
      var i :| 0 <= i < |ln| && ln[i] == y;
      assert i > 0 ==> ln[1..][i - 1] == y;
    }
    assert forall i :: 0 <= i < |ln[1..]| ==> ln'[i] == ln[i + 1];
    assert ln'[|ln| - 1] == l;
  }

  lemma FallingWithout(tn: seq<Node<Entry>>, n: Node<Entry>)
    requires SortedBy(ByName, tn) && n in tn
    ensures SortedBy(ByName, Without(tn, n))
  {
    var k :| 0 <= k < |tn| && tn[k] == n;
    hide SortedBy, Without, Strcmp;
    assert tn == tn[..k] + [n] + tn[k + 1..];
    FallingCut(tn[..k], n, tn[k + 1..]);
  }

  lemma FallingCut(a: seq<Node<Entry>>, n: Node<Entry>, b: seq<Node<Entry>>)
    requires SortedBy(ByName, a + [n] + b)
    ensures SortedBy(ByName, a + b) && Without(a + [n] + b, n) == a + b
  {
    hide SortedBy, Without, Strcmp;
    SortedRemove(ByName, a, n, b);
    StrcmpOrder(n.entry.name, n.entry.name, n.entry.name);
    WithoutAround(a, n, b);
  }

  lemma FallingInsert(a: seq<Node<Entry>>, n: Node<Entry>, b: seq<Node<Entry>>, name: Octets)
    requires SortedBy(ByName, a + b) && n.entry.name == name
    requires AllPositive((e: Entry) => Strcmp(e.name, name), a) && AllNegative((e: Entry) => Strcmp(e.name, name), b)
    ensures SortedBy(ByName, a + [n] + b)
  {
    hide Strcmp;
    forall i | 0 <= i < |b| ensures ByName(n.entry, b[i].entry) > 0 {
      StrcmpOrder(b[i].entry.name, name, name);
    }
    SortedInsert(ByName, a, n, b);
  }

  lemma FallingDescends(tn: seq<Node<Entry>>, name: Octets)
    requires SortedBy(ByName, tn)
    ensures Descending((e: Entry) => Strcmp(e.name, name), tn)
  {
    hide Strcmp;
    forall i, j | 0 <= i < j < |tn| && Strcmp(tn[i].entry.name, name) <= 0 ensures Strcmp(tn[j].entry.name, name) < 0 {
      StrcmpOrder(tn[j].entry.name, tn[i].entry.name, name);
      StrcmpOrder(tn[i].entry.name, tn[j].entry.name, name);
    }
  }

  /** The list position of a found entry. */
  lemma FoundAt(shape: Tree<Entry>, ln: seq<ListNode<Entry>>, records: seq<Entry?>, r: map<Entry, Rec>,
                lru: seq<LruSpec.Item>,
                n: Node<Entry>) returns (k: nat)
    requires Agree(S(shape), ln, records, r) && Shows(ln, r, lru) && SortedBy(ByName, InOrder(shape)) && |records| >= 1
    requires n in S(shape)
    ensures n.entry in r && r[n.entry].list != null
    ensures k < |ln| && ln[k] == r[n.entry].list && LruSpec.ByName(lru, n.entry.name) == k
    ensures lru[k] == LruSpec.Item(n.entry.name, r[n.entry].idx)
  {
    AgreeOk(shape, ln, records, r, lru);
    k :| 0 <= k < |ln| && ln[k] == r[n.entry].list;
    assert lru[k].name == n.entry.name;
  }

  lemma NotFound(shape: Tree<Entry>, z: Ctx<Entry>, ln: seq<ListNode<Entry>>, records: seq<Entry?>, r: map<Entry, Rec>,
                 lru: seq<LruSpec.Item>, name: Octets)
    requires Agree(S(shape), ln, records, r) && Shows(ln, r, lru) && Plug(z, Leaf) == shape
    requires AllPositive((e: Entry) => Strcmp(e.name, name), Before(z))
      && AllNegative((e: Entry) => Strcmp(e.name, name), After(z))
    ensures LruSpec.ByName(lru, name) == |lru|
  {
    var k := LruSpec.ByName(lru, name);
    if k < |lru| {
      assert ln[k] in ln;
      var n := r[ln[k].entry].tree;
      assert n.entry.name == name;
      hide TreeView, ListView, ArrayView, Shows, S, Before, After, InOrder, Plug;
      Listed(shape);
      PlugOrder(z, Leaf);
      LeafOrder<Entry>(Leaf);
      assert n in Before(z) + After(z);
      StrcmpOrder(name, name, name);
      assert false;
    }
  }

  /** `r` records the fields of its entries. */
  ghost predicate Records(r: map<Entry, Rec>)
    reads r.Keys
  {
    forall e <- r :: r[e] == Rec(e.tree, e.list, e.idx)
  }

  class MappedDns {
    const tree: RBTree<Entry>
    const list: List<Entry>
    const max: nat
    const net: word
    const mask: word
    var records: seq<Entry?>
    var use: nat
    ghost var r: map<Entry, Rec>
    ghost var lru: seq<LruSpec.Item>

    /** Tree, list and array hold the same entries. */
    ghost predicate Valid()
      reads this, tree, S(tree.shape), list, list.nodes, r.Keys
    {
      && tree.Valid() && list.Valid() && SortedBy(ByName, tree.Nodes())
      && |records| == max >= 1 && use == |list.nodes| && max <= Signed(Not(mask))
      && Records(r) && Agree(S(tree.shape), list.nodes, records, r) && Shows(list.nodes, r, lru)
    }

    ghost function Repr(): set<object>
      reads this, tree, list
    {
      {this, tree, list} + S(tree.shape) + SetOf(list.nodes) + r.Keys
    }

    /** The table this index stands for. */
    ghost function Abs(): LruSpec.Cache
      reads this
    {
      LruSpec.Cache(max, lru)
    }

    lemma AbsOk()
      requires Valid()
      ensures LruSpec.Ok(Abs()) && max <= Not(mask) < WORD / 2
    {
      hide S, Rep, Distinct, RedBlack, Spells, InOrder, SortedBy, Agree, Shows, LruSpec.Ok;
      AgreeOk(tree.shape, list.nodes, records, r, lru);
    }

    /** A table without room for any name. */
    ghost predicate Roomless()
      reads this, tree, S(tree.shape), list, list.nodes
    {
      tree.Valid() && list.Valid() && tree.shape == Leaf && list.nodes == [] && use == max == 0
    }

    /** The records array is zeroed and everything else empty. */
    constructor (net: word, mask: word, max: nat)
      requires max <= Signed(Not(mask))
      ensures fresh(Repr()) && Abs() == LruSpec.Cache(max, []) && if max >= 1 then Valid() else Roomless()
      ensures this.net == net && this.mask == mask && this.max == max
    {
      hide List.Valid, RBTree.M, Rep, Distinct, RedBlack, TreeView, ListView, ArrayView, NoDup, SortedBy, Shows;
      this.net, this.mask := net, mask;
      tree := new RBTree();
      list := new List();
      this.max := max;
      records := seq(max, _ => null);
      use, r, lru := 0, map[], [];
      new;
      EmptyViews(records, r);
    }

    /** Touch the entry of tree node `n`: to the end of the list with it. */
    method TouchEntry(n: Node<Entry>)
      requires Valid() && n in S(tree.shape)
      modifies this`lru, list, list.nodes
      ensures Valid() && list.nodes != [] && SetOf(list.nodes) == old(SetOf(list.nodes))
      ensures n.entry in r
      ensures var k := LruSpec.ByName(old(lru), n.entry.name);
        k < |old(lru)| && lru == LruSpec.Touch(old(lru), k) && old(lru)[k] == LruSpec.Item(n.entry.name, n.entry.idx)
    {
      hide S, Rep, Distinct, RedBlack, Spells, InOrder, SortedBy, TreeView, ListView, ArrayView, NoDup, LruSpec.Touch,
           Shows;
      ghost var ts :| ts == S(tree.shape);
      ghost var ln := list.nodes;
      ghost var k := FoundAt(tree.shape, ln, records, r, lru, n);
      AgreeTouch(S(tree.shape), ln, records, r, lru, k);
      SameMembers(ln, k);
      list.MoveToTail(n.entry.list);
      lru := LruSpec.Touch(lru, k);
    }

    /** hev_mapped_dns_lookup: the name behind the host part of `ip`; looking up touches too. */
    method Lookup(ip: word) returns (name: Option<Octets>)
      requires Valid()
      modifies this`lru, list, list.nodes
      ensures Valid() && (Abs(), name) == LruSpec.Lookup(old(Abs()), And(ip, Not(mask)))
      ensures SetOf(list.nodes) == old(SetOf(list.nodes))
    {
      hide S, Rep, Distinct, RedBlack, Spells, InOrder, SortedBy, TreeView, ListView, ArrayView, NoDup, LruSpec.Touch,
           Shows;
      var idx := And(ip, Not(mask));
      if idx >= max {
        BeyondRecords(tree.shape, list.nodes, records, r, lru, idx);
        return None;
      }
      RecordAt(tree.shape, list.nodes, records, r, lru, idx);
      var node := records[idx];
      if node == null {
        return None;
      }
      TouchEntry(node.tree);
      name := Some(node.name);
    }

    /** Link the entry of `n` and `l` into tree and list. */
    method Enter(n: Node<Entry>, l: ListNode<Entry>, parent: Node?<Entry>, left: bool, ghost z: Ctx<Entry>)
      requires tree.Valid() && list.Valid() && SortedBy(ByName, tree.Nodes()) && n !in S(tree.shape) && l !in list.nodes
      requires HoleRep(tree.M(S(tree.shape)), z, parent, null) && Plug(z, Leaf) == tree.shape
        && (parent != null ==> left == z.InL?)
      requires AllPositive((e: Entry) => Strcmp(e.name, n.entry.name), Before(z))
      requires AllNegative((e: Entry) => Strcmp(e.name, n.entry.name), After(z))
      modifies tree, S(tree.shape), n, list, list.nodes, l
      ensures tree.Valid() && list.Valid() && SortedBy(ByName, tree.Nodes())
      ensures S(tree.shape) == old(S(tree.shape)) + {n} && list.nodes == old(list.nodes) + [l]
    {
      hide S, Rep, HoleRep, Plug, Distinct, RedBlack, Spells, InOrder, SortedBy, Before, After, AllPositive,
           AllNegative, Strcmp;
      tree.Insert(n, parent, left, z);
      FallingInsert(Before(z), n, After(z), n.entry.name);
      ghost var ts :| ts == S(tree.shape);
      list.AddTail(l);
    }

    /** hev_mapped_dns_find on a table without room, up to the eviction: the entry that would be evicted and freed is
        the one that has just been added. */
    method FindWithoutRoom(name: Octets) returns (added: Entry, evicted: Entry)
      requires Roomless()
      modifies tree, S(tree.shape), list, list.nodes
      ensures fresh(added) && added.name == name && evicted == added
    {
      hide Spells, RedBlack;
      var n, l;
      added, n, l := NewEntry(name);
      Enter(n, l, null, false, Top);
      ghost var ts :| ts == S(tree.shape);
      var first := list.First();
      evicted := first.entry;
    }

    /** Unlink the entry at the head of the list and give its index back. */
    method Evict() returns (idx: nat)
      requires tree.Valid() && list.Valid() && SortedBy(ByName, tree.Nodes()) && Records(r) && list.nodes != []
      requires list.nodes[0].entry in r && r[list.nodes[0].entry].list == list.nodes[0]
      requires r[list.nodes[0].entry].tree != null && r[list.nodes[0].entry].tree in S(tree.shape)
      modifies tree, S(tree.shape), list, list.nodes
      ensures tree.Valid() && list.Valid() && SortedBy(ByName, tree.Nodes())
      ensures S(tree.shape) == old(S(tree.shape)) - {r[old(list.nodes)[0].entry].tree}
      ensures list.nodes == old(list.nodes)[1..] && idx == r[old(list.nodes)[0].entry].idx
    {
      hide S, Rep, Distinct, RedBlack, Spells, InOrder, SortedBy, Without, NoDup;
      ghost var ts0 :| ts0 == S(tree.shape);
      var nl := list.First();
      var nf := nl.entry;
      idx := nf.idx;
      Listed(tree.shape);
      FallingWithout(tree.Nodes(), nf.tree);
      CutIsWithout(list.nodes, 0);
      tree.Erase(nf.tree);
      ghost var ts :| ts == S(tree.shape);
      list.Del(nf.list);
    }

    /** Between the insertion of a new entry and the choice of its index: only tree and list know it. */
    ghost predicate Entered(ts: set<Node<Entry>>, ln: seq<ListNode<Entry>>, e: Entry, n: Node<Entry>,
                            l: ListNode<Entry>)
      reads this, tree, S(tree.shape), list, list.nodes, r.Keys, e
    {
      && tree.Valid() && list.Valid() && SortedBy(ByName, tree.Nodes())
      && S(tree.shape) == ts + {n} && list.nodes == ln + [l] && n !in ts
      && |records| == max >= 1 && use == |ln| && max <= Signed(Not(mask))
      && Records(r) && Agree(ts, ln, records, r) && Shows(ln, r, lru)
      && n.entry == l.entry == e && e !in r && e.tree == n && e.list == l
    }

    /** Write the new entry and its index into each other. */
    method Seat(e: Entry, idx: nat, ghost r': map<Entry, Rec>, ghost lru': seq<LruSpec.Item>)
      requires tree.Valid() && list.Valid() && SortedBy(ByName, tree.Nodes())
      requires |records| == max >= 1 && idx < max && use == |list.nodes| && max <= Signed(Not(mask))
      requires Records(r' - {e}) && e in r' && r'[e] == Rec(e.tree, e.list, idx)
      requires Agree(S(tree.shape), list.nodes, records[idx := e], r') && Shows(list.nodes, r', lru')
      modifies this`records, this`r, this`lru, e`idx
      ensures Valid() && lru == lru' && r == r'
    {
      hide S, Rep, Distinct, RedBlack, Spells, InOrder, SortedBy, Agree, Shows;
      records := records[idx := e];
      e.idx := idx;
      r, lru := r', lru';
    }

    /** The index `idx` has been chosen for the new entry, and `r'` and `lru'` are what the views show then. */
    ghost predicate Chosen(ts: set<Node<Entry>>, ln: seq<ListNode<Entry>>, e: Entry, n: Node<Entry>,
                           l: ListNode<Entry>, idx: nat, r': map<Entry, Rec>, lru': seq<LruSpec.Item>)
      reads this, tree, S(tree.shape), list, list.nodes
    {
      && tree.Valid() && list.Valid() && SortedBy(ByName, tree.Nodes())
      && idx < max == |records| && use == |list.nodes| && |lru| == |ln|
      && S(tree.shape) <= ts + {n} && list.nodes in [ln + [l], (ln + [l])[1..]]
      && e in r' && r'[e] == Rec(n, l, idx) && r'.Keys <= r.Keys + {e}
      && Agree(S(tree.shape), list.nodes, records[idx := e], r') && Shows(list.nodes, r', lru')
      && (if |ln| < max then idx == |ln| && lru' == lru + [LruSpec.Item(e.name, idx)]
          else lru != [] && idx == lru[0].idx && lru' == lru[1..] + [LruSpec.Item(e.name, idx)])
    }

    /** Choose the index of the new entry: a free one while there is one, else that of the evicted head. */
    method Choose(e: Entry, ghost ts: set<Node<Entry>>, ghost ln: seq<ListNode<Entry>>, ghost n: Node<Entry>,
                  ghost l: ListNode<Entry>)
      returns (idx: nat, ghost r': map<Entry, Rec>, ghost lru': seq<LruSpec.Item>)
      requires Entered(ts, ln, e, n, l)
      modifies this`use, tree, S(tree.shape), list, list.nodes
      ensures Chosen(ts, ln, e, n, l, idx, r', lru') && Records(r' - {e})
    {
      hide S, Rep, Distinct, RedBlack, Spells, InOrder, SortedBy, TreeView, ListView, ArrayView, NoDup, Shows;
      idx := use;
      if use < max {
        AgreeAdd(ts, ln, records, r, lru, n, l);
        use := use + 1;
        r', lru' := r[e := Rec(n, l, idx)], lru + [LruSpec.Item(e.name, idx)];
      } else {
        AgreeReplace(ts, ln, records, r, lru, n, l);
        ghost var oldest := list.nodes[0].entry;
        idx := Evict();
        assert list.nodes == ln[1..] + [l];
        r', lru' := (r - {oldest})[e := Rec(n, l, idx)], lru[1..] + [LruSpec.Item(e.name, idx)];
      }
    }

    /** Choose an index for the new entry and write it down. */
    method Settle(e: Entry, ghost ts: set<Node<Entry>>, ghost ln: seq<ListNode<Entry>>, ghost n: Node<Entry>,
                  ghost l: ListNode<Entry>)
      returns (idx: nat)
      requires Entered(ts, ln, e, n, l) && LruSpec.ByName(lru, e.name) == |lru|
      modifies this, tree, S(tree.shape), list, list.nodes, e`idx
      ensures Valid() && (Abs(), idx) == LruSpec.Find(old(Abs()), e.name)
      ensures S(tree.shape) <= ts + {n} && list.nodes in [ln + [l], (ln + [l])[1..]] && r.Keys <= old(r.Keys) + {e}
    {
      hide S, Rep, Distinct, RedBlack, Spells, InOrder, SortedBy, Agree, Shows, LruSpec.Touch;
      ghost var r', lru';
      idx, r', lru' := Choose(e, ts, ln, n, l);
      ghost var ts' :| ts' == S(tree.shape);
      Seat(e, idx, r', lru');
    }

    /** A new entry for `name` in tree and list. */
    method Prepare(name: Octets, parent: Node?<Entry>, left: bool, ghost z: Ctx<Entry>, ghost ts: set<Node<Entry>>)
      returns (e: Entry, n: Node<Entry>, l: ListNode<Entry>)
      requires Valid() && ts == S(tree.shape)
      requires HoleRep(tree.M(ts), z, parent, null) && Plug(z, Leaf) == tree.shape
        && (parent != null ==> left == z.InL?)
      requires AllPositive((e: Entry) => Strcmp(e.name, name), Before(z))
      requires AllNegative((e: Entry) => Strcmp(e.name, name), After(z))
      modifies tree, S(tree.shape), list, list.nodes
      ensures fresh(e) && fresh(n) && fresh(l) && e.name == name
      ensures Entered(ts, old(list.nodes), e, n, l)
    {
      hide S, Rep, HoleRep, Plug, Distinct, RedBlack, Spells, InOrder, SortedBy, Before, After, AllPositive,
           AllNegative, Strcmp, Agree, Shows;
      e, n, l := NewEntry(name);
      Enter(n, l, parent, left, z);
    }

    /** The descent: the node called `name`, or the place where it belongs. */
    method Search(name: Octets, ghost ts: set<Node<Entry>>)
      returns (found: Node?<Entry>, parent: Node?<Entry>, left: bool, ghost z: Ctx<Entry>)
      requires Valid() && ts == S(tree.shape)
      ensures Valid()
      ensures found != null ==> found in ts && found.entry.name == name
      ensures found == null ==> LruSpec.ByName(lru, name) == |lru|
      ensures found == null ==>
        HoleRep(tree.M(ts), z, parent, null) && Plug(z, Leaf) == tree.shape
        && (parent != null ==> left == z.InL?)
      ensures found == null ==> AllPositive((e: Entry) => Strcmp(e.name, name), Before(z))
      ensures found == null ==> AllNegative((e: Entry) => Strcmp(e.name, name), After(z))
    {
      hide S, Rep, HoleRep, Plug, Distinct, RedBlack, Spells, InOrder, SortedBy, Before, After, AllPositive,
           AllNegative, Strcmp, Agree, Shows, Descending;
      FallingDescends(tree.Nodes(), name);
      ghost var visited;
      found, parent, left, z, visited := tree.Descend((e: Entry) => Strcmp(e.name, name));
      if found != null {
        StrcmpOrder(found.entry.name, name, name);
      } else {
        NotFound(tree.shape, z, list.nodes, records, r, lru, name);
      }
    }

    /** The part of hev_mapped_dns_find after an unsuccessful search. */
    method AddNew(name: Octets, parent: Node?<Entry>, left: bool, ghost z: Ctx<Entry>, ghost ts: set<Node<Entry>>)
      returns (idx: nat, ghost e: Entry, ghost n: Node<Entry>, ghost l: ListNode<Entry>)
      requires Valid() && ts == S(tree.shape) && LruSpec.ByName(lru, name) == |lru|
      requires HoleRep(tree.M(ts), z, parent, null) && Plug(z, Leaf) == tree.shape
        && (parent != null ==> left == z.InL?)
      requires AllPositive((e: Entry) => Strcmp(e.name, name), Before(z))
      requires AllNegative((e: Entry) => Strcmp(e.name, name), After(z))
      modifies this, tree, S(tree.shape), list, list.nodes
      ensures Valid() && (Abs(), idx) == LruSpec.Find(old(Abs()), name)
      ensures fresh(e) && fresh(n) && fresh(l)
      ensures S(tree.shape) <= ts + {n} && SetOf(list.nodes) <= old(SetOf(list.nodes)) + {l}
        && r.Keys <= old(r.Keys) + {e}
    {
      hide S, Rep, HoleRep, Plug, Distinct, RedBlack, Spells, InOrder, SortedBy, Before, After, AllPositive,
           AllNegative, Strcmp, Agree, Shows, LruSpec.Touch, LruSpec.Find;
      ghost var ln := list.nodes;
      var e', n', l' := Prepare(name, parent, left, z, ts);
      e, n, l := e', n', l';
      idx := Settle(e', ts, ln, n, l);
      SetOfTail(ln, l);
    }

    /** hev_mapped_dns_find: the index of `name`; a new name takes a free index, or that of the oldest name. */
    method Find(name: Octets) returns (idx: nat)
      requires Valid()
      modifies this, tree, S(tree.shape), list, list.nodes
      ensures Valid() && (Abs(), idx) == LruSpec.Find(old(Abs()), name)
      ensures forall o <- Repr() :: o in old(Repr()) || fresh(o)
    {
      hide S, Rep, HoleRep, Plug, Distinct, RedBlack, Spells, InOrder, SortedBy, Before, After, AllPositive,
           AllNegative, Strcmp, Agree, Shows, LruSpec.Touch, SetOf;
      ghost var ts :| ts == S(tree.shape);
      var found, parent, left;
      ghost var z;
      found, parent, left, z := Search(name, ts);
      if found != null {
        TouchEntry(found);
        return found.entry.idx;
      }
      ghost var e, n, l;
      idx, e, n, l := AddNew(name, parent, left, z, ts);
    }
  }

  lemma SetOfTail<A>(s: seq<A>, x: A)
    ensures SetOf(s + [x]) <= SetOf(s) + {x} && SetOf((s + [x])[1..]) <= SetOf(s) + {x}
  {
  }

  /** hev_mapped_dns_new: refused when the host part of an address cannot hold `max` indices. */
  method New(net: word, mask: word, max: nat) returns (dns: MappedDns?)
    ensures dns == null <==> max > Signed(Not(mask))
    ensures dns != null ==> fresh(dns.Repr()) && dns.Abs() == LruSpec.Cache(max, [])
    ensures dns != null ==> if max >= 1 then dns.Valid() else dns.Roomless()
    ensures dns != null ==> dns.net == net && dns.mask == mask && dns.max == max
  {
    if max > Signed(Not(mask)) {
      return null;
    }
    dns := new MappedDns(net, mask, max);
  }

  /** mapped_dns_init of hev-socks5-tunnel.c: a size of zero switches the mapped DNS off, so a table that is in use has
      room for a name. */
  method Init(net: word, mask: word, size: nat) returns (ok: bool, dns: MappedDns?)
    ensures ok <==> size == 0 || size <= Signed(Not(mask))
    ensures dns != null <==> ok && size > 0
    ensures dns != null ==> dns.Valid() && fresh(dns.Repr()) && dns.Abs() == LruSpec.Cache(size, [])
  {
    if size == 0 {
      return true, null;
    }
    dns := New(net, mask, size);
    ok := dns != null;
  }

  /** hev_mapped_dns_node_alloc. */
  method NewEntry(name: Octets) returns (e: Entry, n: Node<Entry>, l: ListNode<Entry>)
    ensures fresh(e) && fresh(n) && fresh(l) && n.entry == e == l.entry && e.name == name && e.tree == n && e.list == l
  {
    e := new Entry(name);
    n := new Node(e);
    l := new ListNode(e);
    e.tree, e.list := n, l;
  }

  lemma BeyondRecords(shape: Tree<Entry>, ln: seq<ListNode<Entry>>, records: seq<Entry?>, r: map<Entry, Rec>,
                      lru: seq<LruSpec.Item>, idx: nat)
    requires Agree(S(shape), ln, records, r) && Shows(ln, r, lru) && SortedBy(ByName, InOrder(shape)) && |records| >= 1
    requires idx >= |records|
    ensures LruSpec.ByIdx(lru, idx) == |lru|
  {
    hide S, InOrder, SortedBy, TreeView, ListView;
    AgreeOk(shape, ln, records, r, lru);
  }

  /** What the record at `idx` says about the item that has that index. */
  lemma RecordAt(shape: Tree<Entry>, ln: seq<ListNode<Entry>>, records: seq<Entry?>, r: map<Entry, Rec>,
                 lru: seq<LruSpec.Item>, idx: nat)
    requires Agree(S(shape), ln, records, r) && Shows(ln, r, lru) && SortedBy(ByName, InOrder(shape)) && idx < |records|
    ensures records[idx] == null ==> LruSpec.ByIdx(lru, idx) == |lru|
    ensures records[idx] != null ==> (
      && records[idx] in r && r[records[idx]].tree != null && r[records[idx]].tree in S(shape)
      && r[records[idx]].tree.entry == records[idx]
      && LruSpec.ByIdx(lru, idx) == LruSpec.ByName(lru, records[idx].name) < |lru|)
  {
    hide S, InOrder, SortedBy;
    AgreeOk(shape, ln, records, r, lru);
    if records[idx] != null {
      var n := r[records[idx]].tree;
      var k := FoundAt(shape, ln, records, r, lru, n);
      assert lru[k].idx == idx;
    }
  }

  /** An empty index agrees with itself. */
  lemma EmptyViews(records: seq<Entry?>, r: map<Entry, Rec>)
    requires forall i :: 0 <= i < |records| ==> records[i] == null
    ensures Agree({}, [], records, r) && Shows([], r, []) && SortedBy(ByName, [])
  {
    var views := TreeView({}, [], records, r) && ListView({}, [], r) && ArrayView({}, 0, records, r);
    assert views;
    var rest := NoDup<ListNode<Entry>>([]) && Shows([], r, []) && SortedBy(ByName, []);
    assert rest;
    hide TreeView, ListView, ArrayView, NoDup, Shows, SortedBy;
  }

  lemma SameMembers<A>(s: seq<A>, k: nat)
    requires k < |s|
    ensures SetOf(Without(s, s[k]) + [s[k]]) == SetOf(s)
  {
    WithoutMembers(s, s[k]);
    hide Without;
    var t := Without(s, s[k]) + [s[k]];
    var a, b := SetOf(t), SetOf(s);
    assert a <= b;
    assert b <= a;
  }
}
