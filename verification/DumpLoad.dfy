/**
 Loading what was dumped: the loader numbers the nodes in the order of the dumper's first visits, and rebuilds each of
 them with its children renumbered. Sharing and cycles survive as anchors and aliases.
 */
module DumpLoad {
  import opened YamlGraph
  import opened DumpSpec
  import opened LoadSpec

  /** The loader takes the tag "!" for the default one. */
  function Normal(n: Node): (r: Node)
    ensures Children(r) == Children(n) && (n.tag != "!" ==> r == n)
    ensures (r.Scalar? <==> n.Scalar?) && (r.Sequence? <==> n.Sequence?) && (r.Mapping? <==> n.Mapping?)
  {
    if n.tag != "!" then n
    else
      match n
      case Scalar(_, value, style) => Scalar(SCALAR_TAG, value, style)
      case Sequence(_, items, style) => Sequence(SEQUENCE_TAG, items, style)
      case Mapping(_, pairs, style) => Mapping(MAPPING_TAG, pairs, style)
  }

  // ----- renumbering --------------------------------------------------------------------------------

  /** The new index of `i`: its place in the order of first visits, from 1 on. */
  function Pos(order: seq<nat>, i: nat): (p: nat)
    requires i in order
    ensures 1 <= p <= |order| && order[p - 1] == i
  {
    if order[0] == i then 1 else 1 + Pos(order[1..], i)
  }

  lemma {:induction false} PosStable(order: seq<nat>, order': seq<nat>, i: nat)
    requires order <= order' && i in order
    ensures i in order' && Pos(order', i) == Pos(order, i)
  {
    assert order[0] == order'[0];
    assert i == order[Pos(order, i) - 1] == order'[Pos(order, i) - 1];
    if order[0] != i {
      PosStable(order[1..], order'[1..], i);
    }
  }

  lemma {:induction false} PosNew(order: seq<nat>, i: nat)
    requires i !in order
    ensures Pos(order + [i], i) == |order| + 1
  {
    if order != [] {
      PosNew(order[1..], i);
      assert (order + [i])[1..] == order[1..] + [i];
    }
  }

  function Rename(order: seq<nat>, cs: seq<nat>): (r: seq<nat>)
    requires forall c <- cs :: c in order
    ensures |r| == |cs| && forall k :: 0 <= k < |r| ==> r[k] == Pos(order, cs[k]) != 0
  {
    seq(|cs|, k requires 0 <= k < |cs| => Pos(order, cs[k]))
  }

  lemma RenameStable(order: seq<nat>, order': seq<nat>, cs: seq<nat>)
    requires order <= order' && forall c <- cs :: c in order
    ensures (forall c <- cs :: c in order') && Rename(order', cs) == Rename(order, cs)
  {
    forall c | c in cs ensures c in order' && Pos(order', c) == Pos(order, c) {
      PosStable(order, order', c);
    }
  }

  /** Node number `k` is node `order[k]` of `doc`, with all its children renumbered and "!" resolved. */
  ghost predicate Complete(doc: Document, order: seq<nat>, nodes: Document, k: nat) {
    && k < |order| == |nodes| && Index(doc, order[k])
    && var n := Get(doc, order[k]);
      (forall c <- Children(n) :: c in order)
      && nodes[k] == With(Normal(n), Rename(order, Children(n)))
  }

  // ----- anchors ------------------------------------------------------------------------------------

  ghost predicate InRange(order: seq<nat>, n: nat) { forall k :: 0 <= k < |order| ==> 1 <= order[k] <= n }

  /** What the loader has registered when the nodes of `order` have been opened. */
  ghost function AliasesOf(a: seq<nat>, order: seq<nat>): seq<AliasData>
    requires InRange(order, |a|)
  {
    if order == [] then []
    else
      var n, i := |order| - 1, order[|order| - 1];
      AliasesOf(a, order[..n]) + if a[i - 1] == 0 then [] else [AliasData(Anchor(a[i - 1]), |order|)]
  }

  lemma AliasesNext(a: seq<nat>, order: seq<nat>, i: nat)
    requires InRange(order, |a|) && 1 <= i <= |a|
    ensures AliasesOf(a, order + [i])
      == AliasesOf(a, order) + if a[i - 1] == 0 then [] else [AliasData(Anchor(a[i - 1]), |order| + 1)]
  {
    var order' := order + [i];
    assert order'[..|order'| - 1] == order;
  }

  lemma FindAppend(aliases: seq<AliasData>, x: AliasData, anchor: Text)
    ensures var k := FindAnchor(aliases, anchor);
      FindAnchor(aliases + [x], anchor) ==
        if k < |aliases| then k else if x.anchor == anchor then |aliases| else |aliases| + 1
  {
    var all := aliases + [x];
    assert forall j :: 0 <= j < |aliases| ==> all[j] == aliases[j];
    assert all[|aliases|] == x;
  }

  lemma SameAnchor(a: seq<nat>, i: nat, j: nat)
    requires 1 <= i <= |a| && 1 <= j <= |a| && Distinct(a) && a[i - 1] != 0 && Anchor(a[i - 1]) == Anchor(a[j - 1])
    ensures i == j
  {
    AnchorInjective(a[i - 1], a[j - 1]);
  }

  /** The loader finds the anchor of every opened node, and of no other. */
  lemma {:induction false} FindOpened(a: seq<nat>, order: seq<nat>, i: nat)
    requires InRange(order, |a|) && 1 <= i <= |a| && Distinct(a) && a[i - 1] != 0
    ensures var aliases := AliasesOf(a, order);
      var k := FindAnchor(aliases, Anchor(a[i - 1]));
      if i in order then k < |aliases| && aliases[k].index == Pos(order, i) else k == |aliases|
    decreases |order|
  {
    if order != [] {
      var n, last := |order| - 1, order[|order| - 1];
      var front := order[..n];
      FindOpened(a, front, i);
      FindNext(a, front, last, i);
      assert order == front + [last];
    }
  }

  lemma FindNext(a: seq<nat>, front: seq<nat>, last: nat, i: nat)
    requires InRange(front, |a|) && 1 <= last <= |a| && 1 <= i <= |a| && Distinct(a) && a[i - 1] != 0
    requires var aliases := AliasesOf(a, front);
      var k := FindAnchor(aliases, Anchor(a[i - 1]));
      if i in front then k < |aliases| && aliases[k].index == Pos(front, i) else k == |aliases|
    ensures var order := front + [last];
      var aliases := AliasesOf(a, order);
      var k := FindAnchor(aliases, Anchor(a[i - 1]));
      if i in order then k < |aliases| && aliases[k].index == Pos(order, i) else k == |aliases|
  {
    AliasesNext(a, front, last);
    hide AliasesOf, Anchor, FindAnchor, Pos;
    var aliases, anchor := AliasesOf(a, front), Anchor(a[i - 1]);
    if i in front { PosStable(front, front + [last], i); } else if i == last { PosNew(front, i); }
    if a[last - 1] == 0 {
      assert aliases + [] == aliases;
    } else {
      FindAppend(aliases, AliasData(Anchor(a[last - 1]), |front| + 1), anchor);
      if Anchor(a[last - 1]) == anchor { SameAnchor(a, i, last); }
    }
  }

  // ----- adding children ------------------------------------------------------------------------------

  ghost predicate OpenTop(nodes: Document, ctx: seq<nat>) {
    ctx == [] || (1 <= ctx[|ctx| - 1] <= |nodes| && !nodes[ctx[|ctx| - 1] - 1].Scalar?)
  }

  ghost function AddTo(nodes: Document, ctx: seq<nat>, c: nat): (r: Document)
    requires OpenTop(nodes, ctx)
    ensures |r| == |nodes| && OpenTop(r, ctx)
  {
    if ctx == [] then nodes else var p := ctx[|ctx| - 1] - 1; nodes[p := Append(nodes[p], c)]
  }

  ghost function AddAll(nodes: Document, ctx: seq<nat>, cs: seq<nat>): (r: Document)
    requires OpenTop(nodes, ctx)
    ensures |r| == |nodes| && OpenTop(r, ctx)
    decreases |cs|
  {
    if cs == [] then nodes else AddAll(AddTo(nodes, ctx, cs[0]), ctx, cs[1..])
  }

  lemma AddToPrefix(nodes: Document, more: Document, ctx: seq<nat>, c: nat)
    requires OpenTop(nodes, ctx)
    ensures OpenTop(nodes + more, ctx) && AddTo(nodes + more, ctx, c) == AddTo(nodes, ctx, c) + more
  {
  }

  /** Children added to the collection on top. */
  lemma {:induction false} AddAllTop(nodes: Document, n: Node, ctx: seq<nat>, cs: seq<nat>, done: seq<nat>)
    requires !n.Scalar? && ctx != [] && ctx[|ctx| - 1] == |nodes| + 1
    requires (forall k :: 0 <= k < |cs| ==> cs[k] != 0) && forall k :: 0 <= k < |done| ==> done[k] != 0
    ensures OpenTop(nodes + [With(n, done)], ctx)
    ensures AddAll(nodes + [With(n, done)], ctx, cs) == nodes + [With(n, done + cs)]
    decreases |cs|
  {
    if cs == [] {
      assert done + cs == done;
    } else {
      AppendWith(n, done, cs[0]);
      var top := nodes + [With(n, done)];
      assert AddTo(top, ctx, cs[0]) == nodes + [With(n, done + [cs[0]])];
      AddAllTop(nodes, n, ctx, cs[1..], done + [cs[0]]);
      assert done + [cs[0]] + cs[1..] == done + cs;
    }
  }

  // ----- the simulation ----------------------------------------------------------------------------------

  /** The loader is where the dumper is. */
  ghost predicate InStep(doc: Document, a: seq<nat>, order: seq<nat>, st: Loader) {
    && WellFormed(doc) && |a| == |doc| && Distinct(a) && InRange(order, |doc|)
    && st.aliases == AliasesOf(a, order) && |st.nodes| == |order| && OpenTop(st.nodes, st.ctx)
  }

  /** From `st` to `st'`: the nodes of `order'` beyond `order` have been loaded completely, and `old'` is what has
      become of the nodes that were there. */
  ghost predicate Advanced(doc: Document, a: seq<nat>, order: seq<nat>, order': seq<nat>, st: Loader, st': Loader,
                           old': Document) {
    && InStep(doc, a, order', st') && order <= order' && st'.ctx == st.ctx && |old'| == |order|
      && st'.nodes[..|order|] == old'
    && forall k :: |order| <= k < |order'| ==> Complete(doc, order', st'.nodes, k)
  }

  lemma OpenNode(doc: Document, a: seq<nat>, order: seq<nat>, i: nat, st: Loader)
    requires InStep(doc, a, order, st) && Index(doc, i) && i !in order
    ensures var n := Get(doc, i);
      Step(st, StartEvent(doc, a, i)) == Loaded(Loader(
        AddTo(st.nodes, st.ctx, |order| + 1) + [With(Normal(n), [])], AliasesOf(a, order + [i]),
          st.ctx + if n.Scalar? then [] else [|order| + 1]))
  {
    var n, ev := Get(doc, i), StartEvent(doc, a, i);
    OpenEvent(doc, a, i);
    var pushed := st.(nodes := st.nodes + [With(Normal(n), [])]);
    RegisterNode(a, order, i, pushed);
    AddToPrefix(st.nodes, [With(Normal(n), [])], st.ctx, |order| + 1);
    hide AliasesOf, WellFormed, StartEvent, With, NodeOf, Append, Register, NodeAdd, AddTo;
    AddNode(pushed.(aliases := AliasesOf(a, order + [i])), |order| + 1);
    assert n.Scalar? ==> st.ctx + [] == st.ctx;
  }

  lemma RegisterNode(a: seq<nat>, order: seq<nat>, i: nat, st: Loader)
    requires InRange(order, |a|) && 1 <= i <= |a| && Distinct(a) && i !in order && st.aliases == AliasesOf(a, order)
    ensures InRange(order + [i], |a|)
    ensures Register(st, |order| + 1, AnchorOf(a, i)) == Loaded(st.(aliases := AliasesOf(a, order + [i])))
  {
    AliasesNext(a, order, i);
    hide AliasesOf, Anchor, FindAnchor;
    if a[i - 1] != 0 {
      FindOpened(a, order, i);
    } else {
      assert st.aliases + [] == st.aliases;
    }
  }

  lemma AddNode(st: Loader, c: nat)
    requires OpenTop(st.nodes, st.ctx)
    ensures NodeAdd(st, c) == Loaded(st.(nodes := AddTo(st.nodes, st.ctx, c)))
  {
  }

  lemma OpenEvent(doc: Document, a: seq<nat>, i: nat)
    requires Index(doc, i) && |a| == |doc|
    ensures var n, ev := Get(doc, i), StartEvent(doc, a, i);
      && (ev.ScalarEvent? || ev.SequenceStart? || ev.MappingStart?) && (ev.ScalarEvent? <==> n.Scalar?)
      && NodeOf(ev) == With(Normal(n), []) && ev.anchor == AnchorOf(a, i)
  {
  }

  /** Loading the events of one node. */
  lemma {:induction false} LoadVisit(doc: Document, a: seq<nat>, order: seq<nat>, i: nat, st: Loader)
    requires InStep(doc, a, order, st) && Index(doc, i) && Covered(doc, a, order, i)
    ensures var (ev, order') := Visit(doc, a, order, i);
      var r := LoadAll(st, ev);
      r.Loaded? && Advanced(doc, a, order, order', st, r.st, AddTo(st.nodes, st.ctx, Pos(order', i)))
    decreases Unseen(doc, order), 0
  {
    hide AliasesOf, WellFormed, AddTo, Step, StartEvent, With, Children, Complete;
    if i in order {
      LoadAlias(doc, a, order, i, st);
    } else {
      ChildIndex(doc, i);
      UnseenLess(doc, order, i);
      OpenNode(doc, a, order, i, st);
      var n, order1 := Get(doc, i), order + [i];
      var cs := Children(n);
      var (ev, order') := VisitAll(doc, a, order1, cs);
      var st1 := Step(st, StartEvent(doc, a, i)).st;
      LoadOne(st, StartEvent(doc, a, i));
      Opened(doc, a, order, i, st, st1);
      if n.Scalar? {
        ScalarAlone(doc, a, order1, n);
        LoadScalar(doc, a, order, i, st, st1);
      } else {
        LoadVisitAll(doc, a, order1, cs, st1);
        var st2 := LoadAll(st1, ev).st;
        assert order'[|order|] == order1[|order|] == i;
        CloseNode(doc, a, order, order', i, st, st1, st2);
        LoadOne(st2, EndEvents(n)[0]);
        LoadConcat(st, [StartEvent(doc, a, i)], ev);
        LoadConcat(st, [StartEvent(doc, a, i)] + ev, EndEvents(n));
      }
    }
  }

  lemma {:induction false} LoadVisitAll(doc: Document, a: seq<nat>, order: seq<nat>, cs: seq<nat>, st: Loader)
    requires InStep(doc, a, order, st) && (forall c <- cs :: Index(doc, c)) && CoveredAll(doc, a, order, cs)
    ensures var (ev, order') := VisitAll(doc, a, order, cs);
      var r := LoadAll(st, ev);
      r.Loaded? && Advanced(doc, a, order, order', st, r.st, AddAll(st.nodes, st.ctx, Rename(order', cs)))
    decreases Unseen(doc, order), 1 + |cs|
  {
    hide AliasesOf, WellFormed, AddTo, Step, StartEvent, With, Children, Complete;
    if cs == [] {
      assert st.nodes[..|order|] == st.nodes;
    } else {
      var (ev, order1) := Visit(doc, a, order, cs[0]);
      UnseenMore(doc, order, order1);
      LoadVisit(doc, a, order, cs[0], st);
      var st1 := LoadAll(st, ev).st;
      var (ev2, order2) := VisitAll(doc, a, order1, cs[1..]);
      LoadVisitAll(doc, a, order1, cs[1..], st1);
      LoadConcat(st, ev, ev2);
      Chain(doc, a, order, order1, order2, cs, st, st1, LoadAll(st1, ev2).st);
    }
  }

  lemma LoadOne(st: Loader, ev: Event)
    ensures LoadAll(st, [ev]) == Step(st, ev)
  {
    var r := Step(st, ev);
    assert [ev][1..] == [];
    if r.Loaded? { assert LoadAll(r.st, []) == Loaded(r.st); }
  }

  lemma LoadAlias(doc: Document, a: seq<nat>, order: seq<nat>, i: nat, st: Loader)
    requires InStep(doc, a, order, st) && Index(doc, i) && i in order && a[i - 1] != 0
    ensures var r := LoadAll(st, [Alias(Anchor(a[i - 1]))]);
      r.Loaded? && Advanced(doc, a, order, order, st, r.st, AddTo(st.nodes, st.ctx, Pos(order, i)))
  {
    var ev := Alias(Anchor(a[i - 1]));
    FindOpened(a, order, i);
    AddNode(st, Pos(order, i));
    LoadOne(st, ev);
    hide AliasesOf, WellFormed, AddTo;
    var nodes := AddTo(st.nodes, st.ctx, Pos(order, i));
    assert nodes[..|order|] == nodes;
  }

  lemma Opened(doc: Document, a: seq<nat>, order: seq<nat>, i: nat, st: Loader, st1: Loader)
    requires InStep(doc, a, order, st) && Index(doc, i) && i !in order
    requires Step(st, StartEvent(doc, a, i)) == Loaded(st1)
    ensures InStep(doc, a, order + [i], st1)
    ensures st1.nodes == AddTo(st.nodes, st.ctx, |order| + 1) + [With(Normal(Get(doc, i)), [])]
    ensures st1.ctx == st.ctx + if Get(doc, i).Scalar? then [] else [|order| + 1]
  {
    OpenNode(doc, a, order, i, st);
    hide AliasesOf, WellFormed, AddTo, Step, StartEvent, Children;
    AddToPrefix(st.nodes, [With(Normal(Get(doc, i)), [])], st.ctx, |order| + 1);
  }

  lemma ScalarAlone(doc: Document, a: seq<nat>, order: seq<nat>, n: Node)
    requires WellFormed(doc) && |a| == |doc| && n.Scalar?
    ensures Children(n) == [] && EndEvents(n) == [] && VisitAll(doc, a, order, []) == ([], order)
  {
  }

  lemma LoadScalar(doc: Document, a: seq<nat>, order: seq<nat>, i: nat, st: Loader, st1: Loader)
    requires InStep(doc, a, order, st) && InStep(doc, a, order + [i], st1) && Index(doc, i) && i !in order
      && Get(doc, i).Scalar?
    requires st1.nodes == AddTo(st.nodes, st.ctx, |order| + 1) + [With(Normal(Get(doc, i)), [])]
      && st1.ctx == st.ctx + []
    ensures Advanced(doc, a, order, order + [i], st, st1, AddTo(st.nodes, st.ctx, Pos(order + [i], i)))
  {
    hide AliasesOf, WellFormed, AddTo, Complete, Children, With, Pos, Distinct, InRange, OpenTop, Normal;
    PosNew(order, i);
    ScalarComplete(doc, order, i, st1.nodes);
    var base := AddTo(st.nodes, st.ctx, |order| + 1);
    assert st1.nodes[..|order|] == base;
    assert st1.ctx == st.ctx;
    assert order <= order + [i];
  }

  /** A scalar is complete as soon as it is there. */
  lemma ScalarComplete(doc: Document, order: seq<nat>, i: nat, nodes: Document)
    requires Index(doc, i) && Get(doc, i).Scalar? && |nodes| == |order| + 1
    requires nodes[|order|] == With(Normal(Get(doc, i)), []) && i !in order
    ensures Complete(doc, order + [i], nodes, |order|)
  {
  }

  /** The children of the new collection have all been added to it. */
  lemma CloseNode(doc: Document, a: seq<nat>, order: seq<nat>, order': seq<nat>, i: nat, st: Loader, st1: Loader,
                  st2: Loader)
    requires InStep(doc, a, order, st) && Index(doc, i) && i !in order && !Get(doc, i).Scalar?
    requires InStep(doc, a, order + [i], st1)
    requires st1.nodes == AddTo(st.nodes, st.ctx, |order| + 1) + [With(Normal(Get(doc, i)), [])]
      && st1.ctx == st.ctx + [|order| + 1]
    requires (forall c <- Children(Get(doc, i)) :: c in order') && i in order'
    requires Advanced(doc, a, order + [i], order', st1, st2,
                      AddAll(st1.nodes, st1.ctx, Rename(order', Children(Get(doc, i)))))
    ensures Step(st2, EndEvents(Get(doc, i))[0]) == Loaded(st2.(ctx := st.ctx))
    ensures Advanced(doc, a, order, order', st, st2.(ctx := st.ctx), AddTo(st.nodes, st.ctx, Pos(order', i)))
  {
    hide AliasesOf, WellFormed, Children, AddAll, AddTo, Append, Rename, Pos, With, Complete, Close, Step, Distinct,
         Normal;
    var n := Get(doc, i);
    var cs, m := Rename(order', Children(n)), |order|;
    var base := AddTo(st.nodes, st.ctx, m + 1);
    CloseNodes(base, Normal(n), st1.ctx, cs, st2.nodes);
    PosNew(order, i);
    PosStable(order + [i], order', i);
    CompleteNew(doc, order, order', i, st2.nodes);
    CloseStep(st2, Normal(n), cs, m);
    Popped(doc, a, order, order', i, st, st1, st2, AddAll(st1.nodes, st1.ctx, cs), base);
  }

  lemma Popped(doc: Document, a: seq<nat>, order: seq<nat>, order': seq<nat>, i: nat, st: Loader, st1: Loader,
               st2: Loader,
               inner: Document, base: Document)
    requires Advanced(doc, a, order + [i], order', st1, st2, inner) && st1.ctx == st.ctx + [|order| + 1]
    requires |base| == |order| && st2.nodes[..|order|] == base && OpenTop(base, st.ctx)
      && Complete(doc, order', st2.nodes, |order|)
    ensures st2.ctx[..|st2.ctx| - 1] == st.ctx
    ensures Advanced(doc, a, order, order', st, st2.(ctx := st.ctx), base)
  {
    hide AliasesOf, WellFormed, Complete;
    CloseTop(base, st2.nodes, st.ctx);
  }

  lemma CompleteNew(doc: Document, order: seq<nat>, order': seq<nat>, i: nat, nodes: Document)
    requires order + [i] <= order' && |nodes| == |order'| && Index(doc, i)
      && forall c <- Children(Get(doc, i)) :: c in order'
    requires nodes[|order|] == With(Normal(Get(doc, i)), Rename(order', Children(Get(doc, i))))
    ensures Complete(doc, order', nodes, |order|)
  {
    assert order'[|order|] == (order + [i])[|order|] == i;
  }

  lemma CloseNodes(base: Document, n: Node, ctx: seq<nat>, cs: seq<nat>, nodes: Document)
    requires !n.Scalar? && ctx != [] && ctx[|ctx| - 1] == |base| + 1 <= |nodes|
    requires forall k :: 0 <= k < |cs| ==> cs[k] != 0
    requires OpenTop(base + [With(n, [])], ctx) && nodes[..|base| + 1] == AddAll(base + [With(n, [])], ctx, cs)
    ensures nodes[..|base|] == base && nodes[|base|] == With(n, cs)
  {
    hide AddAll, With;
    AddAllTop(base, n, ctx, cs, []);
    assert [] + cs == cs;
    assert nodes[..|base| + 1] == base + [With(n, cs)];
    assert nodes[|base|] == nodes[..|base| + 1][|base|];
    assert nodes[..|base|] == nodes[..|base| + 1][..|base|];
  }

  lemma CloseStep(st: Loader, n: Node, cs: seq<nat>, m: nat)
    requires !n.Scalar? && m < |st.nodes| && st.nodes[m] == With(n, cs) && st.ctx != [] && st.ctx[|st.ctx| - 1] == m + 1
    ensures Step(st, EndEvents(n)[0]) == Loaded(st.(ctx := st.ctx[..|st.ctx| - 1]))
  {
  }

  lemma CloseTop(base: Document, nodes: Document, ctx: seq<nat>)
    requires OpenTop(base, ctx) && base <= nodes
    ensures OpenTop(nodes, ctx)
  {
  }

  lemma CompleteStable(doc: Document, order: seq<nat>, order': seq<nat>, nodes: Document, nodes': Document, k: nat)
    requires Complete(doc, order, nodes, k) && order <= order' && |nodes'| == |order'| && nodes'[k] == nodes[k]
    ensures Complete(doc, order', nodes', k)
  {
    RenameStable(order, order', Children(Get(doc, order[k])));
    hide Rename, Children, With;
  }

  lemma {:induction false} AddAllPrefix(nodes: Document, more: Document, ctx: seq<nat>, cs: seq<nat>)
    requires OpenTop(nodes, ctx)
    ensures OpenTop(nodes + more, ctx) && AddAll(nodes + more, ctx, cs) == AddAll(nodes, ctx, cs) + more
    decreases |cs|
  {
    if cs != [] {
      AddToPrefix(nodes, more, ctx, cs[0]);
      AddAllPrefix(AddTo(nodes, ctx, cs[0]), more, ctx, cs[1..]);
    }
  }

  /** First the head, then the rest of a list of children. */
  lemma Chain(doc: Document, a: seq<nat>, order: seq<nat>, order1: seq<nat>, order2: seq<nat>, cs: seq<nat>,
              st: Loader, st1: Loader, st2: Loader)
    requires InStep(doc, a, order, st) && cs != [] && cs[0] in order1 && forall c <- cs :: c in order2
    requires Advanced(doc, a, order, order1, st, st1, AddTo(st.nodes, st.ctx, Pos(order1, cs[0])))
    requires Advanced(doc, a, order1, order2, st1, st2, AddAll(st1.nodes, st1.ctx, Rename(order2, cs[1..])))
    ensures Advanced(doc, a, order, order2, st, st2, AddAll(st.nodes, st.ctx, Rename(order2, cs)))
  {
    hide AliasesOf, WellFormed, AddTo, AddAll, Rename, Complete, Pos;
    PosStable(order1, order2, cs[0]);
    AddAllHead(st.nodes, st.ctx, order2, cs);
    var first, more := AddTo(st.nodes, st.ctx, Pos(order2, cs[0])), st1.nodes[|order|..];
    assert st1.nodes == first + more;
    var rest := Rename(order2, cs[1..]);
    AddAllPrefix(first, more, st.ctx, rest);
    var whole := AddAll(first, st.ctx, rest);
    assert st2.nodes[..|order1|] == whole + more;
    ChainNodes(doc, order, order1, order2, st1.nodes, st2.nodes, whole);
  }

  lemma AddAllHead(nodes: Document, ctx: seq<nat>, order: seq<nat>, cs: seq<nat>)
    requires OpenTop(nodes, ctx) && cs != [] && forall c <- cs :: c in order
    ensures AddAll(nodes, ctx, Rename(order, cs)) == AddAll(AddTo(nodes, ctx, Pos(order, cs[0])), ctx,
                                                            Rename(order, cs[1..]))
  {
    assert Rename(order, cs)[1..] == Rename(order, cs[1..]);
  }

  lemma ChainNodes(doc: Document, order: seq<nat>, order1: seq<nat>, order2: seq<nat>, nodes1: Document,
                   nodes2: Document, whole: Document)
    requires order <= order1 <= order2 && |nodes1| == |order1| && |nodes2| == |order2| && |whole| == |order|
    requires nodes2[..|order1|] == whole + nodes1[|order|..]
    requires forall k :: |order| <= k < |order1| ==> Complete(doc, order1, nodes1, k)
    requires forall k :: |order1| <= k < |order2| ==> Complete(doc, order2, nodes2, k)
    ensures nodes2[..|order|] == whole
    ensures forall k :: |order| <= k < |order2| ==> Complete(doc, order2, nodes2, k)
  {
    hide Complete;
    assert nodes2[..|order|] == nodes2[..|order1|][..|order|];
    forall k | |order| <= k < |order2| ensures Complete(doc, order2, nodes2, k) {
      if k < |order1| {
        assert nodes2[k] == nodes2[..|order1|][k] == nodes1[|order|..][k - |order|] == nodes1[k];
        CompleteStable(doc, order1, order2, nodes1, nodes2, k);
      }
    }
  }
}
