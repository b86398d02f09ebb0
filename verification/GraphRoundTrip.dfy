/**
 Dumping a document and loading the events gives a copy of the part of the graph that the root reaches.
 */
module GraphRoundTrip {
  import opened YamlGraph
  import opened DumpSpec
  import opened LoadSpec
  import opened DumpLoad

  // ----- reachability -------------------------------------------------------------------------------

  ghost predicate Path(doc: Document, p: seq<nat>) {
    && p != [] && (forall k :: 0 <= k < |p| ==> Index(doc, p[k]))
    && forall k :: 0 < k < |p| ==> p[k] in Children(Get(doc, p[k - 1]))
  }

  ghost predicate Reaches(doc: Document, i: nat, j: nat) {
    exists p :: Path(doc, p) && p[0] == i && p[|p| - 1] == j
  }

  lemma ReachesSelf(doc: Document, i: nat)
    requires Index(doc, i)
    ensures Reaches(doc, i, i)
  {
    assert Path(doc, [i]);
  }

  lemma ReachesVia(doc: Document, i: nat, c: nat, j: nat)
    requires Index(doc, i) && c in Children(Get(doc, i)) && Reaches(doc, c, j)
    ensures Reaches(doc, i, j)
  {
    var p :| Path(doc, p) && p[0] == c && p[|p| - 1] == j;
    var q := [i] + p;
    assert forall k :: 0 < k < |q| ==> q[k] == p[k - 1];
    assert Path(doc, q);
  }

  lemma {:induction false} VisitReaches(doc: Document, a: seq<nat>, order: seq<nat>, i: nat, j: nat)
    requires WellFormed(doc) && Index(doc, i) && |a| == |doc| && j in Visit(doc, a, order, i).1 && j !in order
    ensures Reaches(doc, i, j)
    decreases Unseen(doc, order), 0
  {
    ChildIndex(doc, i);
    if i !in order {
      UnseenLess(doc, order, i);
      if j == i {
        ReachesSelf(doc, i);
      } else {
        var c := VisitAllReaches(doc, a, order + [i], Children(Get(doc, i)), j);
        ReachesVia(doc, i, c, j);
      }
    }
  }

  lemma {:induction false} VisitAllReaches(doc: Document, a: seq<nat>, order: seq<nat>, cs: seq<nat>, j: nat)
    returns (c: nat)
    requires WellFormed(doc) && |a| == |doc| && (forall x <- cs :: Index(doc, x))
    requires j in VisitAll(doc, a, order, cs).1 && j !in order
    ensures c in cs && Reaches(doc, c, j)
    decreases Unseen(doc, order), 1 + |cs|
  {
    var order1 := Visit(doc, a, order, cs[0]).1;
    UnseenMore(doc, order, order1);
    if j in order1 {
      c := cs[0];
      VisitReaches(doc, a, order, c, j);
    } else {
      c := VisitAllReaches(doc, a, order1, cs[1..], j);
    }
  }

  /** No node is visited for the first time twice. */
  ghost predicate NoRepeat(order: seq<nat>) { forall j, k :: 0 <= j < k < |order| ==> order[j] != order[k] }

  lemma {:induction false} VisitNoRepeat(doc: Document, a: seq<nat>, order: seq<nat>, i: nat)
    requires WellFormed(doc) && Index(doc, i) && |a| == |doc| && NoRepeat(order)
    ensures NoRepeat(Visit(doc, a, order, i).1)
    decreases Unseen(doc, order), 0
  {
    ChildIndex(doc, i);
    if i !in order {
      UnseenLess(doc, order, i);
      VisitAllNoRepeat(doc, a, order + [i], Children(Get(doc, i)));
    }
  }

  lemma {:induction false} VisitAllNoRepeat(doc: Document, a: seq<nat>, order: seq<nat>, cs: seq<nat>)
    requires WellFormed(doc) && |a| == |doc| && (forall x <- cs :: Index(doc, x)) && NoRepeat(order)
    ensures NoRepeat(VisitAll(doc, a, order, cs).1)
    decreases Unseen(doc, order), 1 + |cs|
  {
    if cs != [] {
      var order1 := Visit(doc, a, order, cs[0]).1;
      UnseenMore(doc, order, order1);
      VisitNoRepeat(doc, a, order, cs[0]);
      VisitAllNoRepeat(doc, a, order1, cs[1..]);
    }
  }

  ghost predicate Closed(doc: Document, order: seq<nat>, k: nat)
    requires k < |order|
  {
    Index(doc, order[k]) ==> forall c <- Children(Get(doc, order[k])) :: c in order
  }

  /** A set of nodes that contains the children of its members contains whatever they reach. */
  lemma {:induction false} ClosedReach(doc: Document, order: seq<nat>, p: seq<nat>)
    requires Path(doc, p) && p[0] in order
    requires forall k :: 0 <= k < |order| ==> Closed(doc, order, k)
    ensures p[|p| - 1] in order
    decreases |p|
  {
    if |p| > 1 {
      var q := p[1..];
      assert forall k :: 0 <= k < |q| ==> q[k] == p[k + 1];
      var k :| 0 <= k < |order| && order[k] == p[0];
      assert Closed(doc, order, k);
      assert q[0] in Children(Get(doc, order[k]));
      ClosedReach(doc, order, q);
    }
  }

  // ----- the round trip ---------------------------------------------------------------------------------

  ghost function Zeros(n: nat): seq<nat> { seq(n, _ => 0) }

  /** The anchor ids of the counting walk from the root. */
  ghost function AnchorIds(doc: Document): seq<nat>
    requires WellFormed(doc) && doc != []
  {
    Count(doc, Counts(Zeros(|doc|), Zeros(|doc|), 0), 1).anchors
  }

  /** The events of yaml_emitter_dump between the start and the end of the document, and the order of first visits. */
  ghost function Dump(doc: Document): (seq<Event>, seq<nat>)
    requires WellFormed(doc) && doc != []
  {
    Visit(doc, AnchorIds(doc), [], 1)
  }

  lemma DumpCovered(doc: Document)
    requires WellFormed(doc) && doc != []
    ensures |AnchorIds(doc)| == |doc| && Distinct(AnchorIds(doc)) && Covered(doc, AnchorIds(doc), [], 1)
  {
    var c := Counts(Zeros(|doc|), Zeros(|doc|), 0);
    assert Sound(doc, c) && Matches(doc, c, []);
    CountVisits(doc, c, AnchorIds(doc), [], 1);
  }

  /** `nodes` is the part of `doc` that its root reaches, renumbered: `order` lists that part without repetition and
      root first, and node `k` is node `order[k]` with the same kind, tag (but for "!"), value and style and its
      children renumbered. */
  ghost predicate Copy(doc: Document, order: seq<nat>, nodes: Document) {
    && |nodes| == |order| > 0 && order[0] == 1 && NoRepeat(order)
    && (forall j :: j in order <==> Reaches(doc, 1, j))
    && forall k :: 0 <= k < |order| ==> Complete(doc, order, nodes, k)
  }

  /** The edges that leave node `k` are those of node `order[k]`, in their order and renumbered. */
  ghost predicate SameEdges(doc: Document, order: seq<nat>, nodes: Document, k: nat) {
    && k < |order| == |nodes| && Index(doc, order[k]) && (forall c <- Children(Get(doc, order[k])) :: c in order)
    && Children(nodes[k]) == Rename(order, Children(Get(doc, order[k])))
  }

  /** A complete node has the renumbered children of the original. */
  lemma CompleteChildren(doc: Document, order: seq<nat>, nodes: Document, k: nat)
    requires Complete(doc, order, nodes, k)
    ensures SameEdges(doc, order, nodes, k)
  {
    hide With, Children, Rename, Normal, PairUp, Flat;
    var n := Get(doc, order[k]);
    WithChildren(Normal(n), Rename(order, Children(n)));
  }

  lemma WithChildren(n: Node, cs: seq<nat>)
    requires |cs| == |Children(n)|
    ensures Children(With(n, cs)) == cs
  {
    if n.Mapping? { FlatPairUp(cs); }
  }

  lemma {:induction false} FlatPairUp(cs: seq<nat>)
    requires |cs| % 2 == 0
    ensures Flat(PairUp(cs)) == cs
  {
    if cs != [] {
      FlatPairUp(cs[2..]);
      assert cs == [cs[0], cs[1]] + cs[2..];
      assert PairUp(cs)[1..] == PairUp(cs[2..]);
    }
  }

  /** Loading what was dumped. Every document whose pairs are complete comes back as a copy of what its root reaches,
      edge by edge, sharing and cycles included. */
  lemma DumpThenLoad(doc: Document)
    requires WellFormed(doc) && doc != []
    ensures var (events, order) := Dump(doc);
      var r := LoadAll(EMPTY, events + [DocumentEnd]);
      && r.Loaded? && r.st.ctx == [] && Copy(doc, order, r.st.nodes)
      && forall k :: 0 <= k < |order| ==> SameEdges(doc, order, r.st.nodes, k)
  {
    hide Visit, LoadAll, Copy, Advanced, Count, SameEdges;
    var st := LoadDumped(doc);
    DumpCovered(doc);
    MakeCopy(doc, AnchorIds(doc), Dump(doc).1, st);
    CopyEdges(doc, Dump(doc).1, st.nodes);
  }

  lemma CopyEdges(doc: Document, order: seq<nat>, nodes: Document)
    requires Copy(doc, order, nodes)
    ensures forall k :: 0 <= k < |order| ==> SameEdges(doc, order, nodes, k)
  {
    hide SameEdges, Complete, Reaches, NoRepeat;
    forall k | 0 <= k < |order| ensures SameEdges(doc, order, nodes, k) {
      CompleteChildren(doc, order, nodes, k);
    }
  }

  /** Every alias the dumper writes comes after a node to which it gave that anchor. */
  lemma AliasAfterAnchor(doc: Document, k: nat)
    requires WellFormed(doc) && doc != [] && k < |Dump(doc).0| && Dump(doc).0[k].Alias?
    ensures exists j :: 0 <= j < k && Anchors(Dump(doc).0[j], Dump(doc).0[k].target)
  {
    hide Visit;
    var st := LoadDumped(doc);
    var events := Dump(doc).0;
    AliasesDeclared(EMPTY, events + [DocumentEnd], k);
    var j :| 0 <= j < k && Anchors((events + [DocumentEnd])[j], events[k].target);
    assert Anchors(events[j], events[k].target);
  }

  lemma MakeCopy(doc: Document, a: seq<nat>, order: seq<nat>, st: Loader)
    requires WellFormed(doc) && doc != [] && |a| == |doc| && order == Visit(doc, a, [], 1).1
    requires Advanced(doc, a, [], order, EMPTY, st, [])
    ensures Copy(doc, order, st.nodes)
  {
    hide Visit, Advanced, Complete, Reaches, NoRepeat, WellFormed;
    VisitNoRepeat(doc, a, [], 1);
    RootFirst(doc, a);
    AllComplete(doc, a, order, st);
    VisitedIsReached(doc, a, order, st.nodes);
  }

  lemma LoadDumped(doc: Document) returns (st: Loader)
    requires WellFormed(doc) && doc != []
    ensures var (events, order) := Dump(doc);
      && LoadAll(EMPTY, events + [DocumentEnd]) == Loaded(st) && st.ctx == []
      && Advanced(doc, AnchorIds(doc), [], order, EMPTY, st, [])
  {
    hide Visit, Count, Advanced;
    DumpCovered(doc);
    st := LoadVisited(doc, AnchorIds(doc));
    var events := Dump(doc).0;
    LoadConcat(EMPTY, events, [DocumentEnd]);
    LoadOne(st, DocumentEnd);
  }

  lemma LoadVisited(doc: Document, a: seq<nat>) returns (st: Loader)
    requires WellFormed(doc) && doc != [] && |a| == |doc| && Distinct(a) && Covered(doc, a, [], 1)
    ensures var (events, order) := Visit(doc, a, [], 1);
      LoadAll(EMPTY, events) == Loaded(st) && st.ctx == [] && Advanced(doc, a, [], order, EMPTY, st, [])
  {
    hide Visit, Covered, Complete, AliasesOf, WellFormed, LoadAll, Distinct;
    EmptyInStep(doc, a);
    LoadVisit(doc, a, [], 1, EMPTY);
    st := LoadAll(EMPTY, Visit(doc, a, [], 1).0).st;
  }

  lemma AllComplete(doc: Document, a: seq<nat>, order: seq<nat>, st: Loader)
    requires Advanced(doc, a, [], order, EMPTY, st, [])
    ensures |st.nodes| == |order| && forall k :: 0 <= k < |order| ==> Complete(doc, order, st.nodes, k)
  {
    hide Complete, AliasesOf, WellFormed;
  }

  lemma EmptyInStep(doc: Document, a: seq<nat>)
    requires WellFormed(doc) && |a| == |doc| && Distinct(a)
    ensures InStep(doc, a, [], EMPTY)
  {
  }

  lemma VisitedIsReached(doc: Document, a: seq<nat>, order: seq<nat>, nodes: Document)
    requires WellFormed(doc) && doc != [] && |a| == |doc| && order == Visit(doc, a, [], 1).1
    requires forall k :: 0 <= k < |order| ==> Complete(doc, order, nodes, k)
    ensures forall j :: j in order <==> Reaches(doc, 1, j)
  {
    hide Visit, Rename, With;
    forall k | 0 <= k < |order| ensures Closed(doc, order, k) {
      assert Complete(doc, order, nodes, k);
    }
    hide Complete, Closed;
    forall j ensures j in order <==> Reaches(doc, 1, j) {
      if j in order { VisitReaches(doc, a, [], 1, j); }
      if Reaches(doc, 1, j) {
        var p :| Path(doc, p) && p[0] == 1 && p[|p| - 1] == j;
        ClosedReach(doc, order, p);
      }
    }
  }

  lemma RootFirst(doc: Document, a: seq<nat>)
    requires WellFormed(doc) && doc != [] && |a| == |doc|
    ensures var order := Visit(doc, a, [], 1).1; |order| > 0 && order[0] == 1
  {
    ChildIndex(doc, 1);
    UnseenLess(doc, [], 1);
    assert [] + [1] == [1];
    assert [1] <= VisitAll(doc, a, [1], Children(Get(doc, 1))).1;
  }
}
