/**
 A document that has been loaded is dumped and loaded without any change: one round trip brings the nodes into the order
 of their first visits, and a second one leaves everything as it is.
 */
module DumpTwice {
  import opened YamlGraph
  import opened DumpSpec
  import opened LoadSpec
  import opened DumpLoad
  import opened GraphRoundTrip

  /** 1, ..., n. */
  ghost function Upto(n: nat): (s: seq<nat>)
    ensures |s| == n && (forall k :: 0 <= k < n ==> s[k] == k + 1) && forall i :: i in s <==> 1 <= i <= n
  {
    if n == 0 then [] else Upto(n - 1) + [n]
  }

  lemma UptoNext(n: nat)
    ensures Upto(n) + [n + 1] == Upto(n + 1)
  {
  }

  lemma PosAt(order: seq<nat>, k: nat)
    requires NoRepeat(order) && k < |order|
    ensures Pos(order, order[k]) == k + 1
  {
    var p := Pos(order, order[k]);
    assert order[p - 1] == order[k];
  }

  lemma RenameTail(order: seq<nat>, cs: seq<nat>)
    requires cs != [] && forall c <- cs :: c in order
    ensures Rename(order, cs)[0] == Pos(order, cs[0]) && Rename(order, cs)[1..] == Rename(order, cs[1..])
  {
  }

  /** `nodes` is `doc` renumbered along `order`. */
  ghost predicate Renumbered(doc: Document, a: seq<nat>, order: seq<nat>, nodes: Document, b: seq<nat>) {
    && WellFormed(doc) && |a| == |doc| && WellFormed(nodes) && |b| == |nodes| == |order| && NoRepeat(order)
    && forall k :: 0 <= k < |order| ==> SameEdges(doc, order, nodes, k)
  }

  /** A visit of the copy goes along with the visit of the original: node `|o| + 1` is the next one met. */
  lemma {:induction false} VisitCopy(doc: Document, a: seq<nat>, order: seq<nat>, nodes: Document, b: seq<nat>,
                                     o: seq<nat>, i: nat)
    requires Renumbered(doc, a, order, nodes, b) && Index(doc, i) && Visit(doc, a, o, i).1 <= order
    ensures i in order && Visit(nodes, b, Upto(|o|), Pos(order, i)).1 == Upto(|Visit(doc, a, o, i).1|)
    decreases Unseen(doc, o), 0
  {
    hide Rename, Pos, SameEdges, NoRepeat, WellFormed, VisitAll;
    var o' := Visit(doc, a, o, i).1;
    assert i in order;
    var p := Pos(order, i);
    if i in o {
      var k :| 0 <= k < |o| && o[k] == i;
      assert order[k] == i;
      PosAt(order, k);
    } else {
      ChildIndex(doc, i);
      UnseenLess(doc, o, i);
      assert o + [i] <= o';
      assert order[|o|] == (o + [i])[|o|] == i;
      PosAt(order, |o|);
      UptoNext(|o|);
      EdgesOf(doc, order, nodes, |o|);
      ChildIndex(nodes, p);
      UnseenLess(nodes, Upto(|o|), p);
      VisitAllCopy(doc, a, order, nodes, b, o + [i], Children(Get(doc, i)));
    }
  }

  lemma EdgesOf(doc: Document, order: seq<nat>, nodes: Document, k: nat)
    requires SameEdges(doc, order, nodes, k)
    ensures Index(doc, order[k]) && (forall c <- Children(Get(doc, order[k])) :: c in order) && Index(nodes, k + 1)
    ensures Children(Get(nodes, k + 1)) == Rename(order, Children(Get(doc, order[k])))
  {
  }

  lemma {:induction false} VisitAllCopy(doc: Document, a: seq<nat>, order: seq<nat>, nodes: Document, b: seq<nat>,
                                        o: seq<nat>, cs: seq<nat>)
    requires Renumbered(doc, a, order, nodes, b) && (forall c <- cs :: Index(doc, c)) && (forall c <- cs :: c in order)
    requires VisitAll(doc, a, o, cs).1 <= order
    ensures VisitAll(nodes, b, Upto(|o|), Rename(order, cs)).1 == Upto(|VisitAll(doc, a, o, cs).1|)
    decreases Unseen(doc, o), 1 + |cs|
  {
    hide Pos, SameEdges, NoRepeat, WellFormed, Visit;
    if cs != [] {
      var o1 := Visit(doc, a, o, cs[0]).1;
      UnseenMore(doc, o, o1);
      RenameTail(order, cs);
      assert cs[0] in cs && o1 <= order;
      VisitCopy(doc, a, order, nodes, b, o, cs[0]);
      UnseenMore(nodes, Upto(|o|), Upto(|o1|));
      VisitAllCopy(doc, a, order, nodes, b, o1, cs[1..]);
    }
  }

  /** Dumping a document and loading the events. */
  ghost function Trip(doc: Document): Result
    requires WellFormed(doc) && doc != []
  {
    LoadAll(EMPTY, Dump(doc).0 + [DocumentEnd])
  }

  // ----- documents in the order of first visits --------------------------------------------------------------

  lemma RenameSame(n: nat, cs: seq<nat>)
    requires forall c <- cs :: 1 <= c <= n
    ensures Rename(Upto(n), cs) == cs
  {
    forall c | c in cs ensures Pos(Upto(n), c) == c { PosAt(Upto(n), c - 1); }
  }

  /** A node that keeps its number and whose children keep theirs is unchanged but for the tag "!". */
  lemma CopySame(doc: Document, nodes: Document, k: nat)
    requires WellFormed(doc) && k < |doc| && Complete(doc, Upto(|doc|), nodes, k)
    ensures nodes[k] == Normal(doc[k])
  {
    hide With, Rename, Normal;
    var n := doc[k];
    assert n in doc;
    RenameSame(|doc|, Children(n));
    WithOwn(Normal(n));
  }

  /** A loaded node has no tag "!". */
  lemma NormalWith(n: Node, cs: seq<nat>)
    ensures Normal(With(Normal(n), cs)) == With(Normal(n), cs)
  {
    assert SCALAR_TAG != "!" && SEQUENCE_TAG != "!" && MAPPING_TAG != "!";
  }

  lemma LoadedNormal(doc: Document, order: seq<nat>, nodes: Document, k: nat)
    requires Complete(doc, order, nodes, k)
    ensures Normal(nodes[k]) == nodes[k]
  {
    hide Normal, With, Rename, Children;
    var n := Get(doc, order[k]);
    NormalWith(n, Rename(order, Children(n)));
  }

  /** Dumping and loading a document whose nodes are numbered in the order of first visits changes nothing but the tag
      "!". */
  lemma NumberedComesBack(doc: Document)
    requires WellFormed(doc) && doc != [] && Dump(doc).1 == Upto(|doc|)
    ensures var r := Trip(doc);
      r.Loaded? && |r.st.nodes| == |doc| && forall k :: 0 <= k < |doc| ==> r.st.nodes[k] == Normal(doc[k])
  {
    hide Dump, LoadAll, SameEdges, Complete, Reaches, NoRepeat, Normal;
    DumpThenLoad(doc);
    var nodes := Trip(doc).st.nodes;
    forall k | 0 <= k < |doc| ensures nodes[k] == Normal(doc[k]) { CopySame(doc, nodes, k); }
  }

  lemma CopyWellFormed(doc: Document, order: seq<nat>, nodes: Document)
    requires |nodes| == |order| && forall k :: 0 <= k < |order| ==> SameEdges(doc, order, nodes, k)
    ensures WellFormed(nodes)
  {
    forall n | n in nodes ensures forall c <- Children(n) :: 1 <= c <= |nodes| {
      var k :| 0 <= k < |nodes| && nodes[k] == n;
      assert SameEdges(doc, order, nodes, k);
    }
  }

  /** The nodes of a copy are visited in their order. */
  lemma CopyOrder(doc: Document, nodes: Document)
    requires WellFormed(doc) && doc != [] && Copy(doc, Dump(doc).1, nodes)
    requires forall k :: 0 <= k < |nodes| ==> SameEdges(doc, Dump(doc).1, nodes, k)
    ensures WellFormed(nodes) && nodes != [] && Dump(nodes).1 == Upto(|nodes|)
  {
    hide Visit, SameEdges, Complete, Reaches, NoRepeat, Count;
    var order := Dump(doc).1;
    CopyWellFormed(doc, order, nodes);
    DumpCovered(doc);
    DumpCovered(nodes);
    VisitCopy(doc, AnchorIds(doc), order, nodes, AnchorIds(nodes), [], 1);
    PosAt(order, 0);
    assert Upto(0) == [];
  }

  /** One round trip is enough: what has been loaded is dumped and loaded again as it is, for every document. */
  lemma SecondTrip(doc: Document)
    requires WellFormed(doc) && doc != []
    ensures Trip(doc).Loaded? && var nodes := Trip(doc).st.nodes;
      WellFormed(nodes) && nodes != [] && Trip(nodes).Loaded? && Trip(nodes).st.nodes == nodes
  {
    hide Dump, LoadAll, SameEdges, Reaches, NoRepeat, Normal, Complete;
    DumpThenLoad(doc);
    var nodes := Trip(doc).st.nodes;
    CopyOrder(doc, nodes);
    NumberedComesBack(nodes);
    forall k | 0 <= k < |nodes| ensures Normal(nodes[k]) == nodes[k] {
      LoadedNormal(doc, Dump(doc).1, nodes, k);
    }
  }
}
