/**
 The dumper of dumper.c: two recursive walks that update the per-node anchor records and append events.
 */
module Dumper {
  import opened Options
  import opened YamlGraph
  import opened DumpSpec
  import opened LoadSpec
  import opened DumpLoad
  import opened GraphRoundTrip

  class Dumper {
    const doc: Document
    var references: seq<nat>
    var anchors: seq<nat>
    var serialized: seq<bool>
    var lastAnchorId: nat
    var events: seq<Event>
    ghost var order: seq<nat>

    ghost predicate Valid()
      reads this
    {
      && WellFormed(doc) && |references| == |anchors| == |serialized| == |doc|
      && forall i :: 1 <= i <= |doc| ==> (serialized[i - 1] <==> i in order)
    }

    ghost function C(): Counts
      reads this
    {
      Counts(references, anchors, lastAnchorId)
    }

    constructor (doc: Document)
      requires WellFormed(doc)
      ensures Valid() && this.doc == doc && events == [] && order == [] && C() == Counts(Zeros(|doc|), Zeros(|doc|), 0)
    {
      this.doc := doc;
      references, anchors, serialized := seq(|doc|, _ => 0), seq(|doc|, _ => 0), seq(|doc|, _ => false);
      lastAnchorId, events, order := 0, [], [];
    }

    /** yaml_emitter_anchor_node. */
    method AnchorNode(index: nat)
      requires Valid() && Index(doc, index)
      modifies this`references, this`anchors, this`lastAnchorId
      ensures Valid() && C() == Count(doc, old(C()), index)
      decreases Uncounted(doc, C()), 0
    {
      hide WellFormed;
      references := references[index - 1 := references[index - 1] + 1];
      if references[index - 1] == 1 {
        ChildIndex(doc, index);
        UncountedLess(doc, old(C()), index);
        AnchorChildren(doc[index - 1], index);
      } else if references[index - 1] == 2 {
        lastAnchorId := lastAnchorId + 1;
        anchors := anchors[index - 1 := lastAnchorId];
      }
    }

    method AnchorChildren(node: Node, ghost index: nat)
      requires Valid() && Index(doc, index) && node == Get(doc, index)
      requires forall c <- Children(node) :: Index(doc, c)
      modifies this`references, this`anchors, this`lastAnchorId
      ensures Valid() && C() == CountAll(doc, old(C()), Children(node))
      decreases Uncounted(doc, C()), 1 + |Children(node)|
    {
      hide WellFormed, Count, CountAll, CountRest;
      ghost var cs := Children(node);
      ghost var whole := CountAll(doc, C(), cs);
      NoneCounted(doc, C(), cs);
      match node {
        case Scalar(_, _, _) =>
        case Sequence(_, items, _) =>
          var k := 0;
          while k < |items|
            invariant k <= |items| && Valid() && Grown(old(C()), C()) && CountRest(doc, whole, C(), cs, k)
          {
            CountOne(doc, whole, C(), cs, k);
            UncountedMore(doc, old(C()), C());
            AnchorNode(items[k]);
            k := k + 1;
          }
        case Mapping(_, pairs, _) =>
          var k := 0;
          while k < |pairs|
            invariant k <= |pairs| && Valid() && Grown(old(C()), C()) && CountRest(doc, whole, C(), cs, 2 * k)
          {
            FlatAt(pairs, k);
            CountOne(doc, whole, C(), cs, 2 * k);
            UncountedMore(doc, old(C()), C());
            AnchorNode(pairs[k].key);
            CountOne(doc, whole, C(), cs, 2 * k + 1);
            UncountedMore(doc, old(C()), C());
            AnchorNode(pairs[k].value);
            k := k + 1;
          }
      }
      AllCounted(doc, whole, C(), cs);
    }

    /** yaml_emitter_dump_node: an alias for a node that has been written, else the node. */
    method DumpNode(index: nat)
      requires Valid() && Index(doc, index)
      modifies this`serialized, this`events, this`order
      ensures Valid() && order == Visit(doc, anchors, old(order), index).1
      ensures events == old(events) + Visit(doc, anchors, old(order), index).0
      decreases Unseen(doc, order), 0
    {
      hide WellFormed, VisitAll;
      var anchorId := anchors[index - 1];
      if serialized[index - 1] {
        events := events + [Alias(Anchor(anchorId))];
        return;
      }
      var anchor := if anchorId != 0 then Some(Anchor(anchorId)) else None;
      ChildIndex(doc, index);
      UnseenLess(doc, order, index);
      serialized := serialized[index - 1 := true];
      order := order + [index];
      match doc[index - 1] {
        case Scalar(tag, value, style) =>
          ScalarAlone(doc, anchors, order, doc[index - 1]);
          events := events + [ScalarEvent(anchor, Some(tag), value, style)];
        case Sequence(tag, items, style) =>
          events := events + [SequenceStart(anchor, Some(tag), style)];
          DumpChildren(doc[index - 1], index);
          events := events + [SequenceEnd];
        case Mapping(tag, pairs, style) =>
          events := events + [MappingStart(anchor, Some(tag), style)];
          DumpChildren(doc[index - 1], index);
          events := events + [MappingEnd];
      }
    }

    method DumpChildren(node: Node, ghost index: nat)
      requires Valid() && Index(doc, index) && node == Get(doc, index)
      requires forall c <- Children(node) :: Index(doc, c)
      modifies this`serialized, this`events, this`order
      ensures Valid() && order == VisitAll(doc, anchors, old(order), Children(node)).1
      ensures events == old(events) + VisitAll(doc, anchors, old(order), Children(node)).0
      decreases Unseen(doc, order), 1 + |Children(node)|
    {
      hide WellFormed, Visit, VisitAll;
      ghost var cs := Children(node);
      ghost var done: seq<Event> := [];
      NoChildren(doc, anchors, order, cs);
      match node {
        case Scalar(_, _, _) =>
        case Sequence(_, items, _) =>
          var k := 0;
          while k < |items|
            invariant k <= |items| && Valid() && old(order) <= order && events == old(events) + done
            invariant Rest(doc, anchors, old(order), cs, done, order, k)
          {
            DumpOne(doc, anchors, old(order), cs, done, order, k);
            UnseenMore(doc, old(order), order);
            ghost var ev := Visit(doc, anchors, order, items[k]).0;
            DumpNode(items[k]);
            done := done + ev;
            k := k + 1;
          }
        case Mapping(_, pairs, _) =>
          var k := 0;
          while k < |pairs|
            invariant k <= |pairs| && Valid() && old(order) <= order && events == old(events) + done
            invariant Rest(doc, anchors, old(order), cs, done, order, 2 * k)
          {
            FlatAt(pairs, k);
            DumpOne(doc, anchors, old(order), cs, done, order, 2 * k);
            UnseenMore(doc, old(order), order);
            ghost var ev := Visit(doc, anchors, order, pairs[k].key).0;
            DumpNode(pairs[k].key);
            done := done + ev;
            DumpOne(doc, anchors, old(order), cs, done, order, 2 * k + 1);
            UnseenMore(doc, old(order), order);
            ev := Visit(doc, anchors, order, pairs[k].value).0;
            DumpNode(pairs[k].value);
            done := done + ev;
            k := k + 1;
          }
      }
      AllChildren(doc, anchors, old(order), cs, done, order);
    }

    /** The walks of yaml_emitter_dump, from the root. */
    method DumpRoot()
      requires Valid() && doc != [] && C() == Counts(Zeros(|doc|), Zeros(|doc|), 0) && order == [] && events == []
      modifies this
      ensures Valid() && (events, order) == Dump(doc)
      ensures forall k :: 0 <= k < |events| && events[k].Alias? ==>
        exists j :: 0 <= j < k && Anchors(events[j], events[k].target)
    {
      hide Count, Visit, Anchors;
      ghost var evs := Dump(doc).0;
      forall k | 0 <= k < |evs| && evs[k].Alias? ensures exists j :: 0 <= j < k && Anchors(evs[j], evs[k].target) {
        AliasAfterAnchor(doc, k);
      }
      AnchorNode(1);
      DumpNode(1);
      assert events == Visit(doc, anchors, [], 1).0;
    }
  }

  /** The first `k` children have been counted; the rest leads to `whole`. */
  ghost predicate CountRest(doc: Document, whole: Counts, c: Counts, cs: seq<nat>, k: nat) {
    && WellFormed(doc) && c.Ok(doc) && (forall x <- cs :: Index(doc, x)) && k <= |cs|
    && CountAll(doc, c, cs[k..]) == whole
  }

  lemma NoneCounted(doc: Document, c: Counts, cs: seq<nat>)
    requires WellFormed(doc) && c.Ok(doc) && forall x <- cs :: Index(doc, x)
    ensures CountRest(doc, CountAll(doc, c, cs), c, cs, 0)
  {
    assert cs[0..] == cs;
  }

  lemma CountOne(doc: Document, whole: Counts, c: Counts, cs: seq<nat>, k: nat)
    requires CountRest(doc, whole, c, cs, k) && k < |cs|
    ensures WellFormed(doc) && c.Ok(doc) && Index(doc, cs[k]) && Grown(c, Count(doc, c, cs[k]))
    ensures CountRest(doc, whole, Count(doc, c, cs[k]), cs, k + 1)
  {
    assert cs[k] in cs;
    assert cs[k..][1..] == cs[k + 1..] && cs[k..][0] == cs[k];
    hide Count;
  }

  lemma AllCounted(doc: Document, whole: Counts, c: Counts, cs: seq<nat>)
    requires CountRest(doc, whole, c, cs, |cs|)
    ensures c == whole
  {
    assert cs[|cs|..] == [];
  }

  /** The first `k` children have been written as `done`; the rest is still to come. */
  ghost predicate Rest(doc: Document, a: seq<nat>, order0: seq<nat>, cs: seq<nat>, done: seq<Event>, order: seq<nat>,
                       k: nat) {
    && WellFormed(doc) && |a| == |doc| && (forall c <- cs :: Index(doc, c)) && k <= |cs|
    && var (ev, order') := VisitAll(doc, a, order, cs[k..]);
       VisitAll(doc, a, order0, cs) == (done + ev, order')
  }

  lemma NoChildren(doc: Document, a: seq<nat>, order: seq<nat>, cs: seq<nat>)
    requires WellFormed(doc) && |a| == |doc| && forall c <- cs :: Index(doc, c)
    ensures Rest(doc, a, order, cs, [], order, 0)
  {
    assert cs[0..] == cs;
    var ev := VisitAll(doc, a, order, cs).0;
    assert [] + ev == ev;
  }

  lemma DumpOne(doc: Document, a: seq<nat>, order0: seq<nat>, cs: seq<nat>, done: seq<Event>, order: seq<nat>, k: nat)
    requires Rest(doc, a, order0, cs, done, order, k) && k < |cs|
    ensures Index(doc, cs[k])
    ensures var (ev, order') := Visit(doc, a, order, cs[k]); Rest(doc, a, order0, cs, done + ev, order', k + 1)
  {
    assert cs[k] in cs;
    var (ev, order') := Visit(doc, a, order, cs[k]);
    var ev' := VisitAll(doc, a, order', cs[k + 1..]).0;
    assert cs[k..][1..] == cs[k + 1..] && cs[k..][0] == cs[k];
    UnseenMore(doc, order, order');
    assert done + (ev + ev') == done + ev + ev';
  }

  lemma AllChildren(doc: Document, a: seq<nat>, order0: seq<nat>, cs: seq<nat>, done: seq<Event>, order: seq<nat>)
    requires Rest(doc, a, order0, cs, done, order, |cs|)
    ensures VisitAll(doc, a, order0, cs) == (done, order)
  {
    assert done + [] == done;
  }

  lemma {:induction false} FlatAt(pairs: seq<Pair>, k: nat)
    requires k < |pairs|
    ensures Flat(pairs)[2 * k] == pairs[k].key && Flat(pairs)[2 * k + 1] == pairs[k].value
  {
    if k > 0 { FlatAt(pairs[1..], k - 1); }
  }
}
