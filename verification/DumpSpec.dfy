/**
 What dumper.c computes: a walk that counts references and gives anchors to nodes met twice, and a second walk over the
 same graph that writes every node once, at its first visit, and an alias at every later one.
 */
module DumpSpec {
  import opened Options
  import opened YamlGraph
  import opened Sets

  // ----- termination: the nodes not visited yet ------------------------------------------------

  ghost function Unseen(doc: Document, order: seq<nat>): nat { |UnseenSet(doc, order)| }

  ghost function UnseenSet(doc: Document, order: seq<nat>): set<nat> { set i | 1 <= i <= |doc| && i !in order }

  lemma UnseenLess(doc: Document, order: seq<nat>, i: nat)
    requires Index(doc, i) && i !in order
    ensures Unseen(doc, order + [i]) < Unseen(doc, order)
  {
    assert i in UnseenSet(doc, order) && i !in UnseenSet(doc, order + [i]);
    SubsetSize(UnseenSet(doc, order + [i]), UnseenSet(doc, order));
  }

  lemma UnseenMore(doc: Document, order: seq<nat>, order': seq<nat>)
    requires order <= order'
    ensures Unseen(doc, order') <= Unseen(doc, order)
  {
    assert forall i <- order :: i in order';
    SubsetSize(UnseenSet(doc, order'), UnseenSet(doc, order));
  }

  // ----- the writing walk ------------------------------------------------------------------------

  ghost function AnchorOf(a: seq<nat>, i: nat): Option<Text>
    requires 1 <= i <= |a|
  {
    if a[i - 1] == 0 then None else Some(Anchor(a[i - 1]))
  }

  ghost function StartEvent(doc: Document, a: seq<nat>, i: nat): Event
    requires Index(doc, i) && |a| == |doc|
  {
    match Get(doc, i)
    case Scalar(tag, value, style) => ScalarEvent(AnchorOf(a, i), Some(tag), value, style)
    case Sequence(tag, _, style) => SequenceStart(AnchorOf(a, i), Some(tag), style)
    case Mapping(tag, _, style) => MappingStart(AnchorOf(a, i), Some(tag), style)
  }

  ghost function EndEvents(n: Node): seq<Event> {
    match n
    case Scalar(_, _, _) => []
    case Sequence(_, _, _) => [SequenceEnd]
    case Mapping(_, _, _) => [MappingEnd]
  }

  /** Dump node `i` when the nodes of `order` have been dumped, with anchor ids `a`. */
  ghost function Visit(doc: Document, a: seq<nat>, order: seq<nat>, i: nat): (r: (seq<Event>, seq<nat>))
    requires WellFormed(doc) && Index(doc, i) && |a| == |doc|
    ensures order <= r.1 && i in r.1
    decreases Unseen(doc, order), 0
  {
    if i in order then ([Alias(Anchor(a[i - 1]))], order)
    else
      ChildIndex(doc, i);
      UnseenLess(doc, order, i);
      var (ev, order') := VisitAll(doc, a, order + [i], Children(Get(doc, i)));
      assert (order + [i])[|order|] == i;
      ([StartEvent(doc, a, i)] + ev + EndEvents(Get(doc, i)), order')
  }

  ghost function VisitAll(doc: Document, a: seq<nat>, order: seq<nat>, cs: seq<nat>): (r: (seq<Event>, seq<nat>))
    requires WellFormed(doc) && |a| == |doc| && forall c <- cs :: Index(doc, c)
    ensures order <= r.1 && forall c <- cs :: c in r.1
    decreases Unseen(doc, order), 1 + |cs|
  {
    if cs == [] then ([], order)
    else
      var (ev, order') := Visit(doc, a, order, cs[0]);
      UnseenMore(doc, order, order');
      var (ev', order'') := VisitAll(doc, a, order', cs[1..]);
      (ev + ev', order'')
  }

  // ----- the counting walk -----------------------------------------------------------------------

  datatype Counts = Counts(references: seq<nat>, anchors: seq<nat>, last: nat) {
    ghost predicate Ok(doc: Document) { |references| == |anchors| == |doc| }
  }

  /** The nodes with a reference. */
  ghost predicate Seen(c: Counts, i: nat)
    requires 1 <= i <= |c.references|
  {
    c.references[i - 1] > 0
  }

  ghost function Uncounted(doc: Document, c: Counts): nat
    requires c.Ok(doc)
  {
    |UncountedSet(doc, c)|
  }

  ghost function UncountedSet(doc: Document, c: Counts): set<nat>
    requires c.Ok(doc)
  {
    set k | 0 <= k < |doc| && c.references[k] == 0
  }

  ghost predicate Grown(c: Counts, c': Counts) {
    && |c'.references| == |c.references| && |c'.anchors| == |c.anchors|
    && forall k :: 0 <= k < |c.references| ==> c'.references[k] >= c.references[k]
  }

  lemma UncountedMore(doc: Document, c: Counts, c': Counts)
    requires c.Ok(doc) && Grown(c, c')
    ensures c'.Ok(doc) && Uncounted(doc, c') <= Uncounted(doc, c)
  {
    SubsetSize(UncountedSet(doc, c'), UncountedSet(doc, c));
  }

  function Counted(c: Counts, i: nat): Counts
    requires 1 <= i <= |c.references|
  {
    c.(references := c.references[i - 1 := c.references[i - 1] + 1])
  }

  lemma UncountedLess(doc: Document, c: Counts, i: nat)
    requires c.Ok(doc) && Index(doc, i) && !Seen(c, i)
    ensures Counted(c, i).Ok(doc) && Uncounted(doc, Counted(c, i)) < Uncounted(doc, c)
  {
    assert i - 1 in UncountedSet(doc, c) && i - 1 !in UncountedSet(doc, Counted(c, i));
    SubsetSize(UncountedSet(doc, Counted(c, i)), UncountedSet(doc, c));
  }

  /** yaml_emitter_anchor_node. */
  ghost function Count(doc: Document, c: Counts, i: nat): (r: Counts)
    requires WellFormed(doc) && Index(doc, i) && c.Ok(doc)
    ensures r.Ok(doc) && Grown(c, r)
    decreases Uncounted(doc, c), 0
  {
    var c' := Counted(c, i);
    if c'.references[i - 1] == 1 then
      ChildIndex(doc, i);
      UncountedLess(doc, c, i);
      CountAll(doc, c', Children(Get(doc, i)))
    else if c'.references[i - 1] == 2 then c'.(anchors := c'.anchors[i - 1 := c'.last + 1], last := c'.last + 1)
    else c'
  }

  ghost function CountAll(doc: Document, c: Counts, cs: seq<nat>): (r: Counts)
    requires WellFormed(doc) && c.Ok(doc) && forall x <- cs :: Index(doc, x)
    ensures r.Ok(doc) && Grown(c, r)
    decreases Uncounted(doc, c), 1 + |cs|
  {
    if cs == [] then c
    else
      var c' := Count(doc, c, cs[0]);
      UncountedMore(doc, c, c');
      CountAll(doc, c', cs[1..])
  }

  // ----- the two walks meet the same nodes ---------------------------------------------------------

  /** Exactly the nodes with two references have an anchor, each its own. */
  ghost predicate Sound(doc: Document, c: Counts) {
    && c.Ok(doc)
    && (forall k :: 0 <= k < |doc| ==> (c.anchors[k] != 0 <==> c.references[k] >= 2) && c.anchors[k] <= c.last)
    && Distinct(c.anchors)
  }

  ghost predicate Distinct(a: seq<nat>) {
    forall j, k :: 0 <= j < k < |a| && a[j] != 0 && a[k] != 0 ==> a[j] != a[k]
  }

  /** The walks have visited the same nodes. */
  ghost predicate Matches(doc: Document, c: Counts, order: seq<nat>)
    requires c.Ok(doc)
  {
    forall i :: 1 <= i <= |doc| ==> (Seen(c, i) <==> i in order)
  }

  /** Every anchored node of `a` is anchored in `b`. */
  ghost predicate Within(a: seq<nat>, b: seq<nat>) {
    |a| == |b| && forall k :: 0 <= k < |a| && a[k] != 0 ==> b[k] != 0
  }

  /** In this part of the writing walk every alias goes to an anchored node. */
  ghost predicate Covered(doc: Document, a: seq<nat>, order: seq<nat>, i: nat)
    requires WellFormed(doc) && Index(doc, i) && |a| == |doc|
    decreases Unseen(doc, order), 0
  {
    if i in order then a[i - 1] != 0
    else
      ChildIndex(doc, i);
      UnseenLess(doc, order, i);
      CoveredAll(doc, a, order + [i], Children(Get(doc, i)))
  }

  ghost predicate CoveredAll(doc: Document, a: seq<nat>, order: seq<nat>, cs: seq<nat>)
    requires WellFormed(doc) && |a| == |doc| && forall c <- cs :: Index(doc, c)
    decreases Unseen(doc, order), 1 + |cs|
  {
    cs != [] ==>
      var order' := Visit(doc, a, order, cs[0]).1;
      UnseenMore(doc, order, order');
      Covered(doc, a, order, cs[0]) && CoveredAll(doc, a, order', cs[1..])
  }

  lemma {:induction false} CountVisits(doc: Document, c: Counts, a: seq<nat>, order: seq<nat>, i: nat)
    requires WellFormed(doc) && Index(doc, i) && Sound(doc, c) && Matches(doc, c, order)
    requires Within(Count(doc, c, i).anchors, a)
    ensures var c' := Count(doc, c, i);
      && Sound(doc, c') && Matches(doc, c', Visit(doc, a, order, i).1) && Within(c.anchors, c'.anchors)
      && Covered(doc, a, order, i)
    decreases Unseen(doc, order), 0
  {
    var c1 := Counted(c, i);
    if i in order {
      assert Seen(c, i);
    } else {
      assert !Seen(c, i);
      ChildIndex(doc, i);
      UnseenLess(doc, order, i);
      UncountedLess(doc, c, i);
      assert Matches(doc, c1, order + [i]);
      CountAllVisits(doc, c1, a, order + [i], Children(Get(doc, i)));
    }
  }

  lemma {:induction false} CountAllVisits(doc: Document, c: Counts, a: seq<nat>, order: seq<nat>, cs: seq<nat>)
    requires WellFormed(doc) && Sound(doc, c) && Matches(doc, c, order) && forall x <- cs :: Index(doc, x)
    requires Within(CountAll(doc, c, cs).anchors, a)
    ensures var c' := CountAll(doc, c, cs);
      && Sound(doc, c') && Matches(doc, c', VisitAll(doc, a, order, cs).1) && Within(c.anchors, c'.anchors)
      && CoveredAll(doc, a, order, cs)
    decreases Unseen(doc, order), 1 + |cs|
  {
    if cs != [] {
      var c1, order1 := Count(doc, c, cs[0]), Visit(doc, a, order, cs[0]).1;
      UnseenMore(doc, order, order1);
      UncountedMore(doc, c, c1);
      CountAllSound(doc, c1, cs[1..]);
      CountVisits(doc, c, a, order, cs[0]);
      CountAllVisits(doc, c1, a, order1, cs[1..]);
    }
  }

  /** Anchors only come; needed before the walks are compared. */
  lemma {:induction false} CountSound(doc: Document, c: Counts, i: nat)
    requires WellFormed(doc) && Index(doc, i) && c.Ok(doc)
    ensures Within(c.anchors, Count(doc, c, i).anchors)
    decreases Uncounted(doc, c), 0
  {
    var c1 := Counted(c, i);
    if c1.references[i - 1] == 1 {
      ChildIndex(doc, i);
      UncountedLess(doc, c, i);
      CountAllSound(doc, c1, Children(Get(doc, i)));
    }
  }

  lemma {:induction false} CountAllSound(doc: Document, c: Counts, cs: seq<nat>)
    requires WellFormed(doc) && c.Ok(doc) && forall x <- cs :: Index(doc, x)
    ensures Within(c.anchors, CountAll(doc, c, cs).anchors)
    decreases Uncounted(doc, c), 1 + |cs|
  {
    if cs != [] {
      var c1 := Count(doc, c, cs[0]);
      UncountedMore(doc, c, c1);
      CountSound(doc, c, cs[0]);
      CountAllSound(doc, c1, cs[1..]);
    }
  }

  /** The end of the document is not among the events of a node. */
  ghost predicate NoEnd(events: seq<Event>) { forall k :: 0 <= k < |events| ==> !events[k].DocumentEnd? }

  lemma {:induction false} VisitNoEnd(doc: Document, a: seq<nat>, order: seq<nat>, i: nat)
    requires WellFormed(doc) && Index(doc, i) && |a| == |doc|
    ensures NoEnd(Visit(doc, a, order, i).0)
    decreases Unseen(doc, order), 0
  {
    if i !in order {
      ChildIndex(doc, i);
      UnseenLess(doc, order, i);
      VisitAllNoEnd(doc, a, order + [i], Children(Get(doc, i)));
    }
  }

  lemma {:induction false} VisitAllNoEnd(doc: Document, a: seq<nat>, order: seq<nat>, cs: seq<nat>)
    requires WellFormed(doc) && |a| == |doc| && forall c <- cs :: Index(doc, c)
    ensures NoEnd(VisitAll(doc, a, order, cs).0)
    decreases Unseen(doc, order), 1 + |cs|
  {
    if cs != [] {
      var order' := Visit(doc, a, order, cs[0]).1;
      UnseenMore(doc, order, order');
      VisitNoEnd(doc, a, order, cs[0]);
      VisitAllNoEnd(doc, a, order', cs[1..]);
    }
  }
}
