/**
 What loading means, for any events: node k of the document is that of the k-th event that makes a node, its children
 are the nodes of its child events in order, and an alias stands for the node with its anchor. Nothing here refers to
 the loader.
 */
module LoadLaw {
  import opened Options
  import opened YamlGraph
  import opened LoadSpec

  /** Events that make a node. */
  predicate Makes(ev: Event) { ev.ScalarEvent? || ev.SequenceStart? || ev.MappingStart? }

  predicate Starts(ev: Event) { ev.SequenceStart? || ev.MappingStart? }

  function Front(es: seq<Event>): seq<Event>
    requires es != []
  {
    es[..|es| - 1]
  }

  function Last(es: seq<Event>): Event
    requires es != []
  {
    es[|es| - 1]
  }

  /** The number of nodes that the events make. */
  function Count(es: seq<Event>): nat {
    if es == [] then 0 else Count(Front(es)) + if Makes(Last(es)) then 1 else 0
  }

  /** The number of the node that event `j` makes; nodes are numbered from 1. */
  function Number(es: seq<Event>, j: nat): nat
    requires j < |es|
  {
    Count(es[..j]) + 1
  }

  /** The positions of the collections that are open after the events. */
  function OpenAt(es: seq<Event>): (open: seq<nat>)
    ensures forall k :: 0 <= k < |open| ==> open[k] < |es| && Starts(es[open[k]])
  {
    if es == [] then []
    else
      var open := OpenAt(Front(es));
      if Starts(Last(es)) then open + [|es| - 1]
      else if (Last(es).SequenceEnd? || Last(es).MappingEnd?) && open != [] then open[..|open| - 1]
      else open
  }

  /** The position of the first event with this anchor, or the number of events. */
  function AnchorPos(es: seq<Event>, name: Text): (k: nat)
    ensures k <= |es| && (k < |es| ==> Makes(es[k]) && es[k].anchor == Some(name))
    ensures forall j :: 0 <= j < k && Makes(es[j]) ==> es[j].anchor != Some(name)
  {
    if es == [] then 0
    else
      var k := AnchorPos(Front(es), name);
      if k < |es| - 1 then k else if Makes(Last(es)) && Last(es).anchor == Some(name) then k else |es|
  }

  /** The node that the last event stands for: its own, or that with the anchor of an alias. */
  function TargetOf(es: seq<Event>): nat
    requires es != []
  {
    var front := Front(es);
    if !Last(es).Alias? then Count(front) + 1
    else
      var k := AnchorPos(front, Last(es).target);
      if k < |front| then Number(front, k) else 0
  }

  /** The nodes of the child events of the collection that starts at `p`, in order. */
  function ChildrenOf(es: seq<Event>, p: nat): seq<nat> {
    if es == [] then []
    else
      var front := Front(es);
      var open := OpenAt(front);
      ChildrenOf(front, p)
      + if open != [] && open[|open| - 1] == p && (Makes(Last(es)) || Last(es).Alias?) then [TargetOf(es)] else []
  }

  /** The node an event makes, without children: with the event's tag, or the default one if it has none or "!". */
  function Bare(ev: Event): Node
    requires Makes(ev)
  {
    var plain := ev.tag == None || ev.tag == Some("!");
    match ev
    case ScalarEvent(_, tag, value, style) =>
      Scalar(if plain then "tag:yaml.org,2002:str" else tag.value, value, style)
    case SequenceStart(_, tag, style) => Sequence(if plain then "tag:yaml.org,2002:seq" else tag.value, [], style)
    case MappingStart(_, tag, style) => Mapping(if plain then "tag:yaml.org,2002:map" else tag.value, [], style)
  }

  /** The node that event `j` has made. */
  ghost predicate MadeBy(es: seq<Event>, nodes: Document, j: nat)
    requires j < |es|
  {
    Makes(es[j]) ==>
      && Number(es, j) <= |nodes|
      && nodes[Number(es, j) - 1] == With(Bare(es[j]), ChildrenOf(es, j))
  }

  /** The document is what the events say. */
  ghost predicate Represents(es: seq<Event>, nodes: Document) {
    |nodes| == Count(es) && forall j :: 0 <= j < |es| ==> MadeBy(es, nodes, j)
  }

  /** No anchor twice, and every alias after its anchor. */
  ghost predicate Sound(es: seq<Event>) { forall k :: 0 <= k < |es| ==> SoundAt(es, k) }

  ghost predicate SoundAt(es: seq<Event>, k: nat)
    requires k < |es|
  {
    && (Makes(es[k]) && es[k].anchor.Some? ==> AnchorPos(es[..k], es[k].anchor.value) == k)
    && (es[k].Alias? ==> AnchorPos(es[..k], es[k].target) < k)
  }

  // ----- the loader keeps the law ---------------------------------------------------------------------------------

  function AliasList(es: seq<Event>): seq<AliasData> {
    if es == [] then []
    else
      var front := Front(es);
      AliasList(front)
      + if Makes(Last(es)) && Last(es).anchor.Some? then [AliasData(Last(es).anchor.value, Count(front) + 1)] else []
  }

  /** Numbers of the open collections, which are the loader's stack. */
  ghost predicate Stacked(es: seq<Event>, ctx: seq<nat>) {
    |ctx| == |OpenAt(es)| && forall k :: 0 <= k < |ctx| ==> ctx[k] == Number(es, OpenAt(es)[k])
  }

  ghost predicate Lawful(es: seq<Event>, st: Loader) {
    Represents(es, st.nodes) && Sound(es) && st.aliases == AliasList(es) && Stacked(es, st.ctx)
  }

  lemma Snoc(es: seq<Event>, ev: Event)
    ensures Front(es + [ev]) == es && Last(es + [ev]) == ev
  {
  }

  lemma {:induction false} CountMono(es: seq<Event>, i: nat, j: nat)
    requires i <= j <= |es|
    ensures Count(es[..i]) <= Count(es[..j])
    ensures i < j && Makes(es[i]) ==> Count(es[..i]) < Count(es[..j])
    decreases j
  {
    if i < j {
      assert Front(es[..j]) == es[..j - 1] && Last(es[..j]) == es[j - 1];
      CountMono(es, i, j - 1);
    }
  }

  /** Different events have different numbers, up to the number of all. */
  lemma NumberRange(es: seq<Event>, i: nat, j: nat)
    requires i < |es| && j < |es| && Makes(es[i]) && Makes(es[j])
    ensures 1 <= Number(es, i) <= Count(es) && (i != j ==> Number(es, i) != Number(es, j))
  {
    assert es[..|es|] == es;
    CountMono(es, i, |es|);
    if i < j { CountMono(es, i, j); } else { CountMono(es, j, i); }
  }

  lemma NumberStays(es: seq<Event>, ev: Event, j: nat)
    requires j < |es|
    ensures Number(es + [ev], j) == Number(es, j) && (es + [ev])[j] == es[j]
  {
    assert (es + [ev])[..j] == es[..j];
  }

  lemma NumberNew(es: seq<Event>, ev: Event)
    ensures Number(es + [ev], |es|) == Count(es) + 1 && (es + [ev])[|es|] == ev
  {
    assert (es + [ev])[..|es|] == es;
  }

  /** The registered anchors answer as the events do. */
  lemma {:induction false} AliasLookup(es: seq<Event>, name: Text)
    ensures var k, a := FindAnchor(AliasList(es), name), AnchorPos(es, name);
      && (k < |AliasList(es)| <==> a < |es|)
      && (k < |AliasList(es)| ==> AliasList(es)[k].index == Number(es, a))
  {
    if es != [] {
      var front, ev := Front(es), Last(es);
      AliasLookup(front, name);
      assert es == front + [ev];
      var a := AnchorPos(front, name);
      if a < |front| { NumberStays(front, ev, a); }
      NumberNew(front, ev);
      if Makes(ev) && ev.anchor.Some? {
        FindSnoc(AliasList(front), AliasData(ev.anchor.value, Count(front) + 1), name);
      } else {
        assert AliasList(front) + [] == AliasList(front);
      }
    }
  }

  lemma {:induction false} FindSnoc(aliases: seq<AliasData>, x: AliasData, name: Text)
    ensures var k := FindAnchor(aliases, name);
      FindAnchor(aliases + [x], name)
      == if k < |aliases| then k else if x.anchor == name then |aliases| else |aliases| + 1
    ensures (aliases + [x])[|aliases|] == x && forall k :: 0 <= k < |aliases| ==> (aliases + [x])[k] == aliases[k]
  {
    var all := aliases + [x];
    assert forall j :: 0 <= j < |aliases| ==> all[j] == aliases[j];
    assert all[|aliases|] == x;
  }

  lemma {:induction false} SoundFront(es: seq<Event>, ev: Event)
    ensures Sound(es + [ev]) <==> Sound(es) && SoundAt(es + [ev], |es|)
  {
    var all := es + [ev];
    forall k | 0 <= k < |es| ensures SoundAt(all, k) <==> SoundAt(es, k) { assert all[..k] == es[..k]; }
  }

  lemma {:induction false} ChildrenNonzero(es: seq<Event>, p: nat)
    requires Sound(es)
    ensures forall k :: 0 <= k < |ChildrenOf(es, p)| ==> ChildrenOf(es, p)[k] != 0
  {
    if es != [] {
      var front, ev := Front(es), Last(es);
      assert es == front + [ev] && es[..|front|] == front;
      SoundFront(front, ev);
      assert SoundAt(es, |front|);
      ChildrenNonzero(front, p);
    }
  }

  /** A collection has no children before it starts. */
  lemma {:induction false} ChildrenNew(es: seq<Event>, p: nat)
    requires p >= |es|
    ensures ChildrenOf(es, p) == []
  {
    if es != [] { ChildrenNew(Front(es), p); }
  }

  lemma ChildrenNext(es: seq<Event>, ev: Event, p: nat)
    ensures var open := OpenAt(es);
      ChildrenOf(es + [ev], p) == ChildrenOf(es, p)
        + if open != [] && open[|open| - 1] == p && (Makes(ev) || ev.Alias?) then [TargetOf(es + [ev])] else []
  {
    Snoc(es, ev);
  }

  lemma NodeOfBare(ev: Event)
    requires Makes(ev)
    ensures NodeOf(ev) == Bare(ev) == With(Bare(ev), [])
  {
  }

  lemma CountNext(es: seq<Event>, ev: Event)
    ensures Count(es + [ev]) == Count(es) + if Makes(ev) then 1 else 0
  {
    Snoc(es, ev);
  }

  /** Nodes as the events say, but for the child that the last event still has to be. */
  lemma PushRepresents(es: seq<Event>, nodes: Document, ev: Event, nodes': Document)
    requires Represents(es, nodes) && Makes(ev) && OpenAt(es) == [] && nodes' == nodes + [Bare(ev)]
    ensures Represents(es + [ev], nodes')
  {
    var all := es + [ev];
    CountNext(es, ev);
    NumberNew(es, ev);
    ChildrenNew(es, |es|);
    NodeOfBare(ev);
    forall j | 0 <= j < |all| ensures MadeBy(all, nodes', j) {
      ChildrenNext(es, ev, j);
      if j < |es| && Makes(es[j]) {
        NumberStays(es, ev, j);
        assert MadeBy(es, nodes, j);
        NumberRange(es, j, j);
        assert ChildrenOf(es, j) + [] == ChildrenOf(es, j);
      }
    }
  }

  /** An event in an open collection becomes its child. */
  lemma ChildRepresents(es: seq<Event>, nodes: Document, ev: Event, nodes1: Document)
    requires Represents(es, nodes) && Sound(es) && (Makes(ev) || ev.Alias?) && OpenAt(es) != []
    requires nodes1 == nodes + if Makes(ev) then [Bare(ev)] else []
    ensures var open := OpenAt(es);
      var parent := Number(es, open[|open| - 1]);
      && 1 <= parent <= |nodes1| && parent <= |nodes| && !nodes1[parent - 1].Scalar?
      && Represents(es + [ev], nodes1[parent - 1 := Append(nodes1[parent - 1], TargetOf(es + [ev]))])
  {
    hide With, Append, ChildrenOf, Bare, TargetOf, Count, OpenAt;
    var open, c := OpenAt(es), TargetOf(es + [ev]);
    var p := open[|open| - 1];
    assert MadeBy(es, nodes, p);
    NumberRange(es, p, p);
    ChildrenNonzero(es, p);
    BareKind(es[p], ChildrenOf(es, p));
    AppendWith(Bare(es[p]), ChildrenOf(es, p), c);
    var nodes' := nodes1[Number(es, p) - 1 := Append(nodes1[Number(es, p) - 1], c)];
    CountNext(es, ev);
    forall j | 0 <= j < |es + [ev]| ensures MadeBy(es + [ev], nodes', j) {
      ChildMadeBy(es, nodes, ev, nodes1, nodes', p, c, j);
    }
  }

  lemma BareKind(ev: Event, cs: seq<nat>)
    requires Starts(ev)
    ensures !Bare(ev).Scalar? && !With(Bare(ev), cs).Scalar?
  {
  }

  lemma ChildMadeBy(es: seq<Event>, nodes: Document, ev: Event, nodes1: Document, nodes': Document, p: nat, c: nat,
                    j: nat)
    requires Represents(es, nodes) && (Makes(ev) || ev.Alias?) && OpenAt(es) != [] && p == OpenAt(es)[|OpenAt(es)| - 1]
    requires nodes1 == nodes + (if Makes(ev) then [Bare(ev)] else []) && c == TargetOf(es + [ev]) && j <= |es|
    requires Number(es, p) <= |nodes|
    requires nodes' == nodes1[Number(es, p) - 1 := With(Bare(es[p]), ChildrenOf(es, p) + [c])]
    ensures MadeBy(es + [ev], nodes', j)
  {
    hide With, ChildrenOf, Bare, TargetOf, Count, OpenAt;
    ChildrenNext(es, ev, j);
    NumberNew(es, ev);
    if j < |es| {
      NumberStays(es, ev, j);
      if Makes(es[j]) {
        assert MadeBy(es, nodes, j);
        NumberRange(es, j, p);
        assert ChildrenOf(es, j) + [] == ChildrenOf(es, j);
      }
    } else if Makes(ev) {
      ChildrenNew(es, |es|);
      NodeOfBare(ev);
    }
  }

  /** Events that neither make a node nor stand for one. */
  lemma OtherRepresents(es: seq<Event>, nodes: Document, ev: Event)
    requires Represents(es, nodes) && !Makes(ev) && (ev.Alias? ==> OpenAt(es) == [])
    ensures Represents(es + [ev], nodes)
  {
    var all := es + [ev];
    CountNext(es, ev);
    forall j | 0 <= j < |all| ensures MadeBy(all, nodes, j) {
      if j < |es| && Makes(es[j]) {
        ChildrenNext(es, ev, j);
        NumberStays(es, ev, j);
        assert MadeBy(es, nodes, j);
        assert ChildrenOf(es, j) + [] == ChildrenOf(es, j);
      }
    }
  }

  lemma AliasListNext(es: seq<Event>, ev: Event)
    ensures AliasList(es + [ev])
      == AliasList(es) + if Makes(ev) && ev.anchor.Some? then [AliasData(ev.anchor.value, Count(es) + 1)] else []
  {
    hide Count, Front, Last;
    Snoc(es, ev);
  }

  lemma OpenNext(es: seq<Event>, ev: Event)
    ensures var open := OpenAt(es);
      OpenAt(es + [ev]) == if Starts(ev) then open + [|es|]
                           else if (ev.SequenceEnd? || ev.MappingEnd?) && open != [] then open[..|open| - 1] else open
  {
    Snoc(es, ev);
  }

  lemma StackNext(es: seq<Event>, ctx: seq<nat>, ev: Event)
    requires Stacked(es, ctx)
    ensures Starts(ev) ==> Stacked(es + [ev], ctx + [Count(es) + 1])
    ensures !Starts(ev) && !ev.SequenceEnd? && !ev.MappingEnd? ==> Stacked(es + [ev], ctx)
    ensures (ev.SequenceEnd? || ev.MappingEnd?) && ctx != [] ==> Stacked(es + [ev], ctx[..|ctx| - 1])
  {
    hide Number, OpenAt, Count;
    OpenNext(es, ev);
    NumberNew(es, ev);
    var open := OpenAt(es);
    forall k | 0 <= k < |open| ensures Number(es + [ev], open[k]) == Number(es, open[k]) {
      NumberStays(es, ev, open[k]);
    }
  }

  lemma TargetNext(es: seq<Event>, ev: Event)
    ensures TargetOf(es + [ev]) ==
      if !ev.Alias? then Count(es) + 1
      else if AnchorPos(es, ev.target) < |es| then Number(es, AnchorPos(es, ev.target)) else 0
  {
    Snoc(es, ev);
  }

  lemma SoundNext(es: seq<Event>, ev: Event)
    ensures SoundAt(es + [ev], |es|) <==>
      && (Makes(ev) && ev.anchor.Some? ==> AnchorPos(es, ev.anchor.value) == |es|)
      && (ev.Alias? ==> AnchorPos(es, ev.target) < |es|)
  {
    assert (es + [ev])[..|es|] == es;
  }

  lemma RegisterLaw(es: seq<Event>, st: Loader, ev: Event)
    requires Makes(ev) && st.aliases == AliasList(es)
    ensures var r := Register(st, Count(es) + 1, ev.anchor);
      if SoundAt(es + [ev], |es|) then r == Loaded(st.(aliases := AliasList(es + [ev])))
      else r == Failed(DuplicateAnchor)
  {
    hide AnchorPos, FindAnchor, SoundAt, AliasList;
    SoundNext(es, ev);
    AliasListNext(es, ev);
    if ev.anchor.Some? { AliasLookup(es, ev.anchor.value); } else { assert AliasList(es) + [] == AliasList(es); }
  }

  /** Adding the node of the last event to the innermost open collection. */
  lemma AddLaw(es: seq<Event>, st: Loader, ev: Event, nodes: Document)
    requires Represents(es, nodes) && Sound(es) && Stacked(es, st.ctx) && (Makes(ev) || ev.Alias?)
    requires st.nodes == nodes + if Makes(ev) then [Bare(ev)] else []
    ensures var r := NodeAdd(st, TargetOf(es + [ev]));
      r.Loaded? && Represents(es + [ev], r.st.nodes) && r.st.aliases == st.aliases && r.st.ctx == st.ctx
  {
    hide Represents, Append, Sound, Bare, TargetOf;
    if OpenAt(es) == [] {
      if Makes(ev) {
        PushRepresents(es, nodes, ev, st.nodes);
      } else {
        assert nodes + [] == nodes;
        OtherRepresents(es, nodes, ev);
      }
    } else {
      SizeOf(es, nodes);
      ChildRepresents(es, nodes, ev, st.nodes);
    }
  }

  lemma MakeStep(es: seq<Event>, st: Loader, ev: Event)
    requires Lawful(es, st) && Makes(ev)
    ensures var r := Open(st, ev);
      && (r.Loaded? ==> Lawful(es + [ev], r.st)) && !r.AssertFailed?
      && (r.Loaded? <==> SoundAt(es + [ev], |es|)) && (r.Failed? ==> r.error == DuplicateAnchor)
  {
    hide Represents, SoundAt, Sound, Stacked, AliasList, Bare, TargetOf, NodeAdd, Register, Count;
    SoundFront(es, ev);
    NodeOfBare(ev);
    StackNext(es, st.ctx, ev);
    TargetNext(es, ev);
    SizeOf(es, st.nodes);
    var st1 := st.(nodes := st.nodes + [NodeOf(ev)]);
    RegisterLaw(es, st1, ev);
    if SoundAt(es + [ev], |es|) {
      AddLaw(es, st1.(aliases := AliasList(es + [ev])), ev, st.nodes);
    }
  }

  lemma SizeOf(es: seq<Event>, nodes: Document)
    requires Represents(es, nodes)
    ensures |nodes| == Count(es)
  {
  }

  lemma AliasStep(es: seq<Event>, st: Loader, ev: Event)
    requires Lawful(es, st) && ev.Alias?
    ensures var r := Step(st, ev);
      && (r.Loaded? ==> Lawful(es + [ev], r.st)) && !r.AssertFailed?
      && (r.Loaded? <==> SoundAt(es + [ev], |es|)) && (r.Failed? ==> r.error == UndefinedAlias)
  {
    hide Represents, SoundAt, Sound, Stacked, AliasList, TargetOf, NodeAdd, AnchorPos, FindAnchor;
    SoundFront(es, ev);
    SoundNext(es, ev);
    AliasListNext(es, ev);
    assert AliasList(es) + [] == AliasList(es) && st.nodes + [] == st.nodes;
    StackNext(es, st.ctx, ev);
    TargetNext(es, ev);
    AliasLookup(es, ev.target);
    AddLaw(es, st, ev, st.nodes);
  }

  lemma OtherStep(es: seq<Event>, st: Loader, ev: Event)
    requires Lawful(es, st) && !Makes(ev) && !ev.Alias?
    ensures var r := Step(st, ev);
      (r.Loaded? ==> Lawful(es + [ev], r.st)) && SoundAt(es + [ev], |es|) && !r.Failed?
  {
    hide Represents, Sound, SoundAt;
    SoundFront(es, ev);
    SoundNext(es, ev);
    AliasListNext(es, ev);
    assert AliasList(es) + [] == AliasList(es);
    StackNext(es, st.ctx, ev);
    OtherRepresents(es, st.nodes, ev);
  }

  /** The law of loading: if loading any events succeeds, the document is what they say, and anchors and aliases are
      sound; if it fails, they are not. */
  lemma {:induction false} Loads(es: seq<Event>)
    ensures var r := LoadAll(EMPTY, es);
      && (r.Loaded? ==> Lawful(es, r.st)) && (r.Failed? ==> !Sound(es))
    decreases |es|
  {
    if es == [] {
      assert Lawful([], EMPTY);
    } else {
      var front, ev := Front(es), Last(es);
      assert es == front + [ev];
      Loads(front);
      LoadConcat(EMPTY, front, [ev]);
      var r := LoadAll(EMPTY, front);
      SoundFront(front, ev);
      if r.Loaded? {
        assert [ev][1..] == [];
        hide Lawful, Open, LoadAll;
        if Makes(ev) { MakeStep(front, r.st, ev); } else if ev.Alias? { AliasStep(front, r.st, ev); }
        else { OtherStep(front, r.st, ev); }
      }
    }
  }
}
