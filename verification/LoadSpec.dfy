/**
 What loader.c computes: events are composed into nodes, with a stack of open collections and the anchors seen so far.
 */
module LoadSpec {
  import opened Options
  import opened YamlGraph

  datatype AliasData = AliasData(anchor: Text, index: nat)

  /** The document's nodes, the registered anchors, and the indices of the collections that are open. */
  datatype Loader = Loader(nodes: Document, aliases: seq<AliasData>, ctx: seq<nat>)

  datatype LoadError = DuplicateAnchor | UndefinedAlias

  /** `AssertFailed` stands for a failed assertion of the source. */
  datatype Result = Loaded(st: Loader) | Failed(error: LoadError) | AssertFailed

  const EMPTY := Loader([], [], [])

  /** The position of `anchor`, or the number of anchors. */
  function FindAnchor(aliases: seq<AliasData>, anchor: Text): (k: nat)
    ensures k <= |aliases| && (k < |aliases| ==> aliases[k].anchor == anchor)
    ensures forall j :: 0 <= j < k ==> aliases[j].anchor != anchor
  {
    if aliases == [] || aliases[0].anchor == anchor then 0 else 1 + FindAnchor(aliases[1..], anchor)
  }

  /** yaml_parser_register_anchor. */
  function Register(st: Loader, index: nat, anchor: Option<Text>): Result {
    if anchor.None? then Loaded(st)
    else if FindAnchor(st.aliases, anchor.value) < |st.aliases| then Failed(DuplicateAnchor)
    else Loaded(st.(aliases := st.aliases + [AliasData(anchor.value, index)]))
  }

  /** One more child for a collection: an item, the value a pair waits for, or the key of a new pair. */
  function Append(n: Node, index: nat): Node
    requires !n.Scalar?
  {
    match n
    case Sequence(tag, items, style) => Sequence(tag, items + [index], style)
    case Mapping(tag, pairs, style) =>
      var last := |pairs| - 1;
      if pairs != [] && pairs[last].key != 0 && pairs[last].value == 0
      then Mapping(tag, pairs[last := pairs[last].(value := index)], style)
      else Mapping(tag, pairs + [Pair(index, 0)], style)
  }

  /** yaml_parser_load_node_add. */
  function NodeAdd(st: Loader, index: nat): Result {
    if st.ctx == [] then Loaded(st)
    else
      var parent := st.ctx[|st.ctx| - 1];
      if !(1 <= parent <= |st.nodes|) || st.nodes[parent - 1].Scalar? then AssertFailed
      else Loaded(st.(nodes := st.nodes[parent - 1 := Append(st.nodes[parent - 1], index)]))
  }

  function TagOr(tag: Option<Text>, default: Text): Text {
    if tag.None? || tag.value == "!" then default else tag.value
  }

  /** The node an event opens. */
  function NodeOf(ev: Event): Node
    requires ev.ScalarEvent? || ev.SequenceStart? || ev.MappingStart?
  {
    match ev
    case ScalarEvent(_, tag, value, style) => Scalar(TagOr(tag, SCALAR_TAG), value, style)
    case SequenceStart(_, tag, style) => Sequence(TagOr(tag, SEQUENCE_TAG), [], style)
    case MappingStart(_, tag, style) => Mapping(TagOr(tag, MAPPING_TAG), [], style)
  }

  /** Push the node, register its anchor, add it to its parent and open it if it is a collection. */
  function Open(st: Loader, ev: Event): Result
    requires ev.ScalarEvent? || ev.SequenceStart? || ev.MappingStart?
  {
    var index := |st.nodes| + 1;
    var r := Register(st.(nodes := st.nodes + [NodeOf(ev)]), index, ev.anchor);
    if !r.Loaded? then r
    else
      var r' := NodeAdd(r.st, index);
      if !r'.Loaded? || ev.ScalarEvent? then r' else Loaded(r'.st.(ctx := r'.st.ctx + [index]))
  }

  /** The end of the innermost open collection, which must be of the right kind. */
  function Close(st: Loader, sequence: bool): Result {
    if st.ctx == [] then AssertFailed
    else
      var index := st.ctx[|st.ctx| - 1];
      if !(1 <= index <= |st.nodes|) || !(if sequence then st.nodes[index - 1].Sequence?
                                          else st.nodes[index - 1].Mapping?)
      then AssertFailed
      else Loaded(st.(ctx := st.ctx[..|st.ctx| - 1]))
  }

  function Step(st: Loader, ev: Event): Result {
    match ev
    case Alias(anchor) =>
      var k := FindAnchor(st.aliases, anchor);
      if k < |st.aliases| then NodeAdd(st, st.aliases[k].index) else Failed(UndefinedAlias)
    case ScalarEvent(_, _, _, _) => Open(st, ev)
    case SequenceStart(_, _, _) => Open(st, ev)
    case MappingStart(_, _, _) => Open(st, ev)
    case SequenceEnd => Close(st, true)
    case MappingEnd => Close(st, false)
    case DocumentEnd => Loaded(st)
    case _ => AssertFailed
  }

  function LoadAll(st: Loader, events: seq<Event>): Result
    decreases |events|
  {
    if events == [] then Loaded(st)
    else
      var r := Step(st, events[0]);
      if r.Loaded? then LoadAll(r.st, events[1..]) else r
  }

  lemma {:induction false} LoadConcat(st: Loader, a: seq<Event>, b: seq<Event>)
    ensures var r := LoadAll(st, a); LoadAll(st, a + b) == if r.Loaded? then LoadAll(r.st, b) else r
    decreases |a|
  {
    if a == [] {
      assert a + b == b;
    } else {
      assert (a + b)[0] == a[0] && (a + b)[1..] == a[1..] + b;
      var r := Step(st, a[0]);
      if r.Loaded? { LoadConcat(r.st, a[1..], b); }
    }
  }

  // ----- children arrive in order ---------------------------------------------------------------

  /** Completing or appending a pair behind a first one. */
  lemma ConsLast(first: Pair, rest: seq<Pair>, c: nat)
    requires first.value != 0
    ensures var n, pairs := |rest| - 1, [first] + rest;
      && (rest != [] ==> pairs[|rest|] == rest[n] && [first] + rest[n := rest[n].(value := c)]
                         == pairs[|rest| := rest[n].(value := c)])
      && [first] + (rest + [Pair(c, 0)]) == pairs + [Pair(c, 0)]
  {
  }

  lemma {:induction false} PairUpAppend(cs: seq<nat>, c: nat)
    requires forall k :: 0 <= k < |cs| ==> cs[k] != 0
    ensures var pairs, last := PairUp(cs), |PairUp(cs)| - 1;
      PairUp(cs + [c]) ==
        if pairs != [] && pairs[last].key != 0 && pairs[last].value == 0 then pairs[last := pairs[last].(value := c)]
        else pairs + [Pair(c, 0)]
    decreases |cs|
  {
    if |cs| >= 2 {
      var rest := cs[2..];
      assert (cs + [c])[2..] == rest + [c];
      PairUpAppend(rest, c);
      var first := Pair(cs[0], cs[1]);
      assert PairUp(cs + [c]) == [first] + PairUp(rest + [c]) && PairUp(cs) == [first] + PairUp(rest);
      hide PairUp;
      ConsLast(first, PairUp(rest), c);
    } else if |cs| == 1 {
      assert PairUp(cs + [c]) == [Pair(cs[0], c)] + PairUp((cs + [c])[2..]);
    }
  }

  lemma AppendWith(n: Node, cs: seq<nat>, c: nat)
    requires !n.Scalar? && forall k :: 0 <= k < |cs| ==> cs[k] != 0
    ensures Append(With(n, cs), c) == With(n, cs + [c])
  {
    if n.Mapping? { PairUpAppend(cs, c); }
  }

  // ----- aliases ------------------------------------------------------------------------------------

  /** The event gives its node this anchor. */
  ghost predicate Anchors(ev: Event, anchor: Text) {
    (ev.ScalarEvent? || ev.SequenceStart? || ev.MappingStart?) && ev.anchor == Some(anchor)
  }

  ghost predicate Known(st: Loader, anchor: Text) {
    exists j :: 0 <= j < |st.aliases| && st.aliases[j].anchor == anchor
  }

  lemma KnownStep(st: Loader, ev: Event, anchor: Text)
    requires Step(st, ev).Loaded? && Known(Step(st, ev).st, anchor)
    ensures Known(st, anchor) || Anchors(ev, anchor)
  {
    var st' := Step(st, ev).st;
    StepAliases(st, ev);
    hide Step, Anchors;
    var j :| 0 <= j < |st'.aliases| && st'.aliases[j].anchor == anchor;
    if st'.aliases != st.aliases && j < |st.aliases| { assert st.aliases[j].anchor == anchor; }
  }

  /** An event adds at most its own anchor. */
  lemma StepAliases(st: Loader, ev: Event)
    requires Step(st, ev).Loaded?
    ensures var old', new' := st.aliases, Step(st, ev).st.aliases;
      new' == old' || (|new'| == |old'| + 1 && new'[..|old'|] == old' && Anchors(ev, new'[|old'|].anchor))
  {
    hide NodeOf, Append, FindAnchor;
  }

  /** When a load succeeds, every alias was preceded by a node with that anchor. */
  lemma {:induction false} AliasesDeclared(st: Loader, events: seq<Event>, k: nat)
    requires LoadAll(st, events).Loaded? && k < |events| && events[k].Alias?
    ensures Known(st, events[k].target) || exists j :: 0 <= j < k && Anchors(events[j], events[k].target)
    decreases |events|
  {
    if k > 0 {
      var st', rest := Step(st, events[0]).st, events[1..];
      AliasesDeclared(st', rest, k - 1);
      var anchor := events[k].target;
      assert rest[k - 1] == events[k];
      if Known(st', anchor) {
        KnownStep(st, events[0], anchor);
      } else {
        var j :| 0 <= j < k - 1 && Anchors(rest[j], anchor);
        assert Anchors(events[j + 1], anchor);
      }
    }
  }
}
