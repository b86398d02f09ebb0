/**
 What events carry: for any tokens, the names, tags and values of the events are those of the tokens that the parser has
 read for them, in order, and an empty scalar stands only where there is no node.
 */
module Conveying {
  import opened Options
  import opened YamlGraph
  import opened EventMachine
  import opened Spelling

  /** Tokens with a name or a value. */
  predicate Carries(t: Token) { t.AliasToken? || t.AnchorToken? || t.TagToken? || t.ScalarToken? }

  function Payload(tokens: seq<Token>): seq<Token> {
    if tokens == [] then [] else (if Carries(tokens[0]) then [tokens[0]] else []) + Payload(tokens[1..])
  }

  function DirectivesIn(tokens: seq<Token>): seq<Token> {
    if tokens == [] then [] else (if IsDirective(tokens[0]) then [tokens[0]] else []) + DirectivesIn(tokens[1..])
  }

  lemma {:induction false} PayloadConcat(a: seq<Token>, b: seq<Token>)
    ensures Payload(a + b) == Payload(a) + Payload(b)
  {
    hide Carries;
    if a == [] {
      assert a + b == b;
    } else {
      PayloadConcat(a[1..], b);
      assert (a + b)[0] == a[0] && (a + b)[1..] == a[1..] + b;
      var head, x, y := if Carries(a[0]) then [a[0]] else [], Payload(a[1..]), Payload(b);
      assert Payload(a + b) == head + (x + y) && Payload(a) == head + x;
      hide Payload;
      assert head + (x + y) == head + x + y;
    }
  }

  /** The tokens are an anchor and a tag, in either order, with these meanings. */
  ghost predicate AreProperties(props: seq<Token>, known: Directives, anchor: Option<Text>, tag: Option<Text>) {
    && |props| == (if anchor.Some? then 1 else 0) + (if tag.Some? then 1 else 0)
    && (anchor.Some? ==> AnchorToken(anchor.value) in props)
    && (tag.Some? ==> exists t <- props :: t.TagToken? && Means(known, t.tagHandle, t.suffix, tag.value))
  }

  /** There is no node at `to`: not after an indicator, nor in place of a value that is not there at all. Of the two
      tokens of a single pair with an empty key the parser skips the second one. */
  ghost predicate NoNode(tokens: seq<Token>, from: nat, to: nat, pending: bool, props: seq<Token>)
    requires from <= to <= |tokens|
  {
    if to < |tokens| && props != [] then
      !tokens[to].ScalarToken? && !tokens[to].FlowSequenceStart? && !tokens[to].FlowMappingStart?
    else
      || (to < |tokens| && !StartsNode(tokens[to]))
      || (to < |tokens| && pending && from == to && tokens[to] != Value)
      || (!pending && to == from + 1 && tokens[from] in {Value, FlowEntry, FlowSequenceEnd})
  }

  /** The event carries what the tokens from `from` to `to` say. `pending` says that a key waits for its value; `known`
      are the tag handles before the event and `known'` those after it. */
  ghost predicate Conveys(tokens: seq<Token>, from: nat, to: nat, pending: bool, known: Directives, ev: Event,
                          known': Directives) {
    && from <= to <= |tokens|
    && (!ev.DocumentStart? && !ev.DocumentEnd? ==> known' == known)
    && var read := tokens[from..to];
       match ev
       case Alias(name) => Payload(read) == [AliasToken(name)]
       case ScalarEvent(anchor, tag, value, style) =>
         exists props :: AreProperties(props, known, anchor, tag)
           && (Payload(read) == props + [ScalarToken(value, style)]
               || (value == "" && style == PLAIN && Payload(read) == props && NoNode(tokens, from, to, pending, props)))
       case SequenceStart(anchor, tag, style) =>
         && AreProperties(Payload(read), known, anchor, tag) && to < |tokens|
         && (if tokens[to] == FlowSequenceStart then style == FLOW
             else tokens[to] in {BlockSequenceStart, BlockEntry} && style == BLOCK)
       case MappingStart(anchor, tag, style) =>
         && AreProperties(Payload(read), known, anchor, tag)
         && (style == BLOCK ==> to < |tokens| && tokens[to] == BlockMappingStart)
         && (style == FLOW ==>
               (to < |tokens| && tokens[to] == FlowMappingStart) || (to > from && tokens[to - 1] == Key))
         && style in {BLOCK, FLOW}
       case DocumentStart => Payload(read) == [] && known' == KnownHandles(known + Declared(DirectivesIn(read)))
       case DocumentEnd => Payload(read) == [] && known' == []
       case _ => Payload(read) == []
  }

  // ----- every move conveys ---------------------------------------------------------------------------------------

  lemma {:induction false} MeansTagFor(ds: Directives, handle: Text, suffix: Text)
    requires TagFor(ds, handle, suffix).Some?
    ensures Means(ds, handle, suffix, TagFor(ds, handle, suffix).value)
  {
    var tag := TagFor(ds, handle, suffix).value;
    if handle != "" {
      if ds[0].0 == handle {
        assert First(ds, 0);
      } else {
        var rest := ds[1..];
        MeansTagFor(rest, handle, suffix);
        var k :| 0 <= k < |rest| && rest[k].0 == handle && tag == rest[k].1 + suffix && First(rest, k);
        assert ds[k + 1] == rest[k];
        forall j | 0 <= j < k + 1 ensures ds[j].0 != ds[k + 1].0 { if j > 0 { assert ds[j] == rest[j - 1]; } }
      }
    }
  }

  lemma PayloadOne(t: Token)
    ensures Payload([t]) == if Carries(t) then [t] else []
  {
  }

  lemma PayloadTwo(s: Token, t: Token)
    requires Carries(s) && Carries(t)
    ensures Payload([s, t]) == [s, t]
  {
    assert [s, t][1..] == [t];
    PayloadOne(t);
  }

  /** The properties read are those of the tokens. */
  lemma PropertiesConveyed(tokens: seq<Token>, p: nat, ds: Directives)
    requires p <= |tokens| && ReadProperties(tokens, p, ds).Properties?
    ensures var r := ReadProperties(tokens, p, ds);
      && p <= r.pos < |tokens| && Payload(tokens[p..r.pos]) == tokens[p..r.pos]
      && AreProperties(tokens[p..r.pos], ds, r.anchor, r.tag)
  {
    hide TagFor, Means;
    var r := ReadProperties(tokens, p, ds);
    var read := tokens[p..r.pos];
    if r.pos == p + 1 {
      assert read == [tokens[p]];
      PayloadOne(tokens[p]);
    } else if r.pos == p + 2 {
      assert read == [tokens[p], tokens[p + 1]];
      PayloadTwo(tokens[p], tokens[p + 1]);
    }
    forall t | t in read && t.TagToken? && r.tag.Some? ensures Means(ds, t.tagHandle, t.suffix, r.tag.value) {
      MeansTagFor(ds, t.tagHandle, t.suffix);
    }
  }

  lemma Split(tokens: seq<Token>, from: nat, p: nat, to: nat)
    requires from <= p <= to <= |tokens|
    ensures Payload(tokens[from..to]) == Payload(tokens[from..p]) + Payload(tokens[p..to])
  {
    assert tokens[from..to] == tokens[from..p] + tokens[p..to];
    PayloadConcat(tokens[from..p], tokens[p..to]);
  }

  lemma SplitLast(tokens: seq<Token>, from: nat, p: nat)
    requires from <= p < |tokens|
    ensures Payload(tokens[from..p + 1]) == Payload(tokens[from..p]) + if Carries(tokens[p]) then [tokens[p]] else []
  {
    Split(tokens, from, p, p + 1);
    assert tokens[p..p + 1] == [tokens[p]];
    PayloadOne(tokens[p]);
  }

  /** A node behind indicators. */
  lemma NodeConveys(tokens: seq<Token>, m: Machine, block: bool, indentless: bool, from: nat, pending: bool)
    requires from <= m.pos <= |tokens| && Payload(tokens[from..m.pos]) == []
    requires NodeAt(tokens, m, block, indentless).Moved?
    ensures var r := NodeAt(tokens, m, block, indentless);
      Conveys(tokens, from, r.m.pos, pending, m.directives, r.ev, r.m.directives)
  {
    hide Payload, ReadProperties, AreProperties, StartsNode;
    var r, p := NodeAt(tokens, m, block, indentless), m.pos;
    if tokens[p].AliasToken? {
      SplitLast(tokens, from, p);
    } else {
      PropertiesConveyed(tokens, p, m.directives);
      var q := ReadProperties(tokens, p, m.directives);
      var props := tokens[p..q.pos];
      Split(tokens, from, p, q.pos);
      assert Payload(tokens[from..q.pos]) == props;
      SplitLast(tokens, from, q.pos);
      ContentConveys(tokens, m.(pos := q.pos), block, indentless, q.anchor, q.tag, from, pending, props);
    }
  }

  lemma ContentConveys(tokens: seq<Token>, m: Machine, block: bool, indentless: bool, anchor: Option<Text>,
                       tag: Option<Text>, from: nat, pending: bool, props: seq<Token>)
    requires from <= m.pos < |tokens| && Payload(tokens[from..m.pos]) == props
    requires AreProperties(props, m.directives, anchor, tag)
    requires Payload(tokens[from..m.pos + 1]) == props + if Carries(tokens[m.pos]) then [tokens[m.pos]] else []
    requires EventMachine.Content(tokens, m, block, indentless, anchor, tag).Moved?
    ensures var r := EventMachine.Content(tokens, m, block, indentless, anchor, tag);
      Conveys(tokens, from, r.m.pos, pending, m.directives, r.ev, r.m.directives)
  {
    hide Payload, StartsNode;
    assert anchor.Some? || tag.Some? ==> props != [];
    hide AreProperties;
  }

  lemma Indicator(tokens: seq<Token>, p: nat)
    requires p < |tokens| && !Carries(tokens[p])
    ensures Payload(tokens[p..p]) == [] && Payload(tokens[p..p + 1]) == []
  {
    assert tokens[p..p + 1] == [tokens[p]];
    PayloadOne(tokens[p]);
  }

  lemma Indicators(tokens: seq<Token>, from: nat, p: nat)
    requires from <= p < |tokens| && Payload(tokens[from..p]) == [] && !Carries(tokens[p])
    ensures Payload(tokens[from..p + 1]) == []
  {
    SplitLast(tokens, from, p);
  }

  lemma EmptyConveys(tokens: seq<Token>, from: nat, to: nat, pending: bool, known: Directives)
    requires from <= to <= |tokens| && Payload(tokens[from..to]) == [] && NoNode(tokens, from, to, pending, [])
    ensures Conveys(tokens, from, to, pending, known, EMPTY_SCALAR, known)
  {
    hide NoNode, Payload;
    assert AreProperties([], known, None, None);
    assert [] + [] == Payload(tokens[from..to]);
  }

  lemma MayChildConveys(tokens: seq<Token>, m: Machine, r: State, block: bool, indentless: bool, stop: set<Token>,
                        from: nat, pending: bool)
    requires from <= m.pos <= |tokens| && Payload(tokens[from..m.pos]) == [] && (forall t <- stop :: !StartsNode(t))
    requires MayChild(tokens, m, r, block, indentless, stop).Moved?
    ensures var x := MayChild(tokens, m, r, block, indentless, stop);
      Conveys(tokens, from, x.m.pos, pending, m.directives, x.ev, x.m.directives)
  {
    hide Payload, StartsNode, Conveys, NodeAt;
    if tokens[m.pos] in stop {
      EmptyConveys(tokens, from, m.pos, pending, m.directives);
    } else {
      NodeConveys(tokens, m.(states := m.states + [r]), block, indentless, from, pending);
    }
  }

  /** In the states that are about to read their first entry the opening token is next. */
  ghost predicate Poised(tokens: seq<Token>, m: Machine) {
    && m.pos <= |tokens|
    && (m.state in {BlockSequenceFirstEntry, BlockMappingFirstKey, FlowSequenceFirstEntry, FlowMappingFirstKey} ==>
          m.pos < |tokens| && !Carries(tokens[m.pos]))
  }

  predicate WaitsForValue(s: State) {
    s in {BlockMappingValue, FlowMappingValue, FlowMappingEmptyValue, FlowSequenceEntryMappingValue}
  }

  lemma BlockConveys(tokens: seq<Token>, m: Machine)
    requires Poised(tokens, m) && Move(tokens, m).Moved?
    requires m.state in {BlockSequenceFirstEntry, BlockSequenceEntry, IndentlessSequenceEntry, BlockMappingFirstKey,
                         BlockMappingKey, BlockMappingValue}
    ensures var r := Move(tokens, m);
      Conveys(tokens, m.pos, r.m.pos, WaitsForValue(m.state), m.directives, r.ev, r.m.directives)
  {
    hide Payload, MayChild;
    var from, pending := m.pos, WaitsForValue(m.state);
    var first := m.state in {BlockSequenceFirstEntry, BlockMappingFirstKey};
    var p := if first then from + 1 else from;
    if first { Indicator(tokens, from); } else { Indicator0(tokens, from); }
    var t := tokens[p];
    if !Carries(t) { Indicators(tokens, from, p); }
    var m' := m.(pos := p + 1);
    match m.state
    case IndentlessSequenceEntry =>
      if t == BlockEntry {
        MayChildConveys(tokens, m', IndentlessSequenceEntry, true, false, {BlockEntry, Key, Value, BlockEnd}, from,
                        pending);
      }
    case BlockMappingValue =>
      if t == Value {
        MayChildConveys(tokens, m', BlockMappingKey, true, true, {Key, Value, BlockEnd}, from, pending);
      } else {
        EmptyConveys(tokens, from, from, true, m.directives);
      }
    case BlockSequenceFirstEntry =>
      if t == BlockEntry {
        MayChildConveys(tokens, m', BlockSequenceEntry, true, false, {BlockEntry, BlockEnd}, from, pending);
      }
    case BlockSequenceEntry =>
      if t == BlockEntry {
        MayChildConveys(tokens, m', BlockSequenceEntry, true, false, {BlockEntry, BlockEnd}, from, pending);
      }
    case BlockMappingFirstKey =>
      if t == Key { MayChildConveys(tokens, m', BlockMappingValue, true, true, {Key, Value, BlockEnd}, from, pending); }
    case BlockMappingKey =>
      if t == Key { MayChildConveys(tokens, m', BlockMappingValue, true, true, {Key, Value, BlockEnd}, from, pending); }
  }

  lemma Indicator0(tokens: seq<Token>, p: nat)
    requires p <= |tokens|
    ensures Payload(tokens[p..p]) == []
  {
  }

  /** An entry of a flow collection starts behind its separator. */
  lemma SeparatedPayload(tokens: seq<Token>, from: nat, p: nat, first: bool)
    requires from <= p < |tokens| && Payload(tokens[from..p]) == [] && Separated(tokens, p, first).Some?
    ensures var q := Separated(tokens, p, first).value; p <= q < |tokens| && Payload(tokens[from..q]) == []
  {
    if !first { Indicators(tokens, from, p); }
  }

  lemma FlowSequenceConveys(tokens: seq<Token>, m: Machine, first: bool, from: nat)
    requires from <= m.pos <= |tokens| && Payload(tokens[from..m.pos]) == [] && FlowSequence(tokens, m, first).Moved?
    ensures var r := FlowSequence(tokens, m, first);
      Conveys(tokens, from, r.m.pos, false, m.directives, r.ev, r.m.directives)
  {
    hide Payload, NodeAt, Conveys;
    var p := m.pos;
    if tokens[p] == FlowSequenceEnd {
      Indicators(tokens, from, p);
      PlainConveys(tokens, from, p + 1, false, m.directives, SequenceEnd);
    } else {
      SeparatedPayload(tokens, from, p, first);
      var q := Separated(tokens, p, first).value;
      if tokens[q] == Key {
        Indicators(tokens, from, q);
        PairConveys(tokens, from, q, m.directives);
      } else if tokens[q] == FlowSequenceEnd {
        Indicators(tokens, from, q);
        PlainConveys(tokens, from, q + 1, false, m.directives, SequenceEnd);
      } else {
        NodeConveys(tokens, m.(pos := q, states := m.states + [FlowSequenceEntry]), false, false, from, false);
      }
    }
  }

  lemma PairConveys(tokens: seq<Token>, from: nat, q: nat, known: Directives)
    requires from <= q < |tokens| && tokens[q] == Key && Payload(tokens[from..q + 1]) == []
    ensures Conveys(tokens, from, q + 1, false, known, MappingStart(None, None, FLOW), known)
  {
    hide Payload;
    assert AreProperties([], known, None, None);
  }

  lemma FlowMappingConveys(tokens: seq<Token>, m: Machine, first: bool, from: nat)
    requires from <= m.pos <= |tokens| && Payload(tokens[from..m.pos]) == [] && FlowMapping(tokens, m, first).Moved?
    ensures var r := FlowMapping(tokens, m, first);
      Conveys(tokens, from, r.m.pos, false, m.directives, r.ev, r.m.directives)
  {
    hide Payload, NodeAt, Conveys, MayChild;
    var p := m.pos;
    if tokens[p] == FlowMappingEnd {
      Indicators(tokens, from, p);
      PlainConveys(tokens, from, p + 1, false, m.directives, MappingEnd);
    } else {
      SeparatedPayload(tokens, from, p, first);
      var q := Separated(tokens, p, first).value;
      if tokens[q] == Key {
        Indicators(tokens, from, q);
        MayChildConveys(tokens, m.(pos := q + 1), FlowMappingValue, false, false, {Value, FlowEntry, FlowMappingEnd},
                        from,
                        false);
      } else if tokens[q] == FlowMappingEnd {
        Indicators(tokens, from, q);
        PlainConveys(tokens, from, q + 1, false, m.directives, MappingEnd);
      } else {
        NodeConveys(tokens, m.(pos := q, states := m.states + [FlowMappingEmptyValue]), false, false, from, false);
      }
    }
  }

  lemma ValueConveys(tokens: seq<Token>, m: Machine)
    requires m.pos <= |tokens| && Move(tokens, m).Moved?
    requires m.state in {FlowMappingValue, FlowMappingEmptyValue, FlowSequenceEntryMappingKey,
                         FlowSequenceEntryMappingValue, FlowSequenceEntryMappingEnd}
    ensures var r := Move(tokens, m);
      Conveys(tokens, m.pos, r.m.pos, WaitsForValue(m.state), m.directives, r.ev, r.m.directives)
  {
    hide Payload, MayChild, NodeAt, Conveys;
    var from := m.pos;
    Indicator0(tokens, from);
    var t := tokens[from];
    if !Carries(t) { Indicator(tokens, from); }
    match m.state
    case FlowSequenceEntryMappingKey =>
      if t in {Value, FlowEntry, FlowSequenceEnd} {
        SkippedConveys(tokens, m);
      } else {
        NodeConveys(tokens, m.(states := m.states + [FlowSequenceEntryMappingValue]), false, false, from, false);
      }
    case FlowSequenceEntryMappingValue =>
      if t == Value {
        MayChildConveys(tokens, m.(pos := from + 1), FlowSequenceEntryMappingEnd, false, false,
                        {FlowEntry, FlowSequenceEnd}, from, true);
      } else {
        EmptyConveys(tokens, from, from, true, m.directives);
      }
    case FlowSequenceEntryMappingEnd => PlainConveys(tokens, from, from, false, m.directives, MappingEnd);
    case FlowMappingValue =>
      if t == Value {
        MayChildConveys(tokens, m.(pos := from + 1), FlowMappingKey, false, false, {FlowEntry, FlowMappingEnd}, from,
                        true);
      } else {
        EmptyConveys(tokens, from, from, true, m.directives);
      }
    case FlowMappingEmptyValue => EmptyConveys(tokens, from, from, true, m.directives);
  }

  lemma PlainConveys(tokens: seq<Token>, from: nat, to: nat, pending: bool, known: Directives, ev: Event)
    requires from <= to <= |tokens| && Payload(tokens[from..to]) == []
    requires ev in {MappingEnd, SequenceEnd, StreamStart, StreamEnd}
    ensures Conveys(tokens, from, to, pending, known, ev, known)
  {
  }

  lemma SkippedConveys(tokens: seq<Token>, m: Machine)
    requires m.pos < |tokens| && tokens[m.pos] in {Value, FlowEntry, FlowSequenceEnd}
    ensures Conveys(tokens, m.pos, m.pos + 1, false, m.directives, EMPTY_SCALAR, m.directives)
  {
    Indicator(tokens, m.pos);
    EmptyConveys(tokens, m.pos, m.pos + 1, false, m.directives);
  }

  // ----- documents ------------------------------------------------------------------------------------------------

  lemma {:induction false} DeclaredConcat(a: seq<Token>, b: seq<Token>)
    ensures Declared(a + b) == Declared(a) + Declared(b)
    decreases |b|
  {
    if b == [] {
      assert a + b == a;
    } else {
      var last := |b| - 1;
      DeclaredConcat(a, b[..last]);
      assert (a + b)[..|a + b| - 1] == a + b[..last];
    }
  }

  lemma {:induction false} DirectivesInConcat(a: seq<Token>, b: seq<Token>)
    ensures DirectivesIn(a + b) == DirectivesIn(a) + DirectivesIn(b)
  {
    if a == [] {
      assert a + b == b;
    } else {
      DirectivesInConcat(a[1..], b);
      assert (a + b)[1..] == a[1..] + b;
    }
  }

  /** The directives read are those of the tokens. */
  lemma {:induction false} DirectivesConveyed(tokens: seq<Token>, p: nat, ds: Directives, version: bool)
    requires p <= |tokens| && ReadDirectives(tokens, p, ds, version).Directed?
    ensures var r := ReadDirectives(tokens, p, ds, version);
      && p <= r.pos < |tokens| && Payload(tokens[p..r.pos]) == []
      && r.directives == WithDefaults(ds + Declared(DirectivesIn(tokens[p..r.pos])))
    decreases |tokens| - p
  {
    hide WithDefaults;
    var r := ReadDirectives(tokens, p, ds, version);
    var t := tokens[p];
    if IsDirective(t) {
      var ds' := if t.TagDirective? then ds + [(t.handle, t.prefix)] else ds;
      DirectivesConveyed(tokens, p + 1, ds', version || t.VersionDirective?);
      var rest := tokens[p + 1..r.pos];
      assert tokens[p..r.pos] == [t] + rest;
      PayloadConcat([t], rest);
      PayloadOne(t);
      OneDirective(t, rest, ds);
    } else {
      assert tokens[p..r.pos] == [] && ds + [] == ds;
    }
  }

  lemma OneDirective(t: Token, rest: seq<Token>, ds: Directives)
    requires IsDirective(t)
    ensures ds + Declared(DirectivesIn([t] + rest))
      == (if t.TagDirective? then ds + [(t.handle, t.prefix)] else ds) + Declared(DirectivesIn(rest))
  {
    hide DirectivesIn, Declared;
    DirectivesInConcat([t], rest);
    DirectivesOne(t);
    DeclaredConcat([t], DirectivesIn(rest));
    var d, more := if t.TagDirective? then [(t.handle, t.prefix)] else [], Declared(DirectivesIn(rest));
    assert ds + (d + more) == ds + d + more;
    assert ds + [] == ds;
  }

  lemma DirectivesOne(t: Token)
    requires IsDirective(t)
    ensures DirectivesIn([t]) == [t] && Declared([t]) == if t.TagDirective? then [(t.handle, t.prefix)] else []
  {
    assert [t][1..] == [] && [t][..0] == [];
  }

  lemma {:induction false} EndsSkipped(tokens: seq<Token>, p: nat)
    requires p <= |tokens|
    ensures var q := SkipEnds(tokens, p);
      p <= q <= |tokens| && Payload(tokens[p..q]) == [] && DirectivesIn(tokens[p..q]) == []
    decreases |tokens| - p
  {
    var q := SkipEnds(tokens, p);
    if p < |tokens| && tokens[p].DocumentEndToken? {
      EndsSkipped(tokens, p + 1);
      assert tokens[p..q] == [tokens[p]] + tokens[p + 1..q];
      PayloadConcat([tokens[p]], tokens[p + 1..q]);
      DirectivesInConcat([tokens[p]], tokens[p + 1..q]);
    }
  }

  lemma StartConveys(tokens: seq<Token>, m: Machine, implicit: bool)
    requires m.pos <= |tokens| && StartDocument(tokens, m, implicit).Moved?
    ensures var r := StartDocument(tokens, m, implicit);
      Conveys(tokens, m.pos, r.m.pos, false, m.directives, r.ev, r.m.directives)
  {
    hide Payload, DirectivesIn, SkipEnds, ReadDirectives, KnownHandles, WithDefaults, Declared;
    var p, r := m.pos, StartDocument(tokens, m, implicit);
    EndsSkipped(tokens, p);
    Indicator0(tokens, p);
    NoDirectives(tokens, p);
    var start := if implicit then p else SkipEnds(tokens, p);
    if tokens[start] == StreamEndToken {
      Indicators(tokens, p, start);
    } else {
      DirectivesConveyed(tokens, start, m.directives, false);
      var q := ReadDirectives(tokens, start, m.directives, false).pos;
      Split(tokens, p, start, q);
      assert tokens[p..q] == tokens[p..start] + tokens[start..q];
      DirectivesInConcat(tokens[p..start], tokens[start..q]);
      assert DirectivesIn(tokens[p..q]) == DirectivesIn(tokens[start..q]);
      SameHandles(m.directives + Declared(DirectivesIn(tokens[start..q])));
      if r.m.pos == q + 1 {
        Indicators(tokens, p, q);
        assert tokens[p..q + 1] == tokens[p..q] + [tokens[q]];
        DirectivesInConcat(tokens[p..q], [tokens[q]]);
        OneOther(tokens[q]);
        assert DirectivesIn(tokens[p..q]) + [] == DirectivesIn(tokens[p..q]);
      }
    }
  }

  lemma OneOther(t: Token)
    requires !IsDirective(t)
    ensures DirectivesIn([t]) == []
  {
  }

  lemma NoDirectives(tokens: seq<Token>, p: nat)
    requires p <= |tokens|
    ensures DirectivesIn(tokens[p..p]) == []
  {
  }

  lemma SameHandles(ds: Directives)
    ensures KnownHandles(ds) == WithDefaults(ds)
  {
    assert Knows(ds, "!") == Declares(ds, "!");
    var one := WithDefault(ds, "!", "!");
    assert ds + [] == ds;
    assert Knows(one, "!!") == Declares(one, "!!");
    assert one + [] == one;
  }

  lemma OuterConveys(tokens: seq<Token>, m: Machine, pending: bool)
    requires m.pos <= |tokens| && Move(tokens, m).Moved?
    requires m.state in {StreamStartState, DocumentContent, DocumentEndState, BlockNode, BlockNodeOrIndentless,
                         FlowNode}
    ensures var r := Move(tokens, m); Conveys(tokens, m.pos, r.m.pos, pending, m.directives, r.ev, r.m.directives)
  {
    hide Payload, NodeAt;
    var p := m.pos;
    Indicator0(tokens, p);
    if p < |tokens| && !Carries(tokens[p]) { Indicator(tokens, p); }
    match m.state
    case StreamStartState =>
    case DocumentEndState =>
    case DocumentContent =>
      if IsDirective(tokens[p]) || tokens[p] in {DocumentStartToken, DocumentEndToken, StreamEndToken} {
        EmptyConveys(tokens, p, p, pending, m.directives);
      } else {
        NodeConveys(tokens, m, true, false, p, pending);
      }
    case BlockNode => NodeConveys(tokens, m, true, false, p, pending);
    case BlockNodeOrIndentless => NodeConveys(tokens, m, true, true, p, pending);
    case FlowNode => NodeConveys(tokens, m, false, false, p, pending);
  }

  /** Every event carries what the tokens read for it say. */
  lemma MoveConveys(tokens: seq<Token>, m: Machine, pending: bool)
    requires Poised(tokens, m) && Move(tokens, m).Moved?
    requires pending == WaitsForValue(m.state)
      || m.state in {DocumentContent, BlockNode, BlockNodeOrIndentless, FlowNode}
    ensures var r := Move(tokens, m);
      Conveys(tokens, m.pos, r.m.pos, pending, m.directives, r.ev, r.m.directives)
  {
    hide Conveys, Payload, NodeAt, StartDocument, BlockSequence, IndentlessSequence, BlockKey, BlockValue, FlowSequence,
         FlowMapping, PairKey, PairValue, PairEnd, FlowValue, NoFlowValue, DocumentNode, EndDocument, StartStream;
    var p := m.pos;
    match m.state
    case ImplicitDocumentStart => StartConveys(tokens, m, true);
    case DocumentStartState => StartConveys(tokens, m, false);
    case BlockSequenceFirstEntry => BlockConveys(tokens, m);
    case BlockSequenceEntry => BlockConveys(tokens, m);
    case IndentlessSequenceEntry => BlockConveys(tokens, m);
    case BlockMappingFirstKey => BlockConveys(tokens, m);
    case BlockMappingKey => BlockConveys(tokens, m);
    case BlockMappingValue => BlockConveys(tokens, m);
    case FlowSequenceFirstEntry => Indicator(tokens, p); FlowSequenceConveys(tokens, Past(m, true), true, p);
    case FlowSequenceEntry => Indicator0(tokens, p); FlowSequenceConveys(tokens, m, false, p);
    case FlowMappingFirstKey => Indicator(tokens, p); FlowMappingConveys(tokens, Past(m, true), true, p);
    case FlowMappingKey => Indicator0(tokens, p); FlowMappingConveys(tokens, m, false, p);
    case FlowMappingValue => ValueConveys(tokens, m);
    case FlowMappingEmptyValue => ValueConveys(tokens, m);
    case FlowSequenceEntryMappingKey => ValueConveys(tokens, m);
    case FlowSequenceEntryMappingValue => ValueConveys(tokens, m);
    case FlowSequenceEntryMappingEnd => ValueConveys(tokens, m);
    case StreamStartState => OuterConveys(tokens, m, pending);
    case DocumentContent => OuterConveys(tokens, m, pending);
    case DocumentEndState => OuterConveys(tokens, m, pending);
    case BlockNode => OuterConveys(tokens, m, pending);
    case BlockNodeOrIndentless => OuterConveys(tokens, m, pending);
    case FlowNode => OuterConveys(tokens, m, pending);
  }
}
