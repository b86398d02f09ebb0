/**
 The event parser of parser.c: a machine with a stack of states to return to and a stack of marks. Popping requires a
 non-empty stack, so that the proofs of these methods show that neither stack underflows.
 */
module YamlParser {
  import opened Options
  import opened YamlGraph
  import opened Nesting
  import opened EventMachine

  // ----- the invariant ----------------------------------------------------------------------------

  /** The states that are returned to after a node. */
  predicate IsReturn(s: State) {
    s in {DocumentEndState, BlockSequenceEntry, IndentlessSequenceEntry, BlockMappingKey, BlockMappingValue,
          FlowSequenceEntry,
          FlowSequenceEntryMappingValue, FlowSequenceEntryMappingEnd, FlowMappingKey, FlowMappingValue,
            FlowMappingEmptyValue}
  }

  predicate IsNode(s: State) { s in {DocumentContent, BlockNode, BlockNodeOrIndentless, FlowNode} }

  predicate IsOuter(s: State) { s in {StreamStartState, ImplicitDocumentStart, DocumentStartState, End} }

  /** What is open in a state; a node that the state returns from is counted. */
  function Frames(s: State): seq<Frame> {
    match s
    case DocumentEndState => [Doc(true)]
    case BlockSequenceFirstEntry => [Seq]
    case BlockSequenceEntry => [Seq]
    case IndentlessSequenceEntry => [Seq]
    case BlockMappingFirstKey => [Map(false)]
    case BlockMappingKey => [Map(false)]
    case BlockMappingValue => [Map(true)]
    case FlowSequenceFirstEntry => [Seq]
    case FlowSequenceEntry => [Seq]
    case FlowSequenceEntryMappingKey => [Seq, Map(false)]
    case FlowSequenceEntryMappingValue => [Seq, Map(true)]
    case FlowSequenceEntryMappingEnd => [Seq, Map(false)]
    case FlowMappingFirstKey => [Map(false)]
    case FlowMappingKey => [Map(false)]
    case FlowMappingValue => [Map(true)]
    case FlowMappingEmptyValue => [Map(true)]
    case _ => []
  }

  /** The states inside a collection whose mark is on the stack. */
  function Marked(s: State): nat {
    if s in {BlockSequenceEntry, BlockMappingKey, BlockMappingValue, FlowSequenceEntry, FlowSequenceEntryMappingKey,
             FlowSequenceEntryMappingValue, FlowSequenceEntryMappingEnd, FlowMappingKey, FlowMappingValue,
               FlowMappingEmptyValue}
    then 1 else 0
  }

  /** What a state may still cost; eight for every token. */
  function Cost(s: State): nat {
    match s
    case ImplicitDocumentStart => 6
    case DocumentStartState => 1
    case DocumentContent => 3
    case DocumentEndState => 2
    case BlockNode => 3
    case BlockNodeOrIndentless => 3
    case FlowNode => 3
    case BlockSequenceFirstEntry => 2
    case BlockMappingFirstKey => 2
    case FlowSequenceFirstEntry => 2
    case FlowMappingFirstKey => 2
    case IndentlessSequenceEntry => 1
    case BlockMappingValue => 1
    case FlowSequenceEntryMappingKey => 5
    case FlowSequenceEntryMappingValue => 2
    case FlowSequenceEntryMappingEnd => 1
    case FlowMappingValue => 1
    case FlowMappingEmptyValue => 1
    case _ => 0
  }

  function AllCost(states: seq<State>): nat {
    if states == [] then 0 else AllCost(states[..|states| - 1]) + Cost(states[|states| - 1])
  }

  function AllFrames(states: seq<State>): seq<Frame> {
    if states == [] then [] else AllFrames(states[..|states| - 1]) + Frames(states[|states| - 1])
  }

  function AllMarked(states: seq<State>): nat {
    if states == [] then 0 else AllMarked(states[..|states| - 1]) + Marked(states[|states| - 1])
  }

  predicate StatesOk(states: seq<State>) {
    forall k :: 0 <= k < |states| ==> IsReturn(states[k]) && (states[k] == DocumentEndState <==> k == 0)
  }

  lemma Pushed(states: seq<State>, s: State)
    ensures AllFrames(states + [s]) == AllFrames(states) + Frames(s)
      && AllMarked(states + [s]) == AllMarked(states) + Marked(s)
    ensures AllCost(states + [s]) == AllCost(states) + Cost(s)
  {
    var all := states + [s];
    assert all[..|all| - 1] == states;
  }

  /** The open frames before the node that `states` waits for. */
  function Waiting(states: seq<State>): seq<Frame>
    requires AllFrames(states) != []
  {
    CountNode(AllFrames(states))
  }

  lemma WaitingRoom(states: seq<State>)
    requires StatesOk(states) && states != []
    ensures AllFrames(states) != [] && HasRoom(Waiting(states)) && CountNode(Waiting(states)) == AllFrames(states)
  {
    var last := states[|states| - 1];
    assert IsReturn(last) && |Frames(last)| >= 1;
  }

  /** A state whose mark the machine is about to push still has the token that opened the collection before it. */
  predicate FirstOk(s: State, tokens: seq<Token>, pos: nat) {
    && (s == BlockSequenceFirstEntry ==> pos < |tokens| && tokens[pos] == BlockSequenceStart)
    && (s == BlockMappingFirstKey ==> pos < |tokens| && tokens[pos] == BlockMappingStart)
    && (s == FlowSequenceFirstEntry ==> pos < |tokens| && tokens[pos] == FlowSequenceStart)
    && (s == FlowMappingFirstKey ==> pos < |tokens| && tokens[pos] == FlowMappingStart)
  }

  class Parser {
    const tokens: seq<Token>
    var pos: nat
    var state: State
    var states: seq<State>
    var marks: seq<nat>
    var tagDirectives: seq<(Text, Text)>

    constructor (tokens: seq<Token>)
      ensures Valid() && Nest() == Unstarted && this.tokens == tokens
      ensures Now() == Machine(0, StreamStartState, [], [])
    {
      this.tokens := tokens;
      pos, state, states, marks, tagDirectives := 0, StreamStartState, [], [], [];
    }

    ghost predicate Valid()
      reads this
    {
      && StatesOk(states) && |marks| == AllMarked(states) + Marked(state)
      && (states == [] <==> IsOuter(state) || state == DocumentEndState)
      && FirstOk(state, tokens, pos) && pos <= |tokens|
    }

    /** Falls with every event. */
    ghost function Left(): nat
      requires pos <= |tokens|
      reads this
    {
      8 * (|tokens| - pos) + AllCost(states) + Cost(state)
    }

    /** The events so far, as far as nesting goes. */
    ghost function Nest(): Nest
      requires Valid()
      reads this
    {
      if state == StreamStartState then Unstarted
      else if state == End then Closed
      else if IsNode(state) then WaitingRoom(states); Open(Waiting(states))
      else Open(AllFrames(states) + Frames(state))
    }

    /** The machine without its marks. */
    ghost function Now(): Machine
      reads this
    {
      Machine(pos, state, states, tagDirectives)
    }

    /** The outcome of a move. */
    ghost function Outcome(ev: Option<Event>): Moved
      reads this
    {
      if ev.None? then Stuck else Moved(ev.value, Now())
    }

    function Peek(): Option<Token>
      reads this
    {
      if pos < |tokens| then Some(tokens[pos]) else None
    }

    method Pop()
      requires states != []
      modifies this`state, this`states
      ensures state == old(states)[|old(states)| - 1] && states == old(states)[..|old(states)| - 1]
    {
      state, states := states[|states| - 1], states[..|states| - 1];
    }

    /** Go back to the state below, having completed a node: a document, or what is left after it. */
    method Return()
      requires StatesOk(states) && states != [] && |marks| == AllMarked(states) && pos <= |tokens|
      modifies this`state, this`states
      ensures Valid() && Nest() == Open(AllFrames(old(states))) && Left() == 8 * (|tokens| - pos) + AllCost(old(states))
      ensures forall ev: Event :: Back(old(Now()), ev) == Moved(ev, Now())
    {
      ghost var last := |states| - 1;
      assert IsReturn(states[last]);
      Pop();
      assert state == DocumentEndState <==> last == 0;
    }

    method PopMark()
      requires marks != []
      modifies this`marks
      ensures marks == old(marks)[..|old(marks)| - 1]
    {
      marks := marks[..|marks| - 1];
    }

    // ----- nodes ------------------------------------------------------------------------------------

    /** The tag that a handle and a suffix stand for, if the handle is known. */
    method ResolveTag(handle: Text, suffix: Text) returns (tag: Option<Text>)
      ensures tag == TagFor(tagDirectives, handle, suffix)
    {
      if handle == "" {
        return Some(suffix);
      }
      for k := 0 to |tagDirectives|
        invariant TagFor(tagDirectives, handle, suffix) == TagFor(tagDirectives[k..], handle, suffix)
      {
        if tagDirectives[k].0 == handle {
          return Some(tagDirectives[k].1 + suffix);
        }
      }
      tag := None;
    }

    /** The anchor and the tag before a node, in either order; afterwards there is a token. */
    method ParseProperties() returns (ok: bool, anchor: Option<Text>, tag: Option<Text>)
      requires pos < |tokens|
      modifies this`pos
      ensures old(pos) <= pos <= |tokens| && (ok ==> pos < |tokens| && (anchor.Some? || tag.Some? ==> pos > old(pos)))
      ensures ReadProperties(tokens, old(pos), tagDirectives)
        == if ok then Properties(pos, anchor, tag) else BadProperties
    {
      ok, anchor, tag := true, None, None;
      var tagToken: Option<Token> := None;
      if tokens[pos].AnchorToken? {
        anchor := Some(tokens[pos].name);
        pos := pos + 1;
        if Peek().None? { return false, anchor, tag; }
        if tokens[pos].TagToken? {
          tagToken := Some(tokens[pos]);
          pos := pos + 1;
          if Peek().None? { return false, anchor, tag; }
        }
      } else if tokens[pos].TagToken? {
        tagToken := Some(tokens[pos]);
        pos := pos + 1;
        if Peek().None? { return false, anchor, tag; }
        if tokens[pos].AnchorToken? {
          anchor := Some(tokens[pos].name);
          pos := pos + 1;
          if Peek().None? { return false, anchor, tag; }
        }
      }
      if tagToken.Some? && tagToken.value.TagToken? {
        tag := ResolveTag(tagToken.value.tagHandle, tagToken.value.suffix);
        ok := tag.Some?;
      }
    }

    /** Complete a node with one event: return to the state that waits for it. */
    method Leaf(ev: Event)
      requires StatesOk(states) && states != [] && |marks| == AllMarked(states) && (ev.Alias? || ev.ScalarEvent?)
        && pos <= |tokens|
      modifies this`state, this`states
      ensures Valid() && Left() == 8 * (|tokens| - pos) + AllCost(old(states))
      ensures AllFrames(old(states)) != [] && Accept(Open(Waiting(old(states))), ev) == Some(Nest())
      ensures Back(old(Now()), ev) == Moved(ev, Now())
    {
      WaitingRoom(states);
      hide AllFrames, AllMarked, AllCost, StatesOk, Waiting, CountNode;
      Return();
    }

    /** Start a collection: its states are above those that wait for it. */
    method Enter(s: State, ev: Event)
      requires StatesOk(states) && states != [] && |marks| == AllMarked(states) && pos < |tokens|
      requires FirstOk(s, tokens, pos)
      requires s in {IndentlessSequenceEntry, BlockSequenceFirstEntry, FlowSequenceFirstEntry} ==> ev.SequenceStart?
      requires s in {BlockMappingFirstKey, FlowMappingFirstKey} ==> ev.MappingStart?
      requires s in {IndentlessSequenceEntry, BlockSequenceFirstEntry, BlockMappingFirstKey, FlowSequenceFirstEntry,
                     FlowMappingFirstKey}
      modifies this`state
      ensures Valid() && AllFrames(states) != [] && Accept(Open(Waiting(states)), ev) == Some(Nest())
      ensures Left() <= 8 * (|tokens| - pos) + AllCost(states) + 2 && state == s
    {
      WaitingRoom(states);
      hide AllFrames, AllMarked, AllCost, StatesOk, Waiting, CountNode;
      state := s;
    }

    /** A node, for which the states on the stack wait. */
    method ParseNode(block: bool, indentless: bool) returns (ev: Option<Event>)
      requires StatesOk(states) && states != [] && |marks| == AllMarked(states) && pos <= |tokens|
      modifies this`pos, this`state, this`states
      ensures ev.Some? ==> Valid() && Left() <= 8 * (|tokens| - old(pos)) + AllCost(old(states)) + 2
      ensures AllFrames(old(states)) != []
      ensures ev.Some? ==> Accept(Open(Waiting(old(states))), ev.value) == Some(Nest())
      ensures Outcome(ev) == NodeAt(tokens, old(Now()), block, indentless)
    {
      hide AllFrames, AllMarked, AllCost, StatesOk, Parser.Valid, Parser.Nest, Accept, Waiting, ReadProperties, Content;
      WaitingRoom(states);
      if Peek().None? {
        return None;
      }
      var token := tokens[pos];
      if token.AliasToken? {
        pos := pos + 1;
        ev := Some(Alias(token.name));
        Leaf(ev.value);
        return;
      }
      var ok, anchor, tag := ParseProperties();
      if !ok {
        return None;
      }
      ev := ParseContent(block, indentless, anchor, tag);
    }

    method ParseContent(block: bool, indentless: bool, anchor: Option<Text>, tag: Option<Text>)
      returns (ev: Option<Event>)
      requires StatesOk(states) && states != [] && |marks| == AllMarked(states) && pos < |tokens|
      modifies this`pos, this`state, this`states
      ensures ev.Some? ==> Valid() && Left() <= 8 * (|tokens| - old(pos)) + AllCost(old(states)) + 2
      ensures AllFrames(old(states)) != []
      ensures ev.Some? ==> Accept(Open(Waiting(old(states))), ev.value) == Some(Nest())
      ensures Outcome(ev) == Content(tokens, old(Now()), block, indentless, anchor, tag)
    {
      hide AllFrames, AllMarked, AllCost, StatesOk, Parser.Valid, Parser.Nest, Accept, Waiting;
      WaitingRoom(states);
      var token := tokens[pos];
      if indentless && token.BlockEntry? {
        ev := Some(SequenceStart(anchor, tag, BLOCK));
        Enter(IndentlessSequenceEntry, ev.value);
      } else if token.ScalarToken? {
        ev := Some(ScalarEvent(anchor, tag, token.value, token.style));
        pos := pos + 1;
        Leaf(ev.value);
      } else if token.FlowSequenceStart? {
        ev := Some(SequenceStart(anchor, tag, FLOW));
        Enter(FlowSequenceFirstEntry, ev.value);
      } else if token.FlowMappingStart? {
        ev := Some(MappingStart(anchor, tag, FLOW));
        Enter(FlowMappingFirstKey, ev.value);
      } else if block && token.BlockSequenceStart? {
        ev := Some(SequenceStart(anchor, tag, BLOCK));
        Enter(BlockSequenceFirstEntry, ev.value);
      } else if block && token.BlockMappingStart? {
        ev := Some(MappingStart(anchor, tag, BLOCK));
        Enter(BlockMappingFirstKey, ev.value);
      } else if anchor.Some? || tag.Some? {
        ev := Some(ScalarEvent(anchor, tag, "", PLAIN));
        Leaf(ev.value);
      } else {
        ev := None;
      }
    }

    // ----- moves inside a collection -------------------------------------------------------------
    // Here `f` is what is open in the collection before the move.

    /** A child node, after which the machine goes on in state `r`. */
    method ParseChild(r: State, block: bool, indentless: bool, ghost f: seq<Frame>) returns (ev: Option<Event>)
      requires StatesOk(states) && states != [] && IsReturn(r) && r != DocumentEndState
        && |marks| == AllMarked(states) + Marked(r)
      requires f == CountNode(Frames(r)) && pos <= |tokens|
      modifies this`pos, this`state, this`states
      ensures ev.Some? ==> Valid() && Accept(Open(AllFrames(old(states)) + f), ev.value) == Some(Nest())
      ensures ev.Some? ==> Left() <= 8 * (|tokens| - old(pos)) + AllCost(old(states)) + Cost(r) + 2
      ensures Outcome(ev) == Child(tokens, old(Now()), r, block, indentless)
    {
      hide AllFrames, AllMarked, AllCost, Parser.Valid, Parser.Nest, Accept, CountNode, NodeAt;
      Pushed(states, r);
      CountLast(AllFrames(states), Frames(r));
      states := states + [r];
      ev := ParseNode(block, indentless);
    }

    /** yaml_parser_process_empty_scalar, in place of a child. */
    method EmptyChild(r: State, ghost f: seq<Frame>) returns (ev: Option<Event>)
      requires StatesOk(states) && states != [] && IsReturn(r) && r != DocumentEndState
        && |marks| == AllMarked(states) + Marked(r)
      requires f == CountNode(Frames(r)) && HasRoom(f) && pos <= |tokens|
      modifies this`state
      ensures ev.Some? && Valid() && Left() == 8 * (|tokens| - pos) + AllCost(states) + Cost(r)
      ensures Accept(Open(AllFrames(states) + f), ev.value) == Some(Nest())
      ensures Outcome(ev) == NoChild(old(Now()), r)
    {
      hide AllFrames, AllMarked, AllCost, StatesOk, CountNode;
      CountLast(AllFrames(states), Frames(r));
      CountLast(AllFrames(states), f);
      CountTwice(Frames(r));
      state := r;
      ev := Some(ScalarEvent(None, None, "", PLAIN));
    }

    /** A child node, or an empty scalar before a token that goes on with the collection. */
    method MayParseChild(r: State, block: bool, indentless: bool, stop: set<Token>, ghost f: seq<Frame>)
      returns (ev: Option<Event>)
      requires StatesOk(states) && states != [] && IsReturn(r) && r != DocumentEndState
        && |marks| == AllMarked(states) + Marked(r)
      requires f == CountNode(Frames(r)) && HasRoom(f) && pos <= |tokens|
      modifies this`pos, this`state, this`states
      ensures ev.Some? ==> Valid() && Accept(Open(AllFrames(old(states)) + f), ev.value) == Some(Nest())
      ensures ev.Some? ==> Left() <= 8 * (|tokens| - old(pos)) + AllCost(old(states)) + Cost(r) + 2
      ensures Outcome(ev) == MayChild(tokens, old(Now()), r, block, indentless, stop)
    {
      hide AllFrames, AllMarked, AllCost, StatesOk, Accept, Parser.Valid, Parser.Nest, CountNode, Child, NoChild;
      if Peek().None? {
        return None;
      }
      if tokens[pos] in stop {
        ev := EmptyChild(r, f);
      } else {
        ev := ParseChild(r, block, indentless, f);
      }
    }

    /** The end of a collection whose mark has been popped. */
    method EndCollection(sequence: bool) returns (ev: Option<Event>)
      requires StatesOk(states) && states != [] && |marks| == AllMarked(states) && pos <= |tokens|
      modifies this`state, this`states
      ensures ev.Some? && Valid() && Left() == 8 * (|tokens| - pos) + AllCost(old(states))
      ensures Accept(Open(AllFrames(old(states)) + [if sequence then Seq else Map(false)]), ev.value) == Some(Nest())
      ensures Outcome(ev) == Back(old(Now()), if sequence then SequenceEnd else MappingEnd)
    {
      hide AllFrames, AllMarked, AllCost, StatesOk;
      ghost var f := AllFrames(states);
      assert (f + [if sequence then Seq else Map(false)])[..|f|] == f;
      Return();
      ev := Some(if sequence then SequenceEnd else MappingEnd);
    }

    // ----- block collections -------------------------------------------------------------------------

    method OpenMark()
      requires pos < |tokens|
      modifies this`marks, this`pos
      ensures |marks| == |old(marks)| + 1 && pos == old(pos) + 1 && Now() == Past(old(Now()), true)
    {
      marks := marks + [pos];
      pos := pos + 1;
    }

    /** Move past the token that opened a collection, if this is its first entry. */
    method Begin(first: bool)
      requires Valid() && state in {BlockSequenceFirstEntry, BlockSequenceEntry, BlockMappingFirstKey, BlockMappingKey,
                                    FlowSequenceFirstEntry, FlowSequenceEntry, FlowMappingFirstKey, FlowMappingKey}
      requires first <==> state in {BlockSequenceFirstEntry, BlockMappingFirstKey, FlowSequenceFirstEntry,
                                    FlowMappingFirstKey}
      modifies this`marks, this`pos
      ensures StatesOk(states) && states != [] && |marks| == AllMarked(states) + 1 && pos <= |tokens|
      ensures Now() == Past(old(Now()), first) && old(Nest()) == Open(AllFrames(states) + Frames(state))
      ensures old(Left()) == 8 * (|tokens| - pos) + AllCost(states) + if first then 10 else 0
    {
      hide AllFrames, AllMarked, AllCost, StatesOk;
      if first {
        OpenMark();
      }
    }

    /** Move to the next entry of a flow collection: past a separator, unless it is the first. */
    method Separate(first: bool) returns (ok: bool)
      requires pos < |tokens| && marks != []
      modifies this`pos, this`marks
      ensures ok ==> marks == old(marks) && pos < |tokens| && pos >= old(pos)
      ensures Separated(tokens, old(pos), first) == if ok then Some(pos) else None
    {
      if first {
        return true;
      }
      if tokens[pos].FlowEntry? {
        pos := pos + 1;
        return Peek().Some?;
      }
      PopMark();
      ok := false;
    }

    /** The end of a collection, at its last token. */
    method Close(sequence: bool) returns (ev: Option<Event>)
      requires StatesOk(states) && states != [] && |marks| == AllMarked(states) + 1 && pos < |tokens|
      modifies this`pos, this`marks, this`state, this`states
      ensures ev.Some? && Valid() && Left() == 8 * (|tokens| - old(pos) - 1) + AllCost(old(states))
      ensures Accept(Open(AllFrames(old(states)) + [if sequence then Seq else Map(false)]), ev.value) == Some(Nest())
      ensures Outcome(ev) == EndOf(old(Now()), if sequence then SequenceEnd else MappingEnd)
    {
      hide AllFrames, AllMarked, AllCost, StatesOk, Accept, Back, Parser.Valid, Parser.Nest;
      pos := pos + 1;
      PopMark();
      ev := EndCollection(sequence);
    }

    /** Between the parts of an entry. */
    lemma Among()
      requires Valid() && state in {IndentlessSequenceEntry, BlockMappingValue, FlowMappingValue, FlowMappingEmptyValue,
                                    FlowSequenceEntryMappingKey, FlowSequenceEntryMappingValue,
                                    FlowSequenceEntryMappingEnd}
      ensures StatesOk(states) && states != [] && |marks| == AllMarked(states) + Marked(state) && pos <= |tokens|
      ensures Nest() == Open(AllFrames(states) + Frames(state))
      ensures Left() == 8 * (|tokens| - pos) + AllCost(states) + Cost(state)
    {
      hide AllFrames, AllMarked, AllCost, StatesOk;
    }

    method ParseBlockSequenceEntry(first: bool) returns (ev: Option<Event>)
      requires Valid() && state == (if first then BlockSequenceFirstEntry else BlockSequenceEntry)
      modifies this
      ensures ev.Some? ==> Valid() && Accept(old(Nest()), ev.value) == Some(Nest()) && Left() < old(Left())
      ensures Outcome(ev) == BlockSequence(tokens, Past(old(Now()), first))
    {
      hide AllFrames, AllMarked, AllCost, StatesOk, Accept, Child, MayChild, NoChild, Back, Parser.Valid, Parser.Nest;
      Begin(first);
      if Peek().None? {
        return None;
      }
      if tokens[pos].BlockEntry? {
        pos := pos + 1;
        ev := MayParseChild(BlockSequenceEntry, true, false, {BlockEntry, BlockEnd}, [Seq]);
      } else if tokens[pos].BlockEnd? {
        ev := Close(true);
      } else {
        PopMark();
        ev := None;
      }
    }

    method ParseIndentlessSequenceEntry() returns (ev: Option<Event>)
      requires Valid() && state == IndentlessSequenceEntry
      modifies this
      ensures ev.Some? ==> Valid() && Accept(old(Nest()), ev.value) == Some(Nest()) && Left() < old(Left())
      ensures Outcome(ev) == IndentlessSequence(tokens, old(Now()))
    {
      hide AllFrames, AllMarked, AllCost, StatesOk, Accept, Child, MayChild, NoChild, Back,
           Parser.Valid, Parser.Nest;
      Among();
      if Peek().None? {
        return None;
      }
      if tokens[pos].BlockEntry? {
        pos := pos + 1;
        ev := MayParseChild(IndentlessSequenceEntry, true, false, {BlockEntry, Key, Value, BlockEnd}, [Seq]);
      } else {
        ev := EndCollection(true);
      }
    }

    method ParseBlockMappingKey(first: bool) returns (ev: Option<Event>)
      requires Valid() && state == (if first then BlockMappingFirstKey else BlockMappingKey)
      modifies this
      ensures ev.Some? ==> Valid() && Accept(old(Nest()), ev.value) == Some(Nest()) && Left() < old(Left())
      ensures Outcome(ev) == BlockKey(tokens, Past(old(Now()), first))
    {
      hide AllFrames, AllMarked, AllCost, StatesOk, Accept, Child, MayChild, NoChild, Back, Parser.Valid, Parser.Nest;
      Begin(first);
      if Peek().None? {
        return None;
      }
      if tokens[pos].Key? {
        pos := pos + 1;
        ev := MayParseChild(BlockMappingValue, true, true, {Key, Value, BlockEnd}, [Map(false)]);
      } else if tokens[pos].BlockEnd? {
        ev := Close(false);
      } else {
        PopMark();
        ev := None;
      }
    }

    method ParseBlockMappingValue() returns (ev: Option<Event>)
      requires Valid() && state == BlockMappingValue
      modifies this
      ensures ev.Some? ==> Valid() && Accept(old(Nest()), ev.value) == Some(Nest()) && Left() < old(Left())
      ensures Outcome(ev) == BlockValue(tokens, old(Now()))
    {
      hide AllFrames, AllMarked, AllCost, StatesOk, Accept, Child, MayChild, NoChild, Back,
           Parser.Valid, Parser.Nest;
      Among();
      if Peek().None? {
        return None;
      }
      if tokens[pos].Value? {
        pos := pos + 1;
        ev := MayParseChild(BlockMappingKey, true, true, {Key, Value, BlockEnd}, [Map(true)]);
      } else {
        ev := EmptyChild(BlockMappingKey, [Map(true)]);
      }
    }

    // ----- flow collections --------------------------------------------------------------------------

    method ParseFlowSequenceEntry(first: bool) returns (ev: Option<Event>)
      requires Valid() && state == (if first then FlowSequenceFirstEntry else FlowSequenceEntry)
      modifies this
      ensures ev.Some? ==> Valid() && Accept(old(Nest()), ev.value) == Some(Nest()) && Left() < old(Left())
      ensures Outcome(ev) == FlowSequence(tokens, Past(old(Now()), first), first)
    {
      hide AllFrames, AllMarked, AllCost, StatesOk, Accept, Child, MayChild, NoChild, Back, Parser.Valid, Parser.Nest;
      Begin(first);
      if Peek().None? {
        return None;
      }
      if !tokens[pos].FlowSequenceEnd? {
        var ok := Separate(first);
        if !ok {
          return None;
        }
        if tokens[pos].Key? {
          pos := pos + 1;
          ev := StartPair();
          return;
        } else if !tokens[pos].FlowSequenceEnd? {
          ev := ParseChild(FlowSequenceEntry, false, false, [Seq]);
          return;
        }
      }
      ev := Close(true);
    }

    /** A mapping of one pair inside a flow sequence. */
    method StartPair() returns (ev: Option<Event>)
      requires StatesOk(states) && states != [] && |marks| == AllMarked(states) + 1 && pos <= |tokens|
      modifies this`state
      ensures ev.Some? && Valid() && Left() == 8 * (|tokens| - pos) + AllCost(states) + 5
      ensures Accept(Open(AllFrames(states) + [Seq]), ev.value) == Some(Nest())
      ensures Outcome(ev) == Moved(MappingStart(None, None, FLOW), old(Now()).(state := FlowSequenceEntryMappingKey))
    {
      CountLast(AllFrames(states), [Seq]);
      assert CountNode([Seq]) == [Seq];
      hide AllFrames, AllMarked, AllCost, StatesOk, CountNode;
      assert AllFrames(states) + [Seq] + [Map(false)] == AllFrames(states) + [Seq, Map(false)];
      state := FlowSequenceEntryMappingKey;
      ev := Some(MappingStart(None, None, FLOW));
    }

    method ParseFlowSequenceEntryMappingKey() returns (ev: Option<Event>)
      requires Valid() && state == FlowSequenceEntryMappingKey
      modifies this
      ensures ev.Some? ==> Valid() && Accept(old(Nest()), ev.value) == Some(Nest()) && Left() < old(Left())
      ensures Outcome(ev) == PairKey(tokens, old(Now()))
    {
      hide AllFrames, AllMarked, AllCost, StatesOk, Accept, Child, MayChild, NoChild, Back,
           Parser.Valid, Parser.Nest;
      Among();
      if Peek().None? {
        return None;
      }
      if !tokens[pos].Value? && !tokens[pos].FlowEntry? && !tokens[pos].FlowSequenceEnd? {
        ev := ParseChild(FlowSequenceEntryMappingValue, false, false, [Seq, Map(false)]);
      } else {
        pos := pos + 1;
        ev := EmptyChild(FlowSequenceEntryMappingValue, [Seq, Map(false)]);
      }
    }

    method ParseFlowSequenceEntryMappingValue() returns (ev: Option<Event>)
      requires Valid() && state == FlowSequenceEntryMappingValue
      modifies this
      ensures ev.Some? ==> Valid() && Accept(old(Nest()), ev.value) == Some(Nest()) && Left() < old(Left())
      ensures Outcome(ev) == PairValue(tokens, old(Now()))
    {
      hide AllFrames, AllMarked, AllCost, StatesOk, Accept, Child, MayChild, NoChild, Back,
           Parser.Valid, Parser.Nest;
      Among();
      if Peek().None? {
        return None;
      }
      if tokens[pos].Value? {
        pos := pos + 1;
        ev := MayParseChild(FlowSequenceEntryMappingEnd, false, false, {FlowEntry, FlowSequenceEnd}, [Seq, Map(true)]);
      } else {
        ev := EmptyChild(FlowSequenceEntryMappingEnd, [Seq, Map(true)]);
      }
    }

    method ParseFlowSequenceEntryMappingEnd() returns (ev: Option<Event>)
      requires Valid() && state == FlowSequenceEntryMappingEnd
      modifies this
      ensures ev.Some? ==> Valid() && Accept(old(Nest()), ev.value) == Some(Nest()) && Left() < old(Left())
      ensures Outcome(ev) == PairEnd(tokens, old(Now()))
    {
      hide AllFrames, AllMarked, AllCost, StatesOk;
      if Peek().None? {
        return None;
      }
      ghost var f := AllFrames(states);
      assert (f + [Seq, Map(false)])[..|f| + 1] == f + [Seq];
      state := FlowSequenceEntry;
      ev := Some(MappingEnd);
    }

    /** A key of a flow mapping, with or without its indicator. */
    method ParseFlowKey() returns (ev: Option<Event>)
      requires StatesOk(states) && states != [] && |marks| == AllMarked(states) + 1 && pos < |tokens|
      modifies this`pos, this`state, this`states
      ensures ev.Some? ==> Valid() && Accept(Open(AllFrames(old(states)) + [Map(false)]), ev.value) == Some(Nest())
      ensures ev.Some? ==> Left() <= 8 * (|tokens| - old(pos)) + AllCost(old(states)) + 7
      ensures Outcome(ev) == if tokens[old(pos)].Key?
        then MayChild(tokens, old(Now()).(pos := old(pos) + 1), FlowMappingValue, false, false,
                      {Value, FlowEntry, FlowMappingEnd})
        else Child(tokens, old(Now()), FlowMappingEmptyValue, false, false)
    {
      hide AllFrames, AllMarked, AllCost, StatesOk, Accept, Child, MayChild, Parser.Valid, Parser.Nest;
      if tokens[pos].Key? {
        pos := pos + 1;
        ev := MayParseChild(FlowMappingValue, false, false, {Value, FlowEntry, FlowMappingEnd}, [Map(false)]);
      } else {
        ev := ParseChild(FlowMappingEmptyValue, false, false, [Map(false)]);
      }
    }

    method ParseFlowMappingKey(first: bool) returns (ev: Option<Event>)
      requires Valid() && state == (if first then FlowMappingFirstKey else FlowMappingKey)
      modifies this
      ensures ev.Some? ==> Valid() && Accept(old(Nest()), ev.value) == Some(Nest()) && Left() < old(Left())
      ensures Outcome(ev) == FlowMapping(tokens, Past(old(Now()), first), first)
    {
      hide AllFrames, AllMarked, AllCost, StatesOk, Accept, Child, MayChild, NoChild, Back, Parser.Valid, Parser.Nest;
      Begin(first);
      if Peek().None? {
        return None;
      }
      if !tokens[pos].FlowMappingEnd? {
        var ok := Separate(first);
        if !ok {
          return None;
        }
        if !tokens[pos].FlowMappingEnd? {
          ev := ParseFlowKey();
          return;
        }
      }
      ev := Close(false);
    }

    method ParseFlowMappingValue(empty: bool) returns (ev: Option<Event>)
      requires Valid() && state == (if empty then FlowMappingEmptyValue else FlowMappingValue)
      modifies this
      ensures ev.Some? ==> Valid() && Accept(old(Nest()), ev.value) == Some(Nest()) && Left() < old(Left())
      ensures Outcome(ev) == if empty then NoFlowValue(tokens, old(Now())) else FlowValue(tokens, old(Now()))
    {
      hide AllFrames, AllMarked, AllCost, StatesOk, Accept, Child, MayChild, NoChild, Back,
           Parser.Valid, Parser.Nest;
      Among();
      if Peek().None? {
        return None;
      }
      if empty {
        ev := EmptyChild(FlowMappingKey, [Map(true)]);
        return;
      }
      if tokens[pos].Value? {
        pos := pos + 1;
        ev := MayParseChild(FlowMappingKey, false, false, {FlowEntry, FlowMappingEnd}, [Map(true)]);
      } else {
        ev := EmptyChild(FlowMappingKey, [Map(true)]);
      }
    }

    // ----- documents --------------------------------------------------------------------------------

    method ToOuter(s: State)
      requires s in {ImplicitDocumentStart, DocumentStartState, End} && states == [] && marks == [] && pos <= |tokens|
      modifies this`state
      ensures Valid() && Left() == 8 * (|tokens| - pos) + Cost(s) && Nest() == if s == End then Closed else Open([])
      ensures state == s
    {
      state := s;
      assert AllFrames(states) + Frames(s) == [];
    }

    method OpenDocument(s: State)
      requires (s == BlockNode || s == DocumentContent) && states == [] && marks == [] && pos <= |tokens|
      modifies this`state, this`states
      ensures Valid() && Nest() == Open([Doc(false)]) && Left() == 8 * (|tokens| - pos) + 5
      ensures state == s && states == old(states) + [DocumentEndState]
    {
      DocumentStates();
      hide AllFrames, AllMarked, AllCost, StatesOk;
      states := states + [DocumentEndState];
      state := s;
    }

    lemma AtOuter()
      requires Valid() && state in {ImplicitDocumentStart, DocumentStartState}
      ensures states == [] && pos <= |tokens|
    {
    }

    /** Outside collections nothing but the document is open. */
    lemma OuterNest()
      requires Valid() && states == []
      ensures marks == [] && Left() == 8 * (|tokens| - pos) + Cost(state)
      ensures state == DocumentEndState ==> Nest() == Open([Doc(true)])
      ensures state in {ImplicitDocumentStart, DocumentStartState} ==> Nest() == Open([])
    {
      assert AllFrames([]) + [Doc(true)] == [Doc(true)];
      assert AllFrames([]) + [] == [];
    }

    method ParseStreamStart() returns (ev: Option<Event>)
      requires Valid() && state == StreamStartState
      modifies this
      ensures ev.Some? ==> Valid() && Accept(old(Nest()), ev.value) == Some(Nest()) && Left() < old(Left())
      ensures Outcome(ev) == StartStream(tokens, old(Now()))
      ensures old(pos) == |tokens| ==> ev.None? && state == StreamStartState
    {
      OuterNest();
      if Peek().None? || !tokens[pos].StreamStartToken? {
        return None;
      }
      pos := pos + 1;
      ToOuter(ImplicitDocumentStart);
      ev := Some(StreamStart);
    }

    method AppendTagDirective(handle: Text, prefix: Text, allowDuplicates: bool) returns (ok: bool)
      modifies this`tagDirectives
      ensures ok <==> allowDuplicates || !Declares(old(tagDirectives), handle)
      ensures tagDirectives == WithDefault(old(tagDirectives), handle, prefix)
    {
      for k := 0 to |tagDirectives|
        invariant tagDirectives == old(tagDirectives) && forall j :: 0 <= j < k ==> tagDirectives[j].0 != handle
      {
        if tagDirectives[k].0 == handle {
          return allowDuplicates;
        }
      }
      tagDirectives := tagDirectives + [(handle, prefix)];
      ok := true;
    }

    /** One directive. */
    method ProcessDirective(version: bool, ghost whole: Directed) returns (ok: bool, version': bool)
      requires pos < |tokens| && IsDirective(tokens[pos])
      requires whole == ReadDirectives(tokens, pos, tagDirectives, version)
      modifies this`pos, this`tagDirectives
      ensures if ok then pos == old(pos) + 1 && whole == ReadDirectives(tokens, pos, tagDirectives, version')
              else pos == old(pos) && whole == BadDirectives
    {
      version' := version;
      match tokens[pos] {
        case VersionDirective(major, minor) =>
          if version || major != 1 || (minor != 1 && minor != 2) {
            return false, version;
          }
          version' := true;
        case TagDirective(handle, prefix) =>
          ok := AppendTagDirective(handle, prefix, false);
          if !ok {
            return;
          }
      }
      pos := pos + 1;
      ok := true;
    }

    /** yaml_parser_process_directives: afterwards there is a token that is no directive. */
    method ProcessDirectives() returns (ok: bool)
      modifies this`pos, this`tagDirectives
      ensures old(pos) <= pos
      ensures ok ==> pos < |tokens| && !IsDirective(tokens[pos])
      ensures ReadDirectives(tokens, old(pos), old(tagDirectives), false)
        == if ok then Directed(pos, tagDirectives) else BadDirectives
    {
      hide ReadDirectives, WithDefault, Declares;
      var version := false;
      ghost var whole := ReadDirectives(tokens, pos, tagDirectives, false);
      while pos < |tokens| && (tokens[pos].VersionDirective? || tokens[pos].TagDirective?)
        invariant old(pos) <= pos && whole == ReadDirectives(tokens, pos, tagDirectives, version)
        decreases |tokens| - pos
      {
        ok, version := ProcessDirective(version, whole);
        if !ok {
          return;
        }
      }
      NoMoreDirectives(tokens, pos, tagDirectives, version);
      if Peek().None? {
        return false;
      }
      ok := AppendTagDirective("!", "!", true);
      ok := AppendTagDirective("!!", "tag:yaml.org,2002:", true);
    }

    /** The directives of a document, and its start if it is explicit. */
    method BeginDocumentAt(explicit: bool) returns (ev: Option<Event>)
      requires states == [] && marks == []
      modifies this`pos, this`tagDirectives, this`state, this`states
      ensures ev.Some? ==> Valid() && Nest() == Open([Doc(false)]) && ev == Some(DocumentStart)
      ensures ev.Some? ==> old(pos) <= pos <= |tokens| && Left() == 8 * (|tokens| - pos) + 5
      ensures ev.Some? ==> explicit ==> old(pos) < pos
      ensures Outcome(ev) == match ReadDirectives(tokens, old(pos), old(tagDirectives), false)
        case BadDirectives => Stuck
        case Directed(p, ds) =>
          var m := old(Now()).(pos := p, directives := ds);
          if !explicit then BeginDocument(m, BlockNode)
          else if p < |tokens| && tokens[p].DocumentStartToken? then BeginDocument(m.(pos := p + 1), DocumentContent)
          else Stuck
    {
      hide Parser.Valid, Parser.Nest, ReadDirectives;
      var ok := ProcessDirectives();
      if !ok || (explicit && !tokens[pos].DocumentStartToken?) {
        return None;
      }
      if explicit {
        pos := pos + 1;
      }
      OpenDocument(if explicit then DocumentContent else BlockNode);
      ev := Some(DocumentStart);
    }

    /** Pass over document ends. */
    method PassEnds()
      requires pos <= |tokens|
      modifies this`pos
      ensures old(pos) <= pos <= |tokens| && pos == SkipEnds(tokens, old(pos))
    {
      while pos < |tokens| && tokens[pos].DocumentEndToken?
        invariant old(pos) <= pos <= |tokens| && SkipEnds(tokens, pos) == SkipEnds(tokens, old(pos))
        decreases |tokens| - pos
      {
        pos := pos + 1;
      }
    }

    method ParseDocumentStart(implicit: bool) returns (ev: Option<Event>)
      requires Valid() && state == (if implicit then ImplicitDocumentStart else DocumentStartState)
      modifies this
      ensures ev.Some? ==> Valid() && Accept(old(Nest()), ev.value) == Some(Nest()) && Left() < old(Left())
      ensures Outcome(ev) == StartDocument(tokens, old(Now()), implicit)
    {
      hide Parser.Valid, Parser.Nest, SkipEnds, ReadDirectives, AllFrames, AllMarked, AllCost, StatesOk, Accept,
           BeginDocument;
      OuterAccepts();
      AtOuter();
      OuterNest();
      if !implicit {
        PassEnds();
      }
      if Peek().None? {
        return None;
      }
      var token := tokens[pos];
      if implicit && !token.VersionDirective? && !token.TagDirective? && !token.DocumentStartToken?
        && !token.StreamEndToken? {
        ev := BeginDocumentAt(false);
      } else if !token.StreamEndToken? {
        ev := BeginDocumentAt(true);
      } else {
        pos := pos + 1;
        ToOuter(End);
        ev := Some(StreamEnd);
      }
    }

    method ParseDocumentContent() returns (ev: Option<Event>)
      requires Valid() && state == DocumentContent
      modifies this
      ensures ev.Some? ==> Valid() && Accept(old(Nest()), ev.value) == Some(Nest()) && Left() < old(Left())
      ensures Outcome(ev) == DocumentNode(tokens, old(Now()))
    {
      if Peek().None? {
        return None;
      }
      var token := tokens[pos];
      if token.VersionDirective? || token.TagDirective? || token.DocumentStartToken? || token.DocumentEndToken?
        || token.StreamEndToken? {
        ev := Some(ScalarEvent(None, None, "", PLAIN));
        Leaf(ev.value);
      } else {
        ev := ParseNode(true, false);
      }
    }

    method ParseDocumentEnd() returns (ev: Option<Event>)
      requires Valid() && state == DocumentEndState
      modifies this
      ensures ev.Some? ==> Valid() && Accept(old(Nest()), ev.value) == Some(Nest()) && Left() < old(Left())
      ensures Outcome(ev) == EndDocument(tokens, old(Now()))
    {
      OuterNest();
      hide Parser.Valid, Parser.Nest;
      if Peek().None? {
        return None;
      }
      if tokens[pos].DocumentEndToken? {
        pos := pos + 1;
      }
      tagDirectives := [];
      ToOuter(DocumentStartState);
      ev := Some(DocumentEnd);
    }

    /** yaml_parser_state_machine: one more event, or an error. The event fits what has been produced so far. */
    method Next() returns (ev: Option<Event>)
      requires Valid() && state != End
      modifies this
      ensures ev.Some? ==> Valid() && Accept(old(Nest()), ev.value) == Some(Nest()) && Left() < old(Left())
      ensures Outcome(ev) == Move(tokens, old(Now()))
      ensures old(state) == StreamStartState && old(pos) == |tokens| ==> ev.None? && state == StreamStartState
    {
      hide AllFrames, AllMarked, AllCost, StatesOk, Accept, NodeAt, BlockSequence, IndentlessSequence, BlockKey,
           BlockValue,
           FlowSequence, PairKey, PairValue, PairEnd, FlowMapping, FlowValue, NoFlowValue, StartDocument, StartStream,
           DocumentNode, EndDocument;
      match state {
        case StreamStartState => ev := ParseStreamStart();
        case ImplicitDocumentStart => ev := ParseDocumentStart(true);
        case DocumentStartState => ev := ParseDocumentStart(false);
        case DocumentContent => ev := ParseDocumentContent();
        case DocumentEndState => ev := ParseDocumentEnd();
        case BlockNode => ev := ParseNode(true, false);
        case BlockNodeOrIndentless => ev := ParseNode(true, true);
        case FlowNode => ev := ParseNode(false, false);
        case BlockSequenceFirstEntry => ev := ParseBlockSequenceEntry(true);
        case BlockSequenceEntry => ev := ParseBlockSequenceEntry(false);
        case IndentlessSequenceEntry => ev := ParseIndentlessSequenceEntry();
        case BlockMappingFirstKey => ev := ParseBlockMappingKey(true);
        case BlockMappingKey => ev := ParseBlockMappingKey(false);
        case BlockMappingValue => ev := ParseBlockMappingValue();
        case FlowSequenceFirstEntry => ev := ParseFlowSequenceEntry(true);
        case FlowSequenceEntry => ev := ParseFlowSequenceEntry(false);
        case FlowSequenceEntryMappingKey => ev := ParseFlowSequenceEntryMappingKey();
        case FlowSequenceEntryMappingValue => ev := ParseFlowSequenceEntryMappingValue();
        case FlowSequenceEntryMappingEnd => ev := ParseFlowSequenceEntryMappingEnd();
        case FlowMappingFirstKey => ev := ParseFlowMappingKey(true);
        case FlowMappingKey => ev := ParseFlowMappingKey(false);
        case FlowMappingValue => ev := ParseFlowMappingValue(false);
        case FlowMappingEmptyValue => ev := ParseFlowMappingValue(true);
      }
    }
  }

  /** The stack inside a document. */
  lemma DocumentStates()
    ensures [] + [DocumentEndState] == [DocumentEndState] && StatesOk([DocumentEndState])
    ensures AllFrames([DocumentEndState]) == [Doc(true)] && AllMarked([DocumentEndState]) == 0
      && AllCost([DocumentEndState]) == 2
  {
    Pushed([], DocumentEndState);
    assert [] + [DocumentEndState] == [DocumentEndState];
  }

  lemma CountTwice(a: seq<Frame>)
    requires a != []
    ensures CountNode(CountNode(a)) == a
  {
  }

  lemma CountLast(a: seq<Frame>, b: seq<Frame>)
    requires b != []
    ensures CountNode(a + b) == a + CountNode(b) && HasRoom(a + b) == HasRoom(b)
  {
  }

  lemma OuterAccepts()
    ensures Accept(Open([]), DocumentStart) == Some(Open([Doc(false)])) && Accept(Open([]), StreamEnd) == Some(Closed)
  {
  }

  lemma NoMoreDirectives(tokens: seq<Token>, pos: nat, ds: Directives, version: bool)
    requires pos >= |tokens| || !IsDirective(tokens[pos])
    ensures ReadDirectives(tokens, pos, ds, version)
      == if pos < |tokens| then Directed(pos, WithDefaults(ds)) else BadDirectives
  {
  }
}
