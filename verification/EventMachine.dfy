/**
 The event parser of parser.c as a function: from a position in the tokens, a state and a stack of states to return to,
 to the next event and what follows it.
 */
module EventMachine {
  import opened Options
  import opened YamlGraph

  datatype Token =
    | StreamStartToken | StreamEndToken
    | VersionDirective(major: int, minor: int) | TagDirective(handle: Text, prefix: Text)
    | DocumentStartToken | DocumentEndToken
    | BlockSequenceStart | BlockMappingStart | BlockEnd
    | FlowSequenceStart | FlowSequenceEnd | FlowMappingStart | FlowMappingEnd
    | BlockEntry | FlowEntry | Key | Value
    | AliasToken(name: Text) | AnchorToken(name: Text) | TagToken(tagHandle: Text, suffix: Text)
    | ScalarToken(value: Text, style: nat)

  datatype State =
    | StreamStartState | ImplicitDocumentStart | DocumentStartState | DocumentContent | DocumentEndState
    | BlockNode | BlockNodeOrIndentless | FlowNode
    | BlockSequenceFirstEntry | BlockSequenceEntry | IndentlessSequenceEntry
    | BlockMappingFirstKey | BlockMappingKey | BlockMappingValue
    | FlowSequenceFirstEntry | FlowSequenceEntry
    | FlowSequenceEntryMappingKey | FlowSequenceEntryMappingValue | FlowSequenceEntryMappingEnd
    | FlowMappingFirstKey | FlowMappingKey | FlowMappingValue | FlowMappingEmptyValue
    | End

  const BLOCK := 1
  const FLOW := 2
  const PLAIN := 1

  const EMPTY_SCALAR := ScalarEvent(None, None, "", PLAIN)

  /** Tag handles and their prefixes, in order of declaration. */
  type Directives = seq<(Text, Text)>

  datatype Machine = Machine(pos: nat, state: State, states: seq<State>, directives: Directives)

  datatype Moved = Stuck | Moved(ev: Event, m: Machine)

  // ----- nodes --------------------------------------------------------------------------------------------

  /** Complete a node: go on in the state that waits for it. */
  function Back(m: Machine, ev: Event): Moved {
    if m.states == [] then Stuck
    else Moved(ev, m.(state := m.states[|m.states| - 1], states := m.states[..|m.states| - 1]))
  }

  /** The tag that a handle and a suffix stand for, if the handle is known. */
  function TagFor(ds: Directives, handle: Text, suffix: Text): Option<Text> {
    if handle == "" then Some(suffix)
    else if ds == [] then None
    else if ds[0].0 == handle then Some(ds[0].1 + suffix)
    else TagFor(ds[1..], handle, suffix)
  }

  datatype Properties = BadProperties | Properties(pos: nat, anchor: Option<Text>, tag: Option<Text>)

  /** The properties that end before `pos`, of which the tag is still to be resolved; there must be a further token. */
  function Resolved(tokens: seq<Token>, pos: nat, ds: Directives, anchor: Option<Text>, tag: Option<Token>): Properties
  {
    if pos >= |tokens| then BadProperties
    else if tag.None? || !tag.value.TagToken? then Properties(pos, anchor, None)
    else
      var t := TagFor(ds, tag.value.tagHandle, tag.value.suffix);
      if t.None? then BadProperties else Properties(pos, anchor, t)
  }

  predicate IsTag(tokens: seq<Token>, pos: nat) { pos < |tokens| && tokens[pos].TagToken? }

  predicate IsAnchor(tokens: seq<Token>, pos: nat) { pos < |tokens| && tokens[pos].AnchorToken? }

  /** The anchor and the tag before a node, in either order. */
  function ReadProperties(tokens: seq<Token>, pos: nat, ds: Directives): Properties {
    if IsAnchor(tokens, pos) then
      var anchor := Some(tokens[pos].name);
      if IsTag(tokens, pos + 1) then Resolved(tokens, pos + 2, ds, anchor, Some(tokens[pos + 1]))
      else Resolved(tokens, pos + 1, ds, anchor, None)
    else if IsTag(tokens, pos) then
      var tag := Some(tokens[pos]);
      if IsAnchor(tokens, pos + 1) then Resolved(tokens, pos + 2, ds, Some(tokens[pos + 1].name), tag)
      else Resolved(tokens, pos + 1, ds, None, tag)
    else Resolved(tokens, pos, ds, None, None)
  }

  function Content(tokens: seq<Token>, m: Machine, block: bool, indentless: bool, anchor: Option<Text>,
                   tag: Option<Text>): Moved
    requires m.pos < |tokens|
  {
    var token := tokens[m.pos];
    if indentless && token.BlockEntry? then
      Moved(SequenceStart(anchor, tag, BLOCK), m.(state := IndentlessSequenceEntry))
    else if token.ScalarToken? then Back(m.(pos := m.pos + 1), ScalarEvent(anchor, tag, token.value, token.style))
    else if token.FlowSequenceStart? then Moved(SequenceStart(anchor, tag, FLOW), m.(state := FlowSequenceFirstEntry))
    else if token.FlowMappingStart? then Moved(MappingStart(anchor, tag, FLOW), m.(state := FlowMappingFirstKey))
    else if block && token.BlockSequenceStart? then
      Moved(SequenceStart(anchor, tag, BLOCK), m.(state := BlockSequenceFirstEntry))
    else if block && token.BlockMappingStart? then
      Moved(MappingStart(anchor, tag, BLOCK), m.(state := BlockMappingFirstKey))
    else if anchor.Some? || tag.Some? then Back(m, ScalarEvent(anchor, tag, "", PLAIN))
    else Stuck
  }

  function NodeAt(tokens: seq<Token>, m: Machine, block: bool, indentless: bool): Moved {
    if m.pos >= |tokens| then Stuck
    else if tokens[m.pos].AliasToken? then Back(m.(pos := m.pos + 1), Alias(tokens[m.pos].name))
    else
      match ReadProperties(tokens, m.pos, m.directives)
      case BadProperties => Stuck
      case Properties(pos, anchor, tag) =>
        if pos < |tokens| then Content(tokens, m.(pos := pos), block, indentless, anchor, tag) else Stuck
  }

  /** A child node, after which the machine goes on in state `r`. */
  function Child(tokens: seq<Token>, m: Machine, r: State, block: bool, indentless: bool): Moved {
    NodeAt(tokens, m.(states := m.states + [r]), block, indentless)
  }

  /** An empty scalar in place of a child. */
  function NoChild(m: Machine, r: State): Moved { Moved(EMPTY_SCALAR, m.(state := r)) }

  /** A child, or an empty scalar before a token that only goes on with the collection. */
  function MayChild(tokens: seq<Token>, m: Machine, r: State, block: bool, indentless: bool, stop: set<Token>): Moved {
    if m.pos >= |tokens| then Stuck
    else if tokens[m.pos] in stop then NoChild(m, r)
    else Child(tokens, m, r, block, indentless)
  }

  // ----- block collections ----------------------------------------------------------------------------------

  /** Past the token that opened the collection. */
  function Past(m: Machine, first: bool): Machine { if first then m.(pos := m.pos + 1) else m }

  function EndOf(m: Machine, ev: Event): Moved { Back(m.(pos := m.pos + 1), ev) }

  function BlockSequence(tokens: seq<Token>, m: Machine): Moved {
    if m.pos >= |tokens| then Stuck
    else
      match tokens[m.pos]
      case BlockEntry =>
        MayChild(tokens, m.(pos := m.pos + 1), BlockSequenceEntry, true, false, {BlockEntry, BlockEnd})
      case BlockEnd => EndOf(m, SequenceEnd)
      case _ => Stuck
  }

  function IndentlessSequence(tokens: seq<Token>, m: Machine): Moved {
    if m.pos >= |tokens| then Stuck
    else if tokens[m.pos].BlockEntry? then
      MayChild(tokens, m.(pos := m.pos + 1), IndentlessSequenceEntry, true, false, {BlockEntry, Key, Value, BlockEnd})
    else Back(m, SequenceEnd)
  }

  function BlockKey(tokens: seq<Token>, m: Machine): Moved {
    if m.pos >= |tokens| then Stuck
    else
      match tokens[m.pos]
      case Key => MayChild(tokens, m.(pos := m.pos + 1), BlockMappingValue, true, true, {Key, Value, BlockEnd})
      case BlockEnd => EndOf(m, MappingEnd)
      case _ => Stuck
  }

  function BlockValue(tokens: seq<Token>, m: Machine): Moved {
    if m.pos >= |tokens| then Stuck
    else if tokens[m.pos].Value? then
      MayChild(tokens, m.(pos := m.pos + 1), BlockMappingKey, true, true, {Key, Value, BlockEnd})
    else NoChild(m, BlockMappingKey)
  }

  // ----- flow collections -----------------------------------------------------------------------------------

  /** Where the next entry of a flow collection starts; `None` if a separator is missing. */
  function Separated(tokens: seq<Token>, pos: nat, first: bool): Option<nat> {
    if pos >= |tokens| then None
    else if first then Some(pos)
    else if tokens[pos].FlowEntry? && pos + 1 < |tokens| then Some(pos + 1)
    else None
  }

  function FlowSequence(tokens: seq<Token>, m: Machine, first: bool): Moved {
    if m.pos < |tokens| && tokens[m.pos].FlowSequenceEnd? then EndOf(m, SequenceEnd)
    else
      match Separated(tokens, m.pos, first)
      case None => Stuck
      case Some(pos) =>
        var m' := m.(pos := pos);
        if pos >= |tokens| then Stuck
        else if tokens[pos].Key? then
          Moved(MappingStart(None, None, FLOW), m.(pos := pos + 1, state := FlowSequenceEntryMappingKey))
        else if tokens[pos].FlowSequenceEnd? then EndOf(m', SequenceEnd)
        else Child(tokens, m', FlowSequenceEntry, false, false)
  }

  /** In place of a key the token after the indicator is skipped. */
  function PairKey(tokens: seq<Token>, m: Machine): Moved {
    if m.pos >= |tokens| then Stuck
    else if tokens[m.pos] in {Value, FlowEntry, FlowSequenceEnd} then
      NoChild(m.(pos := m.pos + 1), FlowSequenceEntryMappingValue)
    else Child(tokens, m, FlowSequenceEntryMappingValue, false, false)
  }

  function PairValue(tokens: seq<Token>, m: Machine): Moved {
    if m.pos >= |tokens| then Stuck
    else if tokens[m.pos].Value? then
      MayChild(tokens, m.(pos := m.pos + 1), FlowSequenceEntryMappingEnd, false, false, {FlowEntry, FlowSequenceEnd})
    else NoChild(m, FlowSequenceEntryMappingEnd)
  }

  function PairEnd(tokens: seq<Token>, m: Machine): Moved {
    if m.pos >= |tokens| then Stuck else Moved(MappingEnd, m.(state := FlowSequenceEntry))
  }

  function FlowMapping(tokens: seq<Token>, m: Machine, first: bool): Moved {
    if m.pos < |tokens| && tokens[m.pos].FlowMappingEnd? then EndOf(m, MappingEnd)
    else
      match Separated(tokens, m.pos, first)
      case None => Stuck
      case Some(pos) =>
        var m' := m.(pos := pos);
        if pos >= |tokens| then Stuck
        else if tokens[pos].Key? then
          MayChild(tokens, m.(pos := pos + 1), FlowMappingValue, false, false, {Value, FlowEntry, FlowMappingEnd})
        else if tokens[pos].FlowMappingEnd? then EndOf(m', MappingEnd)
        else Child(tokens, m', FlowMappingEmptyValue, false, false)
  }

  function FlowValue(tokens: seq<Token>, m: Machine): Moved {
    if m.pos >= |tokens| then Stuck
    else if tokens[m.pos].Value? then
      MayChild(tokens, m.(pos := m.pos + 1), FlowMappingKey, false, false, {FlowEntry, FlowMappingEnd})
    else NoChild(m, FlowMappingKey)
  }

  function NoFlowValue(tokens: seq<Token>, m: Machine): Moved {
    if m.pos >= |tokens| then Stuck else NoChild(m, FlowMappingKey)
  }

  // ----- documents ------------------------------------------------------------------------------------------

  predicate IsDirective(t: Token) { t.VersionDirective? || t.TagDirective? }

  predicate Declares(ds: Directives, handle: Text) { exists k :: 0 <= k < |ds| && ds[k].0 == handle }

  function WithDefault(ds: Directives, handle: Text, prefix: Text): Directives {
    if Declares(ds, handle) then ds else ds + [(handle, prefix)]
  }

  function WithDefaults(ds: Directives): Directives {
    WithDefault(WithDefault(ds, "!", "!"), "!!", "tag:yaml.org,2002:")
  }

  datatype Directed = BadDirectives | Directed(pos: nat, directives: Directives)

  /** yaml_parser_process_directives from `pos` on; `version` says whether there was a version already. */
  function ReadDirectives(tokens: seq<Token>, pos: nat, ds: Directives, version: bool): Directed
    decreases |tokens| - pos
  {
    if pos >= |tokens| then BadDirectives
    else
      match tokens[pos]
      case VersionDirective(major, minor) =>
        if version || major != 1 || (minor != 1 && minor != 2) then BadDirectives
        else ReadDirectives(tokens, pos + 1, ds, true)
      case TagDirective(handle, prefix) =>
        if Declares(ds, handle) then BadDirectives
        else ReadDirectives(tokens, pos + 1, ds + [(handle, prefix)], version)
      case _ => Directed(pos, WithDefaults(ds))
  }

  function SkipEnds(tokens: seq<Token>, pos: nat): nat
    decreases |tokens| - pos
  {
    if pos < |tokens| && tokens[pos].DocumentEndToken? then SkipEnds(tokens, pos + 1) else pos
  }

  function BeginDocument(m: Machine, s: State): Moved {
    Moved(DocumentStart, m.(state := s, states := m.states + [DocumentEndState]))
  }

  function StartDocument(tokens: seq<Token>, m: Machine, implicit: bool): Moved {
    var start := if implicit then m.pos else SkipEnds(tokens, m.pos);
    if start >= |tokens| then Stuck
    else if tokens[start].StreamEndToken? then Moved(StreamEnd, m.(pos := start + 1, state := End))
    else
      match ReadDirectives(tokens, start, m.directives, false)
      case BadDirectives => Stuck
      case Directed(pos, ds) =>
        var m' := m.(pos := pos, directives := ds);
        if implicit && !IsDirective(tokens[start]) && !tokens[start].DocumentStartToken? then
          BeginDocument(m', BlockNode)
        else if pos < |tokens| && tokens[pos].DocumentStartToken? then
          BeginDocument(m'.(pos := pos + 1), DocumentContent)
        else Stuck
  }

  function DocumentNode(tokens: seq<Token>, m: Machine): Moved {
    if m.pos >= |tokens| then Stuck
    else
      var t := tokens[m.pos];
      if IsDirective(t) || t in {DocumentStartToken, DocumentEndToken, StreamEndToken} then Back(m, EMPTY_SCALAR)
      else NodeAt(tokens, m, true, false)
  }

  function EndDocument(tokens: seq<Token>, m: Machine): Moved {
    if m.pos >= |tokens| then Stuck
    else
      var pos := if tokens[m.pos].DocumentEndToken? then m.pos + 1 else m.pos;
      Moved(DocumentEnd, m.(pos := pos, state := DocumentStartState, directives := []))
  }

  function StartStream(tokens: seq<Token>, m: Machine): Moved {
    if m.pos < |tokens| && tokens[m.pos].StreamStartToken?
    then Moved(StreamStart, m.(pos := m.pos + 1, state := ImplicitDocumentStart))
    else Stuck
  }

  /** The next event, or an error. */
  function Move(tokens: seq<Token>, m: Machine): Moved {
    match m.state
    case StreamStartState => StartStream(tokens, m)
    case ImplicitDocumentStart => StartDocument(tokens, m, true)
    case DocumentStartState => StartDocument(tokens, m, false)
    case DocumentContent => DocumentNode(tokens, m)
    case DocumentEndState => EndDocument(tokens, m)
    case BlockNode => NodeAt(tokens, m, true, false)
    case BlockNodeOrIndentless => NodeAt(tokens, m, true, true)
    case FlowNode => NodeAt(tokens, m, false, false)
    case BlockSequenceFirstEntry => BlockSequence(tokens, Past(m, true))
    case BlockSequenceEntry => BlockSequence(tokens, m)
    case IndentlessSequenceEntry => IndentlessSequence(tokens, m)
    case BlockMappingFirstKey => BlockKey(tokens, Past(m, true))
    case BlockMappingKey => BlockKey(tokens, m)
    case BlockMappingValue => BlockValue(tokens, m)
    case FlowSequenceFirstEntry => FlowSequence(tokens, Past(m, true), true)
    case FlowSequenceEntry => FlowSequence(tokens, m, false)
    case FlowSequenceEntryMappingKey => PairKey(tokens, m)
    case FlowSequenceEntryMappingValue => PairValue(tokens, m)
    case FlowSequenceEntryMappingEnd => PairEnd(tokens, m)
    case FlowMappingFirstKey => FlowMapping(tokens, Past(m, true), true)
    case FlowMappingKey => FlowMapping(tokens, m, false)
    case FlowMappingValue => FlowValue(tokens, m)
    case FlowMappingEmptyValue => NoFlowValue(tokens, m)
    case End => Stuck
  }
}
