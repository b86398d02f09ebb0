/**
 How events are spelled as tokens: the grammar at the top of parser.c, read as a way of writing. A writer goes through
 the events with the slots of the open collections; every event has a text, which depends on the innermost slot and on a
 choice of spelling. Nothing here refers to the states of the parser.
 */
module Spelling {
  import opened Options
  import opened YamlGraph
  import opened Nesting
  import opened EventMachine

  datatype SequenceKind = Dashed | Undented | Bracketed

  /** What is open: a document, a sequence, a mapping, or a mapping of one pair in a flow sequence, together with that
      sequence. `first` says that nothing has been written in it, `pending` that a key waits for its value, and `bare`
      that this key was written without an indicator, or in a single pair that it is empty. */
  datatype Slot =
    | DocumentSlot(full: bool, explicit: bool)
    | SequenceSlot(kind: SequenceKind, first: bool)
    | MappingSlot(flow: bool, first: bool, pending: bool, bare: bool)
    | PairSlot(first: bool, pending: bool, bare: bool)

  /** With all its tokens; as a sequence without start and end; with nothing but its properties; as a single pair. */
  datatype Form = Full | Indentless | Vacant | Single

  /** A spelling: the form, the order of anchor and tag, handle and suffix of the tag, whether an optional indicator or
      document mark is left out, whether a flow collection ends with a comma, and the directives of a document. The
      empty key of a single pair leaves out its node: the value indicator counts as its text, or the comma that ends the
      flow sequence, and its value is empty too. */
  datatype Choice = Choice(form: Form, tagFirst: bool, tagHandle: Text, suffix: Text, omit: bool, comma: bool,
                           directives: seq<Token>)

  datatype Writer = Unbegun | Between(first: bool) | Inside(slots: seq<Slot>, known: Directives) | Finished

  // ----- tags -----------------------------------------------------------------------------------------------

  /** The tag that a handle and a suffix mean: the suffix itself without a handle, else the first declared prefix. */
  ghost predicate Means(ds: Directives, handle: Text, suffix: Text, tag: Text) {
    if handle == "" then tag == suffix
    else exists k :: 0 <= k < |ds| && ds[k].0 == handle && tag == ds[k].1 + suffix && First(ds, k)
  }

  ghost predicate First(ds: Directives, k: nat)
    requires k < |ds|
  {
    forall j :: 0 <= j < k ==> ds[j].0 != ds[k].0
  }

  /** The handles that directives declare, in order. */
  function Declared(directives: seq<Token>): Directives {
    if directives == [] then []
    else
      var t := directives[|directives| - 1];
      Declared(directives[..|directives| - 1]) + if t.TagDirective? then [(t.handle, t.prefix)] else []
  }

  predicate Knows(ds: Directives, handle: Text) { exists k :: 0 <= k < |ds| && ds[k].0 == handle }

  /** The handles known in a document: declared ones, and the two default ones unless they are declared. */
  function KnownHandles(ds: Directives): Directives {
    var one := ds + if Knows(ds, "!") then [] else [("!", "!")];
    one + if Knows(one, "!!") then [] else [("!!", "tag:yaml.org,2002:")]
  }

  predicate Apart(s: Token, t: Token) {
    if s.TagDirective? then t.TagDirective? ==> s.handle != t.handle else !t.VersionDirective?
  }

  /** At most one version, 1.1 or 1.2, and no handle twice. */
  ghost predicate DirectivesOk(directives: seq<Token>) {
    && (forall k :: 0 <= k < |directives| ==>
          directives[k].TagDirective? || directives[k] in {VersionDirective(1, 1), VersionDirective(1, 2)})
    && (forall j, k :: 0 <= j < k < |directives| ==> Apart(directives[j], directives[k]))
  }

  // ----- texts ----------------------------------------------------------------------------------------------

  predicate IsNodeEvent(ev: Event) { ev.Alias? || ev.ScalarEvent? || ev.SequenceStart? || ev.MappingStart? }

  function AnchorOf(ev: Event): Option<Text> {
    if ev.ScalarEvent? || ev.SequenceStart? || ev.MappingStart? then ev.anchor else None
  }

  function TagOf(ev: Event): Option<Text> {
    if ev.ScalarEvent? || ev.SequenceStart? || ev.MappingStart? then ev.tag else None
  }

  function PropertyText(ev: Event, sp: Choice): seq<Token> {
    var a := if AnchorOf(ev).Some? then [AnchorToken(AnchorOf(ev).value)] else [];
    var t := if TagOf(ev).Some? then [TagToken(sp.tagHandle, sp.suffix)] else [];
    if sp.tagFirst then t + a else a + t
  }

  /** The token of a node in full form. */
  function ContentToken(ev: Event): Token
    requires IsNodeEvent(ev)
  {
    match ev
    case Alias(name) => AliasToken(name)
    case ScalarEvent(_, _, value, style) => ScalarToken(value, style)
    case SequenceStart(_, _, style) => if style == BLOCK then BlockSequenceStart else FlowSequenceStart
    case MappingStart(_, _, style) => if style == BLOCK then BlockMappingStart else FlowMappingStart
  }

  function NodeText(ev: Event, sp: Choice): seq<Token>
    requires IsNodeEvent(ev)
  {
    match sp.form
    case Full => PropertyText(ev, sp) + [ContentToken(ev)]
    case Single => [Key]
    case _ => PropertyText(ev, sp)
  }

  /** The indicators before a node. */
  function Lead(slot: Slot, sp: Choice): seq<Token> {
    match slot
    case DocumentSlot(_, _) => []
    case SequenceSlot(kind, first) => if kind != Bracketed then [BlockEntry] else if first then [] else [FlowEntry]
    case MappingSlot(flow, first, pending, bare) =>
      if pending then (if bare || sp.omit then [] else [Value])
      else (if flow && !first then [FlowEntry] else []) + (if sp.omit then [] else [Key])
    case PairSlot(_, pending, bare) =>
      if pending then (if bare || sp.omit then [] else [Value])
      else if sp.omit then [if sp.comma then FlowEntry else Value] else []
  }

  function Comma(flow: bool, first: bool, sp: Choice): seq<Token> {
    if flow && !first && sp.comma then [FlowEntry] else []
  }

  function EndText(slot: Slot, sp: Choice): seq<Token> {
    match slot
    case SequenceSlot(kind, first) =>
      if kind == Dashed then [BlockEnd] else if kind == Undented then []
      else Comma(true, first, sp) + [FlowSequenceEnd]
    case MappingSlot(flow, first, _, _) => Comma(flow, first, sp) + [if flow then FlowMappingEnd else BlockEnd]
    case _ => []
  }

  /** The tokens of an event. */
  function TextOf(w: Writer, ev: Event, sp: Choice): seq<Token> {
    match w
    case Unbegun => [StreamStartToken]
    case Between(_) =>
      if ev.StreamEnd? then [StreamEndToken] else if sp.omit then [] else sp.directives + [DocumentStartToken]
    case Inside(slots, _) =>
      if slots == [] then []
      else
        var slot := slots[|slots| - 1];
        if IsNodeEvent(ev) then Lead(slot, sp) + NodeText(ev, sp)
        else if ev.DocumentEnd? then (if sp.omit then [] else [DocumentEndToken])
        else EndText(slot, sp)
    case Finished => []
  }

  // ----- what may stand where -------------------------------------------------------------------------------

  /** A slot when a node has been written in it. */
  function Filled(slot: Slot, sp: Choice): Slot {
    match slot
    case DocumentSlot(_, explicit) => DocumentSlot(true, explicit)
    case SequenceSlot(kind, _) => SequenceSlot(kind, false)
    case MappingSlot(flow, _, pending, _) => MappingSlot(flow, false, !pending, !pending && sp.omit)
    case PairSlot(_, pending, _) => PairSlot(false, !pending, !pending && sp.omit)
  }

  /** The slots that a node opens. */
  function Opened(ev: Event, sp: Choice): seq<Slot> {
    match ev
    case SequenceStart(_, _, style) =>
      [SequenceSlot(if sp.form == Indentless then Undented else if style == BLOCK then Dashed else Bracketed, true)]
    case MappingStart(_, _, style) => [MappingSlot(style != BLOCK, true, false, false)]
    case _ => []
  }

  function Next(w: Writer, ev: Event, sp: Choice): Writer {
    match w
    case Unbegun => Between(true)
    case Between(_) =>
      if ev.StreamEnd? then Finished
      else Inside([DocumentSlot(false, !sp.omit)], KnownHandles(Declared(sp.directives)))
    case Inside(slots, known) =>
      if slots == [] then w
      else
        var last := |slots| - 1;
        if ev.DocumentEnd? then Between(false)
        else if ev.SequenceEnd? then Inside(slots[..last], known)
        else if ev.MappingEnd? then
          Inside(slots[..last] + (if slots[last].PairSlot? then [SequenceSlot(Bracketed, false)] else []), known)
        else if sp.form == Single then Inside(slots[..last] + [PairSlot(true, false, false)], known)
        else Inside(slots[..last] + [Filled(slots[last], sp)] + Opened(ev, sp), known)
    case Finished => w
  }

  predicate InFlow(slot: Slot) {
    (slot.SequenceSlot? && slot.kind == Bracketed) || (slot.MappingSlot? && slot.flow) || slot.PairSlot?
  }

  /** Tokens that start a node. */
  predicate StartsNode(t: Token) {
    t.AliasToken? || t.AnchorToken? || t.TagToken? || t.ScalarToken? || t.BlockSequenceStart? || t.BlockMappingStart?
    || t.FlowSequenceStart? || t.FlowMappingStart?
  }

  /** The tokens that may follow a node that is not there at all. */
  predicate GoesOn(slot: Slot, sp: Choice, next: Token) {
    match slot
    case DocumentSlot(_, explicit) =>
      explicit && (IsDirective(next) || next in {DocumentStartToken, DocumentEndToken, StreamEndToken})
    case SequenceSlot(kind, _) =>
      && kind != Bracketed
      && next in (if kind == Undented then {BlockEntry, Key, Value, BlockEnd} else {BlockEntry, BlockEnd})
    case MappingSlot(flow, _, pending, bare) =>
      if !pending then !sp.omit && next in (if flow then {Value, FlowEntry, FlowMappingEnd} else {Key, Value, BlockEnd})
      else if bare then true
      else if sp.omit then next != Value
      else next in (if flow then {FlowEntry, FlowMappingEnd} else {Key, Value, BlockEnd})
    case PairSlot(_, pending, bare) =>
      if !pending then sp.omit && (next == FlowSequenceEnd || (next == FlowEntry && !sp.comma))
      else if bare then next in {FlowEntry, FlowSequenceEnd}
      else if sp.omit then next != Value else next in {FlowEntry, FlowSequenceEnd}
  }

  /** A node in this slot, spelled this way, before the token `next`. */
  ghost predicate MayNode(slot: Slot, known: Directives, ev: Event, sp: Choice, next: Token) {
    && (TagOf(ev).Some? ==> Means(known, sp.tagHandle, sp.suffix, TagOf(ev).value))
    && (slot.DocumentSlot? ==> !slot.full) && (slot.PairSlot? ==> slot.first || slot.pending)
    && (ev.SequenceStart? || ev.MappingStart? ==> ev.style == FLOW || (ev.style == BLOCK && !InFlow(slot)))
    && (sp.omit ==> (slot.MappingSlot? && slot.flow && !slot.pending) || (sp.form == Vacant && ev == EMPTY_SCALAR))
    && ((slot.MappingSlot? || slot.PairSlot?) && slot.pending && slot.bare ==> sp.form == Vacant && ev == EMPTY_SCALAR)
    && match sp.form
       case Full => true
       case Indentless =>
         ev.SequenceStart? && ev.style == BLOCK && slot.MappingSlot? && !slot.flow && next == BlockEntry
       case Single => ev == MappingStart(None, None, FLOW) && slot.SequenceSlot? && slot.kind == Bracketed
       case Vacant =>
         && ev.ScalarEvent? && ev.value == "" && ev.style == PLAIN
         && if ev == EMPTY_SCALAR then GoesOn(slot, sp, next)
            else !StartsNode(next) && (slot.MappingSlot? && !slot.flow ==> next != BlockEntry)
  }

  ghost predicate MayEnd(slot: Slot, ev: Event, next: Token) {
    match slot
    case SequenceSlot(kind, _) => ev.SequenceEnd? && (kind == Undented ==> next != BlockEntry)
    case MappingSlot(_, _, pending, _) => ev.MappingEnd? && !pending
    case PairSlot(first, pending, _) => ev.MappingEnd? && !first && !pending
    case _ => false
  }

  /** The event may stand here, spelled this way and followed by the tokens `rest`. */
  ghost predicate May(w: Writer, ev: Event, sp: Choice, rest: seq<Token>) {
    match w
    case Unbegun => ev.StreamStart?
    case Between(first) =>
      if ev.StreamEnd? then rest == []
      else
        && ev.DocumentStart? && rest != []
        && (if sp.omit then first && sp.directives == [] && !IsDirective(rest[0]) && rest[0] != DocumentStartToken
                           && rest[0] != StreamEndToken
            else DirectivesOk(sp.directives))
    case Inside(slots, known) =>
      && slots != [] && rest != []
      && var slot := slots[|slots| - 1];
         if IsNodeEvent(ev) then MayNode(slot, known, ev, sp, rest[0])
         else if ev.DocumentEnd? then slot.DocumentSlot? && slot.full && (sp.omit ==> rest[0] != DocumentEndToken)
         else MayEnd(slot, ev, rest[0])
    case Finished => false
  }

  /** The tokens spell the events, from the state `w` of the writer to the end of the stream. */
  ghost predicate Spelled(w: Writer, events: seq<Event>, sps: seq<Choice>, tokens: seq<Token>)
    decreases |events|
  {
    && |events| == |sps|
    && if events == [] then w.Finished? && tokens == []
       else
         var text := TextOf(w, events[0], sps[0]);
         && |text| <= |tokens| && tokens[..|text|] == text
         && May(w, events[0], sps[0], tokens[|text|..])
         && Spelled(Next(w, events[0], sps[0]), events[1..], sps[1..], tokens[|text|..])
  }
}
