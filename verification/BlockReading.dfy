/**
 A configuration file from its text to its document: scanner, parser and loader one behind the other.
 */
module BlockReading {
  import opened Options
  import opened YamlGraph
  import opened EventMachine
  import opened Spelling
  import opened TokenLayout
  import opened LayoutRun
  import opened BlockText
  import opened YamlScanner
  import opened ParseLoad
  import L = Loader
  import LoadLaw
  import LoadExactly
  import Nesting

  // ----- the events of a tree ---------------------------------------------------------------------------

  function ScalarOf(t: Token): Event {
    if t.ScalarToken? then ScalarEvent(None, None, t.value, t.style) else EMPTY_SCALAR
  }

  /** The tree as events: a missing value is an empty scalar. */
  function Events(b: Block): seq<Event> {
    match b
    case Nothing => [EMPTY_SCALAR]
    case Scalar(item) => [ScalarOf(item.token)]
    case Mapping(entries) => [MappingStart(None, None, BLOCK)] + EntryEvents(entries) + [MappingEnd]
    case Sequence(elements) => [SequenceStart(None, None, BLOCK)] + ElementEvents(elements) + [SequenceEnd]
  }

  function EntryEvents(es: Entries): seq<Event> {
    match es
    case NoEntry => []
    case OneEntry(key, _, value, rest) => [ScalarOf(key.token)] + Events(value) + EntryEvents(rest)
  }

  function ElementEvents(es: Elements): seq<Event> {
    match es
    case NoElement => []
    case OneElement(_, element, others) => Events(element) + ElementEvents(others)
  }

  // ----- how they are spelled -----------------------------------------------------------------------------

  const FULL := Choice(Full, false, "", "", false, false, [])
  const VACANT := FULL.(form := Vacant)
  const OMITTED := FULL.(omit := true)

  function Choices(b: Block): seq<Choice> {
    match b
    case Nothing => [VACANT]
    case Scalar(_) => [FULL]
    case Mapping(entries) => [FULL] + EntryChoices(entries) + [FULL]
    case Sequence(elements) => [FULL] + ElementChoices(elements) + [FULL]
  }

  function EntryChoices(es: Entries): seq<Choice> {
    if es.NoEntry? then [] else [FULL] + Choices(es.value) + EntryChoices(es.rest)
  }

  function ElementChoices(es: Elements): seq<Choice> {
    if es.NoElement? then [] else Choices(es.element) + ElementChoices(es.others)
  }

  /** A slot for a node in block style, with its indicator. */
  predicate Takes(slot: Slot) {
    match slot
    case DocumentSlot(full, _) => !full
    case SequenceSlot(kind, _) => kind == Dashed
    case MappingSlot(flow, _, _, bare) => !flow && !bare
    case PairSlot(_, _, _) => false
  }

  /** What may follow a block in a slot: an empty one needs a token that cannot be taken for its value. */
  predicate Follows(slot: Slot, b: Block, next: Token) {
    b.Nothing? ==>
      if slot.SequenceSlot? then next == BlockEntry || next == BlockEnd
      else slot.MappingSlot? && slot.pending && (next == Key || next == BlockEnd)
  }

  /** Every scalar of the tree is one. */
  predicate ScalarsOk(b: Block) {
    match b
    case Nothing => true
    case Scalar(item) => item.token.ScalarToken?
    case Mapping(entries) => EntriesOk(entries)
    case Sequence(elements) => ElementsOk(elements)
  }

  predicate EntriesOk(es: Entries) {
    es.OneEntry? ==> es.key.token.ScalarToken? && ScalarsOk(es.value) && EntriesOk(es.rest)
  }

  predicate ElementsOk(es: Elements) { es.OneElement? ==> ScalarsOk(es.element) && ElementsOk(es.others) }

  lemma SpellOne(w: Writer, ev: Event, sp: Choice, events: seq<Event>, sps: seq<Choice>, rest: seq<Token>)
    requires May(w, ev, sp, rest) && Spelled(Next(w, ev, sp), events, sps, rest)
    ensures Spelled(w, [ev] + events, [sp] + sps, TextOf(w, ev, sp) + rest)
  {
    hide May, Next, TextOf;
    var text := TextOf(w, ev, sp);
    assert (text + rest)[..|text|] == text && (text + rest)[|text|..] == rest;
    assert ([ev] + events)[1..] == events && ([sp] + sps)[1..] == sps;
  }

  /** The slots with the innermost one filled. */
  function After(slots: seq<Slot>): seq<Slot>
    requires slots != []
  {
    slots[..|slots| - 1] + [Filled(slots[|slots| - 1], FULL)]
  }

  function LeadOf(slots: seq<Slot>): seq<Token>
    requires slots != []
  {
    Lead(slots[|slots| - 1], FULL)
  }

  /** One node in block style. */
  lemma NodeSpelled(slots: seq<Slot>, known: Directives, ev: Event, events: seq<Event>, sps: seq<Choice>,
                    rest: seq<Token>)
    requires slots != [] && Takes(slots[|slots| - 1]) && rest != []
    requires ev.ScalarEvent? || ((ev.MappingStart? || ev.SequenceStart?) && ev.style == BLOCK)
    requires ev.anchor.None? && ev.tag.None?
    requires Spelled(Inside(After(slots) + Opened(ev, FULL), known), events, sps, rest)
    ensures Spelled(Inside(slots, known), [ev] + events, [FULL] + sps, LeadOf(slots) + [ContentToken(ev)] + rest)
  {
    hide Spelled, Lead;
    var w := Inside(slots, known);
    assert May(w, ev, FULL, rest);
    assert NodeText(ev, FULL) == [ContentToken(ev)];
    SpellOne(w, ev, FULL, events, sps, rest);
  }

  lemma NothingSpelled(slots: seq<Slot>, known: Directives, events: seq<Event>, sps: seq<Choice>, rest: seq<Token>)
    requires slots != [] && Takes(slots[|slots| - 1]) && rest != [] && Follows(slots[|slots| - 1], Nothing, rest[0])
    requires Spelled(Inside(After(slots), known), events, sps, rest)
    ensures Spelled(Inside(slots, known), [EMPTY_SCALAR] + events, [VACANT] + sps, LeadOf(slots) + rest)
  {
    hide Spelled, Lead, MayNode;
    var w := Inside(slots, known);
    MayNothing(slots[|slots| - 1], known, rest[0]);
    assert NodeText(EMPTY_SCALAR, VACANT) == [];
    assert After(slots) + [] == After(slots) && Filled(slots[|slots| - 1], VACANT) == Filled(slots[|slots| - 1], FULL);
    SameLead(slots[|slots| - 1]);
    assert TextOf(w, EMPTY_SCALAR, VACANT) == LeadOf(slots);
    SpellOne(w, EMPTY_SCALAR, VACANT, events, sps, rest);
  }

  lemma SameLead(slot: Slot)
    ensures Lead(slot, VACANT) == Lead(slot, FULL) && Lead(slot, FULL) + [] == Lead(slot, FULL)
  {
  }

  lemma MayNothing(slot: Slot, known: Directives, next: Token)
    requires Takes(slot) && Follows(slot, Nothing, next)
    ensures MayNode(slot, known, EMPTY_SCALAR, VACANT, next)
  {
  }

  lemma EndSpelled(slots: seq<Slot>, known: Directives, slot: Slot, events: seq<Event>, sps: seq<Choice>,
                   rest: seq<Token>)
    requires Takes(slot) && rest != [] && (slot.SequenceSlot? || (slot.MappingSlot? && !slot.pending))
    requires Spelled(Inside(slots, known), events, sps, rest)
    ensures var end := if slot.SequenceSlot? then SequenceEnd else MappingEnd;
      Spelled(Inside(slots + [slot], known), [end] + events, [FULL] + sps, [BlockEnd] + rest)
  {
    hide Spelled;
    var w := Inside(slots + [slot], known);
    var end := if slot.SequenceSlot? then SequenceEnd else MappingEnd;
    assert (slots + [slot])[..|slots|] == slots && slots + [] == slots;
    assert TextOf(w, end, FULL) == [BlockEnd];
    SpellOne(w, end, FULL, events, sps, rest);
  }

  /** The text of a block spells its events, before whatever goes on. */
  lemma {:induction false} BlockSpelled(slots: seq<Slot>, known: Directives, b: Block, events: seq<Event>,
                                        sps: seq<Choice>, rest: seq<Token>)
    requires slots != [] && Takes(slots[|slots| - 1]) && rest != [] && Follows(slots[|slots| - 1], b, rest[0])
    requires ScalarsOk(b) && Spelled(Inside(After(slots), known), events, sps, rest)
    ensures Spelled(Inside(slots, known), Events(b) + events, Choices(b) + sps, LeadOf(slots) + BlockTokens(b) + rest)
    decreases b
  {
    hide Spelled, Follows, After, LeadOf;
    match b {
      case Nothing => {
        NothingSpelled(slots, known, events, sps, rest);
        assert LeadOf(slots) + [] == LeadOf(slots);
      }
      case Scalar(item) => {
        assert After(slots) + [] == After(slots);
        NodeSpelled(slots, known, ScalarOf(item.token), events, sps, rest);
      }
      case Mapping(es) => {
        var more, slot := [BlockEnd] + rest, MappingSlot(false, true, false, false);
        EntriesSpelled(After(slots), known, true, es, events, sps, rest);
        NodeSpelled(slots, known, MappingStart(None, None, BLOCK), EntryEvents(es) + [MappingEnd] + events,
                    EntryChoices(es) + [FULL] + sps, EntryTokens(es) + [BlockEnd] + rest);
        Regroup([MappingStart(None, None, BLOCK)], EntryEvents(es), [MappingEnd], events);
        Regroup([FULL], EntryChoices(es), [FULL], sps);
        RegroupText(LeadOf(slots), BlockMappingStart, EntryTokens(es), rest);
      }
      case Sequence(es) => {
        ElementsSpelled(After(slots), known, true, es, events, sps, rest);
        NodeSpelled(slots, known, SequenceStart(None, None, BLOCK), ElementEvents(es) + [SequenceEnd] + events,
                    ElementChoices(es) + [FULL] + sps, ElementTokens(es) + [BlockEnd] + rest);
        Regroup([SequenceStart(None, None, BLOCK)], ElementEvents(es), [SequenceEnd], events);
        Regroup([FULL], ElementChoices(es), [FULL], sps);
        RegroupText(LeadOf(slots), BlockSequenceStart, ElementTokens(es), rest);
      }
    }
  }

  lemma Regroup<A>(a: seq<A>, b: seq<A>, c: seq<A>, d: seq<A>)
    ensures a + (b + c + d) == a + b + c + d && a + (b + (c + d)) == a + b + c + d && a + (b + c) + d == a + b + c + d
  {
  }

  lemma RegroupText(lead: seq<Token>, start: Token, text: seq<Token>, rest: seq<Token>)
    ensures lead + [start] + (text + [BlockEnd] + rest) == lead + ([start] + text + [BlockEnd]) + rest
  {
  }

  lemma {:induction false} EntriesSpelled(slots: seq<Slot>, known: Directives, first: bool, es: Entries,
                                          events: seq<Event>, sps: seq<Choice>, rest: seq<Token>)
    requires EntriesOk(es) && rest != [] && Spelled(Inside(slots, known), events, sps, rest)
    ensures Spelled(Inside(slots + [MappingSlot(false, first, false, false)], known),
                    EntryEvents(es) + [MappingEnd] + events, EntryChoices(es) + [FULL] + sps,
                    EntryTokens(es) + [BlockEnd] + rest)
    decreases es
  {
    hide Spelled, After;
    var slot := MappingSlot(false, first, false, false);
    match es {
      case NoEntry => {
        EndSpelled(slots, known, slot, events, sps, rest);
        assert [] + [MappingEnd] == [MappingEnd] && [] + [FULL] == [FULL] && [] + [BlockEnd] == [BlockEnd];
      }
      case OneEntry(key, _, value, others) => {
        var keyed := MappingSlot(false, false, true, false);
        EntriesSpelled(slots, known, false, others, events, sps, rest);
        var events', sps' := EntryEvents(others) + [MappingEnd] + events, EntryChoices(others) + [FULL] + sps;
        var rest' := EntryTokens(others) + [BlockEnd] + rest;
        FilledTop(slots, keyed, MappingSlot(false, false, false, false));
        BlockSpelled(slots + [keyed], known, value, events', sps', rest');
        KeySpelled(slots, known, first, key.token, Events(value) + events', Choices(value) + sps',
                   [Value] + BlockTokens(value) + rest');
        Regroup4([ScalarOf(key.token)], Events(value), EntryEvents(others), [MappingEnd], events);
        Regroup4([FULL], Choices(value), EntryChoices(others), [FULL], sps);
        RegroupEntry(key.token, BlockTokens(value), EntryTokens(others), rest);
      }
    }
  }

  lemma KeySpelled(slots: seq<Slot>, known: Directives, first: bool, key: Token, events: seq<Event>, sps: seq<Choice>,
                   rest: seq<Token>)
    requires key.ScalarToken? && rest != []
    requires Spelled(Inside(slots + [MappingSlot(false, false, true, false)], known), events, sps, rest)
    ensures Spelled(Inside(slots + [MappingSlot(false, first, false, false)], known), [ScalarOf(key)] + events,
                    [FULL] + sps, [Key, key] + rest)
  {
    hide Spelled, After;
    var slot, keyed := MappingSlot(false, first, false, false), MappingSlot(false, false, true, false);
    FilledTop(slots, slot, keyed);
    assert After(slots + [slot]) + [] == slots + [keyed];
    NodeSpelled(slots + [slot], known, ScalarOf(key), events, sps, rest);
    assert LeadOf(slots + [slot]) + [key] == [Key, key];
  }

  lemma RegroupEntry(key: Token, value: seq<Token>, others: seq<Token>, rest: seq<Token>)
    ensures [Key, key] + ([Value] + value + (others + [BlockEnd] + rest))
            == [Key, key, Value] + value + others + [BlockEnd] + rest
  {
  }

  lemma FilledTop(slots: seq<Slot>, slot: Slot, filled: Slot)
    requires Filled(slot, FULL) == filled
    ensures After(slots + [slot]) == slots + [filled] && (slots + [slot])[|slots|] == slot
  {
    assert (slots + [slot])[..|slots|] == slots;
  }

  lemma Regroup4<A>(a: seq<A>, b: seq<A>, c: seq<A>, d: seq<A>, e: seq<A>)
    ensures a + (b + (c + d + e)) == a + b + c + d + e && b + (c + d + e) == b + c + d + e
  {
  }

  lemma {:induction false} ElementsSpelled(slots: seq<Slot>, known: Directives, first: bool, es: Elements,
                                           events: seq<Event>, sps: seq<Choice>, rest: seq<Token>)
    requires ElementsOk(es) && rest != [] && Spelled(Inside(slots, known), events, sps, rest)
    ensures Spelled(Inside(slots + [SequenceSlot(Dashed, first)], known), ElementEvents(es) + [SequenceEnd] + events,
                    ElementChoices(es) + [FULL] + sps, ElementTokens(es) + [BlockEnd] + rest)
    decreases es
  {
    hide Spelled, After;
    var slot := SequenceSlot(Dashed, first);
    match es {
      case NoElement => {
        EndSpelled(slots, known, slot, events, sps, rest);
        assert [] + [SequenceEnd] == [SequenceEnd] && [] + [FULL] == [FULL] && [] + [BlockEnd] == [BlockEnd];
      }
      case OneElement(_, element, others) => {
        ElementsSpelled(slots, known, false, others, events, sps, rest);
        var rest' := ElementTokens(others) + [BlockEnd] + rest;
        FilledTop(slots, slot, SequenceSlot(Dashed, false));
        BlockSpelled(slots + [slot], known, element, ElementEvents(others) + [SequenceEnd] + events,
                     ElementChoices(others) + [FULL] + sps, rest');
        Regroup4([], Events(element), ElementEvents(others), [SequenceEnd], events);
        Regroup4([], Choices(element), ElementChoices(others), [FULL], sps);
        assert [BlockEntry] + BlockTokens(element) + rest' == ElementTokens(es) + [BlockEnd] + rest;
      }
    }
  }

  // ----- the whole stream -----------------------------------------------------------------------------------

  function StreamEvents(b: Block): seq<Event> { [StreamStart, DocumentStart] + Events(b) + [DocumentEnd, StreamEnd] }

  function StreamChoices(b: Block): seq<Choice> { [FULL, OMITTED] + Choices(b) + [OMITTED, FULL] }

  /** The document and the stream end. */
  lemma TailSpelled(known: Directives)
    ensures Spelled(Inside([DocumentSlot(true, false)], known), [DocumentEnd, StreamEnd], [OMITTED, FULL],
                    [StreamEndToken])
  {
    var w := Inside([DocumentSlot(true, false)], known);
    assert Spelled(Finished, [], [], []);
    SpellOne(Between(false), StreamEnd, FULL, [], [], []);
    SpellOne(w, DocumentEnd, OMITTED, [StreamEnd], [FULL], [StreamEndToken]);
    assert [DocumentEnd] + [StreamEnd] == [DocumentEnd, StreamEnd] && [OMITTED] + [FULL] == [OMITTED, FULL];
    assert [StreamEndToken] + [] == [StreamEndToken] && [] + [StreamEndToken] == [StreamEndToken];
  }

  lemma TextBegins(b: Block)
    requires !b.Nothing? && ScalarsOk(b)
    ensures BlockTokens(b) != []
    ensures BlockTokens(b)[0].ScalarToken? || BlockTokens(b)[0] in {BlockMappingStart, BlockSequenceStart}
  {
  }

  /** The tokens of a block spell its stream. */
  lemma StreamSpelled(b: Block)
    requires !b.Nothing? && ScalarsOk(b)
    ensures Spelled(Unbegun, StreamEvents(b), StreamChoices(b), [StreamStartToken] + BlockTokens(b) + [StreamEndToken])
  {
    hide Spelled;
    var slots, known := [DocumentSlot(false, false)], KnownHandles(Declared([]));
    TailSpelled(known);
    assert After(slots) == [DocumentSlot(true, false)];
    BlockSpelled(slots, known, b, [DocumentEnd, StreamEnd], [OMITTED, FULL], [StreamEndToken]);
    var text := BlockTokens(b) + [StreamEndToken];
    assert LeadOf(slots) + BlockTokens(b) + [StreamEndToken] == text;
    TextBegins(b);
    StartSpelled(Events(b) + [DocumentEnd, StreamEnd], Choices(b) + [OMITTED, FULL], text);
    Regroup([StreamStart, DocumentStart], Events(b), [DocumentEnd, StreamEnd], []);
    assert [FULL, OMITTED] + (Choices(b) + [OMITTED, FULL]) == StreamChoices(b);
    assert [StreamStart, DocumentStart] + (Events(b) + [DocumentEnd, StreamEnd]) == StreamEvents(b);
    assert [StreamStartToken] + text == [StreamStartToken] + BlockTokens(b) + [StreamEndToken];
  }

  lemma StartSpelled(events: seq<Event>, sps: seq<Choice>, text: seq<Token>)
    requires text != [] && (text[0].ScalarToken? || text[0] in {BlockMappingStart, BlockSequenceStart})
    requires Spelled(Inside([DocumentSlot(false, false)], KnownHandles(Declared([]))), events, sps, text)
    ensures Spelled(Unbegun, [StreamStart, DocumentStart] + events, [FULL, OMITTED] + sps, [StreamStartToken] + text)
  {
    hide Spelled, KnownHandles;
    SpellOne(Between(true), DocumentStart, OMITTED, events, sps, text);
    assert [] + text == text;
    SpellOne(Unbegun, StreamStart, FULL, [DocumentStart] + events, [OMITTED] + sps, text);
    assert [StreamStart] + ([DocumentStart] + events) == [StreamStart, DocumentStart] + events;
    assert [FULL] + ([OMITTED] + sps) == [FULL, OMITTED] + sps;
  }

  // ----- scanner, parser and loader -------------------------------------------------------------------------

  lemma {:induction false} LaidScalars(b: Block, indent: int, allowed: bool)
    requires WellLaid(b, indent, allowed)
    ensures ScalarsOk(b)
    decreases b
  {
    match b {
      case Nothing =>
      case Scalar(_) =>
      case Mapping(entries) => LaidEntries(entries, entries.key.at.column, allowed);
      case Sequence(elements) => LaidElements(elements, elements.dash.at.column, allowed);
    }
  }

  lemma {:induction false} LaidEntries(es: Entries, column: nat, allowed: bool)
    requires EntriesLaid(es, column, allowed)
    ensures EntriesOk(es)
    decreases es
  {
    if es.OneEntry? {
      LaidScalars(es.value, column, false);
      LaidEntries(es.rest, column, Allows(es.value, false));
    }
  }

  lemma {:induction false} LaidElements(es: Elements, column: nat, allowed: bool)
    requires ElementsLaid(es, column, allowed)
    ensures ElementsOk(es)
    decreases es
  {
    if es.OneElement? {
      LaidScalars(es.element, column, true);
      LaidElements(es.others, column, Allows(es.element, true));
    }
  }

  /** Scan and parse a text that is a block: the events are those of its tree. */
  method ReadEvents(ghost b: Block, items: seq<Item>) returns (events: seq<Event>, ok: bool)
    requires !b.Nothing? && WellLaid(b, -1, true) && IsWhole(items) && items[..|items| - 1] == Items(b)
    ensures ok && events == StreamEvents(b)
    ensures Nesting.AcceptAll(Nesting.Unstarted, events) == Some(Nesting.Closed)
  {
    hide IsText, Spelled, Scanned, WellLaid, ScalarsOk;
    LaidScalars(b, -1, true);
    BlockScans(b, items[|items| - 1]);
    assert items == Items(b) + [items[|items| - 1]];
    var tokens;
    ok, tokens := ScanAll(items);
    StreamSpelled(b);
    events, ok := ParseSpelled(StreamEvents(b), StreamChoices(b), tokens);
  }

  /** Events that neither name an anchor nor end the document. */
  predicate Simple(ev: Event) {
    !ev.Alias? && !ev.DocumentEnd? && (ev.ScalarEvent? || ev.SequenceStart? || ev.MappingStart? ==> ev.anchor.None?)
  }

  ghost predicate SimpleAll(events: seq<Event>) { forall k :: 0 <= k < |events| ==> Simple(events[k]) }

  lemma SimpleConcat(a: seq<Event>, b: seq<Event>)
    requires SimpleAll(a) && SimpleAll(b)
    ensures SimpleAll(a + b)
  {
  }

  lemma {:induction false} AllSimple(b: Block)
    ensures SimpleAll(Events(b))
    decreases b
  {
    match b {
      case Nothing =>
      case Scalar(_) =>
      case Mapping(entries) => SimpleEntries(entries);
      case Sequence(elements) => SimpleElements(elements);
    }
  }

  lemma {:induction false} SimpleEntries(es: Entries)
    ensures SimpleAll(EntryEvents(es))
    decreases es
  {
    if es.OneEntry? {
      AllSimple(es.value);
      SimpleEntries(es.rest);
      SimpleConcat([ScalarOf(es.key.token)], Events(es.value));
      SimpleConcat([ScalarOf(es.key.token)] + Events(es.value), EntryEvents(es.rest));
    }
  }

  lemma {:induction false} SimpleElements(es: Elements)
    ensures SimpleAll(ElementEvents(es))
    decreases es
  {
    if es.OneElement? {
      AllSimple(es.element);
      SimpleElements(es.others);
      SimpleConcat(Events(es.element), ElementEvents(es.others));
    }
  }

  lemma OneDocument(b: Block)
    requires SimpleAll(Events(b)) && Nesting.AcceptAll(Nesting.Unstarted, StreamEvents(b)) == Some(Nesting.Closed)
    ensures LoadExactly.OfDocument(Events(b) + [DocumentEnd]) && LoadLaw.Sound(Events(b) + [DocumentEnd])
  {
    var body := Events(b) + [DocumentEnd];
    var head := [StreamStart, DocumentStart];
    assert forall k :: 0 <= k < |body| - 1 ==> body[k] == Events(b)[k];
    Nesting.AcceptSnoc(Nesting.Unstarted, [StreamStart], DocumentStart);
    Nesting.AcceptSnoc(Nesting.Unstarted, [], StreamStart);
    assert [] + [StreamStart] == [StreamStart] && [StreamStart] + [DocumentStart] == head;
    Nesting.AcceptConcat(Nesting.Unstarted, head, body + [StreamEnd]);
    assert head + (body + [StreamEnd]) == StreamEvents(b);
    assert (body + [StreamEnd])[..|body|] == body;
  }

  /** Scan, parse and load it: the document is that of its tree. */
  method ReadDocument(ghost b: Block, items: seq<Item>) returns (loader: L.Loader, status: L.Status)
    requires !b.Nothing? && WellLaid(b, -1, true) && IsWhole(items) && items[..|items| - 1] == Items(b)
    ensures fresh(loader) && status == L.Done && LoadLaw.Represents(Events(b) + [DocumentEnd], loader.nodes)
  {
    hide IsText, WellLaid, LoadLaw.Represents, LoadLaw.Sound, Events, Nesting.AcceptAll;
    var events, ok := ReadEvents(b, items);
    loader := new L.Loader();
    var body := events[2..|events| - 1];
    assert body == Events(b) + [DocumentEnd];
    AllSimple(b);
    OneDocument(b);
    LoadExactly.LoadsExactly(body);
    status := loader.LoadNodes(body);
  }
}
