/**
 The parser reads whatever is spelled by the grammar: for every stream of events and every spelling of it, the events
 come back.
 */
module SpellingParses {
  import opened Options
  import opened YamlGraph
  import opened Nesting
  import opened EventMachine
  import opened Spelling

  // ----- where the machine is when the writer is in a slot -----------------------------------------------------

  function StateOf(slot: Slot): State {
    match slot
    case DocumentSlot(_, _) => DocumentEndState
    case SequenceSlot(kind, first) =>
      (match kind
       case Dashed => if first then BlockSequenceFirstEntry else BlockSequenceEntry
       case Undented => IndentlessSequenceEntry
       case Bracketed => if first then FlowSequenceFirstEntry else FlowSequenceEntry)
    case MappingSlot(flow, first, pending, bare) =>
      if flow then
        if pending then (if bare then FlowMappingEmptyValue else FlowMappingValue)
        else if first then FlowMappingFirstKey else FlowMappingKey
      else if pending then BlockMappingValue else if first then BlockMappingFirstKey else BlockMappingKey
    case PairSlot(first, pending, _) =>
      if pending then FlowSequenceEntryMappingValue
      else if first then FlowSequenceEntryMappingKey else FlowSequenceEntryMappingEnd
  }

  function StatesOf(slots: seq<Slot>): (r: seq<State>)
    ensures |r| == |slots| && forall k :: 0 <= k < |slots| ==> r[k] == StateOf(slots[k])
  {
    seq(|slots|, k requires 0 <= k < |slots| => StateOf(slots[k]))
  }

  /** The token that opened a collection is read with its first entry. */
  function Lag(w: Writer): nat {
    if !w.Inside? || w.slots == [] then 0
    else
      var slot := w.slots[|w.slots| - 1];
      match slot
      case SequenceSlot(kind, first) => if first && kind != Undented then 1 else 0
      case MappingSlot(_, first, pending, _) => if first && !pending then 1 else 0
      case _ => 0
  }

  ghost predicate Tracks(w: Writer, m: Machine) {
    match w
    case Unbegun => m.state == StreamStartState && m.states == [] && m.directives == []
    case Between(first) =>
      && m.state == (if first then ImplicitDocumentStart else DocumentStartState) && m.states == []
      && m.directives == []
    case Inside(slots, known) =>
      && slots != [] && m.directives == known
      && var slot := slots[|slots| - 1];
         if slot.DocumentSlot? && !slot.full
         then |slots| == 1 && m.state == (if slot.explicit then DocumentContent else BlockNode)
              && m.states == [DocumentEndState]
         else m.state == StateOf(slot) && m.states == StatesOf(slots[..|slots| - 1])
    case Finished => m.state == End
  }

  /** Slots as they occur: a document below, nothing but filled slots under the innermost one. */
  ghost predicate SlotsOk(slots: seq<Slot>) {
    && slots != [] && (forall k :: 0 <= k < |slots| ==> (slots[k].DocumentSlot? <==> k == 0))
    && (forall k :: 0 <= k < |slots| ==> SlotOk(slots[k])) && forall k :: 0 <= k < |slots| - 1 ==> Entered(slots[k])
  }

  /** Something has been written in the slot. */
  predicate Entered(slot: Slot) {
    match slot
    case DocumentSlot(full, _) => full
    case SequenceSlot(_, first) => !first
    case MappingSlot(_, first, _, _) => !first
    case PairSlot(first, _, _) => !first
  }

  predicate SlotOk(slot: Slot) {
    && (slot.MappingSlot? ==> (slot.pending ==> !slot.first) && (slot.bare ==> slot.pending && slot.flow))
    && (slot.PairSlot? ==> slot.pending ==> !slot.first)
  }

  ghost predicate WriterOk(w: Writer) { w.Inside? ==> SlotsOk(w.slots) }

  // ----- tags and properties ------------------------------------------------------------------------------------

  lemma {:induction false} TagForMeans(ds: Directives, handle: Text, suffix: Text, tag: Text)
    requires Means(ds, handle, suffix, tag)
    ensures TagFor(ds, handle, suffix) == Some(tag)
  {
    if handle != "" {
      var k :| 0 <= k < |ds| && ds[k].0 == handle && tag == ds[k].1 + suffix && First(ds, k);
      if k > 0 {
        var rest := ds[1..];
        assert rest[k - 1] == ds[k] && ds[0].0 != handle;
        assert First(rest, k - 1);
        TagForMeans(rest, handle, suffix, tag);
      }
    }
  }

  lemma At<A>(s: seq<A>, p: nat, x: seq<A>, k: nat)
    requires p <= |s| && s[p..] == x && k < |x|
    ensures p + k < |s| && s[p + k] == x[k]
  {
  }

  /** Anchor and tag are read in either order, if the token behind them is neither. */
  lemma PropertiesRead(tokens: seq<Token>, p: nat, ds: Directives, ev: Event, sp: Choice, more: seq<Token>)
    requires p <= |tokens| && tokens[p..] == PropertyText(ev, sp) + more && more != []
    requires !more[0].AnchorToken? && !more[0].TagToken?
    requires TagOf(ev).Some? ==> Means(ds, sp.tagHandle, sp.suffix, TagOf(ev).value)
    ensures ReadProperties(tokens, p, ds) == Properties(p + |PropertyText(ev, sp)|, AnchorOf(ev), TagOf(ev))
  {
    hide Means, TagFor;
    var props := PropertyText(ev, sp);
    var all := props + more;
    if TagOf(ev).Some? { TagForMeans(ds, sp.tagHandle, sp.suffix, TagOf(ev).value); }
    At(tokens, p, all, |props|);
    assert all[|props|] == more[0];
    if |props| >= 1 {
      At(tokens, p, all, 0);
      assert all[0] == props[0];
    }
    if |props| == 2 {
      At(tokens, p, all, 1);
      assert all[1] == props[1];
    }
  }

  // ----- nodes --------------------------------------------------------------------------------------------------

  /** What reading a node in full form does. */
  function ReadFull(m: Machine, ev: Event, n: nat): Moved
    requires IsNodeEvent(ev) && n >= 1
  {
    match ev
    case SequenceStart(_, _, style) =>
      Moved(ev, m.(pos := m.pos + n - 1,
                   state := if style == BLOCK then BlockSequenceFirstEntry else FlowSequenceFirstEntry))
    case MappingStart(_, _, style) =>
      Moved(ev, m.(pos := m.pos + n - 1, state := if style == BLOCK then BlockMappingFirstKey else FlowMappingFirstKey))
    case _ => Back(m.(pos := m.pos + n), ev)
  }

  lemma FullRead(tokens: seq<Token>, m: Machine, block: bool, indentless: bool, ev: Event, sp: Choice, rest: seq<Token>)
    requires IsNodeEvent(ev) && sp.form == Full && m.pos <= |tokens| && tokens[m.pos..] == NodeText(ev, sp) + rest
    requires TagOf(ev).Some? ==> Means(m.directives, sp.tagHandle, sp.suffix, TagOf(ev).value)
    requires ev.SequenceStart? || ev.MappingStart? ==> ev.style == FLOW || (ev.style == BLOCK && block)
    ensures NodeAt(tokens, m, block, indentless) == ReadFull(m, ev, |NodeText(ev, sp)|)
  {
    hide Means, ReadProperties, Back;
    var props, c := PropertyText(ev, sp), ContentToken(ev);
    assert NodeText(ev, sp) + rest == props + ([c] + rest);
    At(tokens, m.pos, props + ([c] + rest), |props|);
    if ev.Alias? {
      assert props == [];
    } else {
      PropertiesRead(tokens, m.pos, m.directives, ev, sp, [c] + rest);
      FirstToken(tokens, m.pos, ev, sp, [c] + rest);
    }
  }

  /** A node with properties or a content token does not look like an alias. */
  lemma FirstToken(tokens: seq<Token>, p: nat, ev: Event, sp: Choice, more: seq<Token>)
    requires p <= |tokens| && tokens[p..] == PropertyText(ev, sp) + more && more != [] && !more[0].AliasToken?
    ensures p < |tokens| && !tokens[p].AliasToken?
    ensures PropertyText(ev, sp) != [] ==> tokens[p].AnchorToken? || tokens[p].TagToken?
    ensures PropertyText(ev, sp) == [] ==> tokens[p] == more[0]
  {
    At(tokens, p, PropertyText(ev, sp) + more, 0);
  }

  /** A node of which there are only properties, before a token that cannot start a node. */
  lemma VacantRead(tokens: seq<Token>, m: Machine, block: bool, indentless: bool, ev: Event, sp: Choice,
                   rest: seq<Token>)
    requires ev.ScalarEvent? && ev.value == "" && ev.style == PLAIN && (ev.anchor.Some? || ev.tag.Some?)
    requires sp.form == Vacant && m.pos <= |tokens| && tokens[m.pos..] == NodeText(ev, sp) + rest && rest != []
    requires TagOf(ev).Some? ==> Means(m.directives, sp.tagHandle, sp.suffix, TagOf(ev).value)
    requires !StartsNode(rest[0]) && (indentless ==> rest[0] != BlockEntry)
    ensures NodeAt(tokens, m, block, indentless) == Back(m.(pos := m.pos + |NodeText(ev, sp)|), ev)
  {
    hide Means, ReadProperties, Back;
    var props := PropertyText(ev, sp);
    At(tokens, m.pos, props + rest, |props|);
    PropertiesRead(tokens, m.pos, m.directives, ev, sp, rest);
    FirstToken(tokens, m.pos, ev, sp, rest);
  }

  /** A sequence without a start token, before its first entry. */
  lemma IndentlessRead(tokens: seq<Token>, m: Machine, ev: Event, sp: Choice, rest: seq<Token>)
    requires ev.SequenceStart? && ev.style == BLOCK && sp.form == Indentless
    requires m.pos <= |tokens| && tokens[m.pos..] == NodeText(ev, sp) + rest && rest != [] && rest[0] == BlockEntry
    requires TagOf(ev).Some? ==> Means(m.directives, sp.tagHandle, sp.suffix, TagOf(ev).value)
    ensures NodeAt(tokens, m, true, true)
      == Moved(ev, m.(pos := m.pos + |NodeText(ev, sp)|, state := IndentlessSequenceEntry))
  {
    hide Means, ReadProperties, Back;
    var props := PropertyText(ev, sp);
    At(tokens, m.pos, props + rest, |props|);
    PropertiesRead(tokens, m.pos, m.directives, ev, sp, rest);
    FirstToken(tokens, m.pos, ev, sp, rest);
  }

  // ----- the way into a slot ------------------------------------------------------------------------------------

  predicate Indents(slot: Slot) { slot.MappingSlot? && !slot.flow }

  predicate Roomy(slot: Slot) {
    (slot.DocumentSlot? ==> !slot.full) && (slot.PairSlot? ==> slot.first || slot.pending)
  }

  function Last(slots: seq<Slot>): Slot
    requires slots != []
  {
    slots[|slots| - 1]
  }

  /** The slots below the innermost one. */
  function Lower(slots: seq<Slot>): seq<Slot>
    requires slots != []
  {
    slots[..|slots| - 1]
  }

  lemma StatesPush(slots: seq<Slot>, slot: Slot)
    ensures StatesOf(slots + [slot]) == StatesOf(slots) + [StateOf(slot)]
  {
  }

  /** Before a token that starts a node, the indicators lead to that node. */
  lemma LeadRead(tokens: seq<Token>, m: Machine, slots: seq<Slot>, known: Directives, sp: Choice)
    requires SlotsOk(slots) && Tracks(Inside(slots, known), m) && Roomy(Last(slots))
    requires sp.omit ==> Last(slots).MappingSlot? && Last(slots).flow && !Last(slots).pending
    requires !((Last(slots).MappingSlot? || Last(slots).PairSlot?) && Last(slots).pending && Last(slots).bare)
    requires var q, lead := m.pos + Lag(Inside(slots, known)), Lead(Last(slots), sp);
      && q + |lead| < |tokens| && tokens[q..q + |lead|] == lead
      && var t := tokens[q + |lead|]; StartsNode(t) || (t == BlockEntry && Indents(Last(slots)))
    ensures var q, slot := m.pos + Lag(Inside(slots, known)) + |Lead(Last(slots), sp)|, Last(slots);
      Move(tokens, m) == NodeAt(tokens, m.(pos := q, states := StatesOf(Lower(slots) + [Filled(slot, sp)])),
                                !InFlow(slot), Indents(slot))
  {
    hide NodeAt, StatesOf, Move;
    var slot := Last(slots);
    match slot
    case DocumentSlot(_, explicit) => DocumentLead(tokens, m, slots, known, sp);
    case SequenceSlot(kind, first) => SequenceLead(tokens, m, slots, known, sp);
    case MappingSlot(flow, first, pending, bare) => MappingLead(tokens, m, slots, known, sp);
    case PairSlot(_, _, _) => PairLead(tokens, m, slots, known, sp);
  }

  lemma LeadTokens(tokens: seq<Token>, q: nat, lead: seq<Token>)
    requires q + |lead| < |tokens| && tokens[q..q + |lead|] == lead
    ensures (|lead| >= 1 ==> tokens[q] == lead[0]) && (|lead| >= 2 ==> tokens[q + 1] == lead[1])
  {
    if |lead| >= 1 { assert tokens[q] == tokens[q..q + |lead|][0]; }
    if |lead| >= 2 { assert tokens[q + 1] == tokens[q..q + |lead|][1]; }
  }

  lemma SequenceLead(tokens: seq<Token>, m: Machine, slots: seq<Slot>, known: Directives, sp: Choice)
    requires slots != [] && Tracks(Inside(slots, known), m) && Last(slots).SequenceSlot?
    requires var q, lead := m.pos + Lag(Inside(slots, known)), Lead(Last(slots), sp);
      q + |lead| < |tokens| && tokens[q..q + |lead|] == lead && StartsNode(tokens[q + |lead|])
    ensures var q, slot := m.pos + Lag(Inside(slots, known)) + |Lead(Last(slots), sp)|, Last(slots);
      Move(tokens, m) == NodeAt(tokens, m.(pos := q, states := StatesOf(Lower(slots) + [Filled(slot, sp)])),
                                !InFlow(slot), false)
  {
    hide NodeAt, StatesOf;
    LeadTokens(tokens, m.pos + Lag(Inside(slots, known)), Lead(Last(slots), sp));
    StatesPush(Lower(slots), Filled(Last(slots), sp));
  }

  lemma MappingLead(tokens: seq<Token>, m: Machine, slots: seq<Slot>, known: Directives, sp: Choice)
    requires slots != [] && Tracks(Inside(slots, known), m) && Last(slots).MappingSlot?
    requires sp.omit ==> Last(slots).flow && !Last(slots).pending
    requires !(Last(slots).pending && Last(slots).bare) && SlotOk(Last(slots))
    requires var q, lead := m.pos + Lag(Inside(slots, known)), Lead(Last(slots), sp);
      && q + |lead| < |tokens| && tokens[q..q + |lead|] == lead
      && var t := tokens[q + |lead|]; StartsNode(t) || (t == BlockEntry && Indents(Last(slots)))
    ensures var q, slot := m.pos + Lag(Inside(slots, known)) + |Lead(Last(slots), sp)|, Last(slots);
      Move(tokens, m) == NodeAt(tokens, m.(pos := q, states := StatesOf(Lower(slots) + [Filled(slot, sp)])),
                                !InFlow(slot), Indents(slot))
  {
    hide NodeAt, StatesOf;
    LeadTokens(tokens, m.pos + Lag(Inside(slots, known)), Lead(Last(slots), sp));
    StatesPush(Lower(slots), Filled(Last(slots), sp));
  }

  lemma PairLead(tokens: seq<Token>, m: Machine, slots: seq<Slot>, known: Directives, sp: Choice)
    requires slots != [] && Tracks(Inside(slots, known), m) && Last(slots).PairSlot? && Roomy(Last(slots)) && !sp.omit
    requires SlotOk(Last(slots)) && !(Last(slots).pending && Last(slots).bare)
    requires var q, lead := m.pos, Lead(Last(slots), sp);
      q + |lead| < |tokens| && tokens[q..q + |lead|] == lead && StartsNode(tokens[q + |lead|])
    ensures var q, slot := m.pos + |Lead(Last(slots), sp)|, Last(slots);
      Move(tokens, m)
      == NodeAt(tokens, m.(pos := q, states := StatesOf(Lower(slots) + [Filled(slot, sp)])), false, false)
  {
    hide NodeAt, StatesOf;
    LeadTokens(tokens, m.pos, Lead(Last(slots), sp));
    StatesPush(Lower(slots), Filled(Last(slots), sp));
  }

  lemma DocumentLead(tokens: seq<Token>, m: Machine, slots: seq<Slot>, known: Directives, sp: Choice)
    requires SlotsOk(slots) && Tracks(Inside(slots, known), m) && Last(slots).DocumentSlot? && !Last(slots).full
    requires m.pos < |tokens| && StartsNode(tokens[m.pos])
    ensures Move(tokens, m)
      == NodeAt(tokens, m.(states := StatesOf(Lower(slots) + [Filled(Last(slots), sp)])), true, false)
  {
    hide NodeAt;
    assert Lower(slots) == [];
    assert StatesOf(Lower(slots) + [Filled(Last(slots), sp)]) == [DocumentEndState];
  }

  /** A node that is not there at all. */
  lemma VoidRead(tokens: seq<Token>, m: Machine, slots: seq<Slot>, known: Directives, sp: Choice)
    requires SlotsOk(slots) && Tracks(Inside(slots, known), m) && Roomy(Last(slots))
    requires var q, lead := m.pos + Lag(Inside(slots, known)), Lead(Last(slots), sp);
      && q + |lead| < |tokens| && tokens[q..q + |lead|] == lead && GoesOn(Last(slots), sp, tokens[q + |lead|])
    ensures var q, slot := m.pos + Lag(Inside(slots, known)) + |Lead(Last(slots), sp)|, Last(slots);
      Move(tokens, m) == Moved(EMPTY_SCALAR, m.(pos := q, state := StateOf(Filled(slot, sp)),
                                                states := StatesOf(Lower(slots))))
  {
    hide NodeAt, Move, SlotOk;
    var slot := Last(slots);
    assert SlotOk(slot);
    match slot
    case DocumentSlot(_, _) => DocumentVoid(tokens, m, slots, known, sp);
    case SequenceSlot(_, _) => SequenceVoid(tokens, m, slots, known, sp);
    case MappingSlot(_, _, _, _) => MappingVoid(tokens, m, slots, known, sp);
    case PairSlot(_, _, _) => PairVoid(tokens, m, slots, known, sp);
  }

  lemma DocumentVoid(tokens: seq<Token>, m: Machine, slots: seq<Slot>, known: Directives, sp: Choice)
    requires SlotsOk(slots) && Tracks(Inside(slots, known), m) && Last(slots).DocumentSlot? && !Last(slots).full
    requires m.pos < |tokens| && GoesOn(Last(slots), sp, tokens[m.pos])
    ensures Move(tokens, m)
      == Moved(EMPTY_SCALAR, m.(state := StateOf(Filled(Last(slots), sp)), states := StatesOf(Lower(slots))))
  {
    hide NodeAt;
    assert Lower(slots) == [] && StatesOf([]) == [];
  }

  lemma SequenceVoid(tokens: seq<Token>, m: Machine, slots: seq<Slot>, known: Directives, sp: Choice)
    requires slots != [] && Tracks(Inside(slots, known), m) && Last(slots).SequenceSlot?
    requires var q, lead := m.pos + Lag(Inside(slots, known)), Lead(Last(slots), sp);
      && q + |lead| < |tokens| && tokens[q..q + |lead|] == lead && GoesOn(Last(slots), sp, tokens[q + |lead|])
    ensures var q, slot := m.pos + Lag(Inside(slots, known)) + |Lead(Last(slots), sp)|, Last(slots);
      Move(tokens, m) == Moved(EMPTY_SCALAR, m.(pos := q, state := StateOf(Filled(slot, sp))))
  {
    hide NodeAt, StatesOf;
    LeadTokens(tokens, m.pos + Lag(Inside(slots, known)), Lead(Last(slots), sp));
  }

  lemma MappingVoid(tokens: seq<Token>, m: Machine, slots: seq<Slot>, known: Directives, sp: Choice)
    requires slots != [] && Tracks(Inside(slots, known), m) && Last(slots).MappingSlot? && SlotOk(Last(slots))
    requires var q, lead := m.pos + Lag(Inside(slots, known)), Lead(Last(slots), sp);
      && q + |lead| < |tokens| && tokens[q..q + |lead|] == lead && GoesOn(Last(slots), sp, tokens[q + |lead|])
    ensures var q, slot := m.pos + Lag(Inside(slots, known)) + |Lead(Last(slots), sp)|, Last(slots);
      Move(tokens, m) == Moved(EMPTY_SCALAR, m.(pos := q, state := StateOf(Filled(slot, sp))))
  {
    hide NodeAt, StatesOf;
    LeadTokens(tokens, m.pos + Lag(Inside(slots, known)), Lead(Last(slots), sp));
  }

  lemma PairVoid(tokens: seq<Token>, m: Machine, slots: seq<Slot>, known: Directives, sp: Choice)
    requires slots != [] && Tracks(Inside(slots, known), m) && Last(slots).PairSlot? && Roomy(Last(slots))
    requires SlotOk(Last(slots))
    requires var q, lead := m.pos, Lead(Last(slots), sp);
      && q + |lead| < |tokens| && tokens[q..q + |lead|] == lead && GoesOn(Last(slots), sp, tokens[q + |lead|])
    ensures var q, slot := m.pos + |Lead(Last(slots), sp)|, Last(slots);
      Move(tokens, m) == Moved(EMPTY_SCALAR, m.(pos := q, state := StateOf(Filled(slot, sp))))
  {
    hide NodeAt, StatesOf;
    LeadTokens(tokens, m.pos, Lead(Last(slots), sp));
  }

  // ----- one event ----------------------------------------------------------------------------------------------

  /** The machine has read the event and follows the writer. */
  ghost predicate Reads(tokens: seq<Token>, m: Machine, ev: Event, w': Writer, q: nat) {
    && Move(tokens, m).Moved? && Move(tokens, m).ev == ev && Tracks(w', Move(tokens, m).m)
    && Move(tokens, m).m.pos + Lag(w') == q
  }

  /** After a node the innermost slot is filled, and perhaps another one opened. */
  function AfterNode(slots: seq<Slot>, known: Directives, ev: Event, sp: Choice): Writer
    requires slots != []
  {
    Inside(Lower(slots) + [Filled(Last(slots), sp)] + Opened(ev, sp), known)
  }

  /** Reading a node in a state that waits for it, whatever its form. */
  lemma BodyRead(tokens: seq<Token>, m: Machine, slots: seq<Slot>, known: Directives, ev: Event, sp: Choice,
                 rest: seq<Token>)
    requires slots != [] && IsNodeEvent(ev) && rest != [] && MayNode(Last(slots), known, ev, sp, rest[0])
    requires sp.form != Single && !(sp.form == Vacant && ev == EMPTY_SCALAR)
    requires m.directives == known && m.states == StatesOf(Lower(slots) + [Filled(Last(slots), sp)])
    requires m.pos <= |tokens| && tokens[m.pos..] == NodeText(ev, sp) + rest
    ensures var r := NodeAt(tokens, m, !InFlow(Last(slots)), Indents(Last(slots)));
      && r.Moved? && r.ev == ev && Tracks(AfterNode(slots, known, ev, sp), r.m)
      && r.m.pos + Lag(AfterNode(slots, known, ev, sp)) == m.pos + |NodeText(ev, sp)|
  {
    hide NodeAt, Means, NodeText, Tracks, Back, StatesOf;
    var slot, n := Last(slots), |NodeText(ev, sp)|;
    if sp.form == Full {
      FullRead(tokens, m, !InFlow(slot), Indents(slot), ev, sp, rest);
      FullSize(ev, sp);
      if ev.SequenceStart? || ev.MappingStart? {
        OpenTracks(m, slots, known, ev, sp, n);
      } else {
        BodyTracks(m, slots, known, ev, sp, n);
      }
    } else if sp.form == Indentless {
      IndentlessRead(tokens, m, ev, sp, rest);
      UndentedTracks(m, slots, known, ev, sp, n);
    } else {
      VacantRead(tokens, m, !InFlow(slot), Indents(slot), ev, sp, rest);
      BodyTracks(m, slots, known, ev, sp, n);
    }
  }

  lemma FullSize(ev: Event, sp: Choice)
    requires IsNodeEvent(ev) && sp.form == Full
    ensures |NodeText(ev, sp)| >= 1
  {
  }

  lemma OpenTracks(m: Machine, slots: seq<Slot>, known: Directives, ev: Event, sp: Choice, n: nat)
    requires slots != [] && (ev.SequenceStart? || ev.MappingStart?) && m.directives == known && n >= 1
    requires m.states == StatesOf(Lower(slots) + [Filled(Last(slots), sp)]) && sp.form == Full
    ensures ReadFull(m, ev, n).Moved? && Tracks(AfterNode(slots, known, ev, sp), ReadFull(m, ev, n).m)
    ensures Lag(AfterNode(slots, known, ev, sp)) == 1
  {
    var below := Lower(slots) + [Filled(Last(slots), sp)];
    var top := Opened(ev, sp);
    assert (below + top)[..|below|] == below && (below + top)[|below|] == top[0];
  }

  lemma UndentedTracks(m: Machine, slots: seq<Slot>, known: Directives, ev: Event, sp: Choice, n: nat)
    requires slots != [] && ev.SequenceStart? && m.directives == known && sp.form == Indentless
    requires m.states == StatesOf(Lower(slots) + [Filled(Last(slots), sp)])
    ensures Tracks(AfterNode(slots, known, ev, sp), m.(pos := m.pos + n, state := IndentlessSequenceEntry))
    ensures Lag(AfterNode(slots, known, ev, sp)) == 0
  {
    var below := Lower(slots) + [Filled(Last(slots), sp)];
    var top := Opened(ev, sp);
    assert (below + top)[..|below|] == below && (below + top)[|below|] == top[0];
  }

  lemma BodyTracks(m: Machine, slots: seq<Slot>, known: Directives, ev: Event, sp: Choice, n: nat)
    requires slots != [] && IsNodeEvent(ev) && m.directives == known
    requires m.states == StatesOf(Lower(slots) + [Filled(Last(slots), sp)])
    requires !ev.SequenceStart? && !ev.MappingStart?
    ensures var r := Back(m.(pos := m.pos + n), ev);
      r.Moved? && r.ev == ev && r.m.pos == m.pos + n && Tracks(AfterNode(slots, known, ev, sp), r.m)
    ensures Lag(AfterNode(slots, known, ev, sp)) == 0
  {
    var lower, filled := Lower(slots), Filled(Last(slots), sp);
    StatesPush(lower, filled);
    assert lower + [filled] + [] == lower + [filled];
    assert (lower + [filled])[..|lower|] == lower;
    assert (StatesOf(lower) + [StateOf(filled)])[..|lower|] == StatesOf(lower);
  }

  /** A node event, whatever its slot and its form. */
  lemma NodeStep(tokens: seq<Token>, m: Machine, slots: seq<Slot>, known: Directives, ev: Event, sp: Choice,
                 rest: seq<Token>)
    requires slots != [] && SlotsOk(slots) && Tracks(Inside(slots, known), m) && IsNodeEvent(ev)
    requires rest != [] && MayNode(Last(slots), known, ev, sp, rest[0])
    requires var q := m.pos + Lag(Inside(slots, known));
      q <= |tokens| && tokens[q..] == Lead(Last(slots), sp) + NodeText(ev, sp) + rest
    ensures Reads(tokens, m, ev, Next(Inside(slots, known), ev, sp),
                  m.pos + Lag(Inside(slots, known)) + |Lead(Last(slots), sp) + NodeText(ev, sp)|)
  {
    hide Tracks, Move, SlotsOk, NodeText, Lead, MayNode, Filled, InFlow, Indents, StatesOf, NodeAt;
    var slot, q := Last(slots), m.pos + Lag(Inside(slots, known));
    var lead, text := Lead(slot, sp), NodeText(ev, sp);
    Parts(tokens, q, lead, text, rest);
    if sp.form == Single {
      SingleRead(tokens, m, slots, known, ev, sp, rest);
    } else if sp.form == Vacant && ev == EMPTY_SCALAR {
      EmptyStep(tokens, m, slots, known, sp, rest);
    } else {
      NodeLead(tokens, m, slots, known, ev, sp, rest);
      TracksInside(slots, known, m);
      var m' := m.(pos := q + |lead|, states := StatesOf(Lower(slots) + [Filled(slot, sp)]));
      BodyRead(tokens, m', slots, known, ev, sp, rest);
    }
  }

  lemma TracksInside(slots: seq<Slot>, known: Directives, m: Machine)
    requires Tracks(Inside(slots, known), m)
    ensures m.directives == known
  {
  }

  lemma Parts(tokens: seq<Token>, q: nat, a: seq<Token>, b: seq<Token>, c: seq<Token>)
    requires q <= |tokens| && tokens[q..] == a + b + c
    ensures q + |a| + |b| + |c| == |tokens| && tokens[q..q + |a|] == a && tokens[q + |a|..] == b + c
    ensures |a + b| == |a| + |b|
  {
    assert tokens[q..q + |a|] == tokens[q..][..|a|] && tokens[q + |a|..] == tokens[q..][|a|..];
  }

  lemma NodeLead(tokens: seq<Token>, m: Machine, slots: seq<Slot>, known: Directives, ev: Event, sp: Choice,
                 rest: seq<Token>)
    requires slots != [] && SlotsOk(slots) && Tracks(Inside(slots, known), m) && IsNodeEvent(ev)
    requires rest != [] && MayNode(Last(slots), known, ev, sp, rest[0])
    requires sp.form != Single && !(sp.form == Vacant && ev == EMPTY_SCALAR)
    requires var q, lead := m.pos + Lag(Inside(slots, known)), Lead(Last(slots), sp);
      q + |lead| <= |tokens| && tokens[q..q + |lead|] == lead && tokens[q + |lead|..] == NodeText(ev, sp) + rest
    ensures var q, slot := m.pos + Lag(Inside(slots, known)) + |Lead(Last(slots), sp)|, Last(slots);
      Move(tokens, m) == NodeAt(tokens, m.(pos := q, states := StatesOf(Lower(slots) + [Filled(slot, sp)])),
                                !InFlow(slot), Indents(slot))
  {
    hide Tracks, Move, SlotsOk, Lead, NodeAt;
    var q, lead := m.pos + Lag(Inside(slots, known)), Lead(Last(slots), sp);
    var props := PropertyText(ev, sp);
    var more := (if sp.form == Full then [ContentToken(ev)] else []) + rest;
    assert NodeText(ev, sp) + rest == props + more;
    NodeFirst(tokens, q + |lead|, ev, sp, more);
    LeadRead(tokens, m, slots, known, sp);
  }

  lemma NodeFirst(tokens: seq<Token>, p: nat, ev: Event, sp: Choice, more: seq<Token>)
    requires p <= |tokens| && tokens[p..] == PropertyText(ev, sp) + more && more != []
    ensures p < |tokens|
    ensures if PropertyText(ev, sp) == [] then tokens[p] == more[0] else StartsNode(tokens[p])
    ensures PropertyText(ev, sp) == [] ==> AnchorOf(ev).None? && TagOf(ev).None?
  {
    At(tokens, p, PropertyText(ev, sp) + more, 0);
  }

  lemma EmptyStep(tokens: seq<Token>, m: Machine, slots: seq<Slot>, known: Directives, sp: Choice, rest: seq<Token>)
    requires SlotsOk(slots) && Tracks(Inside(slots, known), m) && sp.form == Vacant
    requires rest != [] && MayNode(Last(slots), known, EMPTY_SCALAR, sp, rest[0])
    requires var q, lead := m.pos + Lag(Inside(slots, known)), Lead(Last(slots), sp);
      q + |lead| <= |tokens| && tokens[q..q + |lead|] == lead
      && tokens[q + |lead|..] == NodeText(EMPTY_SCALAR, sp) + rest
    ensures Reads(tokens, m, EMPTY_SCALAR, Next(Inside(slots, known), EMPTY_SCALAR, sp),
                  m.pos + Lag(Inside(slots, known)) + |Lead(Last(slots), sp) + NodeText(EMPTY_SCALAR, sp)|)
  {
    hide Move, Lead, StatesOf;
    var slot, q, lead := Last(slots), m.pos + Lag(Inside(slots, known)), Lead(Last(slots), sp);
    assert NodeText(EMPTY_SCALAR, sp) == [] && lead + [] == lead;
    At(tokens, q + |lead|, [] + rest, 0);
    VoidRead(tokens, m, slots, known, sp);
    var below := Lower(slots);
    assert below + [Filled(slot, sp)] + [] == below + [Filled(slot, sp)];
    assert (below + [Filled(slot, sp)])[..|below|] == below;
  }

  lemma SingleRead(tokens: seq<Token>, m: Machine, slots: seq<Slot>, known: Directives, ev: Event, sp: Choice,
                   rest: seq<Token>)
    requires SlotsOk(slots) && Tracks(Inside(slots, known), m) && sp.form == Single && IsNodeEvent(ev)
    requires rest != [] && MayNode(Last(slots), known, ev, sp, rest[0])
    requires var q, lead := m.pos + Lag(Inside(slots, known)), Lead(Last(slots), sp);
      q + |lead| <= |tokens| && tokens[q..q + |lead|] == lead && tokens[q + |lead|..] == NodeText(ev, sp) + rest
    ensures Reads(tokens, m, ev, Next(Inside(slots, known), ev, sp),
                  m.pos + Lag(Inside(slots, known)) + |Lead(Last(slots), sp) + NodeText(ev, sp)|)
  {
    hide StatesOf, Means;
    var slot, q, lead := Last(slots), m.pos + Lag(Inside(slots, known)), Lead(Last(slots), sp);
    At(tokens, q + |lead|, [Key] + rest, 0);
    LeadTokens(tokens, q, lead);
    var below := Lower(slots);
    assert (below + [PairSlot(true, false, false)])[..|below|] == below;
  }

  /** The end of a collection. */
  lemma EndStep(tokens: seq<Token>, m: Machine, slots: seq<Slot>, known: Directives, ev: Event, sp: Choice,
                rest: seq<Token>)
    requires slots != [] && SlotsOk(slots) && Tracks(Inside(slots, known), m) && (ev.SequenceEnd? || ev.MappingEnd?)
    requires rest != [] && MayEnd(Last(slots), ev, rest[0])
    requires var q := m.pos + Lag(Inside(slots, known));
      q <= |tokens| && tokens[q..] == EndText(Last(slots), sp) + rest
    ensures Reads(tokens, m, ev, Next(Inside(slots, known), ev, sp),
                  m.pos + Lag(Inside(slots, known)) + |EndText(Last(slots), sp)|)
  {
    hide StatesOf, Move, SlotsOk, Back, EndText;
    var slot, q, text := Last(slots), m.pos + Lag(Inside(slots, known)), EndText(Last(slots), sp);
    if slot.PairSlot? {
      PairEnds(tokens, m, slots, known, sp, rest);
    } else {
      if slot.SequenceSlot? {
        SequenceEnds(tokens, m, slots, known, sp, rest);
      } else {
        MappingEnds(tokens, m, slots, known, sp, rest);
      }
      EndTracks(m, slots, known, ev, q + |text|);
    }
  }

  lemma SequenceEnds(tokens: seq<Token>, m: Machine, slots: seq<Slot>, known: Directives, sp: Choice, rest: seq<Token>)
    requires slots != [] && Tracks(Inside(slots, known), m) && Last(slots).SequenceSlot?
    requires rest != [] && MayEnd(Last(slots), SequenceEnd, rest[0])
    requires var q := m.pos + Lag(Inside(slots, known)); q <= |tokens| && tokens[q..] == EndText(Last(slots), sp) + rest
    ensures var q := m.pos + Lag(Inside(slots, known)) + |EndText(Last(slots), sp)|;
      Move(tokens, m) == Back(m.(pos := q), SequenceEnd)
  {
    hide StatesOf, Back;
    var q, text := m.pos + Lag(Inside(slots, known)), EndText(Last(slots), sp);
    At(tokens, q, text + rest, 0);
    if |text| == 2 { At(tokens, q, text + rest, 1); }
  }

  lemma MappingEnds(tokens: seq<Token>, m: Machine, slots: seq<Slot>, known: Directives, sp: Choice, rest: seq<Token>)
    requires slots != [] && Tracks(Inside(slots, known), m) && Last(slots).MappingSlot?
    requires rest != [] && MayEnd(Last(slots), MappingEnd, rest[0])
    requires var q := m.pos + Lag(Inside(slots, known)); q <= |tokens| && tokens[q..] == EndText(Last(slots), sp) + rest
    ensures var q := m.pos + Lag(Inside(slots, known)) + |EndText(Last(slots), sp)|;
      Move(tokens, m) == Back(m.(pos := q), MappingEnd)
  {
    hide StatesOf, Back;
    var q, text := m.pos + Lag(Inside(slots, known)), EndText(Last(slots), sp);
    At(tokens, q, text + rest, 0);
    if |text| == 2 { At(tokens, q, text + rest, 1); }
  }

  lemma PairEnds(tokens: seq<Token>, m: Machine, slots: seq<Slot>, known: Directives, sp: Choice, rest: seq<Token>)
    requires slots != [] && Tracks(Inside(slots, known), m) && Last(slots).PairSlot?
    requires rest != [] && MayEnd(Last(slots), MappingEnd, rest[0])
    requires m.pos <= |tokens| && tokens[m.pos..] == EndText(Last(slots), sp) + rest
    ensures Reads(tokens, m, MappingEnd, Next(Inside(slots, known), MappingEnd, sp), m.pos + |EndText(Last(slots), sp)|)
  {
    hide StatesOf;
    At(tokens, m.pos, [] + rest, 0);
    var below := Lower(slots);
    assert (below + [SequenceSlot(Bracketed, false)])[..|below|] == below;
  }

  lemma EndTracks(m: Machine, slots: seq<Slot>, known: Directives, ev: Event, q: nat)
    requires SlotsOk(slots) && Tracks(Inside(slots, known), m) && !Last(slots).DocumentSlot? && !Last(slots).PairSlot?
    ensures var r, w := Back(m.(pos := q), ev), Inside(Lower(slots), known);
      r.Moved? && r.ev == ev && r.m.pos == q && Tracks(w, r.m) && Lag(w) == 0
  {
    hide StatesOf;
    BelowTop(slots);
    var below := Lower(slots);
    assert (StatesOf(below[..|below| - 1]) + [StateOf(Last(below))])[..|below| - 1] == StatesOf(below[..|below| - 1]);
  }

  /** The slot below the innermost one is filled, so its state is returned to. */
  lemma BelowTop(slots: seq<Slot>)
    requires SlotsOk(slots) && !Last(slots).DocumentSlot?
    ensures |slots| > 1 && var below := Lower(slots);
      && below != [] && Entered(Last(below)) && SlotOk(Last(below))
      && StatesOf(below) == StatesOf(below[..|below| - 1]) + [StateOf(Last(below))]
      && Lower(slots)[..|below| - 1] == below[..|below| - 1]
  {
    var below := Lower(slots);
    assert below == below[..|below| - 1] + [Last(below)];
    StatesPush(below[..|below| - 1], Last(below));
  }

  // ----- documents and the stream -------------------------------------------------------------------------------

  ghost predicate HasVersion(d: seq<Token>) { exists k :: 0 <= k < |d| && d[k].VersionDirective? }

  lemma {:induction false} DeclaredFrom(d: seq<Token>, handle: Text)
    requires Declares(Declared(d), handle)
    ensures exists j :: 0 <= j < |d| && d[j].TagDirective? && d[j].handle == handle
  {
    if d != [] {
      var front, t := d[..|d| - 1], d[|d| - 1];
      if !(t.TagDirective? && t.handle == handle) {
        var k :| 0 <= k < |Declared(d)| && Declared(d)[k].0 == handle;
        assert Declared(front)[k].0 == handle;
        DeclaredFrom(front, handle);
        var j :| 0 <= j < |front| && front[j].TagDirective? && front[j].handle == handle;
        assert d[j] == front[j];
      }
    }
  }

  /** Directives are read to the end. */
  lemma {:induction false} DirectivesRead(tokens: seq<Token>, p: nat, d: seq<Token>, rest: seq<Token>, i: nat)
    requires DirectivesOk(d) && i <= |d| && p <= |tokens| && tokens[p..] == d + rest
    requires rest != [] && !IsDirective(rest[0])
    ensures ReadDirectives(tokens, p + i, Declared(d[..i]), HasVersion(d[..i]))
      == Directed(p + |d|, KnownHandles(Declared(d)))
    decreases |d| - i
  {
    hide KnownHandles, WithDefaults, DirectivesOk, Declares, HasVersion, Declared;
    At(tokens, p, d + rest, i);
    if i == |d| {
      assert d[..i] == d;
      SameDefaults(Declared(d));
    } else {
      var t, done := d[i], d[..i];
      assert done + [t] == d[..i + 1];
      DirectivesRead(tokens, p, d, rest, i + 1);
      DeclaredNext(done, t);
      NewDirective(d, i);
      VersionNext(done, t);
      assert Declared(done) + [] == Declared(done) && (d + rest)[i] == t;
    }
  }

  /** The next directive is allowed. */
  lemma NewDirective(d: seq<Token>, i: nat)
    requires DirectivesOk(d) && i < |d|
    ensures if d[i].TagDirective? then !Declares(Declared(d[..i]), d[i].handle)
            else d[i] in {VersionDirective(1, 1), VersionDirective(1, 2)} && !HasVersion(d[..i])
  {
    var t, done := d[i], d[..i];
    forall j | 0 <= j < |done| ensures Apart(done[j], t) { assert done[j] == d[j]; }
    if t.TagDirective? && Declares(Declared(done), t.handle) {
      DeclaredFrom(done, t.handle);
      assert false;
    }
  }

  lemma DeclaredNext(done: seq<Token>, t: Token)
    ensures Declared(done + [t]) == Declared(done) + if t.TagDirective? then [(t.handle, t.prefix)] else []
  {
    var all := done + [t];
    assert all[..|all| - 1] == done;
  }

  lemma VersionNext(done: seq<Token>, t: Token)
    ensures HasVersion(done + [t]) <==> HasVersion(done) || t.VersionDirective?
  {
    var all := done + [t];
    assert all[|done|] == t && forall k :: 0 <= k < |done| ==> all[k] == done[k];
  }

  lemma SameDefaults(ds: Directives)
    ensures KnownHandles(ds) == WithDefaults(ds)
  {
    assert Knows(ds, "!") == Declares(ds, "!");
    var one := WithDefault(ds, "!", "!");
    assert ds + [] == ds;
    assert Knows(one, "!!") == Declares(one, "!!");
    assert one + [] == one;
  }

  lemma StartStep(tokens: seq<Token>, m: Machine, first: bool, sp: Choice, rest: seq<Token>)
    requires Tracks(Between(first), m) && May(Between(first), DocumentStart, sp, rest)
    requires m.pos <= |tokens| && tokens[m.pos..] == TextOf(Between(first), DocumentStart, sp) + rest
    ensures Reads(tokens, m, DocumentStart, Next(Between(first), DocumentStart, sp),
                  m.pos + |TextOf(Between(first), DocumentStart, sp)|)
  {
    hide Move, ReadDirectives, KnownHandles, Declared, DirectivesOk, StatesOf, SkipEnds;
    StartMoves(tokens, m, first);
    var q, ds := DirectivesAt(tokens, m, first, sp, rest);
    assert [] + [DocumentEndState] == [DocumentEndState];
  }

  lemma StartMoves(tokens: seq<Token>, m: Machine, first: bool)
    requires Tracks(Between(first), m)
    ensures Move(tokens, m) == StartDocument(tokens, m, first) && m.states == [] && m.directives == []
  {
    hide StartDocument;
  }

  /** What comes of the directives and the start of a document. */
  lemma DirectivesAt(tokens: seq<Token>, m: Machine, first: bool, sp: Choice, rest: seq<Token>)
    returns (q: nat, ds: Directives)
    requires m.directives == [] && May(Between(first), DocumentStart, sp, rest)
    requires m.pos <= |tokens| && tokens[m.pos..] == TextOf(Between(first), DocumentStart, sp) + rest
    ensures m.pos < |tokens| && tokens[m.pos] != StreamEndToken && (!sp.omit ==> SkipEnds(tokens, m.pos) == m.pos)
    ensures q == m.pos + (if sp.omit then 0 else |sp.directives|) < |tokens|
    ensures ds == KnownHandles(Declared(sp.directives)) && ReadDirectives(tokens, m.pos, [], false) == Directed(q, ds)
    ensures sp.omit ==> first && !IsDirective(tokens[m.pos]) && tokens[m.pos] != DocumentStartToken
    ensures !sp.omit ==> tokens[q] == DocumentStartToken && (q > m.pos ==> IsDirective(tokens[m.pos]))
  {
    hide ReadDirectives, KnownHandles, Declared, SkipEnds, Means;
    var p := m.pos;
    ds := KnownHandles(Declared(sp.directives));
    NoneDeclared();
    if sp.omit {
      q := p;
      assert tokens[p..] == [] + rest;
      At(tokens, p, rest, 0);
      DirectivesRead(tokens, p, [], rest, 0);
    } else {
      var d, more := sp.directives, [DocumentStartToken] + rest;
      q := p + |d|;
      assert tokens[p..] == d + more;
      At(tokens, p, d + more, |d|);
      At(tokens, p, d + more, 0);
      DirectivesRead(tokens, p, d, more, 0);
      assert d[..0] == [];
      if d != [] { assert IsDirective(d[0]); }
      NoEnds(tokens, p);
    }
  }

  lemma NoneDeclared()
    ensures Declared([]) == [] && !HasVersion([])
  {
  }

  lemma NoEnds(tokens: seq<Token>, p: nat)
    requires p < |tokens| && !tokens[p].DocumentEndToken?
    ensures SkipEnds(tokens, p) == p
  {
  }

  lemma OuterStep(tokens: seq<Token>, m: Machine, w: Writer, ev: Event, sp: Choice, rest: seq<Token>)
    requires Tracks(w, m) && May(w, ev, sp, rest) && !w.Inside?
    requires m.pos <= |tokens| && tokens[m.pos..] == TextOf(w, ev, sp) + rest
    ensures Reads(tokens, m, ev, Next(w, ev, sp), m.pos + |TextOf(w, ev, sp)|)
  {
    hide ReadDirectives, KnownHandles, Declared, DirectivesOk;
    if w.Between? && ev.DocumentStart? {
      StartStep(tokens, m, w.first, sp, rest);
    } else {
      At(tokens, m.pos, TextOf(w, ev, sp) + rest, 0);
      if w.Between? { NoEnds(tokens, m.pos); }
    }
  }

  lemma DocumentEndStep(tokens: seq<Token>, m: Machine, slots: seq<Slot>, known: Directives, sp: Choice,
                        rest: seq<Token>)
    requires SlotsOk(slots) && Tracks(Inside(slots, known), m) && May(Inside(slots, known), DocumentEnd, sp, rest)
    requires m.pos <= |tokens| && tokens[m.pos..] == TextOf(Inside(slots, known), DocumentEnd, sp) + rest
    ensures Lag(Inside(slots, known)) == 0
    ensures Reads(tokens, m, DocumentEnd, Between(false), m.pos + |TextOf(Inside(slots, known), DocumentEnd, sp)|)
  {
    At(tokens, m.pos, TextOf(Inside(slots, known), DocumentEnd, sp) + rest, 0);
    assert Lower(slots) == [] && StatesOf([]) == [];
  }

  // ----- whole streams ------------------------------------------------------------------------------------------

  lemma AnyStep(tokens: seq<Token>, m: Machine, w: Writer, ev: Event, sp: Choice, rest: seq<Token>)
    requires WriterOk(w) && Tracks(w, m) && May(w, ev, sp, rest)
    requires m.pos + Lag(w) <= |tokens| && tokens[m.pos + Lag(w)..] == TextOf(w, ev, sp) + rest
    ensures Reads(tokens, m, ev, Next(w, ev, sp), m.pos + Lag(w) + |TextOf(w, ev, sp)|)
  {
    hide Reads, SlotsOk, Tracks, MayNode, MayEnd, Lead, NodeText, EndText, DirectivesOk;
    if w.Inside? {
      if IsNodeEvent(ev) {
        NodeStep(tokens, m, w.slots, w.known, ev, sp, rest);
      } else if ev.DocumentEnd? {
        DocumentLag(w.slots, w.known);
        DocumentEndStep(tokens, m, w.slots, w.known, sp, rest);
      } else {
        EndKind(Last(w.slots), ev, rest[0]);
        EndStep(tokens, m, w.slots, w.known, ev, sp, rest);
      }
    } else {
      OuterStep(tokens, m, w, ev, sp, rest);
    }
  }

  lemma DocumentLag(slots: seq<Slot>, known: Directives)
    requires slots != [] && Last(slots).DocumentSlot?
    ensures Lag(Inside(slots, known)) == 0
  {
  }

  lemma EndKind(slot: Slot, ev: Event, next: Token)
    requires MayEnd(slot, ev, next)
    ensures ev.SequenceEnd? || ev.MappingEnd?
  {
  }

  lemma NextOk(w: Writer, ev: Event, sp: Choice, rest: seq<Token>)
    requires WriterOk(w) && May(w, ev, sp, rest)
    ensures WriterOk(Next(w, ev, sp))
  {
    hide Means, DirectivesOk, GoesOn, MayNode;
    if w.Inside? && IsNodeEvent(ev) {
      var slots, last := w.slots, |w.slots| - 1;
      FilledOk(slots[last], w.known, ev, sp, rest[0]);
      if sp.form != Single { PushOk(slots, Filled(slots[last], sp), Opened(ev, sp)); }
    }
  }

  lemma FilledOk(slot: Slot, known: Directives, ev: Event, sp: Choice, next: Token)
    requires SlotOk(slot) && MayNode(slot, known, ev, sp, next) && IsNodeEvent(ev)
    ensures SlotOk(Filled(slot, sp)) && Entered(Filled(slot, sp))
    ensures Filled(slot, sp).DocumentSlot? <==> slot.DocumentSlot?
    ensures sp.form == Single ==> !slot.DocumentSlot?
  {
    hide Means;
  }

  lemma PushOk(slots: seq<Slot>, filled: Slot, top: seq<Slot>)
    requires SlotsOk(slots) && SlotOk(filled) && Entered(filled)
    requires filled.DocumentSlot? <==> Last(slots).DocumentSlot?
    requires |top| <= 1 && (top != [] ==> !top[0].DocumentSlot? && SlotOk(top[0]))
    ensures SlotsOk(slots[..|slots| - 1] + [filled] + top)
  {
  }

  /** The machine yields the events, one after the other. */
  ghost predicate Yields(tokens: seq<Token>, m: Machine, events: seq<Event>, m': Machine)
    decreases |events|
  {
    if events == [] then m' == m
    else
      var r := Move(tokens, m);
      r.Moved? && r.ev == events[0] && Yields(tokens, r.m, events[1..], m')
  }

  lemma {:induction false} SpelledYields(tokens: seq<Token>, m: Machine, w: Writer, events: seq<Event>,
                                         sps: seq<Choice>)
    returns (m': Machine)
    requires WriterOk(w) && Tracks(w, m) && m.pos + Lag(w) <= |tokens|
    requires Spelled(w, events, sps, tokens[m.pos + Lag(w)..])
    ensures Yields(tokens, m, events, m') && m'.state == End
    decreases |events|
  {
    hide May, TextOf, Next, Move, Tracks, WriterOk;
    if events == [] {
      m' := m;
      FinishedEnd(w, m);
    } else {
      var ev, sp, q := events[0], sps[0], m.pos + Lag(w);
      var text := TextOf(w, ev, sp);
      var rest := tokens[q..][|text|..];
      assert tokens[q..] == text + rest;
      AnyStep(tokens, m, w, ev, sp, rest);
      NextOk(w, ev, sp, rest);
      assert rest == tokens[q + |text|..];
      m' := SpelledYields(tokens, Move(tokens, m).m, Next(w, ev, sp), events[1..], sps[1..]);
    }
  }

  lemma FinishedEnd(w: Writer, m: Machine)
    requires Tracks(w, m) && w.Finished?
    ensures m.state == End
  {
  }

  const START := Machine(0, StreamStartState, [], [])

  /** Whatever is spelled by the grammar is parsed to the end, and gives the events that were spelled. */
  lemma SpelledParses(events: seq<Event>, sps: seq<Choice>, tokens: seq<Token>) returns (m: Machine)
    requires Spelled(Unbegun, events, sps, tokens)
    ensures Yields(tokens, START, events, m) && m.state == End
  {
    assert tokens[0..] == tokens;
    m := SpelledYields(tokens, START, Unbegun, events, sps);
  }

  /** Two runs that cannot go on have the same events. */
  lemma {:induction false} Determined(tokens: seq<Token>, m: Machine, a: seq<Event>, ma: Machine, b: seq<Event>,
                                      mb: Machine)
    requires Yields(tokens, m, a, ma) && Move(tokens, ma).Stuck? && Yields(tokens, m, b, mb) && Move(tokens, mb).Stuck?
    ensures a == b && ma == mb
    decreases |a|
  {
    hide Move;
    if a != [] && b != [] {
      Determined(tokens, Move(tokens, m).m, a[1..], ma, b[1..], mb);
      assert a == [a[0]] + a[1..] && b == [b[0]] + b[1..];
    }
  }

  lemma {:induction false} YieldsNext(tokens: seq<Token>, m: Machine, events: seq<Event>, m': Machine, ev: Event)
    requires Yields(tokens, m, events, m') && Move(tokens, m').Moved? && Move(tokens, m').ev == ev
    ensures Yields(tokens, m, events + [ev], Move(tokens, m').m)
    decreases |events|
  {
    hide Move;
    if events == [] {
      assert [] + [ev] == [ev] && [ev][1..] == [];
    } else {
      YieldsNext(tokens, Move(tokens, m).m, events[1..], m', ev);
      assert (events + [ev])[1..] == events[1..] + [ev];
    }
  }

  /** The text "[? : x]". */
  const EMPTY_KEY := [StreamStartToken, DocumentStartToken, FlowSequenceStart, Key, Value, ScalarToken("x", PLAIN),
                      FlowSequenceEnd, StreamEndToken]

  /** How it is read: the value indicator is skipped together with the missing key. */
  function EmptyKeyAt(k: nat): Machine
    requires 1 <= k <= 7
  {
    var ds, states := WithDefaults([]), [DocumentEndState];
    if k == 1 then Machine(1, ImplicitDocumentStart, [], [])
    else if k == 2 then Machine(2, DocumentContent, states, ds)
    else if k == 3 then Machine(2, FlowSequenceFirstEntry, states, ds)
    else if k == 4 then Machine(4, FlowSequenceEntryMappingKey, states, ds)
    else if k == 5 then Machine(5, FlowSequenceEntryMappingValue, states, ds)
    else if k == 6 then Machine(5, FlowSequenceEntryMappingEnd, states, ds)
    else Machine(5, FlowSequenceEntry, states, ds)
  }

  const EMPTY_KEY_EVENTS := [StreamStart, DocumentStart, SequenceStart(None, None, FLOW),
                             MappingStart(None, None, FLOW), EMPTY_SCALAR, EMPTY_SCALAR, MappingEnd]

  lemma EmptyKeyBegins()
    ensures Move(EMPTY_KEY, START) == Moved(StreamStart, EmptyKeyAt(1))
    ensures Move(EMPTY_KEY, EmptyKeyAt(1)) == Moved(DocumentStart, EmptyKeyAt(2))
    ensures Move(EMPTY_KEY, EmptyKeyAt(2)) == Moved(SequenceStart(None, None, FLOW), EmptyKeyAt(3))
  {
    hide WithDefaults;
    assert [] + [DocumentEndState] == [DocumentEndState];
  }

  lemma EmptyKeyGoesOn()
    ensures Move(EMPTY_KEY, EmptyKeyAt(3)) == Moved(MappingStart(None, None, FLOW), EmptyKeyAt(4))
    ensures Move(EMPTY_KEY, EmptyKeyAt(4)) == Moved(EMPTY_SCALAR, EmptyKeyAt(5))
    ensures Move(EMPTY_KEY, EmptyKeyAt(5)) == Moved(EMPTY_SCALAR, EmptyKeyAt(6))
    ensures Move(EMPTY_KEY, EmptyKeyAt(6)) == Moved(MappingEnd, EmptyKeyAt(7)) && Move(EMPTY_KEY, EmptyKeyAt(7)).Stuck?
  {
    hide WithDefaults;
  }

  /** A single pair with an empty key is not parsed, though the grammar has it: in "[? : x]" the parser stops at x. */
  lemma EmptyKeyFails() returns (m: Machine)
    ensures Yields(EMPTY_KEY, START, EMPTY_KEY_EVENTS, m) && Move(EMPTY_KEY, m).Stuck?
    ensures m.pos == 5 && EMPTY_KEY[m.pos] == ScalarToken("x", PLAIN)
  {
    hide Move, Yields;
    EmptyKeyBegins();
    EmptyKeyGoesOn();
    m := EmptyKeyAt(7);
    var e := EMPTY_KEY_EVENTS;
    NothingYielded(EMPTY_KEY, EmptyKeyAt(7));
    YieldsFirst(EMPTY_KEY, EmptyKeyAt(6), e[6..], m);
    YieldsFirst(EMPTY_KEY, EmptyKeyAt(5), e[5..], m);
    YieldsFirst(EMPTY_KEY, EmptyKeyAt(4), e[4..], m);
    YieldsFirst(EMPTY_KEY, EmptyKeyAt(3), e[3..], m);
    YieldsFirst(EMPTY_KEY, EmptyKeyAt(2), e[2..], m);
    YieldsFirst(EMPTY_KEY, EmptyKeyAt(1), e[1..], m);
    YieldsFirst(EMPTY_KEY, START, e, m);
  }

  /** An empty key of a single pair is read together with the token `tokens[m.pos]` behind its indicator. Then the value
      is empty too, and the flow sequence goes on at the next token, which must be a comma or its end. So the parser
      reads the pair right exactly if that token is its value indicator and the value is empty, or if it is the comma
      that ends the sequence; a value that is not empty stops it, and so does another entry behind the comma, while an
      end that it skips leaves the sequence open. */
  lemma EmptyKeyExactly(tokens: seq<Token>, m: Machine) returns (m': Machine)
    requires m.state == FlowSequenceEntryMappingKey && m.pos + 1 < |tokens|
    requires tokens[m.pos] in {Value, FlowEntry, FlowSequenceEnd} && tokens[m.pos + 1] != Value
    ensures m' == m.(pos := m.pos + 1, state := FlowSequenceEntry)
    ensures Yields(tokens, m, [EMPTY_SCALAR, EMPTY_SCALAR, MappingEnd], m')
    ensures tokens[m.pos + 1] !in {FlowEntry, FlowSequenceEnd} ==> Move(tokens, m').Stuck?
    ensures tokens[m.pos + 1] == FlowSequenceEnd ==> Move(tokens, m') == Back(m'.(pos := m.pos + 2), SequenceEnd)
  {
    hide NodeAt, Back, Yields;
    m' := m.(pos := m.pos + 1, state := FlowSequenceEntry);
    var events := [EMPTY_SCALAR, EMPTY_SCALAR, MappingEnd];
    NothingYielded(tokens, m');
    assert events[3..] == [] && events[2..][1..] == events[3..] && events[1..][1..] == events[2..];
    YieldsFirst(tokens, m'.(state := FlowSequenceEntryMappingEnd), events[2..], m');
    YieldsFirst(tokens, m'.(state := FlowSequenceEntryMappingValue), events[1..], m');
    YieldsFirst(tokens, m, events, m');
  }

  lemma NothingYielded(tokens: seq<Token>, m: Machine)
    ensures Yields(tokens, m, [], m)
  {
  }

  lemma YieldsFirst(tokens: seq<Token>, m: Machine, events: seq<Event>, m': Machine)
    requires events != [] && Move(tokens, m).Moved? && Move(tokens, m).ev == events[0]
    requires Yields(tokens, Move(tokens, m).m, events[1..], m')
    ensures Yields(tokens, m, events, m')
  {
  }
}
