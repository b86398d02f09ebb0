/**
 One way of writing any complete stream of events as tokens, in block or flow style as its collections say, and what the
 parser makes of it.
 */
module TokenWriter {
  import opened Options
  import opened YamlGraph
  import opened Nesting
  import opened EventMachine
  import opened Spelling

  /** Everything in full, with verbatim tags and explicit documents. */
  function Plainly(ev: Event): Choice {
    Choice(Full, false, "", if TagOf(ev).Some? then TagOf(ev).value else "", false, false, [])
  }

  /** The tokens of the events, from the state `w` of the writer on. */
  function TokensFrom(w: Writer, events: seq<Event>): seq<Token>
    decreases |events|
  {
    if events == [] then []
    else TextOf(w, events[0], Plainly(events[0])) + TokensFrom(Next(w, events[0], Plainly(events[0])), events[1..])
  }

  function Tokens(events: seq<Event>): seq<Token> { TokensFrom(Unbegun, events) }

  /** Collections are of block or flow style, and no block collection stands in a flow collection. */
  predicate StyleOk(w: Writer, ev: Event) {
    ev.SequenceStart? || ev.MappingStart? ==>
      ev.style == FLOW || (ev.style == BLOCK && (w.Inside? && w.slots != [] ==> !InFlow(w.slots[|w.slots| - 1])))
  }

  predicate StylesOk(w: Writer, events: seq<Event>)
    decreases |events|
  {
    events != [] ==> StyleOk(w, events[0]) && StylesOk(Next(w, events[0], Plainly(events[0])), events[1..])
  }

  function Choices(events: seq<Event>): (sps: seq<Choice>)
    ensures |sps| == |events| && forall k :: 0 <= k < |events| ==> sps[k] == Plainly(events[k])
  {
    seq(|events|, k requires 0 <= k < |events| => Plainly(events[k]))
  }

  // ----- the writer follows the nesting ---------------------------------------------------------------------------

  function FrameOf(slot: Slot): Frame {
    match slot
    case DocumentSlot(full, _) => Doc(full)
    case SequenceSlot(_, _) => Seq
    case MappingSlot(_, _, pending, _) => Map(pending)
    case PairSlot(_, pending, _) => Map(pending)
  }

  function FramesOf(slots: seq<Slot>): (r: seq<Frame>)
    ensures |r| == |slots| && forall k :: 0 <= k < |slots| ==> r[k] == FrameOf(slots[k])
  {
    seq(|slots|, k requires 0 <= k < |slots| => FrameOf(slots[k]))
  }

  function NestOf(w: Writer): Nest {
    match w
    case Unbegun => Unstarted
    case Between(_) => Open([])
    case Inside(slots, _) => Open(FramesOf(slots))
    case Finished => Closed
  }

  /** Nothing is left out in a slot. */
  predicate PlainSlot(s: Slot) {
    !s.PairSlot? && !(s.SequenceSlot? && s.kind == Undented) && !(s.MappingSlot? && s.bare)
  }

  /** The writer has left nothing out, and is in a document if it is inside. */
  ghost predicate Plain(w: Writer) { w.Inside? ==> PlainSlots(w.slots) }

  ghost predicate PlainSlots(slots: seq<Slot>) {
    slots != [] && forall k :: 0 <= k < |slots| ==> PlainSlot(slots[k]) && (slots[k].DocumentSlot? <==> k == 0)
  }

  lemma PlainNode(slots: seq<Slot>, known: Directives, ev: Event)
    requires PlainSlots(slots) && IsNodeEvent(ev) && Accept(Open(FramesOf(slots)), ev).Some?
    ensures var w' := Next(Inside(slots, known), ev, Plainly(ev));
      w'.Inside? && PlainSlots(w'.slots) && Open(FramesOf(w'.slots)) == Accept(Open(FramesOf(slots)), ev).value
  {
    hide FramesOf;
    var sp, last := Plainly(ev), |slots| - 1;
    var filled, top := slots[..last] + [Filled(slots[last], sp)], Opened(ev, sp);
    FilledFrames(slots, ev);
    FramesConcat(filled, top);
    assert FramesOf(filled) + [] == FramesOf(filled);
    assert PlainSlots(filled + top);
  }

  lemma FramesConcat(a: seq<Slot>, b: seq<Slot>)
    ensures FramesOf(a + b) == FramesOf(a) + FramesOf(b)
  {
  }

  lemma FilledFrames(slots: seq<Slot>, ev: Event)
    requires PlainSlots(slots) && IsNodeEvent(ev) && Accept(Open(FramesOf(slots)), ev).Some?
    ensures var last := |slots| - 1;
      CountNode(FramesOf(slots)) == FramesOf(slots[..last] + [Filled(slots[last], Plainly(ev))])
  {
  }

  lemma PlainMayNode(slots: seq<Slot>, known: Directives, ev: Event, next: Token)
    requires PlainSlots(slots) && IsNodeEvent(ev) && Accept(Open(FramesOf(slots)), ev).Some?
    requires StyleOk(Inside(slots, known), ev)
    ensures MayNode(slots[|slots| - 1], known, ev, Plainly(ev), next)
  {
  }

  lemma PlainEnd(slots: seq<Slot>, known: Directives, ev: Event, next: Token)
    requires PlainSlots(slots) && !IsNodeEvent(ev) && Accept(Open(FramesOf(slots)), ev).Some? && !ev.DocumentEnd?
    ensures var w' := Next(Inside(slots, known), ev, Plainly(ev));
      && MayEnd(slots[|slots| - 1], ev, next) && EndText(slots[|slots| - 1], Plainly(ev)) != []
      && w'.Inside? && PlainSlots(w'.slots) && Open(FramesOf(w'.slots)) == Accept(Open(FramesOf(slots)), ev).value
  {
    var last := |slots| - 1;
    assert FramesOf(slots)[..last] == FramesOf(slots[..last]);
    assert slots[..last] + [] == slots[..last];
  }

  lemma PlainStep(w: Writer, ev: Event, rest: seq<Token>)
    requires Plain(w) && Accept(NestOf(w), ev).Some? && StyleOk(w, ev) && (rest == [] <==> ev.StreamEnd?)
    ensures May(w, ev, Plainly(ev), rest) && TextOf(w, ev, Plainly(ev)) != []
    ensures Plain(Next(w, ev, Plainly(ev))) && NestOf(Next(w, ev, Plainly(ev))) == Accept(NestOf(w), ev).value
  {
    hide KnownHandles, MayNode, MayEnd, EndText, StyleOk, FramesOf;
    if w.Inside? {
      InsideNeeds(w.slots, ev);
      if IsNodeEvent(ev) {
        PlainNode(w.slots, w.known, ev);
        PlainMayNode(w.slots, w.known, ev, rest[0]);
      } else if ev.DocumentEnd? {
        DocumentFull(w.slots);
      } else {
        PlainEnd(w.slots, w.known, ev, rest[0]);
      }
    } else {
      assert FramesOf([DocumentSlot(false, true)]) == [Doc(false)] by { OneFrame(DocumentSlot(false, true)); }
    }
  }

  lemma OneFrame(slot: Slot)
    ensures FramesOf([slot]) == [FrameOf(slot)]
  {
  }

  lemma InsideNeeds(slots: seq<Slot>, ev: Event)
    requires PlainSlots(slots) && Accept(Open(FramesOf(slots)), ev).Some?
    ensures !ev.StreamEnd?
  {
  }

  lemma DocumentFull(slots: seq<Slot>)
    requires PlainSlots(slots) && Accept(Open(FramesOf(slots)), DocumentEnd).Some?
    ensures var slot := slots[|slots| - 1]; slot.DocumentSlot? && slot.full
    ensures Accept(Open(FramesOf(slots)), DocumentEnd).value == Open([])
  {
    assert FramesOf(slots)[|slots| - 1] == FrameOf(slots[|slots| - 1]);
  }

  lemma {:induction false} TokensSpell(w: Writer, events: seq<Event>)
    requires Plain(w) && AcceptAll(NestOf(w), events) == Some(Closed) && StylesOk(w, events)
    ensures Spelled(w, events, Choices(events), TokensFrom(w, events))
    ensures events != [] ==> TokensFrom(w, events) != []
    decreases |events|
  {
    hide Accept, May, TextOf, Next, StyleOk, Plain, NestOf;
    if events == [] {
      ClosedFinished(w);
    } else {
      var ev, more := events[0], events[1..];
      var w' := Next(w, ev, Plainly(ev));
      assert events == [ev] + more;
      AcceptCons(NestOf(w), ev, more);
      var rest := TokensFrom(w', more);
      StreamEnds(NestOf(w), ev, more);
      NextNest(w, ev);
      TokensSpell(w', more);
      PlainStep(w, ev, rest);
      var text := TextOf(w, ev, Plainly(ev));
      assert (text + rest)[..|text|] == text && (text + rest)[|text|..] == rest;
      assert Choices(events)[1..] == Choices(more);
    }
  }

  lemma NextNest(w: Writer, ev: Event)
    requires Plain(w) && Accept(NestOf(w), ev).Some? && StyleOk(w, ev)
    ensures Plain(Next(w, ev, Plainly(ev))) && NestOf(Next(w, ev, Plainly(ev))) == Accept(NestOf(w), ev).value
  {
    PlainStep(w, ev, if ev.StreamEnd? then [] else [Key]);
  }

  lemma ClosedFinished(w: Writer)
    requires NestOf(w) == Closed
    ensures w.Finished?
  {
  }

  lemma AcceptCons(n: Nest, ev: Event, more: seq<Event>)
    ensures AcceptAll(n, [ev]) == Accept(n, ev)
    ensures AcceptAll(n, [ev] + more).Some? && Accept(n, ev).Some? ==>
      AcceptAll(n, [ev] + more) == AcceptAll(Accept(n, ev).value, more)
    ensures AcceptAll(n, [ev] + more).Some? ==> Accept(n, ev).Some?
  {
    AcceptSnoc(n, [], ev);
    assert [] + [ev] == [ev];
    if Accept(n, ev).Some? {
      AcceptConcat(n, [ev], more);
    } else {
      NoneStays(n, [ev], more);
    }
  }

  lemma {:induction false} NoneStays(n: Nest, a: seq<Event>, b: seq<Event>)
    requires AcceptAll(n, a).None?
    ensures AcceptAll(n, a + b).None?
    decreases |b|
  {
    if b == [] {
      assert a + b == a;
    } else {
      var last := |b| - 1;
      NoneStays(n, a, b[..last]);
      assert (a + b)[..|a + b| - 1] == a + b[..last];
    }
  }

  /** A stream ends with its last event. */
  lemma StreamEnds(n: Nest, ev: Event, more: seq<Event>)
    requires Accept(n, ev).Some? && AcceptAll(Accept(n, ev).value, more) == Some(Closed)
    ensures more == [] <==> ev.StreamEnd?
  {
    if more != [] && Accept(n, ev).value == Closed {
      AcceptCons(Closed, more[0], more[1..]);
      assert more == [more[0]] + more[1..];
    }
  }
}
