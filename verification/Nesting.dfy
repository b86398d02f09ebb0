/**
 Well-nested event streams: documents hold one node each, mappings hold keys and values in turn.
 */
module Nesting {
  import opened Options
  import opened YamlGraph

  /** What is open: a document (with or without its root), a sequence, a mapping (with or without a pending key). */
  datatype Frame = Doc(full: bool) | Seq | Map(pending: bool)

  datatype Nest = Unstarted | Open(stack: seq<Frame>) | Closed

  /** Room for one more node, which is then counted. */
  predicate HasRoom(stack: seq<Frame>) { stack != [] && stack[|stack| - 1] != Doc(true) }

  function Toggle(f: Frame): Frame {
    match f
    case Doc(full) => Doc(!full)
    case Seq => Seq
    case Map(pending) => Map(!pending)
  }

  function CountNode(stack: seq<Frame>): seq<Frame>
    requires stack != []
  {
    stack[|stack| - 1 := Toggle(stack[|stack| - 1])]
  }

  /** The state after one more event, if the event may stand here. */
  function Accept(n: Nest, ev: Event): Option<Nest> {
    if n.Unstarted? then (if ev.StreamStart? then Some(Open([])) else None)
    else if n.Closed? then None
    else if n.stack == [] then
      (match ev
       case DocumentStart => Some(Open([Doc(false)]))
       case StreamEnd => Some(Closed)
       case _ => None)
    else
      var top := |n.stack| - 1;
      match ev
      case Alias(_) => if HasRoom(n.stack) then Some(Open(CountNode(n.stack))) else None
      case ScalarEvent(_, _, _, _) => if HasRoom(n.stack) then Some(Open(CountNode(n.stack))) else None
      case SequenceStart(_, _, _) => if HasRoom(n.stack) then Some(Open(CountNode(n.stack) + [Seq])) else None
      case MappingStart(_, _, _) => if HasRoom(n.stack) then Some(Open(CountNode(n.stack) + [Map(false)])) else None
      case SequenceEnd => if n.stack[top] == Seq then Some(Open(n.stack[..top])) else None
      case MappingEnd => if n.stack[top] == Map(false) then Some(Open(n.stack[..top])) else None
      case DocumentEnd => if n.stack == [Doc(true)] then Some(Open([])) else None
      case _ => None
  }

  /** The state after a sequence of events. */
  function AcceptAll(n: Nest, events: seq<Event>): Option<Nest> {
    if events == [] then Some(n)
    else
      var last := |events| - 1;
      var r := AcceptAll(n, events[..last]);
      if r.None? then None else Accept(r.value, events[last])
  }

  lemma AcceptSnoc(n: Nest, events: seq<Event>, ev: Event)
    ensures var r := AcceptAll(n, events); AcceptAll(n, events + [ev]) == if r.None? then None else Accept(r.value, ev)
  {
    var all := events + [ev];
    assert all[..|all| - 1] == events;
  }

  lemma {:induction false} AcceptConcat(n: Nest, a: seq<Event>, b: seq<Event>)
    requires AcceptAll(n, a).Some?
    ensures AcceptAll(n, a + b) == AcceptAll(AcceptAll(n, a).value, b)
    decreases |b|
  {
    if b == [] {
      assert a + b == a;
    } else {
      var last := |b| - 1;
      AcceptConcat(n, a, b[..last]);
      assert a + b == a + b[..last] + [b[last]] && b == b[..last] + [b[last]];
      AcceptSnoc(n, a + b[..last], b[last]);
    }
  }

  const NULL_EVENT := ScalarEvent(None, None, "", 0)

  /** The stacks that occur: one document at the bottom, collections above it. */
  predicate Proper(n: Nest) {
    n.Open? ==> forall k :: 0 <= k < |n.stack| ==> (n.stack[k].Doc? <==> k == 0)
  }

  lemma AcceptProper(n: Nest, ev: Event)
    requires Proper(n) && Accept(n, ev).Some?
    ensures Proper(Accept(n, ev).value)
  {
  }

  /** How many events are missing at most. */
  function Missing(n: Nest): nat {
    match n
    case Unstarted => 2
    case Closed => 0
    case Open(stack) =>
      1 + 2 * |stack| + if stack != [] && (stack[|stack| - 1] == Doc(false) || stack[|stack| - 1] == Map(true)) then 1
        else 0
  }

  function Closing(n: Nest): Event {
    if !n.Open? then StreamStart
    else if n.stack == [] then StreamEnd
    else
      match n.stack[|n.stack| - 1]
      case Doc(full) => if full then DocumentEnd else NULL_EVENT
      case Seq => SequenceEnd
      case Map(pending) => if pending then NULL_EVENT else MappingEnd
  }

  lemma ClosingStep(n: Nest)
    requires Proper(n) && !n.Closed?
    ensures Accept(n, Closing(n)).Some? && Missing(Accept(n, Closing(n)).value) < Missing(n)
  {
    if n.Open? && |n.stack| > 1 {
      assert n.stack[|n.stack| - 1] != n.stack[0];
    }
  }

  /** Whatever has been accepted is the beginning of a complete stream. */
  lemma {:induction false} Completable(n: Nest) returns (rest: seq<Event>)
    requires Proper(n)
    ensures AcceptAll(n, rest) == Some(Closed)
    decreases Missing(n)
  {
    if n.Closed? {
      return [];
    }
    var ev := Closing(n);
    ClosingStep(n);
    AcceptProper(n, ev);
    hide Accept, Closing, Missing, Proper;
    rest := Completable(Accept(n, ev).value);
    AcceptSnoc(n, [], ev);
    assert [] + [ev] == [ev];
    AcceptConcat(n, [ev], rest);
    rest := [ev] + rest;
  }

  lemma {:induction false} AcceptedProper(events: seq<Event>)
    requires AcceptAll(Unstarted, events).Some?
    ensures Proper(AcceptAll(Unstarted, events).value)
    decreases |events|
  {
    if events != [] {
      var last := |events| - 1;
      AcceptedProper(events[..last]);
      AcceptProper(AcceptAll(Unstarted, events[..last]).value, events[last]);
    }
  }
}
