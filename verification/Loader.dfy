/**
 The composer of loader.c as an object: the document under construction, the anchors and the stack of open collections.
 */
module Loader {
  import opened Options
  import opened YamlGraph
  import opened LoadSpec
  import opened DumpSpec
  import opened DumpLoad
  import opened GraphRoundTrip
  import Dumper
  import LoadLaw

  datatype Status = Done | Error(error: LoadError) | Asserted

  class Loader {
    var nodes: Document
    var aliases: seq<AliasData>
    var ctx: seq<nat>

    constructor ()
      ensures St() == EMPTY
    {
      nodes, aliases, ctx := [], [], [];
    }

    ghost function St(): LoadSpec.Loader
      reads this
    {
      LoadSpec.Loader(nodes, aliases, ctx)
    }

    /** The outcome as a value. */
    ghost function Outcome(s: Status): Result
      reads this
    {
      match s
      case Done => Loaded(St())
      case Error(e) => Failed(e)
      case Asserted => AssertFailed
    }

    method RegisterAnchor(index: nat, anchor: Option<Text>) returns (s: Status)
      modifies this`aliases
      ensures Outcome(s) == Register(old(St()), index, anchor)
    {
      if anchor.None? {
        return Done;
      }
      var k := 0;
      while k < |aliases|
        invariant k <= |aliases| && forall j :: 0 <= j < k ==> aliases[j].anchor != anchor.value
      {
        if aliases[k].anchor == anchor.value {
          return Error(DuplicateAnchor);
        }
        k := k + 1;
      }
      aliases := aliases + [AliasData(anchor.value, index)];
      s := Done;
    }

    method AddNode(index: nat) returns (s: Status)
      modifies this`nodes
      ensures Outcome(s) == NodeAdd(old(St()), index)
    {
      if ctx == [] {
        return Done;
      }
      var parent := ctx[|ctx| - 1];
      if !(1 <= parent <= |nodes|) {
        return Asserted;
      }
      match nodes[parent - 1] {
        case Scalar(_, _, _) => return Asserted;
        case Sequence(tag, items, style) => nodes := nodes[parent - 1 := Sequence(tag, items + [index], style)];
        case Mapping(tag, pairs, style) =>
          var last := |pairs| - 1;
          if pairs != [] && pairs[last].key != 0 && pairs[last].value == 0 {
            nodes := nodes[parent - 1 := Mapping(tag, pairs[last := Pair(pairs[last].key, index)], style)];
          } else {
            nodes := nodes[parent - 1 := Mapping(tag, pairs + [Pair(index, 0)], style)];
          }
      }
      s := Done;
    }

    method LoadAlias(anchor: Text) returns (s: Status)
      modifies this`nodes
      ensures Outcome(s) == Step(old(St()), Alias(anchor))
    {
      var k := 0;
      while k < |aliases|
        invariant k <= |aliases| && forall j :: 0 <= j < k ==> aliases[j].anchor != anchor
        invariant St() == old(St())
      {
        if aliases[k].anchor == anchor {
          s := AddNode(aliases[k].index);
          return;
        }
        k := k + 1;
      }
      s := Error(UndefinedAlias);
    }

    /** The common part of loading a scalar, a sequence and a mapping. */
    method Push(ev: Event) returns (s: Status, index: nat)
      requires ev.ScalarEvent? || ev.SequenceStart? || ev.MappingStart?
      modifies this`nodes, this`aliases
      ensures index == |old(nodes)| + 1
      ensures var r := Register(old(St()).(nodes := old(nodes) + [NodeOf(ev)]), index, ev.anchor);
        Outcome(s) == if r.Loaded? then NodeAdd(r.st, index) else r
    {
      nodes := nodes + [NodeOf(ev)];
      index := |nodes|;
      s := RegisterAnchor(index, ev.anchor);
      if s == Done {
        s := AddNode(index);
      }
    }

    method LoadScalar(ev: Event) returns (s: Status)
      requires ev.ScalarEvent?
      modifies this`nodes, this`aliases
      ensures Outcome(s) == Step(old(St()), ev)
    {
      var index;
      s, index := Push(ev);
    }

    /** A sequence or a mapping; its index goes on the stack. */
    method LoadCollection(ev: Event) returns (s: Status)
      requires ev.SequenceStart? || ev.MappingStart?
      modifies this
      ensures Outcome(s) == Step(old(St()), ev)
    {
      var index;
      s, index := Push(ev);
      if s == Done {
        ctx := ctx + [index];
      }
    }

    method LoadEnd(sequence: bool) returns (s: Status)
      modifies this`ctx
      ensures Outcome(s) == Close(old(St()), sequence)
    {
      if ctx == [] {
        return Asserted;
      }
      var index := ctx[|ctx| - 1];
      if !(1 <= index <= |nodes|) || !(if sequence then nodes[index - 1].Sequence? else nodes[index - 1].Mapping?) {
        return Asserted;
      }
      ctx := ctx[..|ctx| - 1];
      s := Done;
    }

    method Load(ev: Event) returns (s: Status)
      modifies this
      ensures Outcome(s) == Step(old(St()), ev)
    {
      match ev {
        case Alias(anchor) => s := LoadAlias(anchor);
        case ScalarEvent(_, _, _, _) => s := LoadScalar(ev);
        case SequenceStart(_, _, _) => s := LoadCollection(ev);
        case MappingStart(_, _, _) => s := LoadCollection(ev);
        case SequenceEnd => s := LoadEnd(true);
        case MappingEnd => s := LoadEnd(false);
        case DocumentEnd => s := Done;
        case _ => s := Asserted;
      }
    }

    /** yaml_parser_load_nodes, with the events the parser delivers up to the end of the document. */
    method LoadNodes(events: seq<Event>) returns (s: Status)
      requires events != [] && events[|events| - 1].DocumentEnd?
      requires forall k :: 0 <= k < |events| - 1 ==> !events[k].DocumentEnd?
      modifies this
      ensures Outcome(s) == LoadAll(old(St()), events)
      ensures s == Done ==> forall k :: 0 <= k < |events| && events[k].Alias? ==>
        Known(old(St()), events[k].target) || exists j :: 0 <= j < k && Anchors(events[j], events[k].target)
      ensures old(St()) == EMPTY && s == Done ==> LoadLaw.Represents(events, nodes) && LoadLaw.Sound(events)
      ensures old(St()) == EMPTY && s.Error? ==> !LoadLaw.Sound(events)
    {
      hide Step, LoadLaw.Represents, LoadLaw.Sound;
      LoadLaw.Loads(events);
      if LoadAll(St(), events).Loaded? {
        forall k | 0 <= k < |events| && events[k].Alias?
          ensures Known(St(), events[k].target) || exists j :: 0 <= j < k && Anchors(events[j], events[k].target)
        {
          AliasesDeclared(St(), events, k);
        }
      }
      hide Known, Anchors;
      var k := 0;
      ghost var whole := LoadAll(St(), events);
      assert events[0..] == events;
      while true
        invariant k < |events| && whole == LoadAll(St(), events[k..])
        decreases |events| - k
      {
        var ev := events[k];
        assert events[k..][1..] == events[k + 1..];
        s := Load(ev);
        if s != Done {
          return;
        }
        k := k + 1;
        if ev.DocumentEnd? {
          break;
        }
      }
    }
  }

  /** Dump any document and load the events again. */
  method DumpAndLoad(doc: Document) returns (s: Status, copy: Document, ghost order: seq<nat>)
    requires WellFormed(doc) && doc != []
    ensures s == Done && Copy(doc, order, copy)
  {
    hide WellFormed, Copy, LoadAll, Visit;
    var dumper := new Dumper.Dumper(doc);
    dumper.DumpRoot();
    order := dumper.order;
    DumpThenLoad(doc);
    VisitNoEnd(doc, AnchorIds(doc), [], 1);
    var loader := new Loader();
    s := loader.LoadNodes(dumper.events + [DocumentEnd]);
    copy := loader.nodes;
  }
}
