/**
 Parsing and loading from tokens: yaml_parser_parse called again and again, and yaml_parser_load.
 */
module ParseLoad {
  import opened Options
  import opened YamlGraph
  import opened Nesting
  import opened EventMachine
  import opened YamlParser
  import opened LoadSpec
  import opened Compose
  import opened Spelling
  import opened SpellingParses
  import opened TokenWriter
  import opened Conveying
  import L = Loader
  import LoadLaw

  /** A key waits for its value. */
  predicate Pending(n: Nest) { n.Open? && n.stack != [] && n.stack[|n.stack| - 1] == Map(true) }

  /** Every event carries what its tokens say: event `k` was read from the tokens from `cuts[k]` to `cuts[k + 1]`, with
      the tag handles `known[k]`. */
  ghost predicate Told(tokens: seq<Token>, events: seq<Event>, cuts: seq<nat>, known: seq<Directives>) {
    && |cuts| == |known| == |events| + 1 && cuts[0] == 0 && known[0] == []
    && forall k :: 0 <= k < |events| ==> TellsOne(tokens, events, cuts, known, k)
  }

  ghost predicate TellsOne(tokens: seq<Token>, events: seq<Event>, cuts: seq<nat>, known: seq<Directives>, k: nat)
    requires k < |events| && k + 1 < |cuts| && k + 1 < |known|
  {
    && AcceptAll(Unstarted, events[..k]).Some?
    && Conveys(tokens, cuts[k], cuts[k + 1], Pending(AcceptAll(Unstarted, events[..k]).value), known[k], events[k],
               known[k + 1])
  }

  lemma ToldNext(tokens: seq<Token>, events: seq<Event>, cuts: seq<nat>, known: seq<Directives>, n: Nest, ev: Event,
                 to: nat, known': Directives)
    requires Told(tokens, events, cuts, known) && AcceptAll(Unstarted, events) == Some(n)
    requires Conveys(tokens, cuts[|events|], to, Pending(n), known[|events|], ev, known')
    ensures Told(tokens, events + [ev], cuts + [to], known + [known'])
  {
    hide Conveys, AcceptAll;
    var es, cs, ks := events + [ev], cuts + [to], known + [known'];
    forall k | 0 <= k < |es| ensures TellsOne(tokens, es, cs, ks, k) {
      if k < |events| {
        assert TellsOne(tokens, events, cuts, known, k);
        assert es[..k] == events[..k];
      } else {
        assert es[..k] == events;
      }
    }
  }

  lemma ParserReady(parser: Parser)
    requires parser.Valid()
    ensures Poised(parser.tokens, parser.Now())
    ensures Pending(parser.Nest()) == WaitsForValue(parser.state)
      || parser.state in {DocumentContent, BlockNode, BlockNodeOrIndentless, FlowNode}
  {
  }

  /** Parse any sequence of tokens. The events are the beginning of a well-nested stream, `rest` being a way to go on,
      and they are the whole of one if no error stops the parser; they are those of the machine, and each carries what
      the tokens read for it say. */
  method ParseAll(tokens: seq<Token>)
    returns (events: seq<Event>, finished: bool, ghost rest: seq<Event>, ghost last: Machine, ghost cuts: seq<nat>,
             ghost known: seq<Directives>)
    ensures AcceptAll(Unstarted, events + rest) == Some(Closed)
    ensures finished ==> AcceptAll(Unstarted, events) == Some(Closed)
    ensures Yields(tokens, START, events, last) && Move(tokens, last).Stuck? && (finished <==> last.state == End)
    ensures Told(tokens, events, cuts, known)
  {
    hide Parser.Nest, Accept, AcceptAll, Proper, Move, Conveys, Told, Pending;
    var parser := new Parser(tokens);
    events, finished, cuts, known := [], true, [0], [[]];
    NoEvents();
    NothingTold(tokens);
    while parser.state != End
      invariant parser.Valid() && AcceptAll(Unstarted, events) == Some(parser.Nest()) && parser.tokens == tokens
      invariant Yields(tokens, START, events, parser.Now()) && Told(tokens, events, cuts, known)
      invariant |cuts| == |known| == |events| + 1
      invariant cuts[|events|] == parser.pos && known[|events|] == parser.tagDirectives
      decreases parser.Left()
    {
      ParserReady(parser);
      ghost var n, m := parser.Nest(), parser.Now();
      var ev := parser.Next();
      if ev.None? {
        last := m;
        finished := false;
        break;
      }
      MoveConveys(tokens, m, Pending(n));
      ToldNext(tokens, events, cuts, known, n, ev.value, parser.pos, parser.tagDirectives);
      YieldsNext(tokens, START, events, m, ev.value);
      AcceptSnoc(Unstarted, events, ev.value);
      events, cuts, known := events + [ev.value], cuts + [parser.pos], known + [parser.tagDirectives];
    }
    if finished {
      EndNest(parser);
      last := parser.Now();
      EndStuck(tokens, last);
    }
    AcceptedProper(events);
    rest := Completable(AcceptAll(Unstarted, events).value);
    AcceptConcat(Unstarted, events, rest);
  }

  lemma NothingTold(tokens: seq<Token>)
    ensures Told(tokens, [], [0], [[]])
  {
  }

  lemma EndStuck(tokens: seq<Token>, m: Machine)
    requires m.state == End
    ensures Move(tokens, m).Stuck?
  {
  }

  /** Write any complete stream of events as tokens and parse them: exactly the events come back. */
  method WriteThenParse(events: seq<Event>) returns (parsed: seq<Event>, finished: bool)
    requires AcceptAll(Unstarted, events) == Some(Closed) && StylesOk(Unbegun, events)
    ensures finished && parsed == events
  {
    TokensSpell(Unbegun, events);
    parsed, finished := ParseSpelled(events, Choices(events), Tokens(events));
  }

  /** Parse a stream that is spelled by the grammar, in whatever way. */
  method ParseSpelled(ghost events: seq<Event>, ghost choices: seq<Choice>, tokens: seq<Token>)
    returns (parsed: seq<Event>, finished: bool)
    requires Spelled(Unbegun, events, choices, tokens)
    ensures finished && parsed == events && AcceptAll(Unstarted, events) == Some(Closed)
  {
    hide Spelled, Move, Told;
    ghost var m := SpelledParses(events, choices, tokens);
    EndStuck(tokens, m);
    ghost var rest, last, cuts, known;
    parsed, finished, rest, last, cuts, known := ParseAll(tokens);
    Determined(tokens, START, events, m, parsed, last);
  }

  lemma NoEvents()
    ensures AcceptAll(Unstarted, []) == Some(Unstarted)
  {
  }

  lemma EndNest(parser: Parser)
    requires parser.Valid() && parser.state == End
    ensures parser.Nest() == Closed
  {
  }

  /** The document that follows a DOCUMENT-START event. No assertion fails, and a document that is loaded has complete
      pairs only; it is what the parser's events say. */
  method LoadDocument(parser: Parser, loader: L.Loader)
    returns (ok: bool, status: L.Status, ghost events: seq<Event>)
    requires parser.Valid() && parser.Nest() == Nesting.Open([Doc(false)]) && loader.St() == EMPTY
    modifies parser, loader
    ensures status != L.Asserted && (ok ==> status == L.Done)
    ensures ok ==> parser.Valid() && parser.Nest() == Nesting.Open([]) && loader.nodes != [] && WellFormed(loader.nodes)
    ensures ok ==> Yields(parser.tokens, old(parser.Now()), events, parser.Now())
    ensures ok ==> LoadAll(EMPTY, events) == Loaded(loader.St()) && LoadLaw.Represents(events, loader.nodes)
  {
    hide Parser.Nest, Accept, Step, WellFormed, Composed, Move, LoadLaw.Represents;
    EmptyComposed();
    ghost var stack := [Doc(false)];
    events := [];
    ghost var start := parser.Now();
    while true
      invariant parser.Valid() && parser.Nest() == Nesting.Open(stack) && Composed(loader.St(), stack) && stack != []
      invariant Yields(parser.tokens, start, events, parser.Now()) && LoadAll(EMPTY, events) == Loaded(loader.St())
      decreases parser.Left()
    {
      NotEnd(parser);
      ghost var m, st := parser.Now(), loader.St();
      var ev := parser.Next();
      if ev.None? {
        return false, L.Done, [];
      }
      ComposeStep(loader.St(), stack, ev.value);
      status := loader.Load(ev.value);
      if status != L.Done {
        return false, status, [];
      }
      YieldsNext(parser.tokens, start, events, m, ev.value);
      LoadNext(events, st, ev.value);
      events := events + [ev.value];
      if ev.value.DocumentEnd? {
        DocumentEnds(stack);
        LoadLaw.Loads(events);
        return true, status, events;
      }
      stack := parser.Nest().stack;
      ComposedStack(loader.St(), stack);
    }
  }

  /** A parser with the error it has reported, if any. */
  class Stream {
    const parser: Parser
    var error: bool

    constructor (tokens: seq<Token>)
      ensures Valid() && !error && parser.Nest() == Unstarted && fresh(parser)
      ensures parser.tokens == tokens && parser.state == StreamStartState && parser.pos == 0
    {
      parser := new Parser(tokens);
      error := false;
    }

    ghost predicate Valid()
      reads this, parser
    {
      !error ==> parser.Valid()
    }

    /** yaml_parser_parse: after an error or the end of the stream it succeeds without an event. */
    method Parse() returns (ok: bool, ev: Option<Event>)
      requires Valid()
      modifies this`error, parser
      ensures Valid()
      ensures old(error) || old(parser.state) == End ==>
        && ok && ev.None? && error == old(error) && (!error ==> parser.Nest() == old(parser.Nest()))
        && parser.state == old(parser.state)
      ensures !old(error) && old(parser.state) != End ==>
        if ok then ev.Some? && !error && Accept(old(parser.Nest()), ev.value) == Some(parser.Nest())
        else ev.None? && error
      ensures !old(error) && old(parser.state) == StreamStartState && old(parser.pos) == |parser.tokens| ==>
        !ok && parser.state == StreamStartState
    {
      hide Accept, Parser.Nest;
      if error || parser.state == End {
        return true, None;
      }
      ev := parser.Next();
      ok := ev.Some?;
      error := !ok;
    }

    /** Between two documents, or before the first or behind the last one. */
    ghost predicate Between()
      reads this, parser
      requires Valid() && !error
    {
      parser.Nest() in {Unstarted, Nesting.Open([]), Closed}
    }

    /** yaml_parser_load. Its assertions on the kinds of events hold if and only if no error has been reported before;
        then a document that is loaded is well formed, and without a further document the result is empty. */
    method Load() returns (ok: bool, loader: L.Loader, status: L.Status)
      requires Valid() && (!error ==> Between())
      modifies this`error, parser
      ensures fresh(loader) && Valid()
      ensures status == L.Asserted <==> old(error && parser.state != End)
      ensures ok && !old(error) ==>
        && !error && parser.Nest() in {Nesting.Open([]), Closed} && WellFormed(loader.nodes)
        && (parser.Nest() == Nesting.Open([]) ==> loader.nodes != [])
      ensures !ok ==> error
      ensures !old(error) && old(parser.state) == StreamStartState && old(parser.pos) == |parser.tokens| ==>
        !ok && parser.state == StreamStartState
    {
      hide AllFrames, AllMarked, AllCost, StatesOk, Frames, Cost, Marked;
      loader := new L.Loader();
      status := L.Done;
      var ev;
      if parser.state == StreamStartState {
        ok, ev := Parse();
        if !ok {
          return;
        }
        if ev.None? || !ev.value.StreamStart? {
          return false, loader, L.Asserted;
        }
      }
      if parser.state == End {
        return true, loader, status;
      }
      ok, ev := Parse();
      if !ok || (ev.Some? && ev.value.StreamEnd?) {
        return;
      }
      if ev.None? || !ev.value.DocumentStart? {
        return false, loader, L.Asserted;
      }
      ghost var events;
      ok, status, events := LoadDocument(parser, loader);
      error := !ok;
    }
  }

  /** Loading again after an error: when the stream breaks off before its first token, the second load fails an
      assertion. */
  method LoadAfterError() returns (first: L.Status, second: L.Status)
    ensures first != L.Asserted && second == L.Asserted
  {
    var stream := new Stream([]);
    var ok, loader;
    ok, loader, first := stream.Load();
    ok, loader, second := stream.Load();
  }

  lemma LoadNext(events: seq<Event>, st: LoadSpec.Loader, ev: Event)
    requires LoadAll(EMPTY, events) == Loaded(st)
    ensures LoadAll(EMPTY, events + [ev]) == Step(st, ev)
  {
    LoadConcat(EMPTY, events, [ev]);
    assert [ev][1..] == [];
  }

  lemma EmptyComposed()
    ensures Composed(EMPTY, [Doc(false)])
  {
  }

  lemma ComposedStack(st: LoadSpec.Loader, stack: seq<Frame>)
    requires Composed(st, stack)
    ensures stack != []
  {
  }

  lemma DocumentEnds(stack: seq<Frame>)
    requires stack != [] && Accept(Nesting.Open(stack), DocumentEnd).Some?
    ensures Accept(Nesting.Open(stack), DocumentEnd) == Some(Nesting.Open([]))
  {
  }

  lemma NotEnd(parser: Parser)
    requires parser.Valid() && parser.Nest().Open?
    ensures parser.state != End && parser.pos <= |parser.tokens|
  {
  }
}
