/**
 Block collections as a configuration file writes them: mappings and sequences by indentation, with simple keys. The
 tokens of such a text spell its tree, however deep it is.
 */
module BlockText {
  import opened Options
  import opened EventMachine
  import opened TokenLayout
  import opened LayoutRun

  /** A tree with the items it is written with. */
  datatype Block =
    | Nothing
    | Scalar(item: Item)
    | Mapping(entries: Entries)
    | Sequence(elements: Elements)

  datatype Entries = NoEntry | OneEntry(key: Item, colon: Item, value: Block, rest: Entries)

  datatype Elements = NoElement | OneElement(dash: Item, element: Block, others: Elements)

  /** The items in the order of the text. */
  function Items(b: Block): seq<Item> {
    match b
    case Nothing => []
    case Scalar(item) => [item]
    case Mapping(entries) => EntryItems(entries)
    case Sequence(elements) => ElementItems(elements)
  }

  function EntryItems(es: Entries): seq<Item> {
    match es
    case NoEntry => []
    case OneEntry(key, colon, value, rest) => [key, colon] + Items(value) + EntryItems(rest)
  }

  function ElementItems(es: Elements): seq<Item> {
    match es
    case NoElement => []
    case OneElement(dash, element, others) => [dash] + Items(element) + ElementItems(others)
  }

  /** The tokens that spell the tree. */
  function BlockTokens(b: Block): seq<Token> {
    match b
    case Nothing => []
    case Scalar(item) => [item.token]
    case Mapping(entries) => [BlockMappingStart] + EntryTokens(entries) + [BlockEnd]
    case Sequence(elements) => [BlockSequenceStart] + ElementTokens(elements) + [BlockEnd]
  }

  function EntryTokens(es: Entries): seq<Token> {
    match es
    case NoEntry => []
    case OneEntry(key, _, value, rest) => [Key, key.token, Value] + BlockTokens(value) + EntryTokens(rest)
  }

  function ElementTokens(es: Elements): seq<Token> {
    match es
    case NoElement => []
    case OneElement(_, element, others) => [BlockEntry] + BlockTokens(element) + ElementTokens(others)
  }

  /** May a simple key start behind the block? A plain scalar takes the line breaks behind it along. */
  predicate Allows(b: Block, allowed: bool) {
    match b
    case Nothing => allowed
    case Scalar(item) => item.kind.PlainScalar? && item.allows
    case Mapping(entries) => EntriesAllow(entries, allowed)
    case Sequence(elements) => ElementsAllow(elements, allowed)
  }

  predicate EntriesAllow(es: Entries, allowed: bool) {
    if es.NoEntry? then allowed else EntriesAllow(es.rest, Allows(es.value, false))
  }

  predicate ElementsAllow(es: Elements, allowed: bool) {
    if es.NoElement? then allowed else ElementsAllow(es.others, Allows(es.element, true))
  }

  predicate IsScalarItem(item: Item) {
    (item.kind.PlainScalar? || item.kind.QuotedScalar?) && item.good && item.token.ScalarToken?
  }

  /** The block is indented deeper than `indent`; keys stand one below the other at the start of a line or behind a
      dash, each with its colon on the same line and at most 1024 characters behind; so do dashes. */
  predicate WellLaid(b: Block, indent: int, allowed: bool) {
    match b
    case Nothing => true
    case Scalar(item) => IsScalarItem(item) && indent < item.at.column
    case Mapping(entries) =>
      entries.OneEntry? && indent < entries.key.at.column && EntriesLaid(entries, entries.key.at.column, allowed)
    case Sequence(elements) =>
      elements.OneElement? && indent < elements.dash.at.column
      && ElementsLaid(elements, elements.dash.at.column, allowed)
  }

  predicate EntriesLaid(es: Entries, column: nat, allowed: bool) {
    es.OneEntry? ==>
      && IsScalarItem(es.key) && es.key.at.column == column && (allowed || es.key.newLine)
      && es.colon.kind.Colon? && es.colon.at.line == es.key.at.line && es.colon.at.column >= column
      && es.colon.at.index <= es.key.at.index + 1024
      && WellLaid(es.value, column, false) && EntriesLaid(es.rest, column, Allows(es.value, false))
  }

  predicate ElementsLaid(es: Elements, column: nat, allowed: bool) {
    es.OneElement? ==>
      && es.dash.kind.Dash? && es.dash.at.column == column && (allowed || es.dash.newLine)
      && WellLaid(es.element, column, true) && ElementsLaid(es.others, column, Allows(es.element, true))
  }

  // ----- walking over items -----------------------------------------------------------------------------

  function Walk(l: Layout, items: seq<Item>): (r: Option<Layout>)
    requires l.Ok()
    ensures r.Some? ==> r.value.Ok()
    decreases |items|
  {
    if items == [] then Some(l)
    else
      var r := Step(l, items[0]);
      if r.None? then None else Walk(r.value, items[1..])
  }

  lemma {:induction false} WalkConcat(l: Layout, a: seq<Item>, b: seq<Item>)
    requires l.Ok()
    ensures Walk(l, a + b) == if Walk(l, a).None? then None else Walk(Walk(l, a).value, b)
    decreases |a|
  {
    hide Step;
    if a == [] {
      assert a + b == b;
    } else {
      assert (a + b)[0] == a[0] && (a + b)[1..] == a[1..] + b;
      if Step(l, a[0]).Some? { WalkConcat(Step(l, a[0]).value, a[1..], b); }
    }
  }

  lemma WalkOne(l: Layout, item: Item)
    requires l.Ok()
    ensures Walk(l, [item]) == Step(l, item)
  {
    hide Step;
    if Step(l, item).Some? {
      assert [item][1..] == [];
      assert Walk(Step(l, item).value, []) == Step(l, item);
    }
  }

  lemma {:induction false} LayingWalks(items: seq<Item>)
    ensures Laying(items) == Walk(START, items)
    decreases |items|
  {
    hide Step;
    if items != [] {
      var n := |items| - 1;
      LayingWalks(items[..n]);
      WalkConcat(START, items[..n], [items[n]]);
      assert items == items[..n] + [items[n]];
      if Laying(items[..n]).Some? { WalkOne(Laying(items[..n]).value, items[n]); }
    }
  }

  // ----- levels -------------------------------------------------------------------------------------------

  /** In block context, with no key that must not be given up. */
  ghost predicate At(l: Layout, allowed: bool) { l.Ok() && l.InBlock() && !l.Required() && l.allowed == allowed }

  /** The levels are `open` and deeper ones than `column`. */
  ghost predicate Over(levels: seq<int>, open: seq<int>, column: int) {
    |open| <= |levels| && levels[..|open|] == open && forall k :: |open| <= k < |levels| ==> levels[k] > column
  }

  lemma MoreEnds(m: nat, n: nat)
    ensures Ends(m) + Ends(n) == Ends(m + n)
  {
  }

  /** An item in a column ends exactly the deeper levels. */
  lemma SkippedOver(l: Layout, item: Item, open: seq<int>)
    requires At(l, l.allowed) && Over(l.levels, open, item.at.column) && open != []
    requires open[|open| - 1] <= item.at.column
    ensures NoneStaleRequired(l.keys, item.at)
    ensures var m := Skipped(l, item);
      && At(m, l.allowed || item.newLine) && m.levels == open && m.all == l.all + Ends(|l.levels| - |open|)
  {
    ShallowIs(l.levels, |open|, item.at.column);
  }

  /** The levels when a collection in this column has begun. */
  function WithColumn(open: seq<int>, column: nat): seq<int>
    requires open != []
  {
    if open[|open| - 1] < column then open + [column] else open
  }

  // ----- what each part adds ------------------------------------------------------------------------------

  /** A simple key and its colon. */
  lemma KeyLays(l: Layout, key: Item, colon: Item, open: seq<int>)
    requires At(l, l.allowed) && IsScalarItem(key) && (l.allowed || key.newLine)
    requires Over(l.levels, open, key.at.column) && open != [] && open[|open| - 1] <= key.at.column
    requires colon.kind.Colon? && colon.at.line == key.at.line && colon.at.column >= key.at.column
    requires colon.at.index <= key.at.index + 1024
    ensures Walk(l, [key, colon]).Some?
    ensures var r := Walk(l, [key, colon]).value;
      && At(r, false) && r.levels == WithColumn(open, key.at.column)
      && r.all == l.all + Ends(|l.levels| - |open|) + Opening(BlockMappingStart, open[|open| - 1] < key.at.column)
                  + [Key, key.token, Value]
  {
    hide Over, Ends, Walk;
    SkippedOver(l, key, open);
    var m := Skipped(l, key);
    KeySaved(m, key, colon);
    var k := Carry(m, key.token, key.at, key.kind.PlainScalar? && key.allows);
    assert Step(l, key) == Some(k);
    SkippedSame(k, colon);
    ColonStep(m, k, key, colon);
    TwoSteps(l, key, colon);
  }

  /** A line in the column of a block collection that is no entry of it - without a value indicator on the line, or with
      one more than 1024 characters behind its start - is an error: "could not find expected ':'". */
  lemma MissingValue(l: Layout, key: Item, next: Item, open: seq<int>)
    requires At(l, l.allowed) && IsScalarItem(key) && (l.allowed || key.newLine)
    requires Over(l.levels, open, key.at.column) && open != [] && open[|open| - 1] == key.at.column
    requires next.at.line > key.at.line || next.at.index > key.at.index + 1024
    ensures Walk(l, [key, next]).None?
  {
    hide Over, Ends, Walk;
    SkippedOver(l, key, open);
    var m := Skipped(l, key);
    var k := Carry(m, key.token, key.at, key.kind.PlainScalar? && key.allows);
    assert Step(l, key) == Some(k);
    assert k.keys[0] == SimpleKey(true, true, |m.all|, key.at) && IsStale(k.keys[0], next.at);
    TwoSteps(l, key, next);
  }

  lemma TwoSteps(l: Layout, a: Item, b: Item)
    requires l.Ok() && Step(l, a).Some?
    ensures Walk(l, [a, b]) == Step(Step(l, a).value, b)
  {
    hide Step;
    WalkOne(l, a);
    WalkOne(Step(l, a).value, b);
    WalkConcat(l, [a], [b]);
    assert [a] + [b] == [a, b];
  }

  lemma KeySaved(m: Layout, key: Item, colon: Item)
    requires At(m, true) && colon.at.line == key.at.line && colon.at.index <= key.at.index + 1024
    ensures m.Saved(key.at) == [SimpleKey(true, m.Indent() == key.at.column, |m.all|, key.at)]
    ensures !IsStale(m.Saved(key.at)[0], colon.at)
  {
  }

  lemma ColonStep(m: Layout, k: Layout, key: Item, colon: Item)
    requires At(m, true) && m.Indent() <= key.at.column && colon.kind.Colon? && k.levels == m.levels
    requires k.all == m.all + [key.token] && |k.keys| == 1 && k.Key().possible && k.Key().tokenNumber == |m.all|
    requires k.Key().mark == key.at && Skipped(k, colon) == k.(allowed := k.allowed || colon.newLine)
    requires NoneStaleRequired(k.keys, colon.at)
    ensures Step(k, colon).Some?
    ensures var r := Step(k, colon).value;
      && At(r, false) && r.levels == WithColumn(m.levels, key.at.column)
      && r.all == m.all + Opening(BlockMappingStart, m.Indent() < key.at.column) + [Key, key.token, Value]
  {
    hide Skipped, NoneStaleRequired;
    assert k.all[..|m.all|] == m.all && k.all[|m.all|..] == [key.token];
  }

  /** A dash. */
  lemma DashLays(l: Layout, dash: Item, open: seq<int>)
    requires At(l, l.allowed) && dash.kind.Dash? && (l.allowed || dash.newLine)
    requires Over(l.levels, open, dash.at.column) && open != [] && open[|open| - 1] <= dash.at.column
    ensures Step(l, dash).Some?
    ensures var r := Step(l, dash).value;
      && At(r, true) && r.levels == WithColumn(open, dash.at.column)
      && r.all == l.all + Ends(|l.levels| - |open|) + Opening(BlockSequenceStart, open[|open| - 1] < dash.at.column)
                  + [BlockEntry]
  {
    hide Over, Ends;
    SkippedOver(l, dash, open);
  }

  lemma OverSelf(levels: seq<int>, column: int)
    ensures Over(levels, levels, column)
  {
    assert levels[..|levels|] == levels;
  }

  lemma NoEnds(all: seq<Token>)
    ensures all + Ends(0) == all
  {
  }

  lemma ScalarLays(l: Layout, item: Item)
    requires At(l, l.allowed) && IsScalarItem(item) && l.Indent() < item.at.column
    ensures Walk(l, [item]).Some?
    ensures var r := Walk(l, [item]).value;
      && At(r, item.kind.PlainScalar? && item.allows) && r.levels == l.levels && r.all == l.all + [item.token]
  {
    hide Over, Ends, Walk, Skipped, NoneStaleRequired;
    OverSelf(l.levels, item.at.column);
    SkippedOver(l, item, l.levels);
    NoEnds(l.all);
    WalkOne(l, item);
  }

  /** A block adds its text, apart from the ends that its open levels still owe. */
  lemma {:induction false} BlockLays(l: Layout, b: Block)
    requires At(l, l.allowed) && WellLaid(b, l.Indent(), l.allowed)
    ensures Walk(l, Items(b)).Some?
    ensures var r := Walk(l, Items(b)).value;
      && At(r, Allows(b, l.allowed)) && Over(r.levels, l.levels, l.Indent())
      && r.all + Ends(|r.levels| - |l.levels|) == l.all + BlockTokens(b)
    decreases b
  {
    hide At, Walk;
    AtIs(l, l.allowed);
    assert Ends(0) == [] && l.all + [] == l.all;
    match b {
      case Nothing => WalkNone(l);
      case Scalar(item) => ScalarLays(l, item);
      case Mapping(entries) => {
        EntriesLay(l, entries, entries.key.at.column, l.levels);
        var r := Walk(l, Items(b)).value;
        MoreEnds(|r.levels| - |l.levels| - 1, 1);
        Closes(l.all, r.all, |r.levels| - |l.levels| - 1, [BlockMappingStart], EntryTokens(entries));
        OverOuter(r.levels, l.levels, l.Indent(), entries.key.at.column);
      }
      case Sequence(elements) => {
        ElementsLay(l, elements, elements.dash.at.column, l.levels);
        var r := Walk(l, Items(b)).value;
        Closes(l.all, r.all, |r.levels| - |l.levels| - 1, [BlockSequenceStart], ElementTokens(elements));
        OverOuter(r.levels, l.levels, l.Indent(), elements.dash.at.column);
      }
    }
  }

  lemma WalkNone(l: Layout)
    requires l.Ok()
    ensures Walk(l, []) == Some(l)
  {
  }

  lemma Closes(before: seq<Token>, all: seq<Token>, n: nat, start: seq<Token>, text: seq<Token>)
    requires all + Ends(n) == before + Ends(0) + start + text
    ensures all + Ends(n + 1) == before + (start + text + [BlockEnd])
  {
    OneMoreEnd(n);
    assert all + Ends(n + 1) == all + Ends(n) + [BlockEnd];
  }

  lemma OverOuter(levels: seq<int>, open: seq<int>, indent: int, column: nat)
    requires open != [] && open[|open| - 1] == indent < column && Over(levels, WithColumn(open, column), column)
    ensures Over(levels, open, indent)
  {
    assert (open + [column])[..|open|] == open;
    assert levels[..|open|] == levels[..|open| + 1][..|open|];
    assert levels[|open|] == levels[..|open| + 1][|open|];
  }

  /** Entries add their text; the levels `open` stay open, with that of the entries. */
  lemma {:induction false} EntriesLay(l: Layout, es: Entries, column: nat, open: seq<int>)
    requires At(l, l.allowed) && EntriesLaid(es, column, l.allowed) && open != [] && Over(l.levels, open, column)
    requires open[|open| - 1] == column || (open[|open| - 1] < column && es.OneEntry?)
    ensures Walk(l, EntryItems(es)).Some?
    ensures var r := Walk(l, EntryItems(es)).value;
      && At(r, EntriesAllow(es, l.allowed)) && Over(r.levels, WithColumn(open, column), column)
      && r.all + Ends(|r.levels| - |WithColumn(open, column)|)
         == l.all + Ends(|l.levels| - |open|) + Opening(BlockMappingStart, open[|open| - 1] < column) + EntryTokens(es)
    decreases es
  {
    hide At, Walk, Over, Ends, Opening;
    AtIs(l, l.allowed);
    OverLength(l.levels, open, column);
    match es {
      case NoEntry => NoneLay(l, open, column, BlockMappingStart);
      case OneEntry(key, colon, value, rest) => {
        KeyLays(l, key, colon, open);
        var k := Walk(l, [key, colon]).value;
        LevelsOver(open, column);
        AtIs(k, false);
        BlockLays(k, value);
        var v := Walk(k, Items(value)).value;
        AtIs(v, Allows(value, false));
        EntriesLay(v, rest, column, k.levels);
        WalkConcat(l, [key, colon], Items(value));
        WalkConcat(l, [key, colon] + Items(value), EntryItems(rest));
        NoOpening(BlockMappingStart);
        var head := l.all + Ends(|l.levels| - |open|) + Opening(BlockMappingStart, open[|open| - 1] < column);
        Chain(head, [Key, key.token, Value], BlockTokens(value), EntryTokens(rest));
      }
    }
  }

  lemma NoneLay(l: Layout, open: seq<int>, column: nat, start: Token)
    requires At(l, l.allowed) && open != [] && open[|open| - 1] == column && |open| <= |l.levels|
    ensures Walk(l, []) == Some(l) && WithColumn(open, column) == open
    ensures var n := |l.levels| - |open|; l.all + Ends(n) + Opening(start, false) + [] == l.all + Ends(n)
  {
  }

  lemma OverLength(levels: seq<int>, open: seq<int>, column: int)
    requires Over(levels, open, column)
    ensures |open| <= |levels|
  {
  }

  lemma LevelsOver(open: seq<int>, column: nat)
    requires open != [] && open[|open| - 1] <= column
    ensures var levels := WithColumn(open, column);
      && levels != [] && levels[|levels| - 1] == column && WithColumn(levels, column) == levels
  {
  }

  lemma AtIs(l: Layout, allowed: bool)
    requires At(l, allowed)
    ensures l.Ok() && l.allowed == allowed && At(l, l.allowed)
  {
  }

  lemma NoOpening(t: Token)
    ensures Opening(t, false) == []
  {
  }

  lemma Chain(head: seq<Token>, a: seq<Token>, b: seq<Token>, c: seq<Token>)
    ensures head + a + b + [] + c == head + (a + b + c) && head + a + b + c == head + (a + b + c)
  {
  }

  lemma {:induction false} ElementsLay(l: Layout, es: Elements, column: nat, open: seq<int>)
    requires At(l, l.allowed) && ElementsLaid(es, column, l.allowed) && open != [] && Over(l.levels, open, column)
    requires open[|open| - 1] == column || (open[|open| - 1] < column && es.OneElement?)
    ensures Walk(l, ElementItems(es)).Some?
    ensures var r := Walk(l, ElementItems(es)).value;
      && At(r, ElementsAllow(es, l.allowed)) && Over(r.levels, WithColumn(open, column), column)
      && r.all + Ends(|r.levels| - |WithColumn(open, column)|)
         == l.all + Ends(|l.levels| - |open|) + Opening(BlockSequenceStart, open[|open| - 1] < column)
            + ElementTokens(es)
    decreases es
  {
    hide At, Walk, Over, Ends, Opening, Step;
    AtIs(l, l.allowed);
    OverLength(l.levels, open, column);
    match es {
      case NoElement => NoneLay(l, open, column, BlockSequenceStart);
      case OneElement(dash, element, others) => {
        DashLays(l, dash, open);
        WalkOne(l, dash);
        var d := Step(l, dash).value;
        LevelsOver(open, column);
        AtIs(d, true);
        BlockLays(d, element);
        var v := Walk(d, Items(element)).value;
        AtIs(v, Allows(element, true));
        ElementsLay(v, others, column, d.levels);
        WalkConcat(l, [dash], Items(element));
        WalkConcat(l, [dash] + Items(element), ElementItems(others));
        NoOpening(BlockSequenceStart);
        var head := l.all + Ends(|l.levels| - |open|) + Opening(BlockSequenceStart, open[|open| - 1] < column);
        Chain(head, [BlockEntry], BlockTokens(element), ElementTokens(others));
      }
    }
  }

  /** The tokens of a text that is one block, whatever its tree: those that spell it. */
  lemma BlockScans(b: Block, end: Item)
    requires WellLaid(b, -1, true) && end.kind.AtEnd?
    ensures Scanned(Items(b) + [end]) == Some([StreamStartToken] + BlockTokens(b) + [StreamEndToken])
  {
    hide At, Walk, Over, Ends, Step;
    StartAt();
    BlockLays(START, b);
    var r := Walk(START, Items(b)).value;
    AtIs(r, Allows(b, true));
    OverLength(r.levels, START.levels, -1);
    WalkConcat(START, Items(b), [end]);
    WalkOne(r, end);
    LayingWalks(Items(b) + [end]);
    EndLays(r, end);
    assert [StreamStartToken] + BlockTokens(b) == START.all + BlockTokens(b);
  }

  lemma StartAt()
    ensures At(START, true) && START.Indent() == -1
  {
  }

  /** At the end of the text all levels end. */
  lemma EndLays(r: Layout, end: Item)
    requires At(r, r.allowed) && end.kind.AtEnd? && Over(r.levels, [-1], -1)
    ensures Step(r, end).Some? && NoneRequired(Step(r, end).value.keys)
    ensures Step(r, end).value.all == r.all + Ends(|r.levels| - 1) + [StreamEndToken]
  {
    var m := Skipped(r, end);
    MoreEnds(|r.levels| - |m.levels|, |m.levels| - 1);
  }
}
