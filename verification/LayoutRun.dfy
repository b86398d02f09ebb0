/**
 Whole texts: the tokens of a text, and why they do not depend on when stale simple keys are given up.
 */
module LayoutRun {
  import opened Options
  import opened EventMachine
  import opened TokenLayout

  const ORIGIN := Mark(0, 0, 0)
  const START := Layout([StreamStartToken], [-1], [NO_KEY], true)

  /** `b` does not stand before `a`; within a line, columns count characters. */
  predicate Reaches(a: Mark, b: Mark) {
    a.index <= b.index && (a.line < b.line || (a.line == b.line && b.column - a.column == b.index - a.index))
  }

  lemma SameMark(m: Mark)
    ensures Reaches(m, m)
  {
  }

  lemma ReachesOn(a: Mark, b: Mark, c: Mark)
    requires Reaches(a, b) && Reaches(b, c)
    ensures Reaches(a, c)
  {
  }

  /** Where the scanner stands behind an item: the end of the stream starts a new line. */
  function MarkBehind(item: Item): Mark {
    if !item.kind.AtEnd? then item.end
    else if item.at.column == 0 then item.at else Mark(item.at.index, item.at.line + 1, 0)
  }

  function MarkAt(items: seq<Item>, n: nat): Mark
    requires n <= |items|
  {
    if n == 0 then ORIGIN else MarkBehind(items[n - 1])
  }

  /** The items of a text: each is what its kind says, and they stand one behind the other. */
  ghost predicate IsText(items: seq<Item>) {
    forall k :: 0 <= k < |items| ==>
      && ItemOk(items[k]) && Reaches(MarkAt(items, k), items[k].at) && Reaches(items[k].at, MarkBehind(items[k]))
      && (!items[k].kind.AtEnd? ==> items[k].at.index < items[k].end.index)
  }

  lemma TextAt(items: seq<Item>, k: nat)
    requires IsText(items) && k < |items|
    ensures ItemOk(items[k]) && Reaches(MarkAt(items, k), items[k].at) && Reaches(items[k].at, MarkBehind(items[k]))
    ensures !items[k].kind.AtEnd? ==> items[k].at.index < items[k].end.index
  {
  }

  /** A text up to its end. */
  ghost predicate IsWhole(items: seq<Item>) {
    IsText(items) && items != [] && items[|items| - 1].kind.AtEnd?
    && forall k :: 0 <= k < |items| - 1 ==> !items[k].kind.AtEnd?
  }

  /** Skip to an item and place it. */
  function Step(l: Layout, item: Item): (r: Option<Layout>)
    requires l.Ok()
    ensures r.Some? ==> r.value.Ok()
  {
    if NoneStaleRequired(l.keys, item.at) && Accepted(Skipped(l, item), item)
    then Some(Placed(Skipped(l, item), item)) else None
  }

  /** The layout of a text. */
  function Laying(items: seq<Item>): (r: Option<Layout>)
    ensures r.Some? ==> r.value.Ok()
  {
    if items == [] then Some(START)
    else
      var l := Laying(items[..|items| - 1]);
      if l.None? then None else Step(l.value, items[|items| - 1])
  }

  /** The tokens of a whole text: at its end no simple key may be missing its value. */
  function Scanned(items: seq<Item>): Option<seq<Token>> {
    var l := Laying(items);
    if l.Some? && NoneRequired(l.value.keys) then Some(l.value.all) else None
  }

  predicate NoneRequired(keys: seq<SimpleKey>) {
    forall k :: 0 <= k < |keys| ==> !(keys[k].possible && keys[k].required)
  }

  lemma LayingNext(items: seq<Item>, n: nat)
    requires n < |items|
    ensures Laying(items[..n + 1]) ==
            if Laying(items[..n]).None? then None else Step(Laying(items[..n]).value, items[n])
  {
    assert items[..n + 1][..n] == items[..n];
  }

  lemma {:induction false} LayingFails(items: seq<Item>, n: nat)
    requires n <= |items| && Laying(items[..n]).None?
    ensures Laying(items).None?
    decreases |items| - n
  {
    hide Laying;
    if n < |items| {
      LayingNext(items, n);
      LayingFails(items, n + 1);
    } else {
      assert items[..n] == items;
    }
  }

  // ----- stale keys -----------------------------------------------------------------------------------

  /** The layout with the keys given up that are stale at `m`. */
  function Tidy(l: Layout, m: Mark): Layout { l.(keys := Refreshed(l.keys, m)) }

  lemma RefreshedOn(keys: seq<SimpleKey>, a: Mark, b: Mark)
    requires Reaches(a, b) && NoneStaleRequired(keys, a)
    ensures Refreshed(Refreshed(keys, a), b) == Refreshed(keys, b)
    ensures NoneStaleRequired(Refreshed(keys, a), b) <==> NoneStaleRequired(keys, b)
  {
    var r := Refreshed(keys, a);
    forall k | 0 <= k < |keys|
      ensures Refresh(r[k], b) == Refresh(keys[k], b)
      ensures IsStale(r[k], b) && r[k].required <==> IsStale(keys[k], b) && keys[k].required
    {
      assert !(IsStale(keys[k], a) && keys[k].required);
    }
    if NoneStaleRequired(r, b) {
      forall k | 0 <= k < |keys| ensures !(IsStale(keys[k], b) && keys[k].required) {
        assert !(IsStale(r[k], b) && r[k].required);
      }
    }
    if NoneStaleRequired(keys, b) {
      forall k | 0 <= k < |r| ensures !(IsStale(r[k], b) && r[k].required) {
        assert !(IsStale(keys[k], b) && keys[k].required);
      }
    }
  }

  lemma NothingStaleAtOrigin(l: Layout)
    ensures Tidy(l, ORIGIN) == l && NoneStaleRequired(l.keys, ORIGIN)
  {
  }

  /** Giving up stale keys early changes no step. */
  lemma StepTidy(l: Layout, m: Mark, item: Item)
    requires l.Ok() && NoneStaleRequired(l.keys, m) && Reaches(m, item.at)
    ensures Step(Tidy(l, m), item) == Step(l, item)
  {
    RefreshedOn(l.keys, m, item.at);
  }

  /** Where no key is stale and no collection ends, skipping changes nothing but what a new line allows. */
  lemma SkippedSame(l: Layout, item: Item)
    requires l.Ok() && (forall k :: 0 <= k < |l.keys| ==> !IsStale(l.keys[k], item.at))
    requires l.InBlock() ==> l.Indent() <= item.at.column
    ensures NoneStaleRequired(l.keys, item.at)
    ensures Skipped(l, item) == l.(allowed := l.allowed || (item.newLine && l.InBlock()))
  {
    assert Refreshed(l.keys, item.at) == l.keys;
    assert l.all + Ends(0) == l.all;
  }

  // ----- the end of the text ----------------------------------------------------------------------------

  ghost predicate KeysBefore(keys: seq<SimpleKey>, m: Mark) {
    forall k :: 0 <= k < |keys| && keys[k].possible ==> keys[k].mark.index < m.index && Reaches(keys[k].mark, m)
  }

  lemma KeysBeforeOn(keys: seq<SimpleKey>, a: Mark, b: Mark)
    requires KeysBefore(keys, a) && Reaches(a, b)
    ensures KeysBefore(keys, b)
  {
  }

  lemma StepKeys(l: Layout, item: Item, at: Mark)
    requires l.Ok() && KeysBefore(l.keys, at) && Reaches(at, item.at) && Reaches(item.at, MarkBehind(item))
    requires Step(l, item).Some? && (!item.kind.AtEnd? ==> item.at.index < item.end.index)
    ensures KeysBefore(Step(l, item).value.keys, MarkBehind(item))
  {
    hide Shallow, Ends, Accepted, NoneStaleRequired, WithKey, Opening, Spoken, Layout.LevelsWith, MarkBehind, Reaches;
    ReachesOn(at, item.at, MarkBehind(item));
    KeysBeforeOn(l.keys, at, MarkBehind(item));
    RefreshedBefore(l.keys, item.at, MarkBehind(item));
    SaysMark(item);
    PlacedBefore(Skipped(l, item), item, MarkBehind(item));
  }

  lemma SaysMark(item: Item)
    requires !item.kind.AtEnd? ==> item.at.index < item.end.index
    ensures !item.kind.AtEnd? ==> item.at.index < MarkBehind(item).index
  {
  }

  lemma RefreshedBefore(keys: seq<SimpleKey>, at: Mark, m: Mark)
    requires KeysBefore(keys, m)
    ensures KeysBefore(Refreshed(keys, at), m)
  {
  }

  lemma SavedBefore(l: Layout, at: Mark, m: Mark)
    requires l.Ok() && KeysBefore(l.keys, m) && Reaches(at, m) && at.index < m.index
    ensures KeysBefore(l.Saved(at), m)
  {
  }

  lemma FewerBefore(keys: seq<SimpleKey>, m: Mark)
    requires KeysBefore(keys, m)
    ensures KeysBefore(GivenUp(keys), m) && (keys != [] ==> KeysBefore(keys[..|keys| - 1], m))
  {
  }

  lemma EnterBefore(keys: seq<SimpleKey>, m: Mark)
    requires KeysBefore(keys, m)
    ensures KeysBefore(keys + [NO_KEY], m)
  {
  }

  lemma PlacedBefore(l: Layout, item: Item, m: Mark)
    requires l.Ok() && KeysBefore(l.keys, m) && Reaches(item.at, m) && (!item.kind.AtEnd? ==> item.at.index < m.index)
    ensures KeysBefore(Placed(l, item).keys, m)
  {
    hide KeysBefore, Reaches, GivenUp, Layout.Saved, Ends, WithKey, Opening, Spoken, Layout.LevelsWith;
    FewerBefore(l.keys, m);
    if !item.kind.AtEnd? {
      SavedBefore(l, item.at, m);
      EnterBefore(l.Saved(item.at), m);
    }
  }

  lemma {:induction false} LayingKeys(items: seq<Item>, n: nat)
    requires n <= |items| && IsText(items) && Laying(items[..n]).Some?
    ensures KeysBefore(Laying(items[..n]).value.keys, MarkAt(items, n))
  {
    hide Step, KeysBefore, Laying, IsText, Reaches, MarkBehind;
    if n > 0 {
      TextAt(items, n - 1);
      LayingNext(items, n - 1);
      LayingKeys(items, n - 1);
      StepKeys(Laying(items[..n - 1]).value, items[n - 1], MarkAt(items, n - 1));
    } else {
      NoKeysAtFirst(items);
    }
  }

  lemma NoKeysAtFirst(items: seq<Item>)
    ensures Laying(items[..0]) == Some(START) && KeysBefore(START.keys, ORIGIN)
  {
  }

  /** At the end of the text all keys are stale. */
  lemma AllStale(items: seq<Item>)
    requires IsWhole(items) && Laying(items).Some?
    ensures var l := Laying(items).value;
      && (forall k :: 0 <= k < |l.keys| && l.keys[k].possible ==> IsStale(l.keys[k], MarkBehind(items[|items| - 1])))
  {
    var n := |items| - 1;
    var item := items[n];
    assert items[..n + 1] == items;
    LayingNext(items, n);
    LayingKeys(items, n);
    EndKeys(Laying(items[..n]).value, item, MarkAt(items, n));
  }

  lemma EndKeys(l: Layout, item: Item, at: Mark)
    requires l.Ok() && KeysBefore(l.keys, at) && Reaches(at, item.at) && item.kind.AtEnd? && Step(l, item).Some?
    ensures forall k :: 0 <= k < |Step(l, item).value.keys| && Step(l, item).value.keys[k].possible ==>
      IsStale(Step(l, item).value.keys[k], MarkBehind(item))
  {
    hide Shallow, Ends;
    KeysBeforeOn(l.keys, at, item.at);
    assert KeysBefore(Skipped(l, item).keys, item.at);
  }

  lemma EndsNoEnd(all: seq<Token>, n: nat)
    requires StreamEndToken !in all
    ensures StreamEndToken !in all + Ends(n)
  {
  }

  lemma WithKeyNoEnd(all: seq<Token>, n: nat, opens: bool)
    requires StreamEndToken !in all
    ensures StreamEndToken !in WithKey(all, n, opens)
  {
  }

  lemma OpeningNoEnd(all: seq<Token>, t: Token, opens: bool)
    requires StreamEndToken !in all && t != StreamEndToken
    ensures StreamEndToken !in all + Opening(t, opens)
  {
  }

  lemma SpokenNoEnd(item: Item)
    requires ItemOk(item) && !item.kind.Unknown?
    ensures Spoken(item) == StreamEndToken <==> item.kind.AtEnd?
  {
  }

  /** The tokens of a step are others in front and that of the item at the end. */
  lemma StepNoEnd(l: Layout, item: Item)
    requires l.Ok() && Step(l, item).Some? && ItemOk(item) && StreamEndToken !in l.all
    ensures var all := Step(l, item).value.all;
      && all != [] && StreamEndToken !in all[..|all| - 1]
      && (all[|all| - 1] == StreamEndToken <==> item.kind.AtEnd?)
  {
    hide Shallow, Ends, WithKey, Opening, Spoken, GivenUp, Layout.Saved, Layout.LevelsWith, Refreshed,
         NoneStaleRequired, ItemOk;
    var s := Skipped(l, item);
    EndsNoEnd(l.all, |l.levels| - |s.levels|);
    SpokenNoEnd(item);
    ghost var before :=
      match item.kind
      case AtEnd | Directive | DocumentIndicator(_) => s.all + Ends(if s.InBlock() then |s.levels| - 1 else 0)
      case Dash => s.all + Opening(BlockSequenceStart, s.Opens(item.at.column))
      case Question => s.all + Opening(BlockMappingStart, s.Opens(item.at.column))
      case Colon =>
        if s.Key().possible then WithKey(s.all, s.Key().tokenNumber, s.Opens(s.Key().mark.column))
        else s.all + Opening(BlockMappingStart, s.Opens(item.at.column))
      case _ => s.all;
    EndsNoEnd(s.all, if s.InBlock() then |s.levels| - 1 else 0);
    WithKeyNoEnd(s.all, s.Key().tokenNumber, s.Opens(s.Key().mark.column));
    OpeningNoEnd(s.all, BlockSequenceStart, s.Opens(item.at.column));
    OpeningNoEnd(s.all, BlockMappingStart, s.Opens(item.at.column));
    assert StreamEndToken !in before;
    SpokenValue(item);
    assert Placed(s, item).all == before + [Spoken(item)];
  }

  lemma SpokenValue(item: Item)
    ensures item.kind.Colon? ==> Spoken(item) == Value
  {
  }

  /** STREAM-END is the last token, and only of a whole text. */
  lemma {:induction false} EndLast(items: seq<Item>, n: nat)
    requires n <= |items| && IsText(items) && Laying(items[..n]).Some?
    requires forall k :: 0 <= k < n ==> !items[k].kind.AtEnd?
    ensures StreamEndToken !in Laying(items[..n]).value.all
  {
    hide Step, Laying, IsText, ItemOk;
    if n > 0 {
      TextAt(items, n - 1);
      LayingNext(items, n - 1);
      EndLast(items, n - 1);
      StepNoEnd(Laying(items[..n - 1]).value, items[n - 1]);
    } else {
      NoKeysAtFirst(items);
    }
  }

  lemma EndIsLast(items: seq<Item>)
    requires IsWhole(items) && Laying(items).Some?
    ensures var all := Laying(items).value.all;
      all != [] && all[|all| - 1] == StreamEndToken && StreamEndToken !in all[..|all| - 1]
  {
    hide Step, Laying;
    var n := |items| - 1;
    assert items[..n + 1] == items;
    LayingNext(items, n);
    EndLast(items, n);
    StepNoEnd(Laying(items[..n]).value, items[n]);
  }

  // ----- when the scanner stops --------------------------------------------------------------------------

  /** No token can be fetched behind the first `n` items: the next one cannot stand there, or at the end of the text a
      required key has no value. */
  ghost predicate NoFurther(items: seq<Item>, n: nat) {
    && n <= |items| && Laying(items[..n]).Some?
    && if n < |items| then Laying(items[..n + 1]).None?
       else IsWhole(items) ==> !NoneRequired(Laying(items[..n]).value.keys)
  }

  lemma StaleStuck(items: seq<Item>, n: nat)
    requires n <= |items| && IsText(items) && Laying(items[..n]).Some?
    requires !NoneStaleRequired(Laying(items[..n]).value.keys, MarkAt(items, n))
    ensures NoFurther(items, n)
  {
    hide Laying;
    var l := Laying(items[..n]).value;
    if n < |items| {
      LayingNext(items, n);
      assert Reaches(MarkAt(items, n), items[n].at);
      StaleOn(l.keys, MarkAt(items, n), items[n].at);
    } else {
      assert items[..n] == items;
    }
  }

  lemma StaleOn(keys: seq<SimpleKey>, a: Mark, b: Mark)
    requires Reaches(a, b) && !NoneStaleRequired(keys, a)
    ensures !NoneStaleRequired(keys, b)
  {
    var k :| 0 <= k < |keys| && IsStale(keys[k], a) && keys[k].required;
    assert IsStale(keys[k], b);
  }

  lemma StuckFails(items: seq<Item>, n: nat)
    requires NoFurther(items, n) && IsWhole(items)
    ensures Scanned(items).None?
  {
    hide Laying, NoneRequired, IsWhole;
    if n < |items| {
      LayingFails(items, n + 1);
    } else {
      assert items[..n] == items;
    }
  }

  // ----- a text whose blocks are not ended ---------------------------------------------------------------

  /** The text "- [". */
  const DASH_BRACKET := [
    Item(Dash, ORIGIN, Mark(1, 0, 1), BlockEntry, true, false, false),
    Item(FlowStart(true), Mark(2, 0, 2), Mark(3, 0, 3), FlowSequenceStart, true, false, false),
    Item(AtEnd, Mark(3, 0, 3), Mark(3, 0, 3), StreamEndToken, true, false, false)]

  lemma {:induction false} Unweighted(s: seq<Token>)
    requires forall k :: 0 <= k < |s| ==> Weight(s[k]) == 0
    ensures Balance(s) == 0
    decreases |s|
  {
    if s != [] { Unweighted(s[1..]); }
  }

  lemma OneOpen()
    ensures Balance([StreamStartToken, BlockSequenceStart, BlockEntry, FlowSequenceStart, StreamEndToken]) == 1
  {
    hide Balance;
    var a, b, c := [StreamStartToken], [BlockSequenceStart], [BlockEntry, FlowSequenceStart, StreamEndToken];
    Unweighted(a);
    BalanceOne(BlockSequenceStart);
    Unweighted(c);
    BalanceConcat(a, b);
    BalanceConcat(a + b, c);
    assert a + b + c == [StreamStartToken, BlockSequenceStart, BlockEntry, FlowSequenceStart, StreamEndToken];
  }

  const DASHED := Layout([StreamStartToken, BlockSequenceStart, BlockEntry], [-1, 0], [NO_KEY], true)
  const OPENED := Layout(DASHED.all + [FlowSequenceStart], [-1, 0], [SimpleKey(true, false, 3, Mark(2, 0, 2)), NO_KEY],
                         true)
  const CLOSED := OPENED.(all := OPENED.all + [StreamEndToken], allowed := false)

  lemma FirstDash()
    ensures Step(START, DASH_BRACKET[0]) == Some(DASHED)
  {
    SkippedSame(START, DASH_BRACKET[0]);
    assert GivenUp(START.keys) == START.keys;
    assert START.all + [BlockSequenceStart] + [BlockEntry] == DASHED.all && START.levels + [0] == DASHED.levels;
  }

  lemma ThenBracket()
    ensures Step(DASHED, DASH_BRACKET[1]) == Some(OPENED)
  {
    SkippedSame(DASHED, DASH_BRACKET[1]);
    assert DASHED.Saved(Mark(2, 0, 2)) + [NO_KEY] == OPENED.keys;
  }

  lemma ThenEnd()
    ensures Step(OPENED, DASH_BRACKET[2]) == Some(CLOSED) && NoneRequired(CLOSED.keys)
  {
    SkippedSame(OPENED, DASH_BRACKET[2]);
    assert GivenUp(OPENED.keys) == OPENED.keys;
    assert OPENED.all + Ends(0) == OPENED.all;
  }

  lemma DashBracketIsWhole()
    ensures IsWhole(DASH_BRACKET)
  {
    hide Spoken;
    forall k | 0 <= k < |DASH_BRACKET|
      ensures
        && ItemOk(DASH_BRACKET[k]) && Reaches(MarkAt(DASH_BRACKET, k), DASH_BRACKET[k].at)
        && Reaches(DASH_BRACKET[k].at, MarkBehind(DASH_BRACKET[k]))
        && (!DASH_BRACKET[k].kind.AtEnd? ==> DASH_BRACKET[k].at.index < DASH_BRACKET[k].end.index)
    {
      assert k == 0 || k == 1 || k == 2;
    }
  }

  /** The end of the stream does not end the block sequence around an open flow sequence. */
  lemma UnbalancedStream()
    ensures IsWhole(DASH_BRACKET)
    ensures Scanned(DASH_BRACKET)
      == Some([StreamStartToken, BlockSequenceStart, BlockEntry, FlowSequenceStart, StreamEndToken])
    ensures Balance(Scanned(DASH_BRACKET).value) == 1
  {
    hide Laying, Step, NoneRequired, IsWhole, Balance;
    DashBracketIsWhole();
    assert DASH_BRACKET[..3] == DASH_BRACKET;
    NoKeysAtFirst(DASH_BRACKET);
    LayingNext(DASH_BRACKET, 0);
    LayingNext(DASH_BRACKET, 1);
    LayingNext(DASH_BRACKET, 2);
    FirstDash();
    ThenBracket();
    ThenEnd();
    OneOpen();
    assert CLOSED.all == [StreamStartToken, BlockSequenceStart, BlockEntry, FlowSequenceStart, StreamEndToken];
  }
}
