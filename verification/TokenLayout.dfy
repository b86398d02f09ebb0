/**
 Where tokens go in scanner.c: simple keys, indentation and flow levels, as a machine on values. What the characters
 say is a parameter of each step - the kind of the next token, where it starts and ends, and the flags that scanning it
 sets.
 */
module TokenLayout {
  import opened Options
  import opened EventMachine

  datatype Mark = Mark(index: nat, line: nat, column: nat)

  datatype SimpleKey = SimpleKey(possible: bool, required: bool, tokenNumber: nat, mark: Mark)

  datatype Kind =
    | AtEnd | Directive | DocumentIndicator(start: bool)
    | FlowStart(sequence: bool) | FlowEnd(sequence: bool) | Comma | Dash | Question | Colon
    | AnchorOrAlias | Tag | BlockScalar | QuotedScalar | PlainScalar | Unknown

  /** The next token in the text: `at` is where it starts, `end` where it ends, and `token` what it is if its text is
      scanned successfully (`good`). `newLine` and `allows` are what skipping to it and scanning it say about simple
      keys. */
  datatype Item = Item(kind: Kind, at: Mark, end: Mark, token: Token, good: bool, newLine: bool, allows: bool)

  const NO_ITEM := Item(Unknown, Mark(0, 0, 0), Mark(0, 0, 0), StreamStartToken, false, false, false)

  const NO_KEY := SimpleKey(false, false, 0, Mark(0, 0, 0))

  // ----- what an item says ----------------------------------------------------------------------------

  /** The token that an item of the text stands for: the indicator characters name theirs, and an item with contents
      carries its own. */
  function Spoken(item: Item): Token {
    match item.kind
    case AtEnd => StreamEndToken
    case DocumentIndicator(start) => if start then DocumentStartToken else DocumentEndToken
    case FlowStart(sequence) => if sequence then FlowSequenceStart else FlowMappingStart
    case FlowEnd(sequence) => if sequence then FlowSequenceEnd else FlowMappingEnd
    case Comma => FlowEntry
    case Dash => BlockEntry
    case Question => Key
    case Colon => Value
    case _ => item.token
  }

  /** The tokens of a text: the start of the stream and one token for every item. */
  function Said(items: seq<Item>): seq<Token> {
    if items == [] then [StreamStartToken] else Said(items[..|items| - 1]) + [Spoken(items[|items| - 1])]
  }

  lemma SaidFirst(items: seq<Item>)
    ensures Said(items[..0]) == [StreamStartToken]
  {
  }

  lemma SaidNext(items: seq<Item>, n: nat)
    requires n < |items|
    ensures Said(items[..n + 1]) == Said(items[..n]) + [Spoken(items[n])]
  {
    assert items[..n + 1][..n] == items[..n];
  }

  /** The tokens that `own` marks. */
  function Kept(tokens: seq<Token>, own: seq<bool>): seq<Token>
    requires |tokens| == |own|
  {
    if tokens == [] then []
    else
      var n := |tokens| - 1;
      Kept(tokens[..n], own[..n]) + if own[n] then [tokens[n]] else []
  }

  lemma {:induction false} KeptConcat(a: seq<Token>, x: seq<bool>, b: seq<Token>, y: seq<bool>)
    requires |a| == |x| && |b| == |y|
    ensures Kept(a + b, x + y) == Kept(a, x) + Kept(b, y)
    decreases |b|
  {
    if b == [] {
      assert a + b == a && x + y == x;
    } else {
      var n := |b| - 1;
      KeptConcat(a, x, b[..n], y[..n]);
      assert (a + b)[..|a + b| - 1] == a + b[..n] && (x + y)[..|a + b| - 1] == x + y[..n];
    }
  }

  lemma KeptOne(t: Token, own: bool)
    ensures Kept([t], [own]) == if own then [t] else []
  {
  }

  lemma KeptInserted(s: seq<Token>, own: seq<bool>, n: nat, t: Token)
    requires |s| == |own| && n <= |s|
    ensures |Inserted(s, n, t)| == |own| + 1 && Kept(Inserted(s, n, t), own[..n] + [false] + own[n..]) == Kept(s, own)
  {
    hide Kept;
    KeptConcat(s[..n], own[..n], [t], [false]);
    KeptOne(t, false);
    KeptConcat(s[..n] + [t], own[..n] + [false], s[n..], own[n..]);
    KeptConcat(s[..n], own[..n], s[n..], own[n..]);
    assert s == s[..n] + s[n..] && own == own[..n] + own[n..];
  }

  /** Tokens that the text does not say, but its layout. */
  predicate IsLayout(t: Token) { t in {BlockSequenceStart, BlockMappingStart, BlockEnd, Key} }

  ghost predicate OwnOk(tokens: seq<Token>, own: seq<bool>) {
    |own| == |tokens| && forall k :: 0 <= k < |own| && !own[k] ==> IsLayout(tokens[k])
  }

  lemma OwnInserted(s: seq<Token>, own: seq<bool>, n: nat, t: Token)
    requires OwnOk(s, own) && n <= |s| && IsLayout(t)
    ensures OwnOk(Inserted(s, n, t), own[..n] + [false] + own[n..])
  {
  }

  lemma InsertLonger(s: seq<Token>, n: nat, t: Token)
    requires n <= |s|
    ensures |Inserted(s, n, t)| == |s| + 1
  {
  }

  // ----- block tokens -------------------------------------------------------------------------------

  function Weight(t: Token): int {
    if t == BlockSequenceStart || t == BlockMappingStart then 1 else if t == BlockEnd then -1 else 0
  }

  /** Block starts minus block ends. */
  function Balance(s: seq<Token>): int { if s == [] then 0 else Weight(s[0]) + Balance(s[1..]) }

  lemma {:induction false} BalanceConcat(a: seq<Token>, b: seq<Token>)
    ensures Balance(a + b) == Balance(a) + Balance(b)
  {
    if a == [] {
      assert a + b == b;
    } else {
      BalanceConcat(a[1..], b);
      assert (a + b)[1..] == a[1..] + b;
    }
  }

  lemma BalanceOne(t: Token)
    ensures Balance([t]) == Weight(t)
  {
  }

  /** `s` with `t` inserted at `n`. */
  function Inserted(s: seq<Token>, n: nat, t: Token): seq<Token>
    requires n <= |s|
  {
    s[..n] + [t] + s[n..]
  }

  lemma BalanceInserted(s: seq<Token>, n: nat, t: Token)
    requires n <= |s|
    ensures Balance(Inserted(s, n, t)) == Balance(s) + Weight(t)
  {
    hide Balance;
    BalanceConcat(s[..n] + [t], s[n..]);
    BalanceConcat(s[..n], [t]);
    BalanceConcat(s[..n], s[n..]);
    assert s[..n] + s[n..] == s;
    BalanceOne(t);
  }

  lemma InsertBehind(a: seq<Token>, b: seq<Token>, n: nat, t: Token)
    requires |a| <= n <= |a| + |b|
    ensures a + Inserted(b, n - |a|, t) == Inserted(a + b, n, t)
  {
  }

  // ----- indentation ----------------------------------------------------------------------------------

  /** The indentation levels, the current one last, rise strictly from -1. */
  ghost predicate Rising(s: seq<int>) { s != [] && s[0] == -1 && forall j, k :: 0 <= j < k < |s| ==> s[j] < s[k] }

  lemma Deeper(s: seq<int>, indent: int, column: int)
    requires Rising(s + [indent]) && indent < column
    ensures Rising(s + [indent] + [column])
  {
    var a, b := s + [indent], s + [indent] + [column];
    forall j, k | 0 <= j < k < |b| ensures b[j] < b[k] {
      assert b[j] == a[j] && a[j] <= a[|a| - 1] == indent;
      if k < |a| { assert b[k] == a[k]; }
    }
  }

  /** `n` block ends. */
  function Ends(n: nat): seq<Token> { seq(n, _ => BlockEnd) }

  lemma OneMoreEnd(n: nat)
    ensures Ends(n) + [BlockEnd] == Ends(n + 1) && Ends(0) == []
  {
  }

  lemma FrontAndLast(s: seq<int>)
    requires s != []
    ensures s[..|s| - 1] + [s[|s| - 1]] == s
  {
  }

  lemma Shallower(s: seq<int>, indent: int)
    requires Rising(s + [indent]) && indent > -1
    ensures s != [] && Rising(s)
  {
    if s != [] {
      var all := s + [indent];
      assert forall k :: 0 <= k < |s| ==> all[k] == s[k];
    }
  }

  /** The levels that a token in the given column leaves open: none is deeper, and flow collections end none. */
  function Shallow(levels: seq<int>, flow: nat, column: int): (r: seq<int>)
    ensures |r| <= |levels| && (levels != [] ==> r != [])
  {
    if flow > 0 || |levels| <= 1 || levels[|levels| - 1] <= column then levels
    else Shallow(levels[..|levels| - 1], flow, column)
  }

  lemma {:induction false} ShallowIs(levels: seq<int>, n: nat, column: int)
    requires 0 < n <= |levels| && levels[n - 1] <= column && forall k :: n <= k < |levels| ==> levels[k] > column
    ensures Shallow(levels, 0, column) == levels[..n]
    decreases |levels|
  {
    if n < |levels| {
      ShallowIs(levels[..|levels| - 1], n, column);
      assert levels[..|levels| - 1][..n] == levels[..n];
    }
  }

  // ----- where tokens go --------------------------------------------------------------------------------

  /** The tokens that make a simple key of what starts at the token number `n`. */
  function WithKey(all: seq<Token>, n: nat, opens: bool): seq<Token> {
    if n <= |all| then all[..n] + (if opens then [BlockMappingStart, Key] else [Key]) + all[n..] else all
  }

  /** The start of a block collection, if one begins in this column. */
  function Opening(start: Token, opens: bool): seq<Token> { if opens then [start] else [] }

  // ----- simple keys ----------------------------------------------------------------------------------

  /** A key that is still possible belongs to a token that is still in the queue; keys of inner levels to later ones. */
  ghost predicate KeysOk(keys: seq<SimpleKey>, first: nat, end: nat) {
    && (forall k :: 0 <= k < |keys| && keys[k].possible ==> first <= keys[k].tokenNumber < end)
    && (forall j, k :: 0 <= j < k < |keys| && keys[j].possible && keys[k].possible ==>
          keys[j].tokenNumber < keys[k].tokenNumber)
  }

  /** `keys'` is `keys` with some of them given up. */
  ghost predicate Fewer(keys: seq<SimpleKey>, keys': seq<SimpleKey>) {
    |keys| == |keys'| && forall k :: 0 <= k < |keys| ==> keys'[k] == keys[k] || keys'[k] == keys[k].(possible := false)
  }

  lemma FewerOk(keys: seq<SimpleKey>, keys': seq<SimpleKey>, first: nat, end: nat, end': nat)
    requires KeysOk(keys, first, end) && Fewer(keys, keys') && end <= end'
    ensures KeysOk(keys', first, end')
  {
  }

  /** A key of an earlier line, or too long ago, cannot be a simple key any more. */
  predicate IsStale(key: SimpleKey, mark: Mark) {
    key.possible && (key.mark.line < mark.line || mark.index - key.mark.index > 1024)
  }

  function Refresh(key: SimpleKey, mark: Mark): SimpleKey {
    if IsStale(key, mark) then key.(possible := false) else key
  }

  function Refreshed(keys: seq<SimpleKey>, mark: Mark): (r: seq<SimpleKey>)
    ensures |r| == |keys| && forall k :: 0 <= k < |keys| ==> r[k] == Refresh(keys[k], mark)
  {
    seq(|keys|, k requires 0 <= k < |keys| => Refresh(keys[k], mark))
  }

  predicate NoneStaleRequired(keys: seq<SimpleKey>, mark: Mark) {
    forall k :: 0 <= k < |keys| ==> !(IsStale(keys[k], mark) && keys[k].required)
  }

  lemma KeyQueued(keys: seq<SimpleKey>, first: nat, end: nat, k: nat)
    requires KeysOk(keys, first, end) && k < |keys| && keys[k].possible
    ensures first <= keys[k].tokenNumber < end
  {
  }

  lemma KeysAhead(keys: seq<SimpleKey>, first: nat, end: nat)
    requires KeysOk(keys, first, end)
    requires forall k :: 0 <= k < |keys| && keys[k].possible ==> keys[k].tokenNumber != first
    ensures KeysOk(keys, first + 1, end)
  {
  }

  lemma GiveUp(keys: seq<SimpleKey>, k: nat)
    requires k < |keys|
    ensures Fewer(keys, keys[k := keys[k].(possible := false)])
  {
  }

  lemma FewerLength(keys: seq<SimpleKey>, keys': seq<SimpleKey>)
    requires Fewer(keys, keys')
    ensures |keys| == |keys'|
  {
  }

  /** The key of the token that comes next can replace the innermost one. */
  lemma NewestOk(keys: seq<SimpleKey>, first: nat, key: SimpleKey)
    requires keys != [] && first <= key.tokenNumber && KeysOk(keys, first, key.tokenNumber)
    ensures KeysOk(keys[|keys| - 1 := key], first, key.tokenNumber + 1)
  {
  }

  lemma OuterOk(keys: seq<SimpleKey>, first: nat, end: nat)
    requires keys != [] && KeysOk(keys, first, end)
    ensures KeysOk(keys[..|keys| - 1], first, end)
  {
  }

  lemma SameFront(keys: seq<SimpleKey>, keys': seq<SimpleKey>, key: SimpleKey)
    requires |keys| == |keys'| > 0 && keys[..|keys| - 1] == keys'[..|keys| - 1]
    ensures keys[|keys| - 1 := key] == keys'[|keys| - 1 := key]
  {
    var top := |keys| - 1;
    assert keys[top := key] == keys[..top] + [key] && keys'[top := key] == keys'[..top] + [key];
  }

  /** The innermost key is given up. */
  function GivenUp(keys: seq<SimpleKey>): (r: seq<SimpleKey>)
    ensures |r| == |keys|
  {
    if keys == [] then [] else keys[|keys| - 1 := keys[|keys| - 1].(possible := false)]
  }

  lemma NothingToGiveUp(keys: seq<SimpleKey>)
    requires keys != [] && !keys[|keys| - 1].possible
    ensures GivenUp(keys) == keys && Fewer(keys, keys)
  {
  }

  // ----- the scanner on values --------------------------------------------------------------------------

  /** What decides where tokens go: all tokens so far, the indentation levels, a simple key for the block context and
      for each flow level, and whether a simple key may start. */
  datatype Layout = Layout(all: seq<Token>, levels: seq<int>, keys: seq<SimpleKey>, allowed: bool)
  {
    predicate Ok() { levels != [] && keys != [] }

    predicate InBlock() { |keys| == 1 }

    function Indent(): int
      requires Ok()
    {
      levels[|levels| - 1]
    }

    function Key(): SimpleKey
      requires Ok()
    {
      keys[|keys| - 1]
    }

    /** The innermost key must not be given up. */
    predicate Required()
      requires Ok()
    {
      Key().possible && Key().required
    }

    /** Does a block collection begin in this column? */
    predicate Opens(column: nat)
      requires Ok()
    {
      InBlock() && Indent() < column
    }

    function LevelsWith(column: nat): seq<int>
      requires Ok()
    {
      levels + if Opens(column) then [column] else []
    }

    /** The keys if what starts here is to be a simple key. */
    function Saved(at: Mark): seq<SimpleKey>
      requires Ok()
    {
      if allowed then keys[|keys| - 1 := SimpleKey(true, InBlock() && Indent() == at.column, |all|, at)] else keys
    }
  }

  /** Skip to an item: stale keys are given up, and the collections that it is outside of end. */
  function Skipped(l: Layout, item: Item): (r: Layout)
    requires l.Ok()
    ensures r.Ok()
  {
    var levels := Shallow(l.levels, |l.keys| - 1, item.at.column);
    Layout(l.all + Ends(|l.levels| - |levels|), levels, Refreshed(l.keys, item.at),
           l.allowed || (item.newLine && l.InBlock()))
  }

  /** Can the item stand here? A required simple key must not be given up, and block entries, keys and values need a
      place where a simple key could start. */
  predicate Accepted(l: Layout, item: Item)
    requires l.Ok()
  {
    match item.kind
    case AtEnd => !l.Required()
    case DocumentIndicator(_) => !l.Required()
    case Directive => item.good && !l.Required()
    case FlowStart(_) => !(l.allowed && l.Required())
    case FlowEnd(_) => !l.Required()
    case Comma => !l.Required()
    case Dash => (!l.InBlock() || l.allowed) && !l.Required()
    case Question => (!l.InBlock() || l.allowed) && !l.Required()
    case Colon => l.Key().possible || !l.InBlock() || l.allowed
    case BlockScalar => item.good && !l.Required()
    case Unknown => false
    case _ => item.good && !(l.allowed && l.Required())
  }

  /** The end of the stream, a directive or a document indicator: all block collections end, unless a flow collection
      is open. */
  function Reset(l: Layout, t: Token): Layout
    requires l.Ok()
  {
    Layout(l.all + Ends(if l.InBlock() then |l.levels| - 1 else 0) + [t],
           if l.InBlock() then l.levels[..1] else l.levels, GivenUp(l.keys), false)
  }

  /** The start of a flow collection, which may start a simple key. */
  function Enter(l: Layout, t: Token, at: Mark): Layout
    requires l.Ok()
  {
    Layout(l.all + [t], l.levels, l.Saved(at) + [NO_KEY], true)
  }

  function Leave(l: Layout, t: Token): Layout
    requires l.Ok()
  {
    Layout(l.all + [t], l.levels, if l.InBlock() then GivenUp(l.keys) else l.keys[..|l.keys| - 1], false)
  }

  /** A token that no simple key can start at, in front of one that may. */
  function Divide(l: Layout, t: Token): Layout
    requires l.Ok()
  {
    Layout(l.all + [t], l.levels, GivenUp(l.keys), true)
  }

  /** A block entry or a complex key, with the start of its collection if it is the first. */
  function Entry(l: Layout, start: Token, t: Token, column: nat, allowed: bool): Layout
    requires l.Ok()
  {
    Layout(l.all + Opening(start, l.Opens(column)) + [t], l.LevelsWith(column), GivenUp(l.keys), allowed)
  }

  /** A token that a simple key may start at. */
  function Carry(l: Layout, t: Token, at: Mark, allowed: bool): Layout
    requires l.Ok()
  {
    Layout(l.all + [t], l.levels, l.Saved(at), allowed)
  }

  /** A value: KEY, and perhaps BLOCK-MAPPING-START, go right before the first token of its simple key. */
  function Valued(l: Layout, column: nat): Layout
    requires l.Ok()
  {
    var key := l.Key();
    if key.possible then
      Layout(WithKey(l.all, key.tokenNumber, l.Opens(key.mark.column)) + [Value], l.LevelsWith(key.mark.column),
             GivenUp(l.keys), false)
    else
      Layout(l.all + Opening(BlockMappingStart, l.Opens(column)) + [Value], l.LevelsWith(column), GivenUp(l.keys),
             l.InBlock())
  }

  function Placed(l: Layout, item: Item): (r: Layout)
    requires l.Ok()
    ensures r.Ok()
  {
    match item.kind
    case AtEnd | Directive | DocumentIndicator(_) => Reset(l, Spoken(item))
    case FlowStart(_) => Enter(l, Spoken(item), item.at)
    case FlowEnd(_) => Leave(l, Spoken(item))
    case Comma | BlockScalar => Divide(l, Spoken(item))
    case Dash => Entry(l, BlockSequenceStart, Spoken(item), item.at.column, true)
    case Question => Entry(l, BlockMappingStart, Spoken(item), item.at.column, l.InBlock())
    case Colon => Valued(l, item.at.column)
    case _ => Carry(l, Spoken(item), item.at, item.kind.PlainScalar? && item.allows)
  }

  /** How a stream begins. */
  lemma StartOk(indents: seq<int>)
    requires indents == []
    ensures Rising(indents + [-1]) && OwnOk([], []) && KeysOk([NO_KEY], 0, 1) && Kept([], []) == [] && Balance([]) == 0
  {
    assert indents + [-1] == [-1];
  }

  /** What scanning the text of a token can give. */
  predicate ItemOk(item: Item) {
    match item.kind
    case Directive => item.token.VersionDirective? || item.token.TagDirective?
    case AnchorOrAlias => item.token.AnchorToken? || item.token.AliasToken?
    case Tag => item.token.TagToken?
    case BlockScalar => item.token.ScalarToken?
    case QuotedScalar => item.token.ScalarToken?
    case PlainScalar => item.token.ScalarToken?
    case _ => true
  }

  lemma FewerSame(keys: seq<SimpleKey>)
    ensures Fewer(keys, keys)
  {
  }

  lemma Outermost(s: seq<int>, indent: int)
    requires Rising(s + [indent])
    ensures indent <= -1 ==> s == []
  {
    var all := s + [indent];
    if s != [] {
      assert all[0] == -1 && all[|s|] == indent;
    }
  }

  lemma InsertTwice(s: seq<Token>, n: nat, t: Token, u: Token)
    requires n <= |s|
    ensures Inserted(s, n, t) == s[..n] + [t] + s[n..]
    ensures n <= |Inserted(s, n, t)| && Inserted(Inserted(s, n, t), n, u) == s[..n] + [u, t] + s[n..]
  {
    var a := Inserted(s, n, t);
    assert a[..n] == s[..n] && a[n..] == [t] + s[n..];
  }
}
