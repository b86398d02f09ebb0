/**
 The token queue of scanner.c, where tokens wait until no other can be inserted before them.
 */
module YamlScanner {
  import opened Options
  import opened EventMachine
  import opened TokenLayout
  import opened LayoutRun

  class Scanner {
    const input: seq<Item>
    var next: nat
    var mark: Mark
    var started: bool
    var queue: seq<Token>
    var tokensParsed: nat
    var available: bool
    var simpleKeys: seq<SimpleKey>
    var simpleKeyAllowed: bool
    var flowLevel: nat
    var indent: int
    var indents: seq<int>
    var ended: bool
    var error: bool
    ghost var delivered: seq<Token>
    // which of all tokens are those of items
    ghost var own: seq<bool>
    // where stale keys have been given up
    ghost var tidied: Mark

    constructor (input: seq<Item>)
      requires IsText(input)
      ensures Valid() && this.input == input && delivered == [] && queue == [] && !ended && !error
      ensures !started && flowLevel == 0 && mark == ORIGIN && next == 0
    {
      this.input := input;
      next, mark, started, queue, tokensParsed, available := 0, Mark(0, 0, 0), false, [], 0, false;
      simpleKeys, simpleKeyAllowed, flowLevel, indent, indents, delivered := [], false, 0, 0, [], [];
      ended, error, own, tidied := false, false, [], ORIGIN;
    }

    /** All tokens so far, whether delivered or not. */
    ghost function All(): seq<Token>
      reads this`delivered, this`queue
    {
      delivered + queue
    }

    /** Everything but the simple keys. */
    ghost predicate Core()
      reads this`started, this`indents, this`indent, this`delivered, this`queue, this`own, this`tokensParsed,
            this`simpleKeys, this`flowLevel
    {
      && started && Rising(indents + [indent]) && |delivered| == tokensParsed && Balance(All()) == |indents|
      && |simpleKeys| == flowLevel + 1 && OwnOk(All(), own)
    }

    /** The tokens of the items, without those that the layout has added. */
    ghost function Own(): seq<Token>
      reads this`own, this`delivered, this`queue
    {
      if |own| == |All()| then Kept(All(), own) else []
    }

    ghost predicate Valid()
      reads this
    {
      && IsText(input)
      && if started then
           && Core() && KeysOk(simpleKeys, tokensParsed, tokensParsed + |queue|)
           && (available ==> queue != [] && NoneAtHead() && tidied == mark)
           && next <= |input| && Own() == Said(input[..next]) && Follows()
           && (ended <==> StreamEndToken in delivered)
         else
           && next == 0 && own == [] && queue == [] && delivered == [] && simpleKeys == [] && flowLevel == 0
           && indents == [] && tokensParsed == 0 && !available && !ended && mark == tidied == ORIGIN
    }

    /** The tokens are where the layout of the items fetched so far puts them. */
    ghost predicate Follows()
      reads this`next, this`mark, this`tidied, this`delivered, this`queue, this`indents, this`indent,
            this`simpleKeys, this`simpleKeyAllowed
    {
      && next <= |input| && Laying(input[..next]).Some? && mark == MarkAt(input, next)
      && Reaches(ORIGIN, mark) && Reaches(tidied, mark)
      && NoneStaleRequired(Laying(input[..next]).value.keys, tidied)
      && Now() == Tidy(Laying(input[..next]).value, tidied)
    }

    /** No key may still be inserted before the head of the queue. */
    ghost predicate NoneAtHead()
      reads this
    {
      forall k :: 0 <= k < |simpleKeys| && simpleKeys[k].possible ==> simpleKeys[k].tokenNumber != tokensParsed
    }

    lemma Counts()
      requires Core()
      ensures |simpleKeys| == flowLevel + 1 && |delivered| == tokensParsed
    {
    }

    method Enqueue(t: Token, ghost mine: bool)
      requires OwnOk(All(), own) && (mine || IsLayout(t))
      modifies this`queue, this`own
      ensures queue == old(queue) + [t] && Balance(All()) == Balance(old(All())) + Weight(t)
        && All() == old(All()) + [t]
      ensures OwnOk(All(), own) && Own() == old(Own()) + if mine then [t] else []
    {
      hide Balance, Kept;
      BalanceConcat(All(), [t]);
      BalanceOne(t);
      KeptConcat(All(), own, [t], [mine]);
      KeptOne(t, mine);
      assert delivered + (queue + [t]) == delivered + queue + [t];
      queue, own := queue + [t], own + [mine];
    }

    /** QUEUE_INSERT: the place is among the tokens that have not been delivered. */
    method QueueInsert(number: nat, t: Token)
      requires |delivered| == tokensParsed <= number <= tokensParsed + |queue| && OwnOk(All(), own) && IsLayout(t)
      modifies this`queue, this`own
      ensures All() == Inserted(old(All()), number, t) && |queue| == |old(queue)| + 1
        && Balance(All()) == Balance(old(All())) + Weight(t)
      ensures OwnOk(All(), own) && Own() == old(Own())
    {
      hide Balance, Kept, Inserted;
      BalanceInserted(All(), number, t);
      InsertBehind(delivered, queue, number, t);
      KeptInserted(All(), own, number, t);
      OwnInserted(All(), own, number, t);
      InsertLonger(queue, number - tokensParsed, t);
      queue, own := Inserted(queue, number - tokensParsed, t), own[..number] + [false] + own[number..];
    }

    /** yaml_parser_roll_indent; a number of -1 appends the token. */
    method RollIndent(column: nat, number: int, t: Token)
      requires Core() && Weight(t) == 1 && (number == -1 || tokensParsed <= number <= tokensParsed + |queue|)
      modifies this`indents, this`indent, this`queue, this`own
      ensures Core() && Own() == old(Own())
      ensures if flowLevel == 0 && old(indent) < column
        then
          && indent == column && indents == old(indents) + [old(indent)] && |queue| == |old(queue)| + 1
          && All() == Inserted(old(All()), if number == -1 then |old(All())| else number, t)
        else indent == old(indent) && indents == old(indents) && queue == old(queue)
    {
      hide Kept, Scanner.Own, OwnOk, Balance;
      if flowLevel > 0 {
        return;
      }
      if indent < column {
        Deeper(indents, indent, column);
        indents := indents + [indent];
        indent := column;
        if number == -1 {
          Enqueue(t, false);
          assert Inserted(old(All()), |old(All())|, t) == old(All()) + [t];
        } else {
          QueueInsert(number, t);
        }
      }
    }

    /** The indentation levels with the current one. */
    ghost function Levels(): seq<int>
      reads this`indents, this`indent
    {
      indents + [indent]
    }

    ghost function Now(): Layout
      reads this`delivered, this`queue, this`indents, this`indent, this`simpleKeys, this`simpleKeyAllowed
    {
      Layout(All(), Levels(), simpleKeys, simpleKeyAllowed)
    }

    /** yaml_parser_unroll_indent: exactly the levels beyond the column are popped, each with one BLOCK-END; that never
        empties the stack below the outermost level. */
    method UnrollIndent(column: int)
      requires Core() && column >= -1
      modifies this`indents, this`indent, this`queue, this`own
      ensures Core() && |queue| >= |old(queue)| && |indents| <= |old(indents)| && Own() == old(Own())
      ensures Levels() == old(Levels())[..|indents| + 1]
      ensures All() == old(All()) + Ends(|old(indents)| - |indents|)
      ensures if flowLevel == 0 then indent <= column else indents == old(indents) && queue == old(queue)
      ensures Levels() == Shallow(old(Levels()), flowLevel, column)
      ensures forall k :: |indents| < k <= |old(indents)| ==> flowLevel == 0 && old(Levels())[k] > column
    {
      hide Kept, Scanner.Own, OwnOk, Rising, Balance, Ends;
      OneMoreEnd(0);
      assert old(All()) + [] == old(All());
      if flowLevel > 0 {
        return;
      }
      ghost var levels := Levels();
      while indent > column
        invariant Core() && |queue| >= |old(queue)| && |indents| <= |old(indents)| && Own() == old(Own())
        invariant Levels() == levels[..|indents| + 1] && All() == old(All()) + Ends(|old(indents)| - |indents|)
        invariant forall k :: |indents| < k <= |old(indents)| ==> levels[k] > column
        decreases |indents|
      {
        OneMoreEnd(|old(indents)| - |indents|);
        PopLevel();
      }
      ShallowIs(levels, |indents| + 1, column);
    }

    method PopLevel()
      requires Core() && indent > -1
      modifies this`indents, this`indent, this`queue, this`own
      ensures Core() && |indents| == |old(indents)| - 1 && Levels() == old(indents) && queue == old(queue) + [BlockEnd]
      ensures All() == old(All()) + [BlockEnd] && Own() == old(Own())
    {
      hide Kept, Scanner.Own, OwnOk, Balance, Rising;
      Shallower(indents, indent);
      FrontAndLast(indents);
      Enqueue(BlockEnd, false);
      indent, indents := indents[|indents| - 1], indents[..|indents| - 1];
    }

    // ----- simple keys ------------------------------------------------------------------------------

    /** Possible keys are those of tokens in the queue. */
    ghost predicate Keys()
      reads this
    {
      KeysOk(simpleKeys, tokensParsed, tokensParsed + |queue|)
    }

    /** Give up the keys that cannot be simple keys any more: those of an earlier line or of more than 1024 characters;
        it is an error if one of them is required. */
    method StaleSimpleKeys() returns (ok: bool)
      modifies this`simpleKeys
      ensures Fewer(old(simpleKeys), simpleKeys)
      ensures ok <==> NoneStaleRequired(old(simpleKeys), mark)
      ensures ok ==> simpleKeys == Refreshed(old(simpleKeys), mark)
    {
      for k := 0 to |simpleKeys|
        invariant Fewer(old(simpleKeys), simpleKeys) && k <= |simpleKeys|
        invariant forall j :: 0 <= j < k ==> !(IsStale(old(simpleKeys)[j], mark) && old(simpleKeys)[j].required)
        invariant forall j :: 0 <= j < |simpleKeys| ==>
          simpleKeys[j] == if j < k then Refresh(old(simpleKeys)[j], mark) else old(simpleKeys)[j]
      {
        if simpleKeys[k].possible && (simpleKeys[k].mark.line < mark.line
                                      || simpleKeys[k].mark.index + 1024 < mark.index) {
          if simpleKeys[k].required {
            return false;
          }
          simpleKeys := simpleKeys[k := simpleKeys[k].(possible := false)];
        }
      }
      ok := true;
    }

    method RemoveSimpleKey() returns (ok: bool)
      requires simpleKeys != []
      modifies this`simpleKeys
      ensures Fewer(old(simpleKeys), simpleKeys) && (ok ==> !simpleKeys[|simpleKeys| - 1].possible)
      ensures |simpleKeys| == |old(simpleKeys)|
      ensures ok <==> var top := old(simpleKeys)[|old(simpleKeys)| - 1]; !(top.possible && top.required)
      ensures ok ==> simpleKeys == GivenUp(old(simpleKeys))
      ensures old(Core()) ==> Core()
      ensures simpleKeys[..|simpleKeys| - 1] == old(simpleKeys)[..|old(simpleKeys)| - 1]
    {
      hide Kept, OwnOk, Rising, Balance;
      var top := |simpleKeys| - 1;
      if simpleKeys[top].possible && simpleKeys[top].required {
        return false;
      }
      simpleKeys := simpleKeys[top := simpleKeys[top].(possible := false)];
      ok := true;
    }

    /** Save the key that may start at the mark; its first token is the one that is appended next. */
    method SaveSimpleKey() returns (ok: bool)
      requires Core() && Keys()
      modifies this`simpleKeys
      ensures |simpleKeys| == |old(simpleKeys)|
      ensures ok ==> KeysOk(simpleKeys, tokensParsed, tokensParsed + |queue| + 1)
      ensures ok <==> !(simpleKeyAllowed && old(Now()).Required())
      ensures ok ==> simpleKeys == old(Now()).Saved(mark)
    {
      hide Kept, Scanner.Own, OwnOk, Rising, Balance, KeysOk, Fewer;
      var required := flowLevel == 0 && indent == mark.column;
      if simpleKeyAllowed {
        var key := SimpleKey(true, required, tokensParsed + |queue|, mark);
        ok := RemoveSimpleKey();
        if !ok {
          return;
        }
        FewerLength(old(simpleKeys), simpleKeys);
        NewestOk(old(simpleKeys), tokensParsed, key);
        SameFront(old(simpleKeys), simpleKeys, key);
        simpleKeys := simpleKeys[|simpleKeys| - 1 := key];
      } else {
        FewerSame(simpleKeys);
        FewerOk(simpleKeys, simpleKeys, tokensParsed, tokensParsed + |queue|, tokensParsed + |queue| + 1);
      }
      ok := true;
    }

    // ----- fetching -----------------------------------------------------------------------------------

    method FetchStreamStart() returns (ok: bool)
      requires Valid() && !started
      modifies this`indent, this`simpleKeys, this`simpleKeyAllowed, this`started, this`queue, this`own
      ensures Own() == [StreamStartToken]
      ensures ok && Core() && Keys() && All() == [StreamStartToken] && queue == [StreamStartToken]
      ensures simpleKeyAllowed && simpleKeys == [NO_KEY] && indent == -1
    {
      hide Kept, OwnOk, Rising, Balance, KeysOk;
      indent := -1;
      simpleKeys := simpleKeys + [NO_KEY];
      simpleKeyAllowed := true;
      started := true;
      StartOk(indents);
      assert All() == [] && simpleKeys == [NO_KEY];
      Enqueue(StreamStartToken, true);
      ok := true;
    }

    /** Append a token when the keys have been seen to. */
    method Append(t: Token)
      requires Core() && Weight(t) == 0 && KeysOk(simpleKeys, tokensParsed, tokensParsed + |queue| + 1)
      modifies this`queue, this`own
      ensures Core() && Keys() && All() == old(All()) + [t] && |queue| == |old(queue)| + 1
      ensures Own() == old(Own()) + [t]
    {
      hide Kept, Scanner.Own, OwnOk, Rising, Balance;
      Enqueue(t, true);
    }

    /** End all block collections, unless a flow collection is open, and give up the innermost key. */
    method EndBlocks() returns (ok: bool)
      requires Core() && Keys()
      modifies this`indents, this`indent, this`queue, this`own, this`simpleKeys
      ensures ok <==> !old(Now()).Required()
      ensures Core() && Own() == old(Own()) && |queue| >= |old(queue)|
      ensures ok ==>
        && KeysOk(simpleKeys, tokensParsed, tokensParsed + |queue| + 1) && simpleKeys == GivenUp(old(simpleKeys))
        && All() == old(All()) + Ends(if flowLevel == 0 then |old(indents)| else 0)
        && Levels() == (if flowLevel == 0 then old(Levels())[..1] else old(Levels()))
        && (indents == [] <==> flowLevel == 0 || old(indents) == [])
    {
      hide Kept, Scanner.Own, OwnOk, Rising, Balance, KeysOk, Fewer, Ends, Shallow, GivenUp;
      UnrollIndent(-1);
      Outermost(indents, indent);
      ok := RemoveSimpleKey();
      FewerOk(old(simpleKeys), simpleKeys, tokensParsed, tokensParsed + |old(queue)|, tokensParsed + |queue| + 1);
    }

    /** The end of the stream, a directive or a document indicator: all block collections end, unless a
        flow collection is open. The block tokens are then balanced exactly if none is, or if there was nothing to
        end. */
    method FetchReset(t: Token, good: bool, end: Mark) returns (ok: bool)
      requires Core() && Keys() && Weight(t) == 0
      modifies this`indents, this`indent, this`queue, this`own, this`simpleKeys, this`simpleKeyAllowed, this`mark
      ensures ok ==> Core() && Keys() && |queue| > |old(queue)| && Own() == old(Own()) + [t]
      ensures ok <==> good && !old(Now()).Required()
      ensures ok ==> Now() == Reset(old(Now()), t) && mark == end
      ensures ok ==> (Balance(All()) == 0 <==> flowLevel == 0 || old(indents) == [])
    {
      hide Kept, Scanner.Own, OwnOk, Rising, Balance, KeysOk, Ends, GivenUp;
      ok := EndBlocks();
      if !ok || !good {
        return false;
      }
      simpleKeyAllowed := false;
      mark := end;
      Append(t);
    }

    method FetchFlowCollectionStart(t: Token, end: Mark) returns (ok: bool)
      requires Core() && Keys() && Weight(t) == 0
      modifies this`queue, this`own, this`simpleKeys, this`simpleKeyAllowed, this`flowLevel, this`mark
      ensures ok ==> Core() && Keys() && |queue| > |old(queue)| && Own() == old(Own()) + [t]
      ensures ok <==> !(old(simpleKeyAllowed) && old(Now()).Required())
      ensures ok ==> Now() == Enter(old(Now()), t, old(mark)) && flowLevel == old(flowLevel) + 1 && mark == end
    {
      hide Kept, Scanner.Own, OwnOk, Rising, Balance;
      ok := SaveSimpleKey();
      if !ok {
        return;
      }
      simpleKeys, flowLevel := simpleKeys + [NO_KEY], flowLevel + 1;
      simpleKeyAllowed := true;
      mark := end;
      Append(t);
    }

    /** yaml_parser_decrease_flow_level. */
    method DecreaseFlowLevel(ghost end: nat)
      requires Core() && KeysOk(simpleKeys, tokensParsed, end)
      modifies this`flowLevel, this`simpleKeys
      ensures Core() && KeysOk(simpleKeys, tokensParsed, end)
      ensures simpleKeys == if old(flowLevel) == 0 then old(simpleKeys) else old(simpleKeys)[..|old(simpleKeys)| - 1]
    {
      hide Kept, Scanner.Own, OwnOk, Rising, Balance, KeysOk;
      OuterOk(simpleKeys, tokensParsed, end);
      if flowLevel > 0 {
        flowLevel, simpleKeys := flowLevel - 1, simpleKeys[..|simpleKeys| - 1];
      }
    }

    method FetchFlowCollectionEnd(t: Token, end: Mark) returns (ok: bool)
      requires Core() && Keys() && Weight(t) == 0
      modifies this`queue, this`own, this`simpleKeys, this`simpleKeyAllowed, this`flowLevel, this`mark
      ensures ok ==> Core() && Keys() && |queue| > |old(queue)| && Own() == old(Own()) + [t]
      ensures ok <==> !old(Now()).Required()
      ensures ok ==> Now() == Leave(old(Now()), t) && mark == end
    {
      hide Kept, Scanner.Own, OwnOk, Rising, Balance, KeysOk, Fewer, Scanner.Core;
      Counts();
      ok := RemoveSimpleKey();
      if !ok {
        return;
      }
      FewerOk(old(simpleKeys), simpleKeys, tokensParsed, tokensParsed + |queue|, tokensParsed + |queue| + 1);
      DecreaseFlowLevel(tokensParsed + |queue| + 1);
      simpleKeyAllowed := false;
      mark := end;
      Append(t);
    }

    /** A comma or a block scalar. */
    method FetchPlainToken(t: Token, good: bool, end: Mark) returns (ok: bool)
      requires Core() && Keys() && Weight(t) == 0
      modifies this`queue, this`own, this`simpleKeys, this`simpleKeyAllowed, this`mark
      ensures ok ==> Core() && Keys() && |queue| > |old(queue)| && Own() == old(Own()) + [t]
      ensures ok <==> good && !old(Now()).Required()
      ensures ok ==> Now() == Divide(old(Now()), t) && mark == end
    {
      hide Kept, Scanner.Own, OwnOk, Rising, Balance, Fewer, KeysOk, Scanner.Core;
      Counts();
      ok := RemoveSimpleKey();
      if !ok || !good {
        return false;
      }
      FewerLength(old(simpleKeys), simpleKeys);
      FewerOk(old(simpleKeys), simpleKeys, tokensParsed, tokensParsed + |queue|, tokensParsed + |queue| + 1);
      simpleKeyAllowed := true;
      mark := end;
      Append(t);
    }

    /** Start a block collection at the mark, if one begins there. */
    method OpenBlock(start: Token)
      requires Core() && Weight(start) == 1
      modifies this`indents, this`indent, this`queue, this`own
      ensures Core() && Own() == old(Own()) && |queue| >= |old(queue)|
      ensures All() == old(All()) + Opening(start, old(Now()).Opens(mark.column))
      ensures Levels() == old(Now()).LevelsWith(mark.column)
    {
      hide Kept, Scanner.Own, OwnOk, Rising, Balance;
      if flowLevel == 0 {
        RollIndent(mark.column, -1, start);
        assert Inserted(old(All()), |old(All())|, start) == old(All()) + [start];
      }
    }

    /** Start the collection of an entry, if it is the first, and give up the innermost key. */
    method PrepareEntry(start: Token) returns (ok: bool)
      requires Core() && Keys() && Weight(start) == 1
      modifies this`indents, this`indent, this`queue, this`own, this`simpleKeys
      ensures ok <==> !old(Now()).Required()
      ensures Core() && Own() == old(Own()) && |queue| >= |old(queue)|
      ensures ok ==>
        && KeysOk(simpleKeys, tokensParsed, tokensParsed + |queue| + 1) && simpleKeys == GivenUp(old(simpleKeys))
        && All() == old(All()) + Opening(start, old(Now()).Opens(mark.column))
        && Levels() == old(Now()).LevelsWith(mark.column)
    {
      hide Kept, Scanner.Own, OwnOk, Rising, Balance, KeysOk, Fewer, Opening, GivenUp, Layout.Opens, Layout.LevelsWith,
           Scanner.Core;
      Counts();
      OpenBlock(start);
      ok := RemoveSimpleKey();
      FewerOk(old(simpleKeys), simpleKeys, tokensParsed, tokensParsed + |old(queue)|, tokensParsed + |queue| + 1);
    }

    /** A block entry or a complex key, with the start of the collection if it is the first. */
    method FetchEntry(start: Token, t: Token, allowed: bool, end: Mark) returns (ok: bool)
      requires Core() && Keys() && Weight(start) == 1 && Weight(t) == 0
      modifies this`indents, this`indent, this`queue, this`own, this`simpleKeys, this`simpleKeyAllowed, this`mark
      ensures ok ==> Core() && Keys() && |queue| > |old(queue)| && Own() == old(Own()) + [t]
      ensures ok <==> (flowLevel > 0 || old(simpleKeyAllowed)) && !old(Now()).Required()
      ensures ok ==> Now() == Entry(old(Now()), start, t, old(mark.column), allowed) && mark == end
    {
      hide Kept, Scanner.Own, OwnOk, Rising, Balance, KeysOk, Opening, GivenUp, Layout.Opens, Layout.LevelsWith,
           Scanner.Core;
      if flowLevel == 0 && !simpleKeyAllowed {
        return false;
      }
      ok := PrepareEntry(start);
      if !ok {
        return;
      }
      simpleKeyAllowed := allowed;
      mark := end;
      Append(t);
    }

    /** An anchor, an alias, a tag, a quoted or a plain scalar: it may be, or start, a simple key. */
    method FetchContent(t: Token, good: bool, allows: bool, end: Mark) returns (ok: bool)
      requires Core() && Keys() && Weight(t) == 0
      modifies this`queue, this`own, this`simpleKeys, this`simpleKeyAllowed, this`mark
      ensures ok ==> Core() && Keys() && |queue| > |old(queue)| && Own() == old(Own()) + [t]
      ensures ok <==> good && !(old(simpleKeyAllowed) && old(Now()).Required())
      ensures ok ==> Now() == Carry(old(Now()), t, old(mark), allows) && mark == end
    {
      hide Kept, Scanner.Own, OwnOk, Rising, Balance;
      ok := SaveSimpleKey();
      if !ok || !good {
        return false;
      }
      simpleKeyAllowed := allows;
      mark := end;
      Append(t);
    }

    method GiveUpTop()
      requires Core()
      modifies this`simpleKeys
      ensures Core() && simpleKeys == GivenUp(old(simpleKeys)) && Fewer(old(simpleKeys), simpleKeys)
    {
      hide Kept, Scanner.Own, OwnOk, Rising, Balance, Fewer;
      var top := |simpleKeys| - 1;
      GiveUp(simpleKeys, top);
      simpleKeys := simpleKeys[top := simpleKeys[top].(possible := false)];
    }

    method PutKey(number: nat)
      requires Core() && tokensParsed <= number <= tokensParsed + |queue|
      modifies this`queue, this`own
      ensures Core() && All() == Inserted(old(All()), number, Key) && |queue| == |old(queue)| + 1 && Own() == old(Own())
    {
      hide Kept, Scanner.Own, OwnOk, Rising, Balance, Inserted;
      QueueInsert(number, Key);
    }

    /** Insert KEY, and perhaps BLOCK-MAPPING-START, before the token that starts the simple key: a token that has not
        been delivered. */
    method InsertKey()
      requires Core() && Keys() && simpleKeys[|simpleKeys| - 1].possible
      modifies this`indents, this`indent, this`queue, this`own, this`simpleKeys
      ensures Core() && KeysOk(simpleKeys, tokensParsed, tokensParsed + |queue| + 1) && |queue| > |old(queue)|
      ensures Own() == old(Own()) && simpleKeys == GivenUp(old(simpleKeys))
      ensures var key := old(Now()).Key();
        && tokensParsed <= key.tokenNumber < |old(All())|
        && All() == WithKey(old(All()), key.tokenNumber, old(Now()).Opens(key.mark.column))
        && Levels() == old(Now()).LevelsWith(key.mark.column)
    {
      hide Kept, Scanner.Own, OwnOk, Rising, Balance, Inserted, KeysOk, Fewer, GivenUp, Scanner.Core;
      Counts();
      var top := |simpleKeys| - 1;
      var key := simpleKeys[top];
      ghost var all := All();
      KeyQueued(simpleKeys, tokensParsed, tokensParsed + |queue|, top);
      PutKey(key.tokenNumber);
      InsertTwice(all, key.tokenNumber, Key, BlockMappingStart);
      RollIndent(key.mark.column, key.tokenNumber, BlockMappingStart);
      GiveUpTop();
      FewerOk(old(simpleKeys), simpleKeys, tokensParsed, tokensParsed + |old(queue)|, tokensParsed + |queue| + 1);
    }

    /** What goes before a value indicator: the key, if it is a simple one, or the start of the collection. */
    method PrepareValue() returns (ok: bool)
      requires Core() && Keys()
      modifies this`indents, this`indent, this`queue, this`own, this`simpleKeys, this`simpleKeyAllowed
      ensures ok <==> old(Now()).Key().possible || flowLevel > 0 || old(simpleKeyAllowed)
      ensures ok ==>
        && Core() && KeysOk(simpleKeys, tokensParsed, tokensParsed + |queue| + 1) && |queue| >= |old(queue)|
        && Own() == old(Own()) && Now().(all := All() + [Value]) == Valued(old(Now()), mark.column)
      ensures old(Now()).Key().possible ==> |delivered| <= old(Now()).Key().tokenNumber < |old(All())|
    {
      hide Kept, Scanner.Own, OwnOk, Rising, Balance, WithKey, KeysOk, Fewer, Opening, GivenUp, Layout.Opens,
           Layout.LevelsWith;
      if simpleKeys[|simpleKeys| - 1].possible {
        InsertKey();
        simpleKeyAllowed := false;
      } else {
        if flowLevel == 0 && !simpleKeyAllowed {
          return false;
        }
        OpenBlock(BlockMappingStart);
        NothingToGiveUp(simpleKeys);
        FewerOk(simpleKeys, simpleKeys, tokensParsed, tokensParsed + |old(queue)|, tokensParsed + |queue| + 1);
        simpleKeyAllowed := flowLevel == 0;
      }
      ok := true;
    }

    /** The value indicator, after a simple key or after a complex one. */
    method FetchValue(end: Mark) returns (ok: bool)
      requires Core() && Keys()
      modifies this`indents, this`indent, this`queue, this`own, this`simpleKeys, this`simpleKeyAllowed, this`mark
      ensures ok ==> Core() && Keys() && |queue| > |old(queue)| && Own() == old(Own()) + [Value]
      ensures ok <==> old(Now()).Key().possible || flowLevel > 0 || old(simpleKeyAllowed)
      ensures ok ==> Now() == Valued(old(Now()), old(mark.column)) && mark == end
      ensures old(Now()).Key().possible ==> |old(delivered)| <= old(Now()).Key().tokenNumber < |old(All())|
    {
      hide Kept, Scanner.Own, OwnOk, Rising, Balance, KeysOk, Valued;
      ok := PrepareValue();
      if ok {
        mark := end;
        Append(Value);
      }
    }

    /** The dispatcher: skip to the next token, end the block collections it is outside of, and fetch it. */
    method FetchNextToken(item: Item) returns (ok: bool)
      requires Valid() && ItemOk(item)
      modifies this`indents, this`indent, this`queue, this`own, this`simpleKeys, this`simpleKeyAllowed, this`flowLevel,
               this`mark, this`started
      ensures ok ==> Core() && Keys() && |queue| > |old(queue)|
      ensures !old(started) ==> ok && Own() == [StreamStartToken] && Now() == START && mark == old(mark)
      ensures ok && old(started) ==> Own() == old(Own()) + [Spoken(item)] && Step(old(Now()), item) == Some(Now())
      ensures old(started) ==> (ok <==> Step(old(Now()), item).Some?) && (ok ==> mark == MarkBehind(item))
    {
      hide Kept, Scanner.Own, OwnOk, Rising, Balance, KeysOk, Fewer, Shallow, NoneStaleRequired, Ends;
      if !started {
        ok := FetchStreamStart();
        return;
      }
      ok := SkipTo(item);
      if ok {
        ok := Dispatch(item);
      }
    }

    /** Skip to the item: give up the simple keys that are stale there and end the collections it is outside of. */
    method SkipTo(item: Item) returns (ok: bool)
      requires Core() && Keys()
      modifies this`indents, this`indent, this`queue, this`own, this`simpleKeys, this`simpleKeyAllowed, this`mark
      ensures mark == item.at && (ok <==> NoneStaleRequired(old(simpleKeys), item.at))
      ensures ok ==> Core() && Keys() && |queue| >= |old(queue)| && Own() == old(Own())
      ensures ok ==> Now() == Skipped(old(Now()), item)
    {
      hide Kept, Scanner.Own, OwnOk, Rising, Balance, KeysOk, Fewer, NoneStaleRequired, Shallow, Ends;
      mark := item.at;
      if item.newLine && flowLevel == 0 {
        simpleKeyAllowed := true;
      }
      ok := StaleSimpleKeys();
      if !ok {
        return;
      }
      FewerLength(old(simpleKeys), simpleKeys);
      UnrollIndent(mark.column);
      FewerOk(old(simpleKeys), simpleKeys, tokensParsed, tokensParsed + |old(queue)|, tokensParsed + |queue|);
    }

    method Dispatch(item: Item) returns (ok: bool)
      requires Core() && Keys() && ItemOk(item) && mark == item.at
      modifies this`indents, this`indent, this`queue, this`own, this`simpleKeys, this`simpleKeyAllowed, this`flowLevel,
               this`mark
      ensures ok ==> Core() && Keys() && |queue| > |old(queue)| && Own() == old(Own()) + [Spoken(item)]
      ensures ok <==> Accepted(old(Now()), item)
      ensures ok ==> Now() == Placed(old(Now()), item) && mark == MarkBehind(item)
    {
      hide Kept, Scanner.Core, Scanner.Own, Scanner.Keys, Scanner.Now, Accepted, Placed, Spoken, MarkBehind;
      match item.kind {
        case AtEnd => ok := DispatchReset(item);
        case Directive => ok := DispatchReset(item);
        case DocumentIndicator(_) => ok := DispatchReset(item);
        case Dash => ok := DispatchEntry(item);
        case Question => ok := DispatchEntry(item);
        case Colon => ok := DispatchEntry(item);
        case Unknown => ok := DispatchEntry(item);
        case _ => ok := DispatchContent(item);
      }
    }

    method DispatchReset(item: Item) returns (ok: bool)
      requires Core() && Keys() && ItemOk(item) && mark == item.at
      requires item.kind.AtEnd? || item.kind.Directive? || item.kind.DocumentIndicator?
      modifies this`indents, this`indent, this`queue, this`own, this`simpleKeys, this`simpleKeyAllowed, this`flowLevel,
               this`mark
      ensures ok ==> Core() && Keys() && |queue| > |old(queue)| && Own() == old(Own()) + [Spoken(item)]
      ensures ok <==> Accepted(old(Now()), item)
      ensures ok ==> Now() == Placed(old(Now()), item) && mark == MarkBehind(item)
    {
      hide Kept, Scanner.Own, OwnOk, Rising, Balance, KeysOk, Scanner.Keys, Reset, Enter, Leave, Divide, Entry, Carry,
           Valued;
      match item.kind {
        case AtEnd => ok := FetchReset(StreamEndToken, true, if mark.column == 0 then mark
                                       else Mark(mark.index, mark.line + 1, 0));
        case Directive => ok := FetchReset(item.token, item.good, item.end);
        case DocumentIndicator(start) => ok := FetchReset(if start then DocumentStartToken else DocumentEndToken, true,
                                                          item.end);
      }
    }

    method DispatchEntry(item: Item) returns (ok: bool)
      requires Core() && Keys() && ItemOk(item) && mark == item.at
      requires item.kind.Dash? || item.kind.Question? || item.kind.Colon? || item.kind.Unknown?
      modifies this`indents, this`indent, this`queue, this`own, this`simpleKeys, this`simpleKeyAllowed, this`flowLevel,
               this`mark
      ensures ok ==> Core() && Keys() && |queue| > |old(queue)| && Own() == old(Own()) + [Spoken(item)]
      ensures ok <==> Accepted(old(Now()), item)
      ensures ok ==> Now() == Placed(old(Now()), item) && mark == MarkBehind(item)
    {
      hide Kept, Scanner.Own, OwnOk, Rising, Balance, KeysOk, Scanner.Keys, Reset, Enter, Leave, Divide, Entry, Carry,
           Valued;
      match item.kind {
        case Dash => ok := FetchEntry(BlockSequenceStart, BlockEntry, true, item.end);
        case Question => ok := FetchEntry(BlockMappingStart, Key, flowLevel == 0, item.end);
        case Colon => ok := FetchValue(item.end);
        case Unknown => ok := false;
      }
    }

    method DispatchContent(item: Item) returns (ok: bool)
      requires Core() && Keys() && ItemOk(item) && mark == item.at
      requires !item.kind.AtEnd? && !item.kind.Directive? && !item.kind.DocumentIndicator?
      requires !item.kind.Dash? && !item.kind.Question? && !item.kind.Colon? && !item.kind.Unknown?
      modifies this`indents, this`indent, this`queue, this`own, this`simpleKeys, this`simpleKeyAllowed, this`flowLevel,
               this`mark
      ensures ok ==> Core() && Keys() && |queue| > |old(queue)| && Own() == old(Own()) + [Spoken(item)]
      ensures ok <==> Accepted(old(Now()), item)
      ensures ok ==> Now() == Placed(old(Now()), item) && mark == MarkBehind(item)
    {
      hide Kept, Scanner.Own, OwnOk, Rising, Balance, KeysOk, Scanner.Keys, Reset, Enter, Leave, Divide, Entry, Carry,
           Valued;
      match item.kind {
        case FlowStart(sequence) => ok := FetchFlowCollectionStart(if sequence then FlowSequenceStart
                                                                   else FlowMappingStart, item.end);
        case FlowEnd(sequence) => ok := FetchFlowCollectionEnd(if sequence then FlowSequenceEnd else FlowMappingEnd,
                                                               item.end);
        case Comma => ok := FetchPlainToken(FlowEntry, true, item.end);
        case AnchorOrAlias => ok := FetchContent(item.token, item.good, false, item.end);
        case Tag => ok := FetchContent(item.token, item.good, false, item.end);
        case BlockScalar => ok := FetchPlainToken(item.token, item.good, item.end);
        case QuotedScalar => ok := FetchContent(item.token, item.good, false, item.end);
        case PlainScalar => ok := FetchContent(item.token, item.good, item.allows, item.end);
      }
    }

    /** yaml_parser_fetch_more_tokens: afterwards the head of the queue can be delivered, since no token can be inserted
        before it any more. */
    method FetchMoreTokens() returns (ok: bool)
      requires Valid() && !available && !ended
      modifies this`indents, this`indent, this`queue, this`own, this`simpleKeys, this`simpleKeyAllowed, this`flowLevel,
               this`mark, this`started, this`next, this`available, this`tidied
      ensures ok ==> Valid() && available && started && next >= old(next)
      ensures ok && next == old(next) && old(started) ==> queue == old(queue)
      ensures !ok ==> NoFurther(input, next)
    {
      hide Kept, Scanner.Own, OwnOk, Rising, Balance, KeysOk, Fewer, IsText, NoFurther, Scanner.Follows;
      while true
        invariant Valid() && !available && next >= old(next) && (old(started) ==> started)
        invariant next == old(next) && old(started) ==> queue == old(queue)
        decreases |input| - next, if started then 0 else 1
      {
        if queue != [] {
          ok := Tidied();
          if !ok {
            return;
          }
          var wait := HeadMayChange();
          if !wait {
            break;
          }
        }
        if started && next >= |input| {
          NothingMissing();
          return false;
        }
        ok := FetchFrom(input[next..]);
        if !ok {
          return;
        }
      }
      available := true;
      ok := true;
    }

    /** Give up stale keys between two items. */
    method Tidied() returns (ok: bool)
      requires Valid() && started && !available
      modifies this`simpleKeys, this`tidied
      ensures ok ==> Valid() && tidied == mark
      ensures !ok ==> NoFurther(input, next)
    {
      hide Kept, Scanner.Own, OwnOk, Rising, Balance, KeysOk, Fewer, IsText, NoFurther, NoneStaleRequired, Refreshed;
      ghost var l := Laying(input[..next]).value;
      RefreshedOn(l.keys, tidied, mark);
      ok := StaleSimpleKeys();
      FewerLength(old(simpleKeys), simpleKeys);
      FewerOk(old(simpleKeys), simpleKeys, tokensParsed, tokensParsed + |queue|, tokensParsed + |queue|);
      if ok {
        SameMark(mark);
        tidied := mark;
      } else {
        StaleStuck(input, next);
      }
    }

    /** When STREAM-END has been delivered, so has every token of the text. */
    lemma AllDelivered()
      requires Valid() && started && ended && tidied == mark && IsWhole(input)
      ensures Scanned(input) == Some(delivered)
    {
      hide Kept, Scanner.Own, OwnOk, Rising, Balance, KeysOk, IsText, Laying;
      var end :| 0 <= end < |delivered| && delivered[end] == StreamEndToken;
      assert All()[end] == StreamEndToken;
      if next < |input| {
        EndLast(input, next);
        assert false;
      } else {
        assert input[..next] == input;
        AllStale(input);
        EndIsLast(input);
        assert |All()| - 1 == end;
        assert queue == [] && All() == delivered;
      }
    }

    /** Fetch STREAM-START, or the token of the next item. */
    method FetchFrom(items: seq<Item>) returns (ok: bool)
      requires Valid() && next <= |input| && items == input[next..] && (started ==> items != []) && !available && !ended
      modifies this`indents, this`indent, this`queue, this`own, this`simpleKeys, this`simpleKeyAllowed, this`flowLevel,
               this`mark, this`started, this`next, this`tidied
      ensures ok ==> Valid() && started && next == if old(started) then old(next) + 1 else old(next)
      ensures !ok ==> next == old(next) && NoFurther(input, next)
    {
      hide Kept, Scanner.Own, OwnOk, Rising, Balance, KeysOk, Fewer, IsText, Step, Tidy, NoneStaleRequired, Reaches,
           Said, Laying;
      if started {
        ok := FetchItem(items[0]);
      } else {
        NoKeysAtFirst(input);
        SaidFirst(input);
        SameMark(mark);
        ok := FetchNextToken(NO_ITEM);
        tidied := ORIGIN;
        NothingStaleAtOrigin(Now());
      }
    }

    method FetchItem(item: Item) returns (ok: bool)
      requires Valid() && started && next < |input| && item == input[next] && !available && !ended
      modifies this`indents, this`indent, this`queue, this`own, this`simpleKeys, this`simpleKeyAllowed, this`flowLevel,
               this`mark, this`started, this`next, this`tidied
      ensures ok ==> Valid() && started && next == old(next) + 1
      ensures !ok ==> next == old(next) && NoFurther(input, next)
    {
      hide Kept, Scanner.Own, OwnOk, Rising, Balance, KeysOk, Fewer, IsText, Step, Tidy, NoneStaleRequired, Reaches,
           Said, Laying, IsWhole, NoneRequired;
      SaidNext(input, next);
      LayingNext(input, next);
      TextAt(input, next);
      ReachesOn(tidied, mark, item.at);
      ReachesOn(ORIGIN, mark, item.at);
      ReachesOn(ORIGIN, item.at, MarkBehind(item));
      StepTidy(Laying(input[..next]).value, tidied, item);
      ok := FetchNextToken(item);
      if ok {
        next, tidied := next + 1, ORIGIN;
        NothingStaleAtOrigin(Now());
      }
    }

    /** When all items of a whole text have been fetched, the head of the queue can be delivered. */
    lemma NothingMissing()
      requires Valid() && started && next == |input| && !ended
      requires queue == [] || (tidied == mark && !NoneAtHead())
      ensures NoFurther(input, next)
    {
      hide Kept, Scanner.Own, OwnOk, Rising, Balance, KeysOk, IsText, NoneStaleRequired, Laying;
      assert input[..next] == input;
      if IsWhole(input) {
        AllStale(input);
        EndIsLast(input);
        assert false;
      }
    }

    /** Does a possible simple key start at the head of the queue? */
    method HeadMayChange() returns (wait: bool)
      ensures wait <==> !NoneAtHead()
    {
      for k := 0 to |simpleKeys|
        invariant forall j :: 0 <= j < k && simpleKeys[j].possible ==> simpleKeys[j].tokenNumber != tokensParsed
      {
        if simpleKeys[k].possible && simpleKeys[k].tokenNumber == tokensParsed {
          return true;
        }
      }
      wait := false;
    }

    /** yaml_parser_scan: deliver the next token. After the end of the stream or an error it succeeds without one. */
    method Scan() returns (ok: bool, t: Option<Token>)
      requires !error ==> Valid()
      modifies this
      ensures old(ended || error) ==> ok && t.None? && unchanged(this)
      ensures !old(ended || error) && ok ==>
        && Valid() && !error && t.Some? && delivered == old(delivered) + [t.value]
        && (ended <==> t.value == StreamEndToken)
        && next <= |input| && Own() == Said(input[..next]) && Follows() && tidied == mark
      ensures !old(ended || error) && ok ==>
        && next >= old(next) && started && (next == old(next) && old(started) ==> |queue| == |old(queue)| - 1)
      ensures !ok ==> t.None? && error && delivered == old(delivered) && NoFurther(input, next)
    {
      hide Kept, Scanner.Own, OwnOk, Rising, Balance, KeysOk, IsText, NoFurther, Scanner.Follows;
      if ended || error {
        return true, None;
      }
      if !available {
        ok := FetchMoreTokens();
        if !ok {
          error := true;
          return false, None;
        }
      }
      var token := Dequeue();
      return true, Some(token);
    }

    /** Deliver the head of the queue; the keys that are possible belong to later tokens. */
    method Dequeue() returns (t: Token)
      requires Valid() && available && !ended
      modifies this`queue, this`tokensParsed, this`available, this`delivered, this`ended
      ensures Valid() && delivered == old(delivered) + [t] && All() == old(All()) && !available && Own() == old(Own())
      ensures |queue| == |old(queue)| - 1 && (ended <==> t == StreamEndToken)
    {
      hide Kept, OwnOk, Rising, Balance, IsText, Said, Laying, Tidy, Reaches, NoneStaleRequired, MarkAt, KeysOk;
      KeysAhead(simpleKeys, tokensParsed, tokensParsed + |queue|);
      t := queue[0];
      assert delivered + [t] + queue[1..] == delivered + queue;
      queue, tokensParsed, available, delivered := queue[1..], tokensParsed + 1, false, delivered + [t];
      if t == StreamEndToken {
        ended := true;
      }
    }
  }

  /** Scan a text to its end: the tokens are those of its layout, whenever they are asked for, and scanning fails
      exactly if the text has none. */
  method ScanAll(input: seq<Item>) returns (ok: bool, tokens: seq<Token>)
    requires IsWhole(input)
    ensures ok <==> Scanned(input).Some?
    ensures ok ==> tokens == Scanned(input).value
  {
    hide IsText, Scanner.Valid, Scanner.Follows, NoFurther, Scanned, Laying, Said, Reaches;
    var s := new Scanner(input);
    tokens := [];
    while !s.ended
      invariant s.Valid() && !s.error && fresh(s) && tokens == s.delivered && s.input == input
      invariant s.ended ==> s.started && s.Follows() && s.tidied == s.mark && s.next <= |input|
      decreases |input| - s.next, if s.started then 0 else 1, |s.queue|
    {
      var t;
      ok, t := s.Scan();
      if !ok {
        StuckFails(input, s.next);
        return;
      }
      tokens := tokens + [t.value];
    }
    s.AllDelivered();
    ok := true;
  }
}
