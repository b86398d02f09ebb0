/**
 Loading what the parser produces: along a well-nested stream no assertion of loader.c fails, and every document that
 is loaded has only complete pairs and references to its own nodes.
 */
module Compose {
  import opened Options
  import opened YamlGraph
  import opened Nesting
  import opened LoadSpec

  /** References are in range; the last pair of a mapping lacks its value exactly when one is pending. */
  ghost predicate NodeOk(n: Node, count: nat, pending: bool) {
    match n
    case Scalar(_, _, _) => !pending
    case Sequence(_, items, _) => !pending && forall k :: 0 <= k < |items| ==> 1 <= items[k] <= count
    case Mapping(_, pairs, _) =>
      && (pending ==> pairs != [])
      && forall k :: 0 <= k < |pairs| ==>
        1 <= pairs[k].key <= count && (if pending && k == |pairs| - 1 then pairs[k].value == 0
                                       else 1 <= pairs[k].value <= count)
  }

  ghost predicate Fits(n: Node, f: Frame) { (f == Seq && n.Sequence?) || (f.Map? && n.Mapping?) }

  /** The open collections are those of `stack`, above the document, and everything else is complete. */
  ghost predicate Composed(st: Loader, stack: seq<Frame>) {
    && |stack| == |st.ctx| + 1 && stack[0] == Doc(st.nodes != [])
    && (forall k :: 0 <= k < |st.ctx| ==> OpenOk(st, stack, k))
    && (forall j, k :: 0 <= j < k < |st.ctx| ==> st.ctx[j] != st.ctx[k])
    && (forall i :: 1 <= i <= |st.nodes| && i !in st.ctx ==> NodeOk(st.nodes[i - 1], |st.nodes|, false))
    && (forall k :: 0 <= k < |st.aliases| ==> 1 <= st.aliases[k].index <= |st.nodes|)
  }

  ghost predicate OpenOk(st: Loader, stack: seq<Frame>, k: nat)
    requires k < |st.ctx| && k + 1 < |stack|
  {
    && 1 <= st.ctx[k] <= |st.nodes| && Fits(st.nodes[st.ctx[k] - 1], stack[k + 1])
    && NodeOk(st.nodes[st.ctx[k] - 1], |st.nodes|, stack[k + 1] == Map(true))
  }

  lemma NodeOkMore(n: Node, count: nat, count': nat, pending: bool)
    requires NodeOk(n, count, pending) && count <= count'
    ensures NodeOk(n, count', pending)
  {
  }

  /** One more child: an item, a value, or a key that waits for its value. */
  lemma AppendOk(n: Node, count: nat, f: Frame, c: nat)
    requires Fits(n, f) && NodeOk(n, count, f == Map(true)) && 1 <= c <= count
    ensures Fits(Append(n, c), Toggle(f)) && NodeOk(Append(n, c), count, Toggle(f) == Map(true))
  {
  }

  /** A child for the innermost open collection. */
  lemma AddOk(st: Loader, stack: seq<Frame>, c: nat)
    requires Composed(st, stack) && st.nodes != [] && st.ctx != [] && 1 <= c <= |st.nodes|
    ensures var r := NodeAdd(st, c); r.Loaded? && r.st.nodes != [] && Composed(r.st, CountNode(stack))
  {
    var top := |st.ctx| - 1;
    assert OpenOk(st, stack, top);
    var p := st.ctx[top] - 1;
    AppendOk(st.nodes[p], |st.nodes|, stack[top + 1], c);
    var st', stack' := NodeAdd(st, c).st, CountNode(stack);
    hide NodeOk, Append;
    forall k | 0 <= k < |st'.ctx| ensures OpenOk(st', stack', k) {
      assert OpenOk(st, stack, k);
    }
  }

  /** Pushing a node that has no children yet, still without a parent. */
  lemma PushOk(st: Loader, stack: seq<Frame>, n: Node)
    requires Composed(st, stack) && NodeOk(n, 0, false) && st.nodes != []
    ensures Composed(st.(nodes := st.nodes + [n]), stack)
  {
    var st' := st.(nodes := st.nodes + [n]);
    var count := |st.nodes|;
    NodeOkMore(n, 0, count + 1, false);
    forall k | 0 <= k < |st'.ctx| ensures OpenOk(st', stack, k) {
      assert OpenOk(st, stack, k);
      NodeOkMore(st.nodes[st.ctx[k] - 1], count, count + 1, stack[k + 1] == Map(true));
    }
    hide NodeOk;
    forall i | 1 <= i <= |st'.nodes| && i !in st'.ctx ensures NodeOk(st'.nodes[i - 1], count + 1, false) {
      if i <= count { NodeOkMore(st.nodes[i - 1], count, count + 1, false); }
    }
  }

  lemma RegisterOk(st: Loader, stack: seq<Frame>, index: nat, anchor: Option<Text>)
    requires Composed(st, stack) && 1 <= index <= |st.nodes|
    ensures var r := Register(st, index, anchor);
      !r.AssertFailed?
      && (r.Loaded? ==> Composed(r.st, stack) && r.st.nodes == st.nodes && r.st.ctx == st.ctx)
  {
    var r := Register(st, index, anchor);
    if r.Loaded? {
      hide NodeOk, FindAnchor;
      forall k | 0 <= k < |r.st.ctx| ensures OpenOk(r.st, stack, k) {
        assert OpenOk(st, stack, k);
      }
    }
  }

  /** The node on top of the document becomes the innermost open collection. */
  lemma EnterOk(st: Loader, stack: seq<Frame>, f: Frame)
    requires Composed(st, stack) && st.nodes != [] && |st.nodes| !in st.ctx
    requires Fits(st.nodes[|st.nodes| - 1], f) && (f == Seq || f == Map(false))
    ensures Composed(st.(ctx := st.ctx + [|st.nodes|]), stack + [f])
  {
    var st', stack' := st.(ctx := st.ctx + [|st.nodes|]), stack + [f];
    hide NodeOk;
    forall k | 0 <= k < |st'.ctx| ensures OpenOk(st', stack', k) {
      if k < |st.ctx| { assert OpenOk(st, stack, k); }
    }
  }

  lemma NewOk(ev: Event)
    requires ev.ScalarEvent? || ev.SequenceStart? || ev.MappingStart?
    ensures NodeOk(NodeOf(ev), 0, false)
    ensures ev.SequenceStart? ==> Fits(NodeOf(ev), Seq)
    ensures ev.MappingStart? ==> Fits(NodeOf(ev), Map(false))
  {
  }

  ghost function Opens(ev: Event): seq<Frame> {
    if ev.SequenceStart? then [Seq] else if ev.MappingStart? then [Map(false)] else []
  }

  /** The first node of a document is its root. */
  lemma RootOk(st: Loader, ev: Event)
    requires Composed(st, [Doc(false)]) && (ev.ScalarEvent? || ev.SequenceStart? || ev.MappingStart?)
    ensures var r := LoadSpec.Open(st, ev); !r.AssertFailed? && (r.Loaded? ==> Composed(r.st, [Doc(true)] + Opens(ev)))
  {
    NewOk(ev);
    var st1 := st.(nodes := st.nodes + [NodeOf(ev)]);
    NodeOkMore(NodeOf(ev), 0, 1, false);
    assert Composed(st1, [Doc(true)]);
    hide NodeOf, NodeOk, Composed, Fits;
    RegisterOk(st1, [Doc(true)], 1, ev.anchor);
    var r := Register(st1, 1, ev.anchor);
    if r.Loaded? && !ev.ScalarEvent? {
      EnterOk(r.st, [Doc(true)], Opens(ev)[0]);
    }
    assert [Doc(true)] + [] == [Doc(true)];
  }

  /** The next node of a document is not open. */
  lemma NotOpen(st: Loader, stack: seq<Frame>)
    requires Composed(st, stack) && st.ctx != []
    ensures |st.nodes| + 1 !in st.ctx && stack != [] && st.nodes != []
  {
    assert OpenOk(st, stack, 0);
    forall k | 0 <= k < |st.ctx| ensures st.ctx[k] <= |st.nodes| { assert OpenOk(st, stack, k); }
  }

  /** A node inside an open collection. */
  lemma InnerOk(st: Loader, stack: seq<Frame>, ev: Event)
    requires Composed(st, stack) && st.ctx != [] && (ev.ScalarEvent? || ev.SequenceStart? || ev.MappingStart?)
    ensures var r := LoadSpec.Open(st, ev);
      !r.AssertFailed?
      && (r.Loaded? ==> Composed(r.st, CountNode(stack) + Opens(ev)))
  {
    var count := |st.nodes|;
    NewOk(ev);
    var st1 := st.(nodes := st.nodes + [NodeOf(ev)]);
    hide NodeOk, Composed, NodeOf, Fits, Append, FindAnchor, NodeAdd, Register;
    NotOpen(st, stack);
    PushOk(st, stack, NodeOf(ev));
    RegisterOk(st1, stack, count + 1, ev.anchor);
    var r := Register(st1, count + 1, ev.anchor);
    if r.Loaded? {
      AddOk(r.st, stack, count + 1);
      AddKeeps(r.st, count + 1);
      var r' := NodeAdd(r.st, count + 1);
      if !ev.ScalarEvent? {
        EnterOk(r'.st, CountNode(stack), Opens(ev)[0]);
      }
      assert CountNode(stack) + [] == CountNode(stack);
    }
  }

  /** A collection that is not open does not change. */
  lemma AddKeeps(st: Loader, c: nat)
    requires NodeAdd(st, c).Loaded? && |st.nodes| !in st.ctx && st.nodes != []
    ensures var st' := NodeAdd(st, c).st;
      st'.ctx == st.ctx && |st'.nodes| == |st.nodes| && st'.nodes[|st.nodes| - 1] == st.nodes[|st.nodes| - 1]
  {
  }

  /** The end of the innermost collection. */
  lemma CloseOk(st: Loader, stack: seq<Frame>, sequence: bool)
    requires Composed(st, stack) && st.ctx != [] && stack[|stack| - 1] == (if sequence then Seq else Map(false))
    ensures var r := Close(st, sequence); r.Loaded? && Composed(r.st, stack[..|stack| - 1])
  {
    var top := |st.ctx| - 1;
    assert OpenOk(st, stack, top);
    var st', stack' := Close(st, sequence).st, stack[..|stack| - 1];
    hide NodeOk;
    forall k | 0 <= k < |st'.ctx| ensures OpenOk(st', stack', k) {
      assert OpenOk(st, stack, k);
    }
    forall i | 1 <= i <= |st'.nodes| && i !in st'.ctx ensures NodeOk(st'.nodes[i - 1], |st'.nodes|, false) {
      assert st.ctx == st'.ctx + [st.ctx[top]];
      assert i in st.ctx ==> i == st.ctx[top];
    }
  }

  /** An alias inside an open collection; a document that consists of an alias cannot be loaded. */
  lemma AliasOk(st: Loader, stack: seq<Frame>, anchor: Text)
    requires Composed(st, stack) && HasRoom(stack)
    ensures var r := Step(st, Alias(anchor)); !r.AssertFailed? && (r.Loaded? ==> Composed(r.st, CountNode(stack)))
  {
    var k := FindAnchor(st.aliases, anchor);
    if k < |st.aliases| {
      AddOk(st, stack, st.aliases[k].index);
    }
  }

  lemma CompleteOk(st: Loader)
    requires Composed(st, [Doc(true)])
    ensures st.ctx == [] && st.nodes != [] && WellFormed(st.nodes)
  {
    forall n | n in st.nodes ensures forall c <- Children(n) :: 1 <= c <= |st.nodes| {
      var j :| 0 <= j < |st.nodes| && st.nodes[j] == n;
      assert j + 1 !in st.ctx;
      ChildrenOk(n, |st.nodes|);
    }
  }

  lemma ChildrenOk(n: Node, count: nat)
    requires NodeOk(n, count, false)
    ensures forall c <- Children(n) :: 1 <= c <= count
  {
    if n.Mapping? { FlatOk(n.pairs, count); }
  }

  lemma {:induction false} FlatOk(pairs: seq<Pair>, count: nat)
    requires forall k :: 0 <= k < |pairs| ==> 1 <= pairs[k].key <= count && 1 <= pairs[k].value <= count
    ensures forall c <- Flat(pairs) :: 1 <= c <= count
  {
    if pairs != [] { FlatOk(pairs[1..], count); }
  }

  /** One event of a well-nested stream: no assertion of the loader fails, and what it builds stays in step. At the
      end of the document every pair is complete and every reference in range. */
  lemma ComposeStep(st: Loader, stack: seq<Frame>, ev: Event)
    requires Composed(st, stack) && Accept(Nesting.Open(stack), ev).Some?
    ensures var r := Step(st, ev);
      && !r.AssertFailed?
      && (r.Loaded? && ev.DocumentEnd? ==> r.st == st && st.ctx == [] && st.nodes != [] && WellFormed(st.nodes))
      && (r.Loaded? && !ev.DocumentEnd? ==>
            Accept(Nesting.Open(stack), ev).value.Open? && Composed(r.st, Accept(Nesting.Open(stack), ev).value.stack))
  {
    hide NodeOk, WellFormed, Close, NodeAdd, Register;
    if ev.Alias? {
      AliasOk(st, stack, ev.target);
    } else if ev.SequenceEnd? || ev.MappingEnd? {
      CloseOk(st, stack, ev.SequenceEnd?);
    } else if ev.DocumentEnd? {
      CompleteOk(st);
    } else {
      assert CountNode(stack) + [] == CountNode(stack);
      if st.ctx == [] {
        assert CountNode(stack) == [Doc(true)];
        RootOk(st, ev);
      } else {
        InnerOk(st, stack, ev);
      }
    }
  }
}
