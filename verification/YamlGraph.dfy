/**
 YAML documents as libyaml stores them - a stack of nodes that refer to each other by index, from 1 on - and the
 events that stand for them.
 */
module YamlGraph {
  import opened Options

  type Text = seq<char>

  datatype Pair = Pair(key: nat, value: nat)

  datatype Node =
    | Scalar(tag: Text, value: Text, style: nat)
    | Sequence(tag: Text, items: seq<nat>, style: nat)
    | Mapping(tag: Text, pairs: seq<Pair>, style: nat)

  type Document = seq<Node>

  const SCALAR_TAG := "tag:yaml.org,2002:str"
  const SEQUENCE_TAG := "tag:yaml.org,2002:seq"
  const MAPPING_TAG := "tag:yaml.org,2002:map"

  datatype Event =
    | Alias(target: Text)
    | ScalarEvent(anchor: Option<Text>, tag: Option<Text>, value: Text, style: nat)
    | SequenceStart(anchor: Option<Text>, tag: Option<Text>, style: nat)
    | SequenceEnd
    | MappingStart(anchor: Option<Text>, tag: Option<Text>, style: nat)
    | MappingEnd
    | DocumentEnd
    | DocumentStart
    | StreamStart
    | StreamEnd
    | NoEvent

  // ----- children ---------------------------------------------------------------------------------

  /** The keys and values of `pairs`, in order. */
  function Flat(pairs: seq<Pair>): (cs: seq<nat>)
    ensures |cs| == 2 * |pairs|
  {
    if pairs == [] then [] else [pairs[0].key, pairs[0].value] + Flat(pairs[1..])
  }

  /** The indices a node refers to, in order. */
  function Children(n: Node): seq<nat> {
    match n
    case Scalar(_, _, _) => []
    case Sequence(_, items, _) => items
    case Mapping(_, pairs, _) => Flat(pairs)
  }

  /** Children taken two by two; the last pair of an odd number still waits for its value. */
  function PairUp(cs: seq<nat>): (pairs: seq<Pair>)
    ensures |pairs| == (|cs| + 1) / 2
  {
    if cs == [] then [] else if |cs| == 1 then [Pair(cs[0], 0)] else [Pair(cs[0], cs[1])] + PairUp(cs[2..])
  }

  /** The same node with other children. */
  function With(n: Node, cs: seq<nat>): Node {
    match n
    case Scalar(_, _, _) => n
    case Sequence(tag, _, style) => Sequence(tag, cs, style)
    case Mapping(tag, _, style) => Mapping(tag, PairUp(cs), style)
  }

  lemma {:induction false} PairUpFlat(pairs: seq<Pair>)
    ensures PairUp(Flat(pairs)) == pairs
  {
    if pairs != [] {
      var cs := Flat(pairs);
      assert cs[2..] == Flat(pairs[1..]);
      PairUpFlat(pairs[1..]);
      assert pairs == [pairs[0]] + pairs[1..];
    }
  }

  lemma WithOwn(n: Node)
    ensures With(n, Children(n)) == n
  {
    if n.Mapping? { PairUpFlat(n.pairs); }
  }

  /** Every reference is an index of the document; in particular no pair waits for its value. */
  ghost predicate WellFormed(doc: Document) {
    forall n <- doc :: forall c <- Children(n) :: 1 <= c <= |doc|
  }

  ghost predicate Index(doc: Document, i: nat) { 1 <= i <= |doc| }

  function Get(doc: Document, i: nat): Node
    requires Index(doc, i)
  {
    doc[i - 1]
  }

  lemma ChildIndex(doc: Document, i: nat)
    requires WellFormed(doc) && Index(doc, i)
    ensures forall c <- Children(Get(doc, i)) :: Index(doc, c)
  {
    assert doc[i - 1] in doc;
  }

  // ----- anchors ------------------------------------------------------------------------------------

  function Digit(d: nat): char
    requires d < 10
  {
    '0' + d as char
  }

  /** Decimal digits, at least `width` of them. */
  function Decimal(n: nat, width: nat): Text
    decreases n, width
  {
    if n == 0 && width == 0 then "" else Decimal(n / 10, if width > 0 then width - 1 else 0) + [Digit(n % 10)]
  }

  /** The anchor template "id%03d". */
  function Anchor(id: nat): Text { "id" + Decimal(id, 3) }

  lemma {:induction false} DecimalInjective(m: nat, n: nat, width: nat)
    requires Decimal(m, width) == Decimal(n, width)
    ensures m == n
    decreases m, n, width
  {
    if width > 0 || (m > 0 && n > 0) {
      var w := if width > 0 then width - 1 else 0;
      var a, b := Decimal(m / 10, w), Decimal(n / 10, w);
      assert a + [Digit(m % 10)] == b + [Digit(n % 10)];
      assert a == (a + [Digit(m % 10)])[..|a|] && b == (b + [Digit(n % 10)])[..|b|];
      DecimalInjective(m / 10, n / 10, w);
      assert Digit(m % 10) == (a + [Digit(m % 10)])[|a|] && Digit(n % 10) == (b + [Digit(n % 10)])[|b|];
      assert (Digit(m % 10) - '0') as int == m % 10 && (Digit(n % 10) - '0') as int == n % 10;
    }
  }

  lemma AnchorInjective(m: nat, n: nat)
    requires Anchor(m) == Anchor(n)
    ensures m == n
  {
    assert Anchor(m)[2..] == Decimal(m, 3) && Anchor(n)[2..] == Decimal(n, 3);
    DecimalInjective(m, n, 3);
  }
}
