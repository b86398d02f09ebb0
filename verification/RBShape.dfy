/**
 Shapes of the intrusive red-black tree of hev-rbtree.c.

 A `Tree` is the mathematical picture of a (sub)tree: it names the heap nodes and their
 colours. A `Ctx` is a tree with one hole: the path from the hole up to the root together
 with the subtrees hanging off that path. The fix-up loops walk a `Ctx` upwards.
 */
module RBShape {
  import opened Powers

  /** hev-rbtree.h packs `parent` and `black` into one word; here they are two fields.
      `entry` is what `container_of` would recover. */
  class Node<T> {
    var left: Node?<T>
    var right: Node?<T>
    var parent: Node?<T>
    var black: bool
    const entry: T

    constructor (entry: T)
      ensures this.entry == entry
    {
      this.entry := entry;
      left, right, parent, black := null, null, null, false;
    }
  }

  datatype Tree<T> = Leaf | Br(l: Tree<T>, n: Node<T>, black: bool, r: Tree<T>)

  /** `InL(up, n, b, r)`: the hole is the left child of `n`. */
  datatype Ctx<T> = Top
                  | InL(up: Ctx<T>, n: Node<T>, black: bool, r: Tree<T>)
                  | InR(up: Ctx<T>, l: Tree<T>, n: Node<T>, black: bool)

  // ----- node sets and orders ------------------------------------------------

  ghost function S<T>(t: Tree<T>): set<Node<T>> {
    match t
    case Leaf => {}
    case Br(l, n, _, r) => S(l) + {n} + S(r)
  }

  ghost function SC<T>(z: Ctx<T>): set<Node<T>> {
    match z
    case Top => {}
    case InL(up, n, _, r) => SC(up) + {n} + S(r)
    case InR(up, l, n, _) => SC(up) + {n} + S(l)
  }

  ghost function InOrder<T>(t: Tree<T>): seq<Node<T>> {
    match t
    case Leaf => []
    case Br(l, n, _, r) => InOrder(l) + [n] + InOrder(r)
  }

  /** Nodes that come before, respectively after, the hole. */
  ghost function Before<T>(z: Ctx<T>): seq<Node<T>> {
    match z
    case Top => []
    case InL(up, _, _, _) => Before(up)
    case InR(up, l, n, _) => Before(up) + InOrder(l) + [n]
  }

  ghost function After<T>(z: Ctx<T>): seq<Node<T>> {
    match z
    case Top => []
    case InL(up, n, _, r) => [n] + InOrder(r) + After(up)
    case InR(up, _, _, _) => After(up)
  }

  ghost function Plug1<T>(z: Ctx<T>, t: Tree<T>): Tree<T>
    requires !z.Top?
  {
    match z
    case InL(_, n, b, r) => Br(t, n, b, r)
    case InR(_, l, n, b) => Br(l, n, b, t)
  }

  ghost function Plug<T>(z: Ctx<T>, t: Tree<T>): Tree<T> {
    if z.Top? then t else Plug(z.up, Plug1(z, t))
  }

  // ----- no node occurs twice --------------------------------------------------

  ghost predicate Distinct<T>(t: Tree<T>) {
    match t
    case Leaf => true
    case Br(l, n, _, r) =>
      n !in S(l) && n !in S(r) && S(l) !! S(r) && Distinct(l) && Distinct(r)
  }

  /** The path and its side trees are distinct, and disjoint from the nodes `below` the hole. */
  ghost predicate DistinctC<T>(z: Ctx<T>, below: set<Node<T>>) {
    match z
    case Top => true
    case InL(up, n, _, r) =>
      n !in below && n !in S(r) && S(r) !! below && Distinct(r) && DistinctC(up, below + {n} + S(r))
    case InR(up, l, n, _) =>
      n !in below && n !in S(l) && S(l) !! below && Distinct(l) && DistinctC(up, below + {n} + S(l))
  }

  // ----- what the heap looks like -----------------------------------------------

  /** The link fields of one node, as a value. */
  datatype Cell<T> = Cell(left: Node?<T>, right: Node?<T>, parent: Node?<T>, black: bool)

  /** A snapshot of a tree header and of the link fields of a set of nodes. */
  datatype Mem<T> = Mem(root: Node?<T>, s: map<Node<T>, Cell<T>>) {
    predicate Has(n: Node?<T>) { n == null || n in s }

    function SetL(n: Node<T>, c: Node?<T>): Mem<T>
      requires n in s
    {
      this.(s := s[n := s[n].(left := c)])
    }

    function SetR(n: Node<T>, c: Node?<T>): Mem<T>
      requires n in s
    {
      this.(s := s[n := s[n].(right := c)])
    }

    function SetP(n: Node<T>, p: Node?<T>): Mem<T>
      requires n in s
    {
      this.(s := s[n := s[n].(parent := p)])
    }

    function SetPC(n: Node<T>, p: Node?<T>, black: bool): Mem<T>
      requires n in s
    {
      this.(s := s[n := s[n].(parent := p, black := black)])
    }
  }

  /** Pointer `c`, whose parent link must be `p`, is the root of a heap tree shaped `t`. */
  ghost predicate Rep<T>(m: Mem<T>, t: Tree<T>, p: Node?<T>, c: Node?<T>) {
    match t
    case Leaf => c == null
    case Br(l, n, b, r) =>
      && c == n && n in m.s && m.s[n].parent == p && m.s[n].black == b
      && Rep(m, l, n, m.s[n].left) && Rep(m, r, n, m.s[n].right)
  }

  /** Around a hole that has parent `p` and holds pointer `c`, the heap looks like `z`. */
  ghost predicate HoleRep<T>(m: Mem<T>, z: Ctx<T>, p: Node?<T>, c: Node?<T>) {
    match z
    case Top => p == null && c == m.root
    case InL(up, n, b, r) =>
      && p == n && n in m.s && m.s[n].left == c && m.s[n].black == b
      && Rep(m, r, n, m.s[n].right) && HoleRep(m, up, m.s[n].parent, n)
    case InR(up, l, n, b) =>
      && p == n && n in m.s && m.s[n].right == c && m.s[n].black == b
      && Rep(m, l, n, m.s[n].left) && HoleRep(m, up, m.s[n].parent, n)
  }

  lemma MakeRep<T>(m: Mem<T>, l: Tree<T>, n: Node<T>, b: bool, r: Tree<T>, p: Node?<T>)
    requires n in m.s && m.s[n].parent == p && m.s[n].black == b
    requires Rep(m, l, n, m.s[n].left) && Rep(m, r, n, m.s[n].right)
    ensures Rep(m, Br(l, n, b, r), p, n)
  {
  }

  lemma OpenRep<T>(m: Mem<T>, t: Tree<T>, p: Node?<T>, c: Node?<T>)
    requires Rep(m, t, p, c) && t.Br?
    ensures c == t.n && t.n in m.s && m.s[t.n].parent == p && m.s[t.n].black == t.black
    ensures Rep(m, t.l, t.n, m.s[t.n].left) && Rep(m, t.r, t.n, m.s[t.n].right)
  {
  }

  lemma OpenHole<T>(m: Mem<T>, z: Ctx<T>, p: Node?<T>, c: Node?<T>)
    requires HoleRep(m, z, p, c) && !z.Top?
    ensures p == z.n && z.n in m.s && m.s[z.n].black == z.black && HoleRep(m, z.up, m.s[z.n].parent, z.n)
    ensures z.InL? ==> m.s[z.n].left == c && Rep(m, z.r, z.n, m.s[z.n].right)
    ensures z.InR? ==> m.s[z.n].right == c && Rep(m, z.l, z.n, m.s[z.n].left)
  {
  }

  lemma HoleTop<T>(m: Mem<T>, z: Ctx<T>, p: Node?<T>, c: Node?<T>)
    requires HoleRep(m, z, p, c)
    ensures z.Top? <==> p == null
  {
  }

  /** The two snapshots differ at most in the nodes `xs`. */
  ghost predicate SameBut<T>(m: Mem<T>, m': Mem<T>, xs: set<Node<T>>) {
    m'.s.Keys == m.s.Keys && forall n <- m.s :: n in xs || m'.s[n] == m.s[n]
  }

  lemma {:induction false} RepFrame<T>(m: Mem<T>, m': Mem<T>, xs: set<Node<T>>, t: Tree<T>, p: Node?<T>, c: Node?<T>)
    requires Rep(m, t, p, c) && SameBut(m, m', xs) && S(t) !! xs
    ensures Rep(m', t, p, c)
  {
    if t.Br? {
      RepFrame(m, m', xs, t.l, t.n, m.s[t.n].left);
      RepFrame(m, m', xs, t.r, t.n, m.s[t.n].right);
    }
  }

  lemma {:induction false} HoleRepFrame<T>(m: Mem<T>, m': Mem<T>, xs: set<Node<T>>, z: Ctx<T>, p: Node?<T>, c: Node?<T>)
    requires HoleRep(m, z, p, c) && SameBut(m, m', xs) && SC(z) !! xs && m'.root == m.root
    ensures HoleRep(m', z, p, c)
  {
    match z
    case Top =>
    case InL(up, n, _, r) =>
      RepFrame(m, m', xs, r, n, m.s[n].right);
      HoleRepFrame(m, m', xs, up, m.s[n].parent, n);
    case InR(up, l, n, _) =>
      RepFrame(m, m', xs, l, n, m.s[n].left);
      HoleRepFrame(m, m', xs, up, m.s[n].parent, n);
  }

  // ----- the red-black rules ------------------------------------------------------

  predicate IsBlack<T>(t: Tree<T>) { t.Leaf? || t.black }

  function W(black: bool): nat { if black then 1 else 0 }

  /** Every path to a leaf passes `h` black nodes, and no red node has a red child. */
  ghost predicate RB<T>(t: Tree<T>, h: nat) {
    match t
    case Leaf => h == 0
    case Br(l, _, b, r) =>
      h >= W(b) && RB(l, h - W(b)) && RB(r, h - W(b)) && (b || (IsBlack(l) && IsBlack(r)))
  }

  /** A red subtree may stand in the hole: only below a black node. */
  predicate AllowsRed<T>(z: Ctx<T>) { !z.Top? && z.black }

  /** `z` obeys the rules when its hole holds a subtree of black height `h` whose root is black
      (or red, if `AllowsRed`). */
  ghost predicate RBC<T>(z: Ctx<T>, h: nat) {
    match z
    case Top => true
    case InL(up, _, b, r) => RB(r, h) && (b || (IsBlack(r) && AllowsRed(up))) && RBC(up, h + W(b))
    case InR(up, l, _, b) => RB(l, h) && (b || (IsBlack(l) && AllowsRed(up))) && RBC(up, h + W(b))
  }

  ghost predicate RedBlack<T>(t: Tree<T>) {
    IsBlack(t) && exists h: nat :: RB(t, h)
  }

  // ----- plugging ---------------------------------------------------------------------

  lemma {:induction false} PlugOrder<T>(z: Ctx<T>, t: Tree<T>)
    ensures InOrder(Plug(z, t)) == Before(z) + InOrder(t) + After(z)
    decreases z
  {
    if z.InL? {
      PlugOrder(z.up, Plug1(z, t));
      SeqAssoc(Before(z.up), InOrder(t), [z.n], InOrder(z.r), After(z.up));
    } else if z.InR? {
      PlugOrder(z.up, Plug1(z, t));
      SeqAssoc(Before(z.up), InOrder(z.l), [z.n], InOrder(t), After(z.up));
    }
  }

  lemma SeqAssoc<A>(a: seq<A>, b: seq<A>, c: seq<A>, d: seq<A>, e: seq<A>)
    ensures a + (b + c + d) + e == a + b + (c + d + e)
    ensures a + (b + c + d) + e == a + b + c + d + e
  {
  }

  lemma {:induction false} PlugSet<T>(z: Ctx<T>, t: Tree<T>)
    ensures S(Plug(z, t)) == SC(z) + S(t)
    decreases z
  {
    if !z.Top? {
      PlugSet(z.up, Plug1(z, t));
    }
  }

  lemma {:induction false} PlugDistinct<T>(z: Ctx<T>, t: Tree<T>)
    ensures Distinct(Plug(z, t)) <==> Distinct(t) && DistinctC(z, S(t))
    decreases z
  {
    match z
    case Top =>
    case InL(up, n, b, r) =>
      PlugDistinct(up, Br(t, n, b, r));
    case InR(up, l, n, b) =>
      PlugDistinct(up, Br(l, n, b, t));
      assert S(Br(l, n, b, t)) == S(t) + {n} + S(l);
  }

  lemma {:induction false} PlugRep<T>(m: Mem<T>, z: Ctx<T>, t: Tree<T>, p: Node?<T>, c: Node?<T>)
    requires HoleRep(m, z, p, c) && Rep(m, t, p, c)
    ensures Rep(m, Plug(z, t), null, m.root)
    decreases z
  {
    if !z.Top? {
      PlugRep(m, z.up, Plug1(z, t), m.s[z.n].parent, z.n);
    }
  }

  lemma {:induction false} UnplugRep<T>(m: Mem<T>, z: Ctx<T>, t: Tree<T>)
    requires t.Br?
    requires Rep(m, Plug(z, t), null, m.root)
    ensures t.n in m.s && HoleRep(m, z, m.s[t.n].parent, t.n) && Rep(m, t, m.s[t.n].parent, t.n)
    decreases z
  {
    if !z.Top? {
      UnplugRep(m, z.up, Plug1(z, t));
    }
  }

  lemma {:induction false} PlugRB<T>(z: Ctx<T>, t: Tree<T>, h: nat)
    requires RBC(z, h) && RB(t, h) && (IsBlack(t) || AllowsRed(z))
    ensures RedBlack(Plug(z, t))
    decreases z
  {
    if !z.Top? {
      PlugRB(z.up, Plug1(z, t), h + W(z.black));
    }
  }

  /** The converse: cut a red-black tree open at a subtree. */
  lemma {:induction false} UnplugRB<T>(z: Ctx<T>, t: Tree<T>, h: nat) returns (k: nat)
    requires RB(Plug(z, t), h) && IsBlack(Plug(z, t))
    ensures RBC(z, k) && RB(t, k) && (IsBlack(t) || AllowsRed(z))
    decreases z
  {
    if z.Top? {
      k := h;
    } else {
      k := UnplugRB(z.up, Plug1(z, t), h);
      k := k - W(z.black);
    }
  }

  /** Any node of a tree can be brought into focus. */
  lemma {:induction false} Focus<T>(t: Tree<T>, n: Node<T>, z0: Ctx<T>) returns (z: Ctx<T>, u: Tree<T>)
    requires n in S(t)
    ensures u.Br? && u.n == n && Plug(z, u) == Plug(z0, t)
    decreases t
  {
    if n == t.n {
      z, u := z0, t;
    } else if n in S(t.l) {
      z, u := Focus(t.l, n, InL(z0, t.n, t.black, t.r));
    } else {
      z, u := Focus(t.r, n, InR(z0, t.l, t.n, t.black));
    }
  }

  // ----- balance: a red-black tree is shallow ------------------------------------------

  ghost function Height<T>(t: Tree<T>): nat {
    match t
    case Leaf => 0
    case Br(l, _, _, r) => 1 + if Height(l) > Height(r) then Height(l) else Height(r)
  }

  lemma {:induction false} SizeBound<T>(t: Tree<T>, h: nat)
    requires RB(t, h)
    ensures |InOrder(t)| + 1 >= Pow2(h)
  {
    if t.Br? {
      var k := h - W(t.black);
      SizeBound(t.l, k);
      SizeBound(t.r, k);
      assert |InOrder(t)| == |InOrder(t.l)| + 1 + |InOrder(t.r)|;
      assert h == k || Pow2(h) == 2 * Pow2(k);
    }
  }

  lemma {:induction false} RedDepth<T>(t: Tree<T>, h: nat)
    requires RB(t, h)
    ensures Height(t) <= 2 * h + W(!IsBlack(t))
  {
    if t.Br? {
      RedDepth(t.l, h - W(t.black));
      RedDepth(t.r, h - W(t.black));
    }
  }

  /** A path of `Height(t)` nodes is at most 2*log2(n+1) long. */
  lemma {:induction false} HeightBound<T>(t: Tree<T>) returns (k: nat)
    requires RedBlack(t)
    ensures Height(t) <= 2 * k && Pow2(k) <= |InOrder(t)| + 1
  {
    k :| RB(t, k);
    SizeBound(t, k);
    RedDepth(t, k);
  }
}
