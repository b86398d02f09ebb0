/**
 The pointer writes that insertion and erasure share: relinking a child, and rotations. Each is a
 function of the snapshot, with a lemma saying what it does to the shape.
 */
module RBLinks {
  import opened RBShape

  function Paint<T>(t: Tree<T>, black: bool): Tree<T>
    requires t.Br?
  {
    t.(black := black)
  }

  lemma {:induction false} BelowNotInCtx<T>(z: Ctx<T>, below: set<Node<T>>)
    requires DistinctC(z, below)
    ensures SC(z) !! below
  {
    match z
    case Top =>
    case InL(up, n, _, r) => BelowNotInCtx(up, below + {n} + S(r));
    case InR(up, l, n, _) => BelowNotInCtx(up, below + {n} + S(l));
  }

  // ----- the pointer writes, as functions of the snapshot ----------------------------

  function ChangeChild<T>(m: Mem<T>, old': Node<T>, new': Node?<T>, parent: Node?<T>): Mem<T>
    requires m.Has(parent)
  {
    if parent != null then
      if m.s[parent].left == old' then m.SetL(parent, new') else m.SetR(parent, new')
    else m.(root := new')
  }

  lemma ChangeChildRep<T>(m: Mem<T>, z: Ctx<T>, old': Node<T>, new': Node?<T>, parent: Node?<T>, below: set<Node<T>>)
    requires HoleRep(m, z, parent, old') && DistinctC(z, below) && old' in below
    ensures m.Has(parent) && HoleRep(ChangeChild(m, old', new', parent), z, parent, new')
    ensures SameBut(m, ChangeChild(m, old', new', parent), SC(z))
  {
    var m' := ChangeChild(m, old', new', parent);
    match z
    case Top =>
    case InL(up, n, _, r) =>
      BelowNotInCtx(up, below + {n} + S(r));
      RepFrame(m, m', {n}, r, n, m.s[n].right);
      HoleRepFrame(m, m', {n}, up, m.s[n].parent, n);
    case InR(up, l, n, _) =>
      BelowNotInCtx(up, below + {n} + S(l));
      assert m.s[n].left != old';
      RepFrame(m, m', {n}, l, n, m.s[n].left);
      HoleRepFrame(m, m', {n}, up, m.s[n].parent, n);
  }

  function RotateSetParents<T>(m: Mem<T>, old': Node<T>, new': Node<T>, black: bool): Mem<T>
    requires old' in m.s && new' in m.s && m.Has(m.s[old'].parent)
  {
    var parent := m.s[old'].parent;
    ChangeChild(m.SetPC(new', parent, m.s[old'].black).SetPC(old', new', black), old', new', parent)
  }

  lemma HoleHas<T>(m: Mem<T>, z: Ctx<T>, p: Node?<T>, c: Node?<T>)
    requires HoleRep(m, z, p, c)
    ensures m.Has(p)
  {
  }

  /** `new'` takes over parent and colour of `old'`, and `old'` becomes its child; the context now
      holds `new'`, and nothing else below the hole changes. */
  lemma RotateSetParentsRep<T>(m: Mem<T>, z: Ctx<T>, old': Node<T>, new': Node<T>, black: bool, below: set<Node<T>>)
    requires old' in m.s && new' in m.s && old' != new'
    requires HoleRep(m, z, m.s[old'].parent, old') && DistinctC(z, below) && old' in below && new' in below
    ensures m.Has(m.s[old'].parent)
    ensures var m' := RotateSetParents(m, old', new', black);
      && HoleRep(m', z, m.s[old'].parent, new')
      && SameBut(m, m', SC(z) + {old', new'})
      && m'.s[new'] == m.s[new'].(parent := m.s[old'].parent, black := m.s[old'].black)
      && m'.s[old'] == m.s[old'].(parent := new', black := black)
  {
    hide HoleRep, DistinctC, SC;
    var parent := m.s[old'].parent;
    HoleHas(m, z, parent, old');
    var m1 := m.SetPC(new', parent, m.s[old'].black).SetPC(old', new', black);
    BelowNotInCtx(z, below);
    HoleRepFrame(m, m1, {old', new'}, z, parent, old');
    ChangeChildRep(m1, z, old', new', parent, below);
  }

  /** The in-order pieces `a x b y c` share no node. */
  ghost predicate Apart<T>(a: Tree<T>, x: Node<T>, b: Tree<T>, y: Node<T>, c: Tree<T>) {
    && x != y && Distinct(a) && Distinct(b) && Distinct(c)
    && x !in S(a) && x !in S(b) && x !in S(c) && y !in S(a) && y !in S(b) && y !in S(c)
    && S(a) !! S(b) && S(a) !! S(c) && S(b) !! S(c)
  }

  ghost function Pieces<T>(a: Tree<T>, x: Node<T>, b: Tree<T>, y: Node<T>, c: Tree<T>): set<Node<T>> {
    S(a) + {x} + S(b) + {y} + S(c)
  }

  /** Over the nodes `ns`, the snapshot is the tree `t` at pointer `node` inside the context `z`,
      and the whole reads `order`. */
  ghost predicate Placed<T>(m: Mem<T>, z: Ctx<T>, t: Tree<T>, p: Node?<T>, node: Node?<T>,
                            ns: set<Node<T>>, order: seq<Node<T>>)
  {
    && HoleRep(m, z, p, node) && Rep(m, t, p, node) && Distinct(t) && DistinctC(z, S(t))
    && SC(z) + S(t) == ns && m.s.Keys == ns && Before(z) + InOrder(t) + After(z) == order
  }

  /** All that is left to do is to read the tree off: `t` in `z` obeys the red-black rules. */
  ghost predicate Settled<T>(m: Mem<T>, z: Ctx<T>, t: Tree<T>, h: nat, ns: set<Node<T>>, order: seq<Node<T>>) {
    && t.Br? && t.n in m.s && Placed(m, z, t, m.s[t.n].parent, t.n, ns, order)
    && RB(t, h) && RBC(z, h) && (IsBlack(t) || AllowsRed(z))
  }

  lemma SettledPlug<T>(m: Mem<T>, z: Ctx<T>, t: Tree<T>, h: nat, ns: set<Node<T>>, order: seq<Node<T>>)
    requires Settled(m, z, t, h, ns, order)
    ensures var s := Plug(z, t);
      Rep(m, s, null, m.root) && Distinct(s) && RedBlack(s) && InOrder(s) == order && S(s) == ns
  {
    hide S, SC, Distinct, DistinctC, Rep, HoleRep, RB, RBC, Before, After, InOrder, RedBlack, Plug;
    PlugRep(m, z, t, m.s[t.n].parent, t.n);
    PlugDistinct(z, t);
    PlugRB(z, t, h);
    PlugOrder(z, t);
    PlugSet(z, t);
  }

  /** Recolour the root of a tree, if it has one. */
  ghost function Repaint<T>(t: Tree<T>, paint: bool): (r: Tree<T>)
    ensures S(r) == S(t) && InOrder(r) == InOrder(t) && (Distinct(r) <==> Distinct(t))
  {
    if t.Br? && paint then Paint(t, true) else t
  }

  /** `Rep` of everything but parent and colour of the root. */
  ghost predicate RepBelow<T>(m: Mem<T>, t: Tree<T>, c: Node?<T>) {
    match t
    case Leaf => c == null
    case Br(l, n, _, r) => c == n && n in m.s && Rep(m, l, n, m.s[n].left) && Rep(m, r, n, m.s[n].right)
  }

  /** The subtree `t` at `c`: complete, or (when `c` is `due`) waiting for its parent and colour. */
  ghost predicate RepDue<T>(m: Mem<T>, t: Tree<T>, p: Node<T>, c: Node?<T>, due: Node?<T>) {
    if due == null then Rep(m, t, p, c) else t.Br? && c == due && RepBelow(m, t, c)
  }

  /** The node at the root of a tree, if it has one. */
  ghost function RootOf<T>(t: Tree<T>): Node?<T> { if t.Br? then t.n else null }

  lemma RepIsBelow<T>(m: Mem<T>, t: Tree<T>, p: Node?<T>, c: Node?<T>)
    requires Rep(m, t, p, c)
    ensures RepBelow(m, t, c) && m.Has(c) && (if t.Br? then c == t.n else c == null)
  {
  }

  /** Writing parent and colour of the root completes a subtree. */
  lemma CompleteRep<T>(m: Mem<T>, m': Mem<T>, xs: set<Node<T>>, t: Tree<T>, p: Node?<T>, black: bool)
    requires t.Br? && RepBelow(m, t, t.n) && SameBut(m, m', xs) && S(t.l) !! xs && S(t.r) !! xs
    requires t.n in m'.s && m'.s[t.n] == m.s[t.n].(parent := p, black := black)
    ensures Rep(m', Paint(t, black), p, t.n)
  {
    RepFrame(m, m', xs, t.l, t.n, m.s[t.n].left);
    RepFrame(m, m', xs, t.r, t.n, m.s[t.n].right);
  }

  ghost function Opt<T>(n: Node?<T>): set<Node<T>> { if n == null then {} else {n} }

  lemma LeafRep<T>(m: Mem<T>, t: Tree<T>, p: Node<T>, q: Node<T>)
    requires Rep(m, t, p, null)
    ensures Rep(m, t, q, null)
  {
  }

  /** Which pieces a rotation leaves alone. */
  lemma TouchedApart<T>(a: Tree<T>, x: Node<T>, b: Tree<T>, y: Node<T>, c: Tree<T>, outer: Node?<T>, inner: Node?<T>)
    requires Apart(a, x, b, y, c)
    requires outer != null ==> a.Br? && outer == a.n
    requires if b.Br? then inner == b.n else inner == null
    ensures x != y && outer != x && outer != y && inner != x && inner != y && (inner != null ==> inner != outer)
    ensures x in Pieces(a, x, b, y, c) && y in Pieces(a, x, b, y, c)
    ensures Opt(outer) <= Pieces(a, x, b, y, c) && Opt(inner) <= Pieces(a, x, b, y, c)
    ensures S(a) <= Pieces(a, x, b, y, c) && S(b) <= Pieces(a, x, b, y, c) && S(c) <= Pieces(a, x, b, y, c)
    ensures var xs := {y, x} + Opt(outer) + Opt(inner);
      && (outer == null ==> S(a) !! xs)
      && (outer != null ==> Distinct(a) && S(a.l) !! xs && S(a.r) !! xs && S(a.l) <= S(a) && S(a.r) <= S(a))
      && (inner == null ==> S(b) !! xs)
      && (inner != null ==> Distinct(b) && S(b.l) !! xs && S(b.r) !! xs && S(b.l) <= S(b) && S(b.r) <= S(b))
      && S(c) !! xs
  {
  }

  /** The first half of a right rotation: everything but the parent links of `top` and `pivot`. */
  function RelinkRight<T>(m: Mem<T>, top: Node<T>, pivot: Node<T>, outer: Node?<T>, paint: bool): Mem<T>
    requires top in m.s && pivot in m.s && m.Has(outer) && m.Has(m.s[pivot].right)
  {
    var tmp := m.s[pivot].right;
    var m1 := m.SetL(top, tmp).SetR(pivot, top);
    var m2 := if outer == null then m1 else m1.SetPC(outer, pivot, true);
    if tmp == null then m2 else if paint then m2.SetPC(tmp, top, true) else m2.SetP(tmp, top)
  }

  lemma RelinkRightWrites<T>(m: Mem<T>, top: Node<T>, pivot: Node<T>, outer: Node?<T>, paint: bool)
    requires pivot in m.s && top in m.s && pivot != top
    requires m.Has(outer) && outer != pivot && outer != top
    requires m.Has(m.s[pivot].right) && m.s[pivot].right != pivot && m.s[pivot].right != top
    requires m.s[pivot].right != null ==> m.s[pivot].right != outer
    ensures var m', tmp := RelinkRight(m, top, pivot, outer, paint), m.s[pivot].right;
      && m'.root == m.root
      && SameBut(m, m', {top, pivot} + Opt(outer) + Opt(tmp))
      && m'.s[pivot] == m.s[pivot].(right := top)
      && m'.s[top] == m.s[top].(left := tmp)
      && (tmp != null ==> m'.s[tmp] == m.s[tmp].(parent := top, black := paint || m.s[tmp].black))
      && (outer != null ==> m'.s[outer] == m.s[outer].(parent := pivot, black := true))
  {
  }

  /** Right rotation at `top`: its left child `pivot` takes its place and colour, and `top` gets the colour
      `black`. The subtree that changes sides turns black when `paint`; the node `outer`, if any, is
      the pivot's own left child and turns black too. */
  function RotateRight<T>(m: Mem<T>, top: Node<T>, pivot: Node<T>, outer: Node?<T>, black: bool, paint: bool): Mem<T>
    requires top in m.s && pivot in m.s && m.Has(outer) && m.Has(m.s[pivot].right) && m.Has(m.s[top].parent)
  {
    RotateSetParents(RelinkRight(m, top, pivot, outer, paint), top, pivot, black)
  }

  /** The link fields a right rotation leaves behind. */
  lemma RotateRightWrites<T>(m: Mem<T>, zz: Ctx<T>, top: Node<T>, pivot: Node<T>, outer: Node?<T>, black: bool,
                             paint: bool,
                             below: set<Node<T>>)
    requires pivot in m.s && top in m.s && pivot != top && HoleRep(m, zz, m.s[top].parent, top)
    requires DistinctC(zz, below) && top in below && pivot in below
    requires m.Has(outer) && outer != pivot && outer != top && Opt(outer) <= below
    requires m.Has(m.s[pivot].right) && m.s[pivot].right != pivot && m.s[pivot].right != top
    requires m.s[pivot].right != null ==> m.s[pivot].right in below && m.s[pivot].right != outer
    ensures m.Has(m.s[top].parent)
    ensures var m', tmp, parent := RotateRight(m, top, pivot, outer, black, paint), m.s[pivot].right, m.s[top].parent;
      && HoleRep(m', zz, parent, pivot)
      && SameBut(m, m', SC(zz) + {top, pivot} + Opt(outer) + Opt(tmp))
      && m'.s[pivot] == m.s[pivot].(right := top, parent := parent, black := m.s[top].black)
      && m'.s[top] == m.s[top].(left := tmp, parent := pivot, black := black)
      && (tmp != null ==> m'.s[tmp] == m.s[tmp].(parent := top, black := paint || m.s[tmp].black))
      && (outer != null ==> m'.s[outer] == m.s[outer].(parent := pivot, black := true))
  {
    hide S, SC, DistinctC, HoleRep, RelinkRight, RotateSetParents;
    var tmp, parent := m.s[pivot].right, m.s[top].parent;
    HoleHas(m, zz, parent, top);
    var m3 := RelinkRight(m, top, pivot, outer, paint);
    RelinkRightWrites(m, top, pivot, outer, paint);
    BelowNotInCtx(zz, below);
    HoleRepFrame(m, m3, {top, pivot} + Opt(outer) + Opt(tmp), zz, parent, top);
    RotateSetParentsRep(m3, zz, top, pivot, black, below);
  }

  lemma RotateRightRep<T>(m: Mem<T>, zz: Ctx<T>, a: Tree<T>, pivot: Node<T>, b: Tree<T>, top: Node<T>, u: Tree<T>,
                          outer: Node?<T>, black: bool, paint: bool)
    requires pivot in m.s && top in m.s && HoleRep(m, zz, m.s[top].parent, top)
    requires RepDue(m, a, pivot, m.s[pivot].left, outer) && Rep(m, b, pivot, m.s[pivot].right)
      && Rep(m, u, top, m.s[top].right)
    requires Apart(a, pivot, b, top, u) && DistinctC(zz, Pieces(a, pivot, b, top, u))
    ensures m.Has(outer) && m.Has(m.s[pivot].right) && m.Has(m.s[top].parent)
    ensures var m' := RotateRight(m, top, pivot, outer, black, paint);
      && m'.s.Keys == m.s.Keys
      && HoleRep(m', zz, m.s[top].parent, pivot)
      && Rep(m', Br(Repaint(a, outer != null), pivot, m.s[top].black, Br(Repaint(b, paint), top, black, u)),
             m.s[top].parent, pivot)
  {
    hide SC, S, Distinct, Apart, Pieces, DistinctC, Rep, HoleRep, RotateRight;
    var below, parent, tmp := Pieces(a, pivot, b, top, u), m.s[top].parent, m.s[pivot].right;
    HoleHas(m, zz, parent, top);
    BelowNotInCtx(zz, below);
    RepIsBelow(m, b, pivot, tmp);
    TouchedApart(a, pivot, b, top, u, outer, tmp);
    RotateRightWrites(m, zz, top, pivot, outer, black, paint, below);
    var m' := RotateRight(m, top, pivot, outer, black, paint);
    var xs := SC(zz) + {top, pivot} + Opt(outer) + Opt(tmp);
    if outer == null {
      RepFrame(m, m', xs, a, pivot, m.s[pivot].left);
    } else {
      CompleteRep(m, m', xs, a, pivot, true);
    }
    if tmp == null {
      RepFrame(m, m', xs, b, pivot, tmp);
      LeafRep(m', b, pivot, top);
    } else {
      OpenRep(m, b, pivot, tmp);
      CompleteRep(m, m', xs, b, top, paint || b.black);
    }
    RepFrame(m, m', xs, u, top, m.s[top].right);
    MakeRep(m', Repaint(b, paint), top, black, u, pivot);
    MakeRep(m', Repaint(a, outer != null), pivot, m.s[top].black, Br(Repaint(b, paint), top, black, u), parent);
  }

  /** The first half of a left rotation: everything but the parent links of `top` and `pivot`. */
  function RelinkLeft<T>(m: Mem<T>, top: Node<T>, pivot: Node<T>, outer: Node?<T>, paint: bool): Mem<T>
    requires top in m.s && pivot in m.s && m.Has(outer) && m.Has(m.s[pivot].left)
  {
    var tmp := m.s[pivot].left;
    var m1 := m.SetR(top, tmp).SetL(pivot, top);
    var m2 := if outer == null then m1 else m1.SetPC(outer, pivot, true);
    if tmp == null then m2 else if paint then m2.SetPC(tmp, top, true) else m2.SetP(tmp, top)
  }

  lemma RelinkLeftWrites<T>(m: Mem<T>, top: Node<T>, pivot: Node<T>, outer: Node?<T>, paint: bool)
    requires pivot in m.s && top in m.s && pivot != top
    requires m.Has(outer) && outer != pivot && outer != top
    requires m.Has(m.s[pivot].left) && m.s[pivot].left != pivot && m.s[pivot].left != top
    requires m.s[pivot].left != null ==> m.s[pivot].left != outer
    ensures var m', tmp := RelinkLeft(m, top, pivot, outer, paint), m.s[pivot].left;
      && m'.root == m.root
      && SameBut(m, m', {top, pivot} + Opt(outer) + Opt(tmp))
      && m'.s[pivot] == m.s[pivot].(left := top)
      && m'.s[top] == m.s[top].(right := tmp)
      && (tmp != null ==> m'.s[tmp] == m.s[tmp].(parent := top, black := paint || m.s[tmp].black))
      && (outer != null ==> m'.s[outer] == m.s[outer].(parent := pivot, black := true))
  {
  }

  /** Left rotation at `top`: its right child `pivot` takes its place and colour, and `top` gets the colour
      `black`. The subtree that changes sides turns black when `paint`; the node `outer`, if any, is
      the pivot's own right child and turns black too. */
  function RotateLeft<T>(m: Mem<T>, top: Node<T>, pivot: Node<T>, outer: Node?<T>, black: bool, paint: bool): Mem<T>
    requires top in m.s && pivot in m.s && m.Has(outer) && m.Has(m.s[pivot].left) && m.Has(m.s[top].parent)
  {
    RotateSetParents(RelinkLeft(m, top, pivot, outer, paint), top, pivot, black)
  }

  /** The link fields a left rotation leaves behind. */
  lemma RotateLeftWrites<T>(m: Mem<T>, zz: Ctx<T>, top: Node<T>, pivot: Node<T>, outer: Node?<T>, black: bool,
                            paint: bool,
                             below: set<Node<T>>)
    requires pivot in m.s && top in m.s && pivot != top && HoleRep(m, zz, m.s[top].parent, top)
    requires DistinctC(zz, below) && top in below && pivot in below
    requires m.Has(outer) && outer != pivot && outer != top && Opt(outer) <= below
    requires m.Has(m.s[pivot].left) && m.s[pivot].left != pivot && m.s[pivot].left != top
    requires m.s[pivot].left != null ==> m.s[pivot].left in below && m.s[pivot].left != outer
    ensures m.Has(m.s[top].parent)
    ensures var m', tmp, parent := RotateLeft(m, top, pivot, outer, black, paint), m.s[pivot].left, m.s[top].parent;
      && HoleRep(m', zz, parent, pivot)
      && SameBut(m, m', SC(zz) + {top, pivot} + Opt(outer) + Opt(tmp))
      && m'.s[pivot] == m.s[pivot].(left := top, parent := parent, black := m.s[top].black)
      && m'.s[top] == m.s[top].(right := tmp, parent := pivot, black := black)
      && (tmp != null ==> m'.s[tmp] == m.s[tmp].(parent := top, black := paint || m.s[tmp].black))
      && (outer != null ==> m'.s[outer] == m.s[outer].(parent := pivot, black := true))
  {
    hide S, SC, DistinctC, HoleRep, RelinkLeft, RotateSetParents;
    var tmp, parent := m.s[pivot].left, m.s[top].parent;
    HoleHas(m, zz, parent, top);
    var m3 := RelinkLeft(m, top, pivot, outer, paint);
    RelinkLeftWrites(m, top, pivot, outer, paint);
    BelowNotInCtx(zz, below);
    HoleRepFrame(m, m3, {top, pivot} + Opt(outer) + Opt(tmp), zz, parent, top);
    RotateSetParentsRep(m3, zz, top, pivot, black, below);
  }

  lemma RotateLeftRep<T>(m: Mem<T>, zz: Ctx<T>, a: Tree<T>, pivot: Node<T>, b: Tree<T>, top: Node<T>, u: Tree<T>,
                          outer: Node?<T>, black: bool, paint: bool)
    requires pivot in m.s && top in m.s && HoleRep(m, zz, m.s[top].parent, top)
    requires RepDue(m, a, pivot, m.s[pivot].right, outer) && Rep(m, b, pivot, m.s[pivot].left)
      && Rep(m, u, top, m.s[top].left)
    requires Apart(a, pivot, b, top, u) && DistinctC(zz, Pieces(a, pivot, b, top, u))
    ensures m.Has(outer) && m.Has(m.s[pivot].left) && m.Has(m.s[top].parent)
    ensures var m' := RotateLeft(m, top, pivot, outer, black, paint);
      && m'.s.Keys == m.s.Keys
      && HoleRep(m', zz, m.s[top].parent, pivot)
      && Rep(m', Br(Br(u, top, black, Repaint(b, paint)), pivot, m.s[top].black, Repaint(a, outer != null)),
             m.s[top].parent, pivot)
  {
    hide SC, S, Distinct, Apart, Pieces, DistinctC, Rep, HoleRep, RotateLeft;
    var below, parent, tmp := Pieces(a, pivot, b, top, u), m.s[top].parent, m.s[pivot].left;
    HoleHas(m, zz, parent, top);
    BelowNotInCtx(zz, below);
    RepIsBelow(m, b, pivot, tmp);
    TouchedApart(a, pivot, b, top, u, outer, tmp);
    RotateLeftWrites(m, zz, top, pivot, outer, black, paint, below);
    var m' := RotateLeft(m, top, pivot, outer, black, paint);
    var xs := SC(zz) + {top, pivot} + Opt(outer) + Opt(tmp);
    if outer == null {
      RepFrame(m, m', xs, a, pivot, m.s[pivot].right);
    } else {
      CompleteRep(m, m', xs, a, pivot, true);
    }
    if tmp == null {
      RepFrame(m, m', xs, b, pivot, tmp);
      LeafRep(m', b, pivot, top);
    } else {
      OpenRep(m, b, pivot, tmp);
      CompleteRep(m, m', xs, b, top, paint || b.black);
    }
    RepFrame(m, m', xs, u, top, m.s[top].left);
    MakeRep(m', u, top, black, Repaint(b, paint), pivot);
    MakeRep(m', Br(u, top, black, Repaint(b, paint)), pivot, m.s[top].black, Repaint(a, outer != null), parent);
  }
}
