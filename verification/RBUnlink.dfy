/**
 The unlink step of hev-rbtree.c's erase on snapshots: a node with at most one child is replaced by that
 child, a node with two children by its in-order successor.
 */
module RBUnlink {
  import opened RBShape
  import opened RBLinks
  import opened RBInsert
  import opened RBErase

  // ----- the leftmost node of a tree --------------------------------------------------------

  function Min<T>(r: Tree<T>): (m: Tree<T>)
    requires r.Br?
    ensures m.Br? && m.l.Leaf?
  {
    if r.l.Leaf? then r else Min(r.l)
  }

  /** Take the leftmost node out; its right child, turned black, moves up. */
  ghost function DropMin<T>(r: Tree<T>): Tree<T>
    requires r.Br?
  {
    if r.l.Leaf? then Repaint(r.r, true) else Br(DropMin(r.l), r.n, r.black, r.r)
  }

  /** The context of the leftmost node, for `r` in the hole of `z`. */
  function MinPath<T>(r: Tree<T>, z: Ctx<T>): Ctx<T>
    requires r.Br?
  {
    if r.l.Leaf? then z else MinPath(r.l, InL(z, r.n, r.black, r.r))
  }

  lemma {:induction false} MinShape<T>(r: Tree<T>)
    requires r.Br?
    ensures InOrder(r) == [Min(r).n] + InOrder(DropMin(r))
  {
    if !r.l.Leaf? {
      MinShape(r.l);
      assert InOrder(r) == [Min(r).n] + (InOrder(DropMin(r.l)) + [r.n] + InOrder(r.r));
    }
  }

  lemma {:induction false} MinDistinct<T>(r: Tree<T>)
    requires r.Br? && Distinct(r)
    ensures Distinct(DropMin(r)) && S(DropMin(r)) == S(r) - {Min(r).n} && Min(r).n in S(r)
    ensures S(Min(r).r) <= S(DropMin(r)) && Distinct(Min(r))
  {
    if !r.l.Leaf? {
      MinDistinct(r.l);
    }
  }

  lemma {:induction false} MinPlug<T>(r: Tree<T>, z: Ctx<T>)
    requires r.Br?
    ensures Plug(MinPath(r, z), Min(r)) == Plug(z, r)
    ensures Plug(MinPath(r, z), Repaint(Min(r).r, true)) == Plug(z, DropMin(r))
    ensures !z.Top? ==> !MinPath(r, z).Top?
  {
    if !r.l.Leaf? {
      MinPlug(r.l, InL(z, r.n, r.black, r.r));
    }
  }

  /** The black height survives if the leftmost node is red or has a child to turn black. */
  lemma {:induction false} DropMinRB<T>(r: Tree<T>, k: nat)
    requires r.Br? && RB(r, k) && (!Min(r).black || Min(r).r.Br?)
    ensures RB(DropMin(r), k) && (IsBlack(r) ==> IsBlack(DropMin(r)))
  {
    if r.l.Leaf? {
      OneChild(r, k);
    } else {
      DropMinRB(r.l, k - W(r.black));
    }
  }

  /** A node with one child is black and the child a red leaf. */
  lemma OneChild<T>(t: Tree<T>, k: nat)
    requires t.Br? && RB(t, k) && (t.l.Leaf? || t.r.Leaf?)
    ensures k == W(t.black)
    ensures t.l.Br? ==> t.black && RB(Paint(t.l, true), k)
    ensures t.r.Br? ==> t.black && RB(Paint(t.r, true), k)
  {
  }

  /** Colours along the path to the leftmost node do not depend on which nodes lie above. */
  lemma {:induction false} MinPathRB<T>(r: Tree<T>, z: Ctx<T>, z': Ctx<T>, k: nat)
    requires r.Br? && RBC(MinPath(r, z), k)
    requires z.Top? == z'.Top? && AllowsRed(z) == AllowsRed(z') && forall j: nat :: RBC(z, j) ==> RBC(z', j)
    ensures RBC(MinPath(r, z'), k)
  {
    if !r.l.Leaf? {
      MinPathRB(r.l, InL(z, r.n, r.black, r.r), InL(z', r.n, r.black, r.r), k);
    }
  }

  // ----- the hole a missing leaf leaves ---------------------------------------------------------

  lemma {:induction false} UnplugHole<T>(m: Mem<T>, z: Ctx<T>, t: Tree<T>)
    requires !z.Top? && Rep(m, Plug(z, t), null, m.root)
    ensures z.n in m.s && HoleRep(m, z, z.n, NearP(m, z, z.n)) && Rep(m, t, z.n, NearP(m, z, z.n))
    decreases z
  {
    if z.up.Top? {
      assert Plug(z, t) == Plug1(z, t);
    } else {
      UnplugHole(m, z.up, Plug1(z, t));
    }
  }

  /** Nodes outside the tree do not matter. */
  lemma {:induction false} RepRestrict<T>(m: Mem<T>, m': Mem<T>, t: Tree<T>, p: Node?<T>, c: Node?<T>)
    requires Rep(m, t, p, c) && forall n <- S(t) :: n in m.s ==> n in m'.s && m'.s[n] == m.s[n]
    ensures Rep(m', t, p, c)
  {
    if t.Br? {
      RepRestrict(m, m', t.l, t.n, m.s[t.n].left);
      RepRestrict(m, m', t.r, t.n, m.s[t.n].right);
    }
  }

  // ----- at most one child -------------------------------------------------------------------------

  /** Case 1: `child` takes the place, parent and colour of `node`. */
  function UnlinkOne<T>(m: Mem<T>, node: Node<T>, child: Node?<T>): Mem<T>
    requires node in m.s && m.Has(child) && m.Has(m.s[node].parent)
  {
    var parent, black := m.s[node].parent, m.s[node].black;
    var m1 := ChangeChild(m, node, child, parent);
    if child == null then m1 else m1.SetPC(child, parent, black)
  }

  lemma Commute<K, V>(s: map<K, V>, k: K, v: V, l: K, w: V)
    requires k != l
    ensures s[k := v][l := w] == s[l := w][k := v]
  {
  }

  /** Parent and colour of the child may as well be written before its parent's link. */
  lemma ColorFirst<T>(m: Mem<T>, node: Node<T>, child: Node<T>)
    requires node in m.s && child in m.s && m.Has(m.s[node].parent)
    ensures var m1 := m.SetPC(child, m.s[node].parent, m.s[node].black);
      && m1.s.Keys == m.s.Keys && m1.Has(m.s[node].parent)
      && ChangeChild(m1, node, child, m.s[node].parent) == UnlinkOne(m, node, child)
  {
    var parent, c := m.s[node].parent, m.s[child].(parent := m.s[node].parent, black := m.s[node].black);
    if parent != null && parent != child {
      var p := m.s[parent];
      Commute(m.s, child, c, parent, if p.left == node then p.(left := child) else p.(right := child));
    }
  }

  lemma UnlinkOneRep<T>(m: Mem<T>, z: Ctx<T>, t: Tree<T>, c: Tree<T>, child: Node?<T>)
    requires t.Br? && t.n in m.s && Placed(m, z, t, m.s[t.n].parent, t.n, m.s.Keys, Before(z) + InOrder(t) + After(z))
    requires (t.l.Leaf? && c == t.r) || (t.r.Leaf? && c == t.l)
    requires child == RootOf(c)
    ensures m.Has(child) && m.Has(m.s[t.n].parent)
    ensures var m' := UnlinkOne(m, t.n, child);
      && m'.s.Keys == m.s.Keys && HoleRep(m', z, m.s[t.n].parent, child)
      && Rep(m', if c.Br? then Paint(c, t.black) else Leaf, m.s[t.n].parent, child)
  {
    hide S, SC, Distinct, DistinctC, Rep, HoleRep, ChangeChild, Before, After, InOrder;
    var node, parent := t.n, m.s[t.n].parent;
    OnlyChild(m, t, c, child, parent);
    RepIsBelow(m, c, node, child);
    HoleHas(m, z, parent, node);
    BelowNotInCtx(z, S(t));
    ChangeChildRep(m, z, node, child, parent, S(t));
    var m1 := ChangeChild(m, node, child, parent);
    if child != null {
      var m' := UnlinkOne(m, node, child);
      RootIn(c);
      HoleRepFrame(m1, m', {child}, z, parent, child);
      SubApart(c);
      CompleteRep(m, m', SC(z) + {child}, c, parent, t.black);
    } else {
      EmptyRep(m1, parent);
    }
  }

  lemma OnlyChild<T>(m: Mem<T>, t: Tree<T>, c: Tree<T>, child: Node?<T>, parent: Node?<T>)
    requires t.Br? && Rep(m, t, parent, t.n) && Distinct(t) && child == RootOf(c)
    requires (t.l.Leaf? && c == t.r) || (t.r.Leaf? && c == t.l)
    ensures Rep(m, c, t.n, child) && S(c) <= S(t) && t.n in S(t) && t.n !in S(c) && Distinct(c)
    ensures t.n in m.s && m.s[t.n].black == t.black
  {
    OpenRep(m, t, parent, t.n);
  }

  lemma RootIn<T>(t: Tree<T>)
    requires t.Br?
    ensures t.n in S(t)
  {
  }

  lemma SubApart<T>(t: Tree<T>)
    requires t.Br? && Distinct(t)
    ensures t.n !in S(t.l) && t.n !in S(t.r) && S(t.l) <= S(t) && S(t.r) <= S(t)
  {
  }

  lemma EmptyRep<T>(m: Mem<T>, p: Node?<T>)
    ensures Rep(m, Leaf, p, null)
  {
  }

  // ----- two children -------------------------------------------------------------------------------

  /** The parent of the leftmost node. */
  function MinParent<T>(r: Tree<T>): Node<T>
    requires r.Br? && r.l.Br?
  {
    if r.l.l.Leaf? then r.n else MinParent(r.l)
  }

  lemma {:induction false} MinParentIn<T>(r: Tree<T>)
    requires r.Br? && r.l.Br? && Distinct(r)
    ensures MinParent(r) in S(DropMin(r)) && MinParent(r) != Min(r).n && MinParent(r) !in S(Min(r).r) && r.n != Min(r).n
    ensures r.n !in S(Min(r).r) && DropMin(r).Br? && DropMin(r).n == r.n && DropMin(r).black == r.black
    ensures r.n != MinParent(r) <==> r.l.l.Br?
  {
    MinDistinct(r.l);
    assert Min(r) == Min(r.l);
    if r.l.l.Br? {
      MinParentIn(r.l);
    }
  }

  /** Unhooking the leftmost node from its parent. */
  lemma {:induction false} DropMinRep<T>(m: Mem<T>, m': Mem<T>, r: Tree<T>, p: Node?<T>, c: Node?<T>)
    requires r.Br? && r.l.Br? && Distinct(r) && Rep(m, r, p, c)
    requires var c2, par := Min(r).r, MinParent(r);
      && SameBut(m, m', {par} + (if c2.Br? then {c2.n} else {}))
      && par in m.s && m'.s[par] == m.s[par].(left := RootOf(c2))
      && (c2.Br? ==> c2.n in m.s && m'.s[c2.n] == m.s[c2.n].(parent := par, black := true))
    ensures Rep(m', DropMin(r), p, c)
    decreases r
  {
    var c2, par, n := Min(r).r, MinParent(r), r.n;
    var xs := {par} + (if c2.Br? then {c2.n} else {});
    OpenRep(m, r, p, c);
    MinParentIn(r);
    MinDistinct(r.l);
    assert xs <= {par} + S(c2) && (r.l.l.Br? ==> par in S(r.l)) by { if r.l.l.Br? { MinParentIn(r.l); } }
    assert S(r.r) !! xs;
    RepFrame(m, m', xs, r.r, n, m.s[n].right);
    if r.l.l.Leaf? {
      OpenRep(m, r.l, n, m.s[n].left);
      MinRightRep(m, m', xs, r.l, n);
    } else {
      DropMinRep(m, m', r.l, n, m.s[n].left);
    }
    hide S, Distinct;
  }

  lemma MinRightRep<T>(m: Mem<T>, m': Mem<T>, xs: set<Node<T>>, u: Tree<T>, par: Node<T>)
    requires u.Br? && u.n in m.s && Rep(m, u.r, u.n, m.s[u.n].right) && SameBut(m, m', xs)
    requires if u.r.Br? then S(u.r.l) !! xs && S(u.r.r) !! xs else S(u.r) !! xs
    requires u.r.Br? ==> u.r.n in m.s && m'.s[u.r.n] == m.s[u.r.n].(parent := par, black := true)
    ensures Rep(m', Repaint(u.r, true), par, RootOf(u.r))
  {
    if u.r.Br? {
      RepIsBelow(m, u.r, u.n, m.s[u.n].right);
      CompleteRep(m, m', xs, u.r, par, true);
    }
  }

  /** The links below `node`: the successor takes over both children. In case 2 the successor is the right
      child itself and `parent` is the successor. */
  function TakeChildren<T>(m: Mem<T>, node: Node<T>, successor: Node<T>, parent: Node<T>): Mem<T>
    requires node in m.s && successor in m.s && parent in m.s
    requires m.s[node].left != null && m.s[node].left in m.s && m.s[node].right != null && m.s[node].right in m.s
  {
    var child, tmp := m.s[node].right, m.s[node].left;
    var m1 := if successor == child then m
              else m.SetL(parent, m.s[successor].right).SetR(successor, child).SetP(child, successor);
    m1.SetL(successor, tmp).SetP(tmp, successor)
  }

  /** The links above: the successor takes parent and colour of `node`, its old right child goes to `parent`. */
  function TakePlace<T>(m: Mem<T>, node: Node<T>, successor: Node<T>, parent: Node<T>, child2: Node?<T>): Mem<T>
    requires node in m.s && successor in m.s && m.Has(child2) && m.Has(m.s[node].parent)
  {
    var up, black := m.s[node].parent, m.s[node].black;
    var m3 := ChangeChild(m, node, successor, up);
    var m4 := if child2 == null then m3 else m3.SetPC(child2, parent, true);
    m4.SetPC(successor, up, black)
  }

  lemma TakePlaceWrites<T>(m: Mem<T>, z: Ctx<T>, node: Node<T>, s: Node<T>, par: Node<T>, child2: Node?<T>,
                           below: set<Node<T>>)
    requires node in m.s && s in m.s && m.Has(child2) && s != child2 && HoleRep(m, z, m.s[node].parent, node)
    requires DistinctC(z, below) && {node, s} + Opt(child2) <= below
    ensures m.Has(m.s[node].parent)
    ensures var m', up := TakePlace(m, node, s, par, child2), m.s[node].parent;
      && HoleRep(m', z, up, s) && SameBut(m, m', SC(z) + {s} + Opt(child2))
      && m'.s[s] == m.s[s].(parent := up, black := m.s[node].black)
      && (child2 != null ==> m'.s[child2] == m.s[child2].(parent := par, black := true))
  {
    hide S, SC, DistinctC, HoleRep, ChangeChild;
    var up := m.s[node].parent;
    HoleHas(m, z, up, node);
    BelowNotInCtx(z, below);
    ChangeChildRep(m, z, node, s, up, below);
    var m3, m' := ChangeChild(m, node, s, up), TakePlace(m, node, s, par, child2);
    assert SC(z) !! {s} + Opt(child2);
    HoleRepFrame(m3, m', {s} + Opt(child2), z, up, s);
  }

  /** Cases 2 and 3: the successor takes the place of `node`. */
  function UnlinkTwo<T>(m: Mem<T>, node: Node<T>, successor: Node<T>, parent: Node<T>): Mem<T>
    requires node in m.s && successor in m.s && parent in m.s && m.Has(m.s[successor].right) && m.Has(m.s[node].parent)
    requires m.s[node].left != null && m.s[node].left in m.s && m.s[node].right != null && m.s[node].right in m.s
    requires node != successor && node != parent && node != m.s[node].left && node != m.s[node].right
  {
    TakePlace(TakeChildren(m, node, successor, parent), node, successor, parent, m.s[successor].right)
  }

  /** The nodes involved are different ones. */
  ghost predicate Roles<T>(m: Mem<T>, node: Node<T>, s: Node<T>, par: Node<T>) {
    && node in m.s && s in m.s && par in m.s && m.Has(m.s[s].right)
    && m.s[node].left != null && m.s[node].left in m.s && m.s[node].right != null && m.s[node].right in m.s
    && var l, child, child2 := m.s[node].left, m.s[node].right, m.s[s].right;
    && node != s && node != par && node != child && node != l && node != child2
    && s != l && s != child2 && l != child && l != par && l != child2 && child2 != par && child2 != child
    && (s == child <==> par == s)
  }

  lemma TakeChildrenWrites<T>(m: Mem<T>, node: Node<T>, s: Node<T>, par: Node<T>)
    requires Roles(m, node, s, par)
    ensures var l, child, child2, m' := m.s[node].left, m.s[node].right, m.s[s].right, TakeChildren(m, node, s, par);
      && m'.root == m.root && SameBut(m, m', {s, l, child, par})
      && m'.s[s] == m.s[s].(left := l, right := if s == child then child2 else child)
      && m'.s[l] == m.s[l].(parent := s)
      && (s != child && child == par ==> m'.s[child] == m.s[child].(left := child2, parent := s))
      && (s != child && child != par ==>
            m'.s[child] == m.s[child].(parent := s) && m'.s[par] == m.s[par].(left := child2))
  {
  }

  lemma UnlinkTwoWrites<T>(m: Mem<T>, z: Ctx<T>, node: Node<T>, s: Node<T>, par: Node<T>, below: set<Node<T>>)
    requires Roles(m, node, s, par) && HoleRep(m, z, m.s[node].parent, node) && DistinctC(z, below)
    requires {node, s, par, m.s[node].left, m.s[node].right} + Opt(m.s[s].right) <= below
    ensures m.Has(m.s[node].parent)
    ensures var l, child, child2, up := m.s[node].left, m.s[node].right, m.s[s].right, m.s[node].parent;
      var m', m2 := UnlinkTwo(m, node, s, par), TakeChildren(m, node, s, par);
      && HoleRep(m', z, up, s) && SameBut(m2, m', SC(z) + {s} + Opt(child2))
      && m'.s[s] == m2.s[s].(parent := up, black := m.s[node].black)
      && (child2 != null ==> m'.s[child2] == m.s[child2].(parent := par, black := true))
  {
    hide S, SC, DistinctC, HoleRep, TakeChildren, TakePlace;
    var l, child, child2, up := m.s[node].left, m.s[node].right, m.s[s].right, m.s[node].parent;
    HoleHas(m, z, up, node);
    TakeChildrenWrites(m, node, s, par);
    var m2 := TakeChildren(m, node, s, par);
    BelowNotInCtx(z, below);
    HoleRepFrame(m, m2, {s, l, child, par}, z, up, node);
    TakePlaceWrites(m2, z, node, s, par, child2, below);
  }

  /** The leftmost node of `r` and its parent, read off the snapshot. */
  lemma {:induction false} MinRep<T>(m: Mem<T>, r: Tree<T>, p: Node?<T>, c: Node?<T>)
    requires r.Br? && Rep(m, r, p, c)
    ensures var u := Min(r);
      && u.n in m.s && m.s[u.n].left == null && m.s[u.n].black == u.black && Rep(m, u.r, u.n, m.s[u.n].right)
      && (r.l.Br? ==> MinParent(r) in m.s)
  {
    OpenRep(m, r, p, c);
    if r.l.Br? {
      MinRep(m, r.l, r.n, m.s[r.n].left);
    }
  }

  function SuccessorParent<T>(r: Tree<T>): Node<T>
    requires r.Br?
  {
    if r.l.Leaf? then r.n else MinParent(r)
  }

  /** The nodes that change place when `t` loses its root. */
  lemma TwoApart<T>(t: Tree<T>)
    requires t.Br? && t.l.Br? && t.r.Br? && Distinct(t)
    ensures var node, l, r, s, par := t.n, t.l, t.r, Min(t.r).n, SuccessorParent(t.r);
      var c2 := Min(r).r;
      && s in S(r) && par in S(r) && r.n in S(r) && l.n in S(l) && S(c2) <= S(r) && s !in S(c2) && par !in S(c2) - {s}
        && r.n !in S(c2) - {s}
      && (s == r.n <==> par == s) && (s == r.n <==> r.l.Leaf?)
      && node !in S(l) && node !in S(r) && S(l) !! S(r)
      && Distinct(DropMin(r)) && S(DropMin(r)) == S(r) - {s} && Distinct(l) && Distinct(r)
  {
    hide InOrder;
    var l, r := t.l, t.r;
    MinDistinct(r);
    if r.l.Br? {
      MinParentIn(r);
    }
    assert Min(r).n !in S(Min(r).r);
  }

  /** The shape after the successor took the root's place. */
  ghost function Succeeded<T>(t: Tree<T>): Tree<T>
    requires t.Br? && t.r.Br?
  {
    Br(t.l, Min(t.r).n, t.black, DropMin(t.r))
  }

  lemma SucceededShape<T>(t: Tree<T>)
    requires t.Br? && t.l.Br? && t.r.Br? && Distinct(t)
    ensures S(Succeeded(t)) == S(t) - {t.n} && Distinct(Succeeded(t))
    ensures InOrder(t) == InOrder(t.l) + [t.n] + InOrder(t.r) && InOrder(Succeeded(t)) == InOrder(t.l) + InOrder(t.r)
  {
    hide S, Distinct, InOrder, Min, DropMin;
    MinShape(t.r);
    OpenBranch(t);
    MinDistinct(t.r);
    var l, s, d := t.l, Min(t.r).n, DropMin(t.r);
    MakeBranch(l, s, t.black, d);
    SwapRoot(S(l), t.n, S(t.r), s);
    assert InOrder(l) + [s] + InOrder(d) == InOrder(l) + ([s] + InOrder(d));
  }

  lemma SwapRoot<A>(a: set<A>, n: A, b: set<A>, s: A)
    requires n !in a && n !in b && s in b
    ensures a + {s} + (b - {s}) == a + {n} + b - {n}
  {
  }

  lemma OpenBranch<T>(t: Tree<T>)
    requires t.Br? && Distinct(t)
    ensures t.n !in S(t.l) && t.n !in S(t.r) && S(t.l) !! S(t.r) && Distinct(t.l) && Distinct(t.r)
    ensures S(t) == S(t.l) + {t.n} + S(t.r) && InOrder(t) == InOrder(t.l) + [t.n] + InOrder(t.r)
  {
  }

  lemma MakeBranch<T>(l: Tree<T>, n: Node<T>, black: bool, r: Tree<T>)
    requires n !in S(l) && n !in S(r) && S(l) !! S(r) && Distinct(l) && Distinct(r)
    ensures var t := Br(l, n, black, r);
      Distinct(t) && S(t) == S(l) + {n} + S(r)
      && InOrder(t) == InOrder(l) + [n] + InOrder(r)
  {
  }

  lemma TwoRoles<T>(m: Mem<T>, t: Tree<T>, up: Node?<T>)
    requires t.Br? && t.l.Br? && t.r.Br? && Distinct(t) && Rep(m, t, up, t.n)
    ensures Roles(m, t.n, Min(t.r).n, SuccessorParent(t.r))
    ensures m.s[t.n].left == t.l.n && m.s[t.n].right == t.r.n && m.s[t.n].parent == up && m.s[t.n].black == t.black
    ensures m.s[Min(t.r).n].right == RootOf(Min(t.r).r)
    ensures m.s[Min(t.r).n].black == Min(t.r).black
    ensures {t.n, Min(t.r).n, SuccessorParent(t.r), t.l.n, t.r.n} + Opt(m.s[Min(t.r).n].right) <= S(t)
    ensures Opt(m.s[Min(t.r).n].right) <= S(t.r)
  {
    hide Rep, Distinct, DropMin;
    OpenRep(m, t, up, t.n);
    OpenRep(m, t.l, t.n, m.s[t.n].left);
    OpenRep(m, t.r, t.n, m.s[t.n].right);
    MinRep(m, t.r, t.n, t.r.n);
    TwoApart(t);
    var u := Min(t.r);
    RepIsBelow(m, u.r, u.n, m.s[u.n].right);
    if u.r.Br? { RootIn(u.r); }
  }

  /** Where `r` hangs after its leftmost node has left. Case 2: the right child itself is the successor. */
  lemma SuccessorIsChild<T>(m: Mem<T>, m': Mem<T>, z: Ctx<T>, t: Tree<T>, up: Node?<T>)
    requires t.Br? && t.l.Br? && t.r.Br? && t.r.l.Leaf? && Distinct(t) && DistinctC(z, S(t)) && Rep(m, t, up, t.n)
    requires HoleRep(m, z, up, t.n) && m.Has(up) && Roles(m, t.n, t.r.n, t.r.n) && m' == UnlinkTwo(m, t.n, t.r.n, t.r.n)
    ensures t.r.n in m'.s && Rep(m', DropMin(t.r), t.r.n, m'.s[t.r.n].right)
  {
    hide SC, DistinctC, Rep, HoleRep, UnlinkTwo, TakeChildren;
    var node, l, s := t.n, t.l, t.r.n;
    TwoRoles(m, t, up);
    TwoApart(t);
    BelowNotInCtx(z, S(t));
    UnlinkTwoWrites(m, z, node, s, s, S(t));
    TakeChildrenWrites(m, node, s, s);
    OpenRep(m, t, up, node);
    OpenRep(m, t.r, node, s);
    MinRightRep(m, m', SC(z) + {s, l.n} + Opt(m.s[s].right), t.r, s);
  }

  /** Case 3: the successor lies deeper. */
  lemma SuccessorIsDeep<T>(m: Mem<T>, m': Mem<T>, z: Ctx<T>, t: Tree<T>, up: Node?<T>)
    requires t.Br? && t.l.Br? && t.r.Br? && t.r.l.Br? && Distinct(t) && DistinctC(z, S(t)) && Rep(m, t, up, t.n)
    requires HoleRep(m, z, up, t.n) && m.Has(up) && Roles(m, t.n, Min(t.r).n, MinParent(t.r))
    requires m' == UnlinkTwo(m, t.n, Min(t.r).n, MinParent(t.r))
    ensures Min(t.r).n in m'.s && Rep(m', DropMin(t.r), Min(t.r).n, m'.s[Min(t.r).n].right)
  {
    hide S, SC, Distinct, DistinctC, Rep, HoleRep, UnlinkTwo, TakeChildren, DropMin, Min, MinParent;
    var node, l, r, s, par := t.n, t.l, t.r, Min(t.r).n, MinParent(t.r);
    TwoRoles(m, t, up);
    TwoApart(t);
    BelowNotInCtx(z, S(t));
    TreeParts(t);
    UnlinkTwoWrites(m, z, node, s, par, S(t));
    TakeChildrenWrites(m, node, s, par);
    DeepMoved(m, t, up);
    MinParentIn(r);
    SubApart(DropMin(r));
    OpenRep(m, t, up, node);
    OpenRep(m, r, node, r.n);
    CompleteRep(MinGone(m, s, par), m', SC(z) + {s, l.n, r.n}, DropMin(r), s, r.black);
  }

  /** The links after the leftmost node `s` below `par` has made way for its right child. */
  function MinGone<T>(m: Mem<T>, s: Node<T>, par: Node<T>): Mem<T>
    requires s in m.s && par in m.s && m.Has(m.s[s].right)
  {
    var c := m.s[s].right;
    if c == null then m.SetL(par, null) else m.SetL(par, c).SetPC(c, par, true)
  }

  lemma DeepMoved<T>(m: Mem<T>, t: Tree<T>, up: Node?<T>)
    requires t.Br? && t.l.Br? && t.r.Br? && t.r.l.Br? && Distinct(t) && Rep(m, t, up, t.n)
    requires Roles(m, t.n, Min(t.r).n, MinParent(t.r))
    ensures RepBelow(MinGone(m, Min(t.r).n, MinParent(t.r)), DropMin(t.r), t.r.n)
  {
    hide S, Distinct, Rep;
    var node, r, s, par := t.n, t.r, Min(t.r).n, MinParent(t.r);
    TwoRoles(m, t, up);
    TwoApart(t);
    OpenRep(m, t, up, node);
    var mv := MinGone(m, s, par);
    DropMinRep(m, mv, r, node, r.n);
    RepIsBelow(mv, DropMin(r), node, r.n);
  }

  lemma TreeParts<T>(t: Tree<T>)
    requires t.Br?
    ensures S(t) == S(t.l) + {t.n} + S(t.r)
  {
  }

  /** Replacing `node` by its successor leaves exactly the tree `Succeeded(t)` in the hole. */
  lemma UnlinkTwoRep<T>(m: Mem<T>, z: Ctx<T>, t: Tree<T>, up: Node?<T>)
    requires t.Br? && t.l.Br? && t.r.Br? && Distinct(t) && DistinctC(z, S(t)) && Rep(m, t, up, t.n)
      && HoleRep(m, z, up, t.n)
    ensures m.Has(up) && Roles(m, t.n, Min(t.r).n, SuccessorParent(t.r)) && m.s[t.n].parent == up
    ensures var m' := UnlinkTwo(m, t.n, Min(t.r).n, SuccessorParent(t.r));
      m'.s.Keys == m.s.Keys && HoleRep(m', z, up, Min(t.r).n) && Rep(m', Succeeded(t), up, Min(t.r).n)
  {
    hide S, SC, Distinct, DistinctC, Rep, HoleRep, UnlinkTwo, TakeChildren, DropMin;
    var node, l, r, s, par := t.n, t.l, t.r, Min(t.r).n, SuccessorParent(t.r);
    HoleHas(m, z, up, node);
    TwoRoles(m, t, up);
    TwoApart(t);
    BelowNotInCtx(z, S(t));
    TreeParts(t);
    UnlinkTwoWrites(m, z, node, s, par, S(t));
    TakeChildrenWrites(m, node, s, par);
    OpenRep(m, t, up, node);
    var m' := UnlinkTwo(m, node, s, par);
    if r.l.Leaf? { SuccessorIsChild(m, m', z, t, up); } else { SuccessorIsDeep(m, m', z, t, up); }
    SubApart(l);
    RepIsBelow(m, l, node, l.n);
    OpenRep(m, l, node, l.n);
    CompleteRep(m, m', SC(z) + {s, l.n, r.n, par} + Opt(m.s[s].right), l, s, l.black);
    MakeRep(m', l, s, t.black, DropMin(r), up);
  }

  // ----- what the unlink step leaves --------------------------------------------------------------

  lemma {:induction false} DistinctCMono<T>(z: Ctx<T>, below: set<Node<T>>, less: set<Node<T>>)
    requires DistinctC(z, below) && less <= below
    ensures DistinctC(z, less)
  {
    match z
    case Top =>
    case InL(up, n, _, r) => DistinctCMono(up, below + {n} + S(r), less + {n} + S(r));
    case InR(up, l, n, _) => DistinctCMono(up, below + {n} + S(l), less + {n} + S(l));
  }

  /** Put a smaller subtree into the hole. */
  lemma Refill<T>(m: Mem<T>, z: Ctx<T>, t: Tree<T>, u: Tree<T>, n: Node<T>, p: Node?<T>, c: Node?<T>)
    requires HoleRep(m, z, p, c) && Rep(m, u, p, c) && Distinct(u) && DistinctC(z, S(t)) && n in S(t)
      && S(u) == S(t) - {n}
    ensures var N := Plug(z, u);
      && Rep(m, N, null, m.root) && Distinct(N) && S(N) == S(Plug(z, t)) - {n}
      && InOrder(N) == Before(z) + InOrder(u) + After(z)
  {
    hide S, SC, Distinct, DistinctC, Rep, HoleRep, Plug, Before, After, InOrder;
    DistinctCMono(z, S(t), S(u));
    BelowNotInCtx(z, S(t));
    PlugRep(m, z, u, p, c);
    PlugDistinct(z, u);
    PlugSet(z, u);
    PlugSet(z, t);
    PlugOrder(z, u);
  }

  /** `m` over `ns` is a tree `N` that reads `order`; if `lack`, it is one black node short at the hole of `Z`. */
  ghost predicate Unlinked<T>(m: Mem<T>, N: Tree<T>, Z: Ctx<T>, lack: bool, ns: set<Node<T>>, order: seq<Node<T>>) {
    && Rep(m, N, null, m.root) && Distinct(N) && S(N) == ns && InOrder(N) == order
    && (if lack then N == Plug(Z, Leaf) && !Z.Top? && RBC(Z, 1) else RedBlack(N))
  }

  ghost function Promoted<T>(c: Tree<T>, black: bool): Tree<T> { if c.Br? then Paint(c, black) else Leaf }

  lemma OneOutcome<T>(m: Mem<T>, z: Ctx<T>, t: Tree<T>, c: Tree<T>, child: Node?<T>, k: nat)
    requires t.Br? && t.n in m.s && Placed(m, z, t, m.s[t.n].parent, t.n, m.s.Keys, Before(z) + InOrder(t) + After(z))
    requires (t.l.Leaf? && c == t.r) || (t.r.Leaf? && c == t.l)
    requires child == RootOf(c)
    requires RB(t, k) && RBC(z, k) && (IsBlack(t) || AllowsRed(z))
    ensures m.Has(child) && m.Has(m.s[t.n].parent)
    ensures Unlinked(UnlinkOne(m, t.n, child), Plug(z, Promoted(c, t.black)), z, !(c.Br? || !t.black || z.Top?),
                     S(Plug(z, t)) - {t.n}, Before(z) + (InOrder(t.l) + InOrder(t.r)) + After(z))
  {
    UnlinkOneRep(m, z, t, c, child);
    var m', u := UnlinkOne(m, t.n, child), Promoted(c, t.black);
    assert Distinct(c) && S(c) == S(t) - {t.n} && InOrder(c) == InOrder(t.l) + InOrder(t.r);
    assert S(u) == S(c) && Distinct(u) && InOrder(u) == InOrder(c);
    OneColors(z, t, c, k);
    hide S, SC, Distinct, DistinctC, Rep, HoleRep, Plug, Before, After, InOrder, UnlinkOne;
    RootIn(t);
    Refill(m', z, t, u, t.n, m.s[t.n].parent, child);
  }

  lemma OneColors<T>(z: Ctx<T>, t: Tree<T>, c: Tree<T>, k: nat)
    requires t.Br? && ((t.l.Leaf? && c == t.r) || (t.r.Leaf? && c == t.l))
    requires RB(t, k) && RBC(z, k) && (IsBlack(t) || AllowsRed(z))
    ensures if c.Br? || !t.black || z.Top? then RedBlack(Plug(z, Promoted(c, t.black)))
            else Promoted(c, t.black) == Leaf && RBC(z, 1)
  {
    OneChild(t, k);
    if c.Br? {
      PlugRB(z, Paint(c, true), k);
    } else if !t.black || z.Top? {
      RBCTop(z, 0, k);
      PlugRB(z, c, 0);
    }
  }

  lemma TwoOutcome<T>(m: Mem<T>, z: Ctx<T>, t: Tree<T>, k: nat)
    requires t.Br? && t.l.Br? && t.r.Br? && t.n in m.s
    requires Placed(m, z, t, m.s[t.n].parent, t.n, m.s.Keys, Before(z) + InOrder(t) + After(z))
    requires RB(t, k) && RBC(z, k) && (IsBlack(t) || AllowsRed(z))
    ensures m.Has(m.s[t.n].parent) && Roles(m, t.n, Min(t.r).n, SuccessorParent(t.r))
    ensures var u := Min(t.r);
      Unlinked(UnlinkTwo(m, t.n, u.n, SuccessorParent(t.r)), Plug(z, Succeeded(t)), TwoHole(z, t),
               !u.r.Br? && u.black, S(Plug(z, t)) - {t.n}, Before(z) + (InOrder(t.l) + InOrder(t.r)) + After(z))
    ensures TwoHole(z, t).n == SuccessorParent(t.r)
    ensures m.s[Min(t.r).n].right == RootOf(Min(t.r).r) && m.s[Min(t.r).n].black == Min(t.r).black
  {
    hide S, SC, Distinct, DistinctC, Rep, HoleRep, Plug, Before, After, InOrder, UnlinkTwo, RB, RBC, Succeeded,
         RedBlack, TwoHole, Min;
    UnlinkTwoRep(m, z, t, m.s[t.n].parent);
    TwoRoles(m, t, m.s[t.n].parent);
    var u := Min(t.r);
    var m' := UnlinkTwo(m, t.n, u.n, SuccessorParent(t.r));
    SucceededShape(t);
    RootIn(t);
    Refill(m', z, t, Succeeded(t), t.n, m.s[t.n].parent, u.n);
    TwoColors(z, t, k);
  }

  /** The hole the successor leaves. */
  function TwoHole<T>(z: Ctx<T>, t: Tree<T>): (r: Ctx<T>)
    requires t.Br? && t.r.Br?
    ensures !r.Top?
  {
    NonTop(t.r, InR(z, t.l, Min(t.r).n, t.black));
    MinPath(t.r, InR(z, t.l, Min(t.r).n, t.black))
  }

  lemma {:induction false} NonTop<T>(r: Tree<T>, z: Ctx<T>)
    requires r.Br? && !z.Top?
    ensures !MinPath(r, z).Top?
    ensures MinPath(r, z).n == if r.l.Leaf? then z.n else MinParent(r)
  {
    if r.l.Br? {
      NonTop(r.l, InL(z, r.n, r.black, r.r));
    }
  }

  lemma TwoColors<T>(z: Ctx<T>, t: Tree<T>, k: nat)
    requires t.Br? && t.l.Br? && t.r.Br?
    requires RB(t, k) && RBC(z, k) && (IsBlack(t) || AllowsRed(z))
    ensures var u, N, Z := Min(t.r), Plug(z, Succeeded(t)), TwoHole(z, t);
      && Z.n == SuccessorParent(t.r)
      && (if !u.r.Br? && u.black then N == Plug(Z, Leaf) && !Z.Top? && RBC(Z, 1) else RedBlack(N))
  {
    var u, r := Min(t.r), t.r;
    var z0, z1 := InR(z, t.l, t.n, t.black), InR(z, t.l, u.n, t.black);
    NonTop(r, z1);
    if u.r.Br? || !u.black {
      DropMinRB(r, k - W(t.black));
      PlugRB(z, Succeeded(t), k);
    } else {
      MinPlug(r, z0);
      MinPlug(r, z1);
      assert Plug(z1, DropMin(r)) == Plug(z, Succeeded(t));
      PlugHeight(z, t, k);
      var h :| RB(Plug(z, t), h);
      var j := UnplugRB(MinPath(r, z0), u, h);
      OneChild(u, j);
      assert forall i: nat :: RBC(z0, i) ==> RBC(z1, i);
      MinPathRB(r, z0, z1, j);
    }
  }

  lemma PlugHeight<T>(z: Ctx<T>, t: Tree<T>, k: nat)
    requires RB(t, k) && RBC(z, k) && (IsBlack(t) || AllowsRed(z))
    ensures IsBlack(Plug(z, t)) && exists h: nat :: RB(Plug(z, t), h)
  {
    PlugRB(z, t, k);
  }

  /** The loop of the erasure fix-up may start. */
  lemma ShortStart<T>(m: Mem<T>, N: Tree<T>, Z: Ctx<T>, ns: set<Node<T>>, order: seq<Node<T>>)
    requires Unlinked(m, N, Z, true, ns, order) && m.s.Keys == ns
    ensures Short(m, Z, Leaf, 0, Z.n, null, ns, order)
  {
    UnplugHole(m, Z, Leaf);
    PlugDistinct(Z, Leaf);
    PlugSet(Z, Leaf);
    PlugOrder(Z, Leaf);
    assert S<T>(Leaf) == {} && RB<T>(Leaf, 0);
  }

  lemma ChangeChildColors<T>(m: Mem<T>, old': Node<T>, new': Node<T>, parent: Node?<T>)
    requires m.Has(parent)
    ensures var m' := ChangeChild(m, old', new', parent);
      m'.s.Keys == m.s.Keys && forall n <- m.s :: m'.s[n].black == m.s[n].black
  {
  }

  /** The nodes of a sequence other than `x`. */
  ghost function Without<A>(s: seq<A>, x: A): seq<A> {
    if s == [] then [] else (if s[0] == x then [] else [s[0]]) + Without(s[1..], x)
  }

  lemma {:induction false} WithoutConcat<A>(a: seq<A>, b: seq<A>, x: A)
    ensures Without(a + b, x) == Without(a, x) + Without(b, x)
  {
    if a == [] {
      assert a + b == b;
    } else {
      assert (a + b)[1..] == a[1..] + b;
      WithoutConcat(a[1..], b, x);
    }
  }

  lemma {:induction false} WithoutAbsent<A>(s: seq<A>, x: A)
    requires x !in s
    ensures Without(s, x) == s
  {
    if s != [] {
      WithoutAbsent(s[1..], x);
    }
  }

  /** The in-order sequence lists exactly the nodes of the tree. */
  lemma {:induction false} Listed<T>(t: Tree<T>)
    ensures forall n :: n in InOrder(t) <==> n in S(t)
  {
    if t.Br? {
      Listed(t.l);
      Listed(t.r);
    }
  }

  lemma {:induction false} CtxOrderSet<T>(z: Ctx<T>)
    ensures forall n :: n in Before(z) || n in After(z) <==> n in SC(z)
  {
    match z
    case Top =>
    case InL(up, _, _, r) => CtxOrderSet(up); Listed(r);
    case InR(up, l, _, _) => CtxOrderSet(up); Listed(l);
  }

  /** Taking the root of a focused subtree out of the order. */
  lemma WithoutRoot<T>(z: Ctx<T>, t: Tree<T>)
    requires t.Br? && Distinct(t) && DistinctC(z, S(t))
    ensures Without(Before(z) + InOrder(t) + After(z), t.n) == Before(z) + (InOrder(t.l) + InOrder(t.r)) + After(z)
  {
    BelowNotInCtx(z, S(t));
    CtxOrderSet(z);
    Listed(t.l);
    Listed(t.r);
    RootIn(t);
    assert t.n !in Before(z) && t.n !in After(z) && t.n !in InOrder(t.l) && t.n !in InOrder(t.r);
    WithoutMiddle(Before(z), InOrder(t.l), t.n, InOrder(t.r), After(z));
  }

  lemma WithoutMiddle<A>(a: seq<A>, l: seq<A>, x: A, r: seq<A>, b: seq<A>)
    requires x !in a && x !in l && x !in r && x !in b
    ensures Without(a + (l + [x] + r) + b, x) == a + (l + r) + b
  {
    hide Without;
    WithoutConcat(a + (l + [x] + r), b, x);
    WithoutConcat(a, l + [x] + r, x);
    WithoutConcat(l + [x], r, x);
    WithoutConcat(l, [x], x);
    WithoutAbsent(a, x);
    WithoutAbsent(b, x);
    WithoutAbsent(l, x);
    WithoutAbsent(r, x);
    WithoutOne(x);
  }

  lemma WithoutAround<A>(a: seq<A>, n: A, b: seq<A>)
    requires n !in a && n !in b
    ensures Without(a + [n] + b, n) == a + b
  {
    WithoutMiddle([], a, n, b, []);
    hide Without;
    assert [] + (a + [n] + b) + [] == a + [n] + b && [] + (a + b) + [] == a + b;
  }

  lemma WithoutOne<A>(x: A)
    ensures Without([x], x) == []
  {
  }

  /** `node` is the root of `t`, which hangs in `z` and is `k` black nodes high. */
  ghost predicate Located<T>(m: Mem<T>, shape: Tree<T>, node: Node<T>, z: Ctx<T>, t: Tree<T>, k: nat) {
    && t.Br? && t.n == node && node in m.s && Plug(z, t) == shape
    && Placed(m, z, t, m.s[node].parent, node, m.s.Keys, Before(z) + InOrder(t) + After(z))
    && RB(t, k) && RBC(z, k) && (IsBlack(t) || AllowsRed(z))
    && Without(InOrder(shape), node) == Before(z) + (InOrder(t.l) + InOrder(t.r)) + After(z)
    && m.Has(m.s[node].left) && m.Has(m.s[node].right) && m.Has(m.s[node].parent)
    && m.s[node].left == RootOf(t.l) && m.s[node].right == RootOf(t.r) && m.s[node].black == t.black
    && (t.r.Br? ==> Rep(m, t.r, node, t.r.n))
    && (if z.Top? then m.s[node].parent == null else m.s[node].parent == z.n)
  }

  /** Bring `node` into focus. */
  lemma Locate<T>(m: Mem<T>, shape: Tree<T>, node: Node<T>) returns (z: Ctx<T>, t: Tree<T>, k: nat)
    requires Rep(m, shape, null, m.root) && Distinct(shape) && RedBlack(shape) && node in S(shape)
      && m.s.Keys == S(shape)
    ensures Located(m, shape, node, z, t, k)
  {
    z, t := Focus(shape, node, Top);
    var h :| RB(shape, h);
    k := UnplugRB(z, t, h);
    hide S, SC, Distinct, DistinctC, Rep, HoleRep, RB, RBC, Before, After, InOrder, Plug, RedBlack;
    PlugTop(shape);
    UnplugRep(m, z, t);
    PlugDistinct(z, t);
    PlugSet(z, t);
    PlugOrder(z, t);
    WithoutRoot(z, t);
    OpenRep(m, t, m.s[node].parent, node);
    RepIsBelow(m, t.l, node, m.s[node].left);
    RepIsBelow(m, t.r, node, m.s[node].right);
    HoleHas(m, z, m.s[node].parent, node);
    HoleTop(m, z, m.s[node].parent, node);
    if !z.Top? { OpenHole(m, z, m.s[node].parent, node); }
  }

  lemma PlugTop<T>(t: Tree<T>)
    ensures Plug(Top, t) == t
  {
  }

  /** The removed node drops out of the snapshot. */
  lemma Shrink<T>(m: Mem<T>, m': Mem<T>, N: Tree<T>, Z: Ctx<T>, lack: bool, ns: set<Node<T>>, order: seq<Node<T>>)
    requires Unlinked(m, N, Z, lack, ns, order) && m'.root == m.root && m'.s.Keys == ns <= m.s.Keys
    requires forall n <- ns :: m'.s[n] == m.s[n]
    ensures Unlinked(m', N, Z, lack, ns, order)
    ensures lack ==> !Z.Top?
    ensures Rep(m', N, null, m'.root) && Distinct(N) && S(N) == ns && InOrder(N) == order && (!lack ==> RedBlack(N))
  {
    RepRestrict(m, m', N, null, m.root);
  }

  lemma MinFirst<T>(t: Tree<T>)
    requires t.Br?
    ensures InOrder(t) != [] && InOrder(t)[0] == Min(t).n && Min(t).n in S(t)
  {
    MinShape(t);
    Listed(t);
    assert InOrder(t)[0] in InOrder(t);
  }

  lemma LeafOrder<T>(t: Tree<T>)
    ensures InOrder(t) == [] <==> t.Leaf?
  {
  }

  /** More nodes in the snapshot do no harm. */
  lemma {:induction false} HoleGrow<T>(m: Mem<T>, m': Mem<T>, z: Ctx<T>, p: Node?<T>, c: Node?<T>)
    requires HoleRep(m, z, p, c) && m'.root == m.root && m.s.Keys <= m'.s.Keys && forall n <- m.s :: m'.s[n] == m.s[n]
    ensures HoleRep(m', z, p, c)
  {
    match z
    case Top =>
    case InL(up, n, _, r) =>
      RepRestrict(m, m', r, n, m.s[n].right);
      HoleGrow(m, m', up, m.s[n].parent, n);
    case InR(up, l, n, _) =>
      RepRestrict(m, m', l, n, m.s[n].left);
      HoleGrow(m, m', up, m.s[n].parent, n);
  }

}
