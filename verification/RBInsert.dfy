/**
 Insertion fix-up of hev-rbtree.c on snapshots: what each case does to the tree shape, and that
 its pointer writes do exactly that.
 */
module RBInsert {
  import opened RBShape
  import opened RBLinks

  // ----- insertion: what each case does to the shape ----------------------------

  /** The hole of `z` hangs below a red node, so there is a black grandparent. */
  predicate TwoUp<T>(z: Ctx<T>) { !z.Top? && !z.black && !z.up.Top? && z.up.black }

  function Uncle<T>(z: Ctx<T>): Tree<T>
    requires TwoUp(z)
  {
    if z.up.InL? then z.up.r else z.up.l
  }

  /** Case 1: parent and uncle turn black, the grandparent red. */
  ghost function Flipped<T>(z: Ctx<T>, t: Tree<T>): Tree<T>
    requires TwoUp(z) && Uncle(z).Br?
  {
    var p := Plug1(z.(black := true), t);
    if z.up.InL? then Br(p, z.up.n, false, Paint(z.up.r, true))
    else Br(Paint(z.up.l, true), z.up.n, false, p)
  }

  /** Cases 2 and 3: one or two rotations, the new top is black, the old grandparent red. */
  ghost function Rotated<T>(z: Ctx<T>, t: Tree<T>): Tree<T>
    requires TwoUp(z) && t.Br?
  {
    var g, p := z.up.n, z.n;
    match (z, z.up)
    case (InL(_, _, _, s), InL(_, _, _, u)) => Br(t, p, true, Br(s, g, false, u))
    case (InR(_, s, _, _), InL(_, _, _, u)) => Br(Br(s, p, false, t.l), t.n, true, Br(t.r, g, false, u))
    case (InR(_, s, _, _), InR(_, u, _, _)) => Br(Br(u, g, false, s), p, true, t)
    case (InL(_, _, _, s), InR(_, u, _, _)) => Br(Br(u, g, false, t.l), t.n, true, Br(t.r, p, false, s))
  }

  lemma FlippedOk<T>(z: Ctx<T>, t: Tree<T>, h: nat)
    requires TwoUp(z) && t.Br? && !t.black && RB(t, h) && RBC(z, h)
    requires Uncle(z).Br? && !Uncle(z).black
    ensures RB(Flipped(z, t), h + 1) && RBC(z.up.up, h + 1)
  {
  }

  lemma RotatedOk<T>(z: Ctx<T>, t: Tree<T>, h: nat)
    requires TwoUp(z) && t.Br? && !t.black && RB(t, h) && RBC(z, h)
    requires IsBlack(Uncle(z))
    ensures RB(Rotated(z, t), h + 1) && RBC(z.up.up, h + 1)
  {
  }

  lemma FlippedOrder<T>(z: Ctx<T>, t: Tree<T>)
    requires TwoUp(z) && t.Br? && Uncle(z).Br?
    ensures Before(z) + InOrder(t) + After(z) == Before(z.up.up) + InOrder(Flipped(z, t)) + After(z.up.up)
  {
    var z' := z.(black := true);
    var zz := z.up.up;
    var u := Paint(Uncle(z), true);
    assert InOrder(u) == InOrder(Uncle(z));
    if z.InL? {
      SeqAssoc(Before(z.up), InOrder(t), [z.n], InOrder(z.r), After(z.up));
    } else {
      SeqAssoc(Before(z.up), InOrder(z.l), [z.n], InOrder(t), After(z.up));
    }
    var p := Plug1(z', t);
    if z.up.InL? {
      SeqAssoc(Before(zz), InOrder(p), [z.up.n], InOrder(u), After(zz));
    } else {
      SeqAssoc(Before(zz), InOrder(u), [z.up.n], InOrder(p), After(zz));
    }
  }

  lemma RotatedOrder<T>(z: Ctx<T>, t: Tree<T>)
    requires TwoUp(z) && t.Br?
    ensures Before(z) + InOrder(t) + After(z) == Before(z.up.up) + InOrder(Rotated(z, t)) + After(z.up.up)
  {
    var zz, g, p := z.up.up, [z.up.n], [z.n];
    var a, b := Before(zz), After(zz);
    match (z, z.up)
    case (InL(_, _, _, s), InL(_, _, _, u)) => Regroup(a, InOrder(t), p, InOrder(s), g, InOrder(u), b);
    case (InR(_, s, _, _), InL(_, _, _, u)) => Regroup(a, InOrder(s), p, InOrder(t), g, InOrder(u), b);
      Regroup2(InOrder(s), p, InOrder(t.l), [t.n], InOrder(t.r), g, InOrder(u));
    case (InR(_, s, _, _), InR(_, u, _, _)) => Regroup(a, InOrder(u), g, InOrder(s), p, InOrder(t), b);
    case (InL(_, _, _, s), InR(_, u, _, _)) => Regroup(a, InOrder(u), g, InOrder(t), p, InOrder(s), b);
      Regroup2(InOrder(u), g, InOrder(t.l), [t.n], InOrder(t.r), p, InOrder(s));
  }

  lemma Regroup<A>(a: seq<A>, b: seq<A>, c: seq<A>, d: seq<A>, e: seq<A>, f: seq<A>, g: seq<A>)
    ensures a + b + (c + d + (e + f + g)) == a + (b + c + d + e + f) + g
    ensures a + (b + c + (d + e + f)) + g == a + (b + c + d + e + f) + g
    ensures a + b + c + d + (e + f + g) == a + (b + c + d + e + f) + g
    ensures a + b + c + d + e + f + g == a + (b + c + d + e + f) + g
    ensures a + ((b + c + d) + e + f) + g == a + (b + c + d + e + f) + g
  {
  }

  lemma Regroup2<A>(a: seq<A>, b: seq<A>, c: seq<A>, d: seq<A>, e: seq<A>, f: seq<A>, g: seq<A>)
    ensures a + b + (c + d + e) + f + g == (a + b + c) + d + (e + f + g)
  {
  }

  lemma FlippedDistinct<T>(z: Ctx<T>, t: Tree<T>)
    requires TwoUp(z) && t.Br? && Uncle(z).Br?
    requires Distinct(t) && DistinctC(z, S(t))
    ensures Distinct(Flipped(z, t)) && DistinctC(z.up.up, S(Flipped(z, t)))
    ensures S(Flipped(z, t)) + SC(z.up.up) == S(t) + SC(z)
  {
    var u := Uncle(z);
    var p := Plug1(z.(black := true), t);
    assert S(Paint(u, true)) == S(u);
    assert S(p) == S(t) + {z.n} + (if z.InL? then S(z.r) else S(z.l));
    assert S(Flipped(z, t)) == S(p) + {z.up.n} + S(u);
  }

  lemma RotatedDistinct<T>(z: Ctx<T>, t: Tree<T>)
    requires TwoUp(z) && t.Br?
    requires Distinct(t) && DistinctC(z, S(t))
    ensures Distinct(Rotated(z, t)) && DistinctC(z.up.up, S(Rotated(z, t)))
    ensures S(Rotated(z, t)) + SC(z.up.up) == S(t) + SC(z)
  {
    var s := if z.InL? then z.r else z.l;
    assert S(Rotated(z, t)) == S(t) + {z.n} + S(s) + {z.up.n} + S(Uncle(z));
  }

  /** Case 1 - colour flips. */
  function FlipColors<T>(m: Mem<T>, tmp: Node<T>, parent: Node<T>, gparent: Node<T>): Mem<T>
    requires tmp in m.s && parent in m.s && gparent in m.s
  {
    var m' := m.SetPC(tmp, gparent, true).SetPC(parent, gparent, true);
    m'.SetPC(gparent, m'.s[gparent].parent, false)
  }

  lemma FlipColorsRep<T>(m: Mem<T>, z: Ctx<T>, t: Tree<T>, node: Node<T>)
    requires TwoUp(z) && t.Br? && Uncle(z).Br? && HoleRep(m, z, z.n, node) && Rep(m, t, z.n, node)
    requires Distinct(t) && DistinctC(z, S(t))
    ensures Uncle(z).n in m.s && z.up.n in m.s
    ensures var m' := FlipColors(m, Uncle(z).n, z.n, z.up.n);
      && HoleRep(m', z.up.up, m.s[z.up.n].parent, z.up.n)
      && Rep(m', Flipped(z, t), m.s[z.up.n].parent, z.up.n)
  {
    hide S, SC, Distinct, DistinctC, Rep, HoleRep;
    var u, p, g := Uncle(z), z.n, z.up.n;
    OpenHole(m, z, p, node);
    OpenHole(m, z.up, m.s[p].parent, p);
    OpenRep(m, u, g, u.n);
    FlippedDistinct(z, t);
    BelowNotInCtx(z.up.up, S(Flipped(z, t)));
    var m' := FlipColors(m, u.n, p, g);
    var xs := {u.n, p, g};
    FlippedApart(z, t);
    HoleRepFrame(m, m', xs, z.up.up, m.s[g].parent, g);
    RepFrame(m, m', xs, t, p, node);
    RepFrame(m, m', xs, u.l, u.n, m.s[u.n].left);
    RepFrame(m, m', xs, u.r, u.n, m.s[u.n].right);
    MakeRep(m', u.l, u.n, true, u.r, g);
    if z.InL? {
      RepFrame(m, m', xs, z.r, p, m.s[p].right);
      MakeRep(m', t, p, true, z.r, g);
    } else {
      RepFrame(m, m', xs, z.l, p, m.s[p].left);
      MakeRep(m', z.l, p, true, t, g);
    }
    var q := Plug1(z.(black := true), t);
    if z.up.InL? {
      MakeRep(m', q, g, false, Paint(u, true), m.s[g].parent);
    } else {
      MakeRep(m', Paint(u, true), g, false, q, m.s[g].parent);
    }
  }

  lemma FlippedApart<T>(z: Ctx<T>, t: Tree<T>)
    requires TwoUp(z) && t.Br? && Uncle(z).Br? && Distinct(t) && DistinctC(z, S(t))
    ensures var xs := {Uncle(z).n, z.n, z.up.n};
      && S(t) !! xs && S(if z.InL? then z.r else z.l) !! xs && S(Uncle(z).l) !! xs && S(Uncle(z).r) !! xs
      && xs <= S(Flipped(z, t)) && |xs| == 3 && Uncle(z).n != z.up.n && z.n != z.up.n
  {
  }

  function Sibling<T>(z: Ctx<T>): Tree<T>
    requires !z.Top?
  {
    if z.InL? then z.r else z.l
  }

  /** The pieces the rotations of cases 2 and 3 move around share no node. */
  lemma RotatedApart<T>(z: Ctx<T>, t: Tree<T>)
    requires TwoUp(z) && t.Br? && Distinct(t) && DistinctC(z, S(t))
    ensures var s, u, p, g, zz := Sibling(z), Uncle(z), z.n, z.up.n, z.up.up;
      && t.n != p && t.n != g && p != g && g !in S(t.l) && g !in S(t.r) && t.n !in S(u) && p !in S(u) && S(t.l) !! S(u)
        && S(t.r) !! S(u)
      && SC(zz) !! {t.n, p} + S(t.l) + S(t.r)
      && (z.InL? == z.up.InL? ==> Apart(t, p, s, g, u) && DistinctC(zz, Pieces(t, p, s, g, u)))
      && (z.InR? && z.up.InL? ==>
            Apart(s, p, t.l, t.n, t.r) && Apart(Br(s, p, false, t.l), t.n, t.r, g, u)
            && DistinctC(zz, Pieces(Br(s, p, false, t.l), t.n, t.r, g, u)))
      && (z.InL? && z.up.InR? ==>
            Apart(s, p, t.r, t.n, t.l) && Apart(Br(t.r, p, false, s), t.n, t.l, g, u)
            && DistinctC(zz, Pieces(Br(t.r, p, false, s), t.n, t.l, g, u)))
  {
    var s, u, p, g, zz := Sibling(z), Uncle(z), z.n, z.up.n, z.up.up;
    var below := S(t) + {p} + S(s) + {g} + S(u);
    assert DistinctC(zz, below);
    BelowNotInCtx(zz, below);
    if z.InL? == z.up.InL? {
      assert Pieces(t, p, s, g, u) == below;
    } else if z.InR? {
      assert Pieces(Br(s, p, false, t.l), t.n, t.r, g, u) == below;
    } else {
      assert Pieces(Br(t.r, p, false, s), t.n, t.l, g, u) == below;
    }
  }

  lemma SiblingNotNode<T>(z: Ctx<T>, t: Tree<T>)
    requires !z.Top? && t.Br? && DistinctC(z, S(t))
    ensures Sibling(z).Br? ==> Sibling(z).n != t.n
  {
  }

  /** The two levels above `node`, read off the snapshot. */
  ghost predicate Opened<T>(m: Mem<T>, z: Ctx<T>, t: Tree<T>, node: Node<T>)
    requires TwoUp(z) && t.Br?
  {
    var u, s, p, g := Uncle(z), Sibling(z), z.n, z.up.n;
    && node == t.n && node in m.s && p in m.s && g in m.s
    && m.Has(m.s[node].left) && m.Has(m.s[node].right) && m.Has(m.s[p].left) && m.Has(m.s[p].right)
      && m.Has(m.s[g].parent)
    && m.s[p].parent == g && m.s[g].black
    && HoleRep(m, z.up.up, m.s[g].parent, g)
    && Rep(m, t.l, node, m.s[node].left) && Rep(m, t.r, node, m.s[node].right)
    && (if z.InL? then m.s[p].left == node && m.s[p].right == RootOf(s) && Rep(m, s, p, m.s[p].right)
        else m.s[p].right == node && m.s[p].left == RootOf(s) && Rep(m, s, p, m.s[p].left))
    && (if z.up.InL? then m.s[g].left == p && Rep(m, u, g, m.s[g].right)
        else m.s[g].right == p && Rep(m, u, g, m.s[g].left))
  }

  lemma OpenTwo<T>(m: Mem<T>, z: Ctx<T>, t: Tree<T>, node: Node<T>)
    requires TwoUp(z) && t.Br? && HoleRep(m, z, z.n, node) && Rep(m, t, z.n, node)
    ensures Opened(m, z, t, node)
  {
    hide Rep, HoleRep;
    var p, g := z.n, z.up.n;
    OpenHole(m, z, p, node);
    OpenHole(m, z.up, m.s[p].parent, p);
    OpenRep(m, t, p, node);
    HoleHas(m, z.up.up, m.s[g].parent, g);
    RepIsBelow(m, t.l, node, m.s[node].left);
    RepIsBelow(m, t.r, node, m.s[node].right);
    RepIsBelow(m, Sibling(z), p, if z.InL? then m.s[p].right else m.s[p].left);
  }

  // ----- cases 2 and 3 when the parent is a left child -----------------------------------

  /** Case 2 - left rotate at `parent`. The grandparent's link is left for case 3 to write. */
  function InnerLeft<T>(m: Mem<T>, node: Node<T>, parent: Node<T>): Mem<T>
    requires node in m.s && parent in m.s && m.Has(m.s[node].left)
  {
    var tmp := m.s[node].left;
    var m1 := m.SetR(parent, tmp).SetL(node, parent);
    var m2 := if tmp == null then m1 else m1.SetPC(tmp, parent, true);
    m2.SetPC(parent, node, false)
  }

  lemma InnerLeftWrites<T>(m: Mem<T>, node: Node<T>, parent: Node<T>)
    requires node in m.s && parent in m.s && node != parent
    requires m.Has(m.s[node].left) && m.s[node].left != node && m.s[node].left != parent
    ensures var m', tmp := InnerLeft(m, node, parent), m.s[node].left;
      && m'.root == m.root
      && SameBut(m, m', {node, parent} + Opt(tmp))
      && m'.s[parent] == m.s[parent].(right := tmp, parent := node, black := false)
      && m'.s[node] == m.s[node].(left := parent)
      && (tmp != null ==> m'.s[tmp] == m.s[tmp].(parent := parent, black := true))
  {
  }

  lemma InnerLeftRep<T>(m: Mem<T>, s: Tree<T>, parent: Node<T>, l: Tree<T>, node: Node<T>, r: Tree<T>)
    requires node in m.s && parent in m.s && Apart(s, parent, l, node, r) && IsBlack(l)
    requires Rep(m, s, parent, m.s[parent].left) && Rep(m, l, node, m.s[node].left) && Rep(m, r, node, m.s[node].right)
    ensures m.Has(m.s[node].left) && Opt(m.s[node].left) <= S(l)
    ensures var m' := InnerLeft(m, node, parent);
      && m'.root == m.root && SameBut(m, m', {node, parent} + Opt(m.s[node].left))
      && node in m'.s && m'.s[node] == m.s[node].(left := parent)
      && Rep(m', Br(s, parent, false, l), node, parent) && Rep(m', r, node, m'.s[node].right)
  {
    var tmp := m.s[node].left;
    RepIsBelow(m, l, node, tmp);
    TouchedApart(s, parent, l, node, r, null, tmp);
    assert Opt(tmp) <= S(l);
    hide S, Distinct, Apart, Pieces, Rep, InnerLeft;
    InnerLeftWrites(m, node, parent);
    var m' := InnerLeft(m, node, parent);
    var xs := {node, parent} + Opt(tmp);
    RepFrame(m, m', xs, s, parent, m.s[parent].left);
    if tmp == null {
      RepFrame(m, m', xs, l, node, tmp);
      LeafRep(m', l, node, parent);
    } else {
      OpenRep(m, l, node, tmp);
      CompleteRep(m, m', xs, l, parent, true);
    }
    MakeRep(m', s, parent, false, l, node);
    RepFrame(m, m', xs, r, node, m.s[node].right);
  }

  /** Cases 2 and 3 together. */
  function OuterRight<T>(m: Mem<T>, node: Node<T>, parent: Node<T>, gparent: Node<T>): (m': Mem<T>)
    requires node in m.s && parent in m.s && gparent in m.s && m.Has(m.s[node].left) && m.Has(m.s[node].right)
    requires m.Has(m.s[parent].right) && m.Has(m.s[gparent].parent)
  {
    if node == m.s[parent].right then RotateRight(InnerLeft(m, node, parent), gparent, node, null, false, true)
    else RotateRight(m, gparent, parent, null, false, true)
  }

  lemma InnerLeftHas<T>(m: Mem<T>, node: Node<T>, parent: Node<T>, gparent: Node<T>)
    requires node in m.s && parent in m.s && gparent in m.s && m.Has(m.s[node].left) && m.Has(m.s[node].right)
    requires m.Has(m.s[gparent].parent)
    ensures var m' := InnerLeft(m, node, parent);
      m'.s.Keys == m.s.Keys && m'.Has(m'.s[node].right) && m'.Has(m'.s[gparent].parent)
  {
  }

  lemma OuterRightStraight<T>(m: Mem<T>, z: Ctx<T>, t: Tree<T>, node: Node<T>)
    requires TwoUp(z) && z.up.InL? && t.Br? && HoleRep(m, z, z.n, node) && Rep(m, t, z.n, node)
    requires Distinct(t) && DistinctC(z, S(t)) && IsBlack(Sibling(z)) && IsBlack(t.l) && IsBlack(t.r)
    requires z.InL?
    ensures Opened(m, z, t, node)
    ensures var m' := OuterRight(m, node, z.n, z.up.n);
      && m'.s.Keys == m.s.Keys
      && HoleRep(m', z.up.up, m.s[z.up.n].parent, Rotated(z, t).n)
      && Rep(m', Rotated(z, t), m.s[z.up.n].parent, Rotated(z, t).n)
  {
    hide S, SC, Distinct, Apart, Pieces, DistinctC, Rep, HoleRep, RotateRight, InnerLeft;
    var u, s, p, g, zz := Uncle(z), Sibling(z), z.n, z.up.n, z.up.up;
    OpenTwo(m, z, t, node);
    RotatedApart(z, t);
    SiblingNotNode(z, t);
    RotateRightRep(m, zz, t, p, s, g, u, null, false, true);
  }

  lemma OuterRightBent<T>(m: Mem<T>, z: Ctx<T>, t: Tree<T>, node: Node<T>)
    requires TwoUp(z) && z.up.InL? && t.Br? && HoleRep(m, z, z.n, node) && Rep(m, t, z.n, node)
    requires Distinct(t) && DistinctC(z, S(t)) && IsBlack(Sibling(z)) && IsBlack(t.l) && IsBlack(t.r)
    requires !z.InL?
    ensures Opened(m, z, t, node)
    ensures var m' := OuterRight(m, node, z.n, z.up.n);
      && m'.s.Keys == m.s.Keys
      && HoleRep(m', z.up.up, m.s[z.up.n].parent, Rotated(z, t).n)
      && Rep(m', Rotated(z, t), m.s[z.up.n].parent, Rotated(z, t).n)
  {
    hide S, SC, Distinct, Apart, Pieces, DistinctC, Rep, HoleRep, RotateRight, InnerLeft;
    var u, s, p, g, zz := Uncle(z), Sibling(z), z.n, z.up.n, z.up.up;
    OpenTwo(m, z, t, node);
    RotatedApart(z, t);
    InnerLeftRep(m, s, p, t.l, node, t.r);
    var m1 := InnerLeft(m, node, p);
    var xs := {node, p} + Opt(m.s[node].left);
    assert g !in xs && m1.s[g] == m.s[g];
    HoleRepFrame(m, m1, xs, zz, m.s[g].parent, g);
    RepFrame(m, m1, xs, u, g, m.s[g].right);
    RotateRightRep(m1, zz, Br(s, p, false, t.l), node, t.r, g, u, null, false, true);
  }

  lemma OuterRightRep<T>(m: Mem<T>, z: Ctx<T>, t: Tree<T>, node: Node<T>)
    requires TwoUp(z) && z.up.InL? && t.Br? && HoleRep(m, z, z.n, node) && Rep(m, t, z.n, node)
    requires Distinct(t) && DistinctC(z, S(t)) && IsBlack(Sibling(z)) && IsBlack(t.l) && IsBlack(t.r)
    ensures Opened(m, z, t, node)
    ensures var m' := OuterRight(m, node, z.n, z.up.n);
      && m'.s.Keys == m.s.Keys
      && HoleRep(m', z.up.up, m.s[z.up.n].parent, Rotated(z, t).n)
      && Rep(m', Rotated(z, t), m.s[z.up.n].parent, Rotated(z, t).n)
  {
    hide Opened, S, SC, Distinct, DistinctC, Rep, HoleRep, OuterRight, Rotated;
    if z.InL? { OuterRightStraight(m, z, t, node); } else { OuterRightBent(m, z, t, node); }
  }

  // ----- cases 2 and 3 when the parent is a right child -----------------------------------

  /** Case 2 - right rotate at `parent`. The grandparent's link is left for case 3 to write. */
  function InnerRight<T>(m: Mem<T>, node: Node<T>, parent: Node<T>): Mem<T>
    requires node in m.s && parent in m.s && m.Has(m.s[node].right)
  {
    var tmp := m.s[node].right;
    var m1 := m.SetL(parent, tmp).SetR(node, parent);
    var m2 := if tmp == null then m1 else m1.SetPC(tmp, parent, true);
    m2.SetPC(parent, node, false)
  }

  lemma InnerRightWrites<T>(m: Mem<T>, node: Node<T>, parent: Node<T>)
    requires node in m.s && parent in m.s && node != parent
    requires m.Has(m.s[node].right) && m.s[node].right != node && m.s[node].right != parent
    ensures var m', tmp := InnerRight(m, node, parent), m.s[node].right;
      && m'.root == m.root
      && SameBut(m, m', {node, parent} + Opt(tmp))
      && m'.s[parent] == m.s[parent].(left := tmp, parent := node, black := false)
      && m'.s[node] == m.s[node].(right := parent)
      && (tmp != null ==> m'.s[tmp] == m.s[tmp].(parent := parent, black := true))
  {
  }

  lemma InnerRightRep<T>(m: Mem<T>, s: Tree<T>, parent: Node<T>, l: Tree<T>, node: Node<T>, r: Tree<T>)
    requires node in m.s && parent in m.s && Apart(s, parent, l, node, r) && IsBlack(l)
    requires Rep(m, s, parent, m.s[parent].right) && Rep(m, l, node, m.s[node].right) && Rep(m, r, node, m.s[node].left)
    ensures m.Has(m.s[node].right) && Opt(m.s[node].right) <= S(l)
    ensures var m' := InnerRight(m, node, parent);
      && m'.root == m.root && SameBut(m, m', {node, parent} + Opt(m.s[node].right))
      && node in m'.s && m'.s[node] == m.s[node].(right := parent)
      && Rep(m', Br(l, parent, false, s), node, parent) && Rep(m', r, node, m'.s[node].left)
  {
    var tmp := m.s[node].right;
    RepIsBelow(m, l, node, tmp);
    TouchedApart(s, parent, l, node, r, null, tmp);
    assert Opt(tmp) <= S(l);
    hide S, Distinct, Apart, Pieces, Rep, InnerRight;
    InnerRightWrites(m, node, parent);
    var m' := InnerRight(m, node, parent);
    var xs := {node, parent} + Opt(tmp);
    RepFrame(m, m', xs, s, parent, m.s[parent].right);
    if tmp == null {
      RepFrame(m, m', xs, l, node, tmp);
      LeafRep(m', l, node, parent);
    } else {
      OpenRep(m, l, node, tmp);
      CompleteRep(m, m', xs, l, parent, true);
    }
    MakeRep(m', l, parent, false, s, node);
    RepFrame(m, m', xs, r, node, m.s[node].left);
  }

  /** Cases 2 and 3 together. */
  function OuterLeft<T>(m: Mem<T>, node: Node<T>, parent: Node<T>, gparent: Node<T>): (m': Mem<T>)
    requires node in m.s && parent in m.s && gparent in m.s && m.Has(m.s[node].right) && m.Has(m.s[node].left)
    requires m.Has(m.s[parent].left) && m.Has(m.s[gparent].parent)
  {
    if node == m.s[parent].left then RotateLeft(InnerRight(m, node, parent), gparent, node, null, false, true)
    else RotateLeft(m, gparent, parent, null, false, true)
  }

  lemma InnerRightHas<T>(m: Mem<T>, node: Node<T>, parent: Node<T>, gparent: Node<T>)
    requires node in m.s && parent in m.s && gparent in m.s && m.Has(m.s[node].right) && m.Has(m.s[node].left)
    requires m.Has(m.s[gparent].parent)
    ensures var m' := InnerRight(m, node, parent);
      m'.s.Keys == m.s.Keys && m'.Has(m'.s[node].left) && m'.Has(m'.s[gparent].parent)
  {
  }

  lemma OuterLeftStraight<T>(m: Mem<T>, z: Ctx<T>, t: Tree<T>, node: Node<T>)
    requires TwoUp(z) && z.up.InR? && t.Br? && HoleRep(m, z, z.n, node) && Rep(m, t, z.n, node)
    requires Distinct(t) && DistinctC(z, S(t)) && IsBlack(Sibling(z)) && IsBlack(t.l) && IsBlack(t.r)
    requires z.InR?
    ensures Opened(m, z, t, node)
    ensures var m' := OuterLeft(m, node, z.n, z.up.n);
      && m'.s.Keys == m.s.Keys
      && HoleRep(m', z.up.up, m.s[z.up.n].parent, Rotated(z, t).n)
      && Rep(m', Rotated(z, t), m.s[z.up.n].parent, Rotated(z, t).n)
  {
    hide S, SC, Distinct, Apart, Pieces, DistinctC, Rep, HoleRep, RotateLeft, InnerRight;
    var u, s, p, g, zz := Uncle(z), Sibling(z), z.n, z.up.n, z.up.up;
    OpenTwo(m, z, t, node);
    RotatedApart(z, t);
    SiblingNotNode(z, t);
    RotateLeftRep(m, zz, t, p, s, g, u, null, false, true);
  }

  lemma OuterLeftBent<T>(m: Mem<T>, z: Ctx<T>, t: Tree<T>, node: Node<T>)
    requires TwoUp(z) && z.up.InR? && t.Br? && HoleRep(m, z, z.n, node) && Rep(m, t, z.n, node)
    requires Distinct(t) && DistinctC(z, S(t)) && IsBlack(Sibling(z)) && IsBlack(t.l) && IsBlack(t.r)
    requires !z.InR?
    ensures Opened(m, z, t, node)
    ensures var m' := OuterLeft(m, node, z.n, z.up.n);
      && m'.s.Keys == m.s.Keys
      && HoleRep(m', z.up.up, m.s[z.up.n].parent, Rotated(z, t).n)
      && Rep(m', Rotated(z, t), m.s[z.up.n].parent, Rotated(z, t).n)
  {
    hide S, SC, Distinct, Apart, Pieces, DistinctC, Rep, HoleRep, RotateLeft, InnerRight;
    var u, s, p, g, zz := Uncle(z), Sibling(z), z.n, z.up.n, z.up.up;
    OpenTwo(m, z, t, node);
    RotatedApart(z, t);
    InnerRightRep(m, s, p, t.r, node, t.l);
    var m1 := InnerRight(m, node, p);
    var xs := {node, p} + Opt(m.s[node].right);
    assert g !in xs && m1.s[g] == m.s[g];
    HoleRepFrame(m, m1, xs, zz, m.s[g].parent, g);
    RepFrame(m, m1, xs, u, g, m.s[g].left);
    RotateLeftRep(m1, zz, Br(t.r, p, false, s), node, t.l, g, u, null, false, true);
  }

  lemma OuterLeftRep<T>(m: Mem<T>, z: Ctx<T>, t: Tree<T>, node: Node<T>)
    requires TwoUp(z) && z.up.InR? && t.Br? && HoleRep(m, z, z.n, node) && Rep(m, t, z.n, node)
    requires Distinct(t) && DistinctC(z, S(t)) && IsBlack(Sibling(z)) && IsBlack(t.l) && IsBlack(t.r)
    ensures Opened(m, z, t, node)
    ensures var m' := OuterLeft(m, node, z.n, z.up.n);
      && m'.s.Keys == m.s.Keys
      && HoleRep(m', z.up.up, m.s[z.up.n].parent, Rotated(z, t).n)
      && Rep(m', Rotated(z, t), m.s[z.up.n].parent, Rotated(z, t).n)
  {
    hide Opened, S, SC, Distinct, DistinctC, Rep, HoleRep, OuterLeft, Rotated;
    if z.InR? { OuterLeftStraight(m, z, t, node); } else { OuterLeftBent(m, z, t, node); }
  }

  // ----- one turn of the insertion loop --------------------------------------------------

  /** The state of the loop: `node` is a red subtree root with parent link `p`, in an otherwise
      valid tree over the nodes `ns` whose in-order sequence is `order`. */
  ghost predicate Fixing<T>(m: Mem<T>, z: Ctx<T>, t: Tree<T>, h: nat, p: Node?<T>, node: Node?<T>,
                            ns: set<Node<T>>, order: seq<Node<T>>)
  {
    && Placed(m, z, t, p, node, ns, order) && RB(t, h) && RBC(z, h) && t.Br? && !t.black
  }

  lemma StartFixing<T>(m: Mem<T>, z: Ctx<T>, node: Node<T>, p: Node?<T>)
    requires HoleRep(m, z, p, node) && DistinctC(z, {node}) && RBC(z, 0) && m.s.Keys == SC(z) + {node}
    requires m.s[node] == Cell(null, null, p, false)
    ensures Fixing(m, z, Br(Leaf, node, false, Leaf), 0, p, node, SC(z) + {node}, Before(z) + [node] + After(z))
  {
    var t := Br(Leaf, node, false, Leaf);
    var leaf: Tree<T> := Leaf;
    assert S(leaf) == {} && Distinct(leaf) && RB(leaf, 0) && t.l == leaf && t.r == leaf;
    assert S(t) == {node} && InOrder(t) == [node];
    assert W(false) == 0 && IsBlack(leaf);
    assert RB(t, 0);
    hide SC, DistinctC, RBC, HoleRep;
    assert node !in S(t.l) && node !in S(t.r) && S(t.l) !! S(t.r);
    assert Distinct(t);
    assert Rep(m, t, p, node);
    assert Before(z) + InOrder(t) + After(z) == Before(z) + [node] + After(z);
    assert Placed(m, z, t, p, node, SC(z) + {node}, Before(z) + [node] + After(z));
  }

  /** The inserted node has become the root: blacken it. */
  lemma BlackenRoot<T>(m: Mem<T>, z: Ctx<T>, t: Tree<T>, h: nat, node: Node<T>, ns: set<Node<T>>, order: seq<Node<T>>)
    requires Fixing(m, z, t, h, null, node, ns, order)
    ensures node in m.s && Settled(m.SetPC(node, null, true), z, Paint(t, true), h + 1, ns, order)
  {
    HoleTop(m, z, null, node);
    var m' := m.SetPC(node, null, true);
    RepIsBelow(m, t, null, node);
    RepFrame(m, m', {node}, t.l, node, m.s[node].left);
    RepFrame(m, m', {node}, t.r, node, m.s[node].right);
    assert RB(Paint(t, true), h + 1);
    assert InOrder(Paint(t, true)) == InOrder(t);
  }

  lemma FixingNode<T>(m: Mem<T>, z: Ctx<T>, t: Tree<T>, h: nat, p: Node?<T>, node: Node?<T>,
                      ns: set<Node<T>>, order: seq<Node<T>>)
    requires Fixing(m, z, t, h, p, node, ns, order)
    ensures node == t.n && node in ns && m.s[node].parent == p && m.Has(p)
    ensures AllowsRed(z) ==> Settled(m, z, t, h, ns, order)
  {
    hide S, SC, Distinct, DistinctC, Rep, HoleRep, RB, RBC, Before, After, InOrder;
    OpenRep(m, t, p, node);
    HoleHas(m, z, p, node);
  }

  /** Below a red parent there is a black grandparent. */
  lemma FixingUp<T>(m: Mem<T>, z: Ctx<T>, t: Tree<T>, h: nat, p: Node<T>, node: Node<T>,
                    ns: set<Node<T>>, order: seq<Node<T>>)
    requires Fixing(m, z, t, h, p, node, ns, order)
    ensures p in m.s && !z.Top? && z.black == m.s[p].black
    ensures !m.s[p].black ==>
      && TwoUp(z) && z.n == p && m.s[p].parent == z.up.n && z.up.n in m.s && node == t.n && node in m.s
      && m.Has(m.s[node].left) && m.Has(m.s[node].right) && m.Has(m.s[p].left) && m.Has(m.s[p].right)
      && m.Has(m.s[z.up.n].parent)
      && (var tmp := if z.up.InL? then m.s[z.up.n].right else m.s[z.up.n].left;
          m.Has(tmp) && (if Uncle(z).Br? then tmp == Uncle(z).n && m.s[tmp].black == Uncle(z).black else tmp == null))
      && (z.up.InL? <==> m.s[z.up.n].right != p) && (z.up.InR? ==> m.s[z.up.n].right == p)
  {
    hide S, SC, Distinct, DistinctC, Rep, HoleRep, RB, RBC;
    HoleTop(m, z, p, node);
    OpenHole(m, z, p, node);
    if !z.black {
      RedParts(z, t, h);
      OpenHole(m, z.up, m.s[p].parent, p);
      OpenTwo(m, z, t, node);
      var u, g := Uncle(z), z.up.n;
      var tmp := if z.up.InL? then m.s[g].right else m.s[g].left;
      RepIsBelow(m, u, g, tmp);
      if u.Br? { OpenRep(m, u, g, tmp); }
      UncleNotParent(z, t);
    }
  }

  /** What the colours say around a red node below a red parent. */
  lemma RedParts<T>(z: Ctx<T>, t: Tree<T>, h: nat)
    requires RB(t, h) && RBC(z, h) && t.Br? && !t.black && !z.Top? && !z.black
    ensures TwoUp(z) && IsBlack(Sibling(z)) && IsBlack(t.l) && IsBlack(t.r)
  {
  }

  lemma FlipColorsKeys<T>(m: Mem<T>, tmp: Node<T>, parent: Node<T>, gparent: Node<T>)
    requires tmp in m.s && parent in m.s && gparent in m.s
    ensures FlipColors(m, tmp, parent, gparent).s.Keys == m.s.Keys
  {
  }

  lemma FlippedRoot<T>(z: Ctx<T>, t: Tree<T>)
    requires TwoUp(z) && Uncle(z).Br?
    ensures Flipped(z, t).Br? && Flipped(z, t).n == z.up.n && !Flipped(z, t).black
  {
  }

  lemma RotatedRoot<T>(z: Ctx<T>, t: Tree<T>)
    requires TwoUp(z) && t.Br?
    ensures Rotated(z, t).Br? && Rotated(z, t).black
  {
  }

  lemma OpenedHas<T>(m: Mem<T>, z: Ctx<T>, t: Tree<T>, node: Node<T>)
    requires TwoUp(z) && t.Br? && Opened(m, z, t, node)
    ensures node == t.n && node in m.s && z.n in m.s && z.up.n in m.s
    ensures m.Has(m.s[node].left) && m.Has(m.s[node].right) && m.Has(m.s[z.n].left) && m.Has(m.s[z.n].right)
    ensures m.Has(m.s[z.up.n].parent)
  {
  }

  lemma UncleNotParent<T>(z: Ctx<T>, t: Tree<T>)
    requires TwoUp(z) && DistinctC(z, S(t))
    ensures Uncle(z).Br? ==> Uncle(z).n != z.n
  {
  }

  lemma FlipStep<T>(m: Mem<T>, z: Ctx<T>, t: Tree<T>, h: nat, p: Node<T>, node: Node<T>,
                    ns: set<Node<T>>, order: seq<Node<T>>)
    requires Fixing(m, z, t, h, p, node, ns, order) && TwoUp(z) && z.n == p && Uncle(z).Br? && !Uncle(z).black
    ensures Uncle(z).n in m.s && z.up.n in m.s && p in m.s && Flipped(z, t).Br? && Uncle(z).n != z.up.n && p != z.up.n
    ensures Fixing(FlipColors(m, Uncle(z).n, p, z.up.n), z.up.up, Flipped(z, t), h + 1,
                   m.s[z.up.n].parent, z.up.n, ns, order)
  {
    hide S, SC, Distinct, DistinctC, Rep, HoleRep, RB, RBC, Before, After, InOrder, FlipColors, Flipped;
    OpenHole(m, z, p, node);
    FlipColorsRep(m, z, t, node);
    FlipColorsKeys(m, Uncle(z).n, p, z.up.n);
    FlippedOk(z, t, h);
    FlippedOrder(z, t);
    FlippedDistinct(z, t);
    FlippedRoot(z, t);
    FlippedApart(z, t);
  }

  lemma OuterRightStep<T>(m: Mem<T>, z: Ctx<T>, t: Tree<T>, h: nat, p: Node<T>, node: Node<T>,
                          ns: set<Node<T>>, order: seq<Node<T>>)
    requires Fixing(m, z, t, h, p, node, ns, order) && TwoUp(z) && z.n == p && IsBlack(Uncle(z)) && z.up.InL?
    ensures node == t.n && Opened(m, z, t, node)
    ensures Settled(OuterRight(m, node, p, z.up.n), z.up.up, Rotated(z, t), h + 1, ns, order)
  {
    hide S, SC, Distinct, DistinctC, Rep, HoleRep, RB, RBC, Before, After, InOrder, OuterRight, Rotated, Opened;
    RedParts(z, t, h);
    OpenTwo(m, z, t, node);
    OpenedHas(m, z, t, node);
    OuterRightRep(m, z, t, node);
    RotatedOk(z, t, h);
    RotatedOrder(z, t);
    RotatedDistinct(z, t);
    RotatedRoot(z, t);
    OpenRep(OuterRight(m, node, p, z.up.n), Rotated(z, t), m.s[z.up.n].parent, Rotated(z, t).n);
  }

  lemma OuterLeftStep<T>(m: Mem<T>, z: Ctx<T>, t: Tree<T>, h: nat, p: Node<T>, node: Node<T>,
                          ns: set<Node<T>>, order: seq<Node<T>>)
    requires Fixing(m, z, t, h, p, node, ns, order) && TwoUp(z) && z.n == p && IsBlack(Uncle(z)) && z.up.InR?
    ensures node == t.n && Opened(m, z, t, node)
    ensures Settled(OuterLeft(m, node, p, z.up.n), z.up.up, Rotated(z, t), h + 1, ns, order)
  {
    hide S, SC, Distinct, DistinctC, Rep, HoleRep, RB, RBC, Before, After, InOrder, OuterLeft, Rotated, Opened;
    RedParts(z, t, h);
    OpenTwo(m, z, t, node);
    OpenedHas(m, z, t, node);
    OuterLeftRep(m, z, t, node);
    RotatedOk(z, t, h);
    RotatedOrder(z, t);
    RotatedDistinct(z, t);
    RotatedRoot(z, t);
    OpenRep(OuterLeft(m, node, p, z.up.n), Rotated(z, t), m.s[z.up.n].parent, Rotated(z, t).n);
  }

  // ----- search and link ----------------------------------------------------------------------

  /** Entries that compare positive come first, then at most one that compares equal, then the negative
      ones. This is what a comparison with a fixed key looks like along a tree in descending order. */
  ghost predicate Descending<T>(cmp: T -> int, s: seq<Node<T>>) {
    forall i, j :: 0 <= i < j < |s| && cmp(s[i].entry) <= 0 ==> cmp(s[j].entry) < 0
  }

  ghost predicate AllPositive<T>(cmp: T -> int, s: seq<Node<T>>) { forall i :: 0 <= i < |s| ==> cmp(s[i].entry) > 0 }

  ghost predicate AllNegative<T>(cmp: T -> int, s: seq<Node<T>>) { forall i :: 0 <= i < |s| ==> cmp(s[i].entry) < 0 }

  lemma DescendingSplit<T>(cmp: T -> int, l: seq<Node<T>>, n: Node<T>, r: seq<Node<T>>)
    requires Descending(cmp, l + [n] + r)
    ensures Descending(cmp, l) && Descending(cmp, r)
    ensures cmp(n.entry) <= 0 ==> AllNegative(cmp, r)
    ensures cmp(n.entry) >= 0 ==> AllPositive(cmp, l)
  {
    var s := l + [n] + r;
    assert s[|l|] == n && forall i :: 0 <= i < |l| ==> s[i] == l[i];
    assert forall i :: 0 <= i < |r| ==> r[i] == s[|l| + 1 + i];
  }

  /** The state of a descent: everything left of the focus compares positive, everything right negative. */
  ghost predicate Searching<T>(cmp: T -> int, m: Mem<T>, shape: Tree<T>, z: Ctx<T>, t: Tree<T>, p: Node?<T>,
                               c: Node?<T>) {
    && HoleRep(m, z, p, c) && Rep(m, t, p, c) && Plug(z, t) == shape
    && Descending(cmp, InOrder(t)) && AllPositive(cmp, Before(z)) && AllNegative(cmp, After(z))
  }

  lemma SearchStart<T>(cmp: T -> int, m: Mem<T>, shape: Tree<T>)
    requires Rep(m, shape, null, m.root) && Descending(cmp, InOrder(shape))
    ensures Searching(cmp, m, shape, Top, shape, null, m.root)
  {
  }

  lemma SearchStep<T>(cmp: T -> int, m: Mem<T>, shape: Tree<T>, z: Ctx<T>, t: Tree<T>, p: Node?<T>, c: Node<T>)
    requires Searching(cmp, m, shape, z, t, p, c)
    ensures t.Br? && c == t.n && c in m.s && c in S(shape)
    ensures cmp(c.entry) < 0 ==> Searching(cmp, m, shape, InL(z, c, t.black, t.r), t.l, c, m.s[c].left)
    ensures cmp(c.entry) > 0 ==> Searching(cmp, m, shape, InR(z, t.l, c, t.black), t.r, c, m.s[c].right)
  {
    OpenRep(m, t, p, c);
    DescendingSplit(cmp, InOrder(t.l), c, InOrder(t.r));
    PlugSet(z, t);
    assert c in S(t);
    hide S, SC, Rep, Descending;
  }

  /** `hev_rbtree_node_link`: `node` becomes a red leaf below `parent`. */
  function Link<T>(m: Mem<T>, node: Node<T>, parent: Node?<T>, left: bool): Mem<T>
    requires node in m.s && m.Has(parent)
  {
    var m1 := m.SetPC(node, parent, false).SetL(node, null).SetR(node, null);
    if parent == null then m1.(root := node) else if left then m1.SetL(parent, node) else m1.SetR(parent, node)
  }

  lemma LinkRep<T>(m: Mem<T>, z: Ctx<T>, node: Node<T>, parent: Node?<T>)
    requires HoleRep(m, z, parent, null) && node in m.s && node !in SC(z) && DistinctC(z, {})
    ensures m.Has(parent)
    ensures var m' := Link(m, node, parent, z.InL?);
      HoleRep(m', z, parent, node) && m'.s[node] == Cell(null, null, parent, false)
    ensures DistinctC(z, {node})
  {
    hide S, SC, Rep, HoleRep, DistinctC;
    HoleHas(m, z, parent, null);
    AddBelow(z, {}, node);
    assert {} + {node} == {node};
    LinkHole(m, z, node, parent);
  }

  lemma LinkHole<T>(m: Mem<T>, z: Ctx<T>, node: Node<T>, parent: Node?<T>)
    requires HoleRep(m, z, parent, null) && node in m.s && node !in SC(z) && DistinctC(z, {}) && m.Has(parent)
    ensures HoleRep(Link(m, node, parent, z.InL?), z, parent, node)
  {
    var m' := Link(m, node, parent, z.InL?);
    match z
    case Top =>
    case InL(up, n, _, r) =>
      BelowNotInCtx(up, {} + {n} + S(r));
      RepFrame(m, m', {n, node}, r, n, m.s[n].right);
      HoleRepFrame(m, m', {n, node}, up, m.s[n].parent, n);
    case InR(up, l, n, _) =>
      BelowNotInCtx(up, {} + {n} + S(l));
      RepFrame(m, m', {n, node}, l, n, m.s[n].left);
      HoleRepFrame(m, m', {n, node}, up, m.s[n].parent, n);
  }

  lemma {:induction false} AddBelow<T>(z: Ctx<T>, below: set<Node<T>>, node: Node<T>)
    requires DistinctC(z, below) && node !in SC(z)
    ensures DistinctC(z, below + {node})
  {
    match z
    case Top =>
    case InL(up, n, _, r) =>
      AddBelow(up, below + {n} + S(r), node);
      assert below + {n} + S(r) + {node} == below + {node} + {n} + S(r);
    case InR(up, l, n, _) =>
      AddBelow(up, below + {n} + S(l), node);
      assert below + {n} + S(l) + {node} == below + {node} + {n} + S(l);
  }

  /** An empty place in a valid tree takes a red leaf. */
  lemma EmptyPlace<T>(shape: Tree<T>, z: Ctx<T>)
    requires Plug(z, Leaf) == shape && Distinct(shape) && RedBlack(shape)
    ensures RBC(z, 0) && DistinctC(z, {}) && SC(z) == S(shape) && InOrder(shape) == Before(z) + After(z)
  {
    var h :| RB(shape, h);
    var k := UnplugRB(z, Leaf, h);
    PlugDistinct(z, Leaf);
    PlugSet(z, Leaf);
    PlugOrder(z, Leaf);
    assert S<T>(Leaf) == {};
  }
}
