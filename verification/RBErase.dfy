/**
 Erasure fix-up of hev-rbtree.c on snapshots. The subtree in focus is one black node short; each
 case either repairs that or moves the shortage one level up.
 */
module RBErase {
  import opened RBShape
  import opened RBLinks
  import opened RBInsert

  // ----- shapes, written for a focus on the left; mirrored when the hole of `z` is a right child ----

  function Mk<T>(z: Ctx<T>, inner: Tree<T>, n: Node<T>, black: bool, outer: Tree<T>): Tree<T> {
    if z.InL? then Br(inner, n, black, outer) else Br(outer, n, black, inner)
  }

  function Hang<T>(z: Ctx<T>, up: Ctx<T>, n: Node<T>, black: bool, w: Tree<T>): Ctx<T> {
    if z.InL? then InL(up, n, black, w) else InR(up, w, n, black)
  }

  /** The child of `w` next to the focus, and the one away from it. */
  function Near<T>(z: Ctx<T>, w: Tree<T>): Tree<T>
    requires w.Br?
  {
    if z.InL? then w.l else w.r
  }

  function Far<T>(z: Ctx<T>, w: Tree<T>): Tree<T>
    requires w.Br?
  {
    if z.InL? then w.r else w.l
  }

  /** Case 1 (red sibling): the focus stays, its context becomes deeper. */
  function Case1<T>(z: Ctx<T>): Ctx<T>
    requires !z.Top? && Sibling(z).Br?
  {
    var w := Sibling(z);
    Hang(z, Hang(z, z.up, w.n, true, Far(z, w)), z.n, false, Near(z, w))
  }

  /** Case 2 (colour flip of the sibling, parent black afterwards). */
  function Case2<T>(z: Ctx<T>, t: Tree<T>): Tree<T>
    requires !z.Top? && Sibling(z).Br?
  {
    Mk(z, t, z.n, true, Paint(Sibling(z), false))
  }

  /** Case 4 (rotation at the parent). */
  function Case4<T>(z: Ctx<T>, t: Tree<T>): Tree<T>
    requires !z.Top? && Sibling(z).Br? && Far(z, Sibling(z)).Br?
  {
    var w := Sibling(z);
    Mk(z, Mk(z, t, z.n, true, Near(z, w)), w.n, z.black, Paint(Far(z, w), true))
  }

  /** Case 3 followed by case 4. */
  function Case3<T>(z: Ctx<T>, t: Tree<T>): Tree<T>
    requires !z.Top? && Sibling(z).Br? && Near(z, Sibling(z)).Br?
  {
    var w := Sibling(z);
    var sl := Near(z, w);
    Mk(z, Mk(z, t, z.n, true, Near(z, sl)), sl.n, z.black, Mk(z, Far(z, sl), w.n, true, Far(z, w)))
  }

  // ----- colours --------------------------------------------------------------------------

  /** A short focus has a sibling, and a red sibling has black children and a black parent. */
  lemma SiblingExists<T>(z: Ctx<T>, h: nat)
    requires !z.Top? && RBC(z, h + 1)
    ensures var w := Sibling(z);
      && w.Br?
      && (!w.black ==> z.black && Near(z, w).Br? && Near(z, w).black && IsBlack(Far(z, w)))
  {
    var w := Sibling(z);
    assert RB(w, h + 1);
    assert !w.black ==> RB(Near(z, w), h + 1);
  }

  lemma Case1Ok<T>(z: Ctx<T>, h: nat)
    requires !z.Top? && RBC(z, h + 1) && Sibling(z).Br? && !Sibling(z).black
    ensures RBC(Case1(z), h + 1) && !Case1(z).black && IsBlack(Sibling(Case1(z)))
  {
  }

  lemma Case2Ok<T>(z: Ctx<T>, t: Tree<T>, h: nat)
    requires !z.Top? && RBC(z, h + 1) && RB(t, h) && Sibling(z).Br? && Sibling(z).black
    requires IsBlack(Near(z, Sibling(z))) && IsBlack(Far(z, Sibling(z)))
    ensures RB(Case2(z, t), h + 1) && Case2(z, t).black
    ensures RBC(z.up, h + 1 + W(z.black))
  {
    assert RB(Paint(Sibling(z), false), h);
  }

  lemma Case4Ok<T>(z: Ctx<T>, t: Tree<T>, h: nat)
    requires !z.Top? && RBC(z, h + 1) && RB(t, h) && Sibling(z).Br? && Sibling(z).black
    requires Far(z, Sibling(z)).Br? && !Far(z, Sibling(z)).black
    ensures RB(Case4(z, t), h + 1 + W(z.black)) && RBC(z.up, h + 1 + W(z.black))
    ensures IsBlack(Case4(z, t)) || AllowsRed(z.up)
  {
    var w := Sibling(z);
    assert RB(Mk(z, t, z.n, true, Near(z, w)), h + 1);
    assert RB(Far(z, w), h);
    assert RB(Paint(Far(z, w), true), h + 1);
  }

  lemma Case3Ok<T>(z: Ctx<T>, t: Tree<T>, h: nat)
    requires !z.Top? && RBC(z, h + 1) && RB(t, h) && Sibling(z).Br? && Sibling(z).black
    requires IsBlack(Far(z, Sibling(z))) && Near(z, Sibling(z)).Br? && !Near(z, Sibling(z)).black
    ensures RB(Case3(z, t), h + 1 + W(z.black)) && RBC(z.up, h + 1 + W(z.black))
    ensures IsBlack(Case3(z, t)) || AllowsRed(z.up)
  {
    var w := Sibling(z);
    var sl := Near(z, w);
    assert RB(sl, h) && RB(Near(z, sl), h) && RB(Far(z, sl), h) && RB(Far(z, w), h);
    assert RB(Mk(z, t, z.n, true, Near(z, sl)), h + 1);
    assert RB(Mk(z, Far(z, sl), w.n, true, Far(z, w)), h + 1);
  }

  // ----- order --------------------------------------------------------------------------------

  /** The order of a tree in a context. */
  ghost function Order<T>(z: Ctx<T>, t: Tree<T>): seq<Node<T>> {
    Before(z) + InOrder(t) + After(z)
  }

  lemma UpOrder<T>(z: Ctx<T>, t: Tree<T>)
    requires !z.Top?
    ensures Order(z, t) == Order(z.up, Plug1(z, t))
  {
    if z.InL? {
      SeqAssoc(Before(z.up), InOrder(t), [z.n], InOrder(z.r), After(z.up));
    } else {
      SeqAssoc(Before(z.up), InOrder(z.l), [z.n], InOrder(t), After(z.up));
    }
  }

  lemma MkOrder<T>(z: Ctx<T>, a: Tree<T>, x: Node<T>, b: Tree<T>, y: Node<T>, c: Tree<T>, b1: bool, b2: bool, b3: bool,
                   b4: bool)
    ensures InOrder(Mk(z, Mk(z, a, x, b1, b), y, b2, c)) == InOrder(Mk(z, a, x, b3, Mk(z, b, y, b4, c)))
  {
    SeqAssoc([], InOrder(if z.InL? then a else c), [if z.InL? then x else y], InOrder(b),
             [if z.InL? then y else x] + InOrder(if z.InL? then c else a));
  }

  lemma Case1Order<T>(z: Ctx<T>, t: Tree<T>)
    requires !z.Top? && Sibling(z).Br?
    ensures Order(Case1(z), t) == Order(z, t) && !Case1(z).Top?
  {
    var w, z' := Sibling(z), Case1(z);
    UpOrder(z, t);
    UpOrder(z', t);
    UpOrder(z'.up, Plug1(z', t));
    MkOrder(z, t, z.n, Near(z, w), w.n, Far(z, w), false, true, z.black, w.black);
  }

  lemma CaseOrders<T>(z: Ctx<T>, t: Tree<T>)
    requires !z.Top? && Sibling(z).Br?
    ensures Order(z.up, Case2(z, t)) == Order(z, t)
    ensures Far(z, Sibling(z)).Br? ==> Order(z.up, Case4(z, t)) == Order(z, t)
    ensures Near(z, Sibling(z)).Br? ==> Order(z.up, Case3(z, t)) == Order(z, t)
  {
    var w := Sibling(z);
    var near, far := Near(z, w), Far(z, w);
    UpOrder(z, t);
    assert InOrder(Paint(w, false)) == InOrder(w);
    if far.Br? {
      assert InOrder(Paint(far, true)) == InOrder(far);
      MkOrder(z, t, z.n, near, w.n, far, true, z.black, z.black, w.black);
    }
    if near.Br? {
      var a, b := Near(z, near), Far(z, near);
      MkOrder(z, t, z.n, a, near.n, Mk(z, b, w.n, true, far), true, z.black, z.black, true);
      MkOrder(z, a, near.n, b, w.n, far, near.black, w.black, true, true);
    }
  }

  // ----- nodes --------------------------------------------------------------------------------

  lemma Case1Distinct<T>(z: Ctx<T>, t: Tree<T>)
    requires !z.Top? && Sibling(z).Br? && Distinct(t) && DistinctC(z, S(t))
    ensures DistinctC(Case1(z), S(t)) && SC(Case1(z)) == SC(z)
    ensures var w := Sibling(z); Apart(Far(z, w), w.n, Near(z, w), z.n, t)
    ensures var w := Sibling(z); DistinctC(z.up, Pieces(Far(z, w), w.n, Near(z, w), z.n, t))
  {
    var w := Sibling(z);
    assert S(w) == S(Near(z, w)) + {w.n} + S(Far(z, w));
    assert S(t) + {z.n} + S(Near(z, w)) + {w.n} + S(Far(z, w)) == S(t) + {z.n} + S(w);
    assert Pieces(Far(z, w), w.n, Near(z, w), z.n, t) == S(t) + {z.n} + S(w);
  }

  lemma CaseSets<T>(z: Ctx<T>, t: Tree<T>)
    requires !z.Top? && Sibling(z).Br?
    ensures S(Case2(z, t)) == S(t) + {z.n} + S(Sibling(z))
    ensures Far(z, Sibling(z)).Br? ==> S(Case4(z, t)) == S(t) + {z.n} + S(Sibling(z))
    ensures Near(z, Sibling(z)).Br? ==> S(Case3(z, t)) == S(t) + {z.n} + S(Sibling(z))
  {
    var w := Sibling(z);
    var near, far := Near(z, w), Far(z, w);
    assert S(Paint(w, false)) == S(w) == S(near) + {w.n} + S(far);
    if far.Br? {
      assert S(Paint(far, true)) == S(far);
    }
    if near.Br? {
      assert S(near) == S(Near(z, near)) + {near.n} + S(Far(z, near));
    }
  }

  lemma Case2Distinct<T>(z: Ctx<T>, t: Tree<T>)
    requires !z.Top? && Sibling(z).Br? && Distinct(t) && DistinctC(z, S(t))
    ensures Distinct(Case2(z, t)) && DistinctC(z.up, S(Case2(z, t))) && SC(z.up) + S(Case2(z, t)) == SC(z) + S(t)
  {
    var w := Sibling(z);
    assert Distinct(w);
    assert Distinct(Paint(w, false)) && S(Paint(w, false)) == S(w);
    CaseSets(z, t);
  }

  lemma Case4Distinct<T>(z: Ctx<T>, t: Tree<T>)
    requires !z.Top? && Sibling(z).Br? && Far(z, Sibling(z)).Br? && Distinct(t) && DistinctC(z, S(t))
    ensures Distinct(Case4(z, t)) && DistinctC(z.up, S(Case4(z, t))) && SC(z.up) + S(Case4(z, t)) == SC(z) + S(t)
  {
    var w := Sibling(z);
    var near, far := Near(z, w), Far(z, w);
    assert S(w) == S(near) + {w.n} + S(far) && Distinct(w);
    assert Distinct(far);
    assert Distinct(Paint(far, true)) && S(Paint(far, true)) == S(far);
    assert Distinct(Mk(z, t, z.n, true, near));
    CaseSets(z, t);
  }

  lemma MkDistinct<T>(z: Ctx<T>, a: Tree<T>, x: Node<T>, black: bool, b: Tree<T>)
    requires Distinct(a) && Distinct(b) && x !in S(a) && x !in S(b) && S(a) !! S(b)
    ensures Distinct(Mk(z, a, x, black, b)) && S(Mk(z, a, x, black, b)) == S(a) + {x} + S(b)
  {
  }

  lemma OpenDistinct<T>(z: Ctx<T>, w: Tree<T>)
    requires w.Br? && Distinct(w)
    ensures var a, b := Near(z, w), Far(z, w);
      S(w) == S(a) + {w.n} + S(b) && Distinct(a) && Distinct(b) && w.n !in S(a) && w.n !in S(b) && S(a) !! S(b)
  {
  }

  lemma OpenDistinctC<T>(z: Ctx<T>, below: set<Node<T>>)
    requires !z.Top? && DistinctC(z, below)
    ensures var w := Sibling(z);
      && SC(z) == SC(z.up) + {z.n} + S(w) && z.n !in below && z.n !in S(w) && S(w) !! below && Distinct(w)
      && DistinctC(z.up, below + {z.n} + S(w)) && SC(z.up) !! below + {z.n} + S(w)
  {
    BelowNotInCtx(z.up, below + {z.n} + S(Sibling(z)));
  }

  /** The pieces that cases 3 and 4 together move around. */
  lemma Case3Pieces<T>(z: Ctx<T>, t: Tree<T>)
    requires !z.Top? && Sibling(z).Br? && Near(z, Sibling(z)).Br? && Distinct(t) && DistinctC(z, S(t))
    ensures var w := Sibling(z);
      var sl, far := Near(z, w), Far(z, w);
      && Apart(far, w.n, Far(z, sl), sl.n, Near(z, sl)) && z.n !in S(w) && S(t) !! S(w) && z.n !in S(t)
        && SC(z.up) !! S(w)
      && S(w) == Pieces(far, w.n, Far(z, sl), sl.n, Near(z, sl)) && DistinctC(z.up, S(t) + {z.n} + S(w))
  {
    hide S, SC, Distinct, DistinctC;
    OpenDistinctC(z, S(t));
    OpenDistinct(z, Sibling(z));
    OpenDistinct(z, Near(z, Sibling(z)));
  }

  lemma Case3Distinct<T>(z: Ctx<T>, t: Tree<T>)
    requires !z.Top? && Sibling(z).Br? && Near(z, Sibling(z)).Br? && Distinct(t) && DistinctC(z, S(t))
    ensures Distinct(Case3(z, t)) && DistinctC(z.up, S(Case3(z, t))) && SC(z.up) + S(Case3(z, t)) == SC(z) + S(t)
    ensures var w := Sibling(z);
      var sl, far := Near(z, w), Far(z, w);
      && Apart(Mk(z, Far(z, sl), w.n, true, far), sl.n, Near(z, sl), z.n, t)
      && DistinctC(z.up, Pieces(Mk(z, Far(z, sl), w.n, true, far), sl.n, Near(z, sl), z.n, t))
  {
    hide S, SC, Distinct, DistinctC;
    var w := Sibling(z);
    var sl, far := Near(z, w), Far(z, w);
    Case3Pieces(z, t);
    OpenDistinctC(z, S(t));
    MkDistinct(z, t, z.n, true, Near(z, sl));
    MkDistinct(z, Far(z, sl), w.n, true, far);
    var a, b := Mk(z, t, z.n, true, Near(z, sl)), Mk(z, Far(z, sl), w.n, true, far);
    MkDistinct(z, a, sl.n, z.black, b);
    assert S(Case3(z, t)) == S(t) + {z.n} + S(w);
    assert Pieces(b, sl.n, Near(z, sl), z.n, t) == S(t) + {z.n} + S(w);
  }

  // ----- pointer writes -----------------------------------------------------------------------

  /** The child links next to, and away from, the focus. */
  function NearP<T>(m: Mem<T>, z: Ctx<T>, n: Node<T>): Node?<T>
    requires n in m.s
  {
    if z.InL? then m.s[n].left else m.s[n].right
  }

  function FarP<T>(m: Mem<T>, z: Ctx<T>, n: Node<T>): Node?<T>
    requires n in m.s
  {
    if z.InL? then m.s[n].right else m.s[n].left
  }

  /** Rotation at `top` towards the focus. */
  function Rotate<T>(m: Mem<T>, z: Ctx<T>, top: Node<T>, pivot: Node<T>, outer: Node?<T>, black: bool,
                     paint: bool): Mem<T>
    requires top in m.s && pivot in m.s && m.Has(outer) && m.Has(NearP(m, z, pivot)) && m.Has(m.s[top].parent)
  {
    if z.InL? then RotateLeft(m, top, pivot, outer, black, paint) else RotateRight(m, top, pivot, outer, black, paint)
  }

  lemma RotateRep<T>(m: Mem<T>, z: Ctx<T>, zz: Ctx<T>, a: Tree<T>, pivot: Node<T>, b: Tree<T>, top: Node<T>, u: Tree<T>,
                     outer: Node?<T>, black: bool, paint: bool)
    requires pivot in m.s && top in m.s && HoleRep(m, zz, m.s[top].parent, top)
    requires RepDue(m, a, pivot, FarP(m, z, pivot), outer)
    requires Rep(m, b, pivot, NearP(m, z, pivot)) && Rep(m, u, top, NearP(m, z, top))
    requires Apart(a, pivot, b, top, u) && DistinctC(zz, Pieces(a, pivot, b, top, u))
    ensures m.Has(outer) && m.Has(NearP(m, z, pivot)) && m.Has(m.s[top].parent)
    ensures var m' := Rotate(m, z, top, pivot, outer, black, paint);
      && m'.s.Keys == m.s.Keys
      && HoleRep(m', zz, m.s[top].parent, pivot)
      && Rep(m', Mk(z, Mk(z, u, top, black, Repaint(b, paint)), pivot, m.s[top].black, Repaint(a, outer != null)),
             m.s[top].parent, pivot)
  {
    hide S, Distinct, DistinctC, Rep, HoleRep, RepDue, Apart, Pieces, RotateLeft, RotateRight, Repaint;
    if z.InL? {
      RotateLeftRep(m, zz, a, pivot, b, top, u, outer, black, paint);
    } else {
      RotateRightRep(m, zz, a, pivot, b, top, u, outer, black, paint);
    }
  }

  /** What is known about the snapshot around a short focus with parent `z.n`. */
  ghost predicate Seen<T>(m: Mem<T>, z: Ctx<T>, t: Tree<T>, node: Node?<T>)
    requires !z.Top? && Sibling(z).Br?
  {
    var w, p := Sibling(z), z.n;
    && p in m.s && w.n in m.s && m.s[p].black == z.black && m.s[w.n].black == w.black && m.s[w.n].parent == p
    && NearP(m, z, p) == node && FarP(m, z, p) == w.n && m.Has(m.s[p].parent)
    && HoleRep(m, z.up, m.s[p].parent, p) && Rep(m, t, p, node)
    && Rep(m, Near(z, w), w.n, NearP(m, z, w.n)) && Rep(m, Far(z, w), w.n, FarP(m, z, w.n))
    && m.Has(NearP(m, z, w.n)) && m.Has(FarP(m, z, w.n))
    && (if Near(z, w).Br? then NearP(m, z, w.n) == Near(z, w).n && m.s[Near(z, w).n].black == Near(z, w).black
        else NearP(m, z, w.n) == null)
    && (if Far(z, w).Br? then FarP(m, z, w.n) == Far(z, w).n && m.s[Far(z, w).n].black == Far(z, w).black
        else FarP(m, z, w.n) == null)
  }

  lemma See<T>(m: Mem<T>, z: Ctx<T>, t: Tree<T>, node: Node?<T>)
    requires !z.Top? && Sibling(z).Br? && HoleRep(m, z, z.n, node) && Rep(m, t, z.n, node)
    ensures Seen(m, z, t, node)
  {
    hide Rep, HoleRep;
    var w, p := Sibling(z), z.n;
    OpenHole(m, z, p, node);
    HoleHas(m, z.up, m.s[p].parent, p);
    OpenRep(m, w, p, w.n);
    var near, far := Near(z, w), Far(z, w);
    RepIsBelow(m, near, w.n, NearP(m, z, w.n));
    RepIsBelow(m, far, w.n, FarP(m, z, w.n));
    if near.Br? { OpenRep(m, near, w.n, near.n); }
    if far.Br? { OpenRep(m, far, w.n, far.n); }
  }

  lemma MakeHole<T>(m: Mem<T>, z: Ctx<T>, up: Ctx<T>, n: Node<T>, black: bool, w: Tree<T>, c: Node?<T>)
    requires !z.Top? && n in m.s && m.s[n].black == black && NearP(m, z, n) == c && Rep(m, w, n, FarP(m, z, n))
    requires HoleRep(m, up, m.s[n].parent, n)
    ensures HoleRep(m, Hang(z, up, n, black, w), n, c)
  {
  }

  lemma OpenMk<T>(m: Mem<T>, z: Ctx<T>, a: Tree<T>, n: Node<T>, black: bool, b: Tree<T>, p: Node?<T>, c: Node?<T>)
    requires Rep(m, Mk(z, a, n, black, b), p, c)
    ensures c == n && n in m.s && m.s[n].parent == p && m.s[n].black == black
    ensures Rep(m, a, n, NearP(m, z, n)) && Rep(m, b, n, FarP(m, z, n))
  {
  }

  lemma Case1Rep<T>(m: Mem<T>, z: Ctx<T>, t: Tree<T>, node: Node?<T>)
    requires !z.Top? && Sibling(z).Br? && Seen(m, z, t, node) && Distinct(t) && DistinctC(z, S(t))
    requires z.black && IsBlack(Near(z, Sibling(z)))
    ensures var m' := Rotate(m, z, z.n, Sibling(z).n, null, false, true);
      m'.s.Keys == m.s.Keys && HoleRep(m', Case1(z), z.n, node) && Rep(m', t, z.n, node)
  {
    hide S, SC, Distinct, DistinctC, Rep, HoleRep, Apart, Pieces, Rotate;
    var w, p := Sibling(z), z.n;
    var near, far := Near(z, w), Far(z, w);
    Case1Distinct(z, t);
    RotateRep(m, z, z.up, far, w.n, near, p, t, null, false, true);
    var m' := Rotate(m, z, p, w.n, null, false, true);
    var inner := Mk(z, t, p, false, near);
    OpenMk(m', z, inner, w.n, true, far, m.s[p].parent, w.n);
    OpenMk(m', z, t, p, false, near, w.n, NearP(m', z, w.n));
    RepIsBelow(m, t, p, node);
    RepIsBelow(m', t, p, NearP(m', z, p));
    MakeHole(m', z, z.up, w.n, true, far, p);
    MakeHole(m', z, Hang(z, z.up, w.n, true, far), p, false, near, node);
  }

  /** Case 2 - sibling colour flip; a red parent turns black. */
  function FlipSibling<T>(m: Mem<T>, sibling: Node<T>, parent: Node<T>): Mem<T>
    requires sibling in m.s && parent in m.s
  {
    var m1 := m.SetPC(sibling, parent, false);
    if m1.s[parent].black then m1 else m1.SetPC(parent, m1.s[parent].parent, true)
  }

  lemma Case2Rep<T>(m: Mem<T>, z: Ctx<T>, t: Tree<T>, node: Node?<T>)
    requires !z.Top? && Sibling(z).Br? && Seen(m, z, t, node) && Distinct(t) && DistinctC(z, S(t))
    ensures var m' := FlipSibling(m, Sibling(z).n, z.n);
      && m'.s.Keys == m.s.Keys && HoleRep(m', z.up, m.s[z.n].parent, z.n)
      && Rep(m', Case2(z, t), m.s[z.n].parent, z.n)
  {
    hide S, SC, Distinct, DistinctC, Rep, HoleRep;
    var w, p := Sibling(z), z.n;
    OpenDistinctC(z, S(t));
    OpenDistinct(z, w);
    var m' := FlipSibling(m, w.n, p);
    var xs := {w.n, p};
    RepFrame(m, m', xs, t, p, node);
    RepFrame(m, m', xs, Near(z, w), w.n, NearP(m, z, w.n));
    RepFrame(m, m', xs, Far(z, w), w.n, FarP(m, z, w.n));
    HoleRepFrame(m, m', xs, z.up, m.s[p].parent, p);
    MakeRep(m', w.l, w.n, false, w.r, p);
    if z.InL? {
      MakeRep(m', t, p, true, Paint(w, false), m.s[p].parent);
    } else {
      MakeRep(m', Paint(w, false), p, true, t, m.s[p].parent);
    }
  }

  lemma Case4Rep<T>(m: Mem<T>, z: Ctx<T>, t: Tree<T>, node: Node?<T>)
    requires !z.Top? && Sibling(z).Br? && Seen(m, z, t, node) && Distinct(t) && DistinctC(z, S(t))
    requires Far(z, Sibling(z)).Br?
    ensures var m' := Rotate(m, z, z.n, Sibling(z).n, Far(z, Sibling(z)).n, true, false);
      && m'.s.Keys == m.s.Keys && HoleRep(m', z.up, m.s[z.n].parent, Sibling(z).n)
      && Rep(m', Case4(z, t), m.s[z.n].parent, Sibling(z).n)
  {
    hide S, SC, Distinct, DistinctC, Rep, HoleRep, Apart, Pieces, Rotate;
    var w := Sibling(z);
    Case1Distinct(z, t);
    RepIsBelow(m, Far(z, w), w.n, FarP(m, z, w.n));
    RotateRep(m, z, z.up, Far(z, w), w.n, Near(z, w), z.n, t, Far(z, w).n, true, false);
  }

  function SetNear<T>(m: Mem<T>, z: Ctx<T>, n: Node<T>, c: Node?<T>): Mem<T>
    requires n in m.s
  {
    if z.InL? then m.SetL(n, c) else m.SetR(n, c)
  }

  function SetFar<T>(m: Mem<T>, z: Ctx<T>, n: Node<T>, c: Node?<T>): Mem<T>
    requires n in m.s
  {
    if z.InL? then m.SetR(n, c) else m.SetL(n, c)
  }

  /** Case 3 - rotate at `sibling` away from the focus. The parent links of `sibling` and `sl` are left for
      case 4 to write. */
  function RotateSibling<T>(m: Mem<T>, z: Ctx<T>, sibling: Node<T>, sl: Node<T>, parent: Node<T>): Mem<T>
    requires sibling in m.s && sl in m.s && parent in m.s && m.Has(FarP(m, z, sl))
  {
    var tmp1 := FarP(m, z, sl);
    var m1 := SetFar(SetFar(SetNear(m, z, sibling, tmp1), z, sl, sibling), z, parent, sl);
    if tmp1 == null then m1 else m1.SetPC(tmp1, sibling, true)
  }

  lemma RotateSiblingWrites<T>(m: Mem<T>, z: Ctx<T>, sibling: Node<T>, sl: Node<T>, parent: Node<T>)
    requires sibling in m.s && sl in m.s && parent in m.s && m.Has(FarP(m, z, sl))
    requires sibling != sl && sibling != parent && sl != parent
    requires FarP(m, z, sl) != sibling && FarP(m, z, sl) != sl && FarP(m, z, sl) != parent
    ensures var m', tmp1 := RotateSibling(m, z, sibling, sl, parent), FarP(m, z, sl);
      && m'.root == m.root && SameBut(m, m', {sibling, sl, parent} + Opt(tmp1))
      && NearP(m', z, sibling) == tmp1 && FarP(m', z, sibling) == FarP(m, z, sibling)
      && FarP(m', z, sl) == sibling && NearP(m', z, sl) == NearP(m, z, sl)
      && FarP(m', z, parent) == sl && NearP(m', z, parent) == NearP(m, z, parent)
      && m'.s[parent].parent == m.s[parent].parent && m'.s[parent].black == m.s[parent].black
      && (tmp1 != null ==> m'.s[tmp1] == m.s[tmp1].(parent := sibling, black := true))
  {
  }

  lemma MkBelow<T>(m: Mem<T>, z: Ctx<T>, a: Tree<T>, n: Node<T>, black: bool, b: Tree<T>)
    requires !z.Top? && n in m.s && Rep(m, a, n, NearP(m, z, n)) && Rep(m, b, n, FarP(m, z, n))
    ensures Mk(z, a, n, black, b).Br? && Mk(z, a, n, black, b).n == n && RepBelow(m, Mk(z, a, n, black, b), n)
  {
  }

  /** Case 3: the sibling subtree after its rotation, waiting for case 4. */
  lemma RotateSiblingRep<T>(m: Mem<T>, z: Ctx<T>, t: Tree<T>, node: Node?<T>)
    requires !z.Top? && Sibling(z).Br? && Seen(m, z, t, node) && Distinct(t) && DistinctC(z, S(t))
    requires Near(z, Sibling(z)).Br? && IsBlack(Far(z, Near(z, Sibling(z))))
    ensures m.Has(FarP(m, z, Near(z, Sibling(z)).n))
    ensures var w, p := Sibling(z), z.n;
      var sl := Near(z, w);
      var m' := RotateSibling(m, z, w.n, sl.n, p);
      && m'.s.Keys == m.s.Keys && HoleRep(m', z.up, m.s[p].parent, p)
      && m'.s[p].parent == m.s[p].parent && m'.s[p].black == m.s[p].black
      && RepDue(m', Mk(z, Far(z, sl), w.n, true, Far(z, w)), sl.n, FarP(m', z, sl.n), w.n)
      && Rep(m', Near(z, sl), sl.n, NearP(m', z, sl.n)) && Rep(m', t, p, NearP(m', z, p))
      && m'.Has(NearP(m', z, sl.n))
  {
    hide S, SC, Distinct, DistinctC, Rep, HoleRep, RotateSibling, Apart, Pieces;
    var w, p := Sibling(z), z.n;
    var sl, far := Near(z, w), Far(z, w);
    var a, b := Near(z, sl), Far(z, sl);
    OpenRep(m, sl, w.n, sl.n);
    var tmp1 := FarP(m, z, sl.n);
    RepIsBelow(m, b, sl.n, tmp1);
    RepIsBelow(m, a, sl.n, NearP(m, z, sl.n));
    Case3Touched(z, t, tmp1);
    RotateSiblingWrites(m, z, w.n, sl.n, p);
    var m' := RotateSibling(m, z, w.n, sl.n, p);
    var xs := {w.n, sl.n, p} + Opt(tmp1);
    RepFrame(m, m', xs, t, p, node);
    RepFrame(m, m', xs, far, w.n, FarP(m, z, w.n));
    RepFrame(m, m', xs, a, sl.n, NearP(m, z, sl.n));
    HoleRepFrame(m, m', xs, z.up, m.s[p].parent, p);
    if tmp1 == null {
      RepFrame(m, m', xs, b, sl.n, tmp1);
      LeafRep(m', b, sl.n, w.n);
    } else {
      OpenRep(m, b, sl.n, tmp1);
      CompleteRep(m, m', xs, b, w.n, true);
    }
    MkBelow(m', z, b, w.n, true, far);
  }

  lemma Case3Touched<T>(z: Ctx<T>, t: Tree<T>, inner: Node?<T>)
    requires !z.Top? && Sibling(z).Br? && Near(z, Sibling(z)).Br? && Distinct(t) && DistinctC(z, S(t))
    requires var b := Far(z, Near(z, Sibling(z))); if b.Br? then inner == b.n else inner == null
    ensures var w, p := Sibling(z), z.n;
      var sl, far := Near(z, w), Far(z, w);
      var a, b, xs := Near(z, sl), Far(z, sl), {w.n, sl.n, p} + Opt(inner);
      && w.n != sl.n && w.n != p && sl.n != p && inner != w.n && inner != sl.n && inner != p
      && S(t) !! xs && S(far) !! xs && S(a) !! xs && SC(z.up) !! xs
      && (inner == null ==> S(b) !! xs)
      && (inner != null ==> Distinct(b) && S(b.l) !! xs && S(b.r) !! xs)
  {
    hide S, SC, Distinct, DistinctC;
    var w, p := Sibling(z), z.n;
    var sl, far := Near(z, w), Far(z, w);
    Case3Pieces(z, t);
    OpenDistinctC(z, S(t));
    TouchedApart(far, w.n, Far(z, sl), sl.n, Near(z, sl), null, inner);
  }

  lemma Case3Rep<T>(m: Mem<T>, z: Ctx<T>, t: Tree<T>, node: Node?<T>)
    requires !z.Top? && Sibling(z).Br? && Seen(m, z, t, node) && Distinct(t) && DistinctC(z, S(t))
    requires Near(z, Sibling(z)).Br? && IsBlack(Far(z, Near(z, Sibling(z))))
    ensures m.Has(FarP(m, z, Near(z, Sibling(z)).n))
    ensures var w, p := Sibling(z), z.n;
      var sl := Near(z, w);
      var m1 := RotateSibling(m, z, w.n, sl.n, p);
      && m1.s.Keys == m.s.Keys && m1.Has(NearP(m1, z, sl.n)) && m1.Has(m1.s[p].parent)
      && var m' := Rotate(m1, z, p, sl.n, w.n, true, false);
      && m'.s.Keys == m.s.Keys && HoleRep(m', z.up, m.s[p].parent, sl.n)
      && Rep(m', Case3(z, t), m.s[p].parent, sl.n)
  {
    hide S, SC, Distinct, DistinctC, Rep, HoleRep, Apart, Pieces, Rotate, RotateSibling, RepDue;
    var w, p := Sibling(z), z.n;
    var sl, far := Near(z, w), Far(z, w);
    RotateSiblingRep(m, z, t, node);
    Case3Distinct(z, t);
    var m1 := RotateSibling(m, z, w.n, sl.n, p);
    RotateRep(m1, z, z.up, Mk(z, Far(z, sl), w.n, true, far), sl.n, Near(z, sl), p, t, w.n, true, false);
  }

  // ----- one turn of the erasure loop ---------------------------------------------------------

  /** The state of the loop: the subtree at `node` is black and one black node short. */
  ghost predicate Short<T>(m: Mem<T>, z: Ctx<T>, t: Tree<T>, h: nat, p: Node?<T>, node: Node?<T>,
                           ns: set<Node<T>>, order: seq<Node<T>>)
  {
    && Placed(m, z, t, p, node, ns, order) && RB(t, h) && RBC(z, h + 1) && IsBlack(t) && !z.Top?
  }

  lemma ShortSeen<T>(m: Mem<T>, z: Ctx<T>, t: Tree<T>, h: nat, p: Node?<T>, node: Node?<T>,
                     ns: set<Node<T>>, order: seq<Node<T>>)
    requires Short(m, z, t, h, p, node, ns, order)
    ensures !z.Top? && p == z.n && Sibling(z).Br? && Seen(m, z, t, node) && p in ns && Sibling(z).n in ns
    ensures Sibling(z).n != p
    ensures var w := Sibling(z);
      !w.black ==> z.black && Near(z, w).Br? && Near(z, w).black && IsBlack(Far(z, w))
    ensures node == NearP(m, z, p) && node != FarP(m, z, p)
  {
    hide S, SC, Distinct, DistinctC, Rep, HoleRep, RB, RBC, Before, After, InOrder;
    OpenHole(m, z, p, node);
    SiblingExists(z, h);
    See(m, z, t, node);
    RepIsBelow(m, t, p, node);
    SiblingApart(z, t);
  }

  lemma SiblingApart<T>(z: Ctx<T>, t: Tree<T>)
    requires !z.Top? && DistinctC(z, S(t)) && Sibling(z).Br?
    ensures Sibling(z).n != z.n && (t.Br? ==> t.n != Sibling(z).n)
  {
  }

  lemma Case1Step<T>(m: Mem<T>, z: Ctx<T>, t: Tree<T>, h: nat, p: Node<T>, node: Node?<T>,
                     ns: set<Node<T>>, order: seq<Node<T>>)
    requires Short(m, z, t, h, p, node, ns, order) && Sibling(z).Br? && !Sibling(z).black && Seen(m, z, t, node)
    ensures Short(Rotate(m, z, p, Sibling(z).n, null, false, true), Case1(z), t, h, p, node, ns, order)
    ensures !Case1(z).Top? && !Case1(z).black && IsBlack(Sibling(Case1(z)))
  {
    hide S, SC, Distinct, DistinctC, Rep, HoleRep, RB, RBC, Before, After, InOrder, Seen, Rotate, FlipSibling,
         RotateSibling, Case1, Case2, Case3, Case4;
    OpenHole(m, z, p, node);
    SiblingExists(z, h);
    Case1Rep(m, z, t, node);
    Case1Ok(z, h);
    Case1Distinct(z, t);
    Case1Order(z, t);
  }

  lemma Case2Step<T>(m: Mem<T>, z: Ctx<T>, t: Tree<T>, h: nat, p: Node<T>, node: Node?<T>,
                     ns: set<Node<T>>, order: seq<Node<T>>)
    requires Short(m, z, t, h, p, node, ns, order) && Sibling(z).Br? && Seen(m, z, t, node)
    requires Sibling(z).black && IsBlack(Near(z, Sibling(z))) && IsBlack(Far(z, Sibling(z)))
    ensures var m', up := FlipSibling(m, Sibling(z).n, p), m.s[p].parent;
      if z.black && up != null then Short(m', z.up, Case2(z, t), h + 1, up, p, ns, order)
      else Settled(m', z.up, Case2(z, t), h + 1, ns, order)
  {
    hide S, SC, Distinct, DistinctC, Rep, HoleRep, RB, RBC, Before, After, InOrder, Seen, Rotate, FlipSibling,
         RotateSibling, Case1, Case2, Case3, Case4;
    OpenHole(m, z, p, node);
    SeenUp(m, z, t, node);
    Case2Rep(m, z, t, node);
    Case2Ok(z, t, h);
    Case2Distinct(z, t);
    CaseOrders(z, t);
    Case2Root(z, t);
    var m' := FlipSibling(m, Sibling(z).n, p);
    OpenRep(m', Case2(z, t), m.s[p].parent, p);
    HoleTop(m', z.up, m.s[p].parent, p);
    RBCTop(z.up, h + 1, h + 2);
  }

  lemma Case2Root<T>(z: Ctx<T>, t: Tree<T>)
    requires !z.Top? && Sibling(z).Br?
    ensures Case2(z, t).Br? && Case2(z, t).n == z.n && Case2(z, t).black
  {
  }

  lemma RBCTop<T>(z: Ctx<T>, h: nat, k: nat)
    ensures z.Top? ==> RBC(z, h) && RBC(z, k)
  {
  }

  lemma SeenUp<T>(m: Mem<T>, z: Ctx<T>, t: Tree<T>, node: Node?<T>)
    requires !z.Top? && Sibling(z).Br? && Seen(m, z, t, node)
    ensures z.n in m.s && Sibling(z).n in m.s && m.s[z.n].black == z.black && m.Has(m.s[z.n].parent)
    ensures m.Has(NearP(m, z, Sibling(z).n)) && m.Has(FarP(m, z, Sibling(z).n))
    ensures Far(z, Sibling(z)).Br? ==> Far(z, Sibling(z)).n in m.s
    ensures Near(z, Sibling(z)).Br? ==> Near(z, Sibling(z)).n in m.s
  {
  }

  lemma Case4Step<T>(m: Mem<T>, z: Ctx<T>, t: Tree<T>, h: nat, p: Node<T>, node: Node?<T>,
                     ns: set<Node<T>>, order: seq<Node<T>>)
    requires Short(m, z, t, h, p, node, ns, order) && Sibling(z).Br? && Sibling(z).black && Seen(m, z, t, node)
    requires Far(z, Sibling(z)).Br? && !Far(z, Sibling(z)).black
    ensures Settled(Rotate(m, z, p, Sibling(z).n, Far(z, Sibling(z)).n, true, false), z.up, Case4(z, t),
                    h + 1 + W(z.black), ns, order)
  {
    hide S, SC, Distinct, DistinctC, Rep, HoleRep, RB, RBC, Before, After, InOrder, Seen, Rotate, FlipSibling,
         RotateSibling, Case1, Case2, Case3, Case4;
    OpenHole(m, z, p, node);
    SeenUp(m, z, t, node);
    Case4Rep(m, z, t, node);
    Case4Ok(z, t, h);
    Case4Distinct(z, t);
    CaseOrders(z, t);
    Case4Root(z, t);
    OpenRep(Rotate(m, z, p, Sibling(z).n, Far(z, Sibling(z)).n, true, false), Case4(z, t), m.s[p].parent, Sibling(z).n);
  }

  lemma Case4Root<T>(z: Ctx<T>, t: Tree<T>)
    requires !z.Top? && Sibling(z).Br? && Far(z, Sibling(z)).Br?
    ensures Case4(z, t).Br? && Case4(z, t).n == Sibling(z).n
  {
  }

  lemma Case3Step<T>(m: Mem<T>, z: Ctx<T>, t: Tree<T>, h: nat, p: Node<T>, node: Node?<T>,
                     ns: set<Node<T>>, order: seq<Node<T>>)
    requires Short(m, z, t, h, p, node, ns, order) && Sibling(z).Br? && Sibling(z).black && Seen(m, z, t, node)
    requires Near(z, Sibling(z)).Br? && !Near(z, Sibling(z)).black && IsBlack(Far(z, Sibling(z)))
    ensures var w := Sibling(z);
      var sl := Near(z, w).n;
      && p in m.s && w.n in m.s && sl in m.s && m.Has(FarP(m, z, sl))
      && var m1 := RotateSibling(m, z, w.n, sl, p);
      && m1.s.Keys == m.s.Keys && m1.Has(NearP(m1, z, sl)) && m1.Has(m1.s[p].parent)
      && Settled(Rotate(m1, z, p, sl, w.n, true, false), z.up, Case3(z, t), h + 1 + W(z.black), ns, order)
  {
    hide S, SC, Distinct, DistinctC, Rep, HoleRep, RB, RBC, Before, After, InOrder, Seen, Rotate, FlipSibling,
         RotateSibling, Case1, Case2, Case3, Case4;
    OpenHole(m, z, p, node);
    SeenUp(m, z, t, node);
    NearRed(z, h);
    Case3Rep(m, z, t, node);
    Case3Ok(z, t, h);
    Case3Distinct(z, t);
    CaseOrders(z, t);
    Case3Root(z, t);
    var w := Sibling(z);
    var sl := Near(z, w).n;
    OpenRep(Rotate(RotateSibling(m, z, w.n, sl, p), z, p, sl, w.n, true, false), Case3(z, t), m.s[p].parent, sl);
  }

  lemma NearRed<T>(z: Ctx<T>, h: nat)
    requires !z.Top? && RBC(z, h + 1) && Sibling(z).Br? && Near(z, Sibling(z)).Br? && !Near(z, Sibling(z)).black
    ensures IsBlack(Far(z, Near(z, Sibling(z))))
  {
    var w := Sibling(z);
    assert RB(w, h + 1);
    assert RB(Near(z, w), h + 1 - W(w.black));
  }

  lemma Case3Root<T>(z: Ctx<T>, t: Tree<T>)
    requires !z.Top? && Sibling(z).Br? && Near(z, Sibling(z)).Br?
    ensures Case3(z, t).Br? && Case3(z, t).n == Near(z, Sibling(z)).n
  {
  }

  lemma FlipSiblingKeeps<T>(m: Mem<T>, sibling: Node<T>, parent: Node<T>)
    requires sibling in m.s && parent in m.s && sibling != parent
    ensures var m' := FlipSibling(m, sibling, parent);
      m'.s.Keys == m.s.Keys && m'.s[parent].parent == m.s[parent].parent
  {
  }

  /** After case 1 the focus has the red sibling's near child as its sibling. */
  lemma Case1Sibling<T>(z: Ctx<T>)
    requires !z.Top? && Sibling(z).Br?
    ensures Sibling(Case1(z)) == Near(z, Sibling(z)) && Case1(z).n == z.n && (Case1(z).InL? <==> z.InL?)
  {
  }
}
