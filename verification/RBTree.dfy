/**
 The red-black tree of hev-rbtree.c as a heap object. The pointer writes are those of the source,
 in its order; shapes, snapshots and contexts are ghost.
 */
module RBTree {
  import opened RBShape
  import opened RBLinks
  import opened RBInsert
  import opened RBErase
  import opened RBUnlink

  class RBTree<T> {
    var root: Node?<T>
    ghost var shape: Tree<T>

    /** The snapshot of the header and of the link fields of `ns`. */
    ghost function M(ns: set<Node<T>>): Mem<T>
      reads this`root, ns
    {
      Mem(root, map n | n in ns :: Cell(n.left, n.right, n.parent, n.black))
    }

    /** The pointers form `shape`, parent links included, and `shape` obeys the red-black rules. */
    ghost predicate Valid()
      reads this, S(shape)
    {
      Rep(M(S(shape)), shape, null, root) && Distinct(shape) && RedBlack(shape)
    }

    /** The nodes from left to right. */
    ghost function Nodes(): seq<Node<T>>
      reads this
    {
      InOrder(shape)
    }

    constructor ()
      ensures Valid() && Nodes() == [] && shape == Leaf
    {
      root, shape := null, Leaf;
      new;
      assert RB(shape, 0);
    }

    // ----- single field writes ---------------------------------------------------------

    method SetLeft(n: Node<T>, c: Node?<T>, ghost ns: set<Node<T>>)
      requires n in ns
      modifies n`left
      ensures M(ns) == old(M(ns)).SetL(n, c)
    {
      n.left := c;
    }

    method SetRight(n: Node<T>, c: Node?<T>, ghost ns: set<Node<T>>)
      requires n in ns
      modifies n`right
      ensures M(ns) == old(M(ns)).SetR(n, c)
    {
      n.right := c;
    }

    method SetParent(n: Node<T>, p: Node?<T>, ghost ns: set<Node<T>>)
      requires n in ns
      modifies n`parent
      ensures M(ns) == old(M(ns)).SetP(n, p)
    {
      n.parent := p;
    }

    method SetParentColor(n: Node<T>, p: Node?<T>, black: bool, ghost ns: set<Node<T>>)
      requires n in ns
      modifies n`parent, n`black
      ensures M(ns) == old(M(ns)).SetPC(n, p, black)
    {
      n.parent, n.black := p, black;
    }

    // ----- relinking ---------------------------------------------------------------------

    method ChangeChild(old': Node<T>, new': Node?<T>, parent: Node?<T>, ghost ns: set<Node<T>>)
      requires parent == null || parent in ns
      modifies this`root, ns
      ensures M(ns) == RBLinks.ChangeChild(old(M(ns)), old', new', parent)
    {
      if parent != null {
        if parent.left == old' {
          SetLeft(parent, new', ns);
        } else {
          SetRight(parent, new', ns);
        }
      } else {
        root := new';
      }
    }

    method RotateSetParents(old': Node<T>, new': Node<T>, black: bool, ghost ns: set<Node<T>>)
      requires old' in ns && new' in ns && (old'.parent == null || old'.parent in ns)
      modifies this`root, ns
      ensures M(ns) == RBLinks.RotateSetParents(old(M(ns)), old', new', black)
    {
      hide RBLinks.ChangeChild;
      var parent := old'.parent;
      SetParentColor(new', old'.parent, old'.black, ns);
      SetParentColor(old', new', black, ns);
      ChangeChild(old', new', parent, ns);
    }

    // ----- rotations ---------------------------------------------------------------------

    method RotateRight(top: Node<T>, pivot: Node<T>, outer: Node?<T>, black: bool, paint: bool, ghost ns: set<Node<T>>)
      requires top in ns && pivot in ns && (outer == null || outer in ns)
      requires (pivot.right == null || pivot.right in ns) && (top.parent == null || top.parent in ns)
      modifies this`root, ns
      ensures M(ns) == RBLinks.RotateRight(old(M(ns)), top, pivot, outer, black, paint)
    {
      hide RBLinks.RotateSetParents, RBLinks.RelinkRight;
      RelinkRight(top, pivot, outer, paint, ns);
      RotateSetParents(top, pivot, black, ns);
    }

    /** The first half of a right rotation: everything but the parent links of `top` and `pivot`. */
    method RelinkRight(top: Node<T>, pivot: Node<T>, outer: Node?<T>, paint: bool, ghost ns: set<Node<T>>)
      requires top in ns && pivot in ns && (outer == null || outer in ns)
      requires (pivot.right == null || pivot.right in ns) && (top.parent == null || top.parent in ns)
      modifies ns
      ensures M(ns) == RBLinks.RelinkRight(old(M(ns)), top, pivot, outer, paint)
      ensures top.parent == null || top.parent in ns
    {
      var tmp := pivot.right;
      SetLeft(top, tmp, ns);
      SetRight(pivot, top, ns);
      if outer != null {
        SetParentColor(outer, pivot, true, ns);
      }
      if tmp != null {
        if paint {
          SetParentColor(tmp, top, true, ns);
        } else {
          SetParent(tmp, top, ns);
        }
      }
    }

    method RotateLeft(top: Node<T>, pivot: Node<T>, outer: Node?<T>, black: bool, paint: bool, ghost ns: set<Node<T>>)
      requires top in ns && pivot in ns && (outer == null || outer in ns)
      requires (pivot.left == null || pivot.left in ns) && (top.parent == null || top.parent in ns)
      modifies this`root, ns
      ensures M(ns) == RBLinks.RotateLeft(old(M(ns)), top, pivot, outer, black, paint)
    {
      hide RBLinks.RotateSetParents, RBLinks.RelinkLeft;
      RelinkLeft(top, pivot, outer, paint, ns);
      RotateSetParents(top, pivot, black, ns);
    }

    /** The first half of a left rotation: everything but the parent links of `top` and `pivot`. */
    method RelinkLeft(top: Node<T>, pivot: Node<T>, outer: Node?<T>, paint: bool, ghost ns: set<Node<T>>)
      requires top in ns && pivot in ns && (outer == null || outer in ns)
      requires (pivot.left == null || pivot.left in ns) && (top.parent == null || top.parent in ns)
      modifies ns
      ensures M(ns) == RBLinks.RelinkLeft(old(M(ns)), top, pivot, outer, paint)
      ensures top.parent == null || top.parent in ns
    {
      var tmp := pivot.left;
      SetRight(top, tmp, ns);
      SetLeft(pivot, top, ns);
      if outer != null {
        SetParentColor(outer, pivot, true, ns);
      }
      if tmp != null {
        if paint {
          SetParentColor(tmp, top, true, ns);
        } else {
          SetParent(tmp, top, ns);
        }
      }
    }

    /** Case 2 of insertion - left rotate at `parent`. */
    method InnerLeft(node: Node<T>, parent: Node<T>, ghost ns: set<Node<T>>)
      requires node in ns && parent in ns && (node.left == null || node.left in ns)
      modifies ns
      ensures M(ns) == RBInsert.InnerLeft(old(M(ns)), node, parent)
    {
      var tmp := node.left;
      SetRight(parent, tmp, ns);
      SetLeft(node, parent, ns);
      if tmp != null {
        SetParentColor(tmp, parent, true, ns);
      }
      SetParentColor(parent, node, false, ns);
    }

    /** Case 2 of insertion - right rotate at `parent`. */
    method InnerRight(node: Node<T>, parent: Node<T>, ghost ns: set<Node<T>>)
      requires node in ns && parent in ns && (node.right == null || node.right in ns)
      modifies ns
      ensures M(ns) == RBInsert.InnerRight(old(M(ns)), node, parent)
    {
      var tmp := node.right;
      SetLeft(parent, tmp, ns);
      SetRight(node, parent, ns);
      if tmp != null {
        SetParentColor(tmp, parent, true, ns);
      }
      SetParentColor(parent, node, false, ns);
    }

    // ----- insertion ------------------------------------------------------------------------

    /** Case 1 - colour flips; the violation moves up to `gparent`. */
    method FlipColors(tmp: Node<T>, parent: Node<T>, gparent: Node<T>, ghost ns: set<Node<T>>) returns (up: Node?<T>)
      requires tmp in ns && parent in ns && gparent in ns && tmp != gparent && parent != gparent
      modifies ns
      ensures up == old(gparent.parent)
      ensures M(ns) == RBInsert.FlipColors(old(M(ns)), tmp, parent, gparent)
    {
      SetParentColor(tmp, gparent, true, ns);
      SetParentColor(parent, gparent, true, ns);
      up := gparent.parent;
      SetParentColor(gparent, up, false, ns);
    }

    /** Case 1, seen from `node`: the fix-up goes on at `gparent`. */
    method FlipUp(tmp: Node<T>, node: Node<T>, parent: Node<T>, gparent: Node<T>, ghost z: Ctx<T>, ghost t: Tree<T>,
                  ghost h: nat, ghost ns: set<Node<T>>, ghost order: seq<Node<T>>) returns (up: Node?<T>)
      requires Fixing(M(ns), z, t, h, parent, node, ns, order) && TwoUp(z) && z.n == parent && z.up.n == gparent
      requires Uncle(z).Br? && !Uncle(z).black && tmp == Uncle(z).n
      modifies ns
      ensures Flipped(z, t).Br? && Fixing(M(ns), z.up.up, Flipped(z, t), h + 1, up, gparent, ns, order)
    {
      hide S, SC, Distinct, DistinctC, Rep, HoleRep, RB, RBC, Before, After, InOrder, Flipped, Fixing,
           RBInsert.FlipColors;
      FlipStep(M(ns), z, t, h, parent, node, ns, order);
      up := FlipColors(tmp, parent, gparent, ns);
    }

    /** Cases 2 and 3, when `parent` is the left child. */
    method OuterRight(node: Node<T>, parent0: Node<T>, gparent: Node<T>,
                      ghost z: Ctx<T>, ghost t: Tree<T>, ghost h: nat, ghost ns: set<Node<T>>,
                        ghost order: seq<Node<T>>)
      requires Fixing(M(ns), z, t, h, parent0, node, ns, order) && TwoUp(z) && z.up.InL?
      requires z.n == parent0 && z.up.n == gparent && IsBlack(Uncle(z)) && t.Br?
      modifies this`root, ns
      ensures Settled(M(ns), z.up.up, Rotated(z, t), h + 1, ns, order)
    {
      hide S, SC, Distinct, DistinctC, Rep, HoleRep, RB, RBC, Before, After, InOrder, Rotated, Fixing, Settled,
           RBLinks.RotateRight, RBInsert.InnerLeft, Opened;
      OuterRightStep(M(ns), z, t, h, parent0, node, ns, order);
      OpenedHas(M(ns), z, t, node);
      var parent := parent0;
      var tmp := parent.right;
      if node == tmp {
        InnerLeft(node, parent, ns);
        InnerLeftHas(old(M(ns)), node, parent, gparent);
        parent := node;
      }
      RotateRight(gparent, parent, null, false, true, ns);
    }

    /** Cases 2 and 3, when `parent` is the right child. */
    method OuterLeft(node: Node<T>, parent0: Node<T>, gparent: Node<T>,
                      ghost z: Ctx<T>, ghost t: Tree<T>, ghost h: nat, ghost ns: set<Node<T>>,
                        ghost order: seq<Node<T>>)
      requires Fixing(M(ns), z, t, h, parent0, node, ns, order) && TwoUp(z) && z.up.InR?
      requires z.n == parent0 && z.up.n == gparent && IsBlack(Uncle(z)) && t.Br?
      modifies this`root, ns
      ensures Settled(M(ns), z.up.up, Rotated(z, t), h + 1, ns, order)
    {
      hide S, SC, Distinct, DistinctC, Rep, HoleRep, RB, RBC, Before, After, InOrder, Rotated, Fixing, Settled,
           RBLinks.RotateLeft, RBInsert.InnerRight, Opened;
      OuterLeftStep(M(ns), z, t, h, parent0, node, ns, order);
      OpenedHas(M(ns), z, t, node);
      var parent := parent0;
      var tmp := parent.left;
      if node == tmp {
        InnerRight(node, parent, ns);
        InnerRightHas(old(M(ns)), node, parent, gparent);
        parent := node;
      }
      RotateLeft(gparent, parent, null, false, true, ns);
    }

    /** `node` has just been linked as a red leaf into the hole of `z0`. Afterwards the tree is valid
        again and its order is that of `z0` with `node` in the hole. */
    method InsertColor(node0: Node<T>, ghost z0: Ctx<T>)
      requires HoleRep(M(SC(z0) + {node0}), z0, node0.parent, node0)
      requires node0.left == null && node0.right == null && !node0.black
      requires DistinctC(z0, {node0}) && RBC(z0, 0)
      modifies this, SC(z0), node0
      ensures Valid() && Nodes() == Before(z0) + [node0] + After(z0) && S(shape) == SC(z0) + {node0}
    {
      hide S, SC, Distinct, DistinctC, Rep, HoleRep, RB, RBC, Before, After, InOrder, Rotated, Flipped, Fixing, Settled,
           RBInsert.FlipColors, Plug, RedBlack;
      var node, parent := node0, node0.parent;
      ghost var ns, order := SC(z0) + {node0}, Before(z0) + [node0] + After(z0);
      ghost var z, t, h: nat := z0, Br(Leaf, node0, false, Leaf), 0;
      StartFixing(M(ns), z0, node0, parent);
      while true
        invariant t.Br? && Fixing(M(ns), z, t, h, parent, node, ns, order)
        decreases z
      {
        FixingNode(M(ns), z, t, h, parent, node, ns, order);
        if parent == null {
          BlackenRoot(M(ns), z, t, h, node, ns, order);
          SetParentColor(node, null, true, ns);
          t, h := Paint(t, true), h + 1;
          break;
        }
        FixingUp(M(ns), z, t, h, parent, node, ns, order);
        if parent.black {
          break;
        }
        var gparent := parent.parent;
        var tmp := gparent.right;
        if parent != tmp {
          if tmp != null && !tmp.black {
            parent := FlipUp(tmp, node, parent, gparent, z, t, h, ns, order);
            node := gparent;
            z, t, h := z.up.up, Flipped(z, t), h + 1;
          } else {
            OuterRight(node, parent, gparent, z, t, h, ns, order);
            z, t, h := z.up.up, Rotated(z, t), h + 1;
            break;
          }
        } else {
          tmp := gparent.left;
          if tmp != null && !tmp.black {
            parent := FlipUp(tmp, node, parent, gparent, z, t, h, ns, order);
            node := gparent;
            z, t, h := z.up.up, Flipped(z, t), h + 1;
          } else {
            OuterLeft(node, parent, gparent, z, t, h, ns, order);
            z, t, h := z.up.up, Rotated(z, t), h + 1;
            break;
          }
        }
      }
      SettledPlug(M(ns), z, t, h, ns, order);
      shape := Plug(z, t);
    }

    // ----- erasure: rebalancing ---------------------------------------------------------------

    /** Case 2 - sibling colour flip; go on above a black parent that is not the root. */
    method FlipSibling(sibling: Node<T>, parent: Node<T>, ghost ns: set<Node<T>>) returns (again: bool)
      requires sibling in ns && parent in ns && sibling != parent
      modifies ns
      ensures again <==> old(parent.black) && old(parent.parent) != null
      ensures M(ns) == RBErase.FlipSibling(old(M(ns)), sibling, parent)
    {
      SetParentColor(sibling, parent, false, ns);
      if !parent.black {
        SetParentColor(parent, parent.parent, true, ns);
        again := false;
      } else {
        again := parent.parent != null;
      }
    }

    /** Case 3 - Right rotate at `sibling`. */
    method RotateSiblingRight(sibling: Node<T>, tmp2: Node<T>, parent: Node<T>, ghost z: Ctx<T>, ghost ns: set<Node<T>>)
      requires z.InL? && sibling in ns && tmp2 in ns && parent in ns && (tmp2.right == null || tmp2.right in ns)
      modifies ns
      ensures M(ns) == RotateSibling(old(M(ns)), z, sibling, tmp2, parent)
    {
      var tmp1 := tmp2.right;
      SetLeft(sibling, tmp1, ns);
      SetRight(tmp2, sibling, ns);
      SetRight(parent, tmp2, ns);
      if tmp1 != null {
        SetParentColor(tmp1, sibling, true, ns);
      }
    }

    /** Cases 2 to 4 when `node` is the left child of `parent`: either the tree is settled, or (`again`) the
        shortage has moved up to `parent`. */
    method EndLeft(node: Node?<T>, parent: Node<T>, sibling0: Node<T>, ghost z: Ctx<T>, ghost t: Tree<T>, ghost h: nat,
                   ghost ns: set<Node<T>>, ghost order: seq<Node<T>>)
      returns (again: bool, ghost z': Ctx<T>, ghost t': Tree<T>, ghost h': nat)
      requires z.InL? && Short(M(ns), z, t, h, parent, node, ns, order) && Sibling(z).Br? && Sibling(z).black
      requires Sibling(z).n == sibling0 && parent == z.n
      modifies this`root, ns
      ensures again ==>
        z.black && z' == z.up && parent.parent != null
        && Short(M(ns), z', t', h', parent.parent, parent, ns, order)
      ensures !again ==> Settled(M(ns), z', t', h', ns, order)
    {
      hide S, SC, Distinct, DistinctC, Rep, HoleRep, RB, RBC, Before, After, InOrder, Short, Settled, Case2, Case3,
           Case4, RBErase.FlipSibling, RotateSibling, RBLinks.RotateLeft;
      ShortSeen(M(ns), z, t, h, parent, node, ns, order);
      SeenUp(M(ns), z, t, node);
      var sibling := sibling0;
      var tmp1 := sibling.right;
      if tmp1 == null || tmp1.black {
        var tmp2 := sibling.left;
        if tmp2 == null || tmp2.black {
          Case2Step(M(ns), z, t, h, parent, node, ns, order);
          FlipSiblingKeeps(M(ns), sibling, parent);
          again := FlipSibling(sibling, parent, ns);
          z', t', h' := z.up, Case2(z, t), h + 1;
          return;
        }
        Case3Step(M(ns), z, t, h, parent, node, ns, order);
        RotateSiblingRight(sibling, tmp2, parent, z, ns);
        tmp1 := sibling;
        sibling := tmp2;
        z', t', h' := z.up, Case3(z, t), h + 1 + W(z.black);
      } else {
        Case4Step(M(ns), z, t, h, parent, node, ns, order);
        z', t', h' := z.up, Case4(z, t), h + 1 + W(z.black);
      }
      RotateLeft(parent, sibling, tmp1, true, false, ns);
      again := false;
    }

    /** Case 3 - Left rotate at `sibling`. */
    method RotateSiblingLeft(sibling: Node<T>, tmp2: Node<T>, parent: Node<T>, ghost z: Ctx<T>, ghost ns: set<Node<T>>)
      requires z.InR? && sibling in ns && tmp2 in ns && parent in ns && (tmp2.left == null || tmp2.left in ns)
      modifies ns
      ensures M(ns) == RotateSibling(old(M(ns)), z, sibling, tmp2, parent)
    {
      var tmp1 := tmp2.left;
      SetRight(sibling, tmp1, ns);
      SetLeft(tmp2, sibling, ns);
      SetLeft(parent, tmp2, ns);
      if tmp1 != null {
        SetParentColor(tmp1, sibling, true, ns);
      }
    }

    /** Cases 2 to 4 when `node` is the right child of `parent`: either the tree is settled, or (`again`) the
        shortage has moved up to `parent`. */
    method EndRight(node: Node?<T>, parent: Node<T>, sibling0: Node<T>, ghost z: Ctx<T>, ghost t: Tree<T>, ghost h: nat,
                   ghost ns: set<Node<T>>, ghost order: seq<Node<T>>)
      returns (again: bool, ghost z': Ctx<T>, ghost t': Tree<T>, ghost h': nat)
      requires z.InR? && Short(M(ns), z, t, h, parent, node, ns, order) && Sibling(z).Br? && Sibling(z).black
      requires Sibling(z).n == sibling0 && parent == z.n
      modifies this`root, ns
      ensures again ==>
        z.black && z' == z.up && parent.parent != null
        && Short(M(ns), z', t', h', parent.parent, parent, ns, order)
      ensures !again ==> Settled(M(ns), z', t', h', ns, order)
    {
      hide S, SC, Distinct, DistinctC, Rep, HoleRep, RB, RBC, Before, After, InOrder, Short, Settled, Case2, Case3,
           Case4, RBErase.FlipSibling, RotateSibling, RBLinks.RotateRight;
      ShortSeen(M(ns), z, t, h, parent, node, ns, order);
      SeenUp(M(ns), z, t, node);
      var sibling := sibling0;
      var tmp1 := sibling.left;
      if tmp1 == null || tmp1.black {
        var tmp2 := sibling.right;
        if tmp2 == null || tmp2.black {
          Case2Step(M(ns), z, t, h, parent, node, ns, order);
          FlipSiblingKeeps(M(ns), sibling, parent);
          again := FlipSibling(sibling, parent, ns);
          z', t', h' := z.up, Case2(z, t), h + 1;
          return;
        }
        Case3Step(M(ns), z, t, h, parent, node, ns, order);
        RotateSiblingLeft(sibling, tmp2, parent, z, ns);
        tmp1 := sibling;
        sibling := tmp2;
        z', t', h' := z.up, Case3(z, t), h + 1 + W(z.black);
      } else {
        Case4Step(M(ns), z, t, h, parent, node, ns, order);
        z', t', h' := z.up, Case4(z, t), h + 1 + W(z.black);
      }
      RotateRight(parent, sibling, tmp1, true, false, ns);
      again := false;
    }

    /** All leaf paths through `parent` and its missing child have one black node too few; repair that. */
    method EraseColor(parent0: Node<T>, ghost z0: Ctx<T>, ghost ns: set<Node<T>>, ghost order: seq<Node<T>>)
      requires Short(M(ns), z0, Leaf, 0, parent0, null, ns, order)
      modifies this, ns
      ensures Valid() && Nodes() == order && S(shape) == ns
    {
      hide S, SC, Distinct, DistinctC, Rep, HoleRep, RB, RBC, Before, After, InOrder, Short, Settled, Case1,
           RBLinks.RotateLeft, RBLinks.RotateRight, Plug, RedBlack;
      var node: Node?<T>, parent := null, parent0;
      ghost var z, t: Tree<T>, h: nat := z0, Leaf, 0;
      while true
        invariant parent != null && Short(M(ns), z, t, h, parent, node, ns, order)
        decreases z
      {
        ShortSeen(M(ns), z, t, h, parent, node, ns, order);
        SeenUp(M(ns), z, t, node);
        ghost var zc := z;
        var again;
        var sibling := parent.right;
        if node != sibling {
          if !sibling.black {
            // Case 1 - left rotate at parent
            Case1Step(M(ns), z, t, h, parent, node, ns, order);
            var tmp1 := sibling.left;
            RotateLeft(parent, sibling, null, false, true, ns);
            sibling := tmp1;
            zc := Case1(z);
            Case1Sibling(z);
          }
          again, zc, t, h := EndLeft(node, parent, sibling, zc, t, h, ns, order);
        } else {
          sibling := parent.left;
          if !sibling.black {
            // Case 1 - right rotate at parent
            Case1Step(M(ns), z, t, h, parent, node, ns, order);
            var tmp1 := sibling.right;
            RotateRight(parent, sibling, null, false, true, ns);
            sibling := tmp1;
            zc := Case1(z);
            Case1Sibling(z);
          }
          again, zc, t, h := EndRight(node, parent, sibling, zc, t, h, ns, order);
        }
        if !again {
          SettledPlug(M(ns), zc, t, h, ns, order);
          shape := Plug(zc, t);
          return;
        }
        z := zc;
        node, parent := parent, parent.parent;
      }
    }

    // ----- erasure: unlinking ------------------------------------------------------------------

    /** Case 1: no left child; `child` is the right one, if there is one. */
    method UnlinkOne(node: Node<T>, child: Node?<T>, ghost ns: set<Node<T>>) returns (rebalance: Node?<T>)
      requires node in ns && (child == null || child in ns) && (node.parent == null || node.parent in ns)
      modifies this`root, ns
      ensures M(ns) == RBUnlink.UnlinkOne(old(M(ns)), node, child)
      ensures rebalance == if child == null && old(node.black) then old(node.parent) else null
    {
      hide RBLinks.ChangeChild;
      var parent, black := node.parent, node.black;
      ChangeChild(node, child, parent, ns);
      if child != null {
        SetParentColor(child, parent, black, ns);
        rebalance := null;
      } else {
        rebalance := if black then parent else null;
      }
    }

    /** Still case 1: `tmp`, the left child, is the only one. */
    method UnlinkLeft(node: Node<T>, tmp: Node<T>, ghost ns: set<Node<T>>)
      requires node in ns && tmp in ns && (node.parent == null || node.parent in ns)
      modifies this`root, ns
      ensures M(ns) == RBUnlink.UnlinkOne(old(M(ns)), node, tmp)
    {
      hide RBLinks.ChangeChild, RBUnlink.UnlinkOne;
      var parent, black := node.parent, node.black;
      ColorFirst(M(ns), node, tmp);
      SetParentColor(tmp, parent, black, ns);
      ChangeChild(node, tmp, parent, ns);
    }

    /** The leftmost node below `node`'s right child, and its parent (itself, if it is that child). */
    method FindSuccessor(node: Node<T>, ghost ns: set<Node<T>>, ghost r: Tree<T>)
      returns (successor: Node<T>, parent: Node<T>)
      requires r.Br? && Rep(M(ns), r, node, r.n) && node.right == r.n
      ensures successor == Min(r).n && parent == SuccessorParent(r)
    {
      hide Rep;
      var child := node.right;
      successor := child;
      OpenRep(M(ns), r, node, child);
      var tmp := child.left;
      RepIsBelow(M(ns), r.l, child, tmp);
      if tmp == null {
        parent := successor;
      } else {
        // the do-while loop of the source: one turn, then as long as there is a left child
        parent := successor;
        successor := tmp;
        tmp := tmp.left;
        ghost var u := r;
        OpenRep(M(ns), u.l, parent, successor);
        RepIsBelow(M(ns), u.l.l, successor, tmp);
        while tmp != null
          invariant u.Br? && u.l.Br? && Rep(M(ns), u.l, parent, successor) && parent == u.n
          invariant Rep(M(ns), u.l.l, successor, tmp) && successor == u.l.n && (tmp == null <==> u.l.l.Leaf?)
          invariant Min(u) == Min(r) && MinParent(u) == MinParent(r)
          decreases u
        {
          parent := successor;
          successor := tmp;
          tmp := tmp.left;
          u := u.l;
          OpenRep(M(ns), u.l, parent, successor);
          RepIsBelow(M(ns), u.l.l, successor, tmp);
        }
      }
    }

    /** Cases 2 and 3, first part: `successor` takes over both children of `node`. */
    method TakeChildren(node: Node<T>, successor: Node<T>, parent: Node<T>, ghost ns: set<Node<T>>)
      requires Roles(M(ns), node, successor, parent)
      modifies ns
      ensures M(ns) == RBUnlink.TakeChildren(old(M(ns)), node, successor, parent)
    {
      var child := node.right;
      if successor != child {
        var child2 := successor.right;
        SetLeft(parent, child2, ns);
        SetRight(successor, child, ns);
        SetParent(child, successor, ns);
      }
      var tmp := node.left;
      SetLeft(successor, tmp, ns);
      SetParent(tmp, successor, ns);
    }

    /** Second part: `successor` takes over the place and colour of `node`. */
    method TakePlace(node: Node<T>, successor: Node<T>, parent: Node<T>, child2: Node?<T>, ghost ns: set<Node<T>>)
      returns (rebalance: Node?<T>)
      requires node in ns && successor in ns && (child2 == null || child2 in ns)
        && (node.parent == null || node.parent in ns)
      modifies this`root, ns
      ensures M(ns) == RBUnlink.TakePlace(old(M(ns)), node, successor, parent, child2)
      ensures rebalance == if child2 == null && old(successor.black) then parent else null
    {
      var up, black := node.parent, node.black;
      ChangeChild(node, successor, up, ns);
      ChangeChildColors(old(M(ns)), node, successor, up);
      hide RBLinks.ChangeChild;
      if child2 != null {
        SetParentColor(child2, parent, true, ns);
        rebalance := null;
      } else {
        rebalance := if successor.black then parent else null;
      }
      SetParentColor(successor, up, black, ns);
    }

    /** Cases 2 and 3: `successor`, whose parent is `parent`, takes the place of `node`. */
    method UnlinkTwo(node: Node<T>, successor: Node<T>, parent: Node<T>, ghost ns: set<Node<T>>)
      returns (rebalance: Node?<T>)
      requires Roles(M(ns), node, successor, parent) && (node.parent == null || node.parent in ns)
      modifies this`root, ns
      ensures M(ns) == RBUnlink.UnlinkTwo(old(M(ns)), node, successor, parent)
      ensures rebalance == if old(successor.right) == null && old(successor.black) then parent else null
    {
      hide RBUnlink.TakeChildren, RBUnlink.TakePlace;
      TakeChildrenWrites(M(ns), node, successor, parent);
      var child2 := successor.right;
      TakeChildren(node, successor, parent, ns);
      rebalance := TakePlace(node, successor, parent, child2, ns);
    }

    // ----- erasure -----------------------------------------------------------------------------

    /** The unlink step: `node` leaves the tree; if that costs a black node, it is missing below `rebalance`. */
    method Unlink(node: Node<T>) returns (rebalance: Node?<T>, ghost N: Tree<T>, ghost Z: Ctx<T>)
      requires Valid() && node in S(shape)
      modifies this`root, S(shape)
      ensures Unlinked(M(S(shape)), N, Z, rebalance != null, S(shape) - {node}, Without(Nodes(), node))
      ensures rebalance != null ==> !Z.Top? && rebalance == Z.n
    {
      hide S, SC, Distinct, DistinctC, Rep, HoleRep, RB, RBC, Before, After, InOrder, Plug, RedBlack, Unlinked,
           RBUnlink.UnlinkOne, RBUnlink.UnlinkTwo, Min, Succeeded, Promoted, TwoHole, Placed, SuccessorParent;
      ghost var ns := S(shape);
      ghost var z, t, k := Locate(M(ns), shape, node);
      var child := node.right;
      var tmp := node.left;
      if tmp == null {
        OneOutcome(M(ns), z, t, t.r, child, k);
        N, Z := Plug(z, Promoted(t.r, t.black)), z;
        rebalance := UnlinkOne(node, child, ns);
      } else if child == null {
        OneOutcome(M(ns), z, t, t.l, tmp, k);
        N, Z := Plug(z, Promoted(t.l, t.black)), z;
        UnlinkLeft(node, tmp, ns);
        rebalance := null;
      } else {
        TwoOutcome(M(ns), z, t, k);
        N, Z := Plug(z, Succeeded(t)), TwoHole(z, t);
        var successor, parent := FindSuccessor(node, ns, t.r);
        rebalance := UnlinkTwo(node, successor, parent, ns);
      }
    }

    /** Remove `node`, whichever it is: the tree stays valid and keeps all other nodes in their order. */
    method Erase(node: Node<T>)
      requires Valid() && node in S(shape)
      modifies this, S(shape)
      ensures Valid() && S(shape) == old(S(shape)) - {node}
      ensures Nodes() == Without(old(Nodes()), node)
    {
      hide S, SC, Distinct, DistinctC, Rep, HoleRep, RB, RBC, Before, After, InOrder, Plug, RedBlack, Unlinked, Short;
      ghost var ns, order := S(shape) - {node}, Without(Nodes(), node);
      var rebalance;
      ghost var N, Z;
      rebalance, N, Z := Unlink(node);
      Shrink(M(S(shape)), M(ns), N, Z, rebalance != null, ns, order);
      shape := N;
      if rebalance != null {
        ShortStart(M(ns), N, Z, ns, order);
        EraseColor(rebalance, Z, ns, order);
      }
    }

    // ----- search -------------------------------------------------------------------------------

    /** Walk down: left when the node compares smaller than the key, right when it compares greater. If no
        node compares equal, `parent` and `left` say where a new one belongs. */
    method Descend(cmp: T -> int)
      returns (found: Node?<T>, parent: Node?<T>, left: bool, ghost z: Ctx<T>, ghost visited: nat)
      requires Valid() && Descending(cmp, Nodes())
      ensures Valid()
      ensures found != null ==> found in S(shape) && cmp(found.entry) == 0
      ensures found == null ==>
        HoleRep(M(S(shape)), z, parent, null) && Plug(z, Leaf) == shape
        && (parent != null ==> left == z.InL?)
      ensures found == null ==>
        (parent == null <==> z.Top?) && AllPositive(cmp, Before(z))
        && AllNegative(cmp, After(z))
      ensures visited <= Height(shape)
    {
      hide S, Rep, HoleRep, Descending, AllPositive, AllNegative, Plug, Distinct, RedBlack, InOrder, Before, After;
      ghost var m := M(S(shape));
      ghost var t := shape;
      var cur := root;
      parent, left, z, visited := null, false, Top, 0;
      SearchStart(cmp, m, shape);
      while cur != null
        invariant Searching(cmp, m, shape, z, t, parent, cur)
        invariant parent != null ==> left == z.InL?
        invariant visited + Height(t) <= Height(shape)
        decreases t
      {
        SearchStep(cmp, m, shape, z, t, parent, cur);
        visited := visited + 1;
        var res := cmp(cur.entry);
        if res < 0 {
          parent, left := cur, true;
          z, t := InL(z, t.n, t.black, t.r), t.l;
          cur := cur.left;
        } else if res > 0 {
          parent, left := cur, false;
          z, t := InR(z, t.l, t.n, t.black), t.r;
          cur := cur.right;
        } else {
          found := cur;
          return;
        }
      }
      found := null;
      HoleTop(m, z, parent, cur);
      RepIsBelow(m, t, parent, cur);
    }

    /** Link `node` into the place found by `Descend` and restore the red-black rules. */
    method Insert(node: Node<T>, parent: Node?<T>, left: bool, ghost z: Ctx<T>)
      requires Valid() && node !in S(shape) && HoleRep(M(S(shape)), z, parent, null) && Plug(z, Leaf) == shape
      requires parent != null ==> left == z.InL?
      modifies this, S(shape), node
      ensures Valid() && S(shape) == old(S(shape)) + {node}
      ensures old(Nodes()) == Before(z) + After(z) && Nodes() == Before(z) + [node] + After(z)
    {
      hide S, SC, Rep, HoleRep, Plug, Distinct, DistinctC, RedBlack, InOrder, Before, After, RBC;
      ghost var ns := S(shape) + {node};
      EmptyPlace(shape, z);
      HoleTop(M(S(shape)), z, parent, null);
      HoleHas(M(S(shape)), z, parent, null);
      HoleGrow(M(S(shape)), M(ns), z, parent, null);
      LinkRep(M(ns), z, node, parent);
      NodeLink(node, parent, left, ns);
      InsertColor(node, z);
    }

    method NodeLink(node: Node<T>, parent: Node?<T>, left: bool, ghost ns: set<Node<T>>)
      requires node in ns && (parent == null || parent in ns)
      modifies this`root, ns
      ensures M(ns) == Link(old(M(ns)), node, parent, left)
    {
      SetParentColor(node, parent, false, ns);
      SetLeft(node, null, ns);
      SetRight(node, null, ns);
      if parent == null {
        root := node;
      } else if left {
        SetLeft(parent, node, ns);
      } else {
        SetRight(parent, node, ns);
      }
    }

    /** The leftmost node, if any. */
    method First() returns (n: Node?<T>)
      requires Valid()
      ensures Valid()
      ensures n == null <==> Nodes() == []
      ensures n != null ==> n in S(shape) && n == Nodes()[0]
    {
      hide S, Rep, Distinct, RedBlack, InOrder, RBUnlink.DropMin;
      n := root;
      ghost var m, t := M(S(shape)), shape;
      ghost var p: Node?<T> := null;
      RepIsBelow(m, t, null, n);
      if n == null {
        LeafOrder(shape);
        return;
      }
      MinFirst(shape);
      OpenRep(m, t, null, n);
      RepIsBelow(m, t.l, n, m.s[n].left);
      while n.left != null
        invariant n != null && t.Br? && Rep(m, t, p, n) && n == t.n && n in m.s && Min(t) == Min(shape)
        invariant m.s[n].left == n.left && Rep(m, t.l, n, n.left) && (n.left == null <==> t.l.Leaf?)
        decreases t
      {
        p := n;
        n := n.left;
        t := t.l;
        RepIsBelow(m, t, p, n);
        OpenRep(m, t, p, n);
        RepIsBelow(m, t.l, n, m.s[n].left);
      }
    }
  }
}
