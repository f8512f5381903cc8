/** A new node takes a node's place in the tree. */
module RbSwap {
  import opened RbShape
  import opened RbRotate

  /** The node, its children and its parent. */
  ghost function Touched(c: Ctx, t: Tree): set<RbNode>
    requires t.Node?
  {
    {t.node} + (if t.left.Node? then {t.left.node} else {}) + (if t.right.Node? then {t.right.node} else {})
    + (if c.Top? then {} else {c.node})
  }

  /** Every cell that pointed to the old node points to the new one, which has taken over the old one's cell. */
  ghost predicate SwappedCells(m: Mem, w: Mem, root: RbNode, root': RbNode, c: Ctx, t: Tree, y: RbNode)
    requires t.Node?
  {
    && t.node in m && y in w && w[y] == m[t.node] && y !in m
    && (t.left.Node? ==> t.left.node in m && t.left.node in w && w[t.left.node] == m[t.left.node].(parent := y))
    && (t.right.Node? ==> t.right.node in m && t.right.node in w && w[t.right.node] == m[t.right.node].(parent := y))
    && Rehung(m, w, root, root', c, y)
    && forall n :: n in m && n !in Touched(c, t) ==> n in w && w[n] == m[n]
  }

  lemma SwappedMem(m: Mem, w: Mem, root: RbNode, root': RbNode, c: Ctx, t: Tree, y: RbNode, nil: RbNode)
    requires Rep(m, root, c, t, nil) && t.Node? && SwappedCells(m, w, root, root', c, t, y)
    requires y != nil && y !in Nodes(t) && y !in CtxNodes(c) && y.key == t.node.key
    ensures Rep(w, root', c, t.(node := y), nil) && Nodes(t.(node := y)) == Nodes(t) - {t.node} + {y}
    ensures t.node !in CtxNodes(c)
  {
    Down(c, t, nil);
    Reparent(m, w, t.left, t.node, y, nil, Lo(c), t.node.key);
    Reparent(m, w, t.right, t.node, y, nil, t.node.key, Hi(c));
    Rehang(m, w, root, root', c, t.node, y, nil);
  }

  /** The pointer part of the replacement. */
  method Relink(tr: RbRoot, oldt: RbNode, newt: RbNode, ghost c: Ctx, ghost t: Tree)
    requires t.Node? && t.node == oldt && newt != oldt
    requires if t.left.Leaf? then oldt.left == tr.nil
      else oldt.left == t.left.node && t.left.node !in {tr.nil, oldt, newt}
    requires if t.right.Leaf? then oldt.right == tr.nil
      else oldt.right == t.right.node && t.right.node !in {tr.nil, oldt, newt}
    requires t.left.Node? && t.right.Node? ==> t.left.node != t.right.node
    requires if c.Top? then oldt.parent == tr.nil && tr.root == oldt
      else oldt.parent == c.node && c.node !in {tr.nil, oldt, newt} && tr.root != oldt
    requires !c.Top? ==>
      && (t.left.Node? ==> t.left.node != c.node) && (t.right.Node? ==> t.right.node != c.node)
      && (c.node.left == oldt <==> c.InLeft?)
    modifies tr`root, newt, Touched(c, t) - {oldt}
    ensures CellOf(newt) == old(CellOf(oldt)) && tr.root == if c.Top? then newt else old(tr.root)
    ensures t.left.Node? ==> CellOf(t.left.node) == old(CellOf(t.left.node)).(parent := newt)
    ensures t.right.Node? ==> CellOf(t.right.node) == old(CellOf(t.right.node)).(parent := newt)
    ensures c.InLeft? ==> CellOf(c.node) == old(CellOf(c.node)).(left := newt)
    ensures c.InRight? ==> CellOf(c.node) == old(CellOf(c.node)).(right := newt)
  {
    newt.color, newt.parent, newt.left, newt.right := oldt.color, oldt.parent, oldt.left, oldt.right;
    if tr.root == oldt {
      tr.root := newt;
    }
    if newt.left != tr.nil {
      newt.left.parent := newt;
    }
    if newt.right != tr.nil {
      newt.right.parent := newt;
    }
    if newt.parent != tr.nil {
      if newt.parent.left == oldt {
        newt.parent.left := newt;
      } else {
        newt.parent.right := newt;
      }
    }
  }

  lemma Surroundings(m: Mem, root: RbNode, c: Ctx, t: Tree, nil: RbNode)
    requires Rep(m, root, c, t, nil) && t.Node? && nil !in CtxNodes(c) + Nodes(t)
    ensures t.node in m && Touched(c, t) <= CtxNodes(c) + Nodes(t)
    ensures m[t.node] == Cell(t.color, CtxPtr(c, nil), Ptr(t.left, nil), Ptr(t.right, nil))
    ensures t.left.Node? ==> t.left.node in m && t.left.node != t.node
    ensures t.right.Node? ==> t.right.node in m && t.right.node != t.node
    ensures t.left.Node? && t.right.Node? ==> t.left.node != t.right.node
    ensures c.Top? ==> root == t.node && CtxPtr(c, nil) == nil
    ensures !c.Top? ==>
      && c.node in m && c.node != t.node && root != t.node && CtxPtr(c, nil) == c.node
      && (m[c.node].left == t.node <==> c.InLeft?)
    ensures !c.Top? ==> (t.left.Node? ==> t.left.node != c.node) && (t.right.Node? ==> t.right.node != c.node)
  {
    MoveDown(m, root, c, t, nil);
    Down(c, t, nil);
    HangsBelow(m, root, c, t.node, nil);
    assert t.left.Node? ==> t.left.node in Nodes(t.left);
    assert t.right.Node? ==> t.right.node in Nodes(t.right);
    if !c.Top? { RootAbove(m, root, c, t.node, nil); }
  }

  lemma RehungBy(m: Mem, w: Mem, root: RbNode, root': RbNode, c: Ctx, y: RbNode)
    requires if c.Top? then root' == y else root' == root && c.node in m && c.node in w
    requires c.InLeft? ==> w[c.node] == m[c.node].(left := y)
    requires c.InRight? ==> w[c.node] == m[c.node].(right := y)
    ensures Rehung(m, w, root, root', c, y)
  {
  }

  lemma SwappedBy(m: Mem, w: Mem, root: RbNode, root': RbNode, c: Ctx, t: Tree, y: RbNode)
    requires t.Node? && t.node in m && y in w && w[y] == m[t.node] && y !in m
    requires t.left.Node? ==> t.left.node in m && t.left.node in w && w[t.left.node] == m[t.left.node].(parent := y)
    requires t.right.Node? ==>
      t.right.node in m && t.right.node in w && w[t.right.node] == m[t.right.node].(parent := y)
    requires Rehung(m, w, root, root', c, y)
    requires forall n :: n in m && n !in Touched(c, t) ==> n in w && w[n] == m[n]
    ensures SwappedCells(m, w, root, root', c, t, y)
  {
  }

  /** What the replacement's writes amount to. */
  lemma SwappedIn(m: Mem, w: Mem, root: RbNode, root': RbNode, c: Ctx, t: Tree, y: RbNode, nil: RbNode)
    requires Rep(m, root, c, t, nil) && t.Node? && y != nil && y !in Nodes(t) && y !in CtxNodes(c)
    requires y.key == t.node.key
    requires t.node in m && y in w && w[y] == m[t.node] && y !in m
    requires t.left.Node? ==> t.left.node in m && t.left.node in w && w[t.left.node] == m[t.left.node].(parent := y)
    requires t.right.Node? ==>
      t.right.node in m && t.right.node in w && w[t.right.node] == m[t.right.node].(parent := y)
    requires if c.Top? then root' == y else root' == root && c.node in m && c.node in w
    requires c.InLeft? ==> w[c.node] == m[c.node].(left := y)
    requires c.InRight? ==> w[c.node] == m[c.node].(right := y)
    requires forall n :: n in m && n !in Touched(c, t) ==> n in w && w[n] == m[n]
    ensures Rep(w, root', c, t.(node := y), nil) && Nodes(t.(node := y)) == Nodes(t) - {t.node} + {y}
    ensures t.node !in CtxNodes(c)
  {
    hide Rep, Nodes, CtxNodes, Touched;
    RehungBy(m, w, root, root', c, y);
    SwappedBy(m, w, root, root', c, t, y);
    SwappedMem(m, w, root, root', c, t, y, nil);
  }

  /** The replacement, as a change of the tree's memory. */
  method RelinkIn(tr: RbRoot, oldt: RbNode, newt: RbNode, ghost c: Ctx, ghost t: Tree)
    requires tr.At(c, t) && t.Node? && t.node == oldt && newt !in tr.nodes && newt != tr.nil
    modifies tr`root, tr`nodes, tr.nodes, newt
    ensures tr.nodes == old(tr.nodes) - {oldt} + {newt}
    ensures var m, w := old(tr.Memory()), tr.Memory();
      && oldt in m && newt in w && w[newt] == m[oldt] && newt !in m
      && (t.left.Node? ==> t.left.node in m && t.left.node in w && w[t.left.node] == m[t.left.node].(parent := newt))
      && (t.right.Node? ==>
            t.right.node in m && t.right.node in w && w[t.right.node] == m[t.right.node].(parent := newt))
      && (if c.Top? then tr.root == newt else tr.root == old(tr.root) && c.node in m && c.node in w)
      && (c.InLeft? ==> w[c.node] == m[c.node].(left := newt))
      && (c.InRight? ==> w[c.node] == m[c.node].(right := newt))
      && forall n :: n in m && n !in Touched(c, t) ==> n in w && w[n] == m[n]
  {
    hide Rep, IsTree, IsCtx, Placed, Nodes, CtxNodes;
    ghost var m := tr.Memory();
    Surroundings(m, tr.root, c, t, tr.nil);
    assert forall n :: n in m ==> CellOf(n) == m[n];
    Relink(tr, oldt, newt, c, t);
    assert forall n :: n in m && n !in Touched(c, t) ==> CellOf(n) == m[n];
    tr.nodes := tr.nodes - {oldt} + {newt};
  }

  method SwapAt(tr: RbRoot, oldt: RbNode, newt: RbNode, ghost c: Ctx, ghost t: Tree)
    requires tr.At(c, t) && t.Node? && t.node == oldt && newt !in tr.nodes && newt != tr.nil && newt.key == oldt.key
    modifies tr`root, tr`nodes, tr.nodes, newt
    ensures tr.At(c, t.(node := newt)) && tr.nodes == old(tr.nodes) - {oldt} + {newt}
  {
    hide Rep, IsTree, IsCtx, Placed, Nodes, CtxNodes, Touched;
    ghost var m, root := tr.Memory(), tr.root;
    RelinkIn(tr, oldt, newt, c, t);
    SwappedIn(m, tr.Memory(), root, tr.root, c, t, newt, tr.nil);
    SwappedSets(CtxNodes(c), Nodes(t), Nodes(t.(node := newt)), oldt, newt);
  }

  lemma SwappedSets(a: set<RbNode>, b: set<RbNode>, b': set<RbNode>, x: RbNode, y: RbNode)
    requires x !in a && b' == b - {x} + {y}
    ensures a + b - {x} + {y} == a + b'
  {
  }

  /** The node replacement in `swap_process_inplace`, whose new node gets the old one's key. The old node ends as its
      own parent, which stands for the null parent that marks a thread without a tree node. */
  method Swap(tr: RbRoot, oldt: RbNode, newt: RbNode)
    requires tr.Valid() && oldt in tr.nodes && newt !in tr.nodes && newt != tr.nil && newt.key == oldt.key
    modifies tr`root, tr`nodes, tr`shape, tr.nodes, newt
    ensures tr.Valid() && tr.nodes == old(tr.nodes) - {oldt} + {newt} && oldt.parent == oldt
  {
    hide RbRoot.Valid, Rep, Fits, Rb, CtxRb, Placed, Nodes, CtxNodes;
    ghost var c, t, h := Place(tr, oldt);
    SwapAt(tr, oldt, newt, c, t);
    SwappedFits(c, t, h, newt);
    Close(tr, c, t.(node := newt), h);
    oldt.parent := oldt;
  }

  lemma Place(tr: RbRoot, node: RbNode) returns (c: Ctx, t: Tree, h: nat)
    requires tr.Valid() && node in tr.nodes
    ensures tr.At(c, t) && Fits(c, t, h) && t.Node? && t.node == node && SentinelOk(tr.nil)
  {
    c, t, h := Locate(tr.Memory(), tr.root, Top, tr.shape, BlackHeight(tr.shape), node, tr.nil);
  }

  /** No node in the tree carries that mark. */
  lemma Unmarked(tr: RbRoot, node: RbNode)
    requires tr.Valid() && node in tr.nodes
    ensures node.parent != node
  {
    var c, t, h := Place(tr, node);
    Surroundings(tr.Memory(), tr.root, c, t, tr.nil);
    assert tr.Memory()[node] == CellOf(node);
  }

  /** Colours do not depend on which node it is. */
  lemma SwappedFits(c: Ctx, t: Tree, h: nat, y: RbNode)
    requires Fits(c, t, h) && t.Node?
    ensures var t' := t.(node := y);
      CtxRb(c, h) && Rb(t', h) && (CtxColor(c) == Red ==> IsBlack(t')) && (c.Top? ==> IsBlack(t'))
  {
  }
}
