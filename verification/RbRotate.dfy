module RbRotate {
  import opened RbShape

  ghost function RotatedLeft(t: Tree): Tree
    requires t.Node? && t.right.Node?
  {
    Node(t.right.color, Node(t.color, t.left, t.node, t.right.left), t.right.node, t.right.right)
  }

  ghost function RotatedRight(t: Tree): Tree
    requires t.Node? && t.left.Node?
  {
    Node(t.left.color, t.left.left, t.left.node, Node(t.color, t.left.right, t.node, t.right))
  }

  lemma RotatedPlaced(c: Ctx, t: Tree, nil: RbNode)
    requires Placed(c, t, nil) && t.Node?
    ensures t.right.Node? ==> Placed(c, RotatedLeft(t), nil) && Nodes(RotatedLeft(t)) == Nodes(t)
    ensures t.left.Node? ==> Placed(c, RotatedRight(t), nil) && Nodes(RotatedRight(t)) == Nodes(t)
  {
    if t.right.Node? {
      assert Sorted(t.right, t.node.key, Hi(c));
      assert Nodes(RotatedLeft(t).left) == Nodes(t.left) + {t.node} + Nodes(t.right.left);
      assert Nodes(t.right) == Nodes(t.right.left) + {t.right.node} + Nodes(t.right.right);
      assert Sorted(RotatedLeft(t).left, Lo(c), t.right.node.key);
    }
    if t.left.Node? {
      assert Sorted(t.left, Lo(c), t.node.key);
      assert Nodes(RotatedRight(t).right) == Nodes(t.left.right) + {t.node} + Nodes(t.right);
      assert Nodes(t.left) == Nodes(t.left.left) + {t.left.node} + Nodes(t.left.right);
      assert Sorted(RotatedRight(t).right, t.left.node.key, Hi(c));
    }
  }

  /** m and w differ on ns at most in the parent of t's root, which is q in w. */
  lemma Reparent(m: Mem, w: Mem, t: Tree, p: RbNode, q: RbNode, nil: RbNode, lo: int, hi: int)
    requires IsTree(m, t, p, nil) && Sorted(t, lo, hi)
    requires forall n :: n in Nodes(t) && n != Ptr(t, nil) && n in m ==> n in w && w[n] == m[n]
    requires t.Node? ==> t.node in m && t.node in w && w[t.node] == m[t.node].(parent := q)
    ensures IsTree(w, t, q, nil)
  {
    if t.Node? {
      SortedKeys(t.left, lo, t.node.key);
      SortedKeys(t.right, t.node.key, hi);
      TreeFrame(m, w, t.left, t.node, nil);
      TreeFrame(m, w, t.right, t.node, nil);
    }
  }

  /** The pointer that led to the hole's old filling now leads to h. */
  ghost predicate Rehung(m: Mem, w: Mem, root: RbNode, root': RbNode, c: Ctx, h: RbNode) {
    match c
    case Top => root' == h
    case InLeft(_, _, n, _) => root' == root && n in m && n in w && w[n] == m[n].(left := h)
    case InRight(_, _, n, _) => root' == root && n in m && n in w && w[n] == m[n].(right := h)
  }

  lemma Rehang(m: Mem, w: Mem, root: RbNode, root': RbNode, c: Ctx, h: RbNode, h': RbNode, nil: RbNode)
    requires IsCtx(m, root, c, h, nil) && CtxSorted(c) && Rehung(m, w, root, root', c, h')
    requires forall n :: n in CtxNodes(c) && n != CtxPtr(c, nil) && n in m ==> n in w && w[n] == m[n]
    ensures IsCtx(w, root', c, h', nil)
  {
    match c
    case Top =>
    case InLeft(_, up, n, r) =>
      CtxKeys(up);
      SortedKeys(r, n.key, Hi(up));
      TreeFrame(m, w, r, n, nil);
      CtxFrame(m, w, root, up, n, nil);
    case InRight(_, l, n, up) =>
      CtxKeys(up);
      SortedKeys(l, Lo(up), n.key);
      TreeFrame(m, w, l, n, nil);
      CtxFrame(m, w, root, up, n, nil);
  }

  /** Two nodes, the three subtrees around them and their context share nothing. */
  ghost predicate Apart(c: Ctx, a: Tree, x: RbNode, b: Tree, y: RbNode, d: Tree, nil: RbNode) {
    && x != y && x !in Nodes(a) && x !in Nodes(b) && x !in Nodes(d) && x !in CtxNodes(c)
    && y !in Nodes(a) && y !in Nodes(b) && y !in Nodes(d) && y !in CtxNodes(c)
    && Nodes(a) !! Nodes(b) && Nodes(a) !! Nodes(d) && Nodes(b) !! Nodes(d)
    && Nodes(a) !! CtxNodes(c) && Nodes(b) !! CtxNodes(c) && Nodes(d) !! CtxNodes(c)
    && nil !in Nodes(a) && nil !in Nodes(b) && nil !in Nodes(d) && nil !in CtxNodes(c)
  }

  lemma RotationParts(c: Ctx, t: Tree, nil: RbNode)
    requires Placed(c, t, nil) && t.Node?
    ensures t.right.Node? ==> Apart(c, t.left, t.node, t.right.left, t.right.node, t.right.right, nil)
    ensures t.left.Node? ==> Apart(c, t.left.left, t.left.node, t.left.right, t.node, t.right, nil)
  {
    Down(c, t, nil);
    Down(DownRight(c, t), t.right, nil);
    Down(DownLeft(c, t), t.left, nil);
    if t.right.Node? {
      Down(DownLeft(DownRight(c, t), t.right), t.right.left, nil);
    }
    if t.left.Node? {
      Down(DownRight(DownLeft(c, t), t.left), t.left.right, nil);
    }
  }

  lemma RotatedLeftMem(m: Mem, w: Mem, root: RbNode, root': RbNode, c: Ctx, t: Tree, nil: RbNode)
    requires Rep(m, root, c, t, nil) && t.Node? && t.right.Node?
    requires var x, y, b := t.node, t.right.node, Ptr(t.right.left, nil);
      && w.Keys == m.Keys && x in m && y in m
      && (forall n :: n in m && n !in {x, y, b, CtxPtr(c, nil)} ==> w[n] == m[n])
      && w[x] == m[x].(right := b, parent := y)
      && w[y] == m[y].(left := x, parent := CtxPtr(c, nil))
      && (b != nil ==> b in m && w[b] == m[b].(parent := x))
      && Rehung(m, w, root, root', c, y)
    ensures IsTree(w, RotatedLeft(t), CtxPtr(c, nil), nil) && IsCtx(w, root', c, t.right.node, nil)
  {
    RotationParts(c, t, nil);
    var b := t.right.left;
    assert IsTree(m, t.right, t.node, nil) && Sorted(t.right, t.node.key, Hi(c));
    assert b.Node? ==> b.node in Nodes(b);
    assert !c.Top? ==> c.node in CtxNodes(c);
    TreeFrame(m, w, t.left, t.node, nil);
    TreeFrame(m, w, t.right.right, t.right.node, nil);
    Reparent(m, w, t.right.left, t.right.node, t.node, nil, t.node.key, t.right.node.key);
    Rehang(m, w, root, root', c, t.node, t.right.node, nil);
  }

  ghost function CtxTop(c: Ctx): set<RbNode> {
    if c.Top? then {} else {c.node}
  }

  /** What u's parent link says about where u hangs. */
  lemma HangsBelow(m: Mem, root: RbNode, c: Ctx, u: RbNode, nil: RbNode)
    requires IsCtx(m, root, c, u, nil) && CtxSorted(c) && Lo(c) < u.key < Hi(c) && u != nil && nil !in CtxNodes(c)
    ensures c.Top? <==> CtxPtr(c, nil) == nil
    ensures !c.Top? ==> c.node in CtxNodes(c) && c.node in m && c.node != u
    ensures c.InLeft? ==> m[c.node].left == u
    ensures c.InRight? ==> m[c.node].right == u && m[c.node].left != u
  {
    if c.InRight? {
      SortedKeys(c.left, Lo(c.up), c.node.key);
    }
  }

  /** Makes the pointer that leads to u lead to v instead. */
  method Relink(tr: RbRoot, u: RbNode, v: RbNode, ghost c: Ctx)
    requires c.Top? <==> u.parent == tr.nil
    requires !c.Top? ==> u.parent == c.node && (c.InLeft? <==> c.node.left == u)
    modifies tr`root, CtxTop(c)`left, CtxTop(c)`right
    ensures tr.root == if c.Top? then v else old(tr.root)
    ensures c.InLeft? ==> c.node.left == v && c.node.right == old(c.node.right)
    ensures c.InRight? ==> c.node.right == v && c.node.left == old(c.node.left)
  {
    if u.parent == tr.nil {
      tr.root := v;
    } else if u == u.parent.left {
      u.parent.left := v;
    } else {
      u.parent.right := v;
    }
  }

  /** The pointer updates of a left rotation, node by node. */
  method LinkLeft(tr: RbRoot, node: RbNode, ghost c: Ctx)
    requires c.Top? <==> node.parent == tr.nil
    requires !c.Top? ==> node.parent == c.node && (c.InLeft? <==> c.node.left == node)
    requires node != node.right && node.right.left !in {node, node.right}
    requires !c.Top? ==> c.node !in {node, node.right, node.right.left}
    modifies tr`root, CtxTop(c), node, node.right, if node.right.left == tr.nil then {} else {node.right.left}
    ensures CellOf(node) == old(CellOf(node)).(right := old(node.right.left), parent := old(node.right))
    ensures CellOf(old(node.right)) == old(CellOf(node.right)).(left := node, parent := old(node.parent))
    ensures old(node.right.left) != tr.nil ==>
      CellOf(old(node.right.left)) == old(CellOf(node.right.left)).(parent := node)
    ensures tr.root == if c.Top? then old(node.right) else old(tr.root)
    ensures c.InLeft? ==> CellOf(c.node) == old(CellOf(c.node)).(left := old(node.right))
    ensures c.InRight? ==> CellOf(c.node) == old(CellOf(c.node)).(right := old(node.right))
  {
    var r := node.right;
    node.right := r.left;
    if r.left != tr.nil {
      r.left.parent := node;
    }
    r.parent := node.parent;
    Relink(tr, node, r, c);
    r.left := node;
    node.parent := r;
  }

  /** The cells that a left rotation touches: four distinct nodes, linked as the shapes say. */
  lemma LeftCells(m: Mem, root: RbNode, c: Ctx, t: Tree, nil: RbNode)
    requires Rep(m, root, c, t, nil) && t.Node? && t.right.Node?
    ensures var x, y, b := t.node, t.right.node, Ptr(t.right.left, nil);
      && x in m && y in m && m[x].parent == CtxPtr(c, nil) && m[x].right == y && m[y].left == b
      && x != y && b !in {x, y} && (b != nil ==> b in m)
      && (c.Top? <==> CtxPtr(c, nil) == nil)
      && (!c.Top? ==> c.node in m && c.node !in {x, y, b} && (c.InLeft? <==> m[c.node].left == x))
  {
    RotationParts(c, t, nil);
    assert t.node in Nodes(t) && t.right.node in Nodes(t.right);
    HangsBelow(m, root, c, t.node, nil);
    assert IsTree(m, t.right, t.node, nil);
    assert IsTree(m, t.right.left, t.right.node, nil);
    assert t.right.left.Node? ==> t.right.left.node in Nodes(t.right.left);
  }

  method RotateLeft(tr: RbRoot, node: RbNode, ghost c: Ctx, ghost t: Tree)
    requires tr.At(c, t) && t.Node? && t.right.Node? && t.node == node
    modifies tr`root, tr.nodes
    ensures tr.At(c, RotatedLeft(t))
  {
    ghost var m, root := tr.Memory(), tr.root;
    LeftCells(m, root, c, t, tr.nil);
    LinkLeft(tr, node, c);
    RotatedLeftMem(m, tr.Memory(), root, tr.root, c, t, tr.nil);
    RotatedPlaced(c, t, tr.nil);
  }

  // ----- right rotation -----

  lemma RotatedRightMem(m: Mem, w: Mem, root: RbNode, root': RbNode, c: Ctx, t: Tree, nil: RbNode)
    requires Rep(m, root, c, t, nil) && t.Node? && t.left.Node?
    requires var x, y, b := t.node, t.left.node, Ptr(t.left.right, nil);
      && w.Keys == m.Keys && x in m && y in m
      && (forall n :: n in m && n !in {x, y, b, CtxPtr(c, nil)} ==> w[n] == m[n])
      && w[x] == m[x].(left := b, parent := y)
      && w[y] == m[y].(right := x, parent := CtxPtr(c, nil))
      && (b != nil ==> b in m && w[b] == m[b].(parent := x))
      && Rehung(m, w, root, root', c, y)
    ensures IsTree(w, RotatedRight(t), CtxPtr(c, nil), nil) && IsCtx(w, root', c, t.left.node, nil)
  {
    RotationParts(c, t, nil);
    var b := t.left.right;
    assert IsTree(m, t.left, t.node, nil) && Sorted(t.left, Lo(c), t.node.key);
    assert b.Node? ==> b.node in Nodes(b);
    assert !c.Top? ==> c.node in CtxNodes(c);
    TreeFrame(m, w, t.right, t.node, nil);
    TreeFrame(m, w, t.left.left, t.left.node, nil);
    Reparent(m, w, t.left.right, t.left.node, t.node, nil, t.left.node.key, t.node.key);
    Rehang(m, w, root, root', c, t.node, t.left.node, nil);
  }

  lemma RightCells(m: Mem, root: RbNode, c: Ctx, t: Tree, nil: RbNode)
    requires Rep(m, root, c, t, nil) && t.Node? && t.left.Node?
    ensures var x, y, b := t.node, t.left.node, Ptr(t.left.right, nil);
      && x in m && y in m && m[x].parent == CtxPtr(c, nil) && m[x].left == y && m[y].right == b
      && x != y && b !in {x, y} && (b != nil ==> b in m)
      && (c.Top? <==> CtxPtr(c, nil) == nil)
      && (!c.Top? ==> c.node in m && c.node !in {x, y, b} && (c.InLeft? <==> m[c.node].left == x))
  {
    RotationParts(c, t, nil);
    assert t.node in Nodes(t) && t.left.node in Nodes(t.left);
    HangsBelow(m, root, c, t.node, nil);
    assert IsTree(m, t.left, t.node, nil);
    assert IsTree(m, t.left.right, t.left.node, nil);
    assert t.left.right.Node? ==> t.left.right.node in Nodes(t.left.right);
  }

  method LinkRight(tr: RbRoot, node: RbNode, ghost c: Ctx)
    requires c.Top? <==> node.parent == tr.nil
    requires !c.Top? ==> node.parent == c.node && (c.InLeft? <==> c.node.left == node)
    requires node != node.left && node.left.right !in {node, node.left}
    requires !c.Top? ==> c.node !in {node, node.left, node.left.right}
    modifies tr`root, CtxTop(c), node, node.left, if node.left.right == tr.nil then {} else {node.left.right}
    ensures CellOf(node) == old(CellOf(node)).(left := old(node.left.right), parent := old(node.left))
    ensures CellOf(old(node.left)) == old(CellOf(node.left)).(right := node, parent := old(node.parent))
    ensures old(node.left.right) != tr.nil ==>
      CellOf(old(node.left.right)) == old(CellOf(node.left.right)).(parent := node)
    ensures tr.root == if c.Top? then old(node.left) else old(tr.root)
    ensures c.InLeft? ==> CellOf(c.node) == old(CellOf(c.node)).(left := old(node.left))
    ensures c.InRight? ==> CellOf(c.node) == old(CellOf(c.node)).(right := old(node.left))
  {
    var l := node.left;
    node.left := l.right;
    if l.right != tr.nil {
      l.right.parent := node;
    }
    l.parent := node.parent;
    Relink(tr, node, l, c);
    l.right := node;
    node.parent := l;
  }

  method RotateRight(tr: RbRoot, node: RbNode, ghost c: Ctx, ghost t: Tree)
    requires tr.At(c, t) && t.Node? && t.left.Node? && t.node == node
    modifies tr`root, tr.nodes
    ensures tr.At(c, RotatedRight(t))
  {
    ghost var m, root := tr.Memory(), tr.root;
    RightCells(m, root, c, t, tr.nil);
    LinkRight(tr, node, c);
    RotatedRightMem(m, tr.Memory(), root, tr.root, c, t, tr.nil);
    RotatedPlaced(c, t, tr.nil);
  }

  /** Below the top, the root lies above. */
  lemma RootAbove(m: Mem, root: RbNode, c: Ctx, hole: RbNode, nil: RbNode)
    requires IsCtx(m, root, c, hole, nil) && !c.Top?
    ensures root in CtxNodes(c)
    decreases c
  {
    if !c.up.Top? { RootAbove(m, root, c.up, c.node, nil); }
  }
}
