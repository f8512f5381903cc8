module RbDelete {
  import opened RbShape
  import opened RbRotate
  import opened RbShort
  import opened RbQuery
  import RbShortLeft
  import RbShortRight

  // ----- fixup -----

  /** x is the root exactly when there is no context left, and its side is told by its parent. */
  lemma Side(m: Mem, root: RbNode, c: Ctx, t: Tree, h: nat, nil: RbNode)
    requires Rep(m, root, c, t, nil) && CtxRb(c, h + 1)
    ensures c.Top? <==> root == Ptr(t, nil)
    ensures !c.Top? ==> c.node in m && (m[c.node].left == Ptr(t, nil) <==> c.InLeft?)
    ensures t.Node? ==> t.node in m && m[t.node].color == t.color
  {
    Down(c, t, nil);
    if !c.Top? {
      RootAbove(m, root, c, Ptr(t, nil), nil);
      assert t.Node? ==> t.node in Nodes(t);
    }
    if c.InRight? {
      assert Rb(c.left, h + 1);
      assert c.left.node in Nodes(c.left);
      CtxKeys(c);
      SortedKeys(c.left, Lo(c.up), c.node.key);
    }
  }

  /** `node->color = BLACK` once node is the root or red. */
  method Settled(tr: RbRoot, x: RbNode, ghost c: Ctx, ghost t: Tree, ghost h: nat)
    requires Short(tr, x, c, t, h) && (c.Top? || !IsBlack(t))
    modifies tr`shape, tr.nodes, tr.nil`color
    ensures tr.Valid()
  {
    ghost var m := tr.Memory();
    x.color := Black;
    ghost var s := if t.Node? then t.(color := Black) else t;
    if t.Node? {
      Repainted(m, tr.Memory(), tr.root, c, t, Black, tr.nil);
    }
    Close(tr, c, s, if t.Node? && t.color == Red then h + 1 else h);
  }

  method DeleteFixup(tr: RbRoot, x0: RbNode, ghost c0: Ctx, ghost t0: Tree, ghost h0: nat)
    requires Short(tr, x0, c0, t0, h0)
    modifies tr`root, tr`shape, tr.nodes, tr.nil`color
    ensures tr.Valid()
  {
    var x := x0;
    ghost var c, t, h := c0, t0, h0;
    Side(tr.Memory(), tr.root, c, t, h, tr.nil);
    while x != tr.root && x.color == Black
      invariant Short(tr, x, c, t, h)
      decreases Rounds(c, t)
    {
      Side(tr.Memory(), tr.root, c, t, h, tr.nil);
      if x == x.parent.left {
        x, c, t, h := RbShortLeft.Step(tr, x, c, t, h);
      } else {
        x, c, t, h := RbShortRight.Step(tr, x, c, t, h);
      }
    }
    Side(tr.Memory(), tr.root, c, t, h, tr.nil);
    Settled(tr, x, c, t, h);
  }

  // ----- a subtree without its smallest node -----

  ghost function RemoveMin(r: Tree): Tree
    requires r.Node?
  {
    if r.left.Leaf? then r.right else Node(r.color, RemoveMin(r.left), r.node, r.right)
  }

  ghost function MinHeight(r: Tree, h: nat): nat
    requires r.Node?
  {
    if r.left.Leaf? then h else MinHeight(r.left, DownHeight(r, h))
  }

  lemma MinFits(d: Ctx, r: Tree, h: nat)
    requires Fits(d, r, h) && r.Node?
    ensures Fits(MinCtx(d, r), MinTree(r), MinHeight(r, h))
    decreases r
  {
    if r.left.Node? {
      DownRb(d, r, h);
      MinFits(DownLeft(d, r), r.left, DownHeight(r, h));
    }
  }

  /** Everything but the smallest node stays, above it. */
  lemma MinSorted(r: Tree, lo: int, hi: int)
    requires Sorted(r, lo, hi) && r.Node?
    ensures lo < MinTree(r).node.key < hi && Sorted(RemoveMin(r), MinTree(r).node.key, hi)
    ensures Nodes(r) == Nodes(RemoveMin(r)) + {MinTree(r).node}
    ensures MinTree(r).node !in Nodes(RemoveMin(r))
  {
    if r.left.Node? {
      MinSorted(r.left, lo, r.node.key);
    }
    SortedKeys(RemoveMin(r), MinTree(r).node.key, hi);
  }

  /** The focus can move between a subtree without its smallest node and the hole that node left. */
  lemma HoleUp(m: Mem, root: RbNode, d: Ctx, r: Tree, nil: RbNode)
    requires r.Node? && Rep(m, root, MinCtx(d, r), MinTree(r).right, nil)
    ensures Rep(m, root, d, RemoveMin(r), nil)
    decreases r
  {
    if r.left.Node? {
      HoleUp(m, root, DownLeft(d, r), r.left, nil);
      MoveUp(m, root, DownLeft(d, r), RemoveMin(r.left), nil);
    }
  }

  lemma HoleDown(m: Mem, root: RbNode, d: Ctx, r: Tree, nil: RbNode)
    requires r.Node? && Rep(m, root, d, RemoveMin(r), nil)
    ensures Rep(m, root, MinCtx(d, r), MinTree(r).right, nil)
    ensures CtxNodes(MinCtx(d, r)) + Nodes(MinTree(r).right) == CtxNodes(d) + Nodes(RemoveMin(r))
    decreases r
  {
    if r.left.Node? {
      MoveDown(m, root, d, RemoveMin(r), nil);
      HoleDown(m, root, DownLeft(d, r), r.left, nil);
    }
  }

  // ----- taking a node out -----

  /** `rb_transplant`: v takes the place of u; v may be the sentinel. */
  method Transplant(tr: RbRoot, u: RbNode, v: RbNode, ghost c: Ctx)
    requires c.Top? <==> u.parent == tr.nil
    requires !c.Top? ==> u.parent == c.node && (c.InLeft? <==> c.node.left == u)
    requires u != v && u !in CtxTop(c) && v !in CtxTop(c)
    modifies tr`root, CtxTop(c), v`parent
    ensures CellOf(v) == old(CellOf(v)).(parent := u.parent)
    ensures tr.root == if c.Top? then v else old(tr.root)
    ensures c.InLeft? ==> CellOf(c.node) == old(CellOf(c.node)).(left := v)
    ensures c.InRight? ==> CellOf(c.node) == old(CellOf(c.node)).(right := v)
  {
    Relink(tr, u, v, c);
    v.parent := u.parent;
  }

  lemma SplicedMem(m: Mem, w: Mem, root: RbNode, root': RbNode, c: Ctx, t: Tree, s: Tree, nil: RbNode)
    requires Rep(m, root, c, t, nil) && t.Node? && (s == t.left || s == t.right)
    requires forall n :: n in m && n != Ptr(s, nil) && n != CtxPtr(c, nil) ==> n in w && w[n] == m[n]
    requires s.Node? ==> s.node in m && s.node in w && w[s.node] == m[s.node].(parent := CtxPtr(c, nil))
    requires Rehung(m, w, root, root', c, Ptr(s, nil))
    ensures Rep(w, root', c, s, nil) && t.node !in Nodes(s) && t.node !in CtxNodes(c)
    ensures Nodes(s) <= Nodes(t)
  {
    Down(c, t, nil);
    assert s.Node? ==> s.node in Nodes(s);
    assert t.node in Nodes(t);
    assert !c.Top? ==> c.node in CtxNodes(c);
    SortedMono(t.left, Lo(c), t.node.key, Lo(c), Hi(c));
    SortedMono(t.right, t.node.key, Hi(c), Lo(c), Hi(c));
    Reparent(m, w, s, t.node, CtxPtr(c, nil), nil, Lo(c), Hi(c));
    Rehang(m, w, root, root', c, t.node, Ptr(s, nil), nil);
  }

  lemma SortedMono(t: Tree, lo: int, hi: int, lo': int, hi': int)
    requires Sorted(t, lo, hi) && lo' <= lo && hi <= hi'
    ensures Sorted(t, lo', hi')
  {
  }

  lemma SpliceCells(m: Mem, root: RbNode, c: Ctx, t: Tree, nil: RbNode)
    requires Rep(m, root, c, t, nil) && t.Node?
    ensures t.node in m && m[t.node] == Cell(t.color, CtxPtr(c, nil), Ptr(t.left, nil), Ptr(t.right, nil))
    ensures c.Top? <==> CtxPtr(c, nil) == nil
    ensures !c.Top? ==> c.node in m && c.node != t.node && (c.InLeft? <==> m[c.node].left == t.node)
    ensures !c.Top? ==> c.node != Ptr(t.left, nil) && c.node != Ptr(t.right, nil)
    ensures t.node != Ptr(t.left, nil) && t.node != Ptr(t.right, nil)
    ensures t.left.Node? ==> t.left.node in m && t.left.node in Nodes(t)
    ensures t.right.Node? ==> t.right.node in m && t.right.node in Nodes(t)
  {
    Down(c, t, nil);
    assert t.node in Nodes(t);
    assert t.left.Node? ==> t.left.node in Nodes(t.left);
    assert t.right.Node? ==> t.right.node in Nodes(t.right);
    HangsBelow(m, root, c, t.node, nil);
    assert IsTree(m, t.left, t.node, nil) && IsTree(m, t.right, t.node, nil);
  }

  /** A node with at most one child gives its place to that child. */
  method Splice(tr: RbRoot, node: RbNode, x: RbNode, ghost c: Ctx, ghost t: Tree, ghost s: Tree)
    requires tr.Near(c, t) && t.Node? && t.node == node && x == Ptr(s, tr.nil)
    requires (s == t.right && t.left.Leaf?) || (s == t.left && t.right.Leaf?)
    modifies tr`root, tr.nodes, tr.nil`parent
    ensures tr.Near(c, s) && x.parent == CtxPtr(c, tr.nil)
    ensures node in tr.nodes && CellOf(node) == old(CellOf(node)) && node !in Nodes(s) && node !in CtxNodes(c)
  {
    ghost var m, root := tr.Memory(), tr.root;
    SpliceCells(m, root, c, t, tr.nil);
    Transplant(tr, node, x, c);
    SplicedMem(m, tr.Memory(), root, tr.root, c, t, s, tr.nil);
  }

  // ----- the successor takes the place of its node -----

  /** In m, node hangs below c with l on its left, and y already carries s on its right. */
  ghost predicate Ready(m: Mem, root: RbNode, c: Ctx, col: Color, l: Tree, node: RbNode, y: RbNode, s: Tree,
      nil: RbNode) {
    && IsCtx(m, root, c, node, nil) && Lo(c) < node.key < Hi(c) && node != nil && node !in CtxNodes(c)
    && node in m && m[node].color == col && m[node].parent == CtxPtr(c, nil) && m[node].left == Ptr(l, nil)
    && IsTree(m, l, node, nil) && IsTree(m, s, y, nil) && l.Node?
    && y in m && m[y].right == Ptr(s, nil) && y != node
    && Placed(c, Node(col, l, y, s), nil) && node !in Nodes(l)
  }

  lemma ReplacedMem(m: Mem, w: Mem, root: RbNode, root': RbNode, c: Ctx, col: Color, l: Tree, node: RbNode, y: RbNode,
      s: Tree, nil: RbNode)
    requires Ready(m, root, c, col, l, node, y, s, nil) && node !in Nodes(s)
    requires l.node in m && l.node in w && w[l.node] == m[l.node].(parent := y)
    requires y in w && w[y] == Cell(col, CtxPtr(c, nil), Ptr(l, nil), Ptr(s, nil))
    requires forall n :: n in m && n !in {y, l.node, CtxPtr(c, nil)} ==> n in w && w[n] == m[n]
    requires Rehung(m, w, root, root', c, y)
    ensures Rep(w, root', c, Node(col, l, y, s), nil)
  {
    var t := Node(col, l, y, s);
    Down(c, t, nil);
    assert l.node in Nodes(l);
    assert !c.Top? ==> c.node in CtxNodes(c);
    TreeFrame(m, w, s, y, nil);
    Reparent(m, w, l, node, y, nil, Lo(c), y.key);
    Rehang(m, w, root, root', c, node, y, nil);
  }

  lemma ReadyCells(m: Mem, root: RbNode, c: Ctx, col: Color, l: Tree, node: RbNode, y: RbNode, s: Tree, nil: RbNode)
    requires Ready(m, root, c, col, l, node, y, s, nil)
    ensures c.Top? <==> CtxPtr(c, nil) == nil
    ensures !c.Top? ==> c.node in m && c.node !in {node, y, l.node} && (c.InLeft? <==> m[c.node].left == node)
    ensures l.node in m && l.node !in {node, y} && y != nil && l.node != nil
  {
    var t := Node(col, l, y, s);
    Down(c, t, nil);
    assert l.node in Nodes(l) && y in Nodes(t);
    assert !c.Top? ==> c.node in CtxNodes(c);
    HangsBelow(m, root, c, node, nil);
  }

  /** y moves into node's place and takes over its left subtree and colour. */
  method Reseat(tr: RbRoot, node: RbNode, y: RbNode, ghost c: Ctx)
    requires c.Top? <==> node.parent == tr.nil
    requires !c.Top? ==> node.parent == c.node && (c.InLeft? <==> c.node.left == node)
    requires node != y && node.left !in {node, y} && (!c.Top? ==> c.node !in {node, y, node.left})
    modifies tr`root, CtxTop(c), y, node.left
    ensures CellOf(y) == Cell(node.color, node.parent, node.left, old(y.right))
    ensures CellOf(node.left) == old(CellOf(node.left)).(parent := y)
    ensures tr.root == if c.Top? then y else old(tr.root)
    ensures c.InLeft? ==> CellOf(c.node) == old(CellOf(c.node)).(left := y)
    ensures c.InRight? ==> CellOf(c.node) == old(CellOf(c.node)).(right := y)
  {
    Transplant(tr, node, y, c);
    y.left := node.left;
    y.left.parent := y;
    y.color := node.color;
  }

  method Replace(tr: RbRoot, node: RbNode, y: RbNode, ghost c: Ctx, ghost col: Color, ghost l: Tree, ghost s: Tree)
    requires tr.nil !in tr.nodes && Ready(tr.Memory(), tr.root, c, col, l, node, y, s, tr.nil) && node !in Nodes(s)
    modifies tr`root, tr.nodes
    ensures tr.Near(c, Node(col, l, y, s))
  {
    ghost var m, root := tr.Memory(), tr.root;
    ReadyCells(m, root, c, col, l, node, y, s, tr.nil);
    Reseat(tr, node, y, c);
    ReplacedMem(m, tr.Memory(), root, tr.root, c, col, l, node, y, s, tr.nil);
  }

  /** Disowning a node that is no longer linked. */
  ghost method Drop(tr: RbRoot, node: RbNode, c: Ctx, t: Tree)
    requires tr.Near(c, t) && node !in CtxNodes(c) && node !in Nodes(t)
    requires tr.nodes == CtxNodes(c) + Nodes(t) + {node}
    modifies tr`nodes
    ensures tr.At(c, t) && tr.nodes == old(tr.nodes) - {node}
  {
    var m := tr.Memory();
    tr.nodes := tr.nodes - {node};
    var w := tr.Memory();
    TreeFrame(m, w, t, CtxPtr(c, tr.nil), tr.nil);
    CtxFrame(m, w, tr.root, c, Ptr(t, tr.nil), tr.nil);
  }

  // ----- deletion -----

  method SpliceOut(tr: RbRoot, node: RbNode, x: RbNode, ghost c: Ctx, ghost t: Tree, ghost s: Tree)
    requires tr.At(c, t) && t.Node? && t.node == node && x == Ptr(s, tr.nil)
    requires (s == t.right && t.left.Leaf?) || (s == t.left && t.right.Leaf?)
    modifies tr`root, tr`nodes, tr.nodes, tr.nil`parent
    ensures tr.At(c, s) && x.parent == CtxPtr(c, tr.nil) && tr.nodes == old(tr.nodes) - {node}
  {
    assert Nodes(t) == Nodes(s) + {node};
    Splice(tr, node, x, c, t, s);
    Drop(tr, node, c, s);
  }

  /** A node without left child, or without right child. */
  method DeleteOuter(tr: RbRoot, node: RbNode, x: RbNode, ghost c: Ctx, ghost t: Tree, ghost s: Tree, ghost h: nat)
    requires tr.At(c, t) && Fits(c, t, h) && t.Node? && t.node == node && x == Ptr(s, tr.nil) && SentinelOk(tr.nil)
    requires (s == t.right && t.left.Leaf?) || (s == t.left && t.right.Leaf?)
    modifies tr`root, tr`nodes, tr`shape, tr.nodes, tr.nil`parent, tr.nil`color
    ensures tr.Valid() && tr.nodes == old(tr.nodes) - {node}
  {
    assert tr.Memory()[node].color == t.color;
    var orig := node.color;
    SpliceOut(tr, node, x, c, t, s);
    RepairOuter(tr, x, orig, c, t, s, h);
  }

  method RepairOuter(tr: RbRoot, x: RbNode, orig: Color, ghost c: Ctx, ghost t: Tree, ghost s: Tree, ghost h: nat)
    requires Fits(c, t, h) && t.Node? && orig == t.color && (s == t.left || s == t.right) && SentinelOk(tr.nil)
    requires tr.At(c, s) && x == Ptr(s, tr.nil) && x.parent == CtxPtr(c, tr.nil)
    modifies tr`root, tr`shape, tr.nodes, tr.nil`color
    ensures tr.Valid()
  {
    DownRb(c, t, h);
    if orig == Black {
      DeleteFixup(tr, x, c, s, h - 1);
    } else {
      Close(tr, c, s, h);
    }
  }

  /** The tree with node's successor in node's place. */
  ghost function Succeeded(t: Tree): Tree
    requires t.Node? && t.right.Node?
  {
    Node(t.color, t.left, MinTree(t.right).node, RemoveMin(t.right))
  }

  lemma SucceededPlaced(c: Ctx, t: Tree, nil: RbNode)
    requires Placed(c, t, nil) && t.Node? && t.right.Node?
    ensures Placed(c, Succeeded(t), nil) && Nodes(t) == Nodes(Succeeded(t)) + {t.node}
    ensures t.node !in Nodes(Succeeded(t)) && t.node !in CtxNodes(c)
    ensures MinTree(t.right).node !in Nodes(t.left) && MinTree(t.right).node !in CtxNodes(c)
    ensures MinTree(t.right).node !in Nodes(RemoveMin(t.right))
  {
    Down(c, t, nil);
    MinSorted(t.right, t.node.key, Hi(c));
    SortedMono(t.left, Lo(c), t.node.key, Lo(c), MinTree(t.right).node.key);
    SortedKeys(t.left, Lo(c), t.node.key);
    SortedKeys(RemoveMin(t.right), MinTree(t.right).node.key, Hi(c));
    assert t.node in Nodes(t) && MinTree(t.right).node in Nodes(t.right);
  }

  /** The successor is a child of its node, or hangs deeper inside the right subtree. */
  lemma MinParent(c: Ctx, t: Tree, r: Tree, d: Ctx, nil: RbNode)
    requires r.Node? && d.InRight?
    ensures r.left.Leaf? ==> CtxPtr(MinCtx(d, r), nil) == d.node
    ensures r.left.Node? ==> CtxPtr(MinCtx(d, r), nil) in Nodes(r)
    decreases r
  {
    if r.left.Node? { MinParentDeep(d, r, nil); }
  }

  lemma MinParentDeep(d: Ctx, r: Tree, nil: RbNode)
    requires r.Node? && r.left.Node?
    ensures CtxPtr(MinCtx(d, r), nil) in Nodes(r)
    decreases r
  {
    if r.left.left.Node? { MinParentDeep(DownLeft(d, r), r.left, nil); }
  }

  /** The hole's parent does not depend on what lies above the subtree, once it is inside it. */
  lemma MinParentSame(d: Ctx, e: Ctx, r: Tree, nil: RbNode)
    requires r.Node? && r.left.Node?
    ensures CtxPtr(MinCtx(d, r), nil) == CtxPtr(MinCtx(e, r), nil)
    decreases r
  {
    if r.left.left.Node? { MinParentSame(DownLeft(d, r), DownLeft(e, r), r.left, nil); }
  }

  /** What lies above the place y leaves: y itself if it was a child of its new place's owner. */
  ghost function HoleParent(c: Ctx, t: Tree, nil: RbNode): RbNode
    requires t.Node? && t.right.Node?
  {
    if t.right.left.Leaf? then t.right.node else CtxPtr(MinCtx(DownRight(c, t), t.right), nil)
  }

  lemma NearReady(m: Mem, root: RbNode, c: Ctx, t: Tree, nil: RbNode)
    requires Rep(m, root, c, t, nil) && t.Node? && t.left.Node? && t.right.Node? && t.right.left.Leaf?
    ensures Ready(m, root, c, t.color, t.left, t.node, t.right.node, t.right.right, nil)
    ensures t.right.right.Node? ==> t.right.right.node in m && m[t.right.right.node].parent == t.right.node
  {
    SucceededPlaced(c, t, nil);
    assert t.node in Nodes(t);
    assert IsTree(m, t.right, t.node, nil);
    assert IsTree(m, t.right.right, t.right.node, nil);
  }

  lemma AdoptedReady(m: Mem, w: Mem, root: RbNode, c: Ctx, t: Tree, y: RbNode, nil: RbNode)
    requires Rep(m, root, c, t, nil) && t.Node? && t.left.Node? && t.right.Node?
    requires y in m && y !in CtxNodes(c) && y !in Nodes(t)
    requires Placed(c, Node(t.color, t.left, y, t.right), nil)
    requires t.right.node in m
    requires w == m[y := m[y].(right := t.right.node)][t.right.node := m[t.right.node].(parent := y)]
    ensures Ready(w, root, c, t.color, t.left, t.node, y, t.right, nil)
  {
    Down(c, t, nil);
    assert t.node in Nodes(t) && t.right.node in Nodes(t.right);
    TreeFrame(m, w, t.left, t.node, nil);
    Reparent(m, w, t.right, t.node, y, nil, t.node.key, Hi(c));
    CtxFrame(m, w, root, c, t.node, nil);
  }

  /** Getting the successor y ready: its right link leads to what remains of the right subtree. */
  method FreeSuccessor(tr: RbRoot, node: RbNode, y: RbNode, x: RbNode, ghost c: Ctx, ghost t: Tree)
    requires tr.At(c, t) && t.Node? && t.node == node && t.left.Node? && t.right.Node?
    requires y == MinTree(t.right).node && x == Ptr(MinTree(t.right).right, tr.nil)
    requires tr.At(MinCtx(DownRight(c, t), t.right), MinTree(t.right))
    modifies tr`root, tr.nodes, tr.nil`parent
    ensures Ready(tr.Memory(), tr.root, c, t.color, t.left, node, y, RemoveMin(t.right), tr.nil)
    ensures x == tr.nil ==> x.parent == HoleParent(c, t, tr.nil)
  {
    ghost var m, d, r := tr.Memory(), DownRight(c, t), t.right;
    SucceededPlaced(c, t, tr.nil);
    MinParent(c, t, r, d, tr.nil);
    assert m[y].parent == CtxPtr(MinCtx(d, r), tr.nil) && m[y].right == x;
    if y.parent == node {
      NearReady(m, tr.root, c, t, tr.nil);
      x.parent := y;
      assert tr.Memory() == m;
    } else {
      SpliceDeep(tr, node, y, x, c, t);
    }
  }

  /** `y->right = node->right; y->right->parent = y` */
  method Adopt(tr: RbRoot, node: RbNode, y: RbNode, ghost c: Ctx, ghost t: Tree)
    requires tr.Near(c, t) && t.Node? && t.left.Node? && t.right.Node? && node == t.node
    requires y in tr.nodes && y !in CtxNodes(c) && y !in Nodes(t)
    requires Placed(c, Node(t.color, t.left, y, t.right), tr.nil)
    modifies tr.nodes
    ensures Ready(tr.Memory(), tr.root, c, t.color, t.left, node, y, t.right, tr.nil)
  {
    ghost var m := tr.Memory();
    SpliceCells(m, tr.root, c, t, tr.nil);
    assert m[node].right == t.right.node;
    y.right := node.right;
    y.right.parent := y;
    AdoptedReady(m, tr.Memory(), tr.root, c, t, y, tr.nil);
  }

  lemma Refocus(m: Mem, root: RbNode, c: Ctx, t: Tree, nil: RbNode)
    requires t.Node? && t.right.Node?
    requires Rep(m, root, MinCtx(DownRight(c, t), t.right), MinTree(t.right).right, nil)
    ensures Rep(m, root, c, Node(t.color, t.left, t.node, RemoveMin(t.right)), nil)
  {
    HoleUp(m, root, DownRight(c, t), t.right, nil);
    MoveUp(m, root, DownRight(c, t), RemoveMin(t.right), nil);
  }

  method SpliceDeep(tr: RbRoot, node: RbNode, y: RbNode, x: RbNode, ghost c: Ctx, ghost t: Tree)
    requires tr.At(c, t) && t.Node? && t.node == node && t.left.Node? && t.right.Node? && t.right.left.Node?
    requires y == MinTree(t.right).node && x == Ptr(MinTree(t.right).right, tr.nil) && y.right == x
    requires tr.At(MinCtx(DownRight(c, t), t.right), MinTree(t.right))
    modifies tr`root, tr.nodes, tr.nil`parent
    ensures Ready(tr.Memory(), tr.root, c, t.color, t.left, node, y, RemoveMin(t.right), tr.nil)
    ensures x == tr.nil ==> x.parent == HoleParent(c, t, tr.nil)
  {
    ghost var u := Node(t.color, t.left, t.node, RemoveMin(t.right));
    SucceededPlaced(c, t, tr.nil);
    Splice(tr, y, y.right, MinCtx(DownRight(c, t), t.right), MinTree(t.right), MinTree(t.right).right);
    Refocus(tr.Memory(), tr.root, c, t, tr.nil);
    Adopt(tr, node, y, c, u);
  }

  /** A node with two children: its successor moves into its place. */
  method MoveSuccessor(tr: RbRoot, node: RbNode, y: RbNode, x: RbNode, ghost c: Ctx, ghost t: Tree)
    requires tr.At(c, t) && t.Node? && t.node == node && t.left.Node? && t.right.Node?
    requires y == MinTree(t.right).node && x == Ptr(MinTree(t.right).right, tr.nil)
    requires tr.At(MinCtx(DownRight(c, t), t.right), MinTree(t.right))
    modifies tr`root, tr`nodes, tr.nodes, tr.nil`parent
    ensures tr.At(c, Succeeded(t)) && tr.nodes == old(tr.nodes) - {node}
    ensures x == tr.nil ==> x.parent == HoleParent(c, t, tr.nil)
  {
    FreeSuccessor(tr, node, y, x, c, t);
    SucceededPlaced(c, t, tr.nil);
    Replace(tr, node, y, c, t.color, t.left, RemoveMin(t.right));
    Drop(tr, node, c, Succeeded(t));
  }

  /** The hole the successor left, seen in the new tree. */
  lemma HoleFits(m: Mem, root: RbNode, c: Ctx, t: Tree, h: nat, nil: RbNode)
    requires Fits(c, t, h) && t.Node? && t.right.Node?
    requires Rep(m, root, c, Succeeded(t), nil)
    ensures var d, k := DownRight(c, Succeeded(t)), MinHeight(t.right, DownHeight(t, h));
      var e, s := MinCtx(d, t.right), MinTree(t.right).right;
      && Rep(m, root, e, s, nil) && CtxNodes(e) + Nodes(s) == CtxNodes(c) + Nodes(Succeeded(t))
      && CtxRb(e, k) && (MinTree(t.right).color == Black ==> k > 0 && Rb(s, k - 1))
      && (MinTree(t.right).color == Red ==> Rb(s, k) && IsBlack(s)) && !e.Top?
      && CtxPtr(e, nil) == HoleParent(c, t, nil)
  {
    var d := DownRight(c, Succeeded(t));
    DownRb(c, t, h);
    MinFits(d, t.right, DownHeight(t, h));
    MoveDown(m, root, c, Succeeded(t), nil);
    HoleDown(m, root, d, t.right, nil);
    MinBelow(d, t.right);
    if t.right.left.Node? {
      MinParentSame(DownRight(c, t), d, t.right, nil);
    }
  }

  lemma MinBelow(d: Ctx, r: Tree)
    requires !d.Top? && r.Node?
    ensures !MinCtx(d, r).Top?
    decreases r
  {
    if r.left.Node? { MinBelow(DownLeft(d, r), r.left); }
  }

  /** The successor's old place is one black node short if the successor was black. */
  method RepairHole(tr: RbRoot, x: RbNode, orig: Color, ghost c: Ctx, ghost t: Tree, ghost h: nat)
    requires Fits(c, t, h) && t.Node? && t.right.Node? && SentinelOk(tr.nil)
    requires tr.At(c, Succeeded(t)) && orig == MinTree(t.right).color && x == Ptr(MinTree(t.right).right, tr.nil)
    requires x == tr.nil ==> x.parent == HoleParent(c, t, tr.nil)
    modifies tr`root, tr`shape, tr.nodes, tr.nil`color
    ensures tr.Valid()
  {
    HoleFits(tr.Memory(), tr.root, c, t, h, tr.nil);
    ghost var e, s := MinCtx(DownRight(c, Succeeded(t)), t.right), MinTree(t.right).right;
    ghost var k := MinHeight(t.right, DownHeight(t, h));
    if orig == Black {
      assert s.Node? ==> tr.Memory()[s.node].parent == CtxPtr(e, tr.nil);
      DeleteFixup(tr, x, e, s, k - 1);
    } else {
      Close(tr, e, s, k);
    }
  }

  method Successor(tr: RbRoot, node: RbNode, ghost c: Ctx, ghost t: Tree) returns (y: RbNode, x: RbNode, orig: Color)
    requires tr.At(c, t) && t.Node? && t.node == node && t.right.Node?
    ensures tr.At(MinCtx(DownRight(c, t), t.right), MinTree(t.right))
    ensures var s := MinTree(t.right); y == s.node && x == Ptr(s.right, tr.nil) && orig == s.color
  {
    ghost var r, d := t.right, DownRight(c, t);
    MoveDown(tr.Memory(), tr.root, c, t, tr.nil);
    y := Min(tr, node.right, d, r);
    MoveDown(tr.Memory(), tr.root, MinCtx(d, r), MinTree(r), tr.nil);
    assert CellOf(y) == tr.Memory()[y];
    x, orig := y.right, y.color;
  }

  method DeleteInner(tr: RbRoot, node: RbNode, ghost c: Ctx, ghost t: Tree, ghost h: nat)
    requires tr.At(c, t) && Fits(c, t, h) && t.Node? && t.node == node && SentinelOk(tr.nil)
    requires t.left.Node? && t.right.Node?
    modifies tr`root, tr`nodes, tr`shape, tr.nodes, tr.nil`parent, tr.nil`color
    ensures tr.Valid() && tr.nodes == old(tr.nodes) - {node}
  {
    var y, x, orig := Successor(tr, node, c, t);
    MoveSuccessor(tr, node, y, x, c, t);
    RepairHole(tr, x, orig, c, t, h);
  }

  method Delete(tr: RbRoot, node: RbNode)
    requires tr.Valid() && node in tr.nodes
    modifies tr`root, tr`nodes, tr`shape, tr.nodes, tr.nil`parent, tr.nil`color
    ensures tr.Valid() && tr.nodes == old(tr.nodes) - {node}
    ensures tr.nil.color == old(tr.nil.color)
  {
    ghost var c, t, h := Locate(tr.Memory(), tr.root, Top, tr.shape, BlackHeight(tr.shape), node, tr.nil);
    MoveDown(tr.Memory(), tr.root, c, t, tr.nil);
    assert CellOf(node) == tr.Memory()[node];
    if node.left == tr.nil {
      DeleteOuter(tr, node, node.right, c, t, t.right, h);
    } else if node.right == tr.nil {
      DeleteOuter(tr, node, node.left, c, t, t.left, h);
    } else {
      DeleteInner(tr, node, c, t, h);
    }
  }
}
