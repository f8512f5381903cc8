module RbInsert {
  import opened RbShape
  import opened RbRotate

  /** A red node whose subtrees are red-black of black height h: only its own parent may also be red. */
  ghost predicate RedTop(t: Tree, h: nat) {
    && t.Node? && t.color == Red && IsBlack(t.left) && IsBlack(t.right)
    && Rb(t.left, h) && Rb(t.right, h)
  }

  method BlackenParent(tr: RbRoot, p: RbNode, ghost c: Ctx, ghost t: Tree) returns (ghost s: Tree)
    requires tr.At(c, t) && !c.Top? && p == c.node
    modifies tr.nodes
    ensures s.Node? && s.color == Black && s.(color := c.color) == Up(c, t) && tr.At(c.up, s)
  {
    MoveUp(tr.Memory(), tr.root, c, t, tr.nil);
    SetColor(tr, p, Black, c.up, Up(c, t));
    s := Up(c, t).(color := Black);
  }

  /** Recolouring below a red uncle: the violation moves two levels up. */
  method BlackenUncle(tr: RbRoot, p: RbNode, u: RbNode, g: RbNode, ghost c: Ctx, ghost t: Tree, ghost h: nat)
      returns (ghost s: Tree)
    requires tr.At(c, t) && RedTop(t, h) && CtxRb(c, h) && CtxColor(c) == Red
    requires p == c.node && g == c.up.node
    requires c.up.InLeft? ==> c.up.right.Node? && c.up.right.color == Red && u == c.up.right.node
    requires c.up.InRight? ==> c.up.left.Node? && c.up.left.color == Red && u == c.up.left.node
    modifies tr.nodes
    ensures tr.At(c.up.up, s) && RedTop(s, h + 1) && s.node == g && CtxRb(c.up.up, h + 1)
  {
    ghost var a := BlackenParent(tr, p, c, t);
    MoveUp(tr.Memory(), tr.root, c.up, a, tr.nil);
    s := Up(c.up, a);
    MoveDown(tr.Memory(), tr.root, c.up.up, s, tr.nil);
    ghost var cu := if c.up.InLeft? then DownRight(c.up.up, s) else DownLeft(c.up.up, s);
    ghost var tu := if c.up.InLeft? then s.right else s.left;
    SetColor(tr, u, Black, cu, tu);
    MoveUp(tr.Memory(), tr.root, cu, tu.(color := Black), tr.nil);
    s := Up(cu, tu.(color := Black));
    SetColor(tr, g, Red, c.up.up, s);
    s := s.(color := Red);
  }

  /** Rotating the parent outwards, so that node and parent lean the same way. */
  method StraightenLeft(tr: RbRoot, p: RbNode, ghost c: Ctx, ghost t: Tree, ghost h: nat)
      returns (ghost c': Ctx, ghost t': Tree)
    requires tr.At(c, t) && RedTop(t, h) && CtxRb(c, h) && c.InRight? && c.color == Red && p == c.node
    modifies tr`root, tr.nodes
    ensures tr.At(c', t') && RedTop(t', h) && CtxRb(c', h) && t'.node == p
    ensures c'.InLeft? && c'.color == Red && c'.up == c.up
  {
    MoveUp(tr.Memory(), tr.root, c, t, tr.nil);
    RotateLeft(tr, p, c.up, Up(c, t));
    ghost var s := RotatedLeft(Up(c, t));
    MoveDown(tr.Memory(), tr.root, c.up, s, tr.nil);
    c', t' := DownLeft(c.up, s), s.left;
  }

  method StraightenRight(tr: RbRoot, p: RbNode, ghost c: Ctx, ghost t: Tree, ghost h: nat)
      returns (ghost c': Ctx, ghost t': Tree)
    requires tr.At(c, t) && RedTop(t, h) && CtxRb(c, h) && c.InLeft? && c.color == Red && p == c.node
    modifies tr`root, tr.nodes
    ensures tr.At(c', t') && RedTop(t', h) && CtxRb(c', h) && t'.node == p
    ensures c'.InRight? && c'.color == Red && c'.up == c.up
  {
    MoveUp(tr.Memory(), tr.root, c, t, tr.nil);
    RotateRight(tr, p, c.up, Up(c, t));
    ghost var s := RotatedRight(Up(c, t));
    MoveDown(tr.Memory(), tr.root, c.up, s, tr.nil);
    c', t' := DownRight(c.up, s), s.right;
  }

  /** Black uncle on the right: the parent becomes black and takes the grandparent's place. */
  method RaiseLeft(tr: RbRoot, p: RbNode, g: RbNode, ghost c: Ctx, ghost t: Tree, ghost h: nat)
      returns (ghost c': Ctx)
    requires tr.At(c, t) && RedTop(t, h) && CtxRb(c, h) && c.InLeft? && c.color == Red && p == c.node
    requires c.up.InLeft? && g == c.up.node && IsBlack(c.up.right)
    modifies tr`root, tr.nodes
    ensures tr.At(c', t) && CtxRb(c', h) && CtxColor(c') == Black
  {
    ghost var a := BlackenParent(tr, p, c, t);
    MoveUp(tr.Memory(), tr.root, c.up, a, tr.nil);
    ghost var s := Up(c.up, a);
    SetColor(tr, g, Red, c.up.up, s);
    RotateRight(tr, g, c.up.up, s.(color := Red));
    s := RotatedRight(s.(color := Red));
    MoveDown(tr.Memory(), tr.root, c.up.up, s, tr.nil);
    c' := DownLeft(c.up.up, s);
  }

  method RaiseRight(tr: RbRoot, p: RbNode, g: RbNode, ghost c: Ctx, ghost t: Tree, ghost h: nat)
      returns (ghost c': Ctx)
    requires tr.At(c, t) && RedTop(t, h) && CtxRb(c, h) && c.InRight? && c.color == Red && p == c.node
    requires c.up.InRight? && g == c.up.node && IsBlack(c.up.left)
    modifies tr`root, tr.nodes
    ensures tr.At(c', t) && CtxRb(c', h) && CtxColor(c') == Black
  {
    ghost var a := BlackenParent(tr, p, c, t);
    MoveUp(tr.Memory(), tr.root, c.up, a, tr.nil);
    ghost var s := Up(c.up, a);
    SetColor(tr, g, Red, c.up.up, s);
    RotateLeft(tr, g, c.up.up, s.(color := Red));
    s := RotatedLeft(s.(color := Red));
    MoveDown(tr.Memory(), tr.root, c.up.up, s, tr.nil);
    c' := DownRight(c.up.up, s);
  }

  /** What the pointers around a red parent mean in the shape. */
  lemma Family(m: Mem, root: RbNode, c: Ctx, t: Tree, h: nat, nil: RbNode)
    requires Rep(m, root, c, t, nil) && t.Node? && CtxRb(c, h) && CtxColor(c) == Red
    ensures c.node in m && c.up.node in m && c.node != nil && c.up.node != nil
    ensures m[t.node].parent == c.node && m[c.node].parent == c.up.node
    ensures (m[c.up.node].left == c.node <==> c.up.InLeft?)
    ensures (m[c.node].right == t.node <==> c.InRight?) && (m[c.node].left == t.node <==> c.InLeft?)
    ensures var uncle := if c.up.InLeft? then c.up.right else c.up.left;
      && (if c.up.InLeft? then m[c.up.node].right else m[c.up.node].left) == Ptr(uncle, nil)
      && (uncle.Node? ==> uncle.node in m && m[uncle.node].color == uncle.color)
  {
    assert t.node in Nodes(t);
    HangsBelow(m, root, c, t.node, nil);
    HangsBelow(m, root, c.up, c.node, nil);
    if c.InLeft? { SortedKeys(c.right, c.node.key, Hi(c.up)); }
  }

  ghost function Rounds(c: Ctx): nat {
    if CtxColor(c) == Black then 0 else 1 + Depth(c)
  }

  /** One round below a left-hanging parent. */
  method StepLeft(tr: RbRoot, node0: RbNode, grand: RbNode, ghost c0: Ctx, ghost t0: Tree, ghost h0: nat)
      returns (node: RbNode, ghost c: Ctx, ghost t: Tree, ghost h: nat)
    requires tr.At(c0, t0) && RedTop(t0, h0) && CtxRb(c0, h0) && t0.node == node0
    requires CtxColor(c0) == Red && c0.up.InLeft? && c0.up.node == grand && SentinelOk(tr.nil)
    modifies tr`root, tr.nodes
    ensures tr.At(c, t) && RedTop(t, h) && CtxRb(c, h) && t.node == node
    ensures Rounds(c) < Rounds(c0)
  {
    Family(tr.Memory(), tr.root, c0, t0, h0, tr.nil);
    assert Depth(c0) == 1 + Depth(c0.up) == 2 + Depth(c0.up.up);
    node, c, t, h := node0, c0, t0, h0;
    var uncle := grand.right;
    if uncle.color == Red {
      t := BlackenUncle(tr, node.parent, uncle, grand, c, t, h);
      c, h := c.up.up, h + 1;
      node := grand;
    } else {
      if node == node.parent.right {
        node := node.parent;
        c, t := StraightenLeft(tr, node, c, t, h);
      }
      Family(tr.Memory(), tr.root, c, t, h, tr.nil);
      c := RaiseLeft(tr, node.parent, grand, c, t, h);
    }
  }

  method StepRight(tr: RbRoot, node0: RbNode, grand: RbNode, ghost c0: Ctx, ghost t0: Tree, ghost h0: nat)
      returns (node: RbNode, ghost c: Ctx, ghost t: Tree, ghost h: nat)
    requires tr.At(c0, t0) && RedTop(t0, h0) && CtxRb(c0, h0) && t0.node == node0
    requires CtxColor(c0) == Red && c0.up.InRight? && c0.up.node == grand && SentinelOk(tr.nil)
    modifies tr`root, tr.nodes
    ensures tr.At(c, t) && RedTop(t, h) && CtxRb(c, h) && t.node == node
    ensures Rounds(c) < Rounds(c0)
  {
    Family(tr.Memory(), tr.root, c0, t0, h0, tr.nil);
    assert Depth(c0) == 1 + Depth(c0.up) == 2 + Depth(c0.up.up);
    node, c, t, h := node0, c0, t0, h0;
    var uncle := grand.left;
    if uncle.color == Red {
      t := BlackenUncle(tr, node.parent, uncle, grand, c, t, h);
      c, h := c.up.up, h + 1;
      node := grand;
    } else {
      if node == node.parent.left {
        node := node.parent;
        c, t := StraightenRight(tr, node, c, t, h);
      }
      Family(tr.Memory(), tr.root, c, t, h, tr.nil);
      c := RaiseRight(tr, node.parent, grand, c, t, h);
    }
  }

  lemma BlackenedRb(c: Ctx, t: Tree, h: nat)
    requires RedTop(t, h) && CtxRb(c, h) && CtxColor(c) == Black
    ensures var s := Plug(c, t);
      s.Node? && Rb(s.(color := Black), BlackHeight(s.(color := Black)))
  {
    var k := PlugRb(c, t, h);
    var s := Plug(c, t);
    assert !c.Top? ==> s.Node? by { PlugNode(c, t); }
    assert Rb(s.(color := Black), if s.color == Black then k else k + 1);
    RbBlackHeight(s.(color := Black), if s.color == Black then k else k + 1);
  }

  /** `(*root)->color = BLACK` once no red node has a red parent. */
  method BlackenRoot(tr: RbRoot, ghost c: Ctx, ghost t: Tree, ghost h: nat)
    requires tr.At(c, t) && RedTop(t, h) && CtxRb(c, h) && CtxColor(c) == Black && SentinelOk(tr.nil)
    modifies tr`shape, tr.nodes
    ensures tr.Valid()
  {
    MoveToTop(tr.Memory(), tr.root, c, t, tr.nil);
    BlackenedRb(c, t, h);
    assert CtxNodes(Top) + Nodes(Plug(c, t)) == tr.nodes;
    SetColor(tr, tr.root, Black, Top, Plug(c, t));
    tr.shape := Plug(c, t).(color := Black);
  }

  method Round(tr: RbRoot, node0: RbNode, ghost c0: Ctx, ghost t0: Tree, ghost h0: nat)
      returns (node: RbNode, ghost c: Ctx, ghost t: Tree, ghost h: nat)
    requires tr.At(c0, t0) && RedTop(t0, h0) && CtxRb(c0, h0) && t0.node == node0
    requires CtxColor(c0) == Red && SentinelOk(tr.nil)
    modifies tr`root, tr.nodes
    ensures tr.At(c, t) && RedTop(t, h) && CtxRb(c, h) && t.node == node
    ensures Rounds(c) < Rounds(c0)
  {
    Family(tr.Memory(), tr.root, c0, t0, h0, tr.nil);
    var grand := node0.parent.parent;
    if node0.parent == grand.left {
      node, c, t, h := StepLeft(tr, node0, grand, c0, t0, h0);
    } else {
      node, c, t, h := StepRight(tr, node0, grand, c0, t0, h0);
    }
  }

  method Fixup(tr: RbRoot, node0: RbNode, ghost c0: Ctx, ghost t0: Tree)
    requires tr.At(c0, t0) && RedTop(t0, 0) && CtxRb(c0, 0) && t0.node == node0 && SentinelOk(tr.nil)
    modifies tr`root, tr`shape, tr.nodes
    ensures tr.Valid()
  {
    var node := node0;
    ghost var c, t, h: nat := c0, t0, 0;
    Above(tr.Memory(), tr.root, c, t, tr.nil);
    while node.parent.color == Red
      invariant tr.At(c, t) && RedTop(t, h) && CtxRb(c, h) && t.node == node
      invariant node.parent.color == CtxColor(c)
      decreases Rounds(c)
    {
      node, c, t, h := Round(tr, node, c, t, h);
      Above(tr.Memory(), tr.root, c, t, tr.nil);
    }
    BlackenRoot(tr, c, t, h);
  }

  /** A fresh red leaf fills an empty place. */
  lemma NewLeafMem(m: Mem, w: Mem, root: RbNode, root': RbNode, c: Ctx, n: RbNode, nil: RbNode)
    requires Rep(m, root, c, Leaf, nil) && Lo(c) < n.key < Hi(c) && n != nil && n !in m && n !in CtxNodes(c)
    requires n in w && w[n] == Cell(Red, CtxPtr(c, nil), nil, nil)
    requires forall k :: k in m && k != CtxPtr(c, nil) ==> k in w && w[k] == m[k]
    requires Rehung(m, w, root, root', c, n)
    ensures Rep(w, root', c, Node(Red, Leaf, n, Leaf), nil)
  {
    Rehang(m, w, root, root', c, nil, n, nil);
  }

  /** The pointer updates that hang a fresh node below its parent. */
  method Hang(tr: RbRoot, node: RbNode, parent: RbNode, ghost c: Ctx)
    requires parent == CtxPtr(c, tr.nil) && (c.Top? <==> parent == tr.nil) && node != parent && node != tr.nil
    requires !c.Top? ==> (c.InRight? <==> node.key > c.node.key)
    modifies tr`root, CtxTop(c), node
    ensures CellOf(node) == Cell(Red, parent, tr.nil, tr.nil)
    ensures tr.root == if c.Top? then node else old(tr.root)
    ensures c.InLeft? ==> CellOf(c.node) == old(CellOf(c.node)).(left := node)
    ensures c.InRight? ==> CellOf(c.node) == old(CellOf(c.node)).(right := node)
  {
    node.parent := parent;
    if parent == tr.nil {
      tr.root := node;
    } else if node.key > parent.key {
      parent.right := node;
    } else {
      parent.left := node;
    }
    node.left := tr.nil;
    node.right := tr.nil;
    node.color := Red;
  }

  method Link(tr: RbRoot, node: RbNode, parent: RbNode, ghost c: Ctx)
    requires tr.At(c, Leaf) && parent == CtxPtr(c, tr.nil) && Lo(c) < node.key < Hi(c)
    requires node != tr.nil && node !in tr.nodes
    modifies tr`root, tr`nodes, tr.nodes, node
    ensures tr.nodes == old(tr.nodes) + {node} && tr.At(c, Node(Red, Leaf, node, Leaf))
  {
    ghost var m, root := tr.Memory(), tr.root;
    CtxKeys(c);
    assert !c.Top? ==> c.node in CtxNodes(c);
    Hang(tr, node, parent, c);
    tr.nodes := tr.nodes + {node};
    NewLeafMem(m, tr.Memory(), root, tr.root, c, node, tr.nil);
  }

  /** The search for the place of a fresh key. */
  method Descend(tr: RbRoot, node: RbNode) returns (parent: RbNode, ghost c: Ctx)
    requires tr.Valid() && MIN_INT <= node.key <= MAX_INT
    requires forall n :: n in tr.nodes ==> n.key != node.key
    ensures tr.At(c, Leaf) && CtxRb(c, 0) && parent == CtxPtr(c, tr.nil) && Lo(c) < node.key < Hi(c)
  {
    var p := tr.root;
    parent := tr.nil;
    ghost var t, h := tr.shape, BlackHeight(tr.shape);
    c := Top;
    while p != tr.nil
      invariant tr.At(c, t) && p == Ptr(t, tr.nil) && parent == CtxPtr(c, tr.nil)
      invariant Lo(c) < node.key < Hi(c)
      invariant Fits(c, t, h)
      decreases t
    {
      MoveDown(tr.Memory(), tr.root, c, t, tr.nil);
      DownRb(c, t, h);
      parent := p;
      h := DownHeight(t, h);
      if node.key > p.key {
        p := p.right;
        c, t := DownRight(c, t), t.right;
      } else {
        p := p.left;
        c, t := DownLeft(c, t), t.left;
      }
    }
  }

  method Insert(tr: RbRoot, node: RbNode)
    requires tr.Valid() && node != tr.nil && MIN_INT <= node.key <= MAX_INT
    requires forall n :: n in tr.nodes ==> n.key != node.key
    modifies tr`root, tr`nodes, tr`shape, tr.nodes, node
    ensures tr.Valid() && tr.nodes == old(tr.nodes) + {node}
  {
    assert node !in tr.nodes;
    ghost var c;
    var parent;
    parent, c := Descend(tr, node);
    Link(tr, node, parent, c);
    Fixup(tr, node, c, Node(Red, Leaf, node, Leaf));
  }
}
