/** Repairing a shortage on the left of its parent. */
module RbShortLeft {
  import opened RbShape
  import opened RbRotate
  import opened RbShort

  /** Painting the sibling, to the right of the hole. */
  method PaintSibling(tr: RbRoot, r: RbNode, col: Color, ghost c: Ctx, ghost t: Tree) returns (ghost c': Ctx)
    requires tr.At(c, t) && c.InLeft? && c.right.Node? && r == c.right.node
    modifies tr.nodes
    ensures c' == InLeft(c.color, c.up, c.node, Node(col, c.right.left, c.right.node, c.right.right)) && tr.At(c', t)
  {
    MoveUp(tr.Memory(), tr.root, c, t, tr.nil);
    ghost var s := Up(c, t);
    MoveDown(tr.Memory(), tr.root, c.up, s, tr.nil);
    SetColor(tr, r, col, DownRight(c.up, s), c.right);
    MoveUp(tr.Memory(), tr.root, DownRight(c.up, s), c.right.(color := col), tr.nil);
    s := Up(DownRight(c.up, s), c.right.(color := col));
    MoveDown(tr.Memory(), tr.root, c.up, s, tr.nil);
    c' := DownLeft(c.up, s);
  }

  /** Rotating the parent of the hole to the left: the sibling's inner subtree becomes the sibling. */
  method RotateAbove(tr: RbRoot, p: RbNode, ghost c: Ctx, ghost t: Tree) returns (ghost c': Ctx)
    requires tr.At(c, t) && c.InLeft? && p == c.node && c.right.Node?
    modifies tr`root, tr.nodes
    ensures c' == InLeft(c.color, InLeft(c.right.color, c.up, c.right.node, c.right.right), p, c.right.left)
    ensures tr.At(c', t)
  {
    MoveUp(tr.Memory(), tr.root, c, t, tr.nil);
    RotateLeft(tr, p, c.up, Up(c, t));
    ghost var s := RotatedLeft(Up(c, t));
    MoveDown(tr.Memory(), tr.root, c.up, s, tr.nil);
    MoveDown(tr.Memory(), tr.root, DownLeft(c.up, s), s.left, tr.nil);
    c' := DownLeft(DownLeft(c.up, s), s.left);
  }

  /** A red sibling is rotated above the parent, which turns red. */
  method RaiseRed(tr: RbRoot, p: RbNode, r: RbNode, ghost c: Ctx, ghost t: Tree, ghost h: nat) returns (ghost c': Ctx)
    requires tr.At(c, t) && CtxRb(c, h + 1) && c.InLeft? && p == c.node
    requires c.right.Node? && c.right.color == Red && r == c.right.node
    modifies tr`root, tr.nodes
    ensures tr.At(c', t) && CtxRb(c', h + 1) && c'.InLeft? && c'.node == p && IsBlack(c'.right) && c'.color == Red
  {
    c' := PaintSibling(tr, r, Black, c, t);
    c' := PaintAbove(tr, p, Red, c', t);
    c' := RotateAbove(tr, p, c', t);
  }

  /** Both nephews black: the sibling turns red and the shortage moves to the parent. */
  method Redden(tr: RbRoot, r: RbNode, ghost c: Ctx, ghost t: Tree, ghost h: nat) returns (ghost s: Tree, ghost k: nat)
    requires tr.At(c, t) && CtxRb(c, h + 1) && Rb(t, h) && c.InLeft?
    requires c.right.Node? && r == c.right.node && c.right.color == Black && IsBlack(c.right.left)
    requires IsBlack(c.right.right)
    modifies tr.nodes
    ensures s.Node? && s.node == c.node && s.color == c.color && tr.At(c.up, s) && Almost(s, k) && CtxRb(c.up, k + 1)
  {
    ghost var c' := PaintSibling(tr, r, Red, c, t);
    MoveUp(tr.Memory(), tr.root, c', t, tr.nil);
    s, k := Up(c', t), if c.color == Black then h + 1 else h;
  }

  /** Painting the inner and the outer nephew. */
  method PaintInner(tr: RbRoot, q: RbNode, col: Color, ghost c: Ctx, ghost t: Tree) returns (ghost c': Ctx)
    requires tr.At(c, t) && c.InLeft? && c.right.Node? && c.right.left.Node? && q == c.right.left.node
    modifies tr.nodes
    ensures var r := c.right; var q := r.left;
      c' == InLeft(c.color, c.up, c.node, Node(r.color, Node(col, q.left, q.node, q.right), r.node, r.right))
    ensures tr.At(c', t)
  {
    MoveUp(tr.Memory(), tr.root, c, t, tr.nil);
    ghost var s := Up(c, t);
    MoveDown(tr.Memory(), tr.root, c.up, s, tr.nil);
    ghost var d := DownRight(c.up, s);
    MoveDown(tr.Memory(), tr.root, d, c.right, tr.nil);
    SetColor(tr, q, col, DownLeft(d, c.right), c.right.left);
    ghost var u := c.right.(left := c.right.left.(color := col));
    MoveUp(tr.Memory(), tr.root, DownLeft(d, c.right), c.right.left.(color := col), tr.nil);
    MoveUp(tr.Memory(), tr.root, d, u, tr.nil);
    MoveDown(tr.Memory(), tr.root, c.up, Up(d, u), tr.nil);
    c' := c.(right := u);
  }

  method PaintOuter(tr: RbRoot, q: RbNode, col: Color, ghost c: Ctx, ghost t: Tree) returns (ghost c': Ctx)
    requires tr.At(c, t) && c.InLeft? && c.right.Node? && c.right.right.Node? && q == c.right.right.node
    modifies tr.nodes
    ensures var r := c.right; var q := r.right;
      c' == InLeft(c.color, c.up, c.node, Node(r.color, r.left, r.node, Node(col, q.left, q.node, q.right)))
    ensures tr.At(c', t)
  {
    MoveUp(tr.Memory(), tr.root, c, t, tr.nil);
    ghost var s := Up(c, t);
    MoveDown(tr.Memory(), tr.root, c.up, s, tr.nil);
    ghost var d := DownRight(c.up, s);
    MoveDown(tr.Memory(), tr.root, d, c.right, tr.nil);
    SetColor(tr, q, col, DownRight(d, c.right), c.right.right);
    ghost var u := c.right.(right := c.right.right.(color := col));
    MoveUp(tr.Memory(), tr.root, DownRight(d, c.right), c.right.right.(color := col), tr.nil);
    MoveUp(tr.Memory(), tr.root, d, u, tr.nil);
    MoveDown(tr.Memory(), tr.root, c.up, Up(d, u), tr.nil);
    c' := c.(right := u);
  }

  method RotateSibling(tr: RbRoot, r: RbNode, ghost c: Ctx, ghost t: Tree) returns (ghost c': Ctx)
    requires tr.At(c, t) && c.InLeft? && c.right.Node? && c.right.left.Node? && r == c.right.node
    modifies tr`root, tr.nodes
    ensures c' == InLeft(c.color, c.up, c.node, RotatedRight(c.right)) && tr.At(c', t)
  {
    MoveUp(tr.Memory(), tr.root, c, t, tr.nil);
    ghost var d, u := DownRight(c.up, Up(c, t)), RotatedRight(c.right);
    MoveDown(tr.Memory(), tr.root, c.up, Up(c, t), tr.nil);
    RotateRight(tr, r, d, c.right);
    MoveUp(tr.Memory(), tr.root, d, u, tr.nil);
    MoveDown(tr.Memory(), tr.root, c.up, Up(d, u), tr.nil);
    c' := c.(right := u);
  }

  lemma TurnedRb(c: Ctx, t: Tree, h: nat)
    requires CtxRb(c, h + 1) && c.InLeft? && c.right.Node? && c.right.color == Black && IsBlack(c.right.right)
    requires c.right.left.Node? && c.right.left.color == Red
    ensures var r := c.right;
      CtxRb(c.(right := Node(Black, r.left.left, r.left.node, Node(Red, r.left.right, r.node, r.right))), h + 1)
  {
    var r := c.right;
    assert Rb(r, h + 1) && Rb(r.left, h);
    assert Rb(Node(Red, r.left.right, r.node, r.right), h);
  }

  /** Only the inner nephew red: it becomes the sibling, with a red child outside. */
  method TurnSibling(tr: RbRoot, r: RbNode, q: RbNode, ghost c: Ctx, ghost t: Tree, ghost h: nat)
    returns (ghost c': Ctx)
    requires tr.At(c, t) && CtxRb(c, h + 1) && c.InLeft?
    requires c.right.Node? && r == c.right.node && c.right.color == Black && IsBlack(c.right.right)
    requires c.right.left.Node? && c.right.left.color == Red && q == c.right.left.node
    modifies tr`root, tr.nodes
    ensures tr.At(c', t) && CtxRb(c', h + 1) && c'.InLeft? && c'.node == c.node && c'.up == c.up
    ensures c'.right.Node? && c'.right.color == Black && c'.right.right.Node? && c'.right.right.color == Red
  {
    TurnedRb(c, t, h);
    c' := PaintInner(tr, q, Black, c, t);
    c' := PaintSibling(tr, r, Red, c', t);
    c' := RotateSibling(tr, r, c', t);
  }

  lemma SettledRb(c: Ctx, t: Tree, h: nat)
    requires c.InLeft? && CtxRb(c, h + 1) && Rb(t, h)
    requires c.right.Node? && c.right.color == Black && c.right.right.Node? && c.right.right.color == Red
    ensures var up := InLeft(c.color, c.up, c.right.node, c.right.right.(color := Black));
      CtxRb(InLeft(Black, up, c.node, c.right.left), h)
  {
    var r := c.right;
    assert Rb(r, h + 1) && Rb(r.left, h) && Rb(r.right, h);
    assert Rb(r.right.(color := Black), h + 1);
    assert CtxRb(InLeft(c.color, c.up, r.node, r.right.(color := Black)), h + 1);
  }

  /** Outer nephew red: one rotation makes up for the missing black node. */
  method Settle(tr: RbRoot, p: RbNode, r: RbNode, q: RbNode, ghost c: Ctx, ghost t: Tree, ghost h: nat)
      returns (ghost c': Ctx)
    requires tr.At(c, t) && CtxRb(c, h + 1) && Rb(t, h) && c.InLeft? && p == c.node
    requires c.right.Node? && c.right.color == Black && r == c.right.node
    requires c.right.right.Node? && c.right.right.color == Red && q == c.right.right.node
    modifies tr`root, tr.nodes
    ensures tr.At(c', t) && CtxRb(c', h) && CtxColor(c') == Black && !c'.Top?
  {
    SettledRb(c, t, h);
    assert tr.Memory()[p].color == c.color;
    c' := PaintSibling(tr, r, p.color, c, t);
    c' := PaintAbove(tr, p, Black, c', t);
    c' := PaintOuter(tr, q, Black, c', t);
    c' := RotateAbove(tr, p, c', t);
  }

  /** What memory says about the sibling and its children. */
  lemma SiblingCells(m: Mem, root: RbNode, c: Ctx, t: Tree, nil: RbNode)
    requires Rep(m, root, c, t, nil) && c.InLeft? && c.right.Node?
    ensures var r := c.right;
      && c.node in m && m[c.node].right == r.node && m[c.node].left == Ptr(t, nil)
      && r.node in m && m[r.node] == Cell(r.color, c.node, Ptr(r.left, nil), Ptr(r.right, nil))
      && (r.left.Node? ==> r.left.node in m && m[r.left.node].color == r.left.color)
      && (r.right.Node? ==> r.right.node in m && m[r.right.node].color == r.right.color)
  {
    var r := c.right;
    assert IsTree(m, r, c.node, nil);
    assert IsTree(m, r.left, r.node, nil) && IsTree(m, r.right, r.node, nil);
  }

  lemma SiblingIsNode(c: Ctx, h: nat)
    requires c.InLeft? && CtxRb(c, h + 1)
    ensures c.right.Node?
  {
    assert Rb(c.right, h + 1);
  }

  /** Makes sure that the outer nephew is red when at least one nephew is. */
  method Outward(tr: RbRoot, p: RbNode, r0: RbNode, ghost c0: Ctx, ghost t0: Tree, ghost h0: nat)
      returns (r: RbNode, ghost c: Ctx)
    requires tr.At(c0, t0) && SentinelOk(tr.nil) && CtxRb(c0, h0 + 1)
    requires c0.InLeft? && p == c0.node && c0.right.Node? && c0.right.color == Black && r0 == c0.right.node
    requires !IsBlack(c0.right.left) || !IsBlack(c0.right.right)
    modifies tr`root, tr.nodes
    ensures tr.At(c, t0) && CtxRb(c, h0 + 1) && c.InLeft? && c.node == p
    ensures c.right.Node? && c.right.color == Black && r == c.right.node
    ensures c.right.right.Node? && c.right.right.color == Red && r.right == c.right.right.node
  {
    SiblingCells(tr.Memory(), tr.root, c0, t0, tr.nil);
    r, c := r0, c0;
    if r.right.color == Black {
      c := TurnSibling(tr, r, r.left, c0, t0, h0);
      SiblingCells(tr.Memory(), tr.root, c, t0, tr.nil);
      r := p.right;
    }
  }

  /** A red nephew: the shortage is settled and x goes to the root. */
  method Balance(tr: RbRoot, p: RbNode, r0: RbNode, ghost c0: Ctx, ghost t0: Tree, ghost h0: nat)
      returns (x: RbNode, ghost t: Tree, ghost h: nat)
    requires tr.At(c0, t0) && SentinelOk(tr.nil) && Rb(t0, h0) && CtxRb(c0, h0 + 1)
    requires c0.InLeft? && p == c0.node && c0.right.Node? && c0.right.color == Black && r0 == c0.right.node
    requires !IsBlack(c0.right.left) || !IsBlack(c0.right.right)
    modifies tr`root, tr.nodes
    ensures tr.At(Top, t) && t.Node? && x == t.node && Rb(t, h)
  {
    ghost var c;
    var r;
    r, c := Outward(tr, p, r0, c0, t0, h0);
    c := Settle(tr, p, r, r.right, c, t0, h0);
    t, h := Whole(tr.Memory(), tr.root, c, t0, h0, tr.nil);
    x := tr.root;
  }

  /** A round once the sibling is black. */
  method StepBlack(tr: RbRoot, p: RbNode, r: RbNode, ghost c0: Ctx, ghost t0: Tree, ghost h0: nat)
      returns (x: RbNode, ghost c: Ctx, ghost t: Tree, ghost h: nat)
    requires tr.At(c0, t0) && SentinelOk(tr.nil) && Rb(t0, h0) && CtxRb(c0, h0 + 1)
    requires c0.InLeft? && p == c0.node && c0.right.Node? && c0.right.color == Black && r == c0.right.node
    modifies tr`root, tr.nodes
    ensures tr.At(c, t) && t.Node? && x == t.node && Almost(t, h) && CtxRb(c, h + 1)
    ensures c.Top? || (c == c0.up && t.color == c0.color)
  {
    SiblingCells(tr.Memory(), tr.root, c0, t0, tr.nil);
    if r.left.color == Black && r.right.color == Black {
      t, h := Redden(tr, r, c0, t0, h0);
      x, c := p, c0.up;
    } else {
      x, t, h := Balance(tr, p, r, c0, t0, h0);
      c := Top;
    }
  }

  /** Makes sure that the sibling is black. */
  method Lower(tr: RbRoot, p: RbNode, ghost c0: Ctx, ghost t0: Tree, ghost h0: nat)
      returns (r: RbNode, ghost c: Ctx)
    requires tr.At(c0, t0) && SentinelOk(tr.nil) && CtxRb(c0, h0 + 1) && c0.InLeft? && p == c0.node
    modifies tr`root, tr.nodes
    ensures tr.At(c, t0) && CtxRb(c, h0 + 1) && c.InLeft? && c.node == p
    ensures c.right.Node? && c.right.color == Black && r == c.right.node
    ensures c == c0 || c.color == Red
  {
    SiblingIsNode(c0, h0);
    SiblingCells(tr.Memory(), tr.root, c0, t0, tr.nil);
    r, c := p.right, c0;
    if r.color == Red {
      c := RaiseRed(tr, p, r, c, t0, h0);
      SiblingIsNode(c, h0);
      SiblingCells(tr.Memory(), tr.root, c, t0, tr.nil);
      r := p.right;
    }
  }

  /** One round with x on the left of its parent. */
  method Step(tr: RbRoot, x0: RbNode, ghost c0: Ctx, ghost t0: Tree, ghost h0: nat)
      returns (x: RbNode, ghost c: Ctx, ghost t: Tree, ghost h: nat)
    requires Short(tr, x0, c0, t0, h0) && IsBlack(t0) && c0.InLeft?
    modifies tr`root, tr.nodes
    ensures Short(tr, x, c, t, h) && Rounds(c, t) < Rounds(c0, t0)
  {
    var p := x0.parent;
    var r;
    r, c := Lower(tr, p, c0, t0, h0);
    x, c, t, h := StepBlack(tr, p, r, c, t0, h0);
    Above(tr.Memory(), tr.root, c, t, tr.nil);
  }
}
