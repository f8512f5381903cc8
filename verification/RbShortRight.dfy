/** Repairing a shortage on the right of its parent: the mirror image of RbShortLeft. */
module RbShortRight {
  import opened RbShape
  import opened RbRotate
  import opened RbShort

  /** Painting the sibling, to the left of the hole. */
  method PaintSibling(tr: RbRoot, r: RbNode, col: Color, ghost c: Ctx, ghost t: Tree) returns (ghost c': Ctx)
    requires tr.At(c, t) && c.InRight? && c.left.Node? && r == c.left.node
    modifies tr.nodes
    ensures c' == InRight(c.color, Node(col, c.left.left, c.left.node, c.left.right), c.node, c.up) && tr.At(c', t)
  {
    MoveUp(tr.Memory(), tr.root, c, t, tr.nil);
    ghost var s := Up(c, t);
    MoveDown(tr.Memory(), tr.root, c.up, s, tr.nil);
    SetColor(tr, r, col, DownLeft(c.up, s), c.left);
    MoveUp(tr.Memory(), tr.root, DownLeft(c.up, s), c.left.(color := col), tr.nil);
    s := Up(DownLeft(c.up, s), c.left.(color := col));
    MoveDown(tr.Memory(), tr.root, c.up, s, tr.nil);
    c' := DownRight(c.up, s);
  }

  /** Rotating the parent of the hole to the right: the sibling's inner subtree becomes the sibling. */
  method RotateAbove(tr: RbRoot, p: RbNode, ghost c: Ctx, ghost t: Tree) returns (ghost c': Ctx)
    requires tr.At(c, t) && c.InRight? && p == c.node && c.left.Node?
    modifies tr`root, tr.nodes
    ensures c' == InRight(c.color, c.left.right, p, InRight(c.left.color, c.left.left, c.left.node, c.up))
    ensures tr.At(c', t)
  {
    MoveUp(tr.Memory(), tr.root, c, t, tr.nil);
    RotateRight(tr, p, c.up, Up(c, t));
    ghost var s := RotatedRight(Up(c, t));
    MoveDown(tr.Memory(), tr.root, c.up, s, tr.nil);
    MoveDown(tr.Memory(), tr.root, DownRight(c.up, s), s.right, tr.nil);
    c' := DownRight(DownRight(c.up, s), s.right);
  }

  /** A red sibling is rotated above the parent, which turns red. */
  method RaiseRed(tr: RbRoot, p: RbNode, r: RbNode, ghost c: Ctx, ghost t: Tree, ghost h: nat) returns (ghost c': Ctx)
    requires tr.At(c, t) && CtxRb(c, h + 1) && c.InRight? && p == c.node
    requires c.left.Node? && c.left.color == Red && r == c.left.node
    modifies tr`root, tr.nodes
    ensures tr.At(c', t) && CtxRb(c', h + 1) && c'.InRight? && c'.node == p && IsBlack(c'.left) && c'.color == Red
  {
    c' := PaintSibling(tr, r, Black, c, t);
    c' := PaintAbove(tr, p, Red, c', t);
    c' := RotateAbove(tr, p, c', t);
  }

  /** Both nephews black: the sibling turns red and the shortage moves to the parent. */
  method Redden(tr: RbRoot, r: RbNode, ghost c: Ctx, ghost t: Tree, ghost h: nat) returns (ghost s: Tree, ghost k: nat)
    requires tr.At(c, t) && CtxRb(c, h + 1) && Rb(t, h) && c.InRight?
    requires c.left.Node? && r == c.left.node && c.left.color == Black && IsBlack(c.left.right) && IsBlack(c.left.left)
    modifies tr.nodes
    ensures s.Node? && s.node == c.node && s.color == c.color && tr.At(c.up, s) && Almost(s, k) && CtxRb(c.up, k + 1)
  {
    ghost var c' := PaintSibling(tr, r, Red, c, t);
    MoveUp(tr.Memory(), tr.root, c', t, tr.nil);
    s, k := Up(c', t), if c.color == Black then h + 1 else h;
  }

  /** Painting the inner and the outer nephew. */
  method PaintInner(tr: RbRoot, q: RbNode, col: Color, ghost c: Ctx, ghost t: Tree) returns (ghost c': Ctx)
    requires tr.At(c, t) && c.InRight? && c.left.Node? && c.left.right.Node? && q == c.left.right.node
    modifies tr.nodes
    ensures var r := c.left; var q := r.right;
      c' == InRight(c.color, Node(r.color, r.left, r.node, Node(col, q.left, q.node, q.right)), c.node, c.up)
    ensures tr.At(c', t)
  {
    MoveUp(tr.Memory(), tr.root, c, t, tr.nil);
    ghost var s := Up(c, t);
    MoveDown(tr.Memory(), tr.root, c.up, s, tr.nil);
    ghost var d := DownLeft(c.up, s);
    MoveDown(tr.Memory(), tr.root, d, c.left, tr.nil);
    SetColor(tr, q, col, DownRight(d, c.left), c.left.right);
    ghost var u := c.left.(right := c.left.right.(color := col));
    MoveUp(tr.Memory(), tr.root, DownRight(d, c.left), c.left.right.(color := col), tr.nil);
    MoveUp(tr.Memory(), tr.root, d, u, tr.nil);
    MoveDown(tr.Memory(), tr.root, c.up, Up(d, u), tr.nil);
    c' := c.(left := u);
  }

  method PaintOuter(tr: RbRoot, q: RbNode, col: Color, ghost c: Ctx, ghost t: Tree) returns (ghost c': Ctx)
    requires tr.At(c, t) && c.InRight? && c.left.Node? && c.left.left.Node? && q == c.left.left.node
    modifies tr.nodes
    ensures var r := c.left; var q := r.left;
      c' == InRight(c.color, Node(r.color, Node(col, q.left, q.node, q.right), r.node, r.right), c.node, c.up)
    ensures tr.At(c', t)
  {
    MoveUp(tr.Memory(), tr.root, c, t, tr.nil);
    ghost var s := Up(c, t);
    MoveDown(tr.Memory(), tr.root, c.up, s, tr.nil);
    ghost var d := DownLeft(c.up, s);
    MoveDown(tr.Memory(), tr.root, d, c.left, tr.nil);
    SetColor(tr, q, col, DownLeft(d, c.left), c.left.left);
    ghost var u := c.left.(left := c.left.left.(color := col));
    MoveUp(tr.Memory(), tr.root, DownLeft(d, c.left), c.left.left.(color := col), tr.nil);
    MoveUp(tr.Memory(), tr.root, d, u, tr.nil);
    MoveDown(tr.Memory(), tr.root, c.up, Up(d, u), tr.nil);
    c' := c.(left := u);
  }

  method RotateSibling(tr: RbRoot, r: RbNode, ghost c: Ctx, ghost t: Tree) returns (ghost c': Ctx)
    requires tr.At(c, t) && c.InRight? && c.left.Node? && c.left.right.Node? && r == c.left.node
    modifies tr`root, tr.nodes
    ensures c' == InRight(c.color, RotatedLeft(c.left), c.node, c.up) && tr.At(c', t)
  {
    MoveUp(tr.Memory(), tr.root, c, t, tr.nil);
    ghost var d, u := DownLeft(c.up, Up(c, t)), RotatedLeft(c.left);
    MoveDown(tr.Memory(), tr.root, c.up, Up(c, t), tr.nil);
    RotateLeft(tr, r, d, c.left);
    MoveUp(tr.Memory(), tr.root, d, u, tr.nil);
    MoveDown(tr.Memory(), tr.root, c.up, Up(d, u), tr.nil);
    c' := c.(left := u);
  }

  lemma TurnedRb(c: Ctx, t: Tree, h: nat)
    requires CtxRb(c, h + 1) && c.InRight? && c.left.Node? && c.left.color == Black && IsBlack(c.left.left)
    requires c.left.right.Node? && c.left.right.color == Red
    ensures var r := c.left;
      CtxRb(c.(left := Node(Black, Node(Red, r.left, r.node, r.right.left), r.right.node, r.right.right)), h + 1)
  {
    var r := c.left;
    assert Rb(r, h + 1) && Rb(r.right, h);
    assert Rb(Node(Red, r.left, r.node, r.right.left), h);
  }

  /** Only the inner nephew red: it becomes the sibling, with a red child outside. */
  method TurnSibling(tr: RbRoot, r: RbNode, q: RbNode, ghost c: Ctx, ghost t: Tree, ghost h: nat)
    returns (ghost c': Ctx)
    requires tr.At(c, t) && CtxRb(c, h + 1) && c.InRight?
    requires c.left.Node? && r == c.left.node && c.left.color == Black && IsBlack(c.left.left)
    requires c.left.right.Node? && c.left.right.color == Red && q == c.left.right.node
    modifies tr`root, tr.nodes
    ensures tr.At(c', t) && CtxRb(c', h + 1) && c'.InRight? && c'.node == c.node && c'.up == c.up
    ensures c'.left.Node? && c'.left.color == Black && c'.left.left.Node? && c'.left.left.color == Red
  {
    TurnedRb(c, t, h);
    c' := PaintInner(tr, q, Black, c, t);
    c' := PaintSibling(tr, r, Red, c', t);
    c' := RotateSibling(tr, r, c', t);
  }

  lemma SettledRb(c: Ctx, t: Tree, h: nat)
    requires c.InRight? && CtxRb(c, h + 1) && Rb(t, h)
    requires c.left.Node? && c.left.color == Black && c.left.left.Node? && c.left.left.color == Red
    ensures var up := InRight(c.color, c.left.left.(color := Black), c.left.node, c.up);
      CtxRb(InRight(Black, c.left.right, c.node, up), h)
  {
    var r := c.left;
    assert Rb(r, h + 1) && Rb(r.right, h) && Rb(r.left, h);
    assert Rb(r.left.(color := Black), h + 1);
    assert CtxRb(InRight(c.color, r.left.(color := Black), r.node, c.up), h + 1);
  }

  /** Outer nephew red: one rotation makes up for the missing black node. */
  method Settle(tr: RbRoot, p: RbNode, r: RbNode, q: RbNode, ghost c: Ctx, ghost t: Tree, ghost h: nat)
      returns (ghost c': Ctx)
    requires tr.At(c, t) && CtxRb(c, h + 1) && Rb(t, h) && c.InRight? && p == c.node
    requires c.left.Node? && c.left.color == Black && r == c.left.node
    requires c.left.left.Node? && c.left.left.color == Red && q == c.left.left.node
    modifies tr`root, tr.nodes
    ensures tr.At(c', t) && CtxRb(c', h) && CtxColor(c') == Black && !c'.Top?
  {
    SettledRb(c, t, h);
    assert tr.Memory()[p].color == c.color;
    c' := PaintSibling(tr, r, p.color, c, t);
    c' := PaintAbove(tr, p, Black, c', t);
    c' := PaintOuter(tr, q, Black, c', t);
    c' := RotateAbove(tr, p, c', t);
  }

  /** What memory says about the sibling and its children. */
  lemma SiblingCells(m: Mem, root: RbNode, c: Ctx, t: Tree, nil: RbNode)
    requires Rep(m, root, c, t, nil) && c.InRight? && c.left.Node?
    ensures var r := c.left;
      && c.node in m && m[c.node].left == r.node && m[c.node].right == Ptr(t, nil)
      && r.node in m && m[r.node] == Cell(r.color, c.node, Ptr(r.left, nil), Ptr(r.right, nil))
      && (r.right.Node? ==> r.right.node in m && m[r.right.node].color == r.right.color)
      && (r.left.Node? ==> r.left.node in m && m[r.left.node].color == r.left.color)
  {
    var r := c.left;
    assert IsTree(m, r, c.node, nil);
    assert IsTree(m, r.right, r.node, nil) && IsTree(m, r.left, r.node, nil);
  }

  lemma SiblingIsNode(c: Ctx, h: nat)
    requires c.InRight? && CtxRb(c, h + 1)
    ensures c.left.Node?
  {
    assert Rb(c.left, h + 1);
  }

  /** Makes sure that the outer nephew is red when at least one nephew is. */
  method Outward(tr: RbRoot, p: RbNode, r0: RbNode, ghost c0: Ctx, ghost t0: Tree, ghost h0: nat)
      returns (r: RbNode, ghost c: Ctx)
    requires tr.At(c0, t0) && SentinelOk(tr.nil) && CtxRb(c0, h0 + 1)
    requires c0.InRight? && p == c0.node && c0.left.Node? && c0.left.color == Black && r0 == c0.left.node
    requires !IsBlack(c0.left.right) || !IsBlack(c0.left.left)
    modifies tr`root, tr.nodes
    ensures tr.At(c, t0) && CtxRb(c, h0 + 1) && c.InRight? && c.node == p
    ensures c.left.Node? && c.left.color == Black && r == c.left.node
    ensures c.left.left.Node? && c.left.left.color == Red && r.left == c.left.left.node
  {
    SiblingCells(tr.Memory(), tr.root, c0, t0, tr.nil);
    r, c := r0, c0;
    if r.left.color == Black {
      c := TurnSibling(tr, r, r.right, c0, t0, h0);
      SiblingCells(tr.Memory(), tr.root, c, t0, tr.nil);
      r := p.left;
    }
  }

  /** A red nephew: the shortage is settled and x goes to the root. */
  method Balance(tr: RbRoot, p: RbNode, r0: RbNode, ghost c0: Ctx, ghost t0: Tree, ghost h0: nat)
      returns (x: RbNode, ghost t: Tree, ghost h: nat)
    requires tr.At(c0, t0) && SentinelOk(tr.nil) && Rb(t0, h0) && CtxRb(c0, h0 + 1)
    requires c0.InRight? && p == c0.node && c0.left.Node? && c0.left.color == Black && r0 == c0.left.node
    requires !IsBlack(c0.left.right) || !IsBlack(c0.left.left)
    modifies tr`root, tr.nodes
    ensures tr.At(Top, t) && t.Node? && x == t.node && Rb(t, h)
  {
    ghost var c;
    var r;
    r, c := Outward(tr, p, r0, c0, t0, h0);
    c := Settle(tr, p, r, r.left, c, t0, h0);
    t, h := Whole(tr.Memory(), tr.root, c, t0, h0, tr.nil);
    x := tr.root;
  }

  /** A round once the sibling is black. */
  method StepBlack(tr: RbRoot, p: RbNode, r: RbNode, ghost c0: Ctx, ghost t0: Tree, ghost h0: nat)
      returns (x: RbNode, ghost c: Ctx, ghost t: Tree, ghost h: nat)
    requires tr.At(c0, t0) && SentinelOk(tr.nil) && Rb(t0, h0) && CtxRb(c0, h0 + 1)
    requires c0.InRight? && p == c0.node && c0.left.Node? && c0.left.color == Black && r == c0.left.node
    modifies tr`root, tr.nodes
    ensures tr.At(c, t) && t.Node? && x == t.node && Almost(t, h) && CtxRb(c, h + 1)
    ensures c.Top? || (c == c0.up && t.color == c0.color)
  {
    SiblingCells(tr.Memory(), tr.root, c0, t0, tr.nil);
    if r.right.color == Black && r.left.color == Black {
      t, h := Redden(tr, r, c0, t0, h0);
      x, c := p, c0.up;
    } else {
      x, t, h := Balance(tr, p, r, c0, t0, h0);
      c := Top;
    }
  }

  /** Makes sure that the sibling is black. */
  method Lower(tr: RbRoot, p: RbNode, ghost c0: Ctx, ghost t0: Tree, ghost h0: nat)
      returns (r: RbNode, ghost c: Ctx)
    requires tr.At(c0, t0) && SentinelOk(tr.nil) && CtxRb(c0, h0 + 1) && c0.InRight? && p == c0.node
    modifies tr`root, tr.nodes
    ensures tr.At(c, t0) && CtxRb(c, h0 + 1) && c.InRight? && c.node == p
    ensures c.left.Node? && c.left.color == Black && r == c.left.node
    ensures c == c0 || c.color == Red
  {
    SiblingIsNode(c0, h0);
    SiblingCells(tr.Memory(), tr.root, c0, t0, tr.nil);
    r, c := p.left, c0;
    if r.color == Red {
      c := RaiseRed(tr, p, r, c, t0, h0);
      SiblingIsNode(c, h0);
      SiblingCells(tr.Memory(), tr.root, c, t0, tr.nil);
      r := p.left;
    }
  }

  /** One round with x on the right of its parent. */
  method Step(tr: RbRoot, x0: RbNode, ghost c0: Ctx, ghost t0: Tree, ghost h0: nat)
      returns (x: RbNode, ghost c: Ctx, ghost t: Tree, ghost h: nat)
    requires Short(tr, x0, c0, t0, h0) && IsBlack(t0) && c0.InRight?
    modifies tr`root, tr.nodes
    ensures Short(tr, x, c, t, h) && Rounds(c, t) < Rounds(c0, t0)
  {
    var p := x0.parent;
    var r;
    r, c := Lower(tr, p, c0, t0, h0);
    x, c, t, h := StepBlack(tr, p, r, c, t0, h0);
    Above(tr.Memory(), tr.root, c, t, tr.nil);
  }
}
