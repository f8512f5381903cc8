/** The shortage of one black node that a deletion leaves behind. */
module RbShort {
  import opened RbShape
  import opened RbRotate

  /** A red-black tree of black height h, except that a red root may have red children. */
  ghost predicate Almost(t: Tree, h: nat) {
    || Rb(t, h)
    || (t.Node? && t.color == Red && Rb(t.left, h) && Rb(t.right, h))
  }

  /** Subtree t is one black node short of what its context c expects; x points to it. */
  ghost predicate Short(tr: RbRoot, x: RbNode, c: Ctx, t: Tree, h: nat)
    reads tr`nodes, tr`root, tr.nodes, tr.nil
  {
    && tr.At(c, t) && x == Ptr(t, tr.nil) && x.parent == CtxPtr(c, tr.nil) && SentinelOk(tr.nil)
    && Almost(t, h) && CtxRb(c, h + 1)
  }

  /** How many rounds may follow: none once x is the root or red. */
  ghost function Rounds(c: Ctx, t: Tree): nat {
    if c.Top? || !IsBlack(t) then 0 else Depth(c)
  }

  /** Painting the node just above the hole. */
  method PaintAbove(tr: RbRoot, p: RbNode, col: Color, ghost c: Ctx, ghost t: Tree) returns (ghost c': Ctx)
    requires tr.At(c, t) && !c.Top? && p == c.node
    modifies tr.nodes
    ensures c' == c.(color := col) && tr.At(c', t)
  {
    MoveUp(tr.Memory(), tr.root, c, t, tr.nil);
    ghost var s := Up(c, t);
    SetColor(tr, p, col, c.up, s);
    MoveDown(tr.Memory(), tr.root, c.up, s.(color := col), tr.nil);
    c' := c.(color := col);
  }

  /** The whole tree, once the shortage is made up for. */
  lemma Whole(m: Mem, root: RbNode, c: Ctx, t: Tree, h: nat, nil: RbNode) returns (s: Tree, k: nat)
    requires Rep(m, root, c, t, nil) && CtxRb(c, h) && Rb(t, h) && CtxColor(c) == Black && !c.Top?
    ensures Rep(m, root, Top, s, nil) && Nodes(s) == CtxNodes(c) + Nodes(t)
    ensures s.Node? && root == s.node && Rb(s, k) && IsBlack(s)
  {
    MoveToTop(m, root, c, t, nil);
    PlugNode(c, t);
    s := Plug(c, t);
    k := PlugRb(c, t, h);
  }
}
