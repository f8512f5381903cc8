/** Nodes, root cells and the ghost shapes used to reason about the in-place red-black tree. */
module RbShape {

  datatype Color = Black | Red

  /** A tree node; `key` is fixed before the node is linked into a tree. */
  class RbNode {
    const key: int
    var color: Color
    var parent: RbNode
    var left: RbNode
    var right: RbNode

    constructor (key: int)
      ensures this.key == key && color == Black && parent == left == right == this
    {
      this.key := key;
      color := Black;
      parent, left, right := this, this, this;
    }
  }

  const MIN_INT := -0x8000_0000
  const MAX_INT := 0x7fff_ffff

  // ----- shapes -----

  datatype Tree =
    | Leaf
    | Node(color: Color, left: Tree, node: RbNode, right: Tree)

  /** A tree with one subtree missing: the path from that hole up to the root. */
  datatype Ctx =
    | Top
    | InLeft(color: Color, up: Ctx, node: RbNode, right: Tree)
    | InRight(color: Color, left: Tree, node: RbNode, up: Ctx)

  ghost function Nodes(t: Tree): set<RbNode> {
    match t
    case Leaf => {}
    case Node(_, l, n, r) => Nodes(l) + {n} + Nodes(r)
  }

  ghost function CtxNodes(c: Ctx): set<RbNode> {
    match c
    case Top => {}
    case InLeft(_, up, n, r) => CtxNodes(up) + {n} + Nodes(r)
    case InRight(_, l, n, up) => Nodes(l) + {n} + CtxNodes(up)
  }

  ghost function Plug(c: Ctx, t: Tree): Tree {
    match c
    case Top => t
    case InLeft(col, up, n, r) => Plug(up, Node(col, t, n, r))
    case InRight(col, l, n, up) => Plug(up, Node(col, l, n, t))
  }

  ghost function DownLeft(c: Ctx, t: Tree): Ctx
    requires t.Node?
  {
    InLeft(t.color, c, t.node, t.right)
  }

  ghost function DownRight(c: Ctx, t: Tree): Ctx
    requires t.Node?
  {
    InRight(t.color, t.left, t.node, c)
  }

  /** Keys are strictly increasing in-order and lie strictly between lo and hi. */
  ghost predicate Sorted(t: Tree, lo: int, hi: int) {
    match t
    case Leaf => true
    case Node(_, l, n, r) => lo < n.key < hi && Sorted(l, lo, n.key) && Sorted(r, n.key, hi)
  }

  /** The open interval of keys that may fill the hole. */
  ghost function Lo(c: Ctx): int {
    match c
    case Top => MIN_INT - 1
    case InLeft(_, up, _, _) => Lo(up)
    case InRight(_, _, n, _) => n.key
  }

  ghost function Hi(c: Ctx): int {
    match c
    case Top => MAX_INT + 1
    case InLeft(_, _, n, _) => n.key
    case InRight(_, _, _, up) => Hi(up)
  }

  ghost predicate CtxSorted(c: Ctx) {
    match c
    case Top => true
    case InLeft(_, up, n, r) => CtxSorted(up) && Lo(up) < n.key < Hi(up) && Sorted(r, n.key, Hi(up))
    case InRight(_, l, n, up) => CtxSorted(up) && Lo(up) < n.key < Hi(up) && Sorted(l, Lo(up), n.key)
  }

  lemma SortedKeys(t: Tree, lo: int, hi: int)
    requires Sorted(t, lo, hi)
    ensures forall n :: n in Nodes(t) ==> lo < n.key < hi
  {
  }

  lemma CtxKeys(c: Ctx)
    requires CtxSorted(c)
    ensures Lo(c) < Hi(c)
    ensures forall n :: n in CtxNodes(c) ==> n.key <= Lo(c) || Hi(c) <= n.key
  {
    match c
    case Top =>
    case InLeft(_, up, n, r) => CtxKeys(up); SortedKeys(r, n.key, Hi(up));
    case InRight(_, l, n, up) => CtxKeys(up); SortedKeys(l, Lo(up), n.key);
  }

  /** Subtree t fits context c: all keys distinct and ordered, the sentinel is no member. */
  ghost predicate Placed(c: Ctx, t: Tree, nil: RbNode) {
    && CtxSorted(c) && Sorted(t, Lo(c), Hi(c))
    && nil !in Nodes(t) && nil !in CtxNodes(c)
  }

  /** Moving the focus down one level; the parts are disjoint because their keys are. */
  lemma Down(c: Ctx, t: Tree, nil: RbNode)
    requires Placed(c, t, nil)
    ensures Nodes(t) !! CtxNodes(c)
    ensures t.Node? ==> Placed(DownLeft(c, t), t.left, nil) && Nodes(t.left) !! CtxNodes(DownLeft(c, t))
    ensures t.Node? ==> Placed(DownRight(c, t), t.right, nil) && Nodes(t.right) !! CtxNodes(DownRight(c, t))
  {
    SortedKeys(t, Lo(c), Hi(c));
    CtxKeys(c);
    if t.Node? {
      SortedKeys(t.left, Lo(c), t.node.key);
      SortedKeys(t.right, t.node.key, Hi(c));
    }
  }

  // ----- memory -----

  datatype Cell = Cell(color: Color, parent: RbNode, left: RbNode, right: RbNode)

  type Mem = map<RbNode, Cell>

  ghost function CellOf(n: RbNode): Cell
    reads n
  {
    Cell(n.color, n.parent, n.left, n.right)
  }

  ghost function Ptr(t: Tree, nil: RbNode): RbNode {
    if t.Leaf? then nil else t.node
  }

  ghost function CtxPtr(c: Ctx, nil: RbNode): RbNode {
    if c.Top? then nil else c.node
  }

  /** The nodes of t are linked and coloured in m as t says, below parent p. */
  ghost predicate IsTree(m: Mem, t: Tree, p: RbNode, nil: RbNode) {
    match t
    case Leaf => true
    case Node(col, l, n, r) =>
      && n in m && m[n] == Cell(col, p, Ptr(l, nil), Ptr(r, nil))
      && IsTree(m, l, n, nil) && IsTree(m, r, n, nil)
  }

  /** The path c is linked and coloured in m as c says, with `hole` below it. */
  ghost predicate IsCtx(m: Mem, root: RbNode, c: Ctx, hole: RbNode, nil: RbNode) {
    match c
    case Top => root == hole
    case InLeft(col, up, n, r) =>
      && n in m && m[n] == Cell(col, CtxPtr(up, nil), hole, Ptr(r, nil))
      && IsTree(m, r, n, nil) && IsCtx(m, root, up, n, nil)
    case InRight(col, l, n, up) =>
      && n in m && m[n] == Cell(col, CtxPtr(up, nil), Ptr(l, nil), hole)
      && IsTree(m, l, n, nil) && IsCtx(m, root, up, n, nil)
  }

  ghost predicate Agree(m: Mem, w: Mem, ns: set<RbNode>) {
    forall n :: n in ns && n in m ==> n in w && w[n] == m[n]
  }

  lemma TreeFrame(m: Mem, w: Mem, t: Tree, p: RbNode, nil: RbNode)
    requires IsTree(m, t, p, nil) && Agree(m, w, Nodes(t))
    ensures IsTree(w, t, p, nil)
  {
    if t.Node? {
      assert IsTree(m, t.left, t.node, nil) && IsTree(m, t.right, t.node, nil);
      assert t.node in Nodes(t) && Nodes(t.left) <= Nodes(t) && Nodes(t.right) <= Nodes(t);
      TreeFrame(m, w, t.left, t.node, nil);
      TreeFrame(m, w, t.right, t.node, nil);
    }
  }

  lemma CtxFrame(m: Mem, w: Mem, root: RbNode, c: Ctx, hole: RbNode, nil: RbNode)
    requires IsCtx(m, root, c, hole, nil) && Agree(m, w, CtxNodes(c))
    ensures IsCtx(w, root, c, hole, nil)
  {
    match c
    case Top =>
    case InLeft(_, up, n, r) => TreeFrame(m, w, r, n, nil); CtxFrame(m, w, root, up, n, nil);
    case InRight(_, l, n, up) => TreeFrame(m, w, l, n, nil); CtxFrame(m, w, root, up, n, nil);
  }

  /** The memory below a root cell holds the tree Plug(c, t), with the focus on t. */
  ghost predicate Rep(m: Mem, root: RbNode, c: Ctx, t: Tree, nil: RbNode) {
    && Placed(c, t, nil)
    && IsTree(m, t, CtxPtr(c, nil), nil)
    && IsCtx(m, root, c, Ptr(t, nil), nil)
  }

  // ----- colours -----

  ghost predicate IsBlack(t: Tree) {
    t.Node? ==> t.color == Black
  }

  /** Red-black tree of black height h: no red node has a red child, all paths have h black nodes. */
  ghost predicate Rb(t: Tree, h: nat) {
    match t
    case Leaf => h == 0
    case Node(Red, l, _, r) => IsBlack(l) && IsBlack(r) && Rb(l, h) && Rb(r, h)
    case Node(Black, l, _, r) => h > 0 && Rb(l, h - 1) && Rb(r, h - 1)
  }

  /** The colour above a hole; the root of a tree counts as having a black parent. */
  ghost function CtxColor(c: Ctx): Color {
    if c.Top? then Black else c.color
  }

  /** A context that a red-black tree of black height h completes (black-rooted, below a red node). */
  ghost predicate CtxRb(c: Ctx, h: nat) {
    match c
    case Top => true
    case InLeft(Black, up, _, r) => Rb(r, h) && CtxRb(up, h + 1)
    case InRight(Black, l, _, up) => Rb(l, h) && CtxRb(up, h + 1)
    case InLeft(Red, up, _, r) => Rb(r, h) && IsBlack(r) && !up.Top? && up.color == Black && CtxRb(up, h)
    case InRight(Red, l, _, up) => Rb(l, h) && IsBlack(l) && !up.Top? && up.color == Black && CtxRb(up, h)
  }

  ghost function BlackHeight(t: Tree): nat {
    match t
    case Leaf => 0
    case Node(col, l, _, _) => BlackHeight(l) + if col == Black then 1 else 0
  }

  lemma RbBlackHeight(t: Tree, h: nat)
    requires Rb(t, h)
    ensures h == BlackHeight(t)
  {
  }

  /** Completing a context gives a red-black tree; away from the root its top node is black. */
  lemma PlugRb(c: Ctx, t: Tree, h: nat) returns (k: nat)
    requires CtxRb(c, h) && Rb(t, h) && (CtxColor(c) == Red ==> IsBlack(t))
    ensures Rb(Plug(c, t), k)
    ensures !c.Top? ==> IsBlack(Plug(c, t))
    decreases c
  {
    match c
    case Top => k := h;
    case InLeft(col, up, n, r) => k := PlugRb(up, Node(col, t, n, r), if col == Black then h + 1 else h);
    case InRight(col, l, n, up) => k := PlugRb(up, Node(col, l, n, t), if col == Black then h + 1 else h);
  }

  ghost function Depth(c: Ctx): nat {
    if c.Top? then 0 else 1 + Depth(c.up)
  }

  // ----- moving the focus -----

  ghost function Up(c: Ctx, t: Tree): Tree
    requires !c.Top?
  {
    if c.InLeft? then Node(c.color, t, c.node, c.right) else Node(c.color, c.left, c.node, t)
  }

  lemma MoveUp(m: Mem, root: RbNode, c: Ctx, t: Tree, nil: RbNode)
    requires Rep(m, root, c, t, nil) && !c.Top?
    ensures Rep(m, root, c.up, Up(c, t), nil)
    ensures CtxNodes(c) + Nodes(t) == CtxNodes(c.up) + Nodes(Up(c, t))
  {
  }

  lemma MoveDown(m: Mem, root: RbNode, c: Ctx, t: Tree, nil: RbNode)
    requires Rep(m, root, c, t, nil) && t.Node?
    ensures t.node in m && m[t.node] == Cell(t.color, CtxPtr(c, nil), Ptr(t.left, nil), Ptr(t.right, nil))
    ensures (Ptr(t.left, nil) == nil <==> t.left.Leaf?) && (Ptr(t.right, nil) == nil <==> t.right.Leaf?)
    ensures Rep(m, root, DownLeft(c, t), t.left, nil) && Rep(m, root, DownRight(c, t), t.right, nil)
    ensures CtxNodes(DownLeft(c, t)) + Nodes(t.left) == CtxNodes(c) + Nodes(t)
    ensures CtxNodes(DownRight(c, t)) + Nodes(t.right) == CtxNodes(c) + Nodes(t)
  {
    Down(c, t, nil);
    assert t.left.Node? ==> t.left.node in Nodes(t.left);
    assert t.right.Node? ==> t.right.node in Nodes(t.right);
  }

  lemma MoveToTop(m: Mem, root: RbNode, c: Ctx, t: Tree, nil: RbNode)
    requires Rep(m, root, c, t, nil)
    ensures Rep(m, root, Top, Plug(c, t), nil)
    ensures Nodes(Plug(c, t)) == CtxNodes(c) + Nodes(t)
    decreases c
  {
    if !c.Top? {
      MoveUp(m, root, c, t, nil);
      MoveToTop(m, root, c.up, Up(c, t), nil);
    }
  }

  lemma PlugNode(c: Ctx, t: Tree)
    requires !c.Top? || t.Node?
    ensures Plug(c, t).Node?
    decreases c
  {
    if !c.Top? { PlugNode(c.up, Up(c, t)); }
  }

  /** The cell at the focus, and the one above it. */
  lemma Above(m: Mem, root: RbNode, c: Ctx, t: Tree, nil: RbNode)
    requires Rep(m, root, c, t, nil) && t.Node?
    ensures t.node in m && m[t.node].parent == CtxPtr(c, nil)
    ensures !c.Top? ==> c.node != nil && c.node in m && m[c.node].color == c.color
  {
    assert !c.Top? ==> c.node in CtxNodes(c);
  }

  /** Tree t fits context c in height and colour. */
  ghost predicate Fits(c: Ctx, t: Tree, h: nat) {
    CtxRb(c, h) && Rb(t, h) && (CtxColor(c) == Red ==> IsBlack(t)) && (c.Top? ==> IsBlack(t))
  }

  ghost function DownHeight(t: Tree, h: nat): nat {
    if t.Node? && t.color == Black && h > 0 then h - 1 else h
  }

  lemma DownRb(c: Ctx, t: Tree, h: nat)
    requires Fits(c, t, h) && t.Node?
    ensures Fits(DownLeft(c, t), t.left, DownHeight(t, h)) && Fits(DownRight(c, t), t.right, DownHeight(t, h))
  {
  }

  /** The place of a node in the tree. */
  lemma Locate(m: Mem, root: RbNode, c: Ctx, t: Tree, h: nat, node: RbNode, nil: RbNode)
      returns (c': Ctx, t': Tree, h': nat)
    requires Rep(m, root, c, t, nil) && Fits(c, t, h) && node in Nodes(t)
    ensures Rep(m, root, c', t', nil) && Fits(c', t', h') && t'.Node? && t'.node == node
    ensures CtxNodes(c') + Nodes(t') == CtxNodes(c) + Nodes(t)
    decreases t
  {
    if t.node == node {
      c', t', h' := c, t, h;
    } else {
      MoveDown(m, root, c, t, nil);
      DownRb(c, t, h);
      if node in Nodes(t.left) {
        c', t', h' := Locate(m, root, DownLeft(c, t), t.left, DownHeight(t, h), node, nil);
      } else {
        c', t', h' := Locate(m, root, DownRight(c, t), t.right, DownHeight(t, h), node, nil);
      }
    }
  }

  /** The sentinel is black and its children are itself; its parent may be anything. */
  ghost predicate SentinelOk(nil: RbNode)
    reads nil
  {
    nil.color == Black && nil.left == nil && nil.right == nil
  }

  /** The root pointer, the sentinel that ends every path, and the nodes owned by the tree. */
  class RbRoot {
    const nil: RbNode
    var root: RbNode
    ghost var nodes: set<RbNode>
    ghost var shape: Tree

    constructor (nil: RbNode)
      requires SentinelOk(nil)
      ensures this.nil == nil && Valid() && nodes == {}
    {
      this.nil := nil;
      root := nil;
      nodes := {};
      shape := Leaf;
    }

    ghost function Memory(): Mem
      reads this`nodes, nodes
    {
      map n | n in nodes :: CellOf(n)
    }

    /** The tree in memory is Plug(c, t), seen with the focus on t. */
    ghost predicate At(c: Ctx, t: Tree)
      reads this`nodes, this`root, nodes
    {
      && nil !in nodes && nodes == CtxNodes(c) + Nodes(t)
      && Rep(Memory(), root, c, t, nil)
    }

    /** As At, but other nodes may be owned as well. */
    ghost predicate Near(c: Ctx, t: Tree)
      reads this`nodes, this`root, nodes
    {
      nil !in nodes && Rep(Memory(), root, c, t, nil)
    }

    ghost predicate Valid()
      reads this, nodes, nil
    {
      && At(Top, shape) && SentinelOk(nil)
      && Rb(shape, BlackHeight(shape)) && IsBlack(shape)
    }
  }

  lemma Repainted(m: Mem, w: Mem, root: RbNode, c: Ctx, t: Tree, col: Color, nil: RbNode)
    requires Rep(m, root, c, t, nil) && t.Node?
    requires t.node in m && w == m[t.node := m[t.node].(color := col)]
    ensures Rep(w, root, c, t.(color := col), nil)
  {
    Down(c, t, nil);
    TreeFrame(m, w, t.left, t.node, nil);
    TreeFrame(m, w, t.right, t.node, nil);
    CtxFrame(m, w, root, c, t.node, nil);
  }

  /** `n->color = col`, at the focus. */
  method SetColor(tr: RbRoot, n: RbNode, col: Color, ghost c: Ctx, ghost t: Tree)
    requires tr.At(c, t) && t.Node? && t.node == n
    modifies n
    ensures tr.At(c, t.(color := col))
  {
    ghost var m := tr.Memory();
    n.color := col;
    Repainted(m, tr.Memory(), tr.root, c, t, col, tr.nil);
  }

  /** Records that the tree is whole. */
  ghost method Close(tr: RbRoot, c: Ctx, t: Tree, h: nat)
    requires tr.At(c, t) && CtxRb(c, h) && Rb(t, h) && (CtxColor(c) == Red ==> IsBlack(t))
    requires c.Top? ==> IsBlack(t)
    requires SentinelOk(tr.nil)
    modifies tr`shape
    ensures tr.Valid()
  {
    MoveToTop(tr.Memory(), tr.root, c, t, tr.nil);
    var k := PlugRb(c, t, h);
    RbBlackHeight(Plug(c, t), k);
    tr.shape := Plug(c, t);
  }
}
