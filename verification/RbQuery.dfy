/** Searching and walking the tree: `rb_find`, `rb_min`, `rb_next`. */
module RbQuery {
  import opened Words
  import opened RbShape
  import opened RbRotate

  // ----- the smallest node of a subtree -----

  /** The way down to the leftmost node of r, from context d around r. */
  ghost function MinCtx(d: Ctx, r: Tree): Ctx
    requires r.Node?
    decreases r
  {
    if r.left.Leaf? then d else MinCtx(DownLeft(d, r), r.left)
  }

  ghost function MinTree(r: Tree): (y: Tree)
    requires r.Node?
    ensures y.Node? && y.left.Leaf?
  {
    if r.left.Leaf? then r else MinTree(r.left)
  }

  lemma MinDown(m: Mem, root: RbNode, d: Ctx, r: Tree, nil: RbNode)
    requires Rep(m, root, d, r, nil) && r.Node?
    ensures Rep(m, root, MinCtx(d, r), MinTree(r), nil)
    ensures CtxNodes(MinCtx(d, r)) + Nodes(MinTree(r)) == CtxNodes(d) + Nodes(r)
    decreases r
  {
    if r.left.Node? {
      MoveDown(m, root, d, r, nil);
      MinDown(m, root, DownLeft(d, r), r.left, nil);
    }
  }

  lemma LeftLink(m: Mem, t: Tree, p: RbNode, nil: RbNode)
    requires t.Node? && IsTree(m, t, p, nil) && nil !in Nodes(t)
    ensures t.node in m && m[t.node].left == Ptr(t.left, nil) && (t.left.Leaf? <==> Ptr(t.left, nil) == nil)
    ensures IsTree(m, t.left, t.node, nil) && nil !in Nodes(t.left)
  {
    assert t.left.Node? ==> t.left.node in Nodes(t.left);
  }

  /** `rb_min` of a non-empty subtree. */
  method Min(tr: RbRoot, start: RbNode, ghost d: Ctx, ghost r: Tree) returns (y: RbNode)
    requires tr.At(d, r) && r.Node? && start == r.node
    ensures tr.At(MinCtx(d, r), MinTree(r)) && y == MinTree(r).node
  {
    ghost var m, t, p := tr.Memory(), r, CtxPtr(d, tr.nil);
    MinDown(m, tr.root, d, r, tr.nil);
    y := start;
    LeftLink(m, t, p, tr.nil);
    while y.left != tr.nil
      invariant t.Node? && y == t.node && IsTree(m, t, p, tr.nil) && tr.nil !in Nodes(t)
      invariant MinTree(r) == MinTree(t)
      invariant y.left == Ptr(t.left, tr.nil) && (y.left == tr.nil <==> t.left.Leaf?)
      decreases t
    {
      LeftLink(m, t, p, tr.nil);
      t, p, y := t.left, y, y.left;
      LeftLink(m, t, p, tr.nil);
      assert CellOf(y) == m[y];
    }
  }

  lemma MinSmallest(t: Tree, lo: int, hi: int)
    requires Sorted(t, lo, hi) && t.Node?
    ensures MinTree(t).node in Nodes(t)
    ensures forall n :: n in Nodes(t) ==> MinTree(t).node.key <= n.key
  {
    if t.left.Node? {
      MinSmallest(t.left, lo, t.node.key);
    }
    SortedKeys(t.left, lo, t.node.key);
    SortedKeys(t.right, t.node.key, hi);
  }

  /** `rb_min` of the whole tree: the sentinel if it is empty. */
  method MinOf(tr: RbRoot) returns (y: RbNode)
    requires tr.Valid()
    ensures y == tr.nil <==> tr.nodes == {}
    ensures y != tr.nil ==> y in tr.nodes && forall n :: n in tr.nodes ==> y.key <= n.key
  {
    if tr.root == tr.nil {
      assert tr.root.left == tr.nil;
      y := tr.root;
    } else {
      y := Min(tr, tr.root, Top, tr.shape);
      MinSmallest(tr.shape, Lo(Top), Hi(Top));
    }
  }

  // ----- rb_find -----

  /** A tree of black height h has at least 2^h - 1 nodes. */
  lemma {:induction false} RbSize(t: Tree, h: nat, lo: int, hi: int)
    requires Rb(t, h) && Sorted(t, lo, hi)
    ensures |Nodes(t)| + 1 >= Pow2(h)
  {
    if t.Node? {
      SortedKeys(t.left, lo, t.node.key);
      SortedKeys(t.right, t.node.key, hi);
      RbSize(t.left, DownHeight(t, h), lo, t.node.key);
      RbSize(t.right, DownHeight(t, h), t.node.key, hi);
      assert |Nodes(t.left) + {t.node}| == |Nodes(t.left)| + 1;
      assert |Nodes(t)| == |Nodes(t.left)| + 1 + |Nodes(t.right)|;
    }
  }

  /** At most every other node on a path is red. */
  ghost predicate Shallow(c: Ctx, h: nat, whole: nat) {
    c.Top? || Depth(c) + 2 * h + 1 <= 2 * whole + (if c.color == Red then 1 else 0)
  }

  lemma DownShallow(c: Ctx, t: Tree, h: nat, whole: nat)
    requires Fits(c, t, h) && t.Node? && Shallow(c, h, whole) && (c.Top? ==> h == whole)
    ensures Shallow(DownLeft(c, t), DownHeight(t, h), whole)
    ensures Shallow(DownRight(c, t), DownHeight(t, h), whole)
  {
  }

  /** Within two rounds per black level, so within 2 * log2(n + 1). */
  lemma RoundsBound(tr: RbRoot, rounds: nat)
    requires tr.Valid() && rounds <= 2 * BlackHeight(tr.shape)
    ensures Pow2(rounds) <= (|tr.nodes| + 1) * (|tr.nodes| + 1)
  {
    var w := BlackHeight(tr.shape);
    RbSize(tr.shape, w, Lo(Top), Hi(Top));
    assert tr.nodes == Nodes(tr.shape);
    Pow2Mono(rounds, 2 * w);
    Pow2Add(w, w);
    Squares(Pow2(w), |tr.nodes| + 1);
  }

  lemma Squares(a: nat, b: nat)
    requires a <= b
    ensures a * a <= b * b
  {
    assert a * a <= a * b <= b * b;
  }

  /** The search has come to t: nothing it left behind has the key. */
  ghost predicate Seeking(m: Mem, root: RbNode, c: Ctx, t: Tree, h: nat, whole: nat, key: int, nil: RbNode) {
    && Rep(m, root, c, t, nil) && Fits(c, t, h) && Shallow(c, h, whole) && (c.Top? ==> h == whole)
    && forall n :: n in CtxNodes(c) ==> n.key != key
  }

  lemma SeekDown(m: Mem, root: RbNode, c: Ctx, t: Tree, h: nat, whole: nat, key: int, nil: RbNode)
    requires Seeking(m, root, c, t, h, whole, key, nil) && t.Node?
    ensures t.node in m && m[t.node].left == Ptr(t.left, nil) && m[t.node].right == Ptr(t.right, nil)
    ensures (Ptr(t.left, nil) == nil <==> t.left.Leaf?) && (Ptr(t.right, nil) == nil <==> t.right.Leaf?)
    ensures Depth(c) + 1 <= 2 * whole
    ensures key < t.node.key ==> Seeking(m, root, DownLeft(c, t), t.left, DownHeight(t, h), whole, key, nil)
    ensures key > t.node.key ==> Seeking(m, root, DownRight(c, t), t.right, DownHeight(t, h), whole, key, nil)
    ensures CtxNodes(DownLeft(c, t)) + Nodes(t.left) == CtxNodes(c) + Nodes(t)
    ensures CtxNodes(DownRight(c, t)) + Nodes(t.right) == CtxNodes(c) + Nodes(t)
  {
    MoveDown(m, root, c, t, nil);
    DownRb(c, t, h);
    DownShallow(c, t, h, whole);
    SortedKeys(t.left, Lo(c), t.node.key);
    SortedKeys(t.right, t.node.key, Hi(c));
  }

  method Search(tr: RbRoot, key: int) returns (r: RbNode?, ghost rounds: nat)
    requires tr.Valid()
    ensures r != null ==> r in tr.nodes && r.key == key
    ensures r == null ==> forall n :: n in tr.nodes ==> n.key != key
    ensures rounds <= 2 * BlackHeight(tr.shape)
  {
    ghost var m, c, t, h := tr.Memory(), Top, tr.shape, BlackHeight(tr.shape);
    var p := tr.root;
    rounds := 0;
    assert t.Node? ==> t.node in Nodes(t);
    while p != tr.nil
      invariant Seeking(m, tr.root, c, t, h, BlackHeight(tr.shape), key, tr.nil)
      invariant CtxNodes(c) + Nodes(t) == tr.nodes
      invariant p == Ptr(t, tr.nil) && (p == tr.nil <==> t.Leaf?)
      invariant rounds == Depth(c) <= 2 * BlackHeight(tr.shape)
      decreases t
    {
      SeekDown(m, tr.root, c, t, h, BlackHeight(tr.shape), key, tr.nil);
      rounds := rounds + 1;
      assert CellOf(p) == m[p];
      if key == p.key {
        return p, rounds;
      }
      h := DownHeight(t, h);
      if key > p.key {
        p, c, t := p.right, DownRight(c, t), t.right;
      } else {
        p, c, t := p.left, DownLeft(c, t), t.left;
      }
    }
    r := null;
  }

  /** `rb_find`: `rounds` counts the iterations of its loop. */
  method Find(tr: RbRoot, key: int) returns (r: RbNode?, ghost rounds: nat)
    requires tr.Valid()
    ensures r != null ==> r in tr.nodes && r.key == key
    ensures r == null ==> forall n :: n in tr.nodes ==> n.key != key
    ensures Pow2(rounds) <= (|tr.nodes| + 1) * (|tr.nodes| + 1)
  {
    r, rounds := Search(tr, key);
    RoundsBound(tr, rounds);
  }

  // ----- rb_next -----

  /** `rb_next`: the node with the next larger key, or the sentinel. */
  method Next(tr: RbRoot, node0: RbNode) returns (r: RbNode)
    requires tr.Valid() && node0 in tr.nodes
    ensures r == tr.nil ==> forall n :: n in tr.nodes ==> n.key <= node0.key
    ensures r != tr.nil ==> r in tr.nodes && node0.key < r.key
    ensures r != tr.nil ==> forall n :: n in tr.nodes ==> n.key <= node0.key || r.key <= n.key
  {
    ghost var m := tr.Memory();
    ghost var c, t, h := Locate(m, tr.root, Top, tr.shape, BlackHeight(tr.shape), node0, tr.nil);
    MoveDown(m, tr.root, c, t, tr.nil);
    CtxKeys(c);
    SortedKeys(t.left, Lo(c), node0.key);
    SortedKeys(t.right, node0.key, Hi(c));
    assert CellOf(node0) == m[node0];
    if node0.right != tr.nil {
      MinSmallest(t.right, node0.key, Hi(c));
      r := Min(tr, node0.right, DownRight(c, t), t.right);
      return;
    }
    var node, parent := node0, node0.parent;
    while parent != tr.nil && node == parent.right
      invariant Rep(m, tr.root, c, t, tr.nil) && CtxNodes(c) + Nodes(t) == tr.nodes && t.Node? && node == t.node
      invariant parent == CtxPtr(c, tr.nil) && node0 in Nodes(t)
      invariant forall n :: n in Nodes(t) ==> n.key <= node0.key
      decreases c
    {
      Turn(m, tr.root, c, t, tr.nil);
      assert CellOf(parent) == m[parent];
      CtxKeys(c);
      MoveUp(m, tr.root, c, t, tr.nil);
      t, c := Up(c, t), c.up;
      node := parent;
      parent := parent.parent;
    }
    r := parent;
    CtxKeys(c);
    Turn(m, tr.root, c, t, tr.nil);
    assert parent in m ==> CellOf(parent) == m[parent];
  }

  /** Which side of its parent the focus hangs on, and what that says about the keys there. */
  lemma Turn(m: Mem, root: RbNode, c: Ctx, t: Tree, nil: RbNode)
    requires Rep(m, root, c, t, nil) && t.Node?
    ensures c.Top? <==> CtxPtr(c, nil) == nil
    ensures !c.Top? ==> c.node in m && c.node in CtxNodes(c) && (m[c.node].right == t.node <==> c.InRight?)
    ensures c.InRight? ==> forall n :: n in Nodes(t) ==> c.node.key < n.key
    ensures c.InRight? ==> forall n :: n in Nodes(c.left) ==> n.key < c.node.key
    ensures c.InLeft? ==> forall n :: n in Nodes(t) ==> n.key < c.node.key
  {
    SortedKeys(t, Lo(c), Hi(c));
    assert !c.Top? ==> c.node in CtxNodes(c);
    assert t.node in Nodes(t);
    match c
    case Top =>
    case InLeft(_, up, n, r) => SortedKeys(r, n.key, Hi(up));
    case InRight(_, l, n, up) => SortedKeys(l, Lo(up), n.key);
  }
}
