/** The order of a binary minimum heap kept in a sequence, and what moving one element does to it. */
module HeapOrder {
  import opened SortSpec

  /** `heap_node_t`; the value stands for a sleeping thread. */
  datatype Node = Node(key: int, value: int)

  function Parent(i: int): int {
    (i - 1) / 2
  }

  ghost predicate Heap(s: seq<Node>) {
    forall i :: 0 < i < |s| ==> s[Parent(i)].key <= s[i].key
  }

  /** The root is least. */
  lemma {:induction false} RootLeast(s: seq<Node>, i: int)
    requires Heap(s) && 0 <= i < |s|
    ensures s[0].key <= s[i].key
    decreases i
  {
    if i > 0 { RootLeast(s, Parent(i)); }
  }

  /** Only cur may be too small for its place. */
  ghost predicate Rising(s: seq<Node>, cur: int) {
    && 0 <= cur < |s|
    && (forall i :: 0 < i < |s| && i != cur ==> s[Parent(i)].key <= s[i].key)
    && (forall i :: 0 < i < |s| && Parent(i) == cur && cur > 0 ==> s[Parent(cur)].key <= s[i].key)
  }

  /** Only cur may be too large for its place. */
  ghost predicate Sinking(s: seq<Node>, cur: int) {
    && 0 <= cur < |s|
    && (forall i :: 0 < i < |s| && Parent(i) != cur ==> s[Parent(i)].key <= s[i].key)
    && (forall i :: 0 < i < |s| && Parent(i) == cur && cur > 0 ==> s[Parent(cur)].key <= s[i].key)
  }

  lemma Raise(s: seq<Node>, cur: int)
    requires Rising(s, cur) && cur > 0 && s[cur].key < s[Parent(cur)].key
    ensures Rising(Swapped(s, cur, Parent(cur)), Parent(cur))
  {
    var t, p := Swapped(s, cur, Parent(cur)), Parent(cur);
    forall i | 0 < i < |t| && i != p ensures t[Parent(i)].key <= t[i].key {
      if Parent(i) == p && i != cur { assert s[p].key <= s[i].key; }
    }
    forall i | 0 < i < |t| && Parent(i) == p && p > 0 ensures t[Parent(p)].key <= t[i].key {
      assert s[Parent(p)].key <= s[p].key;
      if i != cur { assert s[p].key <= s[i].key; }
    }
  }

  lemma Risen(s: seq<Node>, cur: int)
    requires Rising(s, cur) && (cur == 0 || s[cur].key >= s[Parent(cur)].key)
    ensures Heap(s)
  {
  }

  /** The smaller child goes up. */
  lemma Sink(s: seq<Node>, cur: int, small: int)
    requires Sinking(s, cur) && 0 < small < |s| && Parent(small) == cur && s[small].key < s[cur].key
    requires forall i :: 0 < i < |s| && Parent(i) == cur ==> s[small].key <= s[i].key
    ensures Sinking(Swapped(s, cur, small), small)
  {
    var t := Swapped(s, cur, small);
    forall i | 0 < i < |t| && Parent(i) != small ensures t[Parent(i)].key <= t[i].key {
      if i == cur { assert s[Parent(cur)].key <= s[small].key; }
    }
    forall i | 0 < i < |t| && Parent(i) == small ensures t[Parent(small)].key <= t[i].key {
      assert s[Parent(i)].key <= s[i].key;
    }
  }

  lemma Sunk(s: seq<Node>, cur: int)
    requires Sinking(s, cur) && forall i :: 0 < i < |s| && Parent(i) == cur ==> s[cur].key <= s[i].key
    ensures Heap(s)
  {
  }

  /** The children of a node. */
  lemma Children(i: int, cur: int)
    requires 0 < i && 0 <= cur
    ensures Parent(i) == cur <==> i == cur * 2 + 1 || i == cur * 2 + 2
  {
  }

  lemma SwapMultiset(s: seq<Node>, i: int, j: int)
    requires 0 <= i < |s| && 0 <= j < |s|
    ensures multiset(Swapped(s, i, j)) == multiset(s)
  {
    SwapRearranges(s, s, i, j, 0, |s|);
    assert s[0..|s|] == s && Swapped(s, i, j)[0..|s|] == Swapped(s, i, j);
  }

  /** The last element takes the root's place. */
  function Dropped(s: seq<Node>): seq<Node>
    requires |s| > 0
  {
    s[0 := s[|s| - 1]][..|s| - 1]
  }

  lemma Replaced(s: seq<Node>)
    requires Heap(s) && |s| > 0
    ensures multiset(Dropped(s)) == multiset(s) - multiset{s[0]} && |Dropped(s)| == |s| - 1
    ensures |s| > 1 ==> Sinking(Dropped(s), 0)
  {
    var n := |s| - 1;
    if n > 0 {
      assert s == [s[0]] + s[1..n] + [s[n]];
      assert Dropped(s) == [s[n]] + s[1..n];
    } else {
      assert s == [s[0]];
    }
  }

  lemma HeapNone(s: seq<Node>)
    requires |s| <= 1
    ensures Heap(s)
  {
  }

  lemma AppendedRising(s: seq<Node>, node: Node)
    requires Heap(s)
    ensures Rising(s + [node], |s|) && multiset(s + [node]) == multiset(s) + multiset{node}
  {
  }
}
