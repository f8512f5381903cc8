/** The cyclic doubly linked lists of free chunks, one per bin, threaded through the chunks' first pages. */
module BinList {
  import opened Seqs

  /** The null physical address. */
  const BAD := -1

  /** What a free chunk's first page holds. */
  datatype Head = Head(size: int, prev: int, next: int)

  ghost predicate Cyclic(start: int, head: seq<Head>, list: seq<int>) {
    && start == (if list == [] then BAD else list[0])
    && (forall i :: 0 <= i < |list| ==> 0 <= list[i] < |head|)
    && forall i, j :: 0 <= i < |list| && 0 <= j < |list| && j == Nx(i, |list|) ==>
      head[list[i]].next == list[j] && head[list[j]].prev == list[i]
  }

  function Without(list: seq<int>, k: int): seq<int>
    requires 0 <= k < |list|
  {
    list[..k] + list[k + 1..]
  }

  ghost predicate SameBut(head: seq<Head>, head': seq<Head>, touched: set<int>) {
    |head'| == |head| && forall p :: 0 <= p < |head| && p !in touched ==> head'[p] == head[p]
  }

  lemma CyclicFrame(start: int, head: seq<Head>, head': seq<Head>, list: seq<int>, touched: set<int>)
    requires Cyclic(start, head, list) && SameBut(head, head', touched)
    requires forall i :: 0 <= i < |list| ==> list[i] !in touched
    ensures Cyclic(start, head', list)
  {
  }

  lemma Inserted(head: seq<Head>, head': seq<Head>, list: seq<int>, x: int, size: int)
    requires list != [] && Cyclic(list[0], head, list) && NoDup(list) && x !in list && 0 <= x < |head|
    requires var h, t := list[0], list[|list| - 1];
      && SameBut(head, head', {h, t, x})
      && head'[x] == Head(size, t, h)
      && head'[h] == Head(head[h].size, x, if h == t then x else head[h].next)
      && head'[t] == Head(head[t].size, if h == t then x else head[t].prev, x)
    ensures Cyclic(x, head', [x] + list) && NoDup([x] + list)
  {
    var l' := [x] + list;
    forall i, j | 0 <= i < |l'| && 0 <= j < |l'| && j == Nx(i, |l'|)
      ensures head'[l'[i]].next == l'[j] && head'[l'[j]].prev == l'[i]
    {
      assert i > 0 ==> l'[i] == list[i - 1];
      assert j > 0 ==> l'[j] == list[j - 1];
    }
  }

  lemma Deleted(head: seq<Head>, head': seq<Head>, list: seq<int>, k: int)
    requires 0 <= k < |list| && |list| > 1 && Cyclic(list[0], head, list) && NoDup(list)
    requires var n, p := list[Nx(k, |list|)], list[Pv(k, |list|)];
      && SameBut(head, head', {n, p})
      && head'[n] == Head(head[n].size, p, if n == p then n else head[n].next)
      && head'[p] == Head(head[p].size, if n == p then p else head[p].prev, n)
    ensures var l' := Without(list, k); Cyclic(l'[0], head', l') && NoDup(l')
  {
    hide Nx, Pv;
    var l' := Without(list, k);
    DetachedNoDup(list, k);
    forall i, j | 0 <= i < |l'| && 0 <= j < |l'| && j == Nx(i, |l'|)
      ensures head'[l'[i]].next == l'[j] && head'[l'[j]].prev == l'[i]
    {
      NewNeighbours(|list|, k, i, j);
      assert l'[i] == list[Skip(k, i)] && l'[j] == list[Skip(k, j)];
      DeletedLink(head, head', list, k, Skip(k, i), Skip(k, j));
    }
  }

  /** Two elements that are neighbours once element k is gone. */
  lemma DeletedLink(head: seq<Head>, head': seq<Head>, list: seq<int>, k: int, a: int, b: int)
    requires 0 <= k < |list| && |list| > 1 && Cyclic(list[0], head, list) && NoDup(list)
    requires var n, p := list[Nx(k, |list|)], list[Pv(k, |list|)];
      && SameBut(head, head', {n, p})
      && head'[n] == Head(head[n].size, p, if n == p then n else head[n].next)
      && head'[p] == Head(head[p].size, if n == p then p else head[p].prev, n)
    requires 0 <= a < |list| && 0 <= b < |list| && a != k && b != k
    requires if a == Pv(k, |list|) then b == Nx(k, |list|) else b == Nx(a, |list|)
    ensures head'[list[a]].next == list[b] && head'[list[b]].prev == list[a]
  {
    var m := |list|;
    if a != Pv(k, m) {
      Differ(list, a, Pv(k, m));
      Differ(list, b, Nx(k, m));
      assert head[list[a]].next == list[b] && head[list[b]].prev == list[a];
    }
  }

  /** Different places hold different elements. */
  lemma Differ(list: seq<int>, i: int, j: int)
    requires NoDup(list) && 0 <= i < |list| && 0 <= j < |list|
    ensures list[i] == list[j] <==> i == j
  {
  }
}
