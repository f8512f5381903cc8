/** The queues of the kernel: cyclic doubly linked lists through links that are part of their elements. */
module Queues {
  import opened Seqs

  /** `queue_t` */
  class Link {
    var next: Link?
    var prev: Link?
  }

  /** The queue, which points to its first link, holds the links of the list in this order. */
  ghost predicate Holds(queue: Link?, list: seq<Link>)
    reads list
  {
    && queue == (if list == [] then null else list[0]) && NoDup(list)
    && forall i, j :: 0 <= i < |list| && 0 <= j < |list| && j == Nx(i, |list|) ==>
      list[i].next == list[j] && list[j].prev == list[i]
  }

  /** The links of an element that is in no queue may still point to itself. */
  ghost predicate Alone(t: Link)
    reads t
  {
    t.next == t && t.prev == t
  }

  /** `queue_insert_head` */
  method InsertHead(queue0: Link?, t: Link, ghost list: seq<Link>) returns (queue: Link?)
    requires Holds(queue0, list) && t !in list
    modifies list, t
    ensures Holds(queue, [t] + list)
  {
    if queue0 == null {
      t.next, t.prev := t, t;
    } else {
      assert list[|list| - 1].next == list[0] && list[0].prev == list[|list| - 1];
      t.next := queue0;
      t.prev := queue0.prev;
      queue0.prev.next := t;
      queue0.prev := t;
    }
    queue := t;
  }

  /** `queue_insert_tail` */
  method InsertTail(queue0: Link?, t: Link, ghost list: seq<Link>) returns (queue: Link?)
    requires Holds(queue0, list) && t !in list
    modifies list, t
    ensures Holds(queue, list + [t])
  {
    if queue0 == null {
      t.next, t.prev := t, t;
      queue := t;
    } else {
      assert list[|list| - 1].next == list[0] && list[0].prev == list[|list| - 1];
      t.next := queue0;
      t.prev := queue0.prev;
      queue0.prev.next := t;
      queue0.prev := t;
      queue := queue0;
    }
  }

  /** `queue_remove_head` */
  method RemoveHead(queue0: Link?, ghost list: seq<Link>) returns (queue: Link?, t: Link)
    requires Holds(queue0, list) && list != []
    modifies list
    ensures t == list[0] && Holds(queue, list[1..]) && (|list| == 1 ==> Alone(t))
  {
    t := queue0;
    LinksOf(list, 0);
    if t.next == t {
      queue := null;
    } else {
      t.next.prev := t.prev;
      t.prev.next := t.next;
      queue := t.next;
    }
  }

  /** `queue_remove_tail` */
  method RemoveTail(queue0: Link?, ghost list: seq<Link>) returns (queue: Link?, t: Link)
    requires Holds(queue0, list) && list != []
    modifies list
    ensures t == list[|list| - 1] && Holds(queue, list[..|list| - 1]) && (|list| == 1 ==> Alone(t))
  {
    LinksOf(list, 0);
    t := queue0.prev;
    LinksOf(list, |list| - 1);
    queue := queue0;
    if t.next == t {
      queue := null;
    } else {
      t.next.prev := t.prev;
      t.prev.next := t.next;
    }
  }

  /** What a link's pointers are. */
  lemma LinksOf(list: seq<Link>, k: int)
    requires 0 <= k < |list| && Holds(list[0], list)
    ensures list[k].next == list[Nx(k, |list|)] && list[k].prev == list[Pv(k, |list|)]
    ensures (list[k].next == list[k] <==> |list| == 1) && (k + 1 < |list| ==> list[k].next == list[k + 1])
  {
    assert k == Nx(Pv(k, |list|), |list|);
  }

  ghost function Nexts(list: seq<Link>): (s: seq<Link?>)
    reads list
    ensures |s| == |list| && forall i :: 0 <= i < |list| ==> s[i] == list[i].next
  {
    seq(|list|, i requires 0 <= i < |list| reads list => list[i].next)
  }

  ghost function Prevs(list: seq<Link>): (s: seq<Link?>)
    reads list
    ensures |s| == |list| && forall i :: 0 <= i < |list| ==> s[i] == list[i].prev
  {
    seq(|list|, i requires 0 <= i < |list| reads list => list[i].prev)
  }

  /** Once link k is passed over, the other links form a ring. */
  lemma PassedOver<T>(list: seq<T>, next: seq<T>, prev: seq<T>, next': seq<T>, prev': seq<T>, k: int, i: int, j: int)
    requires |next| == |prev| == |next'| == |prev'| == |list| && 0 <= k < |list|
    requires forall a, b :: 0 <= a < |list| && 0 <= b < |list| && b == Nx(a, |list|) ==>
      next[a] == list[b] && prev[b] == list[a]
    requires next' == next[Pv(k, |list|) := list[Nx(k, |list|)]] && prev' == prev[Nx(k, |list|) := list[Pv(k, |list|)]]
    requires 0 <= i < |list| - 1 && j == Nx(i, |list| - 1)
    ensures var l := list[..k] + list[k + 1..];
      && 0 <= Skip(k, i) < |list| && 0 <= Skip(k, j) < |list| && 0 <= j < |l|
      && l[i] == list[Skip(k, i)] && l[j] == list[Skip(k, j)] && next'[Skip(k, i)] == l[j] && prev'[Skip(k, j)] == l[i]
  {
    hide Nx, Pv;
    NewNeighbours(|list|, k, i, j);
  }

  ghost function PlaceIn<T>(s: seq<T>, t: T): (k: int)
    requires t in s
    ensures 0 <= k < |s| && s[k] == t
  {
    var k :| 0 <= k < |s| && s[k] == t;
    k
  }

  /** `t->next->prev = t->prev; t->prev->next = t->next` */
  method Bypass(t: Link, ghost list: seq<Link>, ghost k: int)
    requires if t in list then 0 <= k < |list| && t == list[k] && Holds(list[0], list) else Alone(t)
    modifies list, t
    ensures t in list ==> Nexts(list) == old(Nexts(list))[Pv(k, |list|) := list[Nx(k, |list|)]]
    ensures t in list ==> Prevs(list) == old(Prevs(list))[Nx(k, |list|) := list[Pv(k, |list|)]]
    ensures t !in list ==> Nexts(list) == old(Nexts(list)) && Prevs(list) == old(Prevs(list))
    ensures t !in list || |list| == 1 ==> Alone(t)
  {
    if t in list { LinksOf(list, k); }
    t.next.prev := t.prev;
    t.prev.next := t.next;
  }

  /** `queue_detach` of a link on the queue, or of one on no queue that points to itself: nothing happens then. */
  method Detach(queue0: Link?, t: Link, ghost list: seq<Link>) returns (queue: Link?)
    requires Holds(queue0, list) && (t in list || Alone(t))
    modifies list, t
    ensures Holds(queue, Detached(list, t)) && (t !in list || |list| == 1 ==> Alone(t))
  {
    hide Nx, Pv, Skip, Detached;
    ghost var k := if t in list then PlaceIn(list, t) else 0;
    if t in list {
      LinksOf(list, k);
      DetachedAt(list, k);
      DetachedNoDup(list, k);
    } else {
      DetachedNone(list, t);
    }
    queue := queue0;
    if queue == t {
      queue := if t.next == t then null else t.next;
    }
    ghost var l, next, prev := if t in list then list[..k] + list[k + 1..] else list, Nexts(list), Prevs(list);
    Bypass(t, list, k);
    if t in list {
      forall i, j | 0 <= i < |l| && 0 <= j < |l| && j == Nx(i, |l|) ensures l[i].next == l[j] && l[j].prev == l[i] {
        PassedOver<Link?>(list, next, prev, Nexts(list), Prevs(list), k, i, j);
      }
    }
  }
}
