/** Sequences without duplicates, and the places in a cycle. */
module Seqs {

  ghost predicate NoDup<T>(s: seq<T>) {
    forall i, j :: 0 <= i < j < |s| ==> s[i] != s[j]
  }

  /** `queue_detach` */
  function Detached<T(==)>(s: seq<T>, t: T): seq<T> {
    if s == [] then [] else if s[0] == t then s[1..] else [s[0]] + Detached(s[1..], t)
  }

  lemma {:induction false} DetachedElements(s: seq<int>, t: int)
    requires NoDup(s)
    ensures NoDup(Detached(s, t)) && forall u :: u in Detached(s, t) <==> u in s && u != t
    ensures |Detached(s, t)| == |s| - if t in s then 1 else 0
  {
    if s != [] {
      DetachedElements(s[1..], t);
      assert s == [s[0]] + s[1..];
      assert s[0] !in s[1..];
      var d := Detached(s[1..], t);
      if s[0] != t {
        assert NoDup([s[0]] + d);
      }
    }
  }

  lemma {:induction false} DetachedAt<T>(list: seq<T>, k: int)
    requires 0 <= k < |list| && NoDup(list)
    ensures Detached(list, list[k]) == list[..k] + list[k + 1..]
  {
    if k > 0 {
      DetachedAt(list[1..], k - 1);
    }
  }

  lemma {:induction false} DetachedNone<T>(list: seq<T>, t: T)
    requires t !in list
    ensures Detached(list, t) == list
  {
    if list != [] {
      DetachedNone(list[1..], t);
    }
  }

  lemma DetachedNoDup<T>(list: seq<T>, k: int)
    requires 0 <= k < |list| && NoDup(list)
    ensures NoDup(list[..k] + list[k + 1..])
  {
  }

  // ----- places in a cycle of n -----

  function Nx(i: int, n: int): int {
    if i + 1 < n then i + 1 else 0
  }

  function Pv(i: int, n: int): int {
    if i > 0 then i - 1 else n - 1
  }

  /** The place that place i was before place k went. */
  function Skip(k: int, i: int): int {
    if i < k then i else i + 1
  }

  /** Neighbours once place k is gone were neighbours before, or were its neighbours. */
  lemma NewNeighbours(n: int, k: int, i: int, j: int)
    requires n > 1 && 0 <= k < n && 0 <= i < n - 1 && j == Nx(i, n - 1)
    ensures 0 <= Skip(k, i) < n && 0 <= Skip(k, j) < n && 0 <= Pv(k, n) < n && 0 <= Nx(k, n) < n
    ensures if Skip(k, i) == Pv(k, n) then Skip(k, j) == Nx(k, n) else Skip(k, j) == Nx(Skip(k, i), n) != Nx(k, n)
  {
  }
}
