/** A family of lists that share their elements: each element is on one list at most, and there once. */
module Lists {
  import opened Seqs

  function Of<Q>(lists: map<Q, seq<int>>, q: Q): seq<int> {
    if q in lists then lists[q] else []
  }

  /** An element is on a list exactly when that is its home, and once only. */
  ghost predicate Filed<Q(!new)>(lists: map<Q, seq<int>>, home: map<int, Q>) {
    && (forall q :: NoDup(Of(lists, q)))
    && (forall q, t :: t in Of(lists, q) <==> t in home && home[t] == q)
  }

  /** A new element is put first or last. */
  lemma Inserted<Q(!new)>(lists: map<Q, seq<int>>, home: map<int, Q>, q: Q, t: int, s: seq<int>)
    requires Filed(lists, home) && t !in home && (s == [t] + Of(lists, q) || s == Of(lists, q) + [t])
    ensures Filed(lists[q := s], home[t := q])
  {
    var lists', home' := lists[q := s], home[t := q];
    forall r ensures NoDup(Of(lists', r)) { assert NoDup(Of(lists, r)); assert t !in Of(lists, r); }
    forall r, u ensures u in Of(lists', r) <==> u in home' && home'[u] == r {
      assert u in Of(lists, r) <==> u in home && home[u] == r;
    }
  }

  lemma Removed<Q(!new)>(lists: map<Q, seq<int>>, home: map<int, Q>, q: Q, t: int)
    requires Filed(lists, home) && t in Of(lists, q)
    ensures Filed(lists[q := Detached(Of(lists, q), t)], home - {t}) && t in home && home[t] == q
  {
    var lists', home' := lists[q := Detached(Of(lists, q), t)], home - {t};
    forall r ensures NoDup(Of(lists, r)) && NoDup(Of(lists', r)) { DetachedElements(Of(lists, q), t); }
    DetachedElements(Of(lists, q), t);
    forall r, u ensures u in Of(lists', r) <==> u in home' && home'[u] == r {
      assert u in Of(lists, r) <==> u in home && home[u] == r;
      assert t in Of(lists, q) <==> t in home && home[t] == q;
      if r != q && u == t { assert t !in Of(lists, r); }
    }
  }
}
