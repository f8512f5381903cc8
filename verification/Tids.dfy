/** Thread ids: `alloc_tid` hands out a window of ids and looks for the next gap in the tree when it is used up. */
module Tids {
  import opened RbShape
  import RbInsert
  import RbDelete
  import RbQuery

  const IDLE_PID := 2

  /** `x + 1` on a 32-bit int. */
  function Successor(x: int): int {
    if x == MAX_INT then MIN_INT else x + 1
  }

  /** The ids from tid up to next_check, where next_check = 1 << 31 has wrapped to the smallest int. */
  ghost predicate InWindow(k: int, tid: int, nextCheck: int) {
    tid != nextCheck && tid <= k && (nextCheck == MIN_INT || k < nextCheck)
  }

  /** Every id from lo, the smallest one used, up to the largest int is used. */
  ghost predicate FullFrom(ks: set<int>, lo: int) {
    lo in ks && (forall k :: k in ks ==> lo <= k) && forall k :: lo <= k <= MAX_INT ==> k in ks
  }

  lemma GapNotFull(ks: set<int>, lo: int, gap: int)
    requires lo in ks && gap !in ks && lo < gap <= MAX_INT
    ensures forall l :: !FullFrom(ks, l)
  {
  }

  lemma KeysInRange(tr: RbRoot)
    requires tr.Valid()
    ensures forall n :: n in tr.nodes ==> MIN_INT <= n.key <= MAX_INT
  {
    SortedKeys(tr.shape, Lo(Top), Hi(Top));
    assert tr.nodes == Nodes(tr.shape);
  }

  class Threads {
    const tr: RbRoot
    var tid: int
    var nextCheck: int

    ghost function Keys(): set<int>
      reads tr`nodes
    {
      set n | n in tr.nodes :: n.key
    }

    /** No id in the tree lies in the window. */
    ghost predicate WindowFree()
      reads this, tr`nodes
    {
      && MIN_INT <= tid <= MAX_INT && MIN_INT <= nextCheck <= MAX_INT
      && (tid != nextCheck ==> 0 < tid && (nextCheck == MIN_INT || tid < nextCheck))
      && forall n :: n in tr.nodes ==> 0 < n.key && !InWindow(n.key, tid, nextCheck)
    }

    ghost predicate Valid()
      reads this, tr, tr.nodes, tr.nil
    {
      tr.Valid() && WindowFree()
    }

    constructor (nil: RbNode)
      requires SentinelOk(nil)
      ensures Valid() && tr.nodes == {} && fresh(tr) && tr.nil == nil && tid == IDLE_PID + 1 && nextCheck == MIN_INT
    {
      tid := IDLE_PID + 1;
      nextCheck := MIN_INT;
      tr := new RbRoot(nil);
    }

    /** `alloc_tid`; not ok is its panic. The idle threads, which all have id IDLE_PID, are in no tree: their id is
        handed out too, exactly when the search for a gap starts from id 1 alone or the window has come to it. */
    method AllocTid() returns (ok: bool, id: int)
      requires Valid()
      modifies this`tid, this`nextCheck
      ensures ok ==> 0 < id <= MAX_INT && id !in Keys() && !InWindow(id, tid, nextCheck) && Valid()
      ensures ok ==> tid == Successor(id) && (old(tid != nextCheck) ==> id == old(tid) && nextCheck == old(nextCheck))
      ensures ok ==> (id == IDLE_PID <==> if old(tid == nextCheck) then GapAtIdle() else old(tid) == IDLE_PID)
      ensures ok && old(tid == nextCheck) ==> LowestGap(id, nextCheck)
      ensures !ok <==> old(tid == nextCheck) && exists lo :: FullFrom(Keys(), lo)
    {
      if tid == nextCheck {
        ok := FindGap();
        if !ok {
          return false, 0;
        }
      }
      ok, id := true, tid;
      tid := Successor(tid);
    }

    /** The ids from id up to the next used one, next, are the lowest unused ones above the least used one; all above 2
        when no id is used. */
    ghost predicate LowestGap(id: int, next: int)
      reads tr`nodes
    {
      if Keys() == {} then id == 3 && next == MIN_INT
      else
        && id !in Keys() && (next != MIN_INT ==> next in Keys() && id < next)
        && (forall k :: k in Keys() && id <= k ==> next != MIN_INT && next <= k)
        && exists lo ::
             && lo in Keys() && lo < id && (forall k :: k in Keys() ==> lo <= k)
             && forall k :: lo <= k < id ==> k in Keys()
    }

    /** The first gap is at the idle threads' id. */
    ghost predicate GapAtIdle()
      reads tr`nodes
    {
      IDLE_PID - 1 in Keys() && IDLE_PID !in Keys()
    }

    /** The search for a gap between used ids. */
    method FindGap() returns (ok: bool)
      requires Valid()
      modifies this`tid, this`nextCheck
      ensures ok ==> WindowFree() && tid != nextCheck && (tid == IDLE_PID <==> GapAtIdle())
      ensures ok ==> LowestGap(tid, nextCheck)
      ensures !ok <==> exists lo :: FullFrom(Keys(), lo)
    {
      hide RbRoot.Valid, RbRoot.At;
      KeysInRange(tr);
      var p := RbQuery.MinOf(tr);
      if p == tr.nil {
        tid := IDLE_PID + 1;
        nextCheck := MIN_INT;
        return true;
      }
      ghost var lo := p.key;
      while true
        invariant p in tr.nodes && lo in Keys() && forall k :: k in Keys() ==> lo <= k
        invariant forall k :: lo <= k <= p.key ==> k in Keys()
        decreases MAX_INT - p.key
      {
        var q := RbQuery.Next(tr, p);
        if q == tr.nil {
          if Successor(p.key) == MIN_INT {
            assert FullFrom(Keys(), lo);
            return false;
          }
          tid := Successor(p.key);
          nextCheck := MIN_INT;
          GapNotFull(Keys(), lo, tid);
          return true;
        }
        if q.key == Successor(p.key) {
          p := q;
          continue;
        }
        tid := Successor(p.key);
        nextCheck := q.key;
        GapNotFull(Keys(), lo, tid);
        return true;
      }
    }

    /** `alloc_tid` followed by `add_thread`; null is the panic. */
    method Spawn() returns (node: RbNode?)
      requires Valid()
      modifies this`tid, this`nextCheck, tr`root, tr`nodes, tr`shape, tr.nodes
      ensures node == null <==> old(tid == nextCheck) && exists lo :: FullFrom(old(Keys()), lo)
      ensures node != null ==> Valid() && fresh(node) && node.key !in old(Keys())
      ensures node != null ==> tid == Successor(node.key)
      ensures old(tid != nextCheck) ==> node != null && node.key == old(tid) && nextCheck == old(nextCheck)
      ensures tr.nodes == old(tr.nodes) + if node == null then {} else {node}
    {
      var ok, id := AllocTid();
      if !ok {
        return null;
      }
      node := new RbNode(id);
      RbInsert.Insert(tr, node);
    }

    /** `add_thread` of a thread whose id was not drawn from the window, such as init. */
    method Enrol(node: RbNode)
      requires Valid() && node != tr.nil && 0 < node.key <= MAX_INT
      requires node.key !in Keys() && !InWindow(node.key, tid, nextCheck)
      modifies tr`root, tr`nodes, tr`shape, tr.nodes, node
      ensures Valid() && tr.nodes == old(tr.nodes) + {node}
    {
      RbInsert.Insert(tr, node);
    }

    /** `remove_thread` */
    method Remove(node: RbNode)
      requires Valid() && node in tr.nodes
      modifies tr`root, tr`nodes, tr`shape, tr.nodes, tr.nil`parent, tr.nil`color
      ensures Valid() && tr.nodes == old(tr.nodes) - {node}
    {
      RbDelete.Delete(tr, node);
    }
  }

  /** A run in which the idle threads' id is handed out: beside a thread with id 1, threads come and go until all ids
      have been used once. */
  method WrapAround(nil: RbNode) returns (id: int)
    requires SentinelOk(nil)
    modifies nil`parent, nil`color
    ensures id == IDLE_PID == 2
  {
    hide RbRoot.Valid, RbRoot.At, SentinelOk;
    var t := new Threads(nil);
    var init := new RbNode(IDLE_PID - 1);
    t.Enrol(init);
    while t.tid != t.nextCheck
      invariant t.Valid() && fresh(t) && fresh(t.tr) && t.tr.nil == nil && t.tr.nodes == {init} && fresh(init)
      invariant t.nextCheck == MIN_INT && (t.tid == MIN_INT || IDLE_PID < t.tid)
      decreases if t.tid == MIN_INT then 0 else MAX_INT - t.tid + 1
    {
      var node := t.Spawn();
      t.Remove(node);
    }
    var ok;
    assert init.key in t.Keys() && forall k :: k in t.Keys() ==> k == init.key;
    GapNotFull(t.Keys(), init.key, IDLE_PID);
    ok, id := t.AllocTid();
  }
}
