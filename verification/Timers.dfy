/** Sleeping threads: a heap in a growing and shrinking vector, drained by the timer interrupt. */
module Timers {
  import opened Words
  import opened SortSpec
  import opened HeapOrder

  const INITIAL_HEAP_SIZE := 8
  const VECTOR_MINIMUM_SIZE := 8
  const VECTOR_SHINK_RATIO := 3

  /** `node->key <= ticks`, which the comparison with the unsigned clock decides. */
  predicate Due(n: Node, ticks: int) {
    Unsigned(n.key) <= ticks
  }

  /** A sleeper that is due comes after one with a negative key that is not. */
  ghost predicate Hidden(s: seq<Node>, ticks: int) {
    exists a, b :: a in s && b in s && a.key < 0 && !Due(a, ticks) && 0 <= b.key <= ticks
  }

  /** The comparison with the unsigned clock reads a key as unsigned. */
  function Unsigned(key: int): int {
    if key < 0 then key + WORD else key
  }

  ghost predicate Ascending(s: seq<Node>) {
    forall i, j :: 0 <= i < j < |s| ==> s[i].key <= s[j].key
  }

  /** The root leaves a heap. */
  lemma Taken(before: seq<Node>, after: seq<Node>, woken: seq<Node>)
    requires Heap(before) && |before| > 0 && multiset(after) == multiset(before) - multiset{before[0]}
    requires Ascending(woken) && forall w, n :: w in woken && n in before ==> w.key <= n.key
    ensures Ascending(woken + [before[0]]) && forall w, n :: w in woken + [before[0]] && n in after ==> w.key <= n.key
    ensures multiset(woken + [before[0]]) + multiset(after) == multiset(woken) + multiset(before)
  {
    forall n | n in after ensures n in before && before[0].key <= n.key {
      assert n in multiset(after) && n in multiset(before);
      var i :| 0 <= i < |before| && before[i] == n;
      RootLeast(before, i);
    }
    assert before[0] in multiset(before);
  }

  /** The key of a sleeper: the 32-bit sum, read as signed. */
  function SleepKey(ticks: int, dt: int): int {
    Signed(ticks + dt)
  }

  /** As long as no sleep reaches past tick 2^31, keys are the ticks to wake at; the next sleep makes a negative key. */
  lemma SleepKeys(ticks: int, dt: int)
    requires 0 <= ticks < 0x8000_0000 && 0 < dt < 0x8000_0000
    ensures SleepKey(ticks, dt) >= 0 <==> ticks + dt < 0x8000_0000
    ensures SleepKey(ticks, dt) >= 0 <==> SleepKey(ticks, dt) == ticks + dt
    ensures Unsigned(SleepKey(ticks, dt)) == ticks + dt
  {
  }

  /** What is left when the root is not due. */
  lemma Drained(all: seq<Node>, woken: seq<Node>, rest: seq<Node>, ticks: int)
    requires Heap(rest) && multiset(woken) + multiset(rest) == multiset(all) && ticks >= 0
    requires (rest == [] || !Due(rest[0], ticks)) && forall n :: n in woken ==> Due(n, ticks)
    requires forall w, n :: w in woken && n in rest ==> w.key <= n.key
    ensures (forall n :: n in rest ==> !Due(n, ticks)) <==> !Hidden(all, ticks)
    ensures (forall n :: n in all ==> n.key >= 0) ==>
      forall n :: multiset(woken)[n] == if n.key <= ticks then multiset(all)[n] else 0
  {
    forall n | n in rest ensures rest[0].key <= n.key {
      var i :| 0 <= i < |rest| && rest[i] == n;
      RootLeast(rest, i);
    }
    forall n ensures n in all <==> n in woken || n in rest {
      assert n in multiset(all) <==> n in multiset(woken) || n in multiset(rest);
    }
    if n :| n in rest && Due(n, ticks) {
      assert rest[0] in all && n in all;
    }
  }

  /** Sleeps that do not reach past tick 2^31 have keys that are not negative, so the sleepers wake in time. */
  lemma InTime(s: seq<Node>, start: int, dt: int, thread: int, ticks: int)
    requires 0 <= start && 0 < dt && start + dt < 0x8000_0000 && forall n :: n in s ==> n.key >= 0
    ensures var n := Node(SleepKey(start, dt), thread);
      n.key == start + dt && (Due(n, ticks) <==> start + dt <= ticks) && !Hidden(s + [n], ticks)
  {
    SleepKeys(start, dt);
  }

  /** A sleep past tick 2^31 hides a due sleeper: at tick 10 the thread that was to wake at tick 5 stays. */
  lemma LongSleepHides()
    ensures var s := [Node(SleepKey(1, 0x7fff_ffff), 0), Node(SleepKey(1, 4), 1)];
      Heap(s) && !Due(s[0], 10) && Due(s[1], 10) && Hidden(s, 10)
  {
    var s := [Node(SleepKey(1, 0x7fff_ffff), 0), Node(SleepKey(1, 4), 1)];
    assert s[0] in s && s[1] in s;
  }

  class TimerHeap {
    /** The vector's buffer, of which the first current elements count. */
    var buffer: array<Node>
    var current: int

    ghost predicate Valid()
      reads this, buffer
    {
      0 <= current <= buffer.Length && buffer.Length >= VECTOR_MINIMUM_SIZE && Heap(Contents())
    }

    ghost function Contents(): seq<Node>
      reads this, buffer
    {
      if 0 <= current <= buffer.Length then buffer[..current] else []
    }

    /** `heap_init` */
    constructor ()
      ensures Valid() && fresh(buffer) && Contents() == [] && buffer.Length == 8
    {
      buffer := new Node[INITIAL_HEAP_SIZE](_ => Node(0, 0));
      current := 0;
    }

    /** `vector_push`; ok tells whether there was memory to grow, if growing was needed. */
    method Push(node: Node, memory: bool) returns (ok: bool)
      requires Valid()
      modifies this, buffer
      ensures 0 <= current <= buffer.Length && buffer.Length >= VECTOR_MINIMUM_SIZE
      ensures (buffer == old(buffer) || fresh(buffer))
      ensures ok <==> memory || old(current) < old(buffer.Length)
      ensures Contents() == if ok then old(Contents()) + [node] else old(Contents())
      ensures buffer.Length
        == if ok && old(current) == old(buffer.Length) then 2 * old(buffer.Length) else old(buffer.Length)
    {
      if current == buffer.Length {
        if !memory {
          return false;
        }
        Resize(buffer.Length * 2);
      }
      buffer[current] := node;
      current := current + 1;
      assert Contents() == old(Contents()) + [node];
      return true;
    }

    /** Moves the contents to a new buffer. */
    method Resize(size: int)
      requires 0 <= current <= buffer.Length && current <= size
      modifies this`buffer
      ensures fresh(buffer) && buffer.Length == size && Contents() == old(Contents())
    {
      var result, from := new Node[size](_ => Node(0, 0)), buffer;
      for i := 0 to current
        invariant buffer == from && current == old(current) && forall k :: 0 <= k < i ==> result[k] == from[k]
      {
        result[i] := from[i];
      }
      buffer := result;
    }

    /** `vector_pop`, which halves the buffer when it is less than a third full, unless that makes it too small. */
    method Pop(memory: bool)
      requires 0 < current <= buffer.Length && buffer.Length >= VECTOR_MINIMUM_SIZE
      modifies this
      ensures 0 <= current <= buffer.Length && buffer.Length >= VECTOR_MINIMUM_SIZE
      ensures (buffer == old(buffer) || fresh(buffer))
      ensures Contents() == old(Contents())[..old(current) - 1]
      ensures var n := old(buffer.Length);
        buffer.Length == if memory && n >= 16 && old(current) - 1 < n / 3 then n / 2 else n
    {
      current := current - 1;
      if current < buffer.Length / VECTOR_SHINK_RATIO {
        if buffer.Length / 2 < VECTOR_MINIMUM_SIZE || !memory {
          return;
        }
        Resize(buffer.Length / 2);
      }
    }

    method Swap(i: int, j: int)
      requires 0 <= current <= buffer.Length && 0 <= i < current && 0 <= j < current
      modifies buffer
      ensures Contents() == Swapped(old(Contents()), i, j)
    {
      var t := buffer[i];
      buffer[i] := buffer[j];
      buffer[j] := t;
    }

    /** `heap_insert` */
    method Insert(node: Node, memory: bool) returns (ok: bool)
      requires Valid()
      modifies this, buffer
      ensures Valid() && (buffer == old(buffer) || fresh(buffer))
      ensures ok <==> memory || old(current) < old(buffer.Length)
      ensures if ok then multiset(Contents()) == multiset(old(Contents())) + multiset{node}
        else Contents() == old(Contents())
    {
      hide Heap, Rising;
      ok := Push(node, memory);
      if !ok {
        return;
      }
      AppendedRising(old(Contents()), node);
      SiftUp();
    }

    method SiftUp()
      requires 0 < current <= buffer.Length && Rising(Contents(), current - 1)
      modifies buffer
      ensures Heap(Contents()) && multiset(Contents()) == multiset(old(Contents()))
    {
      hide Heap, Rising;
      var cur := current - 1;
      while cur != 0
        invariant Rising(Contents(), cur) && multiset(Contents()) == multiset(old(Contents())) && 0 <= cur < current
        decreases cur
      {
        var parent := (cur - 1) / 2;
        if buffer[cur].key >= buffer[parent].key {
          break;
        }
        Raise(Contents(), cur);
        SwapMultiset(Contents(), cur, parent);
        Swap(cur, parent);
        cur := parent;
      }
      Risen(Contents(), cur);
    }

    /** Moves the last element to the root's place. */
    method MoveLast(memory: bool)
      requires 0 < current <= buffer.Length && buffer.Length >= VECTOR_MINIMUM_SIZE
      modifies this, buffer
      ensures 0 <= current <= buffer.Length && buffer.Length >= VECTOR_MINIMUM_SIZE
      ensures (buffer == old(buffer) || fresh(buffer))
      ensures current == old(current) - 1 && Contents() == Dropped(old(Contents()))
    {
      buffer[0] := buffer[current - 1];
      Pop(memory);
    }

    /** `heap_pop` */
    method HeapPop(memory: bool)
      requires Valid()
      modifies this, buffer
      ensures Valid() && (buffer == old(buffer) || fresh(buffer))
      ensures if old(current) == 0 then Contents() == old(Contents())
        else
          && current == old(current) - 1
          && multiset(Contents()) == multiset(old(Contents())) - multiset{old(Contents())[0]}
    {
      if current == 0 {
        return;
      }
      Replaced(Contents());
      MoveLast(memory);
      if current > 0 {
        SiftDown();
      } else {
        HeapNone(Contents());
      }
    }

    method SiftDown()
      requires 0 < current <= buffer.Length && Sinking(Contents(), 0)
      modifies buffer
      ensures Heap(Contents()) && multiset(Contents()) == multiset(old(Contents()))
    {
      var cur := 0;
      while true
        invariant Sinking(Contents(), cur) && multiset(Contents()) == multiset(old(Contents()))
        decreases current - cur
      {
        var lc := cur * 2 + 1;
        var rc := lc + 1;
        var small := cur;
        if lc < current && buffer[lc].key < buffer[small].key {
          small := lc;
        }
        if rc < current && buffer[rc].key < buffer[small].key {
          small := rc;
        }
        assert forall i :: 0 < i < current && Parent(i) == cur ==> buffer[small].key <= buffer[i].key by {
          forall i | 0 < i < current && Parent(i) == cur ensures i == lc || i == rc { Children(i, cur); }
        }
        if small == cur {
          break;
        }
        Sink(Contents(), cur, small);
        SwapMultiset(Contents(), cur, small);
        Swap(cur, small);
        cur := small;
      }
      Sunk(Contents(), cur);
    }

    /** The timer part of `sys_sleep_real`: a thread that sleeps for dt > 0 ticks. */
    method Sleep(ticks: int, dt: int, thread: int, memory: bool) returns (ok: bool)
      requires Valid() && 0 <= ticks < WORD && 0 < dt < 0x8000_0000
      modifies this, buffer
      ensures Valid() && (buffer == old(buffer) || fresh(buffer))
      ensures (ok <==> memory || old(current) < old(buffer.Length))
      ensures if ok then multiset(Contents()) == multiset(old(Contents())) + multiset{Node(SleepKey(ticks, dt), thread)}
        else Contents() == old(Contents())
    {
      ok := Insert(Node(SleepKey(ticks, dt), thread), memory);
    }

    /** `check_timers`: takes out the threads to wake, in the order in which they are made ready. Nobody who is due is
        left exactly unless a negative key that is not due stands before a due one; without negative keys precisely
        the due ones are woken. memory tells whether a smaller buffer could be had at each removal. */
    method CheckTimers(ticks: int, memory: nat -> bool) returns (woken: seq<Node>)
      requires Valid() && 0 <= ticks < WORD
      modifies this, buffer
      ensures Valid() && (buffer == old(buffer) || fresh(buffer))
      ensures multiset(woken) + multiset(Contents()) == multiset(old(Contents()))
      ensures forall n :: n in woken ==> Due(n, ticks)
      ensures Ascending(woken) && forall w, n :: w in woken && n in Contents() ==> w.key <= n.key
      ensures (forall n :: n in Contents() ==> !Due(n, ticks)) <==> !Hidden(old(Contents()), ticks)
      ensures (forall n :: n in old(Contents()) ==> n.key >= 0) ==>
        forall n :: multiset(woken)[n] == if n.key <= ticks then multiset(old(Contents()))[n] else 0
    {
      hide Heap, Due, Hidden;
      woken := [];
      while current != 0 && Due(buffer[0], ticks)
        invariant Valid() && (buffer == old(buffer) || fresh(buffer))
        invariant multiset(woken) + multiset(Contents()) == multiset(old(Contents()))
        invariant forall n :: n in woken ==> Due(n, ticks)
        invariant Ascending(woken) && forall w, n :: w in woken && n in Contents() ==> w.key <= n.key
        decreases current
      {
        ghost var before := Contents();
        var node := buffer[0];
        HeapPop(memory(|woken|));
        Taken(before, Contents(), woken);
        woken := woken + [node];
      }
      Drained(old(Contents()), woken, Contents(), ticks);
    }
  }
}
