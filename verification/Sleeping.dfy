/** Sleeping threads on both sides: the timer heap holds exactly the threads that the scheduler counts as sleeping, and
    the timer interrupt moves the due ones to the ready queue. Each method is one section under the timer lock. */
module Sleeping {
  import opened Blocking
  import opened HeapOrder
  import opened Lists
  import opened Seqs
  import opened ThreadQueues
  import opened Timers
  import opened Words

  /** The heap holds one node for each sleeper, with its key, and no other node. */
  ghost predicate Keyed(heap: seq<Node>, keys: map<Tid, int>) {
    && (forall t :: t in keys ==> -0x8000_0000 <= keys[t] < 0x8000_0000)
    && forall n :: multiset(heap)[n] == if n.value in keys && keys[n.value] == n.key then 1 else 0
  }

  /** The sleepers are those who have a key. */
  ghost predicate Asleep(sleepers: seq<Tid>, keys: map<Tid, int>) {
    forall t :: t in sleepers <==> t in keys
  }

  /** Every sleeper's tick is yet to come. */
  ghost predicate Punctual(keys: map<Tid, int>, ticks: int) {
    forall t :: t in keys ==> ticks < keys[t]
  }

  /** A due sleeper comes after one with a negative key that is not due. */
  ghost predicate Overtaken(keys: map<Tid, int>, ticks: int) {
    exists a, b :: a in keys && b in keys && keys[a] < 0 && !Due(Node(keys[a], a), ticks) && 0 <= keys[b] <= ticks
  }

  function Values(nodes: seq<Node>): (s: seq<Tid>)
    ensures |s| == |nodes| && forall i :: 0 <= i < |s| ==> s[i] == nodes[i].value
  {
    seq(|nodes|, i requires 0 <= i < |nodes| => nodes[i].value)
  }

  /** These sleepers become ready, one after the other. */
  function Roused(s: Sched, ts: seq<Tid>): Sched
    decreases ts
  {
    if ts == [] then s else Roused(Woken(s, Timer, ts[0], false), ts[1..])
  }

  lemma {:induction false} RousedMore(s: Sched, ts: seq<Tid>, t: Tid)
    ensures Roused(s, ts + [t]) == Woken(Roused(s, ts), Timer, t, false)
    decreases ts
  {
    if ts == [] {
      assert [t][1..] == [];
    } else {
      assert (ts + [t])[1..] == ts[1..] + [t];
      RousedMore(Woken(s, Timer, ts[0], false), ts[1..], t);
    }
  }

  /** They come after those who were ready before, in their order; the other queues stay as they are. */
  lemma {:induction false} RousedReady(s: Sched, ts: seq<Tid>)
    ensures var r := Roused(s, ts);
      && Of(r.queues, Ready) == Of(s.queues, Ready) + ts && r.current == s.current
      && (forall q :: q != Ready && q != Timer ==> Of(r.queues, q) == Of(s.queues, q))
      && (forall t :: t in ts ==> t in r.place && r.place[t] == In(Ready))
      && (forall t :: t in s.place && t !in ts ==> t in r.place && r.place[t] == s.place[t])
    decreases ts
  {
    if ts != [] {
      RousedReady(Woken(s, Timer, ts[0], false), ts[1..]);
      assert ts == [ts[0]] + ts[1..];
    }
  }

  /** One sleeper more. */
  lemma KeyedMore(before: seq<Node>, after: seq<Node>, keys: map<Tid, int>, key: int, t: Tid)
    requires Keyed(before, keys) && t !in keys && -0x8000_0000 <= key < 0x8000_0000
    requires multiset(after) == multiset(before) + multiset{Node(key, t)}
    ensures Keyed(after, keys[t := key])
  {
  }

  lemma ValuesIn(nodes: seq<Node>, t: Tid)
    ensures t in Values(nodes) <==> exists n :: n in nodes && n.value == t
  {
    if t in Values(nodes) {
      var i :| 0 <= i < |nodes| && Values(nodes)[i] == t;
      assert nodes[i] in nodes;
    }
    if n :| n in nodes && n.value == t {
      var i :| 0 <= i < |nodes| && nodes[i] == n;
      assert Values(nodes)[i] == t;
    }
  }

  /** Nodes of which there is no more than one each. */
  lemma OnceOnly(s: seq<Node>, i: int, j: int)
    requires 0 <= i < j < |s| && forall n :: multiset(s)[n] <= 1
    ensures s[i] != s[j]
  {
    assert s == s[..j] + s[j..];
    assert s[i] == s[..j][i] && s[j] == s[j..][0];
    assert multiset(s) == multiset(s[..j]) + multiset(s[j..]);
    assert s[..j][i] in multiset(s[..j]) && s[j..][0] in multiset(s[j..]);
    assert multiset(s)[s[i]] <= 1;
  }

  /** Those who wake were asleep with the key they wake by, and nobody wakes twice. */
  lemma KeyedWoken(heap: seq<Node>, woken: seq<Node>, rest: seq<Node>, keys: map<Tid, int>)
    requires Keyed(heap, keys) && multiset(woken) + multiset(rest) == multiset(heap)
    ensures forall n :: n in woken ==> n.value in keys && keys[n.value] == n.key
    ensures forall n :: n in rest <==> n.value in keys && keys[n.value] == n.key && n.value !in Values(woken)
    ensures NoDup(Values(woken)) && forall t :: t in Values(woken) ==> t in keys
  {
    forall n ensures multiset(woken)[n] + multiset(rest)[n]
      == if n.value in keys && keys[n.value] == n.key then 1 else 0 {
      assert (multiset(woken) + multiset(rest))[n] == multiset(heap)[n];
    }
    forall n ensures n in woken ==> n.value in keys && keys[n.value] == n.key {
      assert n in woken <==> n in multiset(woken);
    }
    forall i, j | 0 <= i < j < |woken| ensures Values(woken)[i] != Values(woken)[j] {
      assert woken[i] in woken && woken[j] in woken;
      OnceOnly(woken, i, j);
    }
    forall n ensures n in rest <==> n.value in keys && keys[n.value] == n.key && n.value !in Values(woken) {
      assert (n in rest <==> n in multiset(rest)) && (n in woken <==> n in multiset(woken));
      ValuesIn(woken, n.value);
    }
    forall t ensures t in Values(woken) ==> t in keys { ValuesIn(woken, t); }
  }

  /** The rest is still tied to the heap. */
  lemma KeyedRest(heap: seq<Node>, woken: seq<Node>, rest: seq<Node>, keys: map<Tid, int>)
    requires Keyed(heap, keys) && multiset(woken) + multiset(rest) == multiset(heap)
    ensures Keyed(rest, Kept(keys, woken))
  {
    KeyedWoken(heap, woken, rest, keys);
    forall n ensures multiset(rest)[n]
      == if n.value in Kept(keys, woken) && Kept(keys, woken)[n.value] == n.key then 1 else 0 {
      assert (multiset(woken) + multiset(rest))[n] == multiset(heap)[n];
      assert n in rest <==> n in multiset(rest);
    }
  }

  function Kept(keys: map<Tid, int>, woken: seq<Node>): map<Tid, int> {
    map t | t in keys && t !in Values(woken) :: keys[t]
  }

  /** Who of the sleepers is due and left, in terms of keys. */
  lemma WhoIsLeft(heap: seq<Node>, woken: seq<Node>, rest: seq<Node>, keys: map<Tid, int>, ticks: int)
    requires Keyed(heap, keys) && multiset(woken) + multiset(rest) == multiset(heap)
    requires (forall n :: n in rest ==> !Due(n, ticks)) <==> !Hidden(heap, ticks)
    ensures (forall t :: t in keys && t !in Values(woken) ==> !Due(Node(keys[t], t), ticks)) <==>
      !Overtaken(keys, ticks)
  {
    hide Due;
    KeyedWoken(heap, woken, rest, keys);
    assert forall n :: n in heap <==> n in multiset(heap);
    assert forall t :: t in keys ==> Node(keys[t], t) in heap && (t !in Values(woken) <==> Node(keys[t], t) in rest);
    if a, b :| a in heap && b in heap && a.key < 0 && !Due(a, ticks) && 0 <= b.key <= ticks {
      assert a == Node(keys[a.value], a.value) && keys[b.value] == b.key;
    }
    if a, b :| a in keys && b in keys && keys[a] < 0 && !Due(Node(keys[a], a), ticks) && 0 <= keys[b] <= ticks {
      assert Node(keys[a], a) in heap && Node(keys[b], b) in heap;
    }
    forall n | n in rest ensures n == Node(keys[n.value], n.value) { }
  }

  /** When nobody is late before a tick, nobody is after it: exactly those wake who asked for it. */
  lemma OnTime(heap: seq<Node>, keys: map<Tid, int>, woken: seq<Node>, before: int, ticks: int)
    requires 0 <= before < WORD && ticks == Wrap(before + 1) && Punctual(keys, before)
    requires Keyed(heap, keys)
    requires forall n :: n in woken ==> n.value in keys && keys[n.value] == n.key && Due(n, ticks)
    requires (forall t :: t in keys && t !in Values(woken) ==> !Due(Node(keys[t], t), ticks)) <==>
      !Overtaken(keys, ticks)
    ensures Punctual(Kept(keys, woken), ticks)
    ensures forall t :: t in keys ==> (t in Values(woken) <==> keys[t] == ticks)
  {
    assert !Overtaken(keys, ticks);
    forall t | t in keys ensures t in Values(woken) <==> keys[t] == ticks {
      ValuesIn(woken, t);
      assert t !in Values(woken) ==> !Due(Node(keys[t], t), ticks);
    }
  }

  /** A sleep that ends before tick 2^31 is punctual, and no other one is. */
  lemma SleepsOnTime(keys: map<Tid, int>, t: Tid, ticks: int, dt: int)
    requires Punctual(keys, ticks) && 0 <= ticks < WORD && 0 < dt < 0x8000_0000
    ensures Punctual(keys[t := SleepKey(ticks, dt)], ticks) <==> ticks + dt < 0x8000_0000
  {
    var keys' := keys[t := SleepKey(ticks, dt)];
    assert t in keys' && keys'[t] == SleepKey(ticks, dt);
  }

  /** A sleeper leaves the timer queue. */
  lemma FewerAsleep(queues: Queues, place: Places, t: Tid)
    requires Queued(queues, place)
    ensures forall u :: u in Detached(Of(queues, Timer), t) <==> u in Of(queues, Timer) && u != t
  {
    DetachedElements(Of(queues, Timer), t);
  }

  lemma Awake(queues: Queues, place: Places, t: Tid)
    requires Queued(queues, place) && t in place && place[t].Running?
    ensures t !in Of(queues, Timer)
  {
  }

  lemma JoinsSleepers(s: Sched, t: Tid, cpu: int)
    ensures Of(Next(Put(s, t, In(Timer)), cpu).queues, Timer) == Of(s.queues, Timer) + [t]
  {
  }

  /** The other steps of the scheduler leave the sleepers asleep. */
  lemma OtherSteps(s: Sched, t: Tid, p: Place, cpu: int, q: Queue, head: bool, tid: Tid)
    requires p != In(Timer) && q != Timer && cpu in s.current && tid in s.status
    ensures Of(Next(Put(s, t, p), cpu).queues, Timer) == Of(Put(s, t, p).queues, Timer) == Of(s.queues, Timer)
    ensures Of(Woken(s, q, t, head).queues, Timer) == Of(YieldedTo(s, cpu, tid).queues, Timer) == Of(s.queues, Timer)
    ensures Of(Next(s, cpu).queues, Timer) == Of(s.queues, Timer)
  {
  }

  lemma SleepersStay(s: Sched, cpu: int)
    ensures Of(Next(s, cpu).queues, Timer) == Of(s.queues, Timer)
    ensures cpu in s.current ==>
      Of(Next(Put(s, s.current[cpu], In(Ready)), cpu).queues, Timer) == Of(s.queues, Timer)
  {
  }

  class Clock {
    const kernel: Kernel
    const timers: TimerHeap
    var ticks: int
    /** When each sleeper is to wake. */
    ghost var keys: map<Tid, int>

    ghost predicate Valid()
      reads this, kernel, timers, timers.buffer
    {
      && kernel.Valid() && timers.Valid() && 0 <= ticks < WORD
      && Keyed(timers.Contents(), keys) && Asleep(Of(kernel.queues, Timer), keys)
    }

    constructor (k: Kernel, h: TimerHeap)
      requires k.Valid() && h.Valid() && h.Contents() == [] && Of(k.queues, Timer) == []
      ensures Valid() && kernel == k && timers == h && keys == map[] && ticks == 0
    {
      kernel, timers, ticks, keys := k, h, 0, map[];
    }

    /** `sys_sleep_real`, as far as it concerns the heap. */
    method Enter(t: Tid, dt: int, memory: bool) returns (ok: bool)
      requires timers.Valid() && 0 <= ticks < WORD && 0 < dt < 0x8000_0000
      requires Keyed(timers.Contents(), keys) && t !in keys
      modifies timers, timers.buffer
      ensures timers.Valid() && (timers.buffer == old(timers.buffer) || fresh(timers.buffer))
      ensures ok <==> memory || old(timers.current) < old(timers.buffer.Length)
      ensures Keyed(timers.Contents(), if ok then keys[t := SleepKey(ticks, dt)] else keys)
    {
      hide Heap, Keyed;
      ghost var heap := timers.Contents();
      ok := timers.Sleep(ticks, dt, t, memory);
      if ok { KeyedMore(heap, timers.Contents(), keys, SleepKey(ticks, dt), t); }
    }

    /** `sys_sleep_real`; memory tells whether the heap's vector can grow. */
    method Sleep(cpu: int, dt: int, memory: bool) returns (code: int)
      requires Valid() && cpu in kernel.current && cpu !in kernel.guards && dt < 0x8000_0000
      modifies this`keys, timers, timers.buffer
      modifies kernel`current, kernel`status, kernel`queues, kernel`guards, kernel`place, kernel`alone
      ensures Valid() && (timers.buffer == old(timers.buffer) || fresh(timers.buffer)) && kernel.WaitersKept()
      ensures code == if dt <= 0 then dt
        else if memory || old(timers.current) < old(timers.buffer.Length) then 0 else -2
      ensures var t := old(kernel.current[cpu]);
        if dt > 0 && code == 0
        then keys == old(keys)[t := SleepKey(ticks, dt)] && t !in old(keys)
          && kernel.S() == Next(Put(old(kernel.S()), t, In(Timer)), cpu)
        else keys == old(keys) && kernel.S() == old(kernel.S())
      ensures old(Punctual(keys, ticks)) ==>
        (Punctual(keys, ticks) <==> code != 0 || dt <= 0 || ticks + dt < 0x8000_0000)
    {
      hide Queued, OnCpus, Statuses, Locks, Heap, Keyed, Punctual, Put, Next, SleepKey;
      if dt <= 0 {
        return dt;
      }
      var t := kernel.current[cpu];
      RunsThread(kernel.current, kernel.guards, kernel.queues, kernel.place, cpu);
      Awake(kernel.queues, kernel.place, t);
      var ok := Enter(t, dt, memory);
      if !ok {
        return -2;
      }
      if Punctual(keys, ticks) { SleepsOnTime(keys, t, ticks, dt); }
      JoinsSleepers(kernel.S(), t, cpu);
      code := kernel.Sleep(cpu, dt, true);
      keys := keys[t := SleepKey(ticks, dt)];
    }

    /** `check_timers`, as far as it concerns the heap. */
    method Drain(memory: nat -> bool) returns (woken: seq<Node>)
      requires timers.Valid() && 0 <= ticks < WORD && Keyed(timers.Contents(), keys)
      modifies timers, timers.buffer
      ensures timers.Valid() && (timers.buffer == old(timers.buffer) || fresh(timers.buffer))
      ensures Keyed(timers.Contents(), Kept(keys, woken)) && Ascending(woken) && NoDup(Values(woken))
      ensures forall t :: t in Values(woken) ==> t in keys
      ensures forall n :: n in woken ==> n.value in keys && keys[n.value] == n.key && Due(n, ticks)
      ensures (forall t :: t in keys && t !in Values(woken) ==> !Due(Node(keys[t], t), ticks)) <==>
        !Overtaken(keys, ticks)
    {
      hide Heap, Keyed, Due, Hidden, Overtaken, NoDup, Ascending;
      ghost var heap := timers.Contents();
      woken := timers.CheckTimers(ticks, memory);
      ghost var rest := timers.Contents();
      KeyedWoken(heap, woken, rest, keys);
      WhoIsLeft(heap, woken, rest, keys, ticks);
      KeyedRest(heap, woken, rest, keys);
    }

    /** The timer interrupt up to `check_timers`. Those who are due are made ready in the order of their keys. Somebody
        who is due stays asleep exactly when a negative key overtakes him. Once every sleeper's tick is yet to come that
        remains so, and everybody wakes exactly at his tick. */
    method Tick(memory: nat -> bool) returns (woken: seq<Node>)
      requires Valid()
      modifies this`keys, this`ticks, timers, timers.buffer
      modifies kernel`status, kernel`queues, kernel`place, kernel`alone
      ensures Valid() && (timers.buffer == old(timers.buffer) || fresh(timers.buffer))
      ensures ticks == Wrap(old(ticks) + 1) && kernel.S() == Roused(old(kernel.S()), Values(woken))
      ensures forall n :: n in woken ==> n.value in old(keys) && old(keys)[n.value] == n.key && Due(n, ticks)
      ensures Ascending(woken) && NoDup(Values(woken)) && keys == Kept(old(keys), woken)
      ensures (forall t :: t in keys ==> !Due(Node(keys[t], t), ticks)) <==> !Overtaken(old(keys), ticks)
      ensures old(Punctual(keys, ticks)) ==>
        Punctual(keys, ticks) && forall t :: t in old(keys) ==> (t in Values(woken) <==> old(keys)[t] == ticks)
    {
      hide Queued, OnCpus, Statuses, Locks, Heap, Keyed, Due, Overtaken, Punctual, Roused, Woken, NoDup, Values,
        Ascending;
      ticks := Wrap(ticks + 1);
      ghost var heap := timers.Contents();
      woken := Drain(memory);
      if old(Punctual(keys, ticks)) { OnTime(heap, keys, woken, old(ticks), ticks); }
      Rouse(Values(woken));
      keys := Kept(keys, woken);
    }

    /** Makes these sleepers ready. */
    method Rouse(ts: seq<Tid>)
      requires kernel.Valid() && NoDup(ts) && forall t :: t in ts ==> t in Of(kernel.queues, Timer)
      modifies kernel`status, kernel`queues, kernel`place, kernel`alone
      ensures kernel.Valid() && kernel.S() == Roused(old(kernel.S()), ts)
      ensures forall t :: t in Of(kernel.queues, Timer) <==> t in old(Of(kernel.queues, Timer)) && t !in ts
    {
      hide Queued, OnCpus, Statuses, Locks;
      for i := 0 to |ts|
        invariant kernel.Valid() && kernel.S() == Roused(old(kernel.S()), ts[..i])
        invariant forall t :: t in Of(kernel.queues, Timer) <==> t in old(Of(kernel.queues, Timer)) && t !in ts[..i]
      {
        RousedMore(old(kernel.S()), ts[..i], ts[i]);
        assert ts[..i + 1] == ts[..i] + [ts[i]];
        FewerAsleep(kernel.queues, kernel.place, ts[i]);
        kernel.Expire(ts[i]);
      }
      assert ts[..|ts|] == ts;
    }

    /** `timer_handler_real`: after the tick the processor turns to the head of the ready queue, behind which its own
        thread now waits, unless it idled. */
    method Interrupt(cpu: int, memory: nat -> bool) returns (woken: seq<Node>)
      requires Valid() && cpu !in kernel.guards
      modifies this`keys, this`ticks, timers, timers.buffer
      modifies kernel`current, kernel`status, kernel`queues, kernel`guards, kernel`place, kernel`alone
      ensures Valid() && (timers.buffer == old(timers.buffer) || fresh(timers.buffer))
      ensures ticks == Wrap(old(ticks) + 1) && keys == Kept(old(keys), woken)
      ensures var r := Roused(old(kernel.S()), Values(woken));
        kernel.S() == Next(if cpu in r.current then Put(r, r.current[cpu], In(Ready)) else r, cpu)
      ensures Switched(Roused(old(kernel.S()), Values(woken)), kernel.S(), cpu,
        if cpu in old(kernel.current) then [old(kernel.current[cpu])] else [])
      ensures old(Punctual(keys, ticks)) ==>
        Punctual(keys, ticks) && forall t :: t in old(keys) ==> (t in Values(woken) <==> old(keys)[t] == ticks)
    {
      hide Queued, OnCpus, Statuses, Locks, Heap, Keyed, Roused, Punctual, Switched, Put, Next, Due, Overtaken, NoDup,
        Ascending, Kept;
      woken := Tick(memory);
      RousedReady(old(kernel.S()), Values(woken));
      SleepersStay(kernel.S(), cpu);
      if cpu in kernel.current {
        kernel.YieldAny(cpu);
      } else {
        kernel.TickIdle(cpu);
      }
    }
  }
}
