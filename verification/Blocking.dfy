/** Blocking and waking: mutexes handed to their next waiter, condition variables, descheduling, yielding and sleeping.
    Each method is one section under a spinlock; several processors may take turns between any two of them. */
module Blocking {
  import opened Lists
  import opened Seqs
  import opened ThreadQueues
  import opened Wrappers

  /** Which thread each processor runs (one that is absent idles) agrees with the threads' places. A processor inside
      `cv_wait` holds the guard of the variable, at the end of whose queue its thread already is. */
  ghost predicate OnCpus(current: map<int, Tid>, guards: map<int, int>, queues: Queues, place: Places) {
    && (forall cpu :: cpu in current ==>
         current[cpu] in place && place[current[cpu]] == if cpu in guards then In(Cv(guards[cpu])) else Running(cpu))
    && (forall t :: t in place && place[t].Running? ==> place[t].cpu in current && current[place[t].cpu] == t)
    && (forall cpu :: cpu in guards ==> cpu in current && Last(Of(queues, Cv(guards[cpu])), current[cpu]))
    && (forall a, b :: a in guards && b in guards && a != b ==> guards[a] != guards[b])
  }

  ghost predicate Last(s: seq<Tid>, t: Tid) {
    s != [] && s[|s| - 1] == t
  }

  /** A thread's status tells its place, except that one which was switched to itself still counts as ready; its links
      then point to itself. */
  ghost predicate Statuses(status: map<Tid, Status>, place: Places, alone: set<Tid>) {
    && status.Keys == place.Keys && (forall t :: t in alone ==> t in place && !place[t].In?)
    && forall t :: t in status ==>
         status[t] == StatusOf(place[t]) || (place[t].Running? && status[t] == READY && t in alone)
  }

  /** A locked mutex has one owner; an unlocked one has no waiters. */
  ghost predicate Locks(queues: Queues, locked: set<int>, owner: Owners, place: Places) {
    && owner.Keys == locked && (forall m :: m in owner && owner[m].Thread? ==> owner[m].t in place)
    && forall m :: Of(queues, Mutex(m)) != [] ==> m in locked
  }

  /** The head of the ready queue gets the processor. */
  lemma HeadRuns(current: map<int, Tid>, guards: map<int, int>, queues: Queues, place: Places, cpu: int, t: Tid)
    requires Queued(queues, place) && OnCpus(current - {cpu}, guards - {cpu}, queues, place)
    requires Of(queues, Ready) != [] && t == Of(queues, Ready)[0]
    ensures var queues', place' := queues[Ready := Of(queues, Ready)[1..]], place[t := Running(cpu)];
      Queued(queues', place') && OnCpus(current[cpu := t], guards - {cpu}, queues', place')
  {
    Remove(queues, place, Ready, t, Running(cpu));
    assert Detached(Of(queues, Ready), t) == Of(queues, Ready)[1..];
    var queues', place' := queues[Ready := Of(queues, Ready)[1..]], place[t := Running(cpu)];
    var current', guards' := current[cpu := t], guards - {cpu};
    assert t in place && place[t] == In(Ready);
    forall c | c in current' && c != cpu ensures current'[c] != t {
      assert c in current - {cpu};
      assert place[current[c]] == if c in guards' then In(Cv(guards'[c])) else Running(c);
    }
  }

  /** What the scheduler changes. The links of the threads in `alone` point to themselves: each was the only one of the
      queue it was last taken from and has been in none since. */
  datatype Sched = Sched(current: map<int, Tid>, status: map<Tid, Status>, queues: Queues, place: Places,
    alone: set<Tid>)

  /** Thread t is taken off a queue, if it is there. Only then do its links change, and the last one's point to itself
      afterwards. */
  function Unlinked(alone: set<Tid>, s: seq<Tid>, t: Tid): set<Tid> {
    if s == [t] then alone + {t} else if t in s then alone - {t} else alone
  }

  /** A thread goes to a place, to the end of the queue if it is one. */
  function Put(s: Sched, t: Tid, p: Place): Sched {
    s.(status := s.status[t := StatusOf(p)], place := s.place[t := p],
       queues := if p.In? then s.queues[p.q := Of(s.queues, p.q) + [t]] else s.queues,
       alone := if p.In? then s.alone - {t} else s.alone)
  }

  /** A thread leaves a queue and becomes ready, first or last. */
  function Woken(s: Sched, q: Queue, t: Tid, head: bool): Sched {
    var queues := s.queues[q := Detached(Of(s.queues, q), t)];
    s.(status := s.status[t := READY], place := s.place[t := In(Ready)], alone := s.alone - {t},
       queues := queues[Ready := if head then [t] + Of(queues, Ready) else Of(queues, Ready) + [t]])
  }

  /** A processor turns to the head of the ready queue, or idles. */
  function Next(s: Sched, cpu: int): Sched {
    var ready := Of(s.queues, Ready);
    if ready == [] then s.(current := s.current - {cpu})
    else
      var t := ready[0];
      Sched(s.current[cpu := t], if cpu in s.current && s.current[cpu] == t then s.status else s.status[t := RUNNING],
            s.queues[Ready := ready[1..]], s.place[t := Running(cpu)], Unlinked(s.alone, ready, t))
  }

  /** The processor turns to the first of those who were ready and, behind them, those in tail, or idles when there is
      none. The other processors run what they ran. Only a thread that was the only one gets links to itself. */
  ghost predicate Switched(s: Sched, s': Sched, cpu: int, tail: seq<Tid>) {
    var all := Of(s.queues, Ready) + tail;
    && (if all == [] then cpu !in s'.current && Of(s'.queues, Ready) == []
        else cpu in s'.current && s'.current[cpu] == all[0] && Of(s'.queues, Ready) == all[1..])
    && s'.current - {cpu} == s.current - {cpu}
    && forall u :: u in s'.alone ==> all == [u] || (u in s.alone && (all != [] ==> u != all[0]))
  }

  /** These are ready now, and every processor runs what it ran. */
  ghost predicate Readied(s: Sched, s': Sched, ready: seq<Tid>) {
    Of(s'.queues, Ready) == ready && s'.current == s.current && s'.alone <= s.alone
  }

  lemma NextSwitches(s: Sched, cpu: int)
    ensures Switched(s, Next(s, cpu), cpu, [])
  {
    assert Of(s.queues, Ready) + [] == Of(s.queues, Ready);
  }

  lemma PutSwitches(s: Sched, t: Tid, p: Place, cpu: int)
    ensures Switched(s, Next(Put(s, t, p), cpu), cpu, if p == In(Ready) then [t] else [])
  {
    assert Of(s.queues, Ready) + [] == Of(s.queues, Ready);
  }

  /** A thread that was made ready first is the one to run next, on whichever processor a thread is chosen next, whoever
      ran there before and wherever that one goes. */
  lemma FirstRunsNext(s: Sched, s': Sched, t: Tid, u: Tid, p: Place, cpu: int)
    requires Readied(s, s', [t] + Of(s.queues, Ready))
    ensures var n, o := Next(s', cpu), Next(Put(s', u, p), cpu);
      cpu in n.current && n.current[cpu] == t && cpu in o.current && o.current[cpu] == t
    ensures Of(Next(s', cpu).queues, Ready) == Of(s.queues, Ready)
    ensures Of(Next(Put(s', u, p), cpu).queues, Ready) == Of(s.queues, Ready) + if p == In(Ready) then [u] else []
  {
    NextSwitches(s', cpu);
    PutSwitches(s', u, p, cpu);
    assert ([t] + Of(s.queues, Ready))[1..] == Of(s.queues, Ready);
  }

  /** A thread goes to a place, and its status tells which. */
  lemma StatusesPut(status: map<Tid, Status>, place: Places, alone: set<Tid>, t: Tid, p: Place)
    requires Statuses(status, place, alone)
    ensures Statuses(status[t := StatusOf(p)], place[t := p], alone - {t})
    ensures !p.In? ==> Statuses(status[t := StatusOf(p)], place[t := p], alone)
  {
  }

  /** A thread is gone, and with it its mutexes. */
  lemma Gone(status: map<Tid, Status>, queues: Queues, locked: set<int>, owner: Owners, place: Places, alone: set<Tid>,
      t: Tid, cpu: int)
    requires Statuses(status, place, alone) && Locks(queues, locked, owner, place)
    ensures Statuses(status - {t}, place - {t}, alone - {t})
    ensures Locks(queues, locked, Inherited(owner, t, cpu), place - {t})
  {
  }

  function Inherited(owner: Owners, t: Tid, cpu: int): Owners {
    map m | m in owner :: if owner[m] == Thread(t) then Cleanup(cpu) else owner[m]
  }

  /** The head of the ready queue runs. */
  lemma StatusesNext(current: map<int, Tid>, status: map<Tid, Status>, queues: Queues, place: Places, alone: set<Tid>,
      cpu: int)
    requires Statuses(status, place, alone) && Queued(queues, place) && Of(queues, Ready) != []
    requires AtEnd(current, queues, cpu)
    ensures var s := Next(Sched(current, status, queues, place, alone), cpu);
      Statuses(s.status, s.place, s.alone) && s.place.Keys == place.Keys
  {
    var ready := Of(queues, Ready);
    var t := ready[0];
    assert t in ready;
    PlaceOf(queues, place, Ready, t);
    if cpu in current && current[cpu] == t { assert ready == [t]; }
  }

  lemma NotReady(queues: Queues, place: Places, t: Tid)
    requires Queued(queues, place) && t in place && place[t] != In(Ready)
    ensures t !in Of(queues, Ready)
  {
  }

  /** If the thread that a processor turns away from is ready, it is the last one that is. */
  ghost predicate AtEnd(current: map<int, Tid>, queues: Queues, cpu: int) {
    cpu in current && current[cpu] in Of(queues, Ready) ==> Last(Of(queues, Ready), current[cpu])
  }

  lemma LocksPut(queues: Queues, locked: set<int>, owner: Owners, place: Places, t: Tid, p: Place)
    requires Locks(queues, locked, owner, place) && (p.In? && p.q.Mutex? ==> p.q.m in locked)
    ensures Locks(if p.In? then queues[p.q := Of(queues, p.q) + [t]] else queues, locked, owner, place[t := p])
  {
    var queues' := if p.In? then queues[p.q := Of(queues, p.q) + [t]] else queues;
    forall m | Of(queues', Mutex(m)) != [] ensures m in locked {
      assert !(p.In? && p.q == Mutex(m)) ==> Of(queues, Mutex(m)) == Of(queues', Mutex(m));
    }
  }

  lemma LocksWoken(queues: Queues, locked: set<int>, owner: Owners, place: Places, q: Queue, t: Tid, head: bool)
    requires Locks(queues, locked, owner, place)
    ensures var queues1 := queues[q := Detached(Of(queues, q), t)];
      var queues' := queues1[Ready := if head then [t] + Of(queues1, Ready) else Of(queues1, Ready) + [t]];
      Locks(queues', locked, owner, place[t := In(Ready)])
  {
    var queues1 := queues[q := Detached(Of(queues, q), t)];
    var queues' := queues1[Ready := if head then [t] + Of(queues1, Ready) else Of(queues1, Ready) + [t]];
    forall m | Of(queues', Mutex(m)) != [] ensures m in locked {
      assert Of(queues, Mutex(m)) == [] ==> Detached(Of(queues, Mutex(m)), t) == [];
    }
  }

  lemma RunsThread(current: map<int, Tid>, guards: map<int, int>, queues: Queues, place: Places, cpu: int)
    requires OnCpus(current, guards, queues, place) && cpu in current
    ensures current[cpu] in place && place[current[cpu]] == if cpu in guards then In(Cv(guards[cpu])) else Running(cpu)
  {
  }

  /** A descheduled or new thread becomes ready. */
  lemma Awakes(current: map<int, Tid>, guards: map<int, int>, queues: Queues, place: Places, t: Tid)
    requires Queued(queues, place) && OnCpus(current, guards, queues, place)
    requires (t in place ==> place[t] == Place.Descheduled)
    ensures var queues' := queues[Ready := Of(queues, Ready) + [t]];
      Queued(queues', place[t := In(Ready)]) && OnCpus(current, guards, queues', place[t := In(Ready)])
  {
    InsertTail(queues, place, Ready, t);
    forall c | c in current ensures current[c] != t {
      assert place[current[c]] == if c in guards then In(Cv(guards[c])) else Running(c);
    }
  }

  /** `sys_yield_real` to a thread: with a running one the processor turns to the head of the ready queue. */
  function YieldedTo(s: Sched, cpu: int, tid: Tid): Sched
    requires cpu in s.current && tid in s.status
  {
    var t, ready := s.current[cpu], Of(s.queues, Ready);
    var u := if s.status[tid] == RUNNING then (if ready == [] then None else Some(ready[0])) else Some(tid);
    var rest := if u == None then [] else Detached(ready, u.value);
    var status := s.status[t := READY];
    Sched(if u == None then s.current - {cpu} else s.current[cpu := u.value],
          if u == None || u.value == t then status else status[u.value := RUNNING],
          s.queues[Ready := rest + [t]],
          if u == None then s.place[t := In(Ready)] else s.place[t := In(Ready)][u.value := Running(cpu)],
          (if u == None then s.alone else Unlinked(s.alone, ready, u.value)) - {t})
  }

  /** What yielding to a thread does: if that counts as ready it runs, and the others who were ready stay so in their
      order, with the yielding thread behind them. For a thread that runs, the first of those who were ready runs, or
      nobody when there was none. */
  ghost predicate Yielded(s: Sched, s': Sched, cpu: int, tid: Tid)
    requires cpu in s.current && tid in s.status
  {
    var t, ready, ready' := s.current[cpu], Of(s.queues, Ready), Of(s'.queues, Ready);
    && s'.current - {cpu} == s.current - {cpu}
    && (if s.status[tid] == READY then
          && cpu in s'.current && s'.current[cpu] == tid && (tid !in ready ==> ready' == ready + [t])
          && forall k :: 0 <= k < |ready| && ready[k] == tid ==> ready' == ready[..k] + ready[k + 1..] + [t]
        else if ready == [] then cpu !in s'.current && ready' == [t]
        else cpu in s'.current && s'.current[cpu] == ready[0] && ready' == ready[1..] + [t])
    && forall u :: u in s'.alone ==>
         u != t && (ready == [u] || (u in s.alone && (cpu in s'.current && u in ready ==> u != s'.current[cpu])))
  }

  lemma SameKeys(status: map<Tid, Status>, place: Places, alone: set<Tid>)
    requires Statuses(status, place, alone)
    ensures forall t :: t in status <==> t in place
  {
  }

  lemma StatusMeans(status: map<Tid, Status>, place: Places, alone: set<Tid>, tid: Tid)
    requires Statuses(status, place, alone) && tid in status
    ensures tid in place
    ensures status[tid] == RUNNING || status[tid] == READY <==> place[tid].Running? || place[tid] == In(Ready)
  {
  }

  lemma YieldTarget(s: Sched, cpu: int, tid: Tid)
    requires Queued(s.queues, s.place) && cpu in s.current && tid in s.status
    requires s.status[tid] == RUNNING || s.status[tid] == READY
    ensures Yielded(s, YieldedTo(s, cpu, tid), cpu, tid)
  {
    var ready := Of(s.queues, Ready);
    assert NoDup(ready);
    forall k | 0 <= k < |ready| && ready[k] == tid ensures Detached(ready, tid) == ready[..k] + ready[k + 1..] {
      DetachedAt(ready, k);
    }
    if tid !in ready { DetachedNone(ready, tid); }
  }

  /** The mutexes that a thread owned pass to the clean-up after it. */
  function Bequeathed(l: Lock, t: Tid, cpu: int): Lock {
    if l.owner == Some(Thread(t)) then l.(owner := Some(Cleanup(cpu))) else l
  }

  /** All that `Kernel.Valid` asks. */
  ghost predicate Inv(s: Sched, guards: map<int, int>, locked: set<int>, owner: Owners) {
    && Queued(s.queues, s.place) && OnCpus(s.current, guards, s.queues, s.place)
    && Statuses(s.status, s.place, s.alone) && Locks(s.queues, locked, owner, s.place)
  }

  /** Yielding to a thread that waits in the ready queue. */
  lemma YieldReady(s: Sched, guards: map<int, int>, cpu: int, tid: Tid)
    requires Queued(s.queues, s.place) && OnCpus(s.current, guards, s.queues, s.place) && cpu in s.current
    requires cpu !in guards
    requires tid in Of(s.queues, Ready)
    ensures var t, queues := s.current[cpu], s.queues[Ready := Detached(Of(s.queues, Ready), tid) + [s.current[cpu]]];
      var place := s.place[t := In(Ready)][tid := Running(cpu)];
      tid != t && Queued(queues, place) && OnCpus(s.current[cpu := tid], guards, queues, place)
  {
    hide Queued;
    var t := s.current[cpu];
    PlaceOf(s.queues, s.place, Ready, tid);
    RunsThread(s.current, guards, s.queues, s.place, cpu);
    Remove(s.queues, s.place, Ready, tid, Place.Descheduled);
    var queues1, place1 := s.queues[Ready := Detached(Of(s.queues, Ready), tid)], s.place[tid := Place.Descheduled];
    assert OnCpus(s.current, guards, queues1, place1) by {
      forall c | c in s.current ensures s.current[c] != tid {
        assert s.place[s.current[c]] == if c in guards then In(Cv(guards[c])) else Running(c);
      }
    }
    Leaves(s.current, guards, queues1, place1, cpu, Ready, In(Ready));
    var queues2, place2 := queues1[Ready := Of(queues1, Ready) + [t]], place1[t := In(Ready)];
    Elsewhere(queues2, place2, tid, Running(cpu));
    var place3 := s.place[t := In(Ready)][tid := Running(cpu)];
    assert place2[tid := Running(cpu)] == place3;
    assert queues2 == s.queues[Ready := Detached(Of(s.queues, Ready), tid) + [t]];
    assert guards - {cpu} == guards;
    forall c | c in s.current && c != cpu ensures s.current[c] != tid {
      assert s.place[s.current[c]] == if c in guards then In(Cv(guards[c])) else Running(c);
    }
  }

  /** Yielding to a running thread while the ready queue is empty. */
  lemma YieldNone(s: Sched, guards: map<int, int>, cpu: int)
    requires Queued(s.queues, s.place) && OnCpus(s.current, guards, s.queues, s.place) && cpu in s.current
    requires cpu !in guards
    requires Of(s.queues, Ready) == []
    ensures var t, queues := s.current[cpu], s.queues[Ready := [s.current[cpu]]];
      Queued(queues, s.place[t := In(Ready)]) && OnCpus(s.current - {cpu}, guards, queues, s.place[t := In(Ready)])
  {
    Leaves(s.current, guards, s.queues, s.place, cpu, Ready, In(Ready));
    assert guards - {cpu} == guards && Of(s.queues, Ready) + [s.current[cpu]] == [s.current[cpu]];
  }

  /** Yielding to a thread that runs while counted as ready leaves it in two places. */
  lemma YieldStale(s: Sched, guards: map<int, int>, cpu: int, tid: Tid, p: Places)
    requires Queued(s.queues, s.place) && OnCpus(s.current, guards, s.queues, s.place) && cpu in s.current
    requires cpu !in guards
    requires tid in s.status && tid in s.place && s.place[tid].Running? && s.status[tid] == READY
    ensures var y := YieldedTo(s, cpu, tid); !(Queued(y.queues, p) && OnCpus(y.current, guards, y.queues, p))
  {
    var y, t, other := YieldedTo(s, cpu, tid), s.current[cpu], s.place[tid].cpu;
    assert tid !in Of(s.queues, Ready);
    assert s.current[other] == tid && other !in guards;
    if tid == t {
      assert Of(y.queues, Ready)[|Of(y.queues, Ready)| - 1] == t;
      assert y.current[cpu] == t;
    } else {
      assert y.current[cpu] == tid && y.current[other] == tid && cpu != other;
    }
  }

  lemma YieldKeeps(current: map<int, Tid>, guards: map<int, int>, status: map<Tid, Status>, queues: Queues,
      locked: set<int>, owner: Owners, place: Places, alone: set<Tid>, cpu: int, tid: Tid)
    requires var s := Sched(current, status, queues, place, alone); Inv(s, guards, locked, owner)
    requires cpu in current && cpu !in guards && tid in status && (status[tid] == RUNNING || status[tid] == READY)
    ensures var y := YieldedTo(Sched(current, status, queues, place, alone), cpu, tid);
      if status[tid] == READY && place[tid].Running?
      then forall p: Places :: !(Queued(y.queues, p) && OnCpus(y.current, guards, y.queues, p))
      else Inv(y, guards, locked, owner)
    ensures forall q ::
      q != Ready ==> Of(YieldedTo(Sched(current, status, queues, place, alone), cpu, tid).queues, q) == Of(queues, q)
    ensures status[tid] == READY ==> if place[tid].Running? then tid in alone else tid in Of(queues, Ready)
    ensures var s := Sched(current, status, queues, place, alone); Yielded(s, YieldedTo(s, cpu, tid), cpu, tid)
  {
    hide Yielded;
    YieldTarget(Sched(current, status, queues, place, alone), cpu, tid);
    var s, t := Sched(current, status, queues, place, alone), current[cpu];
    if status[tid] == READY && place[tid].Running? {
      forall p: Places
        ensures var y := YieldedTo(s, cpu, tid); !(Queued(y.queues, p) && OnCpus(y.current, guards, y.queues, p))
      {
        YieldStale(s, guards, cpu, tid, p);
      }
    } else {
      YieldPlaces(s, guards, cpu, tid);
      YieldRest(s, guards, locked, owner, cpu, tid);
    }
  }

  lemma YieldPlaces(s: Sched, guards: map<int, int>, cpu: int, tid: Tid)
    requires Queued(s.queues, s.place) && OnCpus(s.current, guards, s.queues, s.place)
    requires Statuses(s.status, s.place, s.alone)
    requires cpu in s.current && cpu !in guards && tid in s.status
    requires s.status[tid] == RUNNING || (s.status[tid] == READY && !s.place[tid].Running?)
    ensures var y := YieldedTo(s, cpu, tid); Queued(y.queues, y.place) && OnCpus(y.current, guards, y.queues, y.place)
  {
    var ready := Of(s.queues, Ready);
    if s.status[tid] == READY {
      assert s.place[tid] == In(Ready) && tid in ready;
      YieldReady(s, guards, cpu, tid);
    } else if ready == [] {
      YieldNone(s, guards, cpu);
      assert [] + [s.current[cpu]] == [s.current[cpu]];
    } else {
      YieldReady(s, guards, cpu, ready[0]);
    }
  }

  lemma YieldRest(s: Sched, guards: map<int, int>, locked: set<int>, owner: Owners, cpu: int, tid: Tid)
    requires Inv(s, guards, locked, owner) && cpu in s.current && cpu !in guards && tid in s.status
    requires s.status[tid] == RUNNING || (s.status[tid] == READY && !s.place[tid].Running?)
    ensures var y := YieldedTo(s, cpu, tid);
      Statuses(y.status, y.place, y.alone) && Locks(y.queues, locked, owner, y.place) && y.place.Keys == s.place.Keys
  {
    var y, ready, t := YieldedTo(s, cpu, tid), Of(s.queues, Ready), s.current[cpu];
    RunsThread(s.current, guards, s.queues, s.place, cpu);
    if ready != [] { PlaceOf(s.queues, s.place, Ready, ready[0]); }
    forall m ensures Of(y.queues, Mutex(m)) == Of(s.queues, Mutex(m)) { }
  }

  /** A mutex's waiters are touched only by what concerns that mutex. */
  lemma OtherQueues(s: Sched, t: Tid, p: Place, cpu: int, q: Queue)
    requires q != Ready && p != In(q)
    ensures Of(Next(Put(s, t, p), cpu).queues, q)
      == Of(s.queues, q) == Of(Next(s, cpu).queues, q) == Of(Put(s, t, p).queues, q)
  {
  }

  lemma OtherWoken(s: Sched, r: Queue, t: Tid, head: bool, q: Queue)
    requires q != Ready && q != r
    ensures Of(Woken(s, r, t, head).queues, q) == Of(s.queues, q)
  {
  }

  /** The thread joins the queue of a condition variable while its processor takes the variable's guard. */
  lemma Enters(current: map<int, Tid>, guards: map<int, int>, queues: Queues, place: Places, cpu: int, c: int)
    requires Queued(queues, place) && OnCpus(current, guards, queues, place) && cpu in current && cpu !in guards
    requires Free(guards, c)
    ensures var t := current[cpu];
      var queues', place' := queues[Cv(c) := Of(queues, Cv(c)) + [t]], place[t := In(Cv(c))];
      && t in place && place[t] == Running(cpu) && Queued(queues', place')
      && OnCpus(current, guards[cpu := c], queues', place')
  {
    hide Queued;
    var t := current[cpu];
    InsertTail(queues, place, Cv(c), t);
    forall k | k in current && k != cpu ensures current[k] != t {
      assert place[current[k]] == if k in guards then In(Cv(guards[k])) else Running(k);
    }
  }

  /** No processor holds the guard of condition variable c. */
  predicate Free(guards: map<int, int>, c: int) {
    forall cpu :: cpu in guards ==> guards[cpu] != c
  }

  /** The thread of a processor goes elsewhere, at the end of a queue or out of all of them. */
  lemma Leaves(current: map<int, Tid>, guards: map<int, int>, queues: Queues, place: Places, cpu: int, q: Queue,
      p: Place)
    requires Queued(queues, place) && OnCpus(current, guards, queues, place) && cpu in current && cpu !in guards
    requires p.In? ==> p == In(q) && (q.Cv? ==> Free(guards, q.c))
    requires !p.Running?
    ensures var t := current[cpu]; var queues' := if p.In? then queues[q := Of(queues, q) + [t]] else queues;
      && t in place && place[t] == Running(cpu)
      && Queued(queues', place[t := p]) && OnCpus(current - {cpu}, guards - {cpu}, queues', place[t := p])
  {
    var t := current[cpu];
    if p.In? { InsertTail(queues, place, q, t); } else { Elsewhere(queues, place, t, p); }
    forall c | c in current && c != cpu ensures current[c] != t {
      assert place[current[c]] == if c in guards then In(Cv(guards[c])) else Running(c);
    }
  }

  /** The thread of a processor is gone. */
  lemma Departs(current: map<int, Tid>, guards: map<int, int>, queues: Queues, place: Places, cpu: int)
    requires Queued(queues, place) && OnCpus(current, guards, queues, place) && cpu in current && cpu !in guards
    ensures var t := current[cpu]; Queued(queues, place - {t}) && OnCpus(current - {cpu}, guards, queues, place - {t})
  {
    hide Queued;
    var t := current[cpu];
    Elsewhere(queues, place, t, Place.Descheduled);
    forall c | c in current && c != cpu ensures current[c] != t {
      assert place[current[c]] == if c in guards then In(Cv(guards[c])) else Running(c);
    }
  }

  /** A waiting thread becomes ready. */
  lemma Wakes(current: map<int, Tid>, guards: map<int, int>, queues: Queues, place: Places, q: Queue, t: Tid,
      head: bool)
    requires Queued(queues, place) && OnCpus(current, guards, queues, place) && q != Ready
    requires (q.Cv? ==> Free(guards, q.c))
    requires t in Of(queues, q)
    ensures var queues1 := queues[q := Detached(Of(queues, q), t)];
      var queues' := queues1[Ready := if head then [t] + Of(queues1, Ready) else Of(queues1, Ready) + [t]];
      Queued(queues', place[t := In(Ready)]) && OnCpus(current, guards, queues', place[t := In(Ready)])
  {
    hide Queued;
    var queues1, place1 := queues[q := Detached(Of(queues, q), t)], place[t := Descheduled];
    PlaceOf(queues, place, q, t);
    Remove(queues, place, q, t, Descheduled);
    if head { InsertHead(queues1, place1, Ready, t); } else { InsertTail(queues1, place1, Ready, t); }
    assert place1[t := In(Ready)] == place[t := In(Ready)];
    forall c | c in current ensures current[c] != t {
      assert place[current[c]] == if c in guards then In(Cv(guards[c])) else Running(c);
    }
  }

  class Kernel {
    var current: map<int, Tid>
    var status: map<Tid, Status>
    var queues: Queues
    var locked: set<int>
    var guards: map<int, int>
    ghost var place: Places
    ghost var owner: Owners
    ghost var alone: set<Tid>
    /** The threads that each condition variable's signals have woken so far. */
    ghost var woken: map<int, seq<Tid>>

    ghost predicate Valid()
      reads this
    {
      && Queued(queues, place) && OnCpus(current, guards, queues, place)
      && Statuses(status, place, alone) && Locks(queues, locked, owner, place)
    }

    /** The same, when the thread that cpu ran has been put elsewhere. */
    ghost predicate Vacated(cpu: int)
      reads this
    {
      && AtEnd(current, queues, cpu)
      && Queued(queues, place) && OnCpus(current - {cpu}, guards - {cpu}, queues, place)
      && Statuses(status, place, alone) && Locks(queues, locked, owner, place)
    }

    ghost function LockOf(m: int): Lock
      reads this
    {
      Lock(if m in owner then Some(owner[m]) else None, Of(queues, Mutex(m)))
    }

    ghost function CvOf(c: int): Waiting
      reads this
    {
      Waiting(Of(queues, Cv(c)), if c in woken then woken[c] else [])
    }

    /** All mutexes and condition variables are as they were. */
    twostate predicate WaitersKept()
      reads this
    {
      (forall m :: LockOf(m) == old(LockOf(m))) && forall c :: CvOf(c) == old(CvOf(c))
    }

    ghost function S(): Sched
      reads this
    {
      Sched(current, status, queues, place, alone)
    }

    /** `select_next` and the switch to the thread it chose. The switch is skipped, status and all, when that thread was
        running here before. */
    method Reschedule(cpu: int)
      requires Vacated(cpu)
      modifies this`current, this`status, this`queues, this`guards, this`place, this`alone
      ensures Valid() && guards == old(guards) - {cpu} && S() == Next(old(S()), cpu) && place.Keys == old(place.Keys)
      ensures Switched(old(S()), S(), cpu, [])
    {
      hide Queued, OnCpus, Statuses, Switched;
      var ready := Of(queues, Ready);
      NextSwitches(S(), cpu);
      guards := guards - {cpu};
      if ready == [] {
        current := current - {cpu};
      } else {
        var t := ready[0];
        StatusesNext(current, status, queues, place, alone, cpu);
        HeadRuns(current, old(guards), queues, place, cpu, t);
        queues := queues[Ready := ready[1..]];
        place, alone := place[t := Running(cpu)], Unlinked(alone, ready, t);
        if !(cpu in current && current[cpu] == t) {
          current := current[cpu := t];
          status := status[t := RUNNING];
        } else {
          assert current[cpu := t] == current;
        }
      }
    }

    /** The thread that cpu runs, when it is not inside `cv_wait`, is put elsewhere and another one chosen. */
    method Block(cpu: int, p: Place)
      requires Valid() && cpu in current && cpu !in guards && !p.Running? && (p.In? && p.q.Cv? ==> Free(guards, p.q.c))
      modifies this`current, this`status, this`queues, this`guards, this`place, this`alone
      requires p.In? && p.q.Mutex? ==> p.q.m in locked
      ensures Valid() && guards == old(guards) && S() == Next(Put(old(S()), old(current[cpu]), p), cpu)
      ensures place.Keys == old(place.Keys)
      ensures Switched(old(S()), S(), cpu, if p == In(Ready) then [old(current[cpu])] else [])
    {
      hide Queued, OnCpus, Statuses, Locks, Switched;
      var t := current[cpu];
      PutSwitches(S(), t, p, cpu);
      RunsThread(current, guards, queues, place, cpu);
      Leaves(current, guards, queues, place, cpu, if p.In? then p.q else Ready, p);
      LocksPut(queues, locked, owner, place, t, p);
      StatusesPut(status, place, alone, t, p);
      if p.In? {
        queues := queues[p.q := Of(queues, p.q) + [t]];
        alone := alone - {t};
      }
      status := status[t := StatusOf(p)];
      place := place[t := p];
      assert guards - {cpu} == guards;
      if p != In(Ready) { NotReady(queues, place, t); }
      Reschedule(cpu);
    }

    /** Thread t, which waits in q, becomes ready. */
    method Wake(q: Queue, t: Tid, head: bool)
      requires Valid() && t in Of(queues, q) && q != Ready && (q.Cv? ==> Free(guards, q.c))
      modifies this`status, this`queues, this`place, this`alone
      ensures Valid() && S() == Woken(old(S()), q, t, head) && place.Keys == old(place.Keys)
    {
      hide Queued, OnCpus, Statuses, Locks, Detached;
      PlaceOf(queues, place, q, t);
      StatusesPut(status, place, alone, t, In(Ready));
      Wakes(current, guards, queues, place, q, t, head);
      LocksWoken(queues, locked, owner, place, q, t, head);
      queues := queues[q := Detached(Of(queues, q), t)];
      queues := queues[Ready := if head then [t] + Of(queues, Ready) else Of(queues, Ready) + [t]];
      status := status[t := READY];
      place, alone := place[t := In(Ready)], alone - {t};
    }

    // ----- mutexes -----

    /** `mutex_lock` by the thread on cpu */
    method MutexLock(cpu: int, m: int)
      requires Valid() && cpu in current && cpu !in guards
      modifies this`current, this`status, this`queues, this`guards, this`place, this`alone, this`locked, this`owner
      ensures Valid() && guards == old(guards) && place.Keys == old(place.Keys)
      ensures LockOf(m) == Apply(old(LockOf(m)), Acquire(old(current[cpu])))
      ensures (forall n :: n != m ==> LockOf(n) == old(LockOf(n))) && forall c :: CvOf(c) == old(CvOf(c))
      ensures S() == if m in old(locked) then Next(Put(old(S()), old(current[cpu]), In(Mutex(m))), cpu) else old(S())
      ensures var t, waiters := old(current[cpu]), old(Of(queues, Mutex(m)));
        if m in old(locked) then Of(queues, Mutex(m)) == waiters + [t] && Switched(old(S()), S(), cpu, [])
        else m in owner && owner[m] == Thread(t) && Readied(old(S()), S(), old(Of(queues, Ready)))
    {
      hide Queued, OnCpus;
      var t := current[cpu];
      if m !in locked {
        RunsThread(current, guards, queues, place, cpu);
        locked := locked + {m};
        owner := owner[m := Thread(t)];
        return;
      }
      ghost var s := S();
      Block(cpu, In(Mutex(m)));
      forall n | n != m ensures LockOf(n) == old(LockOf(n)) { OtherQueues(s, t, In(Mutex(m)), cpu, Mutex(n)); }
      forall c ensures CvOf(c) == old(CvOf(c)) { OtherQueues(s, t, In(Mutex(m)), cpu, Cv(c)); }
    }

    /** `mutex_unlock` by the owner, which may be inside `cv_wait` or the clean-up after a thread: the first waiter owns
        the mutex from now on. */
    method MutexUnlock(cpu: int, m: int)
      requires Valid() && m in owner
      requires (cpu in current && owner[m] == Thread(current[cpu])) || owner[m] == Cleanup(cpu)
      modifies this`status, this`queues, this`place, this`alone, this`locked, this`owner
      ensures Valid() && place.Keys == old(place.Keys)
      ensures LockOf(m) == Apply(old(LockOf(m)), Release)
      ensures (forall n :: n != m ==> LockOf(n) == old(LockOf(n))) && forall c :: CvOf(c) == old(CvOf(c))
      ensures var waiters := old(Of(queues, Mutex(m)));
        S() == if waiters == [] then old(S()) else Woken(old(S()), Mutex(m), waiters[0], true)
      ensures var waiters, ready := old(Of(queues, Mutex(m))), old(Of(queues, Ready));
        if waiters == [] then m !in locked && Readied(old(S()), S(), ready)
        else m in owner && owner[m] == Thread(waiters[0]) && Readied(old(S()), S(), [waiters[0]] + ready)
    {
      hide Queued, OnCpus;
      var waiters := Of(queues, Mutex(m));
      if waiters == [] {
        locked := locked - {m};
        owner := owner - {m};
        return;
      }
      ghost var s := S();
      var t := waiters[0];
      PlaceOf(queues, place, Mutex(m), t);
      Wake(Mutex(m), t, true);
      owner := owner[m := Thread(t)];
      forall n | n != m ensures LockOf(n) == old(LockOf(n)) { OtherWoken(s, Mutex(m), t, true, Mutex(n)); }
      forall c ensures CvOf(c) == old(CvOf(c)) { OtherWoken(s, Mutex(m), t, true, Cv(c)); }
    }

    // ----- condition variables -----

    /** `cv_wait`, first part: with the guard in hand the thread joins the queue. Then it unlocks the mutex. */
    method CvEnter(cpu: int, c: int)
      requires Valid() && cpu in current && cpu !in guards && Free(guards, c)
      modifies this`status, this`queues, this`guards, this`place, this`alone
      ensures Valid() && guards == old(guards)[cpu := c] && place.Keys == old(place.Keys)
      ensures S() == Put(old(S()), current[cpu], In(Cv(c))) && (forall m :: LockOf(m) == old(LockOf(m)))
      ensures Of(queues, Cv(c)) == old(Of(queues, Cv(c))) + [current[cpu]]
      ensures Readied(old(S()), S(), old(Of(queues, Ready)))
      ensures CvOf(c) == ApplyCv(old(CvOf(c)), Wait(current[cpu])) && forall d :: d != c ==> CvOf(d) == old(CvOf(d))
    {
      hide Queued, OnCpus, Statuses, Locks;
      var t := current[cpu];
      Enters(current, guards, queues, place, cpu, c);
      LocksPut(queues, locked, owner, place, t, In(Cv(c)));
      StatusesPut(status, place, alone, t, In(Cv(c)));
      queues := queues[Cv(c) := Of(queues, Cv(c)) + [t]];
      status := status[t := BLOCKED];
      place, alone := place[t := In(Cv(c))], alone - {t};
      guards := guards[cpu := c];
    }

    /** `cv_wait`, last part: the processor turns to another thread and releases the guard. */
    method CvLeave(cpu: int)
      requires Valid() && cpu in guards
      modifies this`current, this`status, this`queues, this`guards, this`place, this`alone
      ensures Valid() && guards == old(guards) - {cpu} && S() == Next(old(S()), cpu) && place.Keys == old(place.Keys)
      ensures WaitersKept() && Switched(old(S()), S(), cpu, [])
    {
      hide Queued, Statuses, Locks;
      NotReady(queues, place, current[cpu]);
      Reschedule(cpu);
    }

    /** `cv_signal`: it waits for the guard, then wakes the first waiter. */
    method CvSignal(c: int)
      requires Valid() && Free(guards, c)
      modifies this`status, this`queues, this`place, this`alone, this`woken
      ensures Valid() && place.Keys == old(place.Keys) && (forall m :: LockOf(m) == old(LockOf(m)))
      ensures CvOf(c) == ApplyCv(old(CvOf(c)), Signal) && forall d :: d != c ==> CvOf(d) == old(CvOf(d))
      ensures var waiters := old(Of(queues, Cv(c)));
        S() == if waiters == [] then old(S()) else Woken(old(S()), Cv(c), waiters[0], true)
      ensures var waiters, ready := old(Of(queues, Cv(c))), old(Of(queues, Ready));
        if waiters == [] then Readied(old(S()), S(), ready)
        else Of(queues, Cv(c)) == waiters[1..] && Readied(old(S()), S(), [waiters[0]] + ready)
    {
      hide Queued, OnCpus, Statuses, Locks;
      var waiters := Of(queues, Cv(c));
      if waiters != [] {
        ghost var s := S();
        Wake(Cv(c), waiters[0], true);
        woken := woken[c := old(CvOf(c)).woken + [waiters[0]]];
        forall m ensures LockOf(m) == old(LockOf(m)) { OtherWoken(s, Cv(c), waiters[0], true, Mutex(m)); }
        forall d | d != c ensures CvOf(d) == old(CvOf(d)) { OtherWoken(s, Cv(c), waiters[0], true, Cv(d)); }
      }
    }

    // ----- scheduling -----

    /** `sys_deschedule_real`; fault says that the flag could not be read. */
    method Deschedule(cpu: int, fault: bool, reject: int, pending_exit: bool) returns (code: int)
      requires Valid() && cpu in current && cpu !in guards
      modifies this`current, this`status, this`queues, this`guards, this`place, this`alone
      ensures Valid() && guards == old(guards) && place.Keys == old(place.Keys) && WaitersKept()
      ensures code == if fault then -1 else 0
      ensures S() == if fault || reject != 0 || pending_exit then old(S())
        else Next(Put(old(S()), old(current[cpu]), Place.Descheduled), cpu)
      ensures var t := old(current[cpu]);
        && (code == -1 || reject != 0 || pending_exit ==> current == old(current) && queues == old(queues))
        && (code == 0 && reject == 0 && !pending_exit ==>
             t in place && place[t] == Place.Descheduled && Switched(old(S()), S(), cpu, []))
    {
      hide Queued, OnCpus, Statuses, Locks;
      if fault {
        return -1;
      }
      if reject != 0 || pending_exit {
        return 0;
      }
      RunsThread(current, guards, queues, place, cpu);
      NotReady(queues, place, current[cpu]);
      Block(cpu, Place.Descheduled);
      return 0;
    }

    /** `sys_make_runnable_real` */
    method MakeRunnable(tid: Tid) returns (code: int)
      requires Valid()
      modifies this`status, this`queues, this`place, this`alone
      ensures Valid() && place.Keys == old(place.Keys) && WaitersKept()
      ensures code == if tid !in old(status) then -2 else if old(place)[tid] != Place.Descheduled then -3 else 0
      ensures S() == if code == 0 then Put(old(S()), tid, In(Ready)) else old(S())
      ensures Readied(old(S()), S(), old(Of(queues, Ready)) + if code == 0 then [tid] else [])
    {
      hide Queued, OnCpus, Locks;
      if tid !in status {
        return -2;
      }
      if status[tid] != DESCHEDULED {
        return -3;
      }
      StatusesPut(status, place, alone, tid, In(Ready));
      Awakes(current, guards, queues, place, tid);
      LocksPut(queues, locked, owner, place, tid, In(Ready));
      status := status[tid := READY];
      queues := queues[Ready := Of(queues, Ready) + [tid]];
      place, alone := place[tid := In(Ready)], alone - {tid};
      return 0;
    }

    /** `sys_yield_real` to anybody, and the timer interrupt of a processor that does not idle */
    method YieldAny(cpu: int)
      requires Valid() && cpu in current && cpu !in guards
      modifies this`current, this`status, this`queues, this`guards, this`place, this`alone
      ensures Valid() && guards == old(guards) && place.Keys == old(place.Keys) && WaitersKept()
      ensures S() == Next(Put(old(S()), old(current[cpu]), In(Ready)), cpu)
      ensures Switched(old(S()), S(), cpu, [old(current[cpu])])
    {
      hide Queued, OnCpus, Statuses, Locks;
      Block(cpu, In(Ready));
    }

    /** The timer interrupt of an idle processor */
    method TickIdle(cpu: int)
      requires Valid() && cpu !in current
      modifies this`current, this`status, this`queues, this`guards, this`place, this`alone
      ensures Valid() && guards == old(guards) && place.Keys == old(place.Keys) && WaitersKept()
      ensures S() == Next(old(S()), cpu) && Switched(old(S()), S(), cpu, [])
    {
      hide Queued, Statuses, Locks;
      assert cpu !in guards && current - {cpu} == current && guards - {cpu} == guards;
      Reschedule(cpu);
    }

    /** `sys_sleep_real`; memory tells whether the timer heap could take one more. */
    method Sleep(cpu: int, dt: int, memory: bool) returns (code: int)
      requires Valid() && cpu in current && cpu !in guards
      modifies this`current, this`status, this`queues, this`guards, this`place, this`alone
      ensures Valid() && guards == old(guards) && place.Keys == old(place.Keys) && WaitersKept()
      ensures code == if dt <= 0 then dt else if !memory then -2 else 0
      ensures S() == if dt <= 0 || !memory then old(S()) else Next(Put(old(S()), old(current[cpu]), In(Timer)), cpu)
      ensures dt <= 0 || !memory ||
        (Of(queues, Timer) == old(Of(queues, Timer)) + [old(current[cpu])] && Switched(old(S()), S(), cpu, []))
    {
      hide Queued, OnCpus, Statuses, Locks;
      if dt <= 0 {
        return dt;
      }
      if !memory {
        return -2;
      }
      Block(cpu, In(Timer));
      return 0;
    }

    /** One step of `check_timers`: it makes the sleeper ready that the timer heap gives it. */
    method Expire(t: Tid)
      requires Valid() && t in Of(queues, Timer)
      modifies this`status, this`queues, this`place, this`alone
      ensures Valid() && S() == Woken(old(S()), Timer, t, false) && place.Keys == old(place.Keys)
      ensures WaitersKept() && Readied(old(S()), S(), old(Of(queues, Ready)) + [t])
    {
      hide Queued, OnCpus, Statuses, Locks;
      ghost var s := S();
      Wake(Timer, t, false);
      forall m ensures LockOf(m) == old(LockOf(m)) { OtherWoken(s, Timer, t, false, Mutex(m)); }
      forall c ensures CvOf(c) == old(CvOf(c)) { OtherWoken(s, Timer, t, false, Cv(c)); }
    }

    /** `sys_yield_real` to thread tid. A thread that is thought to be ready is taken from the ready queue and run. That
        is right exactly when it is not in truth running: a thread that was switched to itself is. */
    method YieldTo(cpu: int, tid: Tid) returns (code: int)
      requires Valid() && cpu in current && cpu !in guards
      modifies this`current, this`status, this`queues, this`guards, this`place, this`alone
      ensures code == if tid !in old(status) then -2
        else if old(status[tid]) == RUNNING || old(status[tid]) == READY then 0 else -1
      ensures code == 0 <==> tid in old(place) && (old(place)[tid].Running? || old(place)[tid] == In(Ready))
      ensures code == -2 <==> tid !in old(place)
      ensures S() == if code == 0 then YieldedTo(old(S()), cpu, tid) else old(S())
      ensures if tid in old(status) && old(status[tid]) == READY && old(place)[tid].Running?
        then tid in old(alone) && forall p: Places :: !(Queued(queues, p) && OnCpus(current, guards, queues, p))
        else Valid()
      ensures if code == 0 then Yielded(old(S()), S(), cpu, tid) else Readied(old(S()), S(), old(Of(queues, Ready)))
      ensures guards == old(guards) && WaitersKept()
    {
      hide Queued, OnCpus, Statuses, Locks, YieldedTo, Yielded;
      SameKeys(status, place, alone);
      if tid !in status {
        return -2;
      }
      StatusMeans(status, place, alone, tid);
      if status[tid] != RUNNING && status[tid] != READY {
        return -1;
      }
      YieldKeeps(current, guards, status, queues, locked, owner, place, alone, cpu, tid);
      Exchange(cpu, tid);
      return 0;
    }

    /** The exchange itself. What detaching does, also to a thread on no queue with links to itself, is proved of
        `Queues.Detach`. */
    method Exchange(cpu: int, tid: Tid)
      requires cpu in current && tid in status && (status[tid] == READY ==> tid in Of(queues, Ready) || tid in alone)
      modifies this`current, this`status, this`queues, this`place, this`alone
      ensures S() == YieldedTo(old(S()), cpu, tid)
    {
      ghost var s := S();
      var t, ready := current[cpu], Of(queues, Ready);
      place, alone := YieldedTo(s, cpu, tid).place, YieldedTo(s, cpu, tid).alone;
      if status[tid] == RUNNING && ready == [] {
        status := status[t := READY];
        queues := queues[Ready := [] + [t]];
        current := current - {cpu};
        return;
      }
      var u := if status[tid] == RUNNING then ready[0] else tid;
      status := status[t := READY];
      queues := queues[Ready := Detached(ready, u) + [t]];
      current := current[cpu := u];
      if u != t {
        status := status[u := RUNNING];
      }
    }

    // ----- threads come and go -----

    /** No threads yet; every processor idles. */
    constructor ()
      ensures Valid() && S() == Sched(map[], map[], map[], map[], {}) && guards == map[] && locked == {}
    {
      current, status, queues, locked, guards := map[], map[], map[], {}, map[];
      place, owner, woken, alone := map[], map[], map[], {};
    }

    /** A new thread is made ready, as `sys_thread_fork_real` and `sys_fork_real` do last. */
    method Spawn(t: Tid)
      requires Valid() && t !in status
      modifies this`status, this`queues, this`place, this`alone
      ensures Valid() && S() == Put(old(S()), t, In(Ready)) && place.Keys == old(place.Keys) + {t}
      ensures WaitersKept() && Readied(old(S()), S(), old(Of(queues, Ready)) + [t])
    {
      hide Queued, OnCpus, Locks;
      StatusesPut(status, place, alone, t, In(Ready));
      Awakes(current, guards, queues, place, t);
      LocksPut(queues, locked, owner, place, t, In(Ready));
      queues := queues[Ready := Of(queues, Ready) + [t]];
      status := status[t := READY];
      place, alone := place[t := In(Ready)], alone - {t};
    }

    /** The end of `kill_current`: the thread is gone, and the clean-up on the processor's kernel stack holds the
        mutexes that it owned. */
    method Exit(cpu: int)
      requires Valid() && cpu in current && cpu !in guards
      modifies this`current, this`status, this`place, this`alone, this`owner
      ensures Valid() && current == old(current) - {cpu} && place == old(place) - {old(current[cpu])}
      ensures forall m :: LockOf(m) == Bequeathed(old(LockOf(m)), old(current[cpu]), cpu)
      ensures owner.Keys == old(owner).Keys && forall m :: m in owner ==>
        owner[m] == if old(owner)[m] == Thread(old(current[cpu])) then Cleanup(cpu) else old(owner)[m]
      ensures forall c :: CvOf(c) == old(CvOf(c))
    {
      hide Queued, OnCpus, Statuses, Locks;
      var t := current[cpu];
      Gone(status, queues, locked, owner, place, alone, t, cpu);
      Departs(current, guards, queues, place, cpu);
      current := current - {cpu};
      status := status - {t};
      place, alone := place - {t}, alone - {t};
      owner := Inherited(owner, t, cpu);
    }

    /** A thread that owns mutex m exits, and the clean-up unlocks it: the first waiter gets it all the same. */
    method Vanish(cpu: int, m: int)
      requires Valid() && cpu in current && cpu !in guards && m in owner && owner[m] == Thread(current[cpu])
      modifies this`current, this`status, this`queues, this`place, this`alone, this`owner, this`locked
      ensures Valid() && current == old(current) - {cpu} && place.Keys == old(place.Keys) - {old(current[cpu])}
      ensures LockOf(m) == Apply(old(LockOf(m)), Release)
      ensures var waiters, ready := old(Of(queues, Mutex(m))), old(Of(queues, Ready));
        Of(queues, Ready) == if waiters == [] then ready else [waiters[0]] + ready
      ensures forall n :: n != m ==> LockOf(n) == Bequeathed(old(LockOf(n)), old(current[cpu]), cpu)
      ensures forall c :: CvOf(c) == old(CvOf(c))
    {
      hide Queued, OnCpus, Statuses, Locks;
      Exit(cpu);
      assert LockOf(m).owner == Some(Cleanup(cpu));
      MutexUnlock(cpu, m);
    }
  }

  /** A thread that yields while no other one is ready is switched to itself and counts as ready although it runs. */
  method YieldAlone() returns (k: Kernel)
    ensures fresh(k) && k.Valid() && 0 in k.current && k.current[0] == 1 && 0 !in k.guards
    ensures 1 in k.status && k.status[1] == READY && 1 in k.place && k.place[1] == Running(0)
    ensures Of(k.queues, Ready) == []
  {
    hide Queued, OnCpus, Statuses, Locks;
    k := new Kernel();
    k.Spawn(1);
    k.TickIdle(0);
    k.YieldAny(0);
  }

  /** A run to the case in which yielding goes wrong: when such a thread yields to itself, it runs and is in the ready
      queue. */
  method YieldToSelf() returns (k: Kernel)
    ensures 0 in k.current && k.current[0] == 1 && 1 in Of(k.queues, Ready) && !k.Valid()
  {
    hide Queued, OnCpus, Statuses, Locks;
    k := YieldAlone();
    var code := k.YieldTo(0, 1);
    assert Of(k.queues, Ready)[0] == 1;
  }

  /** Every thread is in exactly one place: it runs on one processor, or waits once in one queue, or is descheduled. */
  lemma OnePlace(s: Sched, guards: map<int, int>, locked: set<int>, owner: Owners, t: Tid)
    requires Inv(s, guards, locked, owner) && t in s.place
    ensures forall q, r :: t in Of(s.queues, q) && t in Of(s.queues, r) ==> q == r
    ensures forall a, b :: a in s.current && b in s.current && s.current[a] == t && s.current[b] == t ==> a == b
    ensures forall cpu, q ::
      cpu in s.current && s.current[cpu] == t && t in Of(s.queues, q) ==> cpu in guards && q == Cv(guards[cpu])
    ensures (exists q :: t in Of(s.queues, q)) || s.place[t] == Place.Descheduled ||
      exists cpu :: cpu in s.current && s.current[cpu] == t
    ensures s.status[t] == StatusOf(s.place[t]) ||
      (s.status[t] == READY && t in s.alone && exists cpu :: cpu in s.current && s.current[cpu] == t)
  {
    match s.place[t]
    case Running(cpu) =>
      assert cpu in s.current && s.current[cpu] == t;
    case In(q) =>
      assert t in Of(s.queues, q);
    case Descheduled =>
  }
}
