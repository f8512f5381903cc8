/** Where threads are: the queues they wait in and the places the scheduler puts them. */
module ThreadQueues {
  import opened Lists
  import opened Seqs
  import opened Wrappers

  type Tid = int

  /** The ready queue, the waiters of a mutex or of a condition variable, and the sleepers. */
  datatype Queue = Ready | Mutex(m: int) | Cv(c: int) | Timer

  datatype Place = Running(cpu: int) | In(q: Queue) | Descheduled

  datatype Status = RUNNING | READY | BLOCKED | SLEEPING | DESCHEDULED

  function StatusOf(p: Place): Status {
    match p
    case Running(_) => RUNNING
    case Descheduled => DESCHEDULED
    case In(Ready) => READY
    case In(Timer) => SLEEPING
    case In(_) => BLOCKED
  }

  type Queues = map<Queue, seq<Tid>>

  type Places = map<Tid, Place>

  /** A thread is in a queue exactly when that is its place, and once only. */
  ghost predicate Queued(queues: Queues, place: Places) {
    && (forall q :: NoDup(Of(queues, q)))
    && (forall q, t :: t in Of(queues, q) <==> t in place && place[t] == In(q))
  }

  /** The queues that threads are in. */
  ghost function Homes(place: Places): map<Tid, Queue> {
    map t | t in place && place[t].In? :: place[t].q
  }

  lemma QueuedFiled(queues: Queues, place: Places)
    ensures Queued(queues, place) <==> Filed(queues, Homes(place))
  {
    if Filed(queues, Homes(place)) {
      forall q, t ensures t in Of(queues, q) <==> t in place && place[t] == In(q) {
        assert t in Of(queues, q) <==> t in Homes(place) && Homes(place)[t] == q;
      }
    }
  }

  lemma PlaceOf(queues: Queues, place: Places, q: Queue, t: Tid)
    requires Queued(queues, place) && t in Of(queues, q)
    ensures t in place && place[t] == In(q)
  {
  }

  lemma InsertTail(queues: Queues, place: Places, q: Queue, t: Tid)
    requires Queued(queues, place) && (t in place ==> !place[t].In?)
    ensures Queued(queues[q := Of(queues, q) + [t]], place[t := In(q)])
  {
    Insert(queues, place, q, t, Of(queues, q) + [t]);
  }

  lemma InsertHead(queues: Queues, place: Places, q: Queue, t: Tid)
    requires Queued(queues, place) && (t in place ==> !place[t].In?)
    ensures Queued(queues[q := [t] + Of(queues, q)], place[t := In(q)])
  {
    Insert(queues, place, q, t, [t] + Of(queues, q));
  }

  lemma Insert(queues: Queues, place: Places, q: Queue, t: Tid, s: seq<Tid>)
    requires Queued(queues, place) && (t in place ==> !place[t].In?)
    requires (s == [t] + Of(queues, q) || s == Of(queues, q) + [t])
    ensures Queued(queues[q := s], place[t := In(q)])
  {
    hide Queued, Filed;
    QueuedFiled(queues, place);
    Inserted(queues, Homes(place), q, t, s);
    assert Homes(place[t := In(q)]) == Homes(place)[t := q];
    QueuedFiled(queues[q := s], place[t := In(q)]);
  }

  lemma Remove(queues: Queues, place: Places, q: Queue, t: Tid, p: Place)
    requires Queued(queues, place) && t in Of(queues, q) && !p.In?
    ensures Queued(queues[q := Detached(Of(queues, q), t)], place[t := p])
  {
    hide Queued, Filed;
    QueuedFiled(queues, place);
    Removed(queues, Homes(place), q, t);
    assert Homes(place[t := p]) == Homes(place) - {t};
    QueuedFiled(queues[q := Detached(Of(queues, q), t)], place[t := p]);
  }

  /** A thread that is in no queue changes its place. */
  lemma Elsewhere(queues: Queues, place: Places, t: Tid, p: Place)
    requires Queued(queues, place) && (t in place ==> !place[t].In?) && !p.In?
    ensures Queued(queues, place[t := p]) && Queued(queues, place - {t})
  {
    hide Queued, Filed;
    QueuedFiled(queues, place);
    assert Homes(place[t := p]) == Homes(place) == Homes(place - {t});
    QueuedFiled(queues, place[t := p]);
    QueuedFiled(queues, place - {t});
  }

  // ----- the order of waiters -----

  /** Who owns a mutex: a thread, or the clean-up after a thread that was the last one on the processor. */
  datatype Holder = Thread(t: Tid) | Cleanup(cpu: int)

  type Owners = map<int, Holder>

  /** A mutex: its owner and its waiters. */
  datatype Lock = Lock(owner: Option<Holder>, waiters: seq<Tid>)

  datatype Op = Acquire(t: Tid) | Release

  /** What `mutex_lock` and `mutex_unlock` do to it. */
  function Apply(l: Lock, op: Op): Lock {
    match op
    case Acquire(t) => if l.owner == None then Lock(Some(Thread(t)), l.waiters) else Lock(l.owner, l.waiters + [t])
    case Release => if l.waiters == [] then Lock(None, []) else Lock(Some(Thread(l.waiters[0])), l.waiters[1..])
  }

  function Run(l: Lock, ops: seq<Op>): Lock
    decreases ops
  {
    if ops == [] then l else Run(Apply(l, ops[0]), ops[1..])
  }

  function Releases(ops: seq<Op>): nat {
    if ops == [] then 0 else Releases(ops[1..]) + if ops[0] == Release then 1 else 0
  }

  /** Whatever else happens to the mutex, the waiter at place k waits through k releases, moving up by one each time,
      and owns the mutex after one more. */
  lemma {:induction false} Fifo(l: Lock, ops: seq<Op>, k: nat)
    requires k < |l.waiters| && l.owner != None
    ensures Releases(ops) <= k ==>
      var r := Run(l, ops);
        k - Releases(ops) < |r.waiters| && r.waiters[k - Releases(ops)] == l.waiters[k] && r.owner != None
    ensures Releases(ops) == k + 1 ==> Run(l, ops).owner == Some(Thread(l.waiters[k]))
    decreases ops
  {
    if ops != [] {
      var l' := Apply(l, ops[0]);
      if ops[0] == Release {
        if k > 0 {
          Fifo(l', ops[1..], k - 1);
        } else if Releases(ops) == 1 {
          NoRelease(l', ops[1..]);
        }
      } else {
        assert l'.waiters[k] == l.waiters[k];
        Fifo(l', ops[1..], k);
      }
    }
  }

  lemma {:induction false} NoRelease(l: Lock, ops: seq<Op>)
    requires Releases(ops) == 0 && l.owner != None
    ensures Run(l, ops).owner == l.owner
    decreases ops
  {
    if ops != [] { NoRelease(Apply(l, ops[0]), ops[1..]); }
  }

  /** The queue of a condition variable and whom its signals have woken. */
  datatype Waiting = Waiting(queue: seq<Tid>, woken: seq<Tid>)

  datatype CvOp = Wait(t: Tid) | Signal

  /** What `cv_wait` and `cv_signal` do to it. */
  function ApplyCv(w: Waiting, op: CvOp): Waiting {
    match op
    case Wait(t) => Waiting(w.queue + [t], w.woken)
    case Signal => if w.queue == [] then w else Waiting(w.queue[1..], w.woken + [w.queue[0]])
  }

  function RunCv(w: Waiting, ops: seq<CvOp>): Waiting
    decreases ops
  {
    if ops == [] then w else RunCv(ApplyCv(w, ops[0]), ops[1..])
  }

  function Waits(ops: seq<CvOp>): seq<Tid> {
    if ops == [] then [] else (if ops[0].Wait? then [ops[0].t] else []) + Waits(ops[1..])
  }

  function Signals(ops: seq<CvOp>): nat {
    if ops == [] then 0 else Signals(ops[1..]) + if ops[0] == Signal then 1 else 0
  }

  /** Threads are woken in the order in which they joined, and none is skipped or lost. */
  lemma {:induction false} SignalOrder(w: Waiting, ops: seq<CvOp>)
    ensures var r := RunCv(w, ops);
      && r.woken + r.queue == w.woken + w.queue + Waits(ops)
      && |r.woken| >= |w.woken| + (if Signals(ops) <= |w.queue| then Signals(ops) else |w.queue|)
      && |r.woken| <= |w.woken| + Signals(ops)
    decreases ops
  {
    if ops != [] {
      var w' := ApplyCv(w, ops[0]);
      SignalOrder(w', ops[1..]);
      if ops[0].Wait? {
        assert w.woken + w.queue + Waits(ops) == w'.woken + w'.queue + Waits(ops[1..]);
      } else if w.queue != [] {
        assert w'.woken + w'.queue == w.woken + w.queue;
      }
    }
  }

  /** A thread that has joined a queue behind k others waits there through k signals, one place further ahead after
      each, and the next signal wakes it, whatever joins in between. */
  lemma NeverMissed(w: Waiting, t: Tid, ops: seq<CvOp>)
    ensures var k, n, r := |w.queue|, Signals(ops), RunCv(ApplyCv(w, Wait(t)), ops);
      if n <= k then k - n < |r.queue| && r.queue[k - n] == t
      else |w.woken| + k < |r.woken| && r.woken[|w.woken| + k] == t
  {
    var w', k := ApplyCv(w, Wait(t)), |w.queue|;
    var r := RunCv(w', ops);
    SignalOrder(w', ops);
    assert (w'.woken + w'.queue + Waits(ops))[|w.woken| + k] == t;
    assert (r.woken + r.queue)[|w.woken| + k] == t;
  }
}
