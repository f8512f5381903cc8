/** Parents and children: forking, exiting with adoption by init, and waiting. Each method is one section under the wait
    lock of the processes it concerns. A process is named by its block, which may be used again once it is freed; its id
    is a number that other processes, dead ones included, may have as well. */
module Families {
  import opened Lists
  import opened Seqs

  type Proc = int

  /** The live and the dead children of a process. */
  datatype Children = Live(p: Proc) | Dead(p: Proc)

  type ChildLists = map<Children, seq<Proc>>

  type Counts = map<Proc, int>

  // ---------------------------------------------------------------- the children and waiters of one process

  datatype Tally = Tally(children: int, waiters: int)

  /** What happens to the numbers of children and waiters of a process. */
  datatype WaitOp = Forked | Began | Refused | Collected | Faulted | Inherited(n: nat) | Dropped(n: nat)

  function Applied(t: Tally, op: WaitOp): Tally {
    match op
    case Forked => t.(children := t.children + 1)
    case Began => t.(waiters := t.waiters + 1)
    case Refused => t
    case Collected => Tally(t.children - 1, t.waiters - 1)
    case Faulted => t.(waiters := t.waiters - 1)
    case Inherited(n) => t.(children := t.children + n)
    case Dropped(n) => t.(children := t.children - n)
  }

  predicate Allowed(t: Tally, op: WaitOp) {
    match op
    case Began => t.waiters < t.children
    case Refused => t.children <= t.waiters
    case Collected => 0 < t.waiters
    case Faulted => 0 < t.waiters
    case Dropped(n) => t.waiters == 0 && n <= t.children
    case _ => true
  }

  function After(t: Tally, ops: seq<WaitOp>): Tally
    decreases ops
  {
    if ops == [] then t else After(Applied(t, ops[0]), ops[1..])
  }

  predicate Possible(t: Tally, ops: seq<WaitOp>)
    decreases ops
  {
    ops == [] || (Allowed(t, ops[0]) && Possible(Applied(t, ops[0]), ops[1..]))
  }

  /** How many waits begin. */
  function Begun(ops: seq<WaitOp>): nat {
    if ops == [] then 0 else (if ops[0].Began? then 1 else 0) + Begun(ops[1..])
  }

  /** How many children nobody waits for are gained by forks, by adoptions and by waits that fault. */
  function Gained(ops: seq<WaitOp>): nat {
    if ops == [] then 0
    else (match ops[0] case Forked => 1 case Faulted => 1 case Inherited(n) => n case _ => 0) + Gained(ops[1..])
  }

  function Lost(ops: seq<WaitOp>): nat {
    if ops == [] then 0 else (if ops[0].Dropped? then ops[0].n else 0) + Lost(ops[1..])
  }

  /** Over any run, the children that nobody waits for are those before it and those gained, without those that a wait
      began for and those dropped. */
  lemma {:induction false} Balance(t: Tally, ops: seq<WaitOp>)
    requires 0 <= t.waiters <= t.children && Possible(t, ops)
    ensures 0 <= After(t, ops).waiters <= After(t, ops).children
    ensures After(t, ops).children - After(t, ops).waiters
         == t.children - t.waiters + Gained(ops) - Begun(ops) - Lost(ops)
    decreases ops
  {
    if ops != [] {
      Balance(Applied(t, ops[0]), ops[1..]);
    }
  }

  /** After a refusal a process begins at most as many waits as it gains children. When it gains none, every later wait
      is refused too, and no child is left over once the waiters there were are served. */
  lemma Pigeonhole(t: Tally, ops: seq<WaitOp>)
    requires 0 <= t.waiters <= t.children && Allowed(t, Refused) && Possible(t, ops)
    ensures Begun(ops) <= Gained(ops)
    ensures Gained(ops) == 0 ==> Allowed(After(t, ops), Refused) && !Allowed(After(t, ops), Began)
    ensures Gained(ops) == 0 && After(t, ops).waiters == 0 ==> After(t, ops).children == 0
  {
    Balance(t, ops);
  }

  // ---------------------------------------------------------------- what holds between the steps

  /** The count covers all children on the two lists, and there are no more waiters than children. */
  ghost predicate Counted(lists: ChildLists, nchilds: Counts, nwaiters: Counts, p: Proc) {
    && p in nchilds && p in nwaiters
    && nchilds[p] == |Of(lists, Live(p))| + |Of(lists, Dead(p))| && 0 <= nwaiters[p] <= nchilds[p]
  }

  ghost predicate AllCounted(lists: ChildLists, nchilds: Counts, nwaiters: Counts, running: set<Proc>) {
    forall p :: p in running ==> Counted(lists, nchilds, nwaiters, p)
  }

  /** Children have a running parent, live children run and dead ones do not. */
  ghost predicate Related(running: set<Proc>, home: map<Proc, Children>, parent: map<Proc, Proc>, init: Proc) {
    && init in running && init !in home && parent.Keys == home.Keys
    && (forall c :: c in home ==> home[c].p in running && home[c].p != c && parent[c] == home[c].p)
    && (forall c :: c in home ==> (c in running <==> home[c].Live?))
  }

  /** All that holds between steps of the lists, the counts and the parents; the counts, of the processes in
      `counted`. */
  ghost predicate Sound(lists: ChildLists, home: map<Proc, Children>, parent: map<Proc, Proc>, nchilds: Counts,
      nwaiters: Counts, running: set<Proc>, counted: set<Proc>, init: Proc) {
    Filed(lists, home) && Related(running, home, parent, init) && AllCounted(lists, nchilds, nwaiters, counted)
  }

  /** Every process that was somebody's child and exited was collected, once for each time it exited, or is a dead child
      still. */
  ghost predicate Settled(exited: multiset<Proc>, collected: multiset<Proc>, home: map<Proc, Children>) {
    forall c :: exited[c] == collected[c] + if c in home && home[c].Dead? then 1 else 0
  }

  /** Processes that run or may be waited for have an id. */
  ghost predicate Named(pid: map<Proc, int>, running: set<Proc>, home: map<Proc, Children>) {
    running + home.Keys <= pid.Keys
  }

  function TallyOf(nchilds: Counts, nwaiters: Counts, p: Proc): Tally {
    Tally(if p in nchilds then nchilds[p] else 0, if p in nwaiters then nwaiters[p] else 0)
  }

  /** Something happened to the children or waiters of p, and nothing to those of the other processes. */
  ghost predicate Happened(nchilds: Counts, nwaiters: Counts, nchilds': Counts, nwaiters': Counts, running: set<Proc>,
      p: Proc, op: WaitOp) {
    && Allowed(TallyOf(nchilds, nwaiters, p), op)
    && TallyOf(nchilds', nwaiters', p) == Applied(TallyOf(nchilds, nwaiters, p), op)
    && forall q :: q in running && q != p ==> TallyOf(nchilds', nwaiters', q) == TallyOf(nchilds, nwaiters, q)
  }

  /** The same list of another process. */
  function Of1(q: Children, p: Proc): Children {
    if q.Live? then Live(p) else Dead(p)
  }

  function Rehomed(home: map<Proc, Children>, q: Children, to: Children): map<Proc, Children> {
    map c | c in home :: if home[c] == q then to else home[c]
  }

  /** Where all children are after process p's exit. */
  function Departed(home: map<Proc, Children>, p: Proc, init: Proc): map<Proc, Children> {
    map c | c in home ::
      if home[c].p == p then Of1(home[c], init) else if c == p then Dead(home[c].p) else home[c]
  }

  // ---------------------------------------------------------------- waiters that are asleep

  /** When somebody waits asleep, there are no more dead children than waiters awake, which will collect them, and waits
      that have faulted since the last one fell asleep. */
  ghost predicate Heeds(lists: ChildLists, nwaiters: Counts, asleep: Counts, faults: Counts, p: Proc) {
    && p in nwaiters && p in asleep && p in faults && 0 <= asleep[p] <= nwaiters[p] && 0 <= faults[p]
    && (asleep[p] > 0 ==> |Of(lists, Dead(p))| <= nwaiters[p] - asleep[p] + faults[p])
  }

  ghost predicate AllHeed(lists: ChildLists, nwaiters: Counts, asleep: Counts, faults: Counts, running: set<Proc>) {
    forall p :: p in running ==> Heeds(lists, nwaiters, asleep, faults, p)
  }

  /** Where a process leaves the lists of others when it exits: its children follow those of init, in their order, and
      itself, when it has a parent q, goes from the live children of q to the end of the dead ones. */
  ghost predicate Moved(lists: ChildLists, lists': ChildLists, p: Proc, init: Proc, q: Proc) {
    forall r :: r != p ==>
      var live := Of(lists, Live(r)) + if r == init then Of(lists, Live(p)) else [];
      var dead := Of(lists, Dead(r)) + if r == init then Of(lists, Dead(p)) else [];
      && Of(lists', Live(r)) == (if r == q then Detached(live, p) else live)
      && Of(lists', Dead(r)) == if r == q then dead + [p] else dead
  }

  /** No other list has changed. */
  ghost predicate Untouched(lists: ChildLists, lists': ChildLists, q: Children, to: Children) {
    forall r :: r != to && r != q ==> Of(lists', r) == Of(lists, r)
  }

  /** Some of list q have gone to the end of list to, in their order. */
  ghost predicate Joined(lists: ChildLists, lists': ChildLists, q: Children, to: Children) {
    && Of(lists', to) + Of(lists', q) == Of(lists, to) + Of(lists, q)
    && |Of(lists', q)| <= |Of(lists, q)| && Untouched(lists, lists', q, to)
  }

  lemma JoinedNone(lists: ChildLists, q: Children, to: Children)
    ensures Joined(lists, lists, q, to)
  {
  }

  lemma JoinedMore(lists: ChildLists, lists1: ChildLists, lists2: ChildLists, q: Children, to: Children)
    requires Joined(lists, lists1, q, to) && Of(lists1, q) != [] && Untouched(lists1, lists2, q, to)
    requires Of(lists2, q) == Of(lists1, q)[1..] && Of(lists2, to) == Of(lists1, to) + [Of(lists1, q)[0]]
    ensures Joined(lists, lists2, q, to)
  {
    var front, back := Of(lists1, to), Of(lists1, q);
    assert front + back == front + [back[0]] + back[1..];
  }

  lemma JoinedAll(lists: ChildLists, lists': ChildLists, q: Children, to: Children)
    requires Joined(lists, lists', q, to) && Of(lists', q) == []
    ensures Of(lists', to) == Of(lists, to) + Of(lists, q) && Untouched(lists, lists', q, to)
  {
  }

  /** The children of p follow those of init. */
  ghost predicate Behind(lists: ChildLists, lists': ChildLists, p: Proc, init: Proc) {
    && Of(lists', Live(init)) == Of(lists, Live(init)) + Of(lists, Live(p))
    && Of(lists', Dead(init)) == Of(lists, Dead(init)) + Of(lists, Dead(p))
    && forall r: Children :: r.p != p && r.p != init ==> Of(lists', r) == Of(lists, r)
  }

  lemma MovedOn(lists: ChildLists, lists1: ChildLists, p: Proc, init: Proc, q: Proc)
    requires Behind(lists, lists1, p, init) && p != init
    ensures Moved(lists, lists1, p, init, p)
    ensures q != p ==>
      var alive, dead := Detached(Of(lists1, Live(q)), p), Of(lists1, Dead(q)) + [p];
      Moved(lists, lists1[Live(q) := alive][Dead(q) := dead], p, init, q)
  {
    var lists2 := lists1[Live(q) := Detached(Of(lists1, Live(q)), p)][Dead(q) := Of(lists1, Dead(q)) + [p]];
    forall r | r != p
      ensures Of(lists1, Live(r)) == Of(lists, Live(r)) + if r == init then Of(lists, Live(p)) else []
      ensures Of(lists1, Dead(r)) == Of(lists, Dead(r)) + if r == init then Of(lists, Dead(p)) else []
    {
      assert Of(lists, Live(r)) + [] == Of(lists, Live(r)) && Of(lists, Dead(r)) + [] == Of(lists, Dead(r));
    }
    forall r | r != q
      ensures Of(lists2, Live(r)) == Of(lists1, Live(r)) && Of(lists2, Dead(r)) == Of(lists1, Dead(r)) { }
  }

  /** n signals for the waiters of p that are asleep. */
  function Signalled(asleep: Counts, p: Proc, n: nat): Counts {
    if p !in asleep then asleep else asleep[p := if asleep[p] <= n then 0 else asleep[p] - n]
  }

  /** How many waiters an exit wakes: one of init's for each dead child that it adopts, and one of the parent's, q, as
      far as there are any. */
  ghost predicate Woken(asleep: Counts, asleep': Counts, adopted: nat, p: Proc, init: Proc, q: Proc) {
    && asleep'.Keys == asleep.Keys
    && forall r :: r in asleep ==>
         var signals := (if r == init then adopted else 0) + if r == q && q != p then 1 else 0;
         asleep'[r] == if asleep[r] <= signals then (if signals == 0 then asleep[r] else 0) else asleep[r] - signals
  }

  lemma SignalsWake(asleep: Counts, adopted: nat, p: Proc, init: Proc, q: Proc)
    requires init in asleep && asleep[init] >= 0
    ensures Woken(asleep, Signalled(asleep, init, adopted), adopted, p, init, p)
    ensures q != p ==> Woken(asleep, Signalled(Signalled(asleep, init, adopted), q, 1), adopted, p, init, q)
  {
  }

  /** One dead child more of q, and one signal. */
  lemma MoreDead(lists: ChildLists, lists': ChildLists, nwaiters: Counts, asleep: Counts, faults: Counts,
      counted: set<Proc>, q: Proc)
    requires AllHeed(lists, nwaiters, asleep, faults, counted)
    requires |Of(lists', Dead(q))| <= |Of(lists, Dead(q))| + 1
    requires forall p :: p in counted && p != q ==> |Of(lists', Dead(p))| <= |Of(lists, Dead(p))|
    ensures AllHeed(lists', nwaiters, Signalled(asleep, q, 1), faults, counted)
  {
    forall p | p in counted ensures Heeds(lists', nwaiters, Signalled(asleep, q, 1), faults, p) {
      assert Heeds(lists, nwaiters, asleep, faults, p);
    }
  }

  /** No more dead children than before. */
  lemma FewerDead(lists: ChildLists, lists': ChildLists, nwaiters: Counts, asleep: Counts, faults: Counts,
      counted: set<Proc>)
    requires AllHeed(lists, nwaiters, asleep, faults, counted)
    requires forall p :: p in counted ==> |Of(lists', Dead(p))| <= |Of(lists, Dead(p))|
    ensures AllHeed(lists', nwaiters, asleep, faults, counted)
  {
    forall p | p in counted ensures Heeds(lists', nwaiters, asleep, faults, p) {
      assert Heeds(lists, nwaiters, asleep, faults, p);
    }
  }

  lemma BornHeed(lists: ChildLists, nwaiters: Counts, asleep: Counts, faults: Counts, counted: set<Proc>, p0: Proc,
      s: seq<Proc>, c: Proc)
    requires AllHeed(lists, nwaiters, asleep, faults, counted) && c !in counted
    ensures AllHeed(lists[Live(p0) := s], nwaiters[c := 0], asleep[c := 0], faults[c := 0], counted + {c})
  {
    forall p | p in counted ensures Heeds(lists[Live(p0) := s], nwaiters[c := 0], asleep[c := 0], faults[c := 0], p) {
      assert Heeds(lists, nwaiters, asleep, faults, p);
    }
  }

  /** The waiters of p change, and so may its dead children. */
  lemma OneHeeds(lists: ChildLists, lists': ChildLists, nwaiters: Counts, asleep: Counts, faults: Counts,
      counted: set<Proc>, p: Proc, n: int, a: int, f: int)
    requires AllHeed(lists, nwaiters, asleep, faults, counted) && 0 <= a <= n && 0 <= f
    requires forall q :: q in counted && q != p ==> Of(lists', Dead(q)) == Of(lists, Dead(q))
    requires a > 0 ==> |Of(lists', Dead(p))| <= n - a + f
    ensures AllHeed(lists', nwaiters[p := n], asleep[p := a], faults[p := f], counted)
  {
    forall q | q in counted ensures Heeds(lists', nwaiters[p := n], asleep[p := a], faults[p := f], q) {
      assert Heeds(lists, nwaiters, asleep, faults, q);
    }
  }

  lemma InitHeeds(lists: ChildLists, home: map<Proc, Children>, parent: map<Proc, Proc>, nchilds: Counts,
      nwaiters: Counts, asleep: Counts, faults: Counts, running: set<Proc>, p: Proc, init: Proc)
    requires Sound(lists, home, parent, nchilds, nwaiters, running, running - {p}, init) && p != init
    requires AllHeed(lists, nwaiters, asleep, faults, running - {p})
    ensures init in asleep && asleep[init] >= 0 && Signalled(asleep, init, 0) == asleep
  {
    assert Heeds(lists, nwaiters, asleep, faults, init);
  }

  lemma InitAsleep(lists: ChildLists, home: map<Proc, Children>, parent: map<Proc, Proc>, nchilds: Counts,
      nwaiters: Counts, asleep: Counts, faults: Counts, running: set<Proc>, init: Proc)
    requires Sound(lists, home, parent, nchilds, nwaiters, running, running, init)
    requires AllHeed(lists, nwaiters, asleep, faults, running)
    ensures init in asleep && asleep[init] >= 0
  {
    assert Heeds(lists, nwaiters, asleep, faults, init);
  }

  /** An adopted child, if it is dead, and the signal for it. */
  lemma AdoptedHeed(lists: ChildLists, nwaiters: Counts, asleep: Counts, faults: Counts, running: set<Proc>,
      init: Proc, q: Children)
    requires AllHeed(lists, nwaiters, asleep, faults, running - {q.p}) && q.p != init && Of(lists, q) != []
    ensures var to := Of1(q, init);
      AllHeed(lists[q := Of(lists, q)[1..]][to := Of(lists, to) + [Of(lists, q)[0]]], nwaiters,
        if q.Dead? then Signalled(asleep, init, 1) else asleep, faults, running - {q.p})
  {
    var to := Of1(q, init);
    var lists' := lists[q := Of(lists, q)[1..]][to := Of(lists, to) + [Of(lists, q)[0]]];
    if q.Dead? {
      MoreDead(lists, lists', nwaiters, asleep, faults, running - {q.p}, init);
    } else {
      FewerDead(lists, lists', nwaiters, asleep, faults, running - {q.p});
    }
  }

  /** The process has exited and its parent is signalled. */
  lemma EndedHeed(lists: ChildLists, nwaiters: Counts, asleep: Counts, faults: Counts, counted: set<Proc>, p: Proc,
      q: Proc)
    requires AllHeed(lists, nwaiters, asleep, faults, counted)
    ensures AllHeed(lists[Live(q) := Detached(Of(lists, Live(q)), p)][Dead(q) := Of(lists, Dead(q)) + [p]], nwaiters,
      Signalled(asleep, q, 1), faults, counted)
  {
    MoreDead(lists, lists[Live(q) := Detached(Of(lists, Live(q)), p)][Dead(q) := Of(lists, Dead(q)) + [p]], nwaiters,
      asleep, faults, counted, q);
  }

  lemma FewerHeed(lists: ChildLists, nwaiters: Counts, asleep: Counts, faults: Counts, running: set<Proc>, p: Proc)
    requires AllHeed(lists, nwaiters, asleep, faults, running)
    ensures AllHeed(lists, nwaiters, asleep, faults, running - {p})
  {
  }

  lemma HeedsOf(lists: ChildLists, nwaiters: Counts, asleep: Counts, faults: Counts, running: set<Proc>, p: Proc)
    requires AllHeed(lists, nwaiters, asleep, faults, running) && p in running
    ensures Heeds(lists, nwaiters, asleep, faults, p)
  {
  }

  /** Somebody who waits while no wait has faulted does so because no dead child is left for him. */
  lemma Justified(lists: ChildLists, nwaiters: Counts, asleep: Counts, faults: Counts, running: set<Proc>, p: Proc)
    requires AllHeed(lists, nwaiters, asleep, faults, running) && p in running
    ensures p in nwaiters && p in asleep && p in faults
    ensures asleep[p] > 0 && faults[p] == 0 ==> |Of(lists, Dead(p))| <= nwaiters[p] - asleep[p]
    ensures asleep[p] == nwaiters[p] > 0 && faults[p] == 0 ==> Of(lists, Dead(p)) == []
  {
    assert Heeds(lists, nwaiters, asleep, faults, p);
  }

  // ---------------------------------------------------------------- single facts

  lemma BornRelated(running: set<Proc>, home: map<Proc, Children>, parent: map<Proc, Proc>, init: Proc, p: Proc,
      c: Proc)
    requires Related(running, home, parent, init) && p in running && c !in running && c !in home
    ensures Related(running + {c}, home[c := Live(p)], parent[c := p], init)
  {
  }

  lemma GoneRelated(running: set<Proc>, home: map<Proc, Children>, parent: map<Proc, Proc>, init: Proc, c: Proc)
    requires Related(running, home, parent, init) && c in home && home[c].Dead?
    ensures Related(running, home - {c}, parent - {c}, init) && c !in running
  {
  }

  lemma AdoptedRelated(running: set<Proc>, home: map<Proc, Children>, parent: map<Proc, Proc>, init: Proc, c: Proc)
    requires Related(running, home, parent, init) && c in home
    ensures Related(running, home[c := Of1(home[c], init)], parent[c := init], init)
  {
  }

  lemma DepartedRelated(running: set<Proc>, home0: map<Proc, Children>, home1: map<Proc, Children>,
      parent: map<Proc, Proc>, init: Proc, p: Proc)
    requires Related(running, home1, parent, init) && p != init
    requires home1 == Rehomed(Rehomed(home0, Live(p), Live(init)), Dead(p), Dead(init))
    ensures Related(running - {p}, if p in home1 then home1[p := Dead(home1[p].p)] else home1, parent, init)
  {
  }

  lemma DepartedAll(home0: map<Proc, Children>, home1: map<Proc, Children>, p: Proc, init: Proc)
    requires home1 == Rehomed(Rehomed(home0, Live(p), Live(init)), Dead(p), Dead(init)) && p != init
    requires p in home0 ==> home0[p].p != p
    ensures p in home1 ==> home1[p] == home0[p]
    ensures Departed(home0, p, init) == if p in home1 then home1[p := Dead(home1[p].p)] else home1
  {
  }

  lemma StillNamed(pid: map<Proc, int>, running: set<Proc>, home: map<Proc, Children>, p: Proc, init: Proc)
    requires Named(pid, running, home)
    ensures Named(pid, running - {p}, Departed(home, p, init))
  {
  }

  /** One more exit, of a live child or of a process without a parent. */
  lemma DepartedSettled(exited: multiset<Proc>, collected: multiset<Proc>, home: map<Proc, Children>, p: Proc,
      init: Proc)
    requires Settled(exited, collected, home) && (p in home ==> home[p].Live? && home[p].p != p)
    ensures Settled(if p in home then exited + multiset{p} else exited, collected, Departed(home, p, init))
  {
    var home' := Departed(home, p, init);
    forall c ensures (if p in home then exited + multiset{p} else exited)[c]
      == collected[c] + if c in home' && home'[c].Dead? then 1 else 0 {
      assert exited[c] == collected[c] + if c in home && home[c].Dead? then 1 else 0;
    }
  }

  lemma BornSettled(exited: multiset<Proc>, collected: multiset<Proc>, home: map<Proc, Children>, pid: map<Proc, int>,
      running: set<Proc>, p: Proc, c: Proc, tid: int)
    requires Settled(exited, collected, home) && Named(pid, running, home) && c !in home
    ensures Settled(exited, collected, home[c := Live(p)]) && Named(pid[c := tid], running + {c}, home[c := Live(p)])
  {
  }

  lemma GoneSettled(exited: multiset<Proc>, collected: multiset<Proc>, home: map<Proc, Children>, c: Proc)
    requires Settled(exited, collected, home) && c in home && home[c].Dead?
    ensures Settled(exited, collected + multiset{c}, home - {c})
  {
    forall d ensures exited[d]
      == (collected + multiset{c})[d] + if d in home - {c} && (home - {c})[d].Dead? then 1 else 0 {
      assert exited[d] == collected[d] + if d in home && home[d].Dead? then 1 else 0;
    }
  }

  /** Only processes that run have children. */
  lemma OnlyRunning(lists: ChildLists, home: map<Proc, Children>, parent: map<Proc, Proc>, running: set<Proc>,
      init: Proc)
    requires Filed(lists, home) && Related(running, home, parent, init)
    ensures forall q :: Of(lists, q) != [] ==> q.p in running
  {
    forall q | Of(lists, q) != [] ensures q.p in running {
      var c := Of(lists, q)[0];
      assert c in Of(lists, q);
      assert c in home && home[c] == q;
    }
  }

  /** One child more or less on a list, and its process's count with it. */
  lemma OtherCounts(lists: ChildLists, nchilds: Counts, nwaiters: Counts, counted: set<Proc>, q: Children, s: seq<Proc>)
    requires AllCounted(lists, nchilds, nwaiters, counted) && q.p in counted
    requires nwaiters[q.p] <= nchilds[q.p] + |s| - |Of(lists, q)|
    ensures AllCounted(lists[q := s], nchilds[q.p := nchilds[q.p] + |s| - |Of(lists, q)|], nwaiters, counted)
  {
    var lists', nchilds' := lists[q := s], nchilds[q.p := nchilds[q.p] + |s| - |Of(lists, q)|];
    forall p | p in counted ensures Counted(lists', nchilds', nwaiters, p) {
      assert Counted(lists, nchilds, nwaiters, p);
      assert Of(lists', Live(p)) == if q == Live(p) then s else Of(lists, Live(p));
      assert Of(lists', Dead(p)) == if q == Dead(p) then s else Of(lists, Dead(p));
    }
  }

  lemma NewCounted(lists: ChildLists, nchilds: Counts, nwaiters: Counts, counted: set<Proc>, c: Proc)
    requires AllCounted(lists, nchilds, nwaiters, counted) && c !in counted
    requires Of(lists, Live(c)) == [] && Of(lists, Dead(c)) == []
    ensures AllCounted(lists, nchilds[c := 0], nwaiters[c := 0], counted + {c})
  {
    forall p | p in counted ensures Counted(lists, nchilds[c := 0], nwaiters[c := 0], p) {
      assert Counted(lists, nchilds, nwaiters, p);
    }
  }

  lemma WaiterCounted(lists: ChildLists, nchilds: Counts, nwaiters: Counts, counted: set<Proc>, p: Proc, n: int)
    requires AllCounted(lists, nchilds, nwaiters, counted) && p in counted && 0 <= n <= nchilds[p]
    ensures AllCounted(lists, nchilds, nwaiters[p := n], counted)
  {
    forall q | q in counted ensures Counted(lists, nchilds, nwaiters[p := n], q) {
      assert Counted(lists, nchilds, nwaiters, q);
    }
  }

  /** A child moves between the two lists of its parent. */
  lemma MovedCounts(lists: ChildLists, nchilds: Counts, nwaiters: Counts, counted: set<Proc>, q: Proc, s: seq<Proc>,
      d: seq<Proc>)
    requires AllCounted(lists, nchilds, nwaiters, counted)
    requires |s| + |d| == |Of(lists, Live(q))| + |Of(lists, Dead(q))|
    ensures AllCounted(lists[Live(q) := s][Dead(q) := d], nchilds, nwaiters, counted)
  {
    forall p | p in counted ensures Counted(lists[Live(q) := s][Dead(q) := d], nchilds, nwaiters, p) {
      assert Counted(lists, nchilds, nwaiters, p);
    }
  }

  /** The lists of a process outside the set do not matter. */
  lemma ExitingCounted(lists: ChildLists, nchilds: Counts, nwaiters: Counts, running: set<Proc>, q: Children,
      s: seq<Proc>)
    requires AllCounted(lists, nchilds, nwaiters, running - {q.p})
    ensures AllCounted(lists[q := s], nchilds, nwaiters, running - {q.p})
  {
    forall p | p in running - {q.p} ensures Counted(lists[q := s], nchilds, nwaiters, p) {
      assert Counted(lists, nchilds, nwaiters, p);
    }
  }

  lemma RehomedAll(lists: ChildLists, home0: map<Proc, Children>, home: map<Proc, Children>, parent: map<Proc, Proc>,
      nchilds: Counts, nwaiters: Counts, running: set<Proc>, init: Proc, q: Children, to: Children)
    requires Sound(lists, home, parent, nchilds, nwaiters, running, running - {q.p}, init)
    requires home.Keys == home0.Keys && Of(lists, q) == [] && q != to
    requires forall c :: c in home ==> home[c] == home0[c] || (home0[c] == q && home[c] == to)
    ensures home == Rehomed(home0, q, to)
  {
    forall c | c in home ensures home[c] != q { assert c !in Of(lists, q); }
    assert forall c | c in home :: home[c] == Rehomed(home0, q, to)[c];
  }

  // ---------------------------------------------------------------- what the steps keep

  /** What a fork keeps. */
  lemma Born(lists: ChildLists, home: map<Proc, Children>, parent: map<Proc, Proc>, nchilds: Counts, nwaiters: Counts,
      running: set<Proc>, init: Proc, p: Proc, c: Proc)
    requires Sound(lists, home, parent, nchilds, nwaiters, running, running, init)
    requires p in running && c !in running && c !in home
    ensures p in nchilds && p in nwaiters
    ensures Sound(lists[Live(p) := [c] + Of(lists, Live(p))], home[c := Live(p)], parent[c := p],
      nchilds[p := nchilds[p] + 1][c := 0], nwaiters[c := 0], running + {c}, running + {c}, init)
  {
    assert Counted(lists, nchilds, nwaiters, p);
    var before := Of(lists, Live(p));
    Inserted(lists, home, Live(p), c, [c] + before);
    OnlyRunning(lists, home, parent, running, init);
    OtherCounts(lists, nchilds, nwaiters, running, Live(p), [c] + before);
    BornRelated(running, home, parent, init, p, c);
    NewCounted(lists[Live(p) := [c] + before], nchilds[p := nchilds[p] + 1], nwaiters, running, c);
  }

  /** What taking the first dead child keeps. */
  lemma Gone(lists: ChildLists, home: map<Proc, Children>, parent: map<Proc, Proc>, nchilds: Counts, nwaiters: Counts,
      running: set<Proc>, init: Proc, p: Proc)
    requires Sound(lists, home, parent, nchilds, nwaiters, running, running, init)
    requires p in running && p in nwaiters && p in nchilds && nwaiters[p] < nchilds[p] && Of(lists, Dead(p)) != []
    ensures var dead := Of(lists, Dead(p));
      var c := dead[0];
      && c in home && home[c] == Dead(p) && c !in running
      && Sound(lists[Dead(p) := dead[1..]], home - {c}, parent - {c}, nchilds[p := nchilds[p] - 1], nwaiters,
           running, running, init)
  {
    var dead := Of(lists, Dead(p));
    Removed(lists, home, Dead(p), dead[0]);
    assert Detached(dead, dead[0]) == dead[1..];
    OtherCounts(lists, nchilds, nwaiters, running, Dead(p), dead[1..]);
    GoneRelated(running, home, parent, init, dead[0]);
  }

  /** What an adoption keeps; the exiting process is no longer counted. */
  lemma Adopted(lists: ChildLists, home: map<Proc, Children>, parent: map<Proc, Proc>, nchilds: Counts,
      nwaiters: Counts, running: set<Proc>, init: Proc, q: Children)
    requires Sound(lists, home, parent, nchilds, nwaiters, running, running - {q.p}, init)
    requires q.p != init && Of(lists, q) != []
    ensures var c, to := Of(lists, q)[0], Of1(q, init);
      && c in home && home[c] == q && init in nchilds
      && Sound(lists[q := Of(lists, q)[1..]][to := Of(lists, to) + [c]], home[c := to], parent[c := init],
           nchilds[init := nchilds[init] + 1], nwaiters, running, running - {q.p}, init)
  {
    var children, to := Of(lists, q), Of1(q, init);
    var node := children[0];
    assert Detached(children, node) == children[1..];
    Removed(lists, home, q, node);
    var lists1, home1 := lists[q := children[1..]], home - {node};
    Inserted(lists1, home1, to, node, Of(lists1, to) + [node]);
    assert home1[node := to] == home[node := to];
    AdoptedRelated(running, home, parent, init, node);
    assert init in running - {q.p};
    assert Counted(lists, nchilds, nwaiters, init);
    ExitingCounted(lists, nchilds, nwaiters, running, q, children[1..]);
    OtherCounts(lists1, nchilds, nwaiters, running - {q.p}, to, Of(lists1, to) + [node]);
  }

  /** A live child moves to the dead children of its parent. */
  lemma Died(lists: ChildLists, home: map<Proc, Children>, nchilds: Counts, nwaiters: Counts, counted: set<Proc>,
      p: Proc, q: Proc)
    requires Filed(lists, home) && p in home && home[p] == Live(q) && AllCounted(lists, nchilds, nwaiters, counted)
    ensures var lists' := lists[Live(q) := Detached(Of(lists, Live(q)), p)][Dead(q) := Of(lists, Dead(q)) + [p]];
      Filed(lists', home[p := Dead(q)]) && AllCounted(lists', nchilds, nwaiters, counted)
  {
    var alive := Of(lists, Live(q));
    assert p in alive;
    Removed(lists, home, Live(q), p);
    DetachedElements(alive, p);
    MovedCounts(lists, nchilds, nwaiters, counted, q, Detached(alive, p), Of(lists, Dead(q)) + [p]);
    var lists1, home1 := lists[Live(q) := Detached(alive, p)], home - {p};
    Inserted(lists1, home1, Dead(q), p, Of(lists1, Dead(q)) + [p]);
    assert home1[p := Dead(q)] == home[p := Dead(q)];
  }

  /** A process that exits need not be counted any more. */
  lemma Leaving(lists: ChildLists, home: map<Proc, Children>, parent: map<Proc, Proc>, nchilds: Counts,
      nwaiters: Counts, running: set<Proc>, init: Proc, p: Proc)
    requires Sound(lists, home, parent, nchilds, nwaiters, running, running, init) && p in running && p != init
    ensures Sound(lists, home, parent, nchilds, nwaiters, running, running - {p}, init) && init in running
    ensures (p in home ==> home[p].Live? && home[p].p != p) && (p in home <==> p in parent)
  {
  }

  lemma InitRuns(lists: ChildLists, home: map<Proc, Children>, parent: map<Proc, Proc>, nchilds: Counts,
      nwaiters: Counts, running: set<Proc>, counted: set<Proc>, init: Proc)
    requires Sound(lists, home, parent, nchilds, nwaiters, running, counted, init)
    ensures init in running
  {
  }

  lemma NoneThere(lists: ChildLists, home: map<Proc, Children>, parent: map<Proc, Proc>, nchilds: Counts,
      nwaiters: Counts, running: set<Proc>, init: Proc, q: Children)
    requires Sound(lists, home, parent, nchilds, nwaiters, running, running, init) && Of(lists, q) == []
    ensures forall c :: c in home ==> home[c] != q
  {
    forall c | c in home ensures home[c] != q { assert c !in Of(lists, q); }
  }

  lemma WasForked(nchilds: Counts, nwaiters: Counts, running: set<Proc>, p: Proc, c: Proc)
    requires p in nchilds && p in running && c !in running
    ensures Happened(nchilds, nwaiters, nchilds[p := nchilds[p] + 1][c := 0], nwaiters[c := 0], running, p, Forked)
  {
  }

  lemma WereDropped(nchilds: Counts, nwaiters: Counts, nchilds': Counts, running: set<Proc>, init: Proc, n: nat)
    requires init in nchilds && init in nwaiters && nwaiters[init] == 0 && n <= nchilds[init]
    requires nchilds' == nchilds[init := nchilds[init] - n]
    ensures Happened(nchilds, nwaiters, nchilds', nwaiters, running, init, Dropped(n))
  {
  }

  lemma SoundCounted(lists: ChildLists, home: map<Proc, Children>, parent: map<Proc, Proc>, nchilds: Counts,
      nwaiters: Counts, running: set<Proc>, counted: set<Proc>, init: Proc, p: Proc)
    requires Sound(lists, home, parent, nchilds, nwaiters, running, counted, init) && p in counted
    ensures Counted(lists, nchilds, nwaiters, p)
  {
  }

  /** What a process's end keeps, once its children are init's: if it has a parent, it moves from the live to the dead
      children of that parent. */
  lemma Ended(lists: ChildLists, home0: map<Proc, Children>, home: map<Proc, Children>, parent: map<Proc, Proc>,
      nchilds: Counts, nwaiters: Counts, running: set<Proc>, init: Proc, p: Proc)
    requires Sound(lists, home, parent, nchilds, nwaiters, running, running - {p}, init) && p in running && p != init
    requires home == Rehomed(Rehomed(home0, Live(p), Live(init)), Dead(p), Dead(init))
    requires p in home0 ==> home0[p].p != p
    ensures (p in parent <==> p in home0) && (p in home0 ==> parent[p] == home0[p].p)
    ensures p !in parent ==>
      Sound(lists, Departed(home0, p, init), parent, nchilds, nwaiters, running - {p}, running - {p}, init)
    ensures p in parent ==>
      Sound(lists[Live(parent[p]) := Detached(Of(lists, Live(parent[p])), p)]
                 [Dead(parent[p]) := Of(lists, Dead(parent[p])) + [p]],
        Departed(home0, p, init), parent, nchilds, nwaiters, running - {p}, running - {p}, init)
  {
    DepartedAll(home0, home, p, init);
    DepartedRelated(running, home0, home, parent, init, p);
    if p in parent {
      Died(lists, home, nchilds, nwaiters, running - {p}, p, parent[p]);
    }
  }

  class Processes {
    const init: Proc
    var running: set<Proc>
    var pid: map<Proc, int>
    var lists: ChildLists
    var nchilds: Counts
    var nwaiters: Counts
    /** How many of the waiters are on the queue of the condition variable. */
    var asleep: Counts
    var parent: map<Proc, Proc>
    /** The list each child is on, the exits of children, and the children that were collected. */
    ghost var home: map<Proc, Children>
    ghost var exited: multiset<Proc>
    ghost var collected: multiset<Proc>
    /** The waits that have faulted since the last waiter fell asleep. */
    ghost var faults: Counts

    ghost predicate Valid()
      reads this
    {
      Sane() && AllHeed(lists, nwaiters, asleep, faults, running)
    }

    /** The same, as far as the lists, the counts and the parents are concerned. */
    ghost predicate Sane()
      reads this
    {
      && Sound(lists, home, parent, nchilds, nwaiters, running, running, init)
      && Named(pid, running, home) && Settled(exited, collected, home)
    }

    /** Only init runs. */
    constructor (init: Proc, tid: int)
      ensures Valid() && this.init == init && running == {init} && pid == map[init := tid]
      ensures home == map[] && exited == multiset{} && collected == multiset{}
      ensures nchilds == nwaiters == asleep == map[init := 0] && lists == map[]
    {
      this.init := init;
      running, lists, nchilds, nwaiters := {init}, map[], map[init := 0], map[init := 0];
      pid, parent, home, exited, collected := map[init := tid], map[], map[], multiset{}, multiset{};
      asleep, faults := map[init := 0], map[init := 0];
    }

    method NoWaiters(c: Proc)
      modifies this`nwaiters, this`asleep, this`faults
      ensures nwaiters == old(nwaiters)[c := 0] && asleep == old(asleep)[c := 0] && faults == old(faults)[c := 0]
    {
      nwaiters, asleep, faults := nwaiters[c := 0], asleep[c := 0], faults[c := 0];
    }

    method Bear(p: Proc, c: Proc)
      requires p in nchilds
      modifies this`lists, this`nchilds, this`parent, this`home
      ensures lists == old(lists)[Live(p) := [c] + old(Of(lists, Live(p)))]
      ensures nchilds == old(nchilds)[p := old(nchilds[p]) + 1][c := 0]
      ensures parent == old(parent)[c := p] && home == old(home)[c := Live(p)]
    {
      lists := lists[Live(p) := [c] + Of(lists, Live(p))];
      nchilds := nchilds[p := nchilds[p] + 1][c := 0];
      parent, home := parent[c := p], home[c := Live(p)];
    }

    /** `sys_fork_real`: process p gets a new child with id tid, whose block c is in use neither by a process that runs
        nor by a dead child. */
    method Fork(p: Proc, c: Proc, tid: int)
      requires Valid() && p in running && c !in running && c !in home
      modifies this`running, this`pid, this`lists, this`nchilds, this`nwaiters, this`asleep, this`faults, this`parent,
        this`home
      ensures Valid() && running == old(running) + {c} && home == old(home)[c := Live(p)] && pid == old(pid)[c := tid]
      ensures lists == old(lists)[Live(p) := [c] + old(Of(lists, Live(p)))]
      ensures nchilds == old(nchilds)[p := old(nchilds[p]) + 1][c := 0] && nwaiters == old(nwaiters)[c := 0]
      ensures asleep == old(asleep)[c := 0] && faults == old(faults)[c := 0]
      ensures Happened(old(nchilds), old(nwaiters), nchilds, nwaiters, old(running), p, Forked)
    {
      hide Sound, Filed, Related, AllCounted, AllHeed, Counted, Settled, Named, Happened;
      Born(lists, home, parent, nchilds, nwaiters, running, init, p, c);
      BornSettled(exited, collected, home, pid, running, p, c, tid);
      WasForked(nchilds, nwaiters, running, p, c);
      BornHeed(lists, nwaiters, asleep, faults, running, p, [c] + Of(lists, Live(p)), c);
      NoWaiters(c);
      Bear(p, c);
      pid, running := pid[c := tid], running + {c};
    }

    /** `sys_wait_real`, up to the wait: refused when every child already has somebody waiting for it. */
    method WaitBegin(p: Proc) returns (ok: bool)
      requires Valid() && p in running
      modifies this`nwaiters
      ensures Valid() && (ok <==> old(nwaiters[p]) < nchilds[p])
      ensures nwaiters == if ok then old(nwaiters)[p := old(nwaiters[p]) + 1] else old(nwaiters)
      ensures Happened(old(nchilds), old(nwaiters), nchilds, nwaiters, old(running), p, if ok then Began else Refused)
    {
      hide Filed;
      assert Counted(lists, nchilds, nwaiters, p);
      if nchilds[p] <= nwaiters[p] {
        return false;
      }
      WaiterCounted(lists, nchilds, nwaiters, running, p, nwaiters[p] + 1);
      assert Heeds(lists, nwaiters, asleep, faults, p);
      OneHeeds(lists, lists, nwaiters, asleep, faults, running, p, nwaiters[p] + 1, asleep[p], faults[p]);
      assert asleep[p := asleep[p]] == asleep && faults[p := faults[p]] == faults;
      nwaiters := nwaiters[p := nwaiters[p] + 1];
      return true;
    }

    /** One round of the wait: a waiter that sees no dead child joins the queue. */
    method WaitBlock(p: Proc)
      requires Valid() && p in running && asleep[p] < nwaiters[p] && Of(lists, Dead(p)) == []
      modifies this`asleep, this`faults
      ensures Valid() && asleep == old(asleep)[p := old(asleep[p]) + 1] && faults == old(faults)[p := 0]
    {
      hide Sound, AllHeed, Settled, Named;
      HeedsOf(lists, nwaiters, asleep, faults, running, p);
      OneHeeds(lists, lists, nwaiters, asleep, faults, running, p, nwaiters[p], asleep[p] + 1, 0);
      assert nwaiters[p := nwaiters[p]] == nwaiters;
      asleep, faults := asleep[p := asleep[p] + 1], faults[p := 0];
    }

    /** `sys_wait_real`, after the wait, by a waiter that is awake: takes the first dead child, unless its status cannot
        be delivered. */
    method WaitEnd(p: Proc, fault: bool) returns (code: int)
      requires Valid() && p in running && asleep[p] < nwaiters[p] && Of(lists, Dead(p)) != []
      modifies this`lists, this`nchilds, this`nwaiters, this`parent, this`home, this`collected, this`faults
      ensures Valid() && nwaiters == old(nwaiters)[p := old(nwaiters[p]) - 1]
      ensures fault ==> code == -1 && lists == old(lists) && nchilds == old(nchilds) && home == old(home)
      ensures fault ==> collected == old(collected)
      ensures !fault ==> var child := old(Of(lists, Dead(p)))[0];
        && old(child in pid) && code == old(pid[child]) && lists == old(lists)[Dead(p) := old(Of(lists, Dead(p)))[1..]]
        && nchilds == old(nchilds)[p := old(nchilds[p]) - 1]
        && old(child in home && home[child] == Dead(p)) && home == old(home) - {child}
        && collected == old(collected) + multiset{child}
      ensures faults == if fault then old(faults)[p := old(faults[p]) + 1] else old(faults)
      ensures Happened(old(nchilds), old(nwaiters), nchilds, nwaiters, old(running), p,
        if fault then Faulted else Collected)
    {
      hide Filed, Related, AllHeed, Settled, Named;
      assert Counted(lists, nchilds, nwaiters, p);
      HeedsOf(lists, nwaiters, asleep, faults, running, p);
      WaiterCounted(lists, nchilds, nwaiters, running, p, nwaiters[p] - 1);
      ghost var n, a, f, dead := nwaiters[p] - 1, asleep[p], faults[p], Of(lists, Dead(p));
      if fault {
        OneHeeds(lists, lists, nwaiters, asleep, faults, running, p, n, a, f + 1);
        assert asleep[p := a] == asleep;
        nwaiters := nwaiters[p := nwaiters[p] - 1];
        faults := faults[p := f + 1];
        return -1;
      }
      OneHeeds(lists, lists[Dead(p) := dead[1..]], nwaiters, asleep, faults, running, p, n, a, f);
      assert asleep[p := a] == asleep && faults[p := f] == faults;
      nwaiters := nwaiters[p := nwaiters[p] - 1];
      var child := TakeDead(p);
      code := pid[child];
    }

    /** Takes the first dead child off the list of p. */
    method TakeDead(p: Proc) returns (child: Proc)
      requires Sane() && p in running && p in nwaiters && p in nchilds && nwaiters[p] < nchilds[p]
      requires Of(lists, Dead(p)) != []
      modifies this`lists, this`nchilds, this`parent, this`home, this`collected
      ensures Sane() && child == old(Of(lists, Dead(p)))[0] && child in pid
      ensures lists == old(lists)[Dead(p) := old(Of(lists, Dead(p)))[1..]]
      ensures nchilds == old(nchilds)[p := old(nchilds[p]) - 1]
      ensures child in old(home) && old(home)[child] == Dead(p) && home == old(home) - {child}
      ensures collected == old(collected) + multiset{child}
    {
      hide Sound, Filed, AllCounted, Related, Settled;
      var dead := Of(lists, Dead(p));
      child := dead[0];
      Gone(lists, home, parent, nchilds, nwaiters, running, init, p);
      GoneSettled(exited, collected, home, child);
      lists := lists[Dead(p) := dead[1..]];
      nchilds := nchilds[p := nchilds[p] - 1];
      parent := parent - {child};
      home := home - {child};
      collected := collected + multiset{child};
    }

    /** Moves the children on list q of an exiting process to the same list of init. */
    method Adopt(q: Children)
      requires Sound(lists, home, parent, nchilds, nwaiters, running, running - {q.p}, init) && q.p != init
      requires AllHeed(lists, nwaiters, asleep, faults, running - {q.p})
      modifies this`lists, this`nchilds, this`asleep, this`parent, this`home
      ensures Sound(lists, home, parent, nchilds, nwaiters, running, running - {q.p}, init)
      ensures AllHeed(lists, nwaiters, asleep, faults, running - {q.p})
      ensures asleep == if q.Dead? then Signalled(old(asleep), init, old(|Of(lists, q)|)) else old(asleep)
      ensures home == Rehomed(old(home), q, Of1(q, init)) && Of(lists, q) == []
      ensures Of(lists, Of1(q, init)) == old(Of(lists, Of1(q, init)) + Of(lists, q))
      ensures Untouched(old(lists), lists, q, Of1(q, init))
      ensures init in old(nchilds) && nchilds == old(nchilds)[init := old(nchilds[init]) + old(|Of(lists, q)|)]
    {
      hide Sound, Filed, Related, AllCounted, AllHeed, Rehomed, Joined, Untouched;
      JoinedNone(lists, q, Of1(q, init));
      InitHeeds(lists, home, parent, nchilds, nwaiters, asleep, faults, running, q.p, init);
      ghost var home0 := home;
      InitRuns(lists, home, parent, nchilds, nwaiters, running, running - {q.p}, init);
      SoundCounted(lists, home, parent, nchilds, nwaiters, running, running - {q.p}, init, init);
      while Of(lists, q) != []
        invariant Sound(lists, home, parent, nchilds, nwaiters, running, running - {q.p}, init)
        invariant AllHeed(lists, nwaiters, asleep, faults, running - {q.p})
        invariant asleep
          == if q.Dead? then Signalled(old(asleep), init, old(|Of(lists, q)|) - |Of(lists, q)|) else old(asleep)
        invariant |Of(lists, q)| <= old(|Of(lists, q)|)
        invariant home.Keys == home0.Keys
        invariant forall c :: c in home ==> home[c] == home0[c] || (home0[c] == q && home[c] == Of1(q, init))
        invariant Joined(old(lists), lists, q, Of1(q, init))
        invariant init in old(nchilds)
        invariant nchilds == old(nchilds)[init := old(nchilds[init]) + old(|Of(lists, q)|) - |Of(lists, q)|]
        decreases |Of(lists, q)|
      {
        ghost var before := lists;
        AdoptOne(q);
        JoinedMore(old(lists), before, lists, q, Of1(q, init));
      }
      JoinedAll(old(lists), lists, q, Of1(q, init));
      RehomedAll(lists, home0, home, parent, nchilds, nwaiters, running, init, q, Of1(q, init));
    }

    method AdoptOne(q: Children)
      requires Sound(lists, home, parent, nchilds, nwaiters, running, running - {q.p}, init)
      requires AllHeed(lists, nwaiters, asleep, faults, running - {q.p})
      requires q.p != init && Of(lists, q) != []
      modifies this`lists, this`nchilds, this`asleep, this`parent, this`home
      ensures Sound(lists, home, parent, nchilds, nwaiters, running, running - {q.p}, init)
      ensures AllHeed(lists, nwaiters, asleep, faults, running - {q.p})
      ensures asleep == if q.Dead? then Signalled(old(asleep), init, 1) else old(asleep)
      ensures var c := old(Of(lists, q))[0];
        c in old(home) && old(home)[c] == q && home == old(home)[c := Of1(q, init)]
      ensures Of(lists, q) == old(Of(lists, q)[1..])
      ensures Of(lists, Of1(q, init)) == old(Of(lists, Of1(q, init)) + [Of(lists, q)[0]])
      ensures Untouched(old(lists), lists, q, Of1(q, init))
      ensures init in old(nchilds) && nchilds == old(nchilds)[init := old(nchilds[init]) + 1]
    {
      hide Sound, Filed, Related, AllCounted, AllHeed;
      var children, to := Of(lists, q), Of1(q, init);
      var node := children[0];
      Adopted(lists, home, parent, nchilds, nwaiters, running, init, q);
      AdoptedHeed(lists, nwaiters, asleep, faults, running, init, q);
      lists := lists[q := children[1..]];
      lists := lists[to := Of(lists, to) + [node]];
      if q.Dead? {
        asleep := Signalled(asleep, init, 1);
      }
      parent := parent[node := init];
      nchilds := nchilds[init := nchilds[init] + 1];
      home := home[node := to];
    }

    method AdoptAll(p: Proc)
      requires Sound(lists, home, parent, nchilds, nwaiters, running, running - {p}, init) && p != init
      requires AllHeed(lists, nwaiters, asleep, faults, running - {p})
      modifies this`lists, this`nchilds, this`asleep, this`parent, this`home
      ensures Sound(lists, home, parent, nchilds, nwaiters, running, running - {p}, init)
      ensures AllHeed(lists, nwaiters, asleep, faults, running - {p})
      ensures asleep == Signalled(old(asleep), init, old(|Of(lists, Dead(p))|))
      ensures home == Rehomed(Rehomed(old(home), Live(p), Live(init)), Dead(p), Dead(init))
      ensures Behind(old(lists), lists, p, init)
      ensures Happened(old(nchilds), old(nwaiters), nchilds, nwaiters, old(running), init,
        Inherited(old(|Of(lists, Live(p))| + |Of(lists, Dead(p))|)))
    {
      hide Sound, Filed, Related, AllCounted, AllHeed, Counted, Rehomed;
      Adopt(Live(p));
      Adopt(Dead(p));
    }

    /** Moves p, if it has a parent, from the live to the dead children of that one and signals. */
    method Die(p: Proc)
      modifies this`lists, this`asleep, this`exited
      ensures p !in parent ==> lists == old(lists) && asleep == old(asleep) && exited == old(exited)
      ensures p in parent ==> var q := parent[p];
        && lists == old(lists[Live(q) := Detached(Of(lists, Live(q)), p)][Dead(q) := Of(lists, Dead(q)) + [p]])
        && asleep == Signalled(old(asleep), q, 1) && exited == old(exited) + multiset{p}
    {
      if p in parent {
        var q := parent[p];
        lists := lists[Live(q) := Detached(Of(lists, Live(q)), p)];
        lists := lists[Dead(q) := Of(lists, Dead(q)) + [p]];
        asleep := Signalled(asleep, q, 1);
        exited := exited + multiset{p};
      }
    }

    /** The end of process p, once its children are init's; home0 tells where all children were before. */
    method Finish(p: Proc, ghost home0: map<Proc, Children>)
      requires Sound(lists, home, parent, nchilds, nwaiters, running, running - {p}, init) && p in running && p != init
      requires AllHeed(lists, nwaiters, asleep, faults, running - {p})
      requires home == Rehomed(Rehomed(home0, Live(p), Live(init)), Dead(p), Dead(init))
      requires (p in home0 ==> home0[p].Live? && home0[p].p != p)
      requires Named(pid, running, home0) && Settled(exited, collected, home0)
      modifies this`running, this`lists, this`asleep, this`home, this`exited
      ensures Valid() && running == old(running) - {p} && home == Departed(home0, p, init)
      ensures exited == if p in home0 then old(exited) + multiset{p} else old(exited)
      ensures p !in home0 ==> lists == old(lists) && asleep == old(asleep)
      ensures p in home0 ==> var q := home0[p].p;
        && lists == old(lists[Live(q) := Detached(Of(lists, Live(q)), p)][Dead(q) := Of(lists, Dead(q)) + [p]])
        && asleep == Signalled(old(asleep), q, 1)
    {
      hide Sound, Filed, Related, AllCounted, AllHeed, Counted, Settled, Rehomed, Departed, Named, Signalled;
      Ended(lists, home0, home, parent, nchilds, nwaiters, running, init, p);
      DepartedSettled(exited, collected, home0, p, init);
      StillNamed(pid, running, home0, p, init);
      if p in parent { EndedHeed(lists, nwaiters, asleep, faults, running - {p}, p, parent[p]); }
      Die(p);
      home := Departed(home0, p, init);
      running := running - {p};
    }

    /** The last thread of process p exits: init adopts its children, and it becomes a dead child itself. There is one
        signal for each dead child. */
    method Exit(p: Proc)
      requires Valid() && p in running && p != init
      modifies this`running, this`lists, this`nchilds, this`asleep, this`parent, this`home, this`exited
      ensures Valid() && running == old(running) - {p}
      ensures home == Departed(old(home), p, init)
      ensures exited == if p in old(home) then old(exited) + multiset{p} else old(exited)
      ensures var q := if p in old(home) then old(home)[p].p else p;
        Woken(old(asleep), asleep, old(|Of(lists, Dead(p))|), p, init, q) && Moved(old(lists), lists, p, init, q)
      ensures Happened(old(nchilds), old(nwaiters), nchilds, nwaiters, old(running), init,
        Inherited(old(|Of(lists, Live(p))| + |Of(lists, Dead(p))|)))
    {
      hide Sound, Filed, Related, AllCounted, AllHeed, Counted, Settled, Rehomed, Departed, Named, Happened, Signalled,
        Behind, Moved, Woken;
      InitAsleep(lists, home, parent, nchilds, nwaiters, asleep, faults, running, init);
      ghost var q := if p in home then home[p].p else p;
      SignalsWake(asleep, |Of(lists, Dead(p))|, p, init, q);
      Leaving(lists, home, parent, nchilds, nwaiters, running, init, p);
      FewerHeed(lists, nwaiters, asleep, faults, running, p);
      AdoptAll(p);
      MovedOn(old(lists), lists, p, init, q);
      Finish(p, old(home));
    }

    /** `kill_current` of init's only thread first drops init's dead children. */
    method Reclaim()
      requires Valid() && nwaiters[init] == 0
      modifies this`lists, this`nchilds, this`parent, this`home, this`collected
      ensures Valid() && Of(lists, Dead(init)) == []
      ensures forall c :: c in home <==> c in old(home) && old(home)[c] != Dead(init)
      ensures forall c :: c in home ==> home[c] == old(home)[c]
      ensures Happened(old(nchilds), old(nwaiters), nchilds, nwaiters, old(running), init,
        Dropped(old(|Of(lists, Dead(init))|)))
    {
      hide Sound, Filed, Related, AllCounted, AllHeed, Settled, Named, Happened;
      InitRuns(lists, home, parent, nchilds, nwaiters, running, running, init);
      SoundCounted(lists, home, parent, nchilds, nwaiters, running, running, init, init);
      while Of(lists, Dead(init)) != []
        invariant Valid()
        invariant forall c :: c in home ==> c in old(home) && home[c] == old(home)[c]
        invariant forall c :: c in old(home) && c !in home ==> old(home)[c] == Dead(init)
        invariant |Of(lists, Dead(init))| <= old(|Of(lists, Dead(init))|)
        invariant nchilds
               == old(nchilds)[init := old(nchilds[init]) - old(|Of(lists, Dead(init))|) + |Of(lists, Dead(init))|]
        decreases |Of(lists, Dead(init))|
      {
        ReclaimOne();
      }
      NoneThere(lists, home, parent, nchilds, nwaiters, running, init, Dead(init));
      WereDropped(old(nchilds), nwaiters, nchilds, running, init, old(|Of(lists, Dead(init))|));
    }

    method ReclaimOne()
      requires Valid() && nwaiters[init] == 0 && Of(lists, Dead(init)) != []
      modifies this`lists, this`nchilds, this`parent, this`home, this`collected
      ensures Valid() && |Of(lists, Dead(init))| == |old(Of(lists, Dead(init)))| - 1
      ensures init in old(nchilds) && nchilds == old(nchilds)[init := old(nchilds[init]) - 1]
      ensures var c := old(Of(lists, Dead(init)))[0];
        c in old(home) && old(home)[c] == Dead(init) && home == old(home) - {c}
    {
      hide Sound, Filed, Related, AllCounted, AllHeed, Settled, Named;
      InitRuns(lists, home, parent, nchilds, nwaiters, running, running, init);
      SoundCounted(lists, home, parent, nchilds, nwaiters, running, running, init, init);
      FewerDead(lists, lists[Dead(init) := Of(lists, Dead(init))[1..]], nwaiters, asleep, faults, running);
      var child := TakeDead(init);
    }
  }

  /** The dead children of p, if only c is one. */
  lemma OneDead(lists: ChildLists, home: map<Proc, Children>, parent: map<Proc, Proc>, nchilds: Counts,
      nwaiters: Counts, running: set<Proc>, init: Proc, p: Proc, c: Proc)
    requires Sound(lists, home, parent, nchilds, nwaiters, running, running, init) && c in home && home[c] == Dead(p)
    requires forall d :: d in home && home[d] == Dead(p) ==> d == c
    ensures Of(lists, Dead(p)) == [c]
  {
    hide Related, AllCounted;
    var dead := Of(lists, Dead(p));
    assert c in dead && NoDup(dead) && (|dead| >= 2 ==> dead[0] != dead[1]);
    forall i | 0 <= i < |dead| ensures dead[i] == c {
      var d := dead[i];
      assert d in Of(lists, Dead(p));
      assert d in home && home[d] == Dead(p);
    }
  }

  /** A run in which a fault strands a waiter: two wait for two children, one child exits, and the waiter that it wakes
      cannot deliver the status. The other one sleeps on beside the dead child. */
  method FaultStrands() returns (ps: Processes)
    ensures fresh(ps) && ps.Valid() && 0 in ps.asleep && 0 in ps.nwaiters
    ensures ps.asleep[0] == ps.nwaiters[0] == 1 && Of(ps.lists, Dead(0)) == [1]
  {
    hide Sound, Filed, AllCounted, Related, AllHeed, Settled, Named, Happened;
    ps := new Processes(0, 1);
    ps.Fork(0, 1, 2);
    ps.Fork(0, 2, 3);
    var first := ps.WaitBegin(0);
    var second := ps.WaitBegin(0);
    ps.WaitBlock(0);
    ps.WaitBlock(0);
    ps.Exit(1);
    OneDead(ps.lists, ps.home, ps.parent, ps.nchilds, ps.nwaiters, ps.running, 0, 0, 1);
    var code := ps.WaitEnd(0, true);
  }
}
