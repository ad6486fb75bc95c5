/**
 Queues, lists, executing slots and the multiprogramming count agree with every thread's state.
 Each transition of module `Scheduler` keeps that agreement; the count is busy threads plus
 entries of the blocked queue, stale ones included.
 */
module Agreement {
  import opened Scheduler

  ghost predicate Distinct(ps: seq<Process>)
  {
    forall i, j | 0 <= i < j < |ps| :: ps[i].id != ps[j].id
  }

  function One(b: bool): (n: nat)
  {
    if b then 1 else 0
  }

  function Count(s: seq<Id>, k: Id): (n: nat)
    ensures n > 0 <==> k in s
  {
    multiset(s)[k]
  }

  /** Threads ready or executing, over all processes. */
  function Busy(ps: seq<Process>): (n: nat)
  {
    if ps == [] then 0
    else |ps[|ps| - 1].ready| + One(ps[|ps| - 1].exec.Running?) + Busy(ps[..|ps| - 1])
  }

  lemma {:induction false} BusyUpdate(ps: seq<Process>, i: nat, p: Process)
    requires i < |ps|
    ensures Busy(ps[i := p]) == Busy(ps) - |ps[i].ready| - One(ps[i].exec.Running?) + |p.ready| + One(p.exec.Running?)
  {
    var n := |ps| - 1;
    if i < n {
      BusyUpdate(ps[..n], i, p);
      assert ps[i := p][..n] == ps[..n][i := p];
    } else {
      assert ps[i := p][..n] == ps[..n];
    }
  }

  /** A thread is in the one place its state names; a blocked one is in the blocked queue, perhaps not once only. */
  ghost predicate Placed(h: Scheduling, k: Id)
    requires k in h.threads
  {
    var i := Proc(h.procs, k.pid);
    i != -1 &&
    var p, e := h.procs[i], h.threads[k].estado;
    && Count(h.newQueue, k) == One(e.New?)
    && Count(p.ready, k) == One(e.Ready?)
    && Count(p.ults, k) == One(!e.Exit?)
    && (p.exec == Running(k) <==> e.Execute?)
    && (e.Blocked? ==> k in h.blockedQueue)
  }

  /** What a process lists are threads of its own, and `semaforoReady` counts the ready ones. */
  ghost predicate Owns(h: Scheduling, p: Process)
  {
    && (forall k | k in p.ready :: k in h.threads && k.pid == p.id)
    && (forall k | k in p.ults :: k in h.threads && k.pid == p.id)
    && (p.exec.Running? ==> p.exec.k in h.threads && p.exec.k.pid == p.id)
    && p.semaforoReady == |p.ready|
  }

  ghost predicate Refs(h: Scheduling)
  {
    && Distinct(h.procs)
    && (forall k | k in h.newQueue :: k in h.threads)
    && (forall k | k in h.blockedQueue :: k in h.threads)
    && forall i | 0 <= i < |h.procs| :: Owns(h, h.procs[i])
  }

  ghost predicate Queues(h: Scheduling)
  {
    Refs(h) && forall k | k in h.threads :: Placed(h, k)
  }

  /** The exact law of the counter: stale entries of the blocked queue are counted too. */
  ghost predicate Counted(h: Scheduling)
  {
    h.actual == Busy(h.procs) + |h.blockedQueue|
  }

  ghost predicate Agree(h: Scheduling)
  {
    Queues(h) && Counted(h)
  }

  lemma ProcUnique(ps: seq<Process>, i: nat)
    requires Distinct(ps) && i < |ps|
    ensures Proc(ps, ps[i].id) == i
  {
  }

  // ----- one thread moves -----

  /** The lists differ in how often they hold `k` only. */
  ghost predicate Besides(a: seq<Id>, b: seq<Id>, k: Id)
  {
    forall x | x != k :: Count(a, x) == Count(b, x)
  }

  ghost predicate ExecBesides(a: Slot, b: Slot, k: Id)
  {
    forall x | x != k :: a == Running(x) <==> b == Running(x)
  }

  lemma SameList(a: seq<Id>, k: Id)
    ensures Besides(a, a, k)
  {
  }

  lemma AppendedList(a: seq<Id>, k: Id)
    ensures Besides(a, a + [k], k) && Count(a + [k], k) == Count(a, k) + 1
  {
  }

  lemma RemovedList(a: seq<Id>, k: Id)
    ensures Besides(a, Remove(a, k), k) && Count(Remove(a, k), k) == if k in a then Count(a, k) - 1 else 0
  {
    RemoveCounts(a, k);
  }

  /** Nothing is different for any thread but `k`. */
  ghost predicate Others(h: Scheduling, g: Scheduling, k: Id, i: nat)
    requires i < |h.procs| == |g.procs|
  {
    && g.threads.Keys == h.threads.Keys + {k}
    && (forall x | x in h.threads && x != k :: g.threads[x] == h.threads[x])
    && g.procs == h.procs[i := g.procs[i]] && g.procs[i].id == h.procs[i].id
    && Besides(h.newQueue, g.newQueue, k) && Besides(h.blockedQueue, g.blockedQueue, k)
    && Besides(h.procs[i].ready, g.procs[i].ready, k) && Besides(h.procs[i].ults, g.procs[i].ults, k)
    && ExecBesides(h.procs[i].exec, g.procs[i].exec, k)
  }

  lemma MovedQueues(h: Scheduling, g: Scheduling, k: Id, i: nat)
    requires Queues(h) && i < |h.procs| == |g.procs| && i == Proc(h.procs, k.pid) && Others(h, g, k, i)
    requires k in g.threads && Proc(g.procs, k.pid) == i ==> Placed(g, k)
    requires g.procs[i].semaforoReady == |g.procs[i].ready|
    ensures Queues(g)
  {
    SameProc(h.procs, g.procs, k.pid);
    MovedRefs(h, g, k, i);
    forall x | x in g.threads ensures Placed(g, x) {
      if x != k {
        SameProc(h.procs, g.procs, x.pid);
        assert Placed(h, x);
        assert Count(h.blockedQueue, x) == Count(g.blockedQueue, x);
      }
    }
  }

  lemma MovedRefs(h: Scheduling, g: Scheduling, k: Id, i: nat)
    requires Refs(h) && i < |h.procs| == |g.procs| && i == Proc(h.procs, k.pid) && Others(h, g, k, i)
    requires g.procs[i].semaforoReady == |g.procs[i].ready|
    ensures Refs(g)
  {
    forall x | x in g.newQueue ensures x in g.threads {
      assert x != k ==> Count(g.newQueue, x) > 0;
      assert x != k ==> x in h.newQueue;
    }
    forall x | x in g.blockedQueue ensures x in g.threads {
      assert x != k ==> Count(g.blockedQueue, x) > 0;
      assert x != k ==> x in h.blockedQueue;
    }
    forall j | 0 <= j < |g.procs| ensures Owns(g, g.procs[j]) {
      assert Owns(h, h.procs[j]);
      if j == i {
        MovedOwns(h, g, k, i);
      }
    }
  }

  lemma MovedOwns(h: Scheduling, g: Scheduling, k: Id, i: nat)
    requires i < |h.procs| == |g.procs| && i == Proc(h.procs, k.pid) && Others(h, g, k, i) && Owns(h, h.procs[i])
    requires g.procs[i].semaforoReady == |g.procs[i].ready|
    ensures Owns(g, g.procs[i])
  {
    var p, q := h.procs[i], g.procs[i];
    forall x | x in q.ready ensures x in g.threads && x.pid == q.id {
      assert x != k ==> Count(q.ready, x) > 0;
      assert x != k ==> x in p.ready;
    }
    forall x | x in q.ults ensures x in g.threads && x.pid == q.id {
      assert x != k ==> Count(q.ults, x) > 0;
      assert x != k ==> x in p.ults;
    }
    if q.exec.Running? && q.exec.k != k {
      assert p.exec == Running(q.exec.k);
    }
  }

  // ----- each transition, from the state it is meant for -----

  lemma PlacedAt(h: Scheduling, k: Id)
    requires Queues(h) && k in h.threads
    ensures Known(h, k) && Placed(h, k)
    ensures var p := h.procs[Proc(h.procs, k.pid)];
            && Owns(h, p) && (k in p.ready <==> h.threads[k].estado.Ready?)
            && (k in h.newQueue <==> h.threads[k].estado.New?)
  {
    assert Placed(h, k);
    var p := h.procs[Proc(h.procs, k.pid)];
    assert k in p.ready <==> Count(p.ready, k) > 0;
    assert k in h.newQueue <==> Count(h.newQueue, k) > 0;
  }

  lemma NewToReadyAgrees(h: Scheduling, k: Id)
    requires Agree(h) && k in h.threads && h.threads[k].estado.New?
    ensures Known(h, k) && Agree(NewToReady(h, k))
  {
    hide Proc;
    hide Busy;
    hide Refs;
    hide Remove;
    hide Besides;
    hide Count;
    PlacedAt(h, k);
    var i := Proc(h.procs, k.pid);
    var g := NewToReady(h, k);
    RemovedList(h.newQueue, k);
    SameList(h.blockedQueue, k);
    AppendedList(h.procs[i].ready, k);
    SameList(h.procs[i].ults, k);
    MovedQueues(h, g, k, i);
    BusyUpdate(h.procs, i, g.procs[i]);
  }

  lemma BlockedToReadyAgrees(h: Scheduling, k: Id)
    requires Agree(h) && k in h.threads && h.threads[k].estado.Blocked?
    ensures Known(h, k) && Agree(BlockedToReady(h, k))
  {
    hide Proc;
    hide Busy;
    hide Refs;
    hide Remove;
    hide Besides;
    hide Count;
    PlacedAt(h, k);
    var i := Proc(h.procs, k.pid);
    var g := BlockedToReady(h, k);
    SameList(h.newQueue, k);
    RemovedList(h.blockedQueue, k);
    AppendedList(h.procs[i].ready, k);
    SameList(h.procs[i].ults, k);
    MovedQueues(h, g, k, i);
    BusyUpdate(h.procs, i, g.procs[i]);
  }

  lemma NewToExecuteAgrees(h: Scheduling, k: Id, now: real)
    requires Agree(h) && k in h.threads && h.threads[k].estado.New?
    requires Known(h, k) && h.procs[Proc(h.procs, k.pid)].exec.Idle?
    ensures Agree(NewToExecute(h, k, now))
  {
    hide Proc;
    hide Busy;
    hide Refs;
    hide Remove;
    hide Besides;
    hide Count;
    PlacedAt(h, k);
    var i := Proc(h.procs, k.pid);
    var g := NewToExecute(h, k, now);
    RemovedList(h.newQueue, k);
    SameList(h.blockedQueue, k);
    SameList(h.procs[i].ready, k);
    SameList(h.procs[i].ults, k);
    MovedQueues(h, g, k, i);
    BusyUpdate(h.procs, i, g.procs[i]);
  }

  lemma ExecuteToReadyAgrees(h: Scheduling, k: Id, now: real)
    requires Agree(h) && k in h.threads && h.threads[k].estado.Execute?
    ensures Known(h, k) && Agree(ExecuteToReady(h, k, now))
  {
    hide Proc;
    hide Busy;
    hide Refs;
    hide Remove;
    hide Besides;
    hide Count;
    PlacedAt(h, k);
    var i := Proc(h.procs, k.pid);
    var g := ExecuteToReady(h, k, now);
    SameList(h.newQueue, k);
    SameList(h.blockedQueue, k);
    AppendedList(h.procs[i].ready, k);
    SameList(h.procs[i].ults, k);
    MovedQueues(h, g, k, i);
    BusyUpdate(h.procs, i, g.procs[i]);
  }

  lemma ExecuteToBlockedAgrees(h: Scheduling, k: Id, now: real)
    requires Agree(h) && k in h.threads && h.threads[k].estado.Execute?
    ensures Known(h, k) && Agree(ExecuteToBlocked(h, k, now))
  {
    hide Proc;
    hide Busy;
    hide Refs;
    hide Remove;
    hide Besides;
    hide Count;
    PlacedAt(h, k);
    var i := Proc(h.procs, k.pid);
    var g := ExecuteToBlocked(h, k, now);
    SameList(h.newQueue, k);
    AppendedList(h.blockedQueue, k);
    SameList(h.procs[i].ready, k);
    SameList(h.procs[i].ults, k);
    MovedQueues(h, g, k, i);
    BusyUpdate(h.procs, i, g.procs[i]);
  }

  /** With the count of `semaforoReady` already taken by `sem_wait`. */
  lemma ReadyToExecuteAgrees(h: Scheduling, k: Id, now: real)
    requires k in h.threads && h.threads[k].estado.Ready? && Known(h, k)
    requires var i := Proc(h.procs, k.pid); var p := h.procs[i];
             p.exec.Idle? && Agree(SetProc(h, i, p.(semaforoReady := p.semaforoReady + 1)))
    ensures Agree(ReadyToExecute(h, k, now))
  {
    hide Proc;
    hide Busy;
    hide Refs;
    hide Remove;
    hide Besides;
    hide Count;
    var i := Proc(h.procs, k.pid);
    var p := h.procs[i];
    var b := SetProc(h, i, p.(semaforoReady := p.semaforoReady + 1));
    SameProc(h.procs, b.procs, k.pid);
    PlacedAt(b, k);
    var g := ReadyToExecute(h, k, now);
    SameList(h.newQueue, k);
    SameList(h.blockedQueue, k);
    RemovedList(p.ready, k);
    SameList(p.ults, k);
    MovedQueues(b, g, k, i);
    BusyUpdate(b.procs, i, g.procs[i]);
  }

  /** What `eliminar_ULT_cola_actual` leaves behind. */
  lemma LeaveLists(h: Scheduling, k: Id)
    requires Queues(h) && k in h.threads
    ensures Known(h, k)
    ensures var i, l, e := Proc(h.procs, k.pid), Leave(h, k), h.threads[k].estado;
            var p, q := h.procs[i], l.procs[i];
            && l == h.(newQueue := l.newQueue, blockedQueue := l.blockedQueue, procs := h.procs[i := q])
            && q == p.(ready := q.ready, exec := q.exec) && ExecBesides(p.exec, q.exec, k) && q.exec != Running(k)
            && Besides(h.newQueue, l.newQueue, k) && Besides(h.blockedQueue, l.blockedQueue, k)
            && Besides(p.ready, q.ready, k) && Count(l.newQueue, k) == 0 == Count(q.ready, k)
            && |q.ready| == |p.ready| - One(e.Ready?) && |l.blockedQueue| == |h.blockedQueue| - One(e.Blocked?)
            && One(q.exec.Running?) == One(p.exec.Running?) - One(e.Execute?)
  {
    hide Proc;
    hide Refs;
    hide Remove;
    hide Besides;
    hide Count;
    PlacedAt(h, k);
    var i := Proc(h.procs, k.pid);
    SameList(h.newQueue, k);
    RemovedList(h.newQueue, k);
    SameList(h.blockedQueue, k);
    RemovedList(h.blockedQueue, k);
    SameList(h.procs[i].ready, k);
    RemovedList(h.procs[i].ready, k);
    assert h.procs[i := h.procs[i]] == h.procs;
  }

  lemma ToExitAgrees(h: Scheduling, k: Id)
    requires Agree(h) && k in h.threads && !h.threads[k].estado.Exit?
    ensures Known(h, k)
    ensures Agree(ToExit(h, k))
  {
    hide Proc;
    hide Busy;
    hide Refs;
    hide Remove;
    hide Besides;
    hide Count;
    hide Leave;
    hide ExecBesides;
    PlacedAt(h, k);
    var i := Proc(h.procs, k.pid);
    var g := ToExit(h, k);
    LeaveLists(h, k);
    RemovedList(h.procs[i].ults, k);
    MovedQueues(h, g, k, i);
    BusyUpdate(h.procs, i, g.procs[i]);
  }

  lemma BornAgrees(h: Scheduling, k: Id)
    requires Agree(h) && (k in h.threads ==> h.threads[k].estado.Exit?) && Proc(h.procs, k.pid) != -1
    ensures Agree(Born(h, k))
  {
    hide Proc;
    hide Busy;
    hide Refs;
    hide Remove;
    hide Besides;
    hide Count;
    var i := Proc(h.procs, k.pid);
    var g := Born(h, k);
    FreshCount(h, k, i);
    AppendedList(h.newQueue, k);
    SameList(h.blockedQueue, k);
    SameList(h.procs[i].ready, k);
    AppendedList(h.procs[i].ults, k);
    MovedQueues(h, g, k, i);
    BusyUpdate(h.procs, i, g.procs[i]);
  }

  /** An unused name, or one whose thread has gone, is in no list but perhaps the blocked one. */
  lemma FreshCount(h: Scheduling, k: Id, i: nat)
    requires Queues(h) && (k in h.threads ==> h.threads[k].estado.Exit?) && i < |h.procs| && i == Proc(h.procs, k.pid)
    ensures Count(h.newQueue, k) == 0 && Owns(h, h.procs[i])
    ensures Count(h.procs[i].ready, k) == 0 && Count(h.procs[i].ults, k) == 0 && h.procs[i].exec != Running(k)
  {
    assert Owns(h, h.procs[i]);
    if k in h.threads {
      assert Placed(h, k);
    } else {
      assert k !in h.newQueue && k !in h.procs[i].ready && k !in h.procs[i].ults;
    }
  }

  lemma NewProcessAgrees(h: Scheduling, pid: int)
    requires Agree(h) && Proc(h.procs, pid) == -1
    ensures Agree(h.(procs := h.procs + [Process(pid, [], [], Idle, 0)]))
  {
    var g := h.(procs := h.procs + [Process(pid, [], [], Idle, 0)]);
    assert g.procs[..|h.procs|] == h.procs;
    forall j | 0 <= j < |g.procs| ensures Owns(g, g.procs[j]) {
      assert j < |h.procs| ==> Owns(h, h.procs[j]);
    }
    forall k | k in g.threads ensures Placed(g, k) {
      assert Placed(h, k);
      ProcAppend(h.procs, g.procs[|h.procs|], k.pid);
    }
  }

  lemma {:induction false} ProcAppend(ps: seq<Process>, p: Process, pid: int)
    ensures Proc(ps, pid) != -1 ==> Proc(ps + [p], pid) == Proc(ps, pid)
    ensures Proc(ps, pid) == -1 && p.id == pid ==> Proc(ps + [p], pid) == |ps|
  {
    if ps != [] {
      assert (ps + [p])[1..] == ps[1..] + [p];
      ProcAppend(ps[1..], p, pid);
    }
  }

  /** With the system full a joiner is queued as new, and its entry in the blocked queue is left behind. */
  lemma RequeuedAgrees(h: Scheduling, k: Id)
    requires Agree(h) && k in h.threads && h.threads[k].estado.Blocked?
    ensures Agree(SetThread(h, k, h.threads[k].(estado := New)).(newQueue := h.newQueue + [k]))
  {
    hide Proc;
    hide Busy;
    hide Refs;
    hide Remove;
    hide Besides;
    hide Count;
    PlacedAt(h, k);
    var i := Proc(h.procs, k.pid);
    var g := SetThread(h, k, h.threads[k].(estado := New)).(newQueue := h.newQueue + [k]);
    AppendedList(h.newQueue, k);
    SameList(h.blockedQueue, k);
    SameList(h.procs[i].ready, k);
    SameList(h.procs[i].ults, k);
    MovedQueues(h, g, k, i);
  }

  /** Fields other than the state may change freely. */
  lemma RetouchAgrees(h: Scheduling, th: map<Id, Thread>)
    requires Agree(h) && th.Keys == h.threads.Keys && forall k | k in th :: th[k].estado == h.threads[k].estado
    ensures Agree(h.(threads := th))
  {
    var g := h.(threads := th);
    forall k | k in g.threads ensures Placed(g, k) {
      assert Placed(h, k);
    }
    forall j | 0 <= j < |g.procs| ensures Owns(g, g.procs[j]) {
      assert Owns(h, h.procs[j]);
    }
  }

  /** The order of a ready list may change freely. */
  lemma ReorderAgrees(h: Scheduling, i: nat, l: seq<Id>)
    requires Agree(h) && i < |h.procs| && multiset(l) == multiset(h.procs[i].ready) && |l| == |h.procs[i].ready|
    ensures Agree(SetProc(h, i, h.procs[i].(ready := l)))
  {
    hide Proc;
    hide Busy;
    hide Placed;
    hide Owns;
    var g := SetProc(h, i, h.procs[i].(ready := l));
    BusyUpdate(h.procs, i, g.procs[i]);
    forall k | k in g.threads ensures Placed(g, k) {
      ReorderPlaced(h, i, l, k);
    }
    forall j | 0 <= j < |g.procs| ensures Owns(g, g.procs[j]) {
      ReorderOwns(h, i, l, j);
    }
  }

  lemma ReorderPlaced(h: Scheduling, i: nat, l: seq<Id>, k: Id)
    requires i < |h.procs| && multiset(l) == multiset(h.procs[i].ready) && k in h.threads && Placed(h, k)
    ensures Placed(SetProc(h, i, h.procs[i].(ready := l)), k)
  {
    hide Proc;
    SameProc(h.procs, h.procs[i := h.procs[i].(ready := l)], k.pid);
    assert Count(l, k) == Count(h.procs[i].ready, k);
  }

  lemma ReorderOwns(h: Scheduling, i: nat, l: seq<Id>, j: nat)
    requires i < |h.procs| && multiset(l) == multiset(h.procs[i].ready) && |l| == |h.procs[i].ready|
    requires j < |h.procs| && Owns(h, h.procs[j])
    ensures var g := SetProc(h, i, h.procs[i].(ready := l)); Owns(g, g.procs[j])
  {
    if j == i {
      SameMembers(l, h.procs[i].ready);
    }
  }

  lemma SameMembers(l: seq<Id>, m: seq<Id>)
    requires multiset(l) == multiset(m)
    ensures forall x | x in l :: x in m
  {
    forall x | x in l ensures x in m {
      assert multiset(l)[x] > 0;
    }
  }

  /** Semaphores take no part in it. */
  lemma SemsAgree(h: Scheduling, ss: seq<Sem>)
    requires Agree(h)
    ensures Agree(h.(sems := ss))
  {
    var g := h.(sems := ss);
    forall k | k in g.threads ensures Placed(g, k) {
      assert Placed(h, k);
    }
    forall j | 0 <= j < |g.procs| ensures Owns(g, g.procs[j]) {
      assert Owns(h, h.procs[j]);
    }
  }
}
