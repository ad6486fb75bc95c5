/** What each request to the scheduler leaves where, told from the state before it. */
module Effects {
  import opened Scheduler
  import opened Agreement
  import opened Joins

  /** Everything but threads, processes, queues and semaphores is as it was. */
  ghost predicate SameRest(h: Scheduling, g: Scheduling)
  {
    g.exitQueue == h.exitQueue && g.max == h.max && g.alpha == h.alpha
  }

  /** Process `i` is `p` now; the others are as they were. */
  ghost predicate OneProcess(h: Scheduling, g: Scheduling, i: int, p: Process)
  {
    && 0 <= i < |h.procs| == |g.procs| && g.procs[i] == p
    && forall j | 0 <= j < |h.procs| && j != i :: g.procs[j] == h.procs[j]
  }

  /** Where in the list the process of `k` is, or -1. */
  ghost predicate At(h: Scheduling, pid: int, i: int)
  {
    if i == -1 then forall j | 0 <= j < |h.procs| :: h.procs[j].id != pid
    else 0 <= i < |h.procs| && h.procs[i].id == pid && forall j | 0 <= j < i :: h.procs[j].id != pid
  }

  lemma {:induction false} ProcAt(ps: seq<Process>, pid: int)
    ensures Proc(ps, pid) != -1 ==> forall j | 0 <= j < Proc(ps, pid) :: ps[j].id != pid
  {
    if ps != [] && ps[0].id != pid {
      ProcAt(ps[1..], pid);
      assert forall j | 0 < j < |ps| :: ps[j] == ps[1..][j - 1];
    }
  }

  lemma {:induction false} SemAt(ss: seq<Sem>, name: string)
    ensures SemNamed(ss, name) != -1 ==> forall j | 0 <= j < SemNamed(ss, name) :: ss[j].name != name
  {
    if ss != [] && ss[0].name != name {
      SemAt(ss[1..], name);
      assert forall j | 0 < j < |ss| :: ss[j] == ss[1..][j - 1];
    }
  }

  // ----- creating -----

  /**
   Below the cap the first thread of an unknown process executes from `now` on, and another thread is the
   last of the ready; at the cap either waits at the end of the new queue. One more is counted below the
   cap, and nothing else moves.
   */
  ghost predicate Created(h: Scheduling, k: Id, now: real, g: Scheduling)
  {
    var below := h.actual + 1 <= h.max;
    exists i :: At(h, k.pid, i) &&
      var e := if !below then New else if i == -1 then Execute else Ready;
      && g.threads.Keys == h.threads.Keys + {k}
      && (forall x | x in h.threads && x != k :: g.threads[x] == h.threads[x])
      && g.threads[k] == Thread(e, if e == Execute then now else 0.0, e == Execute, 0.0, [], [])
      && g.newQueue == (if below then h.newQueue else h.newQueue + [k])
      && g.actual == (if below then h.actual + 1 else h.actual)
      && g.blockedQueue == h.blockedQueue && g.sems == h.sems && SameRest(h, g)
      && if i == -1 then
           g.procs == h.procs + [Process(k.pid, [k], [], if below then Running(k) else Idle, 0)]
         else
           var p := h.procs[i];
           OneProcess(h, g, i, if below then
               p.(ults := p.ults + [k], ready := p.ready + [k], semaforoReady := p.semaforoReady + 1)
             else p.(ults := p.ults + [k]))
  }

  lemma CreateEffect(h: Scheduling, k: Id, now: real)
    requires Inv(h) && !Live(h, k)
    ensures Created(h, k, now, Create(h, k, now))
  {
    hide Agree;
    hide Waits;
    var i := Proc(h.procs, k.pid);
    ProcAt(h.procs, k.pid);
    assert At(h, k.pid, i);
    if i == -1 {
      FirstCreated(h, k, now);
    } else {
      OtherCreated(h, k, now);
    }
  }

  lemma FirstCreated(h: Scheduling, k: Id, now: real)
    requires Capped(h) && Proc(h.procs, k.pid) == -1 && At(h, k.pid, -1)
    ensures Created(h, k, now, Create(h, k, now))
  {
    hide Proc;
    var q := Process(k.pid, [], [], Idle, 0);
    var h1 := h.(procs := h.procs + [q]);
    ProcAppend(h.procs, q, k.pid);
    var h2 := Born(h1, k);
    SameProc(h1.procs, h2.procs, k.pid);
    assert q.ults + [k] == [k] && h1.procs[|h.procs|] == q;
    assert h2.procs == h.procs + [q.(ults := [k])];
    if Room(h2) {
      assert Remove(h2.newQueue, k) == h.newQueue;
    }
  }

  lemma OtherCreated(h: Scheduling, k: Id, now: real)
    requires Capped(h) && Proc(h.procs, k.pid) != -1 && At(h, k.pid, Proc(h.procs, k.pid))
    ensures Created(h, k, now, Create(h, k, now))
  {
    hide Proc;
    var i := Proc(h.procs, k.pid);
    var h2 := Born(h, k);
    SameProc(h.procs, h2.procs, k.pid);
    if Room(h2) {
      assert Remove(h2.newQueue, k) == h.newQueue;
      SameProc(h2.procs, Leave(h2, k).procs, k.pid);
    }
  }

  // ----- joining -----

  /** The burst of a thread that stops executing at `now`. */
  function Ended(rafaga: real, now: real): (r: real)
  {
    if rafaga > 0.0 then now - rafaga else rafaga
  }

  /**
   `e` is blocked, waits for `k` and is listed by it; it stands last in the blocked queue, its process
   executes nobody, and nothing else moves.
   */
  ghost predicate JoinedOn(h: Scheduling, e: Id, k: Id, i: int, now: real, g: Scheduling)
    requires e in h.threads && k in h.threads && 0 <= i < |h.procs|
  {
    && Joined(h, g, e, k)
    && (forall x | x in h.threads && x != e ::
          g.threads[x] == h.threads[x].(joinedBy := g.threads[x].joinedBy))
    && g.threads[e] == h.threads[e].(estado := Blocked, rafaga := Ended(h.threads[e].rafaga, now),
                                     joinTo := [k], joinedBy := g.threads[e].joinedBy)
    && OneProcess(h, g, i, h.procs[i].(exec := Idle))
    && g.blockedQueue == h.blockedQueue + [e]
    && g.newQueue == h.newQueue && g.actual == h.actual && SameRest(h, g)
  }

  /** A join waits when the process executes and the target lives, and otherwise does nothing. */
  ghost predicate JoinDone(h: Scheduling, k: Id, now: real, g: Scheduling)
  {
    exists i :: At(h, k.pid, i) && i != -1 &&
      var p := h.procs[i];
      if p.exec.Running? && Live(h, k) then p.exec.k in h.threads && JoinedOn(h, p.exec.k, k, i, now, g) else g == h
  }

  lemma JoinEffect(h: Scheduling, k: Id, now: real)
    requires Inv(h) && Proc(h.procs, k.pid) != -1
    ensures JoinDone(h, k, now, JoinThread(h, k, now))
  {
    hide Waits;
    hide Placed;
    hide Proc;
    hide Joined;
    var i := Proc(h.procs, k.pid);
    var p := h.procs[i];
    ProcAt(h.procs, k.pid);
    assert At(h, k.pid, i);
    assert Owns(h, p);
    if k in h.threads {
      ListedLives(h, k);
    }
    if p.exec.Running? && k in p.ults {
      ExecutingAt(h, i, p.exec.k);
      AgreeKnown(h, p.exec.k);
      AgreeKnown(h, k);
      NotJoined(h, p.exec.k);
      JoinedHere(h, p.exec.k, k, i, now);
    }
  }

  lemma NotJoined(h: Scheduling, e: Id)
    requires Waits(h) && e in h.threads && !h.threads[e].estado.Blocked?
    ensures h.threads[e].joinTo == []
  {
    assert OneTarget(h, e);
  }

  lemma JoinedHere(h: Scheduling, e: Id, k: Id, i: nat, now: real)
    requires h.threads.Keys >= {e, k} && h.threads[e].joinTo == [] && i < |h.procs| && h.procs[i].exec == Running(e)
    requires i == Proc(h.procs, k.pid) == Proc(h.procs, e.pid) && k in h.procs[i].ults
    ensures JoinedOn(h, e, k, i, now, JoinThread(h, k, now))
  {
    hide Proc;
    hide Joined;
    hide OneProcess;
    var g := JoinThread(h, k, now);
    JoinedThreads(h.threads, e, k, now, g.threads);
    assert OneProcess(h, g, i, h.procs[i].(exec := Idle)) by {
      OneProcessSet(h, g, i, h.procs[i].(exec := Idle));
    }
    assert g.sems == h.sems;
    JoinedIs(h, g, e, k);
  }

  lemma OneProcessSet(h: Scheduling, g: Scheduling, i: nat, p: Process)
    requires i < |h.procs| && g.procs == h.procs[i := p]
    ensures OneProcess(h, g, i, p)
  {
  }

  /** Two entries of the table, perhaps the same one, updated one after the other. */
  lemma JoinedThreads(t: map<Id, Thread>, e: Id, k: Id, now: real, u: map<Id, Thread>)
    requires t.Keys >= {e, k} && t[e].joinTo == []
    requires var t1 := t[e := t[e].(joinTo := t[e].joinTo + [k])];
             var t2 := t1[k := t1[k].(joinedBy := t1[k].joinedBy + [e])];
             u == t2[e := t2[e].(estado := Blocked, rafaga := Ended(t2[e].rafaga, now))]
    ensures u.Keys == t.Keys
    ensures forall x | x in t :: u[x].joinedBy == t[x].joinedBy + if x == k then [e] else []
    ensures forall x | x in t && x != e :: u[x] == t[x].(joinedBy := u[x].joinedBy)
    ensures
      u[e] == t[e].(estado := Blocked, rafaga := Ended(t[e].rafaga, now), joinTo := [k], joinedBy := u[e].joinedBy)
  {
  }

  lemma JoinedIs(h: Scheduling, g: Scheduling, e: Id, k: Id)
    requires h.threads.Keys >= {e, k} && g.threads.Keys == h.threads.Keys && g.sems == h.sems
    requires forall x | x in h.threads :: g.threads[x].joinedBy == h.threads[x].joinedBy + if x == k then [e] else []
    requires forall x | x in h.threads && x != e :: g.threads[x] == h.threads[x].(joinedBy := g.threads[x].joinedBy)
    requires g.threads[e].joinTo == [k] && g.threads[e].estado.Blocked?
    ensures Joined(h, g, e, k)
  {
  }

  // ----- semaphores -----

  /** The first semaphore of that name is number `j`, or there is none and `j` is -1. */
  ghost predicate SemIs(h: Scheduling, name: string, j: int)
  {
    if j == -1 then forall x | 0 <= x < |h.sems| :: h.sems[x].name != name
    else 0 <= j < |h.sems| && h.sems[j].name == name && forall x | 0 <= x < j :: h.sems[x].name != name
  }

  ghost predicate OneSem(h: Scheduling, g: Scheduling, j: int, s: Sem)
  {
    && 0 <= j < |h.sems| == |g.sems| && g.sems[j] == s
    && forall x | 0 <= x < |h.sems| && x != j :: g.sems[x] == h.sems[x]
  }

  /**
   A wait is answered 0 if a semaphore has the name, and takes one from its value. Above 0 that is all; at 0
   or below the thread is blocked, last in the semaphore's list and in the blocked queue, and its process
   executes nobody. An unknown name is answered -1 and changes nothing.
   */
  ghost predicate Waited(h: Scheduling, k: Id, name: string, now: real, g: Scheduling, r: int)
    requires k in h.threads
  {
    exists j, i :: SemIs(h, name, j) && At(h, k.pid, i) && i != -1 &&
      if j == -1 then r == -1 && g == h
      else
        var s := h.sems[j];
        && r == 0 && g.newQueue == h.newQueue && g.actual == h.actual && SameRest(h, g)
        && if s.value > 0 then
             && OneSem(h, g, j, s.(value := s.value - 1))
             && g.threads == h.threads && g.procs == h.procs && g.blockedQueue == h.blockedQueue
           else
             && OneSem(h, g, j, s.(value := s.value - 1, blocked := s.blocked + [k]))
             && g.threads == h.threads[k := h.threads[k].(estado := Blocked, rafaga := Ended(h.threads[k].rafaga, now))]
             && OneProcess(h, g, i, h.procs[i].(exec := Idle)) && g.blockedQueue == h.blockedQueue + [k]
  }

  lemma WaitEffect(h: Scheduling, k: Id, name: string, now: real)
    requires Known(h, k)
    ensures var r := Wait(h, k, name, now); Waited(h, k, name, now, r.0, r.1)
  {
    hide Proc;
    hide SemNamed;
    var j, i := SemNamed(h.sems, name), Proc(h.procs, k.pid);
    SemAt(h.sems, name);
    ProcAt(h.procs, k.pid);
    assert SemIs(h, name, j) && At(h, k.pid, i);
  }

  /**
   A signal is answered 0 if a semaphore has the name and is below its maximum, and adds one to its value;
   the first thread of its list, if any, leaves it and the blocked queue and is the last of the ready.
   Otherwise it is answered -1 and changes nothing.
   */
  ghost predicate Signalled(h: Scheduling, name: string, g: Scheduling, r: int)
  {
    exists j :: SemIs(h, name, j) &&
      if j == -1 || h.sems[j].value == h.sems[j].max then r == -1 && g == h
      else
        var s := h.sems[j];
        && r == 0 && g.newQueue == h.newQueue && g.actual == h.actual && SameRest(h, g)
        && if s.blocked == [] then
             && OneSem(h, g, j, s.(value := s.value + 1))
             && g.threads == h.threads && g.procs == h.procs && g.blockedQueue == h.blockedQueue
           else
             var k := s.blocked[0];
             && OneSem(h, g, j, s.(value := s.value + 1, blocked := s.blocked[1..]))
             && k in h.threads && g.threads == h.threads[k := h.threads[k].(estado := Ready)]
             && k in h.blockedQueue && g.blockedQueue == Remove(h.blockedQueue, k)
             && exists i :: At(h, k.pid, i) && i != -1 &&
                  var p := h.procs[i];
                  OneProcess(h, g, i, p.(ready := p.ready + [k], semaforoReady := p.semaforoReady + 1))
  }

  lemma SignalEffect(h: Scheduling, name: string)
    requires Inv(h)
    ensures Signalled(h, name, Signal(h, name).0, Signal(h, name).1)
  {
    hide Agree;
    hide Waits;
    hide Proc;
    hide SemNamed;
    hide Remove;
    var j := SemNamed(h.sems, name);
    SemAt(h.sems, name);
    assert SemIs(h, name, j);
    if j != -1 && h.sems[j].value != h.sems[j].max && h.sems[j].blocked != [] {
      var k := h.sems[j].blocked[0];
      HeldBlocked(h, j, k);
      AgreeKnown(h, k);
      ProcAt(h.procs, k.pid);
      assert At(h, k.pid, Proc(h.procs, k.pid));
      BlockedQueued(h, k);
    }
  }

  lemma BlockedQueued(h: Scheduling, k: Id)
    requires Agree(h) && k in h.threads && h.threads[k].estado.Blocked?
    ensures k in h.blockedQueue
  {
    assert Placed(h, k);
    assert multiset(h.blockedQueue)[k] > 0;
  }

  // ----- closing -----

  /** Who leaves through the new queue: a thread that was there, or that waits for itself and finds the system full. */
  predicate LeavesNew(h: Scheduling, u: Id)
    requires u in h.threads
  {
    h.threads[u].estado.New? || (h.threads[u].joinTo == [u] && h.actual + 1 > h.max)
  }

  /** The new queue before anyone is admitted: in a full system the joiners come last, in the order they joined. */
  function Queued(h: Scheduling, u: Id): (q: seq<Id>)
    requires u in h.threads
  {
    if h.actual + 1 > h.max then h.newQueue + h.threads[u].joinedBy else h.newQueue
  }

  /**
   A thread that closes goes to the end of the exit queue. If it leaves through the new queue that is all;
   otherwise its place goes to the head of the new queue, or is counted off when nobody is queued.
   */
  ghost predicate Closed(h: Scheduling, u: Id, g: Scheduling)
    requires u in h.threads
  {
    var q := Queued(h, u);
    && g.exitQueue == h.exitQueue + [u] && g.sems == h.sems && g.max == h.max && g.alpha == h.alpha
    && if LeavesNew(h, u) then g.newQueue == Remove(q, u) && g.actual == h.actual
       else if q == [] then g.newQueue == [] && g.actual == h.actual - 1
       else g.newQueue == q[1..] && g.actual == h.actual
  }

  lemma CloseEffect(h: Scheduling, u: Id)
    requires Inv(h) && Live(h, u)
    ensures Known(h, u) && Closed(h, u, Close(h, u))
  {
    hide Agree;
    hide Waits;
    hide Proc;
    hide Remove;
    hide Admit;
    hide ToExit;
    hide UnjoinAll;
    hide WaitsBut;
    hide Woken;
    CloseParts(h, u);
    WaitsOfAll(h, u);
    var l := h.threads[u].joinedBy;
    UnjoinAllKeeps(h, u, l);
    UnjoinAllExits(h, u, l);
    var h1 := UnjoinAll(h, u, l);
    WokenSelf(h, u, h1);
    if h.threads[u].estado.New? {
      NotJoined(h, u);
    }
    ToExitEffect(h1, u);
    ToExitQueues(h1, u);
    var h2 := ToExit(h1, u);
    if !h1.threads[u].estado.New? {
      AdmitEffect(h2);
    }
  }

  lemma {:induction false} UnjoinAllExits(h: Scheduling, u: Id, l: seq<Id>)
    ensures UnjoinAll(h, u, l).exitQueue == h.exitQueue
    decreases |l|
  {
    hide Proc;
    hide Remove;
    if l != [] && Known(h, l[0]) {
      UnjoinAllExits(Unjoin(h, u, l[0]), u, l[1..]);
    }
  }

  lemma ToExitQueues(h: Scheduling, u: Id)
    requires Known(h, u)
    ensures ToExit(h, u).exitQueue == h.exitQueue + [u]
  {
    hide Proc;
    hide Remove;
  }

  lemma AdmitEffect(h: Scheduling)
    requires Agree(h)
    ensures var g := Admit(h);
            && g.exitQueue == h.exitQueue && g.sems == h.sems && g.max == h.max && g.alpha == h.alpha
            && (if h.newQueue == [] then g == h
                else g.newQueue == h.newQueue[1..] && g.actual == h.actual + 1)
  {
    hide Agree;
    hide Proc;
    if h.newQueue != [] {
      HeadIsNew(h);
    }
  }

  /** The ready list of process `x` when `u` has closed: the joiners come last in it, then whoever is admitted. */
  function ReadyAfter(h: Scheduling, u: Id, x: nat): (l: seq<Id>)
    requires u in h.threads && x < |h.procs|
  {
    var woken := Woke(h, u, x);
    var left := if u in woken then Remove(woken, u) else woken;
    var q := Queued(h, u);
    left + if !LeavesNew(h, u) && q != [] && q[0].pid == h.procs[x].id then [q[0]] else []
  }

  /** Every process keeps its number; its ready list is as above, and it executes `u` no more. */
  ghost predicate Rearranged(h: Scheduling, u: Id, g: Scheduling)
    requires u in h.threads
  {
    |g.procs| == |h.procs| &&
    forall x: nat | x < |h.procs| ::
      && g.procs[x].id == h.procs[x].id && g.procs[x].ready == ReadyAfter(h, u, x)
      && g.procs[x].exec == (if h.procs[x].exec == Running(u) then Idle else h.procs[x].exec)
      && g.procs[x].ults == (if u in h.procs[x].ults then Remove(h.procs[x].ults, u) else h.procs[x].ults)
  }

  /** The joiners of a thread are of its process, and go to the end of its ready list unless the system is full. */
  lemma {:induction false} UnjoinAllReady(h: Scheduling, u: Id, l: seq<Id>)
    requires Agree(h) && Capped(h) && WaitsBut(h, u, l) && Live(h, u)
    ensures var g, i := UnjoinAll(h, u, l), Proc(h.procs, u.pid);
            && 0 <= i < |h.procs| == |g.procs|
            && (forall x: nat | x < |h.procs| && x != i :: g.procs[x] == h.procs[x])
            && g.procs[i] == h.procs[i].(ready := g.procs[i].ready, semaforoReady := g.procs[i].semaforoReady)
            && g.procs[i].ready == if Room(h) then h.procs[i].ready + l else h.procs[i].ready
    decreases |l|
  {
    hide Proc;
    hide Remove;
    hide Agree;
    hide WaitsBut;
    hide Unjoin;
    AgreeKnown(h, u);
    if l != [] {
      var j := l[0];
      UnjoinWaits(h, u, l);
      UnjoinEffect(h, u, j);
      UnjoinAgrees(h, u, j);
      TargetPid(h, u, l, j);
      var g := Unjoin(h, u, j);
      UnjoinReady(h, u, j);
      StillLive(h, g, u, j);
      UnjoinAllReady(g, u, l[1..]);
      SameProc(h.procs, g.procs, u.pid);
      assert l == [j] + l[1..];
    }
  }

  lemma TargetPid(h: Scheduling, u: Id, l: seq<Id>, j: Id)
    requires WaitsBut(h, u, l) && j in h.threads && h.threads[j].joinTo == [u]
    ensures j.pid == u.pid
  {
    assert OneTarget(h, j);
  }

  lemma UnjoinReady(h: Scheduling, u: Id, j: Id)
    requires Known(h, j) && h.threads[j].joinTo == [u] && h.threads[j].estado.Blocked? && j.pid == u.pid
    ensures var g, i := Unjoin(h, u, j), Proc(h.procs, u.pid); var p := h.procs[i];
            g.procs == if Room(h) then h.procs[i := p.(ready := p.ready + [j], semaforoReady := p.semaforoReady + 1)]
                       else h.procs
  {
    hide Proc;
    assert Remove([u], u) == [];
  }

  /** The lists of process `x` when the joiners are awake, and the thread still there. */
  function Woke(h: Scheduling, u: Id, x: nat): (l: seq<Id>)
    requires u in h.threads && x < |h.procs|
  {
    if h.actual + 1 > h.max || h.procs[x].id != u.pid then h.procs[x].ready
    else h.procs[x].ready + h.threads[u].joinedBy
  }

  ghost predicate Stirred(h: Scheduling, u: Id, h1: Scheduling)
    requires u in h.threads
  {
    |h1.procs| == |h.procs| && forall x: nat | x < |h.procs| ::
      && h1.procs[x].id == h.procs[x].id && h1.procs[x].ready == Woke(h, u, x)
      && h1.procs[x].exec == h.procs[x].exec && h1.procs[x].ults == h.procs[x].ults
  }

  ghost predicate Emptied(h1: Scheduling, u: Id, h2: Scheduling)
  {
    |h2.procs| == |h1.procs| && forall x: nat | x < |h1.procs| ::
      && h2.procs[x].id == h1.procs[x].id
      && h2.procs[x].ready == (if u in h1.procs[x].ready then Remove(h1.procs[x].ready, u) else h1.procs[x].ready)
      && h2.procs[x].exec == (if h1.procs[x].exec == Running(u) then Idle else h1.procs[x].exec)
      && h2.procs[x].ults == (if u in h1.procs[x].ults then Remove(h1.procs[x].ults, u) else h1.procs[x].ults)
  }

  ghost predicate Joining(h2: Scheduling, q: seq<Id>, g: Scheduling)
  {
    |g.procs| == |h2.procs| && forall x: nat | x < |h2.procs| ::
      && g.procs[x].id == h2.procs[x].id && g.procs[x].exec == h2.procs[x].exec && g.procs[x].ults == h2.procs[x].ults
      && g.procs[x].ready == h2.procs[x].ready + if q != [] && q[0].pid == h2.procs[x].id then [q[0]] else []
  }

  lemma StirredBy(h: Scheduling, u: Id)
    requires Inv(h) && Live(h, u)
    ensures Stirred(h, u, UnjoinAll(h, u, h.threads[u].joinedBy))
  {
    hide Agree;
    hide Waits;
    hide Proc;
    hide UnjoinAll;
    hide WaitsBut;
    WaitsOfAll(h, u);
    UnjoinAllReady(h, u, h.threads[u].joinedBy);
    AgreeKnown(h, u);
    OneOfEach(h, u.pid);
  }

  lemma OneOfEach(h: Scheduling, pid: int)
    requires Agree(h) && Proc(h.procs, pid) != -1
    ensures forall x: nat | x < |h.procs| :: h.procs[x].id == pid <==> x == Proc(h.procs, pid)
  {
    hide Proc;
    forall x: nat | x < |h.procs| ensures h.procs[x].id == pid <==> x == Proc(h.procs, pid) {
      ProcUnique(h.procs, x);
    }
  }

  lemma RearrangedBy(h: Scheduling, u: Id, h1: Scheduling, h2: Scheduling, g: Scheduling)
    requires u in h.threads && Stirred(h, u, h1) && Emptied(h1, u, h2)
    requires Joining(h2, if LeavesNew(h, u) then [] else Queued(h, u), g)
    ensures Rearranged(h, u, g)
  {
    hide LeavesNew;
    hide Queued;
    hide Remove;
  }

  lemma CloseRearranges(h: Scheduling, u: Id)
    requires Inv(h) && Live(h, u)
    ensures Known(h, u) && Rearranged(h, u, Close(h, u))
  {
    hide Agree;
    hide Waits;
    hide Proc;
    hide Remove;
    hide Admit;
    hide ToExit;
    hide UnjoinAll;
    hide WaitsBut;
    hide Woken;
    hide Stirred;
    hide Emptied;
    hide Joining;
    hide Rearranged;
    CloseParts(h, u);
    WaitsOfAll(h, u);
    var l := h.threads[u].joinedBy;
    UnjoinAllKeeps(h, u, l);
    var h1 := UnjoinAll(h, u, l);
    WokenSelf(h, u, h1);
    if h.threads[u].estado.New? {
      NotJoined(h, u);
    }
    StirredBy(h, u);
    ToExitProcs(h1, u);
    var h2 := ToExit(h1, u);
    if h1.threads[u].estado.New? {
      NobodyJoins(h2);
      RearrangedBy(h, u, h1, h2, h2);
    } else {
      AdmitProcs(h2);
      RearrangedBy(h, u, h1, h2, Admit(h2));
    }
  }

  lemma NobodyJoins(h: Scheduling)
    ensures Joining(h, [], h)
  {
  }

  /** A thread that exits is taken from every list of its process. */
  lemma ToExitProcs(h: Scheduling, u: Id)
    requires Agree(h) && Live(h, u)
    ensures Known(h, u)
    ensures Emptied(h, u, ToExit(h, u))
  {
    hide Agree;
    hide Proc;
    hide Remove;
    AgreeKnown(h, u);
    OnlyThere(h, u);
  }

  /** A live thread is in the lists of its own process only. */
  lemma OnlyThere(h: Scheduling, u: Id)
    requires Agree(h) && Live(h, u)
    ensures var i := Proc(h.procs, u.pid); 0 <= i < |h.procs| && var p := h.procs[i];
            && (u in p.ready <==> h.threads[u].estado.Ready?) && u in p.ults
            && (p.exec == Running(u) <==> h.threads[u].estado.Execute?)
            && forall x: nat | x < |h.procs| && x != i ::
                 u !in h.procs[x].ready && u !in h.procs[x].ults && h.procs[x].exec != Running(u)
  {
    hide Proc;
    assert Placed(h, u);
    var i := Proc(h.procs, u.pid);
    forall x: nat | x < |h.procs| && x != i
      ensures u !in h.procs[x].ready && u !in h.procs[x].ults && h.procs[x].exec != Running(u)
    {
      assert Owns(h, h.procs[x]);
      ProcUnique(h.procs, x);
    }
  }

  lemma AdmitProcs(h: Scheduling)
    requires Agree(h)
    ensures Joining(h, h.newQueue, Admit(h))
  {
    hide Proc;
    hide Agree;
    hide Admit;
    if h.newQueue == [] {
      AdmitEffect(h);
    } else {
      HeadIsNew(h);
      OneOfEach(h, h.newQueue[0].pid);
      AdmittedHead(h);
    }
  }

  lemma HeadIsNew(h: Scheduling)
    requires Agree(h) && h.newQueue != []
    ensures Known(h, h.newQueue[0]) && h.threads[h.newQueue[0]].estado.New?
  {
    hide Proc;
    PlacedAt(h, h.newQueue[0]);
    AgreeKnown(h, h.newQueue[0]);
  }

  lemma AdmittedHead(h: Scheduling)
    requires h.newQueue != [] && Known(h, h.newQueue[0]) && h.threads[h.newQueue[0]].estado.New?
    ensures var k := h.newQueue[0]; var i := Proc(h.procs, k.pid); var p := h.procs[i];
            Admit(h).procs == h.procs[i := p.(ready := p.ready + [k], semaforoReady := p.semaforoReady + 1)]
  {
    hide Proc;
    hide Remove;
  }

  // ----- dispatching -----

  /** The process executes `u`; its other threads are ready, and no queue, semaphore, process or list of joins moves. */
  ghost predicate Dispatched(h: Scheduling, pid: int, g: Scheduling, u: Id)
  {
    exists i :: At(h, pid, i) && i != -1 && |g.procs| == |h.procs|
      && OneProcess(h, g, i, h.procs[i].(ready := g.procs[i].ready, exec := Running(u),
                                         semaforoReady := g.procs[i].semaforoReady))
      && g.newQueue == h.newQueue && g.blockedQueue == h.blockedQueue && g.actual == h.actual
      && g.sems == h.sems && SameRest(h, g) && g.threads.Keys == h.threads.Keys
  }

  lemma NextEffect(h: Scheduling, pid: int, now: real)
    requires Inv(h) && CanNext(h, pid)
    ensures Dispatched(h, pid, Next(h, pid, now).0, Next(h, pid, now).1)
  {
    hide Agree;
    hide Waits;
    hide Proc;
    hide EstimateAll;
    hide Sorted;
    var i := Proc(h.procs, pid);
    ProcAt(h.procs, pid);
    assert At(h, pid, i);
    ReadyOnes(h, pid, now);
    var g1 := PutBack(h, pid, now);
    BackProcs(h, pid, now);
    var g2 := Ranked(g1, i, pid);
    var u := g2.procs[i].ready[0];
    SameProc(h.procs, g2.procs, pid);
    assert u in multiset(g2.procs[i].ready) && u in multiset(g1.procs[i].ready);
    EstimateAllAt(g1.threads, g1.procs[i].ready, h.alpha, u);
    StartProcs(g2, i, u, now);
  }

  lemma BackProcs(h: Scheduling, pid: int, now: real)
    requires CanNext(h, pid)
    ensures var g, i := PutBack(h, pid, now), Proc(h.procs, pid);
            && |g.procs| == |h.procs| && (forall x | 0 <= x < |h.procs| && x != i :: g.procs[x] == h.procs[x])
            && g.procs[i] == h.procs[i].(ready := g.procs[i].ready, exec := Idle,
                                         semaforoReady := g.procs[i].semaforoReady)
            && g.newQueue == h.newQueue && g.blockedQueue == h.blockedQueue && g.actual == h.actual
            && g.sems == h.sems && SameRest(h, g) && g.threads.Keys == h.threads.Keys
            && forall x | 0 <= x < |h.procs| :: g.procs[x].id == h.procs[x].id
  {
    hide Proc;
  }

  /** Whoever is ready after the executing thread is put back is marked so. */
  lemma ReadyOnes(h: Scheduling, pid: int, now: real)
    requires Agree(h) && CanNext(h, pid)
    ensures var g, i := PutBack(h, pid, now), Proc(h.procs, pid);
            forall k | k in g.procs[i].ready :: k in g.threads && k.pid == pid && g.threads[k].estado.Ready?
  {
    var g, i := PutBack(h, pid, now), Proc(h.procs, pid);
    forall k | k in g.procs[i].ready ensures k in g.threads && k.pid == pid && g.threads[k].estado.Ready? {
      if k in h.procs[i].ready {
        assert Placed(h, k);
      }
    }
  }

  lemma StartProcs(h: Scheduling, i: nat, u: Id, now: real)
    requires i < |h.procs| && u in h.threads && Proc(h.procs, u.pid) == i && h.threads[u].estado.Ready?
    ensures var g := ReadyToExecute(h, u, now);
            && OneProcess(h, g, i, h.procs[i].(ready := g.procs[i].ready, exec := Running(u)))
            && g.newQueue == h.newQueue && g.blockedQueue == h.blockedQueue && g.actual == h.actual
            && g.sems == h.sems && SameRest(h, g) && g.threads.Keys == h.threads.Keys
  {
    hide Proc;
    hide Remove;
  }
}
