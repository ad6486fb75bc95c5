/** Whole runs of the scheduler: what every sequence of client requests keeps, and what it adds up to. */
module Runs {
  import opened Scheduler
  import opened Agreement
  import opened Joins

  datatype Request =
    Spawn(k: Id) | Schedule(pid: int) | JoinOn(k: Id) | End(u: Id) | WaitOn(k: Id, name: string) | Post(name: string)

  /** What the library asks of its callers, and the two cases the code does not survive. */
  ghost predicate Allowed(h: Scheduling, e: Request)
  {
    match e
    case Spawn(k) => !Live(h, k)
    case Schedule(pid) => CanNext(h, pid)
    case JoinOn(k) => Proc(h.procs, k.pid) != -1
    case End(u) => Live(h, u) && u.tid != 0 && (h.threads[u].estado.Blocked? ==> h.threads[u].joinTo == [u])
    case WaitOn(k, name) => Live(h, k) &&
      var j := SemNamed(h.sems, name); j == -1 || h.sems[j].value > 0 || h.threads[k].estado.Execute?
    case Post(name) => true
  }

  function Step(h: Scheduling, e: Request, now: real): (g: Scheduling)
    requires Inv(h) && Allowed(h, e)
  {
    match e
    case Spawn(k) => Create(h, k, now)
    case Schedule(pid) => Next(h, pid, now).0
    case JoinOn(k) => JoinThread(h, k, now)
    case End(u) => CloseKeeps(h, u); Close(h, u)
    case WaitOn(k, name) => WaitKeeps(h, k, name, now); Wait(h, k, name, now).0
    case Post(name) => Signal(h, name).0
  }

  lemma StepKeeps(h: Scheduling, e: Request, now: real)
    requires Inv(h) && Allowed(h, e)
    ensures Inv(Step(h, e, now))
  {
    hide Inv;
    match e
    case Spawn(k) => CreateKeeps(h, k, now);
    case Schedule(pid) => NextKeeps(h, pid, now);
    case JoinOn(k) => JoinKeeps(h, k, now);
    case End(u) => CloseKeeps(h, u);
    case WaitOn(k, name) => WaitKeeps(h, k, name, now);
    case Post(name) => SignalKeeps(h, name);
  }

  /** Every request comes when it is allowed. */
  ghost predicate Legal(h: Scheduling, es: seq<(Request, real)>)
    requires Inv(h)
    decreases |es|
  {
    es == [] || (Allowed(h, es[0].0)
      && (StepKeeps(h, es[0].0, es[0].1); Legal(Step(h, es[0].0, es[0].1), es[1..])))
  }

  function Run(h: Scheduling, es: seq<(Request, real)>): (g: Scheduling)
    requires Inv(h) && Legal(h, es)
    decreases |es|
  {
    if es == [] then h
    else
      StepKeeps(h, es[0].0, es[0].1);
      Run(Step(h, es[0].0, es[0].1), es[1..])
  }

  lemma {:induction false} RunKeeps(h: Scheduling, es: seq<(Request, real)>)
    requires Inv(h) && Legal(h, es)
    ensures Inv(Run(h, es))
    decreases |es|
  {
    if es != [] {
      StepKeeps(h, es[0].0, es[0].1);
      RunKeeps(Step(h, es[0].0, es[0].1), es[1..]);
    }
  }

  /** The server as it starts: nothing but its configuration. */
  ghost predicate Initial(h: Scheduling)
  {
    && h.threads == map[] && h.procs == [] && h.newQueue == [] && h.blockedQueue == [] && h.exitQueue == []
    && h.actual == 0 <= h.max
    && forall j | 0 <= j < |h.sems| :: 0 <= h.sems[j].value <= h.sems[j].max && h.sems[j].blocked == []
  }

  lemma InitialSound(h: Scheduling)
    requires Initial(h)
    ensures Inv(h)
  {
  }

  // ----- admission -----

  function BusyIds(ps: seq<Process>): (l: seq<Id>)
    ensures |l| == Busy(ps)
  {
    if ps == [] then []
    else
      var p := ps[|ps| - 1];
      p.ready + (if p.exec.Running? then [p.exec.k] else []) + BusyIds(ps[..|ps| - 1])
  }

  lemma {:induction false} BusyHas(ps: seq<Process>, i: nat, k: Id)
    requires i < |ps| && (k in ps[i].ready || ps[i].exec == Running(k))
    ensures k in BusyIds(ps)
  {
    if i < |ps| - 1 {
      BusyHas(ps[..|ps| - 1], i, k);
    }
  }

  lemma {:induction false} Elements(l: seq<Id>)
    ensures |set k | k in l| <= |l|
  {
    if l != [] {
      Elements(l[1..]);
      assert l == [l[0]] + l[1..];
      assert (set k | k in l) == {l[0]} + set k | k in l[1..];
    }
  }

  function Admitted(h: Scheduling): (s: set<Id>)
  {
    set k | k in h.threads
            && (h.threads[k].estado.Ready? || h.threads[k].estado.Execute? || h.threads[k].estado.Blocked?)
  }

  /** Threads that are ready, executing or blocked never outnumber the counter, nor the counter the cap. */
  lemma CapHolds(h: Scheduling)
    requires Inv(h)
    ensures |Admitted(h)| <= h.actual <= h.max
  {
    var l := BusyIds(h.procs) + h.blockedQueue;
    Elements(l);
    forall k | k in Admitted(h) ensures k in l {
      assert Placed(h, k);
      var i := Proc(h.procs, k.pid);
      if h.threads[k].estado.Blocked? {
        assert k in h.blockedQueue;
      } else {
        BusyHas(h.procs, i, k);
      }
    }
    SubsetSize(Admitted(h), set k | k in l);
  }

  lemma {:induction false} SubsetSize(a: set<Id>, b: set<Id>)
    requires a <= b
    ensures |a| <= |b|
  {
    if a != {} {
      var x :| x in a;
      SubsetSize(a - {x}, b - {x});
    }
  }

  // ----- semaphores over a run -----

  /** A thread blocked before and not after. */
  ghost predicate Woke(h: Scheduling, g: Scheduling, k: Id)
  {
    k in h.threads && k in g.threads && h.threads[k].estado.Blocked? && !g.threads[k].estado.Blocked?
  }

  /** What a client of semaphore `name` can count: waits on a name that is known, signals below the maximum. */
  function Taken(h: Scheduling, e: Request, name: string): (n: nat)
  {
    One(e.WaitOn? && e.name == name && exists j | 0 <= j < |h.sems| :: h.sems[j].name == name)
  }

  function Given(h: Scheduling, e: Request, name: string): (n: nat)
  {
    One(e.Post? && e.name == name && var j := SemNamed(h.sems, name); j != -1 && h.sems[j].value != h.sems[j].max)
  }

  /** And what it can see: who a wait puts to sleep, who a signal wakes. */
  ghost function Slept(h: Scheduling, g: Scheduling, e: Request, name: string): (l: seq<Id>)
  {
    if e.WaitOn? && e.name == name && Woke(g, h, e.k) then [e.k] else []
  }

  ghost function Woken(h: Scheduling, g: Scheduling, e: Request, name: string): (l: seq<Id>)
  {
    if e.Post? && e.name == name && exists k :: Woke(h, g, k) then
      var k :| Woke(h, g, k); [k]
    else []
  }

  lemma OthersKeepSems(h: Scheduling, e: Request, now: real)
    requires Inv(h) && Allowed(h, e) && !e.WaitOn? && !e.Post?
    ensures Step(h, e, now).sems == h.sems
  {
    hide Inv;
    hide Create;
    hide Next;
    hide JoinThread;
    hide Close;
    match e
    case Spawn(k) => CreateSems(h, k, now);
    case Schedule(pid) => NextSems(h, pid, now);
    case JoinOn(k) => JoinSems(h, k, now);
    case End(u) => CloseSems(h, u);
  }

  lemma CreateSems(h: Scheduling, k: Id, now: real)
    ensures Create(h, k, now).sems == h.sems
  {
    hide Proc;
  }

  lemma NextSems(h: Scheduling, pid: int, now: real)
    requires Inv(h) && CanNext(h, pid)
    ensures Next(h, pid, now).0.sems == h.sems
  {
    hide Proc;
    hide Inv;
    hide CanNext;
    hide EstimateAll;
    hide Sorted;
  }

  lemma JoinSems(h: Scheduling, k: Id, now: real)
    requires Proc(h.procs, k.pid) != -1
    ensures JoinThread(h, k, now).sems == h.sems
  {
    hide Proc;
  }

  lemma CloseSems(h: Scheduling, u: Id)
    requires Inv(h) && Live(h, u) && (h.threads[u].estado.Blocked? ==> h.threads[u].joinTo == [u])
    ensures Known(h, u) && Close(h, u).sems == h.sems
  {
    hide Agree;
    hide Waits;
    hide Admit;
    hide ToExit;
    hide UnjoinAll;
    CloseParts(h, u);
    var h1 := UnjoinAll(h, u, h.threads[u].joinedBy);
    if !h1.threads[u].estado.New? {
      AdmitSems(ToExit(h1, u));
    }
  }

  lemma AdmitSems(h: Scheduling)
    ensures Admit(h).sems == h.sems && Admit(h).alpha == h.alpha
  {
  }

  lemma {:induction false} Named(ss: seq<Sem>, j: nat, s: Sem, name: string)
    requires j < |ss| && s.name == ss[j].name
    ensures SemNamed(ss[j := s], name) == SemNamed(ss, name)
  {
    if j > 0 {
      assert ss[j := s][1..] == ss[1..][j - 1 := s];
      Named(ss[1..], j - 1, s, name);
    } else {
      assert ss[j := s][1..] == ss[1..];
    }
  }

  /** One step's share of the account. */
  ghost predicate Settles(h: Scheduling, g: Scheduling, e: Request, name: string)
    requires Inv(h) && Allowed(h, e)
  {
    var j := SemNamed(h.sems, name);
    && SemNamed(g.sems, name) == j
    && (j != -1 ==> g.sems[j].value == h.sems[j].value - Taken(h, e, name) + Given(h, e, name))
    && (j != -1 ==> h.sems[j].blocked + Slept(h, g, e, name) == Woken(h, g, e, name) + g.sems[j].blocked)
  }

  lemma StepSettles(h: Scheduling, e: Request, now: real, name: string)
    requires Inv(h) && Allowed(h, e)
    ensures Settles(h, Step(h, e, now), e, name)
  {
    hide Inv;
    hide Step;
    hide Allowed;
    match e
    case WaitOn(k, other) => WaitSettles(h, k, other, now, name);
    case Post(other) => PostSettles(h, other, now, name);
    case _ => OthersKeepSems(h, e, now);
  }

  lemma WaitCounts(h: Scheduling, k: Id, name: string, now: real)
    requires Known(h, k)
    ensures var g, j := Wait(h, k, name, now).0, SemNamed(h.sems, name);
            && g.threads.Keys == h.threads.Keys
            && if j == -1 then g.sems == h.sems && g.threads == h.threads
               else
                 var s := h.sems[j];
                 if s.value > 0 then g.sems == h.sems[j := s.(value := s.value - 1)] && g.threads == h.threads
                 else g.sems == h.sems[j := s.(value := s.value - 1, blocked := s.blocked + [k])]
                      && g.threads[k].estado.Blocked?
  {
    hide Proc;
    hide SemNamed;
  }

  lemma WaitSettles(h: Scheduling, k: Id, other: string, now: real, name: string)
    requires Inv(h) && Allowed(h, WaitOn(k, other))
    ensures Settles(h, Step(h, WaitOn(k, other), now), WaitOn(k, other), name)
  {
    hide Agree;
    hide Waits;
    hide Wait;
    hide SemNamed;
    WaitKeeps(h, k, other, now);
    WaitCounts(h, k, other, now);
    var i, j := SemNamed(h.sems, other), SemNamed(h.sems, name);
    var g := Step(h, WaitOn(k, other), now);
    if i != -1 {
      Named(h.sems, i, g.sems[i], name);
    }
  }

  lemma SignalWakes(h: Scheduling, j: nat, name: string)
    requires Inv(h) && j == SemNamed(h.sems, name) && h.sems[j].value != h.sems[j].max && h.sems[j].blocked != []
    ensures var k := h.sems[j].blocked[0];
            && k in h.threads && h.threads[k].estado.Blocked?
            && Signal(h, name).0.threads == h.threads[k := h.threads[k].(estado := Ready)]
  {
    hide Agree;
    hide Waits;
    hide Proc;
    hide Remove;
    HeldBlocked(h, j, h.sems[j].blocked[0]);
    AgreeKnown(h, h.sems[j].blocked[0]);
  }

  lemma SignalCounts(h: Scheduling, j: nat, name: string)
    requires Inv(h) && j == SemNamed(h.sems, name)
    ensures var r, s := Signal(h, name), h.sems[j];
            if s.value == s.max then r == (h, -1)
            else
              var rest := if s.blocked == [] then [] else s.blocked[1..];
              r.1 == 0 && r.0.sems == h.sems[j := s.(value := s.value + 1, blocked := rest)]
  {
    hide Agree;
    hide Waits;
    hide Proc;
    hide Remove;
    if h.sems[j].blocked != [] {
      HeldBlocked(h, j, h.sems[j].blocked[0]);
      AgreeKnown(h, h.sems[j].blocked[0]);
    }
  }

  lemma PostSettles(h: Scheduling, other: string, now: real, name: string)
    requires Inv(h)
    ensures Settles(h, Step(h, Post(other), now), Post(other), name)
  {
    hide Inv;
    hide SemNamed;
    var i, j := SemNamed(h.sems, other), SemNamed(h.sems, name);
    var g := Step(h, Post(other), now);
    if i != -1 {
      SignalCounts(h, i, other);
      if h.sems[i].value != h.sems[i].max {
        hide Signal;
        Named(h.sems, i, g.sems[i], name);
        if h.sems[i].blocked != [] {
          SignalWakes(h, i, other);
          var k := h.sems[i].blocked[0];
          assert Woke(h, g, k);
          assert forall x :: Woke(h, g, x) ==> x == k;
        } else {
          SignalSleeps(h, i, other);
        }
      }
    }
  }

  lemma SignalSleeps(h: Scheduling, j: nat, name: string)
    requires Inv(h) && j == SemNamed(h.sems, name) && h.sems[j].blocked == []
    ensures Signal(h, name).0.threads == h.threads
  {
    hide Inv;
  }

  function TakenIn(h: Scheduling, es: seq<(Request, real)>, name: string): (n: nat)
    requires Inv(h) && Legal(h, es)
    decreases |es|
  {
    if es == [] then 0
    else
      StepKeeps(h, es[0].0, es[0].1);
      Taken(h, es[0].0, name) + TakenIn(Step(h, es[0].0, es[0].1), es[1..], name)
  }

  function GivenIn(h: Scheduling, es: seq<(Request, real)>, name: string): (n: nat)
    requires Inv(h) && Legal(h, es)
    decreases |es|
  {
    if es == [] then 0
    else
      StepKeeps(h, es[0].0, es[0].1);
      Given(h, es[0].0, name) + GivenIn(Step(h, es[0].0, es[0].1), es[1..], name)
  }

  ghost function SleptIn(h: Scheduling, es: seq<(Request, real)>, name: string): (l: seq<Id>)
    requires Inv(h) && Legal(h, es)
    decreases |es|
  {
    if es == [] then []
    else
      StepKeeps(h, es[0].0, es[0].1);
      var g := Step(h, es[0].0, es[0].1);
      Slept(h, g, es[0].0, name) + SleptIn(g, es[1..], name)
  }

  ghost function WokenIn(h: Scheduling, es: seq<(Request, real)>, name: string): (l: seq<Id>)
    requires Inv(h) && Legal(h, es)
    decreases |es|
  {
    if es == [] then []
    else
      StepKeeps(h, es[0].0, es[0].1);
      var g := Step(h, es[0].0, es[0].1);
      Woken(h, g, es[0].0, name) + WokenIn(g, es[1..], name)
  }

  /**
   Over every run a semaphore's value is what it was, less the waits on it, plus the signals that found
   it below its maximum; and threads wake from it in the order in which they fell asleep on it.
   */
  lemma {:induction false} RunSettles(h: Scheduling, es: seq<(Request, real)>, name: string)
    requires Inv(h) && Legal(h, es) && SemNamed(h.sems, name) != -1
    ensures var g, j := Run(h, es), SemNamed(h.sems, name);
            && SemNamed(g.sems, name) == j
            && g.sems[j].value == h.sems[j].value - TakenIn(h, es, name) + GivenIn(h, es, name)
            && h.sems[j].blocked + SleptIn(h, es, name) == WokenIn(h, es, name) + g.sems[j].blocked
    decreases |es|
  {
    hide Inv;
    hide Allowed;
    hide Step;
    hide Taken;
    hide Given;
    hide Slept;
    hide Woken;
    hide SemNamed;
    if es != [] {
      var e, now := es[0].0, es[0].1;
      StepKeeps(h, e, now);
      StepSettles(h, e, now, name);
      var g := Step(h, e, now);
      RunSettles(g, es[1..], name);
      var j := SemNamed(h.sems, name);
      Chained(h.sems[j].blocked, Slept(h, g, e, name), Woken(h, g, e, name), g.sems[j].blocked,
              SleptIn(g, es[1..], name), WokenIn(g, es[1..], name), Run(h, es).sems[j].blocked);
    }
  }

  lemma Chained(b0: seq<Id>, s1: seq<Id>, w1: seq<Id>, b1: seq<Id>, s2: seq<Id>, w2: seq<Id>, b2: seq<Id>)
    requires b0 + s1 == w1 + b1 && b1 + s2 == w2 + b2
    ensures b0 + (s1 + s2) == (w1 + w2) + b2
  {
    assert b0 + (s1 + s2) == (b0 + s1) + s2;
    assert (w1 + b1) + s2 == w1 + (b1 + s2);
  }
}
