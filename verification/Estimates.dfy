/**
 Over every run, an estimate is the exponentially weighted sum of the bursts a client could have timed
 with a stopwatch outside the server: each burst once, the latest weighing most.
 */
module Estimates {
  import opened Scheduler
  import opened Agreement
  import opened Joins
  import opened Runs
  import opened Bursts

  function Weighted(alpha: real, b: seq<real>): (w: real)
  {
    if b == [] then 0.0 else alpha * b[|b| - 1] + (1.0 - alpha) * Weighted(alpha, b[..|b| - 1])
  }

  lemma WeightedNone(alpha: real)
    ensures Weighted(alpha, []) == 0.0
  {
  }

  lemma WeightedAppend(alpha: real, b: seq<real>, x: real)
    ensures Weighted(alpha, b + [x]) == alpha * x + (1.0 - alpha) * Weighted(alpha, b)
  {
    assert (b + [x])[..|b|] == b;
  }

  lemma Mixed(a: real, c: real, x: real, y: real, m: real)
    requires 0.0 <= a && 0.0 <= c && a + c == 1.0 && 0.0 <= x <= m && 0.0 <= y <= m
    ensures 0.0 <= a * x + c * y <= m
  {
    Scaled(a, x, m);
    Scaled(c, y, m);
    Spread(a, c, m);
    AddUp(a * x, c * y, a * m, c * m);
  }

  lemma AddUp(p: real, q: real, r: real, s: real)
    requires 0.0 <= p <= r && 0.0 <= q <= s
    ensures 0.0 <= p + q <= r + s
  {
  }

  lemma Spread(a: real, c: real, m: real)
    requires a + c == 1.0
    ensures a * m + c * m == m
  {
    assert a * m + c * m == (a + c) * m;
  }

  lemma Scaled(a: real, x: real, m: real)
    requires 0.0 <= a && 0.0 <= x <= m
    ensures 0.0 <= a * x <= a * m
  {
  }

  ghost predicate Within(b: seq<real>, m: real)
  {
    forall i | 0 <= i < |b| :: 0.0 <= b[i] <= m
  }

  /** An estimate lies between 0 and the longest burst. */
  lemma {:induction false} WeightedWithin(alpha: real, b: seq<real>, m: real)
    requires 0.0 <= alpha <= 1.0 && 0.0 <= m && Within(b, m)
    ensures 0.0 <= Weighted(alpha, b) <= m
  {
    if b != [] {
      WeightedWithin(alpha, b[..|b| - 1], m);
      Mixed(alpha, 1.0 - alpha, b[|b| - 1], Weighted(alpha, b[..|b| - 1]), m);
    }
  }

  // ----- a stopwatch outside the server -----

  /** When a thread was last dispatched, and how long each of its finished bursts took. */
  datatype Record = Record(start: real, bursts: seq<real>)

  ghost predicate Executing(h: Scheduling, k: Id)
  {
    k in h.threads && h.threads[k].estado.Execute?
  }

  /** A burst ends when its thread stops executing, or is put back to be chosen again. */
  ghost predicate Ends(h: Scheduling, g: Scheduling, e: Request, k: Id)
  {
    Executing(h, k) && ((e.Schedule? && e.pid == k.pid) || !Executing(g, k))
  }

  ghost function Timed(h: Scheduling, g: Scheduling, e: Request, now: real, k: Id, r: Record): (s: Record)
  {
    var ended := if Ends(h, g, e, k) then r.(bursts := r.bursts + [now - r.start]) else r;
    if Executing(g, k) && (Ends(h, g, e, k) || !Executing(h, k)) then ended.(start := now) else ended
  }

  /** A thread that is created now has no notes, whoever had its number before. */
  ghost function Recorded(l: map<Id, Record>, e: Request, k: Id): (r: Record)
  {
    if e != Spawn(k) && k in l then l[k] else Record(0.0, [])
  }

  /** The stopwatch's notes after a step, for the threads that are left. */
  ghost function Observe(l: map<Id, Record>, h: Scheduling, g: Scheduling, e: Request, now: real): (m: map<Id, Record>)
  {
    map k | k in g.threads :: Timed(h, g, e, now, k, Recorded(l, e, k))
  }

  /**
   The thread's fields against the notes, at time `t`: while executing, the start of the burst and
   an estimate with every burst in it; after, the last burst, whole, and not in the estimate until
   it is folded, once.
   */
  ghost predicate Fair(th: Thread, alpha: real, r: Record, t: real)
  {
    && (forall i | 0 <= i < |r.bursts| :: 0.0 <= r.bursts[i])
    && if th.estado.Execute? then
         th.ejecutado && th.rafaga == r.start && 0.0 < r.start <= t && th.estimacion == Weighted(alpha, r.bursts)
       else if th.ejecutado then
         var n := |r.bursts|;
         n > 0 && th.rafaga == r.bursts[n - 1] && th.estimacion == Weighted(alpha, r.bursts[..n - 1])
       else th.estimacion == Weighted(alpha, r.bursts)
  }

  ghost predicate AllFair(h: Scheduling, l: map<Id, Record>, t: real)
  {
    forall k | Live(h, k) :: k in l && Fair(h.threads[k], h.alpha, l[k], t)
  }

  /** A burst under way is stopped: the duration replaces the start. */
  lemma Stopped(th: Thread, alpha: real, r: Record, t: real, now: real, e: Estado)
    requires Fair(th, alpha, r, t) && th.estado.Execute? && t <= now && !e.Execute?
    ensures Fair(th.(estado := e, rafaga := now - th.rafaga), alpha, r.(bursts := r.bursts + [now - r.start]), now)
  {
    assert (r.bursts + [now - r.start])[..|r.bursts|] == r.bursts;
  }

  /** A finished burst enters the estimate. */
  lemma Folded(th: Thread, alpha: real, r: Record, t: real)
    requires Fair(th, alpha, r, t) && !th.estado.Execute?
    ensures Fair(Estimated(th, alpha), alpha, r, t) && !Estimated(th, alpha).ejecutado
  {
    if th.ejecutado {
      var n := |r.bursts|;
      WeightedAppend(alpha, r.bursts[..n - 1], r.bursts[n - 1]);
      assert r.bursts == r.bursts[..n - 1] + [r.bursts[n - 1]];
    }
  }

  lemma Started(th: Thread, alpha: real, r: Record, t: real, now: real)
    requires Fair(th, alpha, r, t) && !th.estado.Execute? && !th.ejecutado && 0.0 < now
    ensures Fair(th.(estado := Execute, ejecutado := true, rafaga := now), alpha, r.(start := now), now)
  {
  }

  /** The thread's burst fields are as before, and it executes no more and no less. */
  ghost predicate Untouched(th: Thread, r: Thread)
  {
    && r.rafaga == th.rafaga && r.ejecutado == th.ejecutado
    && r.estimacion == th.estimacion && r.estado.Execute? == th.estado.Execute?
  }

  // ----- step by step -----

  /** What one request does to one thread's burst. */
  ghost predicate FairStep(h: Scheduling, g: Scheduling, e: Request, now: real, k: Id)
    requires k in g.threads
  {
    var u := g.threads[k];
    if !Live(h, k) then
      u == Thread(u.estado, if u.estado.Execute? then now else 0.0, u.estado.Execute?, 0.0, u.joinTo, u.joinedBy)
    else
      var th := h.threads[k];
      if Ends(h, g, e, k) then
        var stopped := th.(estado := Ready, rafaga := if th.rafaga > 0.0 then now - th.rafaga else th.rafaga);
        if e.Schedule? then
          var folded := Estimated(stopped, h.alpha);
          if u.estado.Execute? then Untouched(folded.(estado := Execute, ejecutado := true, rafaga := now), u)
          else Untouched(folded, u)
        else Untouched(stopped, u)
      else if th.estado.Execute? || !u.estado.Execute? then
        Untouched(th, u) || (!u.estado.Execute? && Untouched(Estimated(th, h.alpha), u))
      else Untouched(Estimated(th, h.alpha).(estado := Execute, ejecutado := true, rafaga := now), u)
  }

  lemma FairStepKeeps(h: Scheduling, g: Scheduling, e: Request, now: real, k: Id, l: map<Id, Record>, t: real)
    requires AllFair(h, l, t) && Live(g, k) && (Live(h, k) <==> e != Spawn(k)) && g.alpha == h.alpha
    requires FairStep(h, g, e, now, k) && 0.0 < now && t <= now
    ensures Fair(g.threads[k], g.alpha, Timed(h, g, e, now, k, Recorded(l, e, k)), now)
  {
    hide Weighted;
    if Live(h, k) {
      var th, r := h.threads[k], l[k];
      assert Fair(th, h.alpha, r, t);
      if Ends(h, g, e, k) {
        Stopped(th, h.alpha, r, t, now, Ready);
        var stopped := th.(estado := Ready, rafaga := now - th.rafaga);
        var r1 := r.(bursts := r.bursts + [now - r.start]);
        Folded(stopped, h.alpha, r1, now);
        Started(Estimated(stopped, h.alpha), h.alpha, r1, now, now);
      } else if !th.estado.Execute? {
        Folded(th, h.alpha, r, t);
        Started(Estimated(th, h.alpha), h.alpha, r, t, now);
      }
    } else {
      WeightedNone(h.alpha);
    }
  }

  /** A thread's start of burst is a moment, not 0. */
  ghost predicate Dated(h: Scheduling, k: Id)
  {
    Executing(h, k) ==> h.threads[k].rafaga > 0.0
  }

  /** Everything but the burst of `k` is somebody else's business. */
  ghost predicate Kept(h: Scheduling, g: Scheduling, e: Request, now: real, k: Id)
  {
    g.alpha == h.alpha && (Live(g, k) ==> (Live(h, k) <==> e != Spawn(k)) && FairStep(h, g, e, now, k))
  }

  lemma SpawnFair(h: Scheduling, x: Id, now: real, k: Id)
    requires Inv(h) && !Live(h, x)
    ensures Kept(h, Create(h, x, now), Spawn(x), now, k)
  {
    hide Proc;
    hide Inv;
  }

  lemma JoinFair(h: Scheduling, x: Id, now: real, k: Id)
    requires Inv(h) && Proc(h.procs, x.pid) != -1 && Dated(h, k)
    ensures Kept(h, JoinThread(h, x, now), JoinOn(x), now, k)
  {
    hide Agree;
    hide Waits;
    hide Proc;
    var i := Proc(h.procs, x.pid);
    if h.procs[i].exec.Running? {
      ExecutingOf(h, i);
    }
  }

  lemma WaitFair(h: Scheduling, x: Id, name: string, now: real, k: Id)
    requires Inv(h) && Allowed(h, WaitOn(x, name)) && Dated(h, k)
    ensures Known(h, x) && Kept(h, Wait(h, x, name, now).0, WaitOn(x, name), now, k)
  {
    hide Agree;
    hide Waits;
    hide Proc;
    AgreeKnown(h, x);
  }

  lemma PostFair(h: Scheduling, name: string, now: real, k: Id)
    requires Inv(h)
    ensures Kept(h, Signal(h, name).0, Post(name), now, k)
  {
    hide Agree;
    hide Waits;
    hide Proc;
    var j := SemNamed(h.sems, name);
    if j != -1 && h.sems[j].value != h.sems[j].max && h.sems[j].blocked != [] {
      HeldBlocked(h, j, h.sems[j].blocked[0]);
    }
  }

  lemma EndFair(h: Scheduling, u: Id, now: real, k: Id)
    requires Inv(h) && Allowed(h, End(u))
    ensures Known(h, u) && Kept(h, Close(h, u), End(u), now, k)
  {
    hide Agree;
    hide Waits;
    hide Proc;
    hide Close;
    CloseSound(h, u);
    CloseAlpha(h, u);
    if k in h.threads {
      TargetOf(h, k);
      CloseReleases(h, u, k);
    }
  }

  lemma CloseSound(h: Scheduling, u: Id)
    requires Inv(h) && Allowed(h, End(u))
    ensures Known(h, u) && Close(h, u).threads.Keys == h.threads.Keys
  {
    hide Proc;
    hide UnjoinAll;
    hide ToExit;
    hide Admit;
    hide Agree;
    hide Waits;
    CloseParts(h, u);
    var h1 := UnjoinAll(h, u, h.threads[u].joinedBy);
    if !h1.threads[u].estado.New? {
      AdmitKeeps(ToExit(h1, u));
    }
  }

  lemma CloseAlpha(h: Scheduling, u: Id)
    requires Inv(h) && Live(h, u)
    ensures Known(h, u) && Close(h, u).alpha == h.alpha
  {
    hide Agree;
    hide Waits;
    hide Proc;
    hide UnjoinAll;
    hide ToExit;
    hide Admit;
    CloseParts(h, u);
    WaitsOfAll(h, u);
    UnjoinAllKeeps(h, u, h.threads[u].joinedBy);
    var h1 := UnjoinAll(h, u, h.threads[u].joinedBy);
    WokenSelf(h, u, h1);
    ToExitEffect(h1, u);
    AdmitSems(ToExit(h1, u));
  }

  /**
   A thread after `schedule_next`: put back if it was executing, estimated if it is a candidate,
   dispatched if picked.
   */
  function AfterNext(th: Thread, alpha: real, now: real, back: bool, candidate: bool, picked: bool): (r: Thread)
  {
    var length := if th.rafaga != 0.0 then now - th.rafaga else th.rafaga;
    var b := if back then th.(estado := Ready, rafaga := length) else th;
    var f := if candidate then Estimated(b, alpha) else b;
    if picked then f.(estado := Execute, ejecutado := true, rafaga := now) else f
  }

  lemma NextThread(h: Scheduling, pid: int, now: real, k: Id)
    requires Inv(h) && CanNext(h, pid) && k in h.threads
    ensures var r, c := Next(h, pid, now), Candidates(h, pid);
            && r.0.alpha == h.alpha && r.0.threads.Keys == h.threads.Keys && r.1 in c
            && r.0.threads[k] == AfterNext(h.threads[k], h.alpha, now,
                                           h.procs[Proc(h.procs, pid)].exec == Running(k), k in c, k == r.1)
  {
    hide Agree;
    hide Waits;
    hide Proc;
    hide Estimated;
    hide EstimateAll;
    hide Sorted;
    PutBackAgrees(h, pid, now);
    PutBackList(h, pid, now);
    var i := Proc(h.procs, pid);
    var g1 := PutBack(h, pid, now);
    EstimateAllAt(g1.threads, g1.procs[i].ready, h.alpha, k);
    var g2 := Ranked(g1, i, pid);
    RankedFrom(g1, i, pid);
  }

  lemma RankedFrom(h: Scheduling, i: nat, pid: int)
    requires ReadyAt(h, i, pid)
    ensures Ranked(h, i, pid).procs[i].ready[0] in h.procs[i].ready
  {
    var l := Ranked(h, i, pid).procs[i].ready;
    assert l[0] in multiset(l);
    assert l[0] in multiset(h.procs[i].ready);
  }

  lemma CandidatesAre(h: Scheduling, pid: int, k: Id)
    requires Agree(h) && Proc(h.procs, pid) != -1 && k in h.threads
    ensures k in Candidates(h, pid) <==> k.pid == pid && (h.threads[k].estado.Ready? || h.threads[k].estado.Execute?)
    ensures h.procs[Proc(h.procs, pid)].exec == Running(k) <==> k.pid == pid && h.threads[k].estado.Execute?
  {
    var i := Proc(h.procs, pid);
    PlacedAt(h, k);
    assert Owns(h, h.procs[i]);
  }

  lemma NextFair(h: Scheduling, pid: int, now: real, k: Id)
    requires Inv(h) && CanNext(h, pid) && Dated(h, k)
    ensures Kept(h, Next(h, pid, now).0, Schedule(pid), now, k)
  {
    hide Agree;
    hide Waits;
    hide Proc;
    hide Next;
    hide Candidates;
    NextAlpha(h, pid, now);
    if k in h.threads {
      NextThread(h, pid, now, k);
      CandidatesAre(h, pid, k);
    }
  }

  lemma NextAlpha(h: Scheduling, pid: int, now: real)
    requires Inv(h) && CanNext(h, pid)
    ensures Next(h, pid, now).0.alpha == h.alpha && Next(h, pid, now).0.threads.Keys == h.threads.Keys
  {
    hide Agree;
    hide Waits;
    hide Proc;
    hide EstimateAll;
    hide Sorted;
    PutBackAgrees(h, pid, now);
  }

  /** One request, any of the six: the notes still agree with every thread that is left. */
  lemma StepFair(h: Scheduling, e: Request, now: real, l: map<Id, Record>, t: real)
    requires Inv(h) && Allowed(h, e) && AllFair(h, l, t) && l.Keys <= h.threads.Keys && 0.0 < now && t <= now
    ensures var g := Step(h, e, now); g.alpha == h.alpha && AllFair(g, Observe(l, h, g, e, now), now)
    ensures Observe(l, h, Step(h, e, now), e, now).Keys <= Step(h, e, now).threads.Keys
  {
    hide Inv;
    hide Allowed;
    hide Step;
    hide FairStep;
    hide Fair;
    hide Timed;
    hide Recorded;
    var g := Step(h, e, now);
    StepKept(h, e, now, Id(0, 0), l, t);
    forall k | Live(g, k) ensures Fair(g.threads[k], g.alpha, Timed(h, g, e, now, k, Recorded(l, e, k)), now) {
      StepKept(h, e, now, k, l, t);
      FairStepKeeps(h, g, e, now, k, l, t);
    }
  }

  lemma StepKept(h: Scheduling, e: Request, now: real, k: Id, l: map<Id, Record>, t: real)
    requires Inv(h) && Allowed(h, e) && AllFair(h, l, t)
    ensures Kept(h, Step(h, e, now), e, now, k)
  {
    hide Inv;
    hide Kept;
    assert Dated(h, k) by {
      if Executing(h, k) {
        assert Live(h, k);
      }
    }
    match e
    case Spawn(x) => SpawnFair(h, x, now, k);
    case Schedule(pid) => NextFair(h, pid, now, k);
    case JoinOn(x) => JoinFair(h, x, now, k);
    case End(u) => EndFair(h, u, now, k);
    case WaitOn(x, name) => WaitFair(h, x, name, now, k);
    case Post(name) => PostFair(h, name, now, k);
  }

  // ----- over a run -----

  /** Time is positive and does not go back. */
  ghost predicate Ordered(es: seq<(Request, real)>, t: real)
  {
    es == [] || (0.0 < es[0].1 && t <= es[0].1 && Ordered(es[1..], es[0].1))
  }

  function LastMoment(es: seq<(Request, real)>, t: real): (r: real)
  {
    if es == [] then t else es[|es| - 1].1
  }

  ghost function Watched(h: Scheduling, es: seq<(Request, real)>, l: map<Id, Record>): (m: map<Id, Record>)
    requires Inv(h) && Legal(h, es)
    decreases |es|
  {
    if es == [] then l
    else
      StepKeeps(h, es[0].0, es[0].1);
      var g := Step(h, es[0].0, es[0].1);
      Watched(g, es[1..], Observe(l, h, g, es[0].0, es[0].1))
  }

  lemma {:induction false} RunFair(h: Scheduling, es: seq<(Request, real)>, l: map<Id, Record>, t: real)
    requires Inv(h) && Legal(h, es) && Ordered(es, t) && AllFair(h, l, t) && l.Keys <= h.threads.Keys
    ensures Run(h, es).alpha == h.alpha && AllFair(Run(h, es), Watched(h, es, l), LastMoment(es, t))
    decreases |es|
  {
    hide Inv;
    hide Allowed;
    hide Step;
    hide AllFair;
    hide Observe;
    if es != [] {
      var e, now := es[0].0, es[0].1;
      StepKeeps(h, e, now);
      StepFair(h, e, now, l, t);
      var g := Step(h, e, now);
      RunFair(g, es[1..], Observe(l, h, g, e, now), now);
    }
  }

  /**
   From the start of the server, after any run: a thread that is not executing has an estimate
   that is the weighted sum of its finished bursts, all of them, or all but the last one, which
   is then kept aside, as a length; and no estimate is below 0 or above the longest burst.
   */
  lemma EstimatesAreBursts(h: Scheduling, es: seq<(Request, real)>, k: Id, m: real)
    requires Initial(h) && Inv(h) && Legal(h, es) && Ordered(es, 0.0) && 0.0 <= h.alpha <= 1.0
    requires Live(Run(h, es), k) && 0.0 <= m
    requires k in Watched(h, es, map[]) ==> Within(Watched(h, es, map[])[k].bursts, m)
    ensures k in Watched(h, es, map[])
    ensures var th, b := Run(h, es).threads[k], Watched(h, es, map[])[k].bursts;
            && 0.0 <= th.estimacion <= m
            && (th.ejecutado && !th.estado.Execute? ==> b != [] && th.rafaga == b[|b| - 1])
            && th.estimacion == Weighted(h.alpha, if th.ejecutado && !th.estado.Execute? then b[..|b| - 1] else b)
  {
    hide Inv;
    RunFair(h, es, map[], 0.0);
    var th, r := Run(h, es).threads[k], Watched(h, es, map[])[k];
    assert Fair(th, h.alpha, r, LastMoment(es, 0.0));
    WeightedWithin(h.alpha, r.bursts, m);
    if r.bursts != [] {
      WeightedWithin(h.alpha, r.bursts[..|r.bursts| - 1], m);
    }
  }
}
