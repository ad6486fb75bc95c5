/**
 The thread scheduler of `planificador/suse.c`: threads, processes, queues and semaphores, the
 state transitions, and each request of a client as one step over them, its moment given with it.
 */
module Scheduler {
  datatype Estado = New | Ready | Execute | Blocked | Exit

  /** A thread is named by its process and its number there. */
  datatype Id = Id(pid: int, tid: int)

  /** `rafaga` is the start of the current burst while executing, the length of the last one after. */
  datatype Thread = Thread(
    estado: Estado, rafaga: real, ejecutado: bool, estimacion: real, joinTo: seq<Id>, joinedBy: seq<Id>)

  datatype Slot = Idle | Running(k: Id)

  datatype Process = Process(id: int, ults: seq<Id>, ready: seq<Id>, exec: Slot, semaforoReady: int)

  datatype Sem = Sem(name: string, max: int, value: int, blocked: seq<Id>)

  datatype Scheduling = Scheduling(
    threads: map<Id, Thread>, procs: seq<Process>,
    newQueue: seq<Id>, blockedQueue: seq<Id>, exitQueue: seq<Id>,
    sems: seq<Sem>, actual: int, max: int, alpha: real)

  /** `list_remove_by_condition`: the first occurrence leaves. */
  function Remove<T(==)>(s: seq<T>, x: T): (r: seq<T>)
    ensures |r| == |s| - if x in s then 1 else 0
    ensures forall y | y in r :: y in s
  {
    if s == [] then [] else if s[0] == x then s[1..] else [s[0]] + Remove(s[1..], x)
  }

  lemma {:induction false} RemoveCounts<T>(s: seq<T>, x: T)
    ensures multiset(Remove(s, x)) == multiset(s) - multiset{x}
  {
    if s != [] {
      assert s == [s[0]] + s[1..];
      RemoveCounts(s[1..], x);
    }
  }

  /** And the others keep their order. */
  lemma {:induction false} RemoveFirst<T>(s: seq<T>, x: T) returns (i: nat)
    requires x in s
    ensures i < |s| && s[i] == x && x !in s[..i] && Remove(s, x) == s[..i] + s[i + 1..]
  {
    if s[0] == x {
      return 0;
    }
    i := RemoveFirst(s[1..], x);
    assert s[..i + 1] == [s[0]] + s[1..][..i];
    return i + 1;
  }

  /** `list_find` by `PROCESS_ID`. */
  function Proc(ps: seq<Process>, pid: int): (i: int)
    ensures i == -1 ==> forall j | 0 <= j < |ps| :: ps[j].id != pid
    ensures i != -1 ==> 0 <= i < |ps| && ps[i].id == pid
  {
    if ps == [] then -1
    else if ps[0].id == pid then 0
    else var i := Proc(ps[1..], pid); if i == -1 then -1 else i + 1
  }

  function SemNamed(ss: seq<Sem>, name: string): (i: int)
    ensures i == -1 ==> forall j | 0 <= j < |ss| :: ss[j].name != name
    ensures i != -1 ==> 0 <= i < |ss| && ss[i].name == name
  {
    if ss == [] then -1
    else if ss[0].name == name then 0
    else var i := SemNamed(ss[1..], name); if i == -1 then -1 else i + 1
  }

  /** The thread and its process exist. */
  predicate Known(h: Scheduling, k: Id)
  {
    k in h.threads && Proc(h.procs, k.pid) != -1
  }

  function SetThread(h: Scheduling, k: Id, t: Thread): (g: Scheduling)
  {
    h.(threads := h.threads[k := t])
  }

  function SetProc(h: Scheduling, i: nat, p: Process): (g: Scheduling)
    requires i < |h.procs|
  {
    h.(procs := h.procs[i := p])
  }

  // ----- the transitions -----

  /** `eliminar_ULT_cola_actual` */
  function Leave(h: Scheduling, k: Id): (g: Scheduling)
    requires Known(h, k)
    ensures g.threads == h.threads && |g.procs| == |h.procs|
    ensures forall j | 0 <= j < |h.procs| :: g.procs[j].id == h.procs[j].id
  {
    var i := Proc(h.procs, k.pid);
    match h.threads[k].estado
    case Ready => SetProc(h, i, h.procs[i].(ready := Remove(h.procs[i].ready, k)))
    case New => h.(newQueue := Remove(h.newQueue, k))
    case Execute => SetProc(h, i, h.procs[i].(exec := Idle))
    case Blocked => h.(blockedQueue := Remove(h.blockedQueue, k))
    case Exit => h
  }

  lemma {:induction false} SameProc(ps: seq<Process>, qs: seq<Process>, pid: int)
    requires |ps| == |qs| && forall j | 0 <= j < |ps| :: ps[j].id == qs[j].id
    ensures Proc(ps, pid) == Proc(qs, pid)
  {
    if ps != [] {
      SameProc(ps[1..], qs[1..], pid);
    }
  }

  /** To the end of the process's ready list, `sem_post` included. */
  function Enlist(h: Scheduling, k: Id): (g: Scheduling)
    requires Known(h, k)
    ensures Known(g, k)
  {
    var i := Proc(h.procs, k.pid);
    var p := h.procs[i];
    var g := SetThread(SetProc(h, i, p.(ready := p.ready + [k], semaforoReady := p.semaforoReady + 1)),
                       k, h.threads[k].(estado := Ready));
    SameProc(h.procs, g.procs, k.pid);
    g
  }

  /** `nuevo_a_listo` */
  function NewToReady(h: Scheduling, k: Id): (g: Scheduling)
    requires Known(h, k)
    ensures Known(g, k)
  {
    var l := Leave(h, k);
    SameProc(h.procs, l.procs, k.pid);
    Enlist(l.(actual := l.actual + 1), k)
  }

  /** `bloqueado_a_listo` */
  function BlockedToReady(h: Scheduling, k: Id): (g: Scheduling)
    requires Known(h, k)
    ensures Known(g, k)
  {
    var l := Leave(h, k);
    SameProc(h.procs, l.procs, k.pid);
    Enlist(l, k)
  }

  /** `nuevo_a_ejecucion` */
  function NewToExecute(h: Scheduling, k: Id, now: real): (g: Scheduling)
    requires Known(h, k)
  {
    var l := Leave(h, k);
    SameProc(h.procs, l.procs, k.pid);
    var i := Proc(h.procs, k.pid);
    SetThread(SetProc(l, i, l.procs[i].(exec := Running(k))), k,
              h.threads[k].(estado := Execute, rafaga := now, ejecutado := true)).(actual := h.actual + 1)
  }

  /** The executing thread's burst ends at `now` and it goes back to the ready list: `ejecucion_a_listo`. */
  function ExecuteToReady(h: Scheduling, k: Id, now: real): (g: Scheduling)
    requires Known(h, k)
  {
    var i := Proc(h.procs, k.pid);
    var p, t := h.procs[i], h.threads[k];
    SetThread(SetProc(h, i, p.(exec := Idle, ready := p.ready + [k], semaforoReady := p.semaforoReady + 1)), k,
              t.(estado := Ready, rafaga := if t.rafaga != 0.0 then now - t.rafaga else t.rafaga))
  }

  /** `ejecucion_a_bloqueado`, whatever the thread waits for. */
  function ExecuteToBlocked(h: Scheduling, k: Id, now: real): (g: Scheduling)
    requires Known(h, k)
  {
    var i := Proc(h.procs, k.pid);
    var t := h.threads[k];
    SetThread(SetProc(h, i, h.procs[i].(exec := Idle)), k,
              t.(estado := Blocked, rafaga := if t.rafaga > 0.0 then now - t.rafaga else t.rafaga))
      .(blockedQueue := h.blockedQueue + [k])
  }

  /** `listo_a_ejecucion`, and the burst starts. */
  function ReadyToExecute(h: Scheduling, k: Id, now: real): (g: Scheduling)
    requires Known(h, k)
  {
    var l := Leave(h, k);
    var i := Proc(h.procs, k.pid);
    SetThread(SetProc(l, i, l.procs[i].(exec := Running(k))), k,
              h.threads[k].(estado := Execute, ejecutado := true, rafaga := now))
  }

  /**
   The four `..._a_exit`, with the count `close_tid` takes down for all but a new thread; a ready
   thread takes one count of `semaforoReady` with it.
   */
  function ToExit(h: Scheduling, k: Id): (g: Scheduling)
    requires Known(h, k)
  {
    var l := Leave(h, k);
    var i := Proc(h.procs, k.pid);
    var p := l.procs[i];
    var e := h.threads[k].estado;
    var taken := if e == Ready then 1 else 0;
    SetThread(SetProc(l, i, p.(ults := Remove(p.ults, k), semaforoReady := p.semaforoReady - taken)), k,
              h.threads[k].(estado := Exit))
      .(exitQueue := h.exitQueue + [k], actual := h.actual - if e == New then 0 else 1)
  }

  // ----- admission -----

  /** `validar_grado_multiprogramacion` */
  predicate Room(h: Scheduling)
  {
    h.max >= h.actual + 1
  }

  /** `obtener_ULT_ready_FIFO`; what is queued always names a thread. */
  function Admit(h: Scheduling): (g: Scheduling)
  {
    if h.newQueue == [] || !Known(h, h.newQueue[0]) then h else NewToReady(h, h.newQueue[0])
  }

  /** `ULT_create` */
  function Born(h: Scheduling, k: Id): (g: Scheduling)
    requires Proc(h.procs, k.pid) != -1
    ensures Known(g, k)
  {
    var i := Proc(h.procs, k.pid);
    var p := h.procs[i];
    var g := SetThread(SetProc(h, i, p.(ults := p.ults + [k])), k, Thread(New, 0.0, false, 0.0, [], []))
               .(newQueue := h.newQueue + [k]);
    SameProc(h.procs, g.procs, k.pid);
    g
  }

  /** `handle_suse_create`: the first thread of a process goes straight to execution. */
  function Create(h: Scheduling, k: Id, now: real): (g: Scheduling)
  {
    if Proc(h.procs, k.pid) == -1 then
      var h1 := h.(procs := h.procs + [Process(k.pid, [], [], Idle, 0)]);
      assert h1.procs[|h.procs|].id == k.pid;
      var h2 := Born(h1, k);
      if Room(h2) then NewToExecute(h2, k, now) else h2
    else
      var h2 := Born(h, k);
      if Room(h2) then NewToReady(h2, k) else h2
  }

  // ----- joins -----

  /** `join`: without an executing thread or a living target it does nothing. */
  function JoinThread(h: Scheduling, k: Id, now: real): (g: Scheduling)
    requires Proc(h.procs, k.pid) != -1
  {
    var p := h.procs[Proc(h.procs, k.pid)];
    if p.exec.Idle? || k !in p.ults || !Known(h, p.exec.k) || !Known(h, k) then h
    else
      var e := p.exec.k;
      var h1 := SetThread(h, e, h.threads[e].(joinTo := h.threads[e].joinTo + [k]));
      var h2 := SetThread(h1, k, h1.threads[k].(joinedBy := h1.threads[k].joinedBy + [e]));
      ExecuteToBlocked(h2, e, now)
  }

  /** `desjoinear_hilo`: with the system full the joiner goes to the new queue and stays in the blocked one. */
  function Unjoin(h: Scheduling, u: Id, j: Id): (g: Scheduling)
    requires Known(h, j)
    ensures |g.procs| == |h.procs| && g.threads.Keys == h.threads.Keys
    ensures forall i | 0 <= i < |h.procs| :: g.procs[i].id == h.procs[i].id
  {
    var t := h.threads[j].(joinTo := Remove(h.threads[j].joinTo, u));
    var h1 := SetThread(h, j, t);
    if t.joinTo != [] then h1
    else if Room(h1) then BlockedToReady(h1, j)
    else SetThread(h1, j, t.(estado := New)).(newQueue := h1.newQueue + [j])
  }

  /** `desjoinear`; whoever joined is still known. */
  function UnjoinAll(h: Scheduling, u: Id, l: seq<Id>): (g: Scheduling)
    ensures |g.procs| == |h.procs| && g.threads.Keys == h.threads.Keys
    ensures forall i | 0 <= i < |h.procs| :: g.procs[i].id == h.procs[i].id
    decreases |l|
  {
    if l == [] || !Known(h, l[0]) then h else UnjoinAll(Unjoin(h, u, l[0]), u, l[1..])
  }

  /** `close_tid`, of a thread other than a process's first. */
  function Close(h: Scheduling, u: Id): (g: Scheduling)
    requires Known(h, u)
  {
    var h1 := UnjoinAll(h, u, h.threads[u].joinedBy);
    SameProc(h.procs, h1.procs, u.pid);
    if h1.threads[u].estado == New then ToExit(h1, u)
    else
      var h2 := ToExit(h1, u);
      if Room(h2) then Admit(h2) else h2
  }

  // ----- semaphores -----

  /** `decrementar_semaforo`: -1 for an unknown name. */
  function Wait(h: Scheduling, k: Id, name: string, now: real): (r: (Scheduling, int))
    requires Known(h, k)
  {
    var j := SemNamed(h.sems, name);
    if j == -1 then (h, -1)
    else
      var s := h.sems[j];
      if s.value <= 0 then
        (ExecuteToBlocked(h, k, now).(sems := h.sems[j := s.(value := s.value - 1, blocked := s.blocked + [k])]), 0)
      else (h.(sems := h.sems[j := s.(value := s.value - 1)]), 0)
  }

  /**
   `incrementar_semaforo`, then `desbloquear_hilos_semaforo`: -1 for an unknown name or a
   semaphore at its maximum.
   */
  function Signal(h: Scheduling, name: string): (r: (Scheduling, int))
  {
    var j := SemNamed(h.sems, name);
    if j == -1 || h.sems[j].value == h.sems[j].max then (h, -1)
    else
      var s := h.sems[j].(value := h.sems[j].value + 1);
      if s.blocked == [] || !Known(h, s.blocked[0]) then (h.(sems := h.sems[j := s]), 0)
      else (BlockedToReady(h, s.blocked[0]).(sems := h.sems[j := s.(blocked := s.blocked[1..])]), 0)
  }

  // ----- shortest job first -----

  /** `estimar_rafaga`, once per burst. */
  function Estimated(t: Thread, alpha: real): (r: Thread)
  {
    if t.ejecutado then t.(ejecutado := false, estimacion := alpha * t.rafaga + (1.0 - alpha) * t.estimacion) else t
  }

  /** `estimar_ULTs_listos` */
  function EstimateAll(th: map<Id, Thread>, l: seq<Id>, alpha: real): (r: map<Id, Thread>)
    requires forall k | k in l :: k in th
    ensures r.Keys == th.Keys
  {
    if l == [] then th else EstimateAll(th[l[0] := Estimated(th[l[0]], alpha)], l[1..], alpha)
  }

  /** `funcion_SJF`: on a tie the one already in front stays there. */
  predicate InFront(th: map<Id, Thread>, a: Id, b: Id)
    requires a in th && b in th
  {
    th[a].estimacion <= th[b].estimacion
  }

  function Insert(th: map<Id, Thread>, x: Id, l: seq<Id>): (r: seq<Id>)
    requires x in th && forall k | k in l :: k in th
    ensures multiset(r) == multiset(l) + multiset{x} && |r| == |l| + 1
    ensures forall k | k in r :: k in th
  {
    if l == [] then [x]
    else
      assert l == [l[0]] + l[1..];
      if InFront(th, x, l[0]) then [x] + l
      else
        var r := [l[0]] + Insert(th, x, l[1..]);
        assert forall k | k in r :: k in multiset(r);
        r
  }

  /** `list_sort` with `funcion_SJF`. */
  function Sorted(th: map<Id, Thread>, l: seq<Id>): (r: seq<Id>)
    requires forall k | k in l :: k in th
    ensures multiset(r) == multiset(l) && |r| == |l|
    ensures forall k | k in r :: k in th
  {
    if l == [] then []
    else
      assert l == [l[0]] + l[1..];
      Insert(th, l[0], Sorted(th, l[1..]))
  }

  /** What `schedule_next` waits for: after the executing thread is put back, someone is ready. */
  predicate CanNext(h: Scheduling, pid: int)
  {
    var i := Proc(h.procs, pid);
    i != -1 && (h.procs[i].exec.Running? || h.procs[i].ready != [])
      && (h.procs[i].exec.Running? ==> Known(h, h.procs[i].exec.k) && h.procs[i].exec.k.pid == pid)
      && forall k | k in h.procs[i].ready :: Known(h, k) && k.pid == pid
  }

  /** Process `i` has someone ready, and everyone ready there is a thread of it. */
  predicate ReadyAt(h: Scheduling, i: int, pid: int)
  {
    0 <= i < |h.procs| && h.procs[i].ready != [] && i == Proc(h.procs, pid)
      && forall k | k in h.procs[i].ready :: k in h.threads && k.pid == pid
  }

  /** The executing thread, if any, joins the end of the ready list. */
  function PutBack(h: Scheduling, pid: int, now: real): (g: Scheduling)
    requires CanNext(h, pid)
    ensures ReadyAt(g, Proc(h.procs, pid), pid)
  {
    var p := h.procs[Proc(h.procs, pid)];
    if p.exec.Running? then
      var g := ExecuteToReady(h, p.exec.k, now);
      SameProc(h.procs, g.procs, pid);
      g
    else h
  }

  /** `sem_wait`, then `ordenar_cola_listos`: pending bursts enter the estimates, and the list is sorted. */
  function Ranked(h: Scheduling, i: nat, pid: int): (g: Scheduling)
    requires ReadyAt(h, i, pid)
    ensures ReadyAt(g, i, pid)
  {
    var q := h.procs[i];
    var th := EstimateAll(h.threads, q.ready, h.alpha);
    var l := Sorted(th, q.ready);
    var g := SetProc(h.(threads := th), i, q.(ready := l, semaforoReady := q.semaforoReady - 1));
    SameProc(h.procs, g.procs, pid);
    assert forall k | k in l :: k in multiset(l) && k in multiset(q.ready);
    g
  }

  /** `obtener_proximo_ejecutar` */
  function Next(h: Scheduling, pid: int, now: real): (r: (Scheduling, Id))
    requires CanNext(h, pid)
  {
    var i := Proc(h.procs, pid);
    var g := Ranked(PutBack(h, pid, now), i, pid);
    var u := g.procs[i].ready[0];
    (ReadyToExecute(g, u, now), u)
  }
}
