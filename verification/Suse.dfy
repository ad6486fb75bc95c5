/**
 The scheduler's state and the functions of `planificador/suse.c` that change it in place. Each
 method is tied to a transition of module `Scheduler`, so that what is proved there about every
 run of requests is proved about the class.
 */
module Suse {
  import opened Scheduler
  import opened Agreement
  import opened Joins
  import opened Effects
  import opened Runs
  import opened Bursts

  /** `list_remove_by_condition` */
  method ListRemove(s: seq<Id>, x: Id) returns (r: seq<Id>)
    ensures r == Remove(s, x)
  {
    for i := 0 to |s|
      invariant forall j | 0 <= j < i :: s[j] != x
    {
      if s[i] == x {
        RemoveAt(s, x, i);
        return s[..i] + s[i + 1..];
      }
    }
    RemoveNone(s, x);
    return s;
  }

  lemma {:induction false} RemoveAt(s: seq<Id>, x: Id, i: nat)
    requires i < |s| && s[i] == x && forall j | 0 <= j < i :: s[j] != x
    ensures Remove(s, x) == s[..i] + s[i + 1..]
  {
    if i > 0 {
      var t := s[1..];
      RemoveAt(t, x, i - 1);
      assert Remove(s, x) == [s[0]] + Remove(t, x);
      assert [s[0]] + (t[..i - 1] + t[i..]) == s[..i] + s[i + 1..];
    }
  }

  lemma {:induction false} RemoveNone(s: seq<Id>, x: Id)
    requires forall j | 0 <= j < |s| :: s[j] != x
    ensures Remove(s, x) == s
  {
    if s != [] {
      RemoveNone(s[1..], x);
    }
  }

  class Planificador {
    var threads: map<Id, Thread>
    var procs: seq<Process>
    var newQueue: seq<Id>
    var blockedQueue: seq<Id>
    var exitQueue: seq<Id>
    var sems: seq<Sem>
    var actual: int
    const max: int
    const alpha: real

    ghost function St(): Scheduling
      reads this
    {
      Scheduling(threads, procs, newQueue, blockedQueue, exitQueue, sems, actual, max, alpha)
    }

    /** The queues are created empty; semaphores come from the configuration. */
    constructor (sems: seq<Sem>, max: int, alpha: real)
      requires 0 <= max && forall j | 0 <= j < |sems| :: 0 <= sems[j].value <= sems[j].max && sems[j].blocked == []
      ensures Initial(St()) && Inv(St()) && this.sems == sems && this.max == max && this.alpha == alpha
    {
      threads, procs, newQueue, blockedQueue, exitQueue := map[], [], [], [], [];
      this.sems, actual, this.max, this.alpha := sems, 0, max, alpha;
      new;
      InitialSound(St());
    }

    /** `list_find` over the processes. */
    method BuscarProceso(pid: int) returns (i: int)
      ensures i == Proc(procs, pid)
    {
      i := 0;
      while i < |procs|
        invariant 0 <= i <= |procs|
        invariant Proc(procs, pid) == if Proc(procs[i..], pid) == -1 then -1 else i + Proc(procs[i..], pid)
      {
        if procs[i].id == pid {
          return i;
        }
        assert procs[i..][1..] == procs[i + 1..];
        i := i + 1;
      }
      return -1;
    }

    /** `list_find` over the semaphores. */
    method BuscarSemaforo(name: string) returns (j: int)
      ensures j == SemNamed(sems, name)
    {
      j := 0;
      while j < |sems|
        invariant 0 <= j <= |sems|
        invariant SemNamed(sems, name) == if SemNamed(sems[j..], name) == -1 then -1 else j + SemNamed(sems[j..], name)
      {
        if sems[j].name == name {
          return j;
        }
        assert sems[j..][1..] == sems[j + 1..];
        j := j + 1;
      }
      return -1;
    }

    /** `validar_grado_multiprogramacion` */
    method ValidarGradoMultiprogramacion() returns (b: bool)
      ensures b == Room(St())
    {
      b := max >= actual + 1;
    }

    /** `eliminar_ULT_cola_actual` */
    method EliminarULTColaActual(k: Id)
      requires Known(St(), k)
      modifies this`procs, this`newQueue, this`blockedQueue
      ensures St() == Leave(old(St()), k)
    {
      hide Proc;
      hide Remove;
      var i := BuscarProceso(k.pid);
      match threads[k].estado
      case Ready =>
        var lista := ListRemove(procs[i].ready, k);
        procs := procs[i := procs[i].(ready := lista)];
      case New =>
        newQueue := ListRemove(newQueue, k);
      case Execute =>
        procs := procs[i := procs[i].(exec := Idle)];
      case Blocked =>
        blockedQueue := ListRemove(blockedQueue, k);
      case Exit =>
    }

    /** `nuevo_a_listo` */
    method NuevoAListo(k: Id)
      requires Known(St(), k) && threads[k].estado.New?
      modifies this`threads, this`procs, this`newQueue, this`blockedQueue, this`actual
      ensures St() == NewToReady(old(St()), k)
    {
      hide Proc;
      hide Remove;
      var i := BuscarProceso(k.pid);
      procs := procs[i := procs[i].(ready := procs[i].ready + [k])];
      SameProc(old(procs), procs, k.pid);
      EliminarULTColaActual(k);
      threads := threads[k := threads[k].(estado := Ready)];
      actual := actual + 1;
      procs := procs[i := procs[i].(semaforoReady := procs[i].semaforoReady + 1)];
      assert procs == old(procs)[i := procs[i]];
    }

    /** `bloqueado_a_listo` */
    method BloqueadoAListo(k: Id)
      requires Known(St(), k)
      modifies this`threads, this`procs, this`newQueue, this`blockedQueue
      ensures St() == BlockedToReady(old(St()), k)
    {
      hide Proc;
      hide Remove;
      EliminarULTColaActual(k);
      SameProc(old(procs), procs, k.pid);
      var i := BuscarProceso(k.pid);
      threads := threads[k := threads[k].(estado := Ready)];
      procs := procs[i := procs[i].(ready := procs[i].ready + [k], semaforoReady := procs[i].semaforoReady + 1)];
    }

    /** `nuevo_a_ejecucion` */
    method NuevoAEjecucion(k: Id, now: real)
      requires Known(St(), k)
      modifies this`threads, this`procs, this`newQueue, this`blockedQueue, this`actual
      ensures St() == NewToExecute(old(St()), k, now)
    {
      hide Proc;
      hide Remove;
      EliminarULTColaActual(k);
      SameProc(old(procs), procs, k.pid);
      var i := BuscarProceso(k.pid);
      threads := threads[k := threads[k].(rafaga := now, estado := Execute, ejecutado := true)];
      procs := procs[i := procs[i].(exec := Running(k))];
      actual := actual + 1;
    }

    /** `ejecucion_a_listo`, after the burst's length is set. */
    method EjecucionAListo(k: Id, now: real)
      requires Known(St(), k)
      modifies this`threads, this`procs
      ensures St() == ExecuteToReady(old(St()), k, now)
    {
      hide Proc;
      hide Remove;
      var rafagaActual := threads[k].rafaga;
      if rafagaActual != 0.0 {
        threads := threads[k := threads[k].(rafaga := now - rafagaActual)];
      }
      var i := BuscarProceso(k.pid);
      procs := procs[i := procs[i].(exec := Idle)];
      SameProc(old(procs), procs, k.pid);
      threads := threads[k := threads[k].(estado := Ready)];
      procs := procs[i := procs[i].(ready := procs[i].ready + [k], semaforoReady := procs[i].semaforoReady + 1)];
      assert procs == old(procs)[i := procs[i]];
    }

    /** `listo_a_ejecucion`, and the burst's start. */
    method ListoAEjecucion(k: Id, now: real)
      requires Known(St(), k)
      modifies this`threads, this`procs, this`newQueue, this`blockedQueue
      ensures St() == ReadyToExecute(old(St()), k, now)
    {
      hide Proc;
      hide Remove;
      EliminarULTColaActual(k);
      SameProc(old(procs), procs, k.pid);
      var i := BuscarProceso(k.pid);
      threads := threads[k := threads[k].(estado := Execute, ejecutado := true)];
      procs := procs[i := procs[i].(exec := Running(k))];
      threads := threads[k := threads[k].(rafaga := now)];
    }

    /** `ejecucion_a_bloqueado` */
    method EjecucionABloqueado(k: Id, now: real)
      requires Known(St(), k)
      modifies this`threads, this`procs, this`blockedQueue
      ensures St() == ExecuteToBlocked(old(St()), k, now)
    {
      hide Proc;
      hide Remove;
      var inicio := threads[k].rafaga;
      if inicio > 0.0 {
        threads := threads[k := threads[k].(rafaga := now - inicio)];
      }
      var i := BuscarProceso(k.pid);
      procs := procs[i := procs[i].(exec := Idle)];
      threads := threads[k := threads[k].(estado := Blocked)];
      blockedQueue := blockedQueue + [k];
    }

    /** The `..._a_exit` of the thread's state, with the count taken down before it. */
    method AExit(k: Id)
      requires Known(St(), k)
      modifies this`threads, this`procs, this`newQueue, this`blockedQueue, this`exitQueue, this`actual
      ensures St() == ToExit(old(St()), k)
    {
      hide Proc;
      hide Remove;
      var estado := threads[k].estado;
      EliminarULTColaActual(k);
      ghost var l := St();
      assert l == Leave(old(St()), k);
      SameProc(old(procs), procs, k.pid);
      var i := BuscarProceso(k.pid);
      var ults := ListRemove(procs[i].ults, k);
      procs := procs[i := procs[i].(ults := ults)];
      threads := threads[k := threads[k].(estado := Exit)];
      exitQueue := exitQueue + [k];
      SameProc(old(procs), procs, k.pid);
      if estado == Ready {
        procs := procs[i := procs[i].(semaforoReady := procs[i].semaforoReady - 1)];
      }
      if estado != New {
        actual := actual - 1;
      }
      assert procs == l.procs[i := procs[i]];
    }

    /** `obtener_ULT_ready_FIFO` */
    method ObtenerULTReadyFIFO()
      requires newQueue != [] ==> Known(St(), newQueue[0]) && threads[newQueue[0]].estado.New?
      modifies this`threads, this`procs, this`newQueue, this`blockedQueue, this`actual
      ensures St() == Admit(old(St()))
    {
      hide Proc;
      hide Remove;
      if newQueue != [] {
        NuevoAListo(newQueue[0]);
      }
    }

    /** `ULT_create` */
    method ULTCreate(k: Id)
      requires Proc(procs, k.pid) != -1
      modifies this`threads, this`procs, this`newQueue
      ensures St() == Born(old(St()), k)
    {
      hide Proc;
      hide Remove;
      var i := BuscarProceso(k.pid);
      threads := threads[k := Thread(New, 0.0, false, 0.0, [], [])];
      procs := procs[i := procs[i].(ults := procs[i].ults + [k])];
      newQueue := newQueue + [k];
    }

    /** `handle_main_thread_create` and `handle_ULT_create` */
    method CrearULT(k: Id, now: real)
      modifies this
      ensures St() == Create(old(St()), k, now)
    {
      hide Proc;
      hide NewToReady;
      hide NewToExecute;
      var i := BuscarProceso(k.pid);
      if i == -1 {
        procs := procs + [Process(k.pid, [], [], Idle, 0)];
        ProcAppend(old(procs), procs[|old(procs)|], k.pid);
        ULTCreate(k);
        var entra := ValidarGradoMultiprogramacion();
        if entra {
          NuevoAEjecucion(k, now);
        }
      } else {
        ULTCreate(k);
        var entra := ValidarGradoMultiprogramacion();
        if entra {
          NuevoAListo(k);
        }
      }
    }

    /** `handle_suse_create`, of a number no live thread of the process has. */
    method SuseCreate(k: Id, now: real)
      requires Inv(St()) && !Live(St(), k)
      modifies this
      ensures St() == Create(old(St()), k, now) && Inv(St()) && Created(old(St()), k, now, St())
    {
      hide Inv;
      hide Create;
      hide Created;
      CreateKeeps(St(), k, now);
      CreateEffect(St(), k, now);
      CrearULT(k, now);
    }

    /** `join`, step by step. */
    method Unirse(k: Id, now: real)
      requires Proc(procs, k.pid) != -1 && CanReach(St(), k)
      modifies this
      ensures St() == JoinThread(old(St()), k, now)
    {
      hide Proc;
      hide ExecuteToBlocked;
      var i := BuscarProceso(k.pid);
      var executing := procs[i].exec;
      if executing.Idle? || k !in procs[i].ults {
        return;
      }
      var e := executing.k;
      threads := threads[e := threads[e].(joinTo := threads[e].joinTo + [k])];
      threads := threads[k := threads[k].(joinedBy := threads[k].joinedBy + [e])];
      EjecucionABloqueado(e, now);
    }

    /** `join` */
    method SuseJoin(k: Id, now: real)
      requires Inv(St()) && Proc(procs, k.pid) != -1
      modifies this
      ensures St() == JoinThread(old(St()), k, now) && Inv(St()) && JoinDone(old(St()), k, now, St())
    {
      hide JoinDone;
      JoinKeeps(St(), k, now);
      JoinEffect(St(), k, now);
      JoinKnown(St(), k);
      hide Inv;
      hide JoinThread;
      Unirse(k, now);
    }

    /** `desjoinear_hilo` */
    method DesjoinearHilo(u: Id, j: Id)
      requires Known(St(), j)
      modifies this`threads, this`procs, this`newQueue, this`blockedQueue
      ensures St() == Unjoin(old(St()), u, j)
    {
      hide Proc;
      hide Remove;
      var resto := ListRemove(threads[j].joinTo, u);
      threads := threads[j := threads[j].(joinTo := resto)];
      if resto == [] {
        var entra := ValidarGradoMultiprogramacion();
        if entra {
          BloqueadoAListo(j);
        } else {
          threads := threads[j := threads[j].(estado := New)];
          newQueue := newQueue + [j];
        }
      }
    }

    /** `desjoinear` */
    method Desjoinear(u: Id)
      requires u in threads && forall j | j in threads[u].joinedBy :: Known(St(), j)
      modifies this`threads, this`procs, this`newQueue, this`blockedQueue
      ensures St() == UnjoinAll(old(St()), u, old(threads)[u].joinedBy)
    {
      hide Unjoin;
      var l := threads[u].joinedBy;
      ghost var h := St();
      assert l[0..] == l;
      for i := 0 to |l|
        invariant UnjoinAll(h, u, l) == UnjoinAll(St(), u, l[i..])
        invariant forall j | j in l :: Known(St(), j)
      {
        ghost var antes := St();
        DesjoinearHilo(u, l[i]);
        assert l[i..][0] == l[i] && l[i..][1..] == l[i + 1..];
        StillKnown(antes, St(), l);
      }
    }

    /** `close_tid`, step by step. */
    method Cerrar(u: Id)
      requires Known(St(), u) && Closable(St(), u)
      modifies this
      ensures St() == Close(old(St()), u)
    {
      hide Proc;
      hide UnjoinAll;
      hide ToExit;
      hide Admit;
      ghost var h := St();
      if threads[u].joinedBy != [] {
        Desjoinear(u);
      } else {
        UnjoinNobody(h, u);
      }
      var eraNuevo := threads[u].estado == New;
      AExit(u);
      if !eraNuevo {
        var entra := ValidarGradoMultiprogramacion();
        if entra {
          ObtenerULTReadyFIFO();
        }
      }
    }

    /** `close_tid`, of a thread other than a process's first. */
    method CloseTid(u: Id)
      requires Inv(St()) && Live(St(), u) && u.tid != 0
      modifies this
      ensures Known(old(St()), u) && St() == Close(old(St()), u)
      ensures Inv(St()) <==> (old(threads)[u].estado.Blocked? ==> old(threads)[u].joinTo == [u])
      ensures Allowed(old(St()), End(u)) ==> forall k | k in old(threads) :: Released(old(St()), u, St(), k)
      ensures Closed(old(St()), u, St()) && Rearranged(old(St()), u, St())
    {
      hide Inv;
      hide Closed;
      hide Rearranged;
      CloseEffect(St(), u);
      CloseRearranges(St(), u);
      hide Close;
      hide Released;
      ghost var h := St();
      CloseExact(h, u);
      CloseAdmits(h, u);
      if Allowed(h, End(u)) {
        forall k | k in threads ensures Released(h, u, Close(h, u), k) {
          CloseReleases(h, u, k);
        }
      }
      Cerrar(u);
    }

    /** `decrementar_semaforo`, step by step. */
    method Decrementar(k: Id, name: string, now: real) returns (r: int)
      requires Known(St(), k)
      modifies this
      ensures (St(), r) == Wait(old(St()), k, name, now)
    {
      hide Proc;
      hide SemNamed;
      var j := BuscarSemaforo(name);
      if j == -1 {
        return -1;
      }
      if sems[j].value <= 0 {
        EjecucionABloqueado(k, now);
        sems := sems[j := sems[j].(blocked := sems[j].blocked + [k])];
      }
      sems := sems[j := sems[j].(value := sems[j].value - 1)];
      assert sems == old(sems)[j := sems[j]];
      return 0;
    }

    /** `decrementar_semaforo` */
    method DecrementarSemaforo(k: Id, name: string, now: real) returns (r: int)
      requires Inv(St()) && Live(St(), k)
      modifies this
      ensures Known(old(St()), k) && (St(), r) == Wait(old(St()), k, name, now)
      ensures Waited(old(St()), k, name, now, St(), r)
      ensures var j := SemNamed(old(sems), name);
              Inv(St()) <==> (j == -1 || old(sems)[j].value > 0 || old(threads)[k].estado.Execute?)
    {
      hide Inv;
      hide Wait;
      hide Waited;
      WaitExact(St(), k, name, now);
      WaitEffect(St(), k, name, now);
      r := Decrementar(k, name, now);
    }

    /** `incrementar_semaforo`, and `desbloquear_hilos_semaforo` when it succeeds, step by step. */
    method Incrementar(name: string) returns (r: int)
      requires HeadsKnown(St())
      modifies this
      ensures (St(), r) == Signal(old(St()), name)
    {
      hide Proc;
      hide SemNamed;
      hide BlockedToReady;
      var j := BuscarSemaforo(name);
      if j == -1 || sems[j].value == sems[j].max {
        return -1;
      }
      sems := sems[j := sems[j].(value := sems[j].value + 1)];
      if sems[j].blocked != [] {
        var primero := sems[j].blocked[0];
        assert Known(old(St()), primero);
        BlockedToReadySems(old(St()), primero, sems);
        assert St() == old(St()).(sems := sems);
        BloqueadoAListo(primero);
        sems := sems[j := sems[j].(blocked := sems[j].blocked[1..])];
      }
      assert sems == old(sems)[j := sems[j]];
      return 0;
    }

    /** `incrementar_semaforo` and `desbloquear_hilos_semaforo` */
    method SignalSemaforo(name: string) returns (r: int)
      requires Inv(St())
      modifies this
      ensures (St(), r) == Signal(old(St()), name) && Inv(St()) && Signalled(old(St()), name, St(), r)
    {
      hide Signalled;
      SignalEffect(St(), name);
      SignalKeeps(St(), name);
      forall j | 0 <= j < |sems| && sems[j].blocked != [] ensures Known(St(), sems[j].blocked[0]) {
        HeldBlocked(St(), j, sems[j].blocked[0]);
        AgreeKnown(St(), sems[j].blocked[0]);
      }
      hide Inv;
      hide Signal;
      r := Incrementar(name);
    }

    /** `estimar_ULTs_listos` */
    method EstimarULTsListos(l: seq<Id>)
      requires forall k | k in l :: k in threads
      modifies this`threads
      ensures threads == EstimateAll(old(threads), l, alpha)
    {
      ghost var th := threads;
      assert l[0..] == l;
      for i := 0 to |l|
        invariant threads.Keys == th.Keys
        invariant forall k | k in l[i..] :: k in threads
        invariant EstimateAll(th, l, alpha) == EstimateAll(threads, l[i..], alpha)
      {
        assert l[i..][0] == l[i] && l[i..][1..] == l[i + 1..];
        var ult := threads[l[i]];
        if ult.ejecutado {
          ult := ult.(ejecutado := false, estimacion := alpha * ult.rafaga + (1.0 - alpha) * ult.estimacion);
        }
        assert ult == Estimated(threads[l[i]], alpha);
        threads := threads[l[i] := ult];
      }
    }

    /** `sem_wait` and `ordenar_cola_listos` */
    method OrdenarColaListos(i: nat, ghost pid: int)
      requires ReadyAt(St(), i, pid)
      modifies this`threads, this`procs
      ensures St() == Ranked(old(St()), i, pid)
    {
      hide Proc;
      hide EstimateAll;
      hide Sorted;
      procs := procs[i := procs[i].(semaforoReady := procs[i].semaforoReady - 1)];
      var l := procs[i].ready;
      EstimarULTsListos(l);
      procs := procs[i := procs[i].(ready := Sorted(threads, l))];
      assert procs == old(procs)[i := procs[i]];
    }

    /** `obtener_proximo_ejecutar`, when it does not have to wait. */
    method ObtenerProximoEjecutar(pid: int, now: real) returns (u: Id)
      requires Inv(St()) && CanNext(St(), pid)
      modifies this
      ensures (St(), u) == Next(old(St()), pid, now) && Inv(St())
      ensures Dispatched(old(St()), pid, St(), u)
      ensures Proc(old(procs), pid) < |procs| && Picked(Candidates(old(St()), pid), St(), Proc(old(procs), pid), u)
    {
      hide Inv;
      hide Picked;
      hide Ranked;
      hide Proc;
      hide ReadyToExecute;
      hide ExecuteToReady;
      ghost var h := St();
      hide Dispatched;
      NextKeeps(h, pid, now);
      NextPicks(h, pid, now);
      NextEffect(h, pid, now);
      var i := BuscarProceso(pid);
      var execActual := procs[i].exec;
      if execActual.Running? {
        EjecucionAListo(execActual.k, now);
      }
      assert St() == PutBack(h, pid, now);
      OrdenarColaListos(i, pid);
      u := procs[i].ready[0];
      ListoAEjecucion(u, now);
    }
  }

  /** Whoever executes in the process of `k`, and `k` itself when it is listed there, are known. */
  ghost predicate CanReach(h: Scheduling, k: Id)
    requires Proc(h.procs, k.pid) != -1
  {
    var p := h.procs[Proc(h.procs, k.pid)];
    (p.exec.Running? ==> Known(h, p.exec.k)) && (k in p.ults ==> Known(h, k))
  }

  lemma JoinKnown(h: Scheduling, k: Id)
    requires Agree(h) && Proc(h.procs, k.pid) != -1
    ensures CanReach(h, k)
  {
    var i := Proc(h.procs, k.pid);
    assert Owns(h, h.procs[i]);
    if h.procs[i].exec.Running? {
      AgreeKnown(h, h.procs[i].exec.k);
    }
  }

  lemma StillKnown(h: Scheduling, g: Scheduling, l: seq<Id>)
    requires |g.procs| == |h.procs| && g.threads.Keys == h.threads.Keys
    requires forall i | 0 <= i < |h.procs| :: g.procs[i].id == h.procs[i].id
    requires forall j | j in l :: Known(h, j)
    ensures forall j | j in l :: Known(g, j)
  {
    forall j | j in l ensures Known(g, j) {
      SameProc(h.procs, g.procs, j.pid);
    }
  }

  lemma UnjoinNobody(h: Scheduling, u: Id)
    ensures UnjoinAll(h, u, []) == h
  {
  }

  /** Whoever heads a semaphore's list is known. */
  ghost predicate HeadsKnown(h: Scheduling)
  {
    forall j | 0 <= j < |h.sems| && h.sems[j].blocked != [] :: Known(h, h.sems[j].blocked[0])
  }

  /** What the steps of `close_tid` find when they are reached. */
  ghost predicate Closable(h: Scheduling, u: Id)
    requires Known(h, u)
  {
    && (forall j | j in h.threads[u].joinedBy :: Known(h, j))
    && var h1 := UnjoinAll(h, u, h.threads[u].joinedBy);
       && Known(h1, u)
       && var h2 := ToExit(h1, u);
          h2.newQueue != [] ==> Known(h2, h2.newQueue[0]) && h2.threads[h2.newQueue[0]].estado.New?
  }

  lemma CloseAdmits(h: Scheduling, u: Id)
    requires Inv(h) && Live(h, u)
    ensures Known(h, u) && Closable(h, u)
  {
    hide UnjoinAll;
    hide ToExit;
    hide Proc;
    CloseParts(h, u);
    forall j | j in h.threads[u].joinedBy ensures Known(h, j) {
      assert Mirrors(h, u, h.threads[u].joinedBy);
      assert JoinsTo(h, j, u);
      AgreeKnown(h, j);
    }
    var h2 := ToExit(UnjoinAll(h, u, h.threads[u].joinedBy), u);
    if h2.newQueue != [] {
      PlacedAt(h2, h2.newQueue[0]);
    }
  }

  /** Waking a thread and updating the semaphores commute. */
  lemma BlockedToReadySems(h: Scheduling, k: Id, ss: seq<Sem>)
    requires Known(h, k)
    ensures BlockedToReady(h.(sems := ss), k) == BlockedToReady(h, k).(sems := ss)
  {
    hide Proc;
    hide Remove;
  }
}
