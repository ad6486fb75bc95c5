/** Who waits for whom: joins and semaphores against the blocked threads, and admission under the cap. */
module Joins {
  import opened Lists
  import opened Scheduler
  import opened Agreement

  ghost predicate Live(h: Scheduling, k: Id)
  {
    k in h.threads && !h.threads[k].estado.Exit?
  }

  /** `k` has joined `v` and still waits for it. */
  ghost predicate JoinsTo(h: Scheduling, k: Id, v: Id)
  {
    k in h.threads && h.threads[k].joinTo == [v]
  }

  /** `l` lists the threads that wait for `v`, each once. */
  ghost predicate Mirrors(h: Scheduling, v: Id, l: seq<Id>)
  {
    NoRepeats(l) && forall k :: k in l <==> JoinsTo(h, k, v)
  }

  /** A thread waits for one live thread of its process at most, and only while blocked. */
  ghost predicate OneTarget(h: Scheduling, k: Id)
    requires k in h.threads
  {
    var t := h.threads[k];
    t.joinTo != [] ==> |t.joinTo| == 1 && Live(h, t.joinTo[0]) && t.joinTo[0].pid == k.pid && t.estado.Blocked?
  }

  ghost predicate InSem(h: Scheduling, j: int, k: Id)
  {
    0 <= j < |h.sems| && k in h.sems[j].blocked
  }

  function Deficit(value: int): (n: nat)
  {
    if value < 0 then -value else 0
  }

  ghost predicate SemSound(s: Sem)
  {
    s.value <= s.max && |s.blocked| == Deficit(s.value) && NoRepeats(s.blocked)
  }

  /** Semaphores are sound and share no thread; whoever they hold is blocked and has not joined. */
  ghost predicate SemsSound(h: Scheduling)
  {
    && (forall j | 0 <= j < |h.sems| :: SemSound(h.sems[j]))
    && (forall j, k | InSem(h, j, k) :: k in h.threads && h.threads[k].estado.Blocked? && h.threads[k].joinTo == [])
    && forall i, j, k | InSem(h, i, k) && InSem(h, j, k) :: i == j
  }

  /** A blocked thread has joined, or is held by a semaphore. */
  ghost predicate Reason(h: Scheduling, k: Id)
    requires k in h.threads
  {
    h.threads[k].estado.Blocked? ==> h.threads[k].joinTo != [] || exists j :: InSem(h, j, k)
  }

  /** While `u` is being closed, `rest` of its joiners are still to be released. */
  ghost predicate WaitsBut(h: Scheduling, u: Id, rest: seq<Id>)
  {
    && SemsSound(h)
    && (forall k | k in h.threads :: OneTarget(h, k))
    && (forall k | k in h.threads :: Reason(h, k))
    && forall v | Live(h, v) :: Mirrors(h, v, if v == u then rest else h.threads[v].joinedBy)
  }

  ghost predicate Waits(h: Scheduling)
  {
    && SemsSound(h)
    && (forall k | k in h.threads :: OneTarget(h, k))
    && (forall k | k in h.threads :: Reason(h, k))
    && forall v | Live(h, v) :: Mirrors(h, v, h.threads[v].joinedBy)
  }

  /** The cap holds, and nobody queues for admission below it. */
  ghost predicate Capped(h: Scheduling)
  {
    h.actual <= h.max && (h.newQueue != [] ==> h.actual == h.max)
  }

  ghost predicate Inv(h: Scheduling)
  {
    Agree(h) && Waits(h) && Capped(h)
  }

  /** Nothing a wait depends on is different. */
  ghost predicate SameWaits(h: Scheduling, g: Scheduling)
  {
    && g.threads.Keys == h.threads.Keys && g.sems == h.sems
    && forall k | k in h.threads ::
         && g.threads[k].joinTo == h.threads[k].joinTo && g.threads[k].joinedBy == h.threads[k].joinedBy
         && (g.threads[k].estado.Blocked? <==> h.threads[k].estado.Blocked?)
         && (g.threads[k].estado.Exit? <==> h.threads[k].estado.Exit?)
  }

  lemma SameWaitsKeep(h: Scheduling, g: Scheduling)
    requires Waits(h) && SameWaits(h, g)
    ensures Waits(g)
  {
    assert forall j, k :: InSem(g, j, k) == InSem(h, j, k);
    forall k | k in g.threads ensures OneTarget(g, k) {
      assert OneTarget(h, k);
    }
    forall k | k in g.threads ensures Reason(g, k) {
      assert Reason(h, k);
    }
    forall v | Live(g, v) ensures Mirrors(g, v, g.threads[v].joinedBy) {
      assert Live(h, v) && Mirrors(h, v, h.threads[v].joinedBy);
      assert forall k :: JoinsTo(g, k, v) == JoinsTo(h, k, v);
    }
  }

  // ----- releasing joiners -----

  /** The state a released joiner is left in. */
  function Awake(h: Scheduling): (e: Estado)
  {
    if Room(h) then Ready else New
  }

  lemma UnjoinEffect(h: Scheduling, u: Id, j: Id)
    requires Known(h, j) && h.threads[j].joinTo == [u] && h.threads[j].estado.Blocked?
    ensures var g := Unjoin(h, u, j);
            && g.actual == h.actual && g.max == h.max && g.sems == h.sems && g.alpha == h.alpha
            && g.threads == h.threads[j := h.threads[j].(joinTo := [], estado := Awake(h))]
            && g.newQueue == if Room(h) then h.newQueue else h.newQueue + [j]
  {
    hide Proc;
    assert Remove([u], u) == [];
  }

  lemma UnjoinWaits(h: Scheduling, u: Id, l: seq<Id>)
    requires Agree(h) && l != [] && WaitsBut(h, u, l) && Live(h, u)
    ensures Known(h, l[0]) && h.threads[l[0]].joinTo == [u] && h.threads[l[0]].estado.Blocked?
    ensures WaitsBut(Unjoin(h, u, l[0]), u, l[1..])
  {
    hide Agree;
    hide Unjoin;
    hide SemsSound;
    var j := l[0];
    assert JoinsTo(h, j, u) by {
      assert Mirrors(h, u, l);
    }
    assert OneTarget(h, j);
    AgreeKnown(h, j);
    UnjoinEffect(h, u, j);
    ReleasedWaits(h, Unjoin(h, u, j), u, l, Awake(h));
  }

  lemma ReleasedWaits(h: Scheduling, g: Scheduling, u: Id, l: seq<Id>, e: Estado)
    requires l != [] && WaitsBut(h, u, l) && Live(h, u) && l[0] in h.threads && h.threads[l[0]].joinTo == [u]
    requires g.threads == h.threads[l[0] := h.threads[l[0]].(joinTo := [], estado := e)] && (e.New? || e.Ready?)
    requires g.sems == h.sems
    ensures WaitsBut(g, u, l[1..])
  {
    hide Mirrors;
    assert forall i, k :: InSem(g, i, k) == InSem(h, i, k);
    forall k | k in g.threads ensures OneTarget(g, k) {
      assert OneTarget(h, k);
    }
    forall k | k in g.threads ensures Reason(g, k) {
      assert Reason(h, k);
    }
    forall v | Live(g, v) ensures Mirrors(g, v, if v == u then l[1..] else g.threads[v].joinedBy) {
      assert Live(h, v);
      ReleasedMirrors(h, g, u, v, l, e);
    }
  }

  lemma AgreeKnown(h: Scheduling, k: Id)
    requires Agree(h) && k in h.threads
    ensures Known(h, k)
  {
    assert Placed(h, k);
  }

  lemma ReleasedMirrors(h: Scheduling, g: Scheduling, u: Id, v: Id, l: seq<Id>, e: Estado)
    requires l != [] && v in h.threads && l[0] in h.threads && h.threads[l[0]].joinTo == [u]
    requires Mirrors(h, v, if v == u then l else h.threads[v].joinedBy)
    requires g.threads == h.threads[l[0] := h.threads[l[0]].(joinTo := [], estado := e)]
    ensures Mirrors(g, v, if v == u then l[1..] else g.threads[v].joinedBy)
  {
    if v == u {
      forall k ensures k in l[1..] <==> JoinsTo(g, k, v) {
        assert k in l <==> JoinsTo(h, k, v);
        assert k in l <==> k == l[0] || k in l[1..];
      }
    } else {
      forall k ensures k in g.threads[v].joinedBy <==> JoinsTo(g, k, v) {
        assert k in h.threads[v].joinedBy <==> JoinsTo(h, k, v);
      }
    }
  }

  lemma UnjoinAgrees(h: Scheduling, u: Id, j: Id)
    requires Agree(h) && Known(h, j) && h.threads[j].estado.Blocked? && h.threads[j].joinTo == [u]
    ensures Agree(Unjoin(h, u, j))
  {
    hide Agree;
    var t := h.threads[j].(joinTo := []);
    assert Remove([u], u) == [];
    var h1 := SetThread(h, j, t);
    RetouchAgrees(h, h.threads[j := t]);
    if Room(h1) {
      BlockedToReadyAgrees(h1, j);
    } else {
      RequeuedAgrees(h1, j);
    }
  }

  ghost predicate Woken(h: Scheduling, u: Id, l: seq<Id>, g: Scheduling)
  {
    g.threads.Keys == h.threads.Keys &&
    forall k | k in h.threads ::
      if k in l then h.threads[k].joinTo == [u] && g.threads[k] == h.threads[k].(joinTo := [], estado := Awake(h))
      else g.threads[k] == h.threads[k]
  }

  /**
   `desjoinear`: every listed joiner wakes up, in the ready list or at the end of the new queue,
   and nobody else changes.
   */
  lemma {:induction false} UnjoinAllKeeps(h: Scheduling, u: Id, l: seq<Id>)
    requires Agree(h) && Capped(h) && WaitsBut(h, u, l) && Live(h, u)
    ensures var g := UnjoinAll(h, u, l);
            && Agree(g) && Capped(g) && WaitsBut(g, u, [])
            && g.actual == h.actual && g.max == h.max && g.sems == h.sems && g.alpha == h.alpha
            && g.newQueue == if Room(h) then h.newQueue else h.newQueue + l
    ensures Woken(h, u, l, UnjoinAll(h, u, l))
    decreases |l|
  {
    hide Proc;
    hide Remove;
    hide Agree;
    hide WaitsBut;
    hide Unjoin;
    hide Awake;
    hide Live;
    hide Woken;
    if l != [] {
      var j := l[0];
      UnjoinWaits(h, u, l);
      UnjoinEffect(h, u, j);
      UnjoinAgrees(h, u, j);
      var g := Unjoin(h, u, j);
      SameAwake(h, g);
      StillLive(h, g, u, j);
      UnjoinAllKeeps(g, u, l[1..]);
      assert l == [j] + l[1..];
      WokenOn(h, g, UnjoinAll(g, u, l[1..]), u, l);
    } else {
      WokenNone(h, u);
    }
  }

  lemma SameAwake(h: Scheduling, g: Scheduling)
    requires g.actual == h.actual && g.max == h.max
    ensures Awake(g) == Awake(h)
  {
  }

  lemma StillLive(h: Scheduling, g: Scheduling, u: Id, j: Id)
    requires Live(h, u) && j in h.threads
    requires g.threads == h.threads[j := h.threads[j].(joinTo := [], estado := Awake(h))]
    ensures Live(g, u)
  {
  }

  lemma WokenNone(h: Scheduling, u: Id)
    ensures Woken(h, u, [], h)
  {
  }

  lemma WokenOn(h: Scheduling, g: Scheduling, r: Scheduling, u: Id, l: seq<Id>)
    requires l != [] && l[0] in h.threads && h.threads[l[0]].joinTo == [u] && Woken(g, u, l[1..], r)
    requires g.threads == h.threads[l[0] := h.threads[l[0]].(joinTo := [], estado := Awake(h))]
    requires Awake(g) == Awake(h)
    ensures Woken(h, u, l, r)
  {
    assert l == [l[0]] + l[1..];
  }

  // ----- close -----

  lemma WaitsOfAll(h: Scheduling, u: Id)
    requires Waits(h) && Live(h, u)
    ensures WaitsBut(h, u, h.threads[u].joinedBy)
  {
  }

  lemma ExitWaits(h: Scheduling, g: Scheduling, u: Id)
    requires WaitsBut(h, u, []) && Live(h, u) && !h.threads[u].estado.Blocked?
    requires g.threads == h.threads[u := h.threads[u].(estado := Exit)] && g.sems == h.sems
    ensures Waits(g)
  {
    assert forall i, k :: InSem(g, i, k) == InSem(h, i, k);
    assert Mirrors(h, u, []);
    forall k | k in g.threads ensures OneTarget(g, k) {
      assert OneTarget(h, k);
      assert k in [] <==> JoinsTo(h, k, u);
      if h.threads[k].joinTo != [] {
        assert h.threads[k].joinTo == [h.threads[k].joinTo[0]];
      }
    }
    forall k | k in g.threads ensures Reason(g, k) {
      assert Reason(h, k);
    }
    forall v | Live(g, v) ensures Mirrors(g, v, g.threads[v].joinedBy) {
      assert Live(h, v) && Mirrors(h, v, h.threads[v].joinedBy);
      assert forall k :: JoinsTo(g, k, v) == JoinsTo(h, k, v);
    }
  }

  lemma ToExitEffect(h: Scheduling, u: Id)
    requires Agree(h) && Live(h, u)
    ensures Known(h, u)
    ensures var g := ToExit(h, u);
            && g.threads == h.threads[u := h.threads[u].(estado := Exit)] && g.sems == h.sems && g.max == h.max
            && g.alpha == h.alpha
            && g.actual == h.actual - One(!h.threads[u].estado.New?)
            && g.newQueue == if h.threads[u].estado.New? then Remove(h.newQueue, u) else h.newQueue
  {
    AgreeKnown(h, u);
  }

  /** The head of the new queue is admitted. */
  lemma AdmitKeeps(h: Scheduling)
    requires Agree(h) && Waits(h) && h.actual < h.max && (h.newQueue != [] ==> h.actual == h.max - 1)
    ensures Inv(Admit(h))
    ensures h.newQueue != [] ==>
      var k := h.newQueue[0];
      && k in h.threads && h.threads[k].estado.New?
      && Admit(h).threads == h.threads[k := h.threads[k].(estado := Ready)] && Admit(h).newQueue == h.newQueue[1..]
    ensures h.newQueue == [] ==> Admit(h) == h
  {
    if h.newQueue != [] {
      hide Waits;
      hide SameWaits;
      var k := h.newQueue[0];
      PlacedAt(h, k);
      NewToReadyAgrees(h, k);
      AdmittedWaits(h, k);
    }
  }

  lemma AdmittedWaits(h: Scheduling, k: Id)
    requires Waits(h) && k in h.threads && h.threads[k].estado.New? && Known(h, k)
    ensures Waits(NewToReady(h, k))
  {
    hide Waits;
    SameWaitsKeep(h, NewToReady(h, k));
  }

  /** Before anyone is admitted: the joiners awake, the thread gone, everyone else as before. */
  ghost predicate Parted(h: Scheduling, u: Id, h2: Scheduling)
  {
    && u in h.threads && h2.threads.Keys == h.threads.Keys && h2.sems == h.sems && h2.max == h.max
    && (forall k | k in h.threads && k != u ::
          h2.threads[k] == if h.threads[k].joinTo == [u] then h.threads[k].(joinTo := [], estado := Awake(h))
                           else h.threads[k])
    && h2.threads[u] == h.threads[u].(joinTo := h2.threads[u].joinTo, estado := Exit)
    && (h.threads[u].joinTo != [u] ==> h2.threads[u].joinTo == h.threads[u].joinTo)
  }

  /** One place less is taken, and whoever is queued now comes after whoever was. */
  ghost predicate Vacated(h: Scheduling, u: Id, h2: Scheduling)
    requires u in h.threads
  {
    && h2.actual == h.actual - 1 < h2.max && (h2.newQueue != [] ==> h2.actual == h2.max - 1)
    && h2.newQueue == if Room(h) then h.newQueue else h.newQueue + h.threads[u].joinedBy
  }

  lemma CloseParts(h: Scheduling, u: Id)
    requires Inv(h) && Live(h, u)
    ensures Known(h, u)
    ensures var h1 := UnjoinAll(h, u, h.threads[u].joinedBy);
            && Known(h1, u) && Agree(ToExit(h1, u)) && Parted(h, u, ToExit(h1, u))
            && (if h1.threads[u].estado.New? then Capped(ToExit(h1, u)) else Vacated(h, u, ToExit(h1, u)))
            && (h1.threads[u].estado.New? ==> h.threads[u].estado.New? || h.threads[u].joinTo == [u])
            && (!h.threads[u].estado.Blocked? || h.threads[u].joinTo == [u] ==> Waits(ToExit(h1, u)))
  {
    hide Agree;
    hide Waits;
    hide WaitsBut;
    hide ToExit;
    hide UnjoinAll;
    AgreeKnown(h, u);
    hide Woken;
    hide Parted;
    var l := h.threads[u].joinedBy;
    WaitsOfAll(h, u);
    UnjoinAllKeeps(h, u, l);
    var h1 := UnjoinAll(h, u, l);
    WokenSelf(h, u, h1);
    ToExitEffect(h1, u);
    ToExitAgrees(h1, u);
    PartedIs(h, u, h1, ToExit(h1, u));
    assert Remove(h1.newQueue, u) != [] ==> h1.newQueue != [];
    if !h1.threads[u].estado.Blocked? {
      ExitWaits(h1, ToExit(h1, u), u);
    }
  }

  lemma WokenSelf(h: Scheduling, u: Id, h1: Scheduling)
    requires Waits(h) && Live(h, u) && Woken(h, u, h.threads[u].joinedBy, h1)
    ensures Live(h1, u)
    ensures h1.threads[u].estado == if h.threads[u].joinTo == [u] then Awake(h) else h.threads[u].estado
  {
    SelfJoined(h, u);
  }

  lemma PartedIs(h: Scheduling, u: Id, h1: Scheduling, h2: Scheduling)
    requires Waits(h) && Live(h, u) && Woken(h, u, h.threads[u].joinedBy, h1) && u in h1.threads
    requires h2.threads == h1.threads[u := h1.threads[u].(estado := Exit)] && h2.sems == h.sems && h2.max == h.max
    ensures Parted(h, u, h2)
  {
    forall k | k in h.threads ensures k in h.threads[u].joinedBy <==> h.threads[k].joinTo == [u] {
      JoinerListed(h, u, k);
    }
  }

  /** Closing any thread that is not blocked on someone else keeps everything. */
  lemma CloseKeeps(h: Scheduling, u: Id)
    requires Inv(h) && Live(h, u) && (h.threads[u].estado.Blocked? ==> h.threads[u].joinTo == [u])
    ensures Known(h, u) && Inv(Close(h, u))
  {
    hide Agree;
    hide Waits;
    hide Admit;
    hide ToExit;
    hide UnjoinAll;
    CloseParts(h, u);
    var h1 := UnjoinAll(h, u, h.threads[u].joinedBy);
    if !h1.threads[u].estado.New? {
      AdmitKeeps(ToExit(h1, u));
    }
  }

  lemma SelfJoined(h: Scheduling, u: Id)
    requires Waits(h) && Live(h, u)
    ensures h.threads[u].joinTo == [u] <==> u in h.threads[u].joinedBy
  {
    assert Mirrors(h, u, h.threads[u].joinedBy);
    assert u in h.threads[u].joinedBy <==> JoinsTo(h, u, u);
  }

  /** A thread blocked on someone else, or on a semaphore, stays in that list when it is closed: the invariant goes. */
  lemma CloseBlockedBreaks(h: Scheduling, u: Id)
    requires Inv(h) && Live(h, u) && h.threads[u].estado.Blocked? && h.threads[u].joinTo != [u]
    ensures Known(h, u) && !Waits(Close(h, u))
  {
    hide Agree;
    hide WaitsBut;
    hide Admit;
    hide ToExit;
    hide UnjoinAll;
    AgreeKnown(h, u);
    WaitsOfAll(h, u);
    SelfJoined(h, u);
    UnjoinAllKeeps(h, u, h.threads[u].joinedBy);
    var h1 := UnjoinAll(h, u, h.threads[u].joinedBy);
    ToExitEffect(h1, u);
    ToExitAgrees(h1, u);
    var h2 := ToExit(h1, u);
    AdmitLeaves(h2, u);
    var g := Close(h, u);
    assert g.sems == h.sems && g.threads[u] == h.threads[u].(estado := Exit);
    assert Reason(h, u);
    if h.threads[u].joinTo != [] {
      assert !OneTarget(g, u);
    } else {
      var j :| InSem(h, j, u);
      assert InSem(g, j, u);
    }
  }

  lemma AdmitLeaves(h: Scheduling, u: Id)
    requires Agree(h) && u in h.threads && h.threads[u].estado.Exit?
    ensures Admit(h).sems == h.sems && u in Admit(h).threads && Admit(h).threads[u] == h.threads[u]
  {
    if h.newQueue != [] {
      PlacedAt(h, h.newQueue[0]);
    }
  }

  /** When `close_tid` keeps the scheduler sound. */
  lemma CloseExact(h: Scheduling, u: Id)
    requires Inv(h) && Live(h, u)
    ensures Known(h, u)
    ensures Inv(Close(h, u)) <==> (h.threads[u].estado.Blocked? ==> h.threads[u].joinTo == [u])
  {
    hide Agree;
    hide Waits;
    hide Close;
    AgreeKnown(h, u);
    if h.threads[u].estado.Blocked? && h.threads[u].joinTo != [u] {
      CloseBlockedBreaks(h, u);
    } else {
      CloseKeeps(h, u);
    }
  }

  /**
   Who a close touches: the thread itself; its joiners, all of them, now waiting for nobody; and
   the head of the new queue, which it may admit. Everyone else is as before.
   */
  ghost predicate Released(h: Scheduling, u: Id, g: Scheduling, k: Id)
  {
    k in h.threads && k in g.threads &&
    var t, r := h.threads[k], g.threads[k];
    if k == u then r.estado.Exit?
    else if t.joinTo == [u] then
      r == t.(joinTo := [], estado := r.estado) && (r.estado.Ready? || r.estado.New?) && (Room(h) ==> r.estado.Ready?)
    else r == t || (t.estado.New? && h.newQueue != [] && k == h.newQueue[0] && r == t.(estado := Ready))
  }

  lemma CloseReleases(h: Scheduling, u: Id, k: Id)
    requires Inv(h) && Live(h, u) && (h.threads[u].estado.Blocked? ==> h.threads[u].joinTo == [u])
    requires k in h.threads
    ensures Known(h, u) && Released(h, u, Close(h, u), k)
  {
    hide Agree;
    hide Waits;
    hide Admit;
    hide ToExit;
    hide UnjoinAll;
    CloseParts(h, u);
    var h1 := UnjoinAll(h, u, h.threads[u].joinedBy);
    if !h1.threads[u].estado.New? {
      var h2 := ToExit(h1, u);
      AdmitKeeps(h2);
      if h2.newQueue != [] && k == h2.newQueue[0] && h.newQueue == [] {
        assert k in h.threads[u].joinedBy;
      }
      JoinerListed(h, u, k);
    }
  }

  lemma JoinerListed(h: Scheduling, u: Id, k: Id)
    requires Waits(h) && Live(h, u) && k in h.threads
    ensures h.threads[k].joinTo == [u] <==> k in h.threads[u].joinedBy
  {
    assert Mirrors(h, u, h.threads[u].joinedBy);
    assert k in h.threads[u].joinedBy <==> JoinsTo(h, k, u);
  }

  // ----- join -----

  /** What `join` needs to happen: an executing thread and a living target in its process. */
  ghost predicate Joinable(h: Scheduling, e: Id, k: Id)
  {
    Live(h, e) && Live(h, k) && h.threads[e].estado.Execute? && e.pid == k.pid
  }

  /** `e` has joined `k` and is blocked. */
  ghost predicate Joined(h: Scheduling, g: Scheduling, e: Id, k: Id)
    requires e in h.threads && k in h.threads
  {
    && g.threads.Keys == h.threads.Keys && g.sems == h.sems
    && (forall x | x in h.threads :: g.threads[x].joinedBy == h.threads[x].joinedBy + if x == k then [e] else [])
    && (forall x | x in h.threads && x != e ::
          g.threads[x].joinTo == h.threads[x].joinTo && g.threads[x].estado == h.threads[x].estado)
    && g.threads[e].joinTo == [k] && g.threads[e].estado.Blocked?
  }

  lemma JoinWaits(h: Scheduling, g: Scheduling, e: Id, k: Id)
    requires Waits(h) && Joinable(h, e, k) && Joined(h, g, e, k)
    ensures Waits(g)
  {
    hide Mirrors;
    assert OneTarget(h, e);
    assert forall i, x :: InSem(g, i, x) == InSem(h, i, x);
    forall x | x in g.threads ensures OneTarget(g, x) {
      assert OneTarget(h, x);
    }
    forall x | x in g.threads ensures Reason(g, x) {
      assert Reason(h, x);
    }
    forall v | Live(g, v) ensures Mirrors(g, v, g.threads[v].joinedBy) {
      assert Live(h, v) && Mirrors(h, v, h.threads[v].joinedBy);
      JoinMirrors(h, g, e, k, v);
    }
  }

  lemma JoinMirrors(h: Scheduling, g: Scheduling, e: Id, k: Id, v: Id)
    requires Joinable(h, e, k) && Joined(h, g, e, k) && h.threads[e].joinTo == []
    requires v in h.threads && Mirrors(h, v, h.threads[v].joinedBy)
    ensures Mirrors(g, v, g.threads[v].joinedBy)
  {
    var l := h.threads[v].joinedBy;
    assert e in l <==> JoinsTo(h, e, v);
    forall x ensures x in g.threads[v].joinedBy <==> JoinsTo(g, x, v) {
      assert x in l <==> JoinsTo(h, x, v);
    }
  }

  lemma JoinKeeps(h: Scheduling, k: Id, now: real)
    requires Inv(h) && Proc(h.procs, k.pid) != -1
    ensures Inv(JoinThread(h, k, now))
  {
    hide Waits;
    hide Placed;
    var i := Proc(h.procs, k.pid);
    var p := h.procs[i];
    assert Owns(h, p);
    if p.exec.Running? && k in p.ults {
      var e := p.exec.k;
      ExecutingAt(h, i, e);
      ListedLives(h, k);
      JoinApart(h, e, k, now);
    }
  }

  lemma ExecutingAt(h: Scheduling, i: nat, e: Id)
    requires Queues(h) && i < |h.procs| && h.procs[i].exec == Running(e)
    ensures e in h.threads && h.threads[e].estado.Execute? && e.pid == h.procs[i].id && Proc(h.procs, e.pid) == i
  {
    assert Owns(h, h.procs[i]);
    ProcUnique(h.procs, i);
    assert Placed(h, e);
  }

  lemma ListedLives(h: Scheduling, k: Id)
    requires Queues(h) && k in h.threads && Proc(h.procs, k.pid) != -1
    ensures k in h.procs[Proc(h.procs, k.pid)].ults <==> Live(h, k)
  {
    assert Placed(h, k);
  }

  lemma JoinApart(h: Scheduling, e: Id, k: Id, now: real)
    requires Inv(h) && Joinable(h, e, k) && Known(h, e) && Known(h, k)
    requires h.procs[Proc(h.procs, k.pid)].exec == Running(e) && k in h.procs[Proc(h.procs, k.pid)].ults
    ensures Inv(JoinThread(h, k, now))
  {
    hide Agree;
    hide Waits;
    assert OneTarget(h, e) by {
      TargetOf(h, e);
    }
    var h1 := SetThread(h, e, h.threads[e].(joinTo := h.threads[e].joinTo + [k]));
    var h2 := SetThread(h1, k, h1.threads[k].(joinedBy := h1.threads[k].joinedBy + [e]));
    RetouchAgrees(h, h2.threads);
    assert h2 == h.(threads := h2.threads);
    ExecuteToBlockedAgrees(h2, e, now);
    var g := ExecuteToBlocked(h2, e, now);
    JoinWaits(h, g, e, k);
  }

  lemma TargetOf(h: Scheduling, k: Id)
    requires Waits(h) && k in h.threads
    ensures OneTarget(h, k)
  {
  }

  // ----- semaphores -----

  lemma BlockedWaits(h: Scheduling, g: Scheduling, k: Id, j: nat, r: real)
    requires Waits(h) && k in h.threads && h.threads[k].estado.Execute? && j < |h.sems| && h.sems[j].value <= 0
    requires g.threads == h.threads[k := h.threads[k].(estado := Blocked, rafaga := r)]
    requires g.sems == h.sems[j := h.sems[j].(value := h.sems[j].value - 1, blocked := h.sems[j].blocked + [k])]
    ensures Waits(g)
  {
    assert OneTarget(h, k);
    assert forall i, x :: InSem(g, i, x) == (InSem(h, i, x) || (i == j && x == k));
    assert SemSound(h.sems[j]);
    assert !InSem(h, j, k);
    forall x | x in g.threads ensures OneTarget(g, x) {
      assert OneTarget(h, x);
    }
    forall x | x in g.threads ensures Reason(g, x) {
      assert Reason(h, x);
      if x == k {
        assert InSem(g, j, k);
      } else if h.threads[x].estado.Blocked? && h.threads[x].joinTo == [] {
        var i :| InSem(h, i, x);
        assert InSem(g, i, x);
      }
    }
    forall v | Live(g, v) ensures Mirrors(g, v, g.threads[v].joinedBy) {
      assert Live(h, v) && Mirrors(h, v, h.threads[v].joinedBy);
      assert forall x :: JoinsTo(g, x, v) == JoinsTo(h, x, v);
    }
  }

  /** Only the value of one semaphore is different. */
  lemma RevaluedWaits(h: Scheduling, j: nat, n: int)
    requires Waits(h) && j < |h.sems| && n <= h.sems[j].max && Deficit(n) == Deficit(h.sems[j].value)
    ensures Waits(h.(sems := h.sems[j := h.sems[j].(value := n)]))
  {
    var g := h.(sems := h.sems[j := h.sems[j].(value := n)]);
    assert forall i, x :: InSem(g, i, x) == InSem(h, i, x);
    assert SemSound(h.sems[j]);
    forall x | x in g.threads ensures OneTarget(g, x) {
      assert OneTarget(h, x);
    }
    forall x | x in g.threads ensures Reason(g, x) {
      assert Reason(h, x);
    }
    forall v | Live(g, v) ensures Mirrors(g, v, g.threads[v].joinedBy) {
      assert Live(h, v) && Mirrors(h, v, h.threads[v].joinedBy);
      assert forall x :: JoinsTo(g, x, v) == JoinsTo(h, x, v);
    }
  }

  lemma WaitKeeps(h: Scheduling, k: Id, name: string, now: real)
    requires Inv(h) && Live(h, k)
    requires var j := SemNamed(h.sems, name); j == -1 || h.sems[j].value > 0 || h.threads[k].estado.Execute?
    ensures Known(h, k) && Inv(Wait(h, k, name, now).0)
  {
    hide Agree;
    hide Waits;
    AgreeKnown(h, k);
    var j := SemNamed(h.sems, name);
    if j != -1 {
      SoundSem(h, j);
      var g := Wait(h, k, name, now).0;
      if h.sems[j].value > 0 {
        SemsAgree(h, g.sems);
        RevaluedWaits(h, j, h.sems[j].value - 1);
      } else {
        ExecuteToBlockedAgrees(h, k, now);
        SemsAgree(ExecuteToBlocked(h, k, now), g.sems);
        BlockedWaits(h, g, k, j, g.threads[k].rafaga);
      }
    }
  }

  lemma SoundSem(h: Scheduling, j: nat)
    requires Waits(h) && j < |h.sems|
    ensures SemSound(h.sems[j])
  {
  }

  lemma FreedWaits(h: Scheduling, g: Scheduling, j: nat)
    requires Waits(h) && j < |h.sems| && h.sems[j].blocked != [] && h.sems[j].value != h.sems[j].max
    requires h.sems[j].blocked[0] in h.threads
    requires g.threads == h.threads[h.sems[j].blocked[0] := h.threads[h.sems[j].blocked[0]].(estado := Ready)]
    requires g.sems == h.sems[j := h.sems[j].(value := h.sems[j].value + 1, blocked := h.sems[j].blocked[1..])]
    ensures Waits(g)
  {
    var l := h.sems[j].blocked;
    var k := l[0];
    assert InSem(h, j, k);
    assert SemSound(h.sems[j]);
    assert l == [k] + l[1..] && k !in l[1..];
    assert NoRepeats(l[1..]);
    assert forall i, x :: InSem(g, i, x) == (InSem(h, i, x) && x != k) by {
      forall i, x ensures InSem(g, i, x) == (InSem(h, i, x) && x != k) {
        assert InSem(h, i, k) ==> i == j;
      }
    }
    forall x | x in g.threads ensures OneTarget(g, x) {
      assert OneTarget(h, x);
    }
    forall x | x in g.threads ensures Reason(g, x) {
      assert Reason(h, x);
      if x != k && h.threads[x].estado.Blocked? && h.threads[x].joinTo == [] {
        var i :| InSem(h, i, x);
        assert InSem(g, i, x);
      }
    }
    forall v | Live(g, v) ensures Mirrors(g, v, g.threads[v].joinedBy) {
      assert Live(h, v) && Mirrors(h, v, h.threads[v].joinedBy);
      assert forall x :: JoinsTo(g, x, v) == JoinsTo(h, x, v);
    }
  }

  lemma SignalKeeps(h: Scheduling, name: string)
    requires Inv(h)
    ensures Inv(Signal(h, name).0)
  {
    hide Agree;
    hide Waits;
    var j := SemNamed(h.sems, name);
    if j != -1 && h.sems[j].value != h.sems[j].max {
      SoundSem(h, j);
      var g := Signal(h, name).0;
      if h.sems[j].blocked == [] {
        SemsAgree(h, g.sems);
        RevaluedWaits(h, j, h.sems[j].value + 1);
      } else {
        var k := h.sems[j].blocked[0];
        HeldBlocked(h, j, k);
        AgreeKnown(h, k);
        BlockedToReadyAgrees(h, k);
        SemsAgree(BlockedToReady(h, k), g.sems);
        FreedWaits(h, g, j);
      }
    }
  }

  lemma HeldBlocked(h: Scheduling, j: nat, k: Id)
    requires Waits(h) && j < |h.sems| && k in h.sems[j].blocked
    ensures k in h.threads && h.threads[k].estado.Blocked? && h.threads[k].joinTo == []
  {
    assert InSem(h, j, k);
  }

  // ----- create -----

  lemma BornWaits(h: Scheduling, g: Scheduling, k: Id)
    requires Waits(h) && !Live(h, k) && g.sems == h.sems
    requires g.threads == h.threads[k := Thread(New, 0.0, false, 0.0, [], [])]
    ensures Waits(g)
  {
    assert forall i, x :: InSem(g, i, x) == InSem(h, i, x);
    if k in h.threads {
      assert OneTarget(h, k);
    }
    forall x | x in g.threads ensures OneTarget(g, x) {
      assert x != k ==> OneTarget(h, x);
    }
    forall x | x in g.threads ensures Reason(g, x) {
      assert x != k ==> Reason(h, x);
    }
    forall v | Live(g, v) ensures Mirrors(g, v, g.threads[v].joinedBy) {
      if v == k {
        forall x ensures !JoinsTo(g, x, k) {
          assert x in h.threads ==> OneTarget(h, x);
        }
      } else {
        assert Live(h, v) && Mirrors(h, v, h.threads[v].joinedBy);
        assert forall x :: JoinsTo(g, x, v) == JoinsTo(h, x, v);
      }
    }
  }

  /** A number no live thread has may be taken, again if need be. */
  lemma CreateKeeps(h: Scheduling, k: Id, now: real)
    requires Inv(h) && !Live(h, k)
    ensures Inv(Create(h, k, now))
  {
    hide Agree;
    hide Waits;
    hide SameWaits;
    if Proc(h.procs, k.pid) == -1 {
      var h1 := h.(procs := h.procs + [Process(k.pid, [], [], Idle, 0)]);
      NewProcessAgrees(h, k.pid);
      ProcAppend(h.procs, h1.procs[|h.procs|], k.pid);
      BornAgrees(h1, k);
      var h2 := Born(h1, k);
      BornWaits(h, h2, k);
      if Room(h2) {
        NewToExecuteAgrees(h2, k, now);
        StartedWaits(h2, NewToExecute(h2, k, now));
      }
    } else {
      BornAgrees(h, k);
      var h2 := Born(h, k);
      BornWaits(h, h2, k);
      if Room(h2) {
        assert h2.newQueue == [k];
        NewToReadyAgrees(h2, k);
        StartedWaits(h2, NewToReady(h2, k));
      }
    }
  }

  lemma StartedWaits(h: Scheduling, g: Scheduling)
    requires Waits(h) && SameWaits(h, g)
    ensures Waits(g)
  {
    SameWaitsKeep(h, g);
  }

  // ----- next -----

  lemma {:induction false} EstimateAllAt(th: map<Id, Thread>, l: seq<Id>, alpha: real, k: Id)
    requires (forall x | x in l :: x in th) && k in th
    ensures EstimateAll(th, l, alpha)[k] == if k in l then Estimated(th[k], alpha) else th[k]
    decreases |l|
  {
    if l != [] {
      assert l == [l[0]] + l[1..];
      EstimateAllAt(th[l[0] := Estimated(th[l[0]], alpha)], l[1..], alpha, k);
    }
  }

  lemma NextEnabled(h: Scheduling, pid: int)
    requires Agree(h)
    ensures CanNext(h, pid) <==>
      var i := Proc(h.procs, pid); i != -1 && (h.procs[i].exec.Running? || h.procs[i].ready != [])
  {
    var i := Proc(h.procs, pid);
    if i != -1 {
      assert Owns(h, h.procs[i]);
      forall k | k in h.procs[i].ready ensures Known(h, k) {
        assert Placed(h, k);
      }
      if h.procs[i].exec.Running? {
        assert Placed(h, h.procs[i].exec.k);
      }
    }
  }

  lemma PutBackAgrees(h: Scheduling, pid: int, now: real)
    requires Agree(h) && CanNext(h, pid)
    ensures var g, i := PutBack(h, pid, now), Proc(h.procs, pid);
            Agree(g) && g.procs[i].exec.Idle? && SameWaits(h, g)
            && g.actual == h.actual && g.max == h.max && g.newQueue == h.newQueue && g.sems == h.sems
            && g.alpha == h.alpha
  {
    hide Agree;
    var i := Proc(h.procs, pid);
    if h.procs[i].exec.Running? {
      ExecutingOf(h, i);
      ExecuteToReadyAgrees(h, h.procs[i].exec.k, now);
    }
  }

  lemma ExecutingOf(h: Scheduling, i: nat)
    requires Agree(h) && i < |h.procs| && h.procs[i].exec.Running?
    ensures var e := h.procs[i].exec.k; e in h.threads && h.threads[e].estado.Execute? && Proc(h.procs, e.pid) == i
  {
    ExecutingAt(h, i, h.procs[i].exec.k);
  }

  lemma RankedAgrees(h: Scheduling, i: nat, pid: int)
    requires Agree(h) && ReadyAt(h, i, pid)
    ensures var g := Ranked(h, i, pid);
            && Agree(SetProc(g, i, g.procs[i].(semaforoReady := g.procs[i].semaforoReady + 1)))
            && g.procs[i].ready != [] && g.procs[i].ready[0] in g.threads
            && g.threads[g.procs[i].ready[0]].estado.Ready?
            && g.procs[i].exec == h.procs[i].exec && SameWaits(h, g)
            && g.actual == h.actual && g.max == h.max && g.newQueue == h.newQueue
  {
    hide Agree;
    hide Proc;
    hide EstimateAll;
    hide Sorted;
    hide Estimated;
    var q := h.procs[i];
    var th := EstimateAll(h.threads, q.ready, h.alpha);
    forall k | k in h.threads ensures
      && th[k].estado == h.threads[k].estado && th[k].joinTo == h.threads[k].joinTo
      && th[k].joinedBy == h.threads[k].joinedBy
    {
      EstimateAllAt(h.threads, q.ready, h.alpha, k);
      EstimateOnly(h.threads[k], h.alpha);
    }
    RetouchAgrees(h, th);
    var h1 := h.(threads := th);
    var l := Sorted(th, q.ready);
    ReorderAgrees(h1, i, l);
    var b := SetProc(h1, i, q.(ready := l));
    var g := Ranked(h, i, pid);
    assert b.procs == g.procs[i := g.procs[i].(semaforoReady := g.procs[i].semaforoReady + 1)];
    assert b == SetProc(g, i, g.procs[i].(semaforoReady := g.procs[i].semaforoReady + 1));
    ReadyState(b, i, l[0]);
  }

  lemma EstimateOnly(t: Thread, alpha: real)
    ensures Estimated(t, alpha) == t.(ejecutado := false, estimacion := Estimated(t, alpha).estimacion)
  {
  }

  lemma ReadyState(h: Scheduling, i: nat, k: Id)
    requires Agree(h) && i < |h.procs| && k in h.procs[i].ready
    ensures k in h.threads && h.threads[k].estado.Ready? && Proc(h.procs, k.pid) == i
  {
    assert Owns(h, h.procs[i]);
    ProcUnique(h.procs, i);
    assert Placed(h, k);
  }

  /** `schedule_next` keeps everything, whenever it does not have to wait. */
  lemma NextKeeps(h: Scheduling, pid: int, now: real)
    requires Inv(h) && CanNext(h, pid)
    ensures Inv(Next(h, pid, now).0)
  {
    hide Agree;
    hide Waits;
    hide PutBack;
    hide Ranked;
    hide Proc;
    var i := Proc(h.procs, pid);
    PutBackAgrees(h, pid, now);
    var g1 := PutBack(h, pid, now);
    RankedAgrees(g1, i, pid);
    var g2 := Ranked(g1, i, pid);
    var u := g2.procs[i].ready[0];
    assert Proc(g2.procs, u.pid) == i;
    ReadyToExecuteAgrees(g2, u, now);
    var g := ReadyToExecute(g2, u, now);
    assert SameWaits(g2, g);
    assert SameWaits(h, g);
    SameWaitsKeep(h, g);
  }

  // ----- when a wait is not the executing thread's -----

  /** `decrementar_semaforo` for a thread that is not executing, on a semaphore with nothing left, breaks agreement. */
  lemma WaitExact(h: Scheduling, k: Id, name: string, now: real)
    requires Inv(h) && Live(h, k)
    ensures Known(h, k)
    ensures Inv(Wait(h, k, name, now).0) <==>
      var j := SemNamed(h.sems, name); j == -1 || h.sems[j].value > 0 || h.threads[k].estado.Execute?
  {
    AgreeKnown(h, k);
    var j := SemNamed(h.sems, name);
    if j == -1 || h.sems[j].value > 0 || h.threads[k].estado.Execute? {
      WaitKeeps(h, k, name, now);
    } else {
      WaitBreaks(h, k, j, Wait(h, k, name, now).0);
    }
  }

  lemma WaitBreaks(h: Scheduling, k: Id, j: nat, g: Scheduling)
    requires Inv(h) && Live(h, k) && !h.threads[k].estado.Execute? && j < |h.sems| && |g.procs| == |h.procs|
    requires k in g.threads && g.threads[k].estado.Blocked? && g.threads[k].joinTo == h.threads[k].joinTo
    requires g.sems == h.sems[j := h.sems[j].(value := h.sems[j].value - 1, blocked := h.sems[j].blocked + [k])]
    requires g.newQueue == h.newQueue
    requires forall i | 0 <= i < |h.procs| :: g.procs[i].id == h.procs[i].id && g.procs[i].ready == h.procs[i].ready
    ensures !Inv(g)
  {
    if h.threads[k].estado.Blocked? {
      HeldTwice(h, k, j, g);
    } else {
      assert Placed(h, k);
      SameProc(h.procs, g.procs, k.pid);
      assert !Placed(g, k);
    }
  }

  /** A blocked thread has a reason already; a second one is one too many. */
  lemma HeldTwice(h: Scheduling, k: Id, j: nat, g: Scheduling)
    requires Waits(h) && Live(h, k) && h.threads[k].estado.Blocked? && j < |h.sems|
    requires k in g.threads && g.threads[k].joinTo == h.threads[k].joinTo
    requires g.sems == h.sems[j := h.sems[j].(value := h.sems[j].value - 1, blocked := h.sems[j].blocked + [k])]
    ensures !SemsSound(g)
  {
    assert Reason(h, k);
    assert InSem(g, j, k);
    if h.threads[k].joinTo == [] {
      var i :| InSem(h, i, k);
      assert InSem(g, i, k);
      if i == j {
        var n := |h.sems[j].blocked|;
        var a: nat :| a < n && h.sems[j].blocked[a] == k;
        var l := g.sems[j].blocked;
        assert l[a] == l[n] && !NoRepeats(l);
        assert !SemSound(g.sems[j]);
      }
    }
  }

  // ----- the two requests the invariant does not survive, on one small state -----

  /** Threads 1 and 2 of process 0: 1 has joined 2, which is executing; semaphore "s" has nothing left. */
  function Example(): (h: Scheduling)
  {
    var a, b := Id(0, 1), Id(0, 2);
    Scheduling(map[a := Thread(Blocked, 1.0, true, 0.0, [b], []), b := Thread(Execute, 2.0, true, 0.0, [], [a])],
          [Process(0, [a, b], [], Running(b), 0)], [], [a], [], [Sem("s", 1, 0, [])], 2, 2, 0.5)
  }

  lemma ExampleSound()
    ensures Inv(Example())
  {
    ExampleAgrees();
    ExampleWaits();
  }

  lemma ExampleAgrees()
    ensures Agree(Example())
  {
    var h := Example();
    var a, b := Id(0, 1), Id(0, 2);
    assert h.procs[..0] == [];
    assert Busy(h.procs) == 1;
    assert Proc(h.procs, 0) == 0;
    assert multiset(h.procs[0].ults)[a] == 1 && multiset(h.procs[0].ults)[b] == 1;
    assert Placed(h, a) && Placed(h, b);
  }

  lemma ExampleWaits()
    ensures Waits(Example())
  {
    var h := Example();
    var a, b := Id(0, 1), Id(0, 2);
    assert h.threads[a].joinTo[0] == b;
    forall v | Live(h, v) ensures Mirrors(h, v, h.threads[v].joinedBy) {
      assert v == a || v == b;
    }
  }

  /** Closing the joiner, or having it wait as well, leaves it in two places. */
  lemma ExampleBreaks(now: real)
    ensures Inv(Example()) && Known(Example(), Id(0, 1))
    ensures !Inv(Close(Example(), Id(0, 1))) && !Inv(Wait(Example(), Id(0, 1), "s", now).0)
  {
    ExampleSound();
    CloseExact(Example(), Id(0, 1));
    WaitExact(Example(), Id(0, 1), "s", now);
    assert SemNamed(Example().sems, "s") == 0;
  }
}
