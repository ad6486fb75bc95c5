/**
 Shortest job first: `schedule_next` picks a thread with the least refreshed estimate, from a
 ready list that sorting only permutes, and the list it leaves behind lacks just that thread.
 */
module Bursts {
  import opened Scheduler
  import opened Agreement
  import opened Joins
  import opened Runs

  // ----- the pick -----

  ghost predicate Ascending(th: map<Id, Thread>, l: seq<Id>)
    requires forall k | k in l :: k in th
  {
    forall i, j | 0 <= i < j < |l| :: th[l[i]].estimacion <= th[l[j]].estimacion
  }

  lemma {:induction false} InsertAscends(th: map<Id, Thread>, x: Id, l: seq<Id>)
    requires x in th && (forall k | k in l :: k in th) && Ascending(th, l)
    ensures Ascending(th, Insert(th, x, l))
  {
    if l != [] && !InFront(th, x, l[0]) {
      InsertAscends(th, x, l[1..]);
      var r := Insert(th, x, l[1..]);
      forall k | k in r ensures th[l[0]].estimacion <= th[k].estimacion {
        assert k in multiset(r);
        assert k == x || k in l[1..];
      }
    }
  }

  lemma {:induction false} SortedAscends(th: map<Id, Thread>, l: seq<Id>)
    requires forall k | k in l :: k in th
    ensures Ascending(th, Sorted(th, l))
  {
    if l != [] {
      SortedAscends(th, l[1..]);
      InsertAscends(th, l[0], Sorted(th, l[1..]));
    }
  }

  /** `l[i]` is a least element of `l`, and the first of those. */
  ghost predicate FirstAt(th: map<Id, Thread>, l: seq<Id>, i: nat)
    requires forall k | k in l :: k in th
  {
    && i < |l|
    && (forall j | 0 <= j < |l| :: th[l[i]].estimacion <= th[l[j]].estimacion)
    && forall j | 0 <= j < i :: th[l[i]].estimacion < th[l[j]].estimacion
  }

  ghost predicate FirstLeast(th: map<Id, Thread>, l: seq<Id>, u: Id)
    requires forall k | k in l :: k in th
  {
    exists i: nat :: FirstAt(th, l, i) && l[i] == u
  }

  lemma {:induction false} SortedHead(th: map<Id, Thread>, l: seq<Id>) returns (i: nat)
    requires l != [] && forall k | k in l :: k in th
    ensures FirstAt(th, l, i) && l[i] == Sorted(th, l)[0]
  {
    assert l == [l[0]] + l[1..];
    if |l| == 1 {
      i := 0;
    } else {
      var k := SortedHead(th, l[1..]);
      if InFront(th, l[0], l[1..][k]) {
        i := 0;
      } else {
        i := k + 1;
        assert forall j | 0 < j < |l| :: l[j] == l[1..][j - 1];
      }
    }
  }

  /**
   The thread dispatched has the least estimate of all that were ready, counting the one that was
   executing, and on a tie it is the one longest in the list; the others stay, in order of estimate.
   */
  ghost predicate Picked(c: seq<Id>, g: Scheduling, i: nat, u: Id)
    requires i < |g.procs|
  {
    && u in g.threads && (forall k | k in c :: k in g.threads) && FirstLeast(g.threads, c, u)
    && multiset(g.procs[i].ready) + multiset{u} == multiset(c)
    && (forall k | k in g.procs[i].ready :: k in g.threads) && Ascending(g.threads, g.procs[i].ready)
    && g.procs[i].exec == Running(u)
  }

  /** Who `schedule_next` chooses from. */
  function Candidates(h: Scheduling, pid: int): (c: seq<Id>)
    requires Proc(h.procs, pid) != -1
  {
    var p := h.procs[Proc(h.procs, pid)];
    p.ready + if p.exec.Running? then [p.exec.k] else []
  }

  lemma RankedHead(h: Scheduling, i: nat, pid: int)
    requires ReadyAt(h, i, pid)
    ensures var g, c := Ranked(h, i, pid), h.procs[i].ready;
            && (forall k | k in c :: k in g.threads) && multiset(g.procs[i].ready) == multiset(c)
            && FirstLeast(g.threads, c, g.procs[i].ready[0]) && Ascending(g.threads, g.procs[i].ready)
  {
    var th := EstimateAll(h.threads, h.procs[i].ready, h.alpha);
    var k := SortedHead(th, h.procs[i].ready);
    SortedAscends(th, h.procs[i].ready);
  }

  lemma NextPicks(h: Scheduling, pid: int, now: real)
    requires Inv(h) && CanNext(h, pid)
    ensures Proc(h.procs, pid) < |Next(h, pid, now).0.procs|
    ensures Picked(Candidates(h, pid), Next(h, pid, now).0, Proc(h.procs, pid), Next(h, pid, now).1)
  {
    hide Agree;
    hide Waits;
    hide Proc;
    hide EstimateAll;
    hide Sorted;
    hide FirstLeast;
    hide Ascending;
    hide Ranked;
    hide PutBack;
    hide CanNext;
    var i := Proc(h.procs, pid);
    PutBackAgrees(h, pid, now);
    var g1 := PutBack(h, pid, now);
    PutBackList(h, pid, now);
    RankedAgrees(g1, i, pid);
    RankedHead(g1, i, pid);
    var g2 := Ranked(g1, i, pid);
    var u := g2.procs[i].ready[0];
    DispatchPicks(g2, i, u, Candidates(h, pid), now);
  }

  lemma PutBackList(h: Scheduling, pid: int, now: real)
    requires Agree(h) && CanNext(h, pid)
    ensures PutBack(h, pid, now).procs[Proc(h.procs, pid)].ready == Candidates(h, pid)
  {
    var i := Proc(h.procs, pid);
    if h.procs[i].exec.Running? {
      ExecutingOf(h, i);
    }
  }

  lemma DispatchPicks(h: Scheduling, i: nat, u: Id, c: seq<Id>, now: real)
    requires i < |h.procs| && h.procs[i].ready != [] && u == h.procs[i].ready[0] && Known(h, u)
    requires Proc(h.procs, u.pid) == i
    requires h.threads[u].estado.Ready?
    requires (forall k | k in c :: k in h.threads) && multiset(h.procs[i].ready) == multiset(c)
    requires FirstLeast(h.threads, c, u) && (forall k | k in h.procs[i].ready :: k in h.threads)
    requires Ascending(h.threads, h.procs[i].ready)
    ensures Picked(c, ReadyToExecute(h, u, now), i, u)
  {
    hide Proc;
    var g := ReadyToExecute(h, u, now);
    var l := h.procs[i].ready;
    assert g.procs[i].ready == l[1..];
    assert l == [u] + l[1..];
    SameEstimates(h.threads, g.threads, c, u);
  }

  lemma SameEstimates(th: map<Id, Thread>, r: map<Id, Thread>, c: seq<Id>, u: Id)
    requires r.Keys == th.Keys && (forall k | k in th :: r[k].estimacion == th[k].estimacion)
    requires (forall k | k in c :: k in th) && FirstLeast(th, c, u)
    ensures FirstLeast(r, c, u)
  {
    var i: nat :| FirstAt(th, c, i) && c[i] == u;
    assert FirstAt(r, c, i);
  }
}
