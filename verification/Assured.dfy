/** When every access of a request is sure to go through. */
module Assured {
  import opened Bytes
  import opened Sizes
  import opened Chain
  import opened Layout
  import opened Clock
  import opened Paging
  import opened Headers
  import opened Views
  import opened Traces
  import opened Accesses
  import H = Heap

  // ----- lists of accesses against page counts -----

  /** Pages of each segment. */
  function Shape(t: Tables): (lens: seq<nat>)
    ensures |lens| == |t| && forall i | 0 <= i < |t| :: lens[i] == |t[i]|
  {
    seq(|t|, i requires 0 <= i < |t| => |t[i]|)
  }

  /** A page or a header of a segment that has it. */
  predicate Inside(ps: nat, lens: seq<nat>, x: Access)
  {
    match x
    case Touch(s, p) => s < |lens| && p < lens[s]
    case Put(s, a, h) => s < |lens| && a + HEADER <= PageStart(lens[s], ps) && h.size < WORD
    case NewPage(s) => false
    case NewTable => false
  }

  ghost predicate Steady(ps: nat, lens: seq<nat>, l: seq<Access>)
  {
    forall x | x in l :: Inside(ps, lens, x)
  }

  function LensAfter(lens: seq<nat>, x: Access): (r: seq<nat>)
  {
    match x
    case Touch(s, p) => lens
    case Put(s, a, h) => lens
    case NewPage(s) => if s < |lens| then lens[s := lens[s] + 1] else lens
    case NewTable => lens + [0]
  }

  function LensEnd(lens: seq<nat>, l: seq<Access>): (r: seq<nat>)
    decreases |l|
  {
    if l == [] then lens else LensEnd(LensAfter(lens, l[0]), l[1..])
  }

  /** Each access finds its page, or its segment, where the ones before it leave them. */
  predicate InRange(ps: nat, lens: seq<nat>, l: seq<Access>)
    decreases |l|
  {
    l == [] || ((match l[0]
                 case NewPage(s) => s < |lens|
                 case NewTable => true
                 case _ => Inside(ps, lens, l[0]))
                && InRange(ps, LensAfter(lens, l[0]), l[1..]))
  }

  /** Pages added. */
  function PagesAdded(l: seq<Access>): (n: nat)
    decreases |l|
  {
    if l == [] then 0 else (if l[0].NewPage? then 1 else 0) + PagesAdded(l[1..])
  }

  /** No header written runs over its page's end. */
  ghost predicate Unbroken(ps: nat, l: seq<Access>)
    requires ps > 0
  {
    forall x | x in l && x.Put? :: !Straddles(ps, x.a)
  }

  lemma {:induction false} InRangeSum(ps: nat, lens: seq<nat>, l: seq<Access>, m: seq<Access>)
    ensures InRange(ps, lens, l + m) <==> InRange(ps, lens, l) && InRange(ps, LensEnd(lens, l), m)
    ensures LensEnd(lens, l + m) == LensEnd(LensEnd(lens, l), m)
    ensures PagesAdded(l + m) == PagesAdded(l) + PagesAdded(m)
    decreases |l|
  {
    if l == [] {
      assert l + m == m;
    } else {
      assert (l + m)[1..] == l[1..] + m;
      InRangeSum(ps, LensAfter(lens, l[0]), l[1..], m);
    }
  }

  lemma {:induction false} SteadyInRange(ps: nat, lens: seq<nat>, l: seq<Access>)
    requires Steady(ps, lens, l)
    ensures InRange(ps, lens, l) && LensEnd(lens, l) == lens && PagesAdded(l) == 0
    decreases |l|
  {
    if l != [] {
      assert l[0] in l;
      SteadyInRange(ps, lens, l[1..]);
    }
  }

  lemma {:induction false} NewPagesInRange(ps: nat, lens: seq<nat>, s: nat, k: nat)
    requires s < |lens|
    ensures InRange(ps, lens, NewPages(s, k)) && LensEnd(lens, NewPages(s, k)) == lens[s := lens[s] + k]
    ensures PagesAdded(NewPages(s, k)) == k
    decreases k
  {
    if k > 0 {
      assert NewPages(s, k)[1..] == NewPages(s, k - 1);
      NewPagesInRange(ps, lens[s := lens[s] + 1], s, k - 1);
    }
  }

  // ----- with a frame or slot to spare -----

  lemma OneGoes(st: State, ps: nat, repaired: bool, x: Access)
    requires Exclusive(st, ps) && ps >= HEADER && InRange(ps, Shape(st.tables), [x]) && Available(st) > 0
    requires x.Put? && Straddles(ps, x.a) ==> repaired
    ensures Goes(st, ps, repaired, x)
    ensures var st' := After(st, ps, repaired, x);
            && Shape(st'.tables) == LensAfter(Shape(st.tables), x)
            && Available(st') == Available(st) - if x.NewPage? then 1 else 0
  {
    hide Exclusive;
    hide Available;
    hide CanLoad;
    hide AddPage;
    match x
    case Touch(s, p) =>
      AvailableLoads(st, s, p);
      assert After(st, ps, repaired, x) == Visit(st, ps, s, p);
    case Put(s, a, h) => OnePutGoes(st, ps, repaired, s, a, h);
    case NewPage(s) => AddPageKeeps(st, s, ps);
    case NewTable =>
      ExclusiveSane(st, ps);
      EmptySegment(st, ps);
  }

  lemma OnePutGoes(st: State, ps: nat, repaired: bool, s: nat, a: nat, h: Block)
    requires Exclusive(st, ps) && HeaderRoom(st, ps, s, a) && h.size < WORD && Available(st) > 0
    requires Straddles(ps, a) ==> repaired
    ensures Goes(st, ps, repaired, Put(s, a, h))
    ensures var st' := After(st, ps, repaired, Put(s, a, h));
            SameShape(st.tables, st'.tables) && Available(st') == Available(st)
  {
    hide Exclusive;
    hide Available;
    hide CanLoad;
    HeaderPages(st, ps, s, a);
    var p := PageOf(a, ps);
    AvailableLoads(st, s, p);
    if Straddles(ps, a) {
      AvailableLoads(WriteAt(st, ps, s, p, ps - |Front(h, a, ps)|, Front(h, a, ps)), s, p + 1);
    }
  }

  /**
   With more frames and slots free than the accesses add pages, all of them go through if no
   header is cut by a page's end, or if cut headers are written in the repaired order.
   */
  lemma {:induction false} AllGo(st: State, ps: nat, repaired: bool, l: seq<Access>)
    requires Exclusive(st, ps) && ps >= HEADER && InRange(ps, Shape(st.tables), l)
    requires Available(st) > PagesAdded(l) && (repaired || Unbroken(ps, l))
    ensures Clean(st, ps, repaired, l)
    decreases |l|
  {
    hide Exclusive;
    hide Available;
    hide After;
    hide Goes;
    hide Inside;
    if l != [] {
      assert l[0] in l;
      assert InRange(ps, LensAfter(Shape(st.tables), l[0]), [l[0]][1..]);
      OneGoes(st, ps, repaired, l[0]);
      AllGo(After(st, ps, repaired, l[0]), ps, repaired, l[1..]);
    }
  }

  // ----- with nothing on swap -----

  lemma ResidentGoes(st: State, ps: nat, repaired: bool, x: Access)
    requires Exclusive(st, ps) && ps >= HEADER && InRange(ps, Shape(st.tables), [x]) && Resident(st.tables)
    requires x.NewPage? ==> CountTrue(st.frameFree) > 0
    ensures Goes(st, ps, repaired, x)
    ensures var st' := After(st, ps, repaired, x);
            && Resident(st'.tables) && Shape(st'.tables) == LensAfter(Shape(st.tables), x)
            && CountTrue(st'.frameFree) == CountTrue(st.frameFree) - (if x.NewPage? then 1 else 0)
            && (x.Touch? || x.Put? ==> st'.tables == st.tables)
  {
    hide Exclusive;
    hide CountTrue;
    hide AddPage;
    match x
    case Touch(s, p) =>
      StaysHere(st, ps, s, p);
      assert After(st, ps, repaired, x) == Visit(st, ps, s, p);
    case Put(s, a, h) => ResidentPut(st, ps, repaired, s, a, h);
    case NewPage(s) =>
      ExclusiveSane(st, ps);
      SpareFits(st);
      AddPageKeeps(st, s, ps);
      AddPageResident(st, s);
    case NewTable =>
      StillResident(st.tables);
  }

  lemma StaysHere(st: State, ps: nat, s: nat, p: nat)
    requires Exclusive(st, ps) && Spot(st.tables, s, p) && st.tables[s][p].present
    ensures CanLoad(st, s, p) && Visit(st, ps, s, p) == st
  {
  }

  lemma ResidentPut(st: State, ps: nat, repaired: bool, s: nat, a: nat, h: Block)
    requires Exclusive(st, ps) && HeaderRoom(st, ps, s, a) && h.size < WORD && Resident(st.tables)
    ensures Goes(st, ps, repaired, Put(s, a, h))
    ensures var st' := After(st, ps, repaired, Put(s, a, h)); st'.tables == st.tables && st'.frameFree == st.frameFree
  {
    hide Exclusive;
    hide CanLoad;
    hide Visit;
    hide Resident;
    HeaderPages(st, ps, s, a);
    var p := PageOf(a, ps);
    ResidentHere(st.tables, s, p);
    StaysHere(st, ps, s, p);
    if Straddles(ps, a) {
      ResidentHere(st.tables, s, p + 1);
      StaysHere(st, ps, s, p + 1);
      if repaired {
        StaysHere(WriteAt(st, ps, s, p, ps - |Front(h, a, ps)|, Front(h, a, ps)), ps, s, p + 1);
      }
    }
  }

  lemma ResidentHere(t: Tables, s: nat, p: nat)
    requires Resident(t) && Spot(t, s, p)
    ensures t[s][p].present
  {
  }

  /** With nothing on swap, and free frames for the pages added, all accesses go through and nothing is evicted. */
  lemma {:induction false} ResidentAllGo(st: State, ps: nat, repaired: bool, l: seq<Access>)
    requires Exclusive(st, ps) && ps >= HEADER && InRange(ps, Shape(st.tables), l) && Resident(st.tables)
    requires PagesAdded(l) <= CountTrue(st.frameFree)
    ensures Clean(st, ps, repaired, l) && Resident(Play(st, ps, repaired, l).tables)
    ensures Steady(ps, Shape(st.tables), l) ==> Play(st, ps, repaired, l).tables == st.tables
    decreases |l|
  {
    hide Exclusive;
    hide Resident;
    hide After;
    hide Goes;
    if l != [] {
      assert l[0] in l;
      assert InRange(ps, LensAfter(Shape(st.tables), l[0]), [l[0]][1..]);
      ResidentGoes(st, ps, repaired, l[0]);
      ResidentAllGo(After(st, ps, repaired, l[0]), ps, repaired, l[1..]);
    }
  }

  // ----- exactly when -----

  /** The access is a header write that tears in this state. */
  ghost predicate Torn(st: State, ps: nat, x: Access)
    requires Exclusive(st, ps) && ps >= HEADER
  {
    x.Put? && Available(st) > 0 && HeaderRoom(st, ps, x.s, x.a) && Tears(st, ps, x.s, x.a)
  }

  /** No header write tears in the state it is made in. */
  ghost predicate Untorn(st: State, ps: nat, l: seq<Access>)
    requires Exclusive(st, ps) && ps >= HEADER
    decreases |l|
  {
    l == [] || (!Torn(st, ps, l[0])
                && (Goes(st, ps, false, l[0]) ==> Untorn(After(st, ps, false, l[0]), ps, l[1..])))
  }

  /** As the source writes headers, a write goes through exactly when it does not tear. */
  lemma PutExact(st: State, ps: nat, s: nat, a: nat, h: Block)
    requires Exclusive(st, ps) && HeaderRoom(st, ps, s, a) && h.size < WORD && Available(st) > 0
    ensures Goes(st, ps, false, Put(s, a, h)) <==> !Tears(st, ps, s, a)
    ensures Goes(st, ps, false, Put(s, a, h)) ==>
      var st' := After(st, ps, false, Put(s, a, h));
      SameShape(st.tables, st'.tables) && Available(st') == Available(st)
  {
    hide Exclusive;
    hide Available;
    hide CanLoad;
    hide TearsAt;
    hide Visit;
    hide BothStay;
    hide WriteBoth;
    hide WriteAt;
    HeaderPages(st, ps, s, a);
    var p := PageOf(a, ps);
    AvailableLoads(st, s, p);
    if Straddles(ps, a) {
      BothExact(st, ps, s, p);
      if BothStay(st, ps, s, p) {
        BothShape(st, ps, s, p, Front(h, a, ps), Back(h, a, ps));
      }
    }
  }

  lemma BothExact(st: State, ps: nat, s: nat, p: nat)
    requires Exclusive(st, ps) && Spot(st.tables, s, p) && Spot(st.tables, s, p + 1) && Available(st) > 0
    ensures BothStay(st, ps, s, p) <==> !TearsAt(st, ps, s, p)
  {
    hide Exclusive;
    hide Available;
    hide CanLoad;
    hide TearsAt;
    hide Load;
    AvailableLoads(st, s, p);
    var st1 := Visit(st, ps, s, p);
    assert st1 == Fetch(st, ps, s, p);
    AvailableLoads(st1, s, p + 1);
    TearsAtIs(st, ps, s, p);
  }

  lemma BothShape(st: State, ps: nat, s: nat, p: nat, x: seq<byte>, y: seq<byte>)
    requires Exclusive(st, ps) && Spot(st.tables, s, p) && Spot(st.tables, s, p + 1) && BothStay(st, ps, s, p)
    requires |x| <= ps && |y| <= ps
    ensures SameShape(st.tables, WriteBoth(st, ps, s, p, x, y).tables)
  {
    hide Exclusive;
    hide CanLoad;
    hide Available;
  }

  /** With more frames and slots free than pages are added: everything goes through exactly when no write tears. */
  lemma {:induction false} UntornExact(st: State, ps: nat, l: seq<Access>)
    requires Exclusive(st, ps) && ps >= HEADER && InRange(ps, Shape(st.tables), l) && Available(st) > PagesAdded(l)
    ensures Clean(st, ps, false, l) <==> Untorn(st, ps, l)
    decreases |l|
  {
    hide Exclusive;
    hide Available;
    hide After;
    hide Goes;
    hide HeaderRoom;
    hide Tears;
    if l != [] {
      assert InRange(ps, LensAfter(Shape(st.tables), l[0]), [l[0]][1..]);
      if l[0].Put? {
        RangeRoom(st, ps, l[0]);
        PutExact(st, ps, l[0].s, l[0].a, l[0].h);
      } else {
        OneGoes(st, ps, false, l[0]);
      }
      if Goes(st, ps, false, l[0]) {
        assert Shape(After(st, ps, false, l[0]).tables) == LensAfter(Shape(st.tables), l[0]);
        UntornExact(After(st, ps, false, l[0]), ps, l[1..]);
      }
    }
  }

  lemma RangeRoom(st: State, ps: nat, x: Access)
    requires ps >= HEADER && x.Put? && Inside(ps, Shape(st.tables), x)
    ensures HeaderRoom(st, ps, x.s, x.a) && x.h.size < WORD
  {
  }
}
