/** Small servers on which loads, new pages and header writes fail as `memoria/main_memory.c` makes them. */
module Shortages {
  import opened Bytes
  import opened Sizes
  import opened Chain
  import opened Layout
  import opened Clock
  import opened Paging
  import opened Segments
  import opened Headers
  import opened Views
  import opened Traces
  import opened Accesses
  import opened Assured
  import opened Ranges
  import H = Heap

  function Blank(ps: nat): (b: seq<byte>)
    ensures |b| == ps
  {
    seq(ps, _ => 0)
  }

  /** One frame and `slots` slots of 8 bytes, all free, and one segment without pages. */
  function Start(slots: nat): (st: State)
  {
    State([Blank(8)], [true], seq(slots, _ => Blank(8)), seq(slots, _ => true), [[]], 0, 0)
  }

  lemma StartExclusive(slots: nat)
    ensures Exclusive(Start(slots), 8) && Sane(Start(slots))
    ensures FirstTrue(Start(slots).frameFree, 0) == 0
  {
    var st := Start(slots);
    assert st.frameFree[0];
    assert forall s: nat, p: nat :: !Spot(st.tables, s, p);
  }

  function OneTable(): (t: Tables)
  {
    [[Page(true, false, true, 0)]]
  }

  /** Two pages for one frame: the first went to slot 0 when the second was added. */
  function Two(slots: nat): (st: State)
    requires slots > 0
  {
    Start(slots).(frameFree := [false], slotFree := Start(slots).slotFree[0 := false],
                  tables := [[Page(false, false, false, 0), Page(true, false, true, 0)]])
  }

  lemma OnePage(slots: nat)
    ensures Sane(Start(slots)) && AddPage(Start(slots), 0) == Start(slots).(frameFree := [false], tables := OneTable())
  {
    StartExclusive(slots);
    var x := Page(true, false, true, 0);
    var t: Tables := [[]];
    assert t[0] + [x] == [x];
    assert t[0 := t[0] + [x]] == [[x]];
    assert [true][0 := false] == [false];
  }

  /** The only page is used, so it takes three passes to choose it. */
  lemma OneVictim()
    ensures SomePresent(OneTable()) && Victim(OneTable(), 0, 0) == Choice([[Page(false, false, true, 0)]], 0, 0, 3)
  {
    var t, u := OneTable(), Cleared(OneTable());
    assert Spot(t, 0, 0);
    assert u[0][0] == Page(false, false, true, 0);
    assert u[0] == [Page(false, false, true, 0)];
    assert u == [[Page(false, false, true, 0)]];
    assert Find(t, false, 0, 1) == None;
    assert Find(t, true, 0, 0) == None by {
      assert Find(t, true, 0, 1) == None;
    }
    assert Find(u, false, 0, 0) == Some((0, 0));
  }

  /** What is left of the one page's state when its frame is asked for. */
  lemma OneReplaced(slots: nat)
    ensures var one := Start(slots).(frameFree := [false], tables := OneTable());
            && Sane(one) && SomePresent(one.tables)
            && Replace(one) == (
                 if slots == 0 then one.(frameFree := [true], tables := [[Page(false, false, true, 0)]])
                 else one.(frameFree := [true], slotFree := one.slotFree[0 := false],
                           swap := one.swap[0 := Blank(8)], tables := [[Page(false, false, false, 0)]]), 0)
  {
    OneVictim();
    var one := Start(slots).(frameFree := [false], tables := OneTable());
    var t: Tables := [[Page(false, false, true, 0)]];
    assert [false][0 := true] == [true];
    if slots > 0 {
      assert one.slotFree[0];
      assert SetPage(t, 0, 0, Page(false, false, false, 0))[0] == [Page(false, false, false, 0)];
      assert SetPage(t, 0, 0, Page(false, false, false, 0)) == [[Page(false, false, false, 0)]];
    }
  }

  /** A second page beside `x`, with no frame free. */
  lemma Beside(x: Page, y: Page)
    ensures var t: Tables := [[x]]; t[0 := t[0] + [y]] == [[x, y]]
  {
    var t: Tables := [[x]];
    assert t[0] + [y] == [x, y];
  }

  lemma TwoPages(slots: nat)
    requires slots > 0
    ensures var st := Start(slots);
            && Sane(st) && Sane(AddPage(st, 0)) && SomePresent(AddPage(st, 0).tables)
            && AddPage(AddPage(st, 0), 0) == Two(slots)
  {
    OnePage(slots);
    OneReplaced(slots);
    Beside(Page(false, false, false, 0), Page(true, false, true, 0));
    assert FirstTrue([false], 0) == -1 && [true][0 := false] == [false];
    assert Start(slots).swap[0 := Blank(8)] == Start(slots).swap;
  }

  // ----- no slot left -----

  /** One frame, no slot: a second page for the segment takes the frame of the first, which keeps it. */
  lemma NewPageShares()
    ensures var st := Start(0);
            && Sane(st) && Exclusive(st, 8) && Exclusive(AddPage(st, 0), 8) && Sane(AddPage(st, 0))
            && SomePresent(AddPage(st, 0).tables)
            && AddPage(AddPage(st, 0), 0).tables == [[Page(false, false, true, 0), Page(true, false, true, 0)]]
            && !Exclusive(AddPage(AddPage(st, 0), 0), 8)
  {
    hide Exclusive;
    hide AddPage;
    var st := Start(0);
    StartExclusive(0);
    assert Available(st) == 1 by {
      assert CountTrue([true]) == 1 && st.slotFree == [];
    }
    AddPageKeeps(st, 0, 8);
    OneShared();
    AddPageExact(AddPage(st, 0), 0, 8);
  }

  lemma OneShared()
    ensures Sane(Start(0)) && Sane(AddPage(Start(0), 0)) && SomePresent(AddPage(Start(0), 0).tables)
    ensures AddPage(AddPage(Start(0), 0), 0).tables == [[Page(false, false, true, 0), Page(true, false, true, 0)]]
  {
    hide Victim;
    OnePage(0);
    OneReplaced(0);
    Beside(Page(false, false, true, 0), Page(true, false, true, 0));
    assert FirstTrue([false], 0) == -1;
  }

  lemma NoRoom()
    ensures Spot(Two(1).tables, 0, 0) && SomePresent(Two(1).tables) && !CanLoad(Two(1), 0, 0)
  {
    assert Start(1).slotFree[0 := false] == [false];
    assert Spot(Two(1).tables, 0, 1);
  }

  /** One frame, one slot, two pages: the one on swap cannot be loaded without losing the other. */
  lemma LoadShares()
    ensures var st := Two(1);
            && Exclusive(st, 8) && Sane(st) && SomePresent(st.tables)
            && Spot(st.tables, 0, 0) && !CanLoad(st, 0, 0) && !Exclusive(Load(st, 0, 0), 8)
  {
    hide *;
    TwoExclusive(1);
    NoRoom();
    LoadExact(Two(1), 0, 0, 8);
  }

  lemma TwoExclusive(slots: nat)
    requires slots > 0
    ensures Exclusive(Two(slots), 8) && Sane(Two(slots)) && Available(Two(slots)) == slots - 1
  {
    hide Exclusive;
    hide AddPage;
    var st := Start(slots);
    StartExclusive(slots);
    TwoPages(slots);
    AllTrue(st.slotFree);
    assert CountTrue([true]) == 1;
    AddPageKeeps(st, 0, 8);
    AddPageKeeps(AddPage(st, 0), 0, 8);
    ExclusiveSane(Two(slots), 8);
  }

  // ----- a torn header -----

  /** The second page out, the first one in. */
  function Swapped(): (t: Tables)
  {
    [[Page(true, false, true, 0), Page(false, false, false, 1)]]
  }

  lemma TwoVictim()
    ensures SomePresent(Two(2).tables)
    ensures Victim(Two(2).tables, 0, 0)
         == Choice([[Page(false, false, false, 0), Page(false, false, true, 0)]], 0, 1, 3)
  {
    var t, u := Two(2).tables, Cleared(Two(2).tables);
    assert Spot(t, 0, 1) && Spot(t, 0, 0);
    assert u[0][0] == Page(false, false, false, 0) && u[0][1] == Page(false, false, true, 0);
    assert u[0] == [Page(false, false, false, 0), Page(false, false, true, 0)];
    assert u == [[Page(false, false, false, 0), Page(false, false, true, 0)]];
    assert Find(t, false, 0, 1) == None by {
      assert Find(t, false, 0, 2) == None;
    }
    assert Find(t, true, 0, 0) == None by {
      assert Find(t, true, 0, 2) == None;
      assert Find(t, true, 0, 1) == None;
    }
    assert Find(u, false, 0, 0) == Some((0, 1)) by {
      assert Find(u, false, 0, 1) == Some((0, 1));
    }
  }

  lemma SwappedVictim()
    ensures SomePresent(Swapped()) && var c := Victim(Swapped(), 0, 1); c.seg == 0 && c.page == 0
  {
    var t, u := Swapped(), Cleared(Swapped());
    assert Spot(t, 0, 0) && Spot(t, 0, 1);
    assert u[0][0] == Page(false, false, true, 0);
    assert Find(t, false, 0, 2) == None;
    assert Find(t, true, 0, 0) == None by {
      assert Find(t, true, 0, 2) == None;
      assert Find(t, true, 0, 1) == None;
    }
    assert Find(u, false, 0, 0) == Some((0, 0));
  }

  lemma FirstLoaded()
    ensures Sane(Two(2)) && SomePresent(Two(2).tables)
    ensures var st1 := Load(Two(2), 0, 0);
            st1.tables == Swapped() && st1.frameFree == [false] && st1.handSeg == 0 && st1.handPage == 1
  {
    var st := Two(2);
    TwoVictim();
    var t: Tables := [[Page(false, false, false, 0), Page(false, false, true, 0)]];
    assert st.slotFree[1] && !st.slotFree[0];
    assert FirstTrue(st.slotFree, 0) == 1 by {
      assert FirstTrue(st.slotFree, 1) == 1;
    }
    var r := Replace(st);
    assert r.0.tables == SetPage(t, 0, 1, Page(false, false, false, 1)) && r.1 == 0;
    assert r.0.tables[0] == [Page(false, false, false, 0), Page(false, false, false, 1)];
    assert r.0.frameFree == [true];
    var v := SetPage(r.0.tables, 0, 0, Page(true, false, true, 0));
    assert v[0] == Swapped()[0];
    assert v == Swapped();
  }

  /**
   One frame, two slots, two pages: a header at 6 runs over the end of page 0. Loading page 0 puts
   page 1 on swap, and loading page 1 then evicts page 0.
   */
  lemma HeaderTears()
    ensures Roomy(Two(2), 8) && HeaderRoom(Two(2), 8, 0, 6) && Tears(Two(2), 8, 0, 6)
  {
    hide Exclusive;
    hide Load;
    hide Victim;
    TwoExclusive(2);
    assert Spot(Two(2).tables, 0, 0) && Spot(Two(2).tables, 0, 1);
    assert PageStart(1, 8) == 8 && PageStart(2, 8) == 16;
    FirstLoaded();
    SwappedVictim();
    assert FirstTrue([false], 0) == -1;
  }

  /** On a server with one frame every header over a page's end is torn. */
  lemma OneFrameTears(st: State, ps: nat, s: nat, a: nat)
    requires Roomy(st, ps) && HeaderRoom(st, ps, s, a) && |st.frames| == 1 && Straddles(ps, a)
    ensures Tears(st, ps, s, a)
  {
    hide Available;
    hide SameContents;
    hide Load;
    HeaderPages(st, ps, s, a);
    var p := PageOf(a, ps);
    var st1 := Fetch(st, ps, s, p);
    OnlyPage(st1, ps, s, p);
    assert Spot(st1.tables, s, p + 1);
    assert !st1.tables[s][p + 1].present;
  }

  /** A present page has the one frame to itself, so the clock can only choose it. */
  lemma OnlyPage(st: State, ps: nat, s: nat, p: nat)
    requires Exclusive(st, ps) && |st.frames| == 1 && Spot(st.tables, s, p) && st.tables[s][p].present
    ensures forall i: nat, j: nat | Spot(st.tables, i, j) && st.tables[i][j].present :: i == s && j == p
    ensures FirstTrue(st.frameFree, 0) == -1 && ChosenIs(st, s, p)
  {
    hide Victim;
    hide Owned;
    assert Holds(st.tables, s, p, true, 0);
    forall i: nat, j: nat | Spot(st.tables, i, j) && st.tables[i][j].present ensures i == s && j == p {
      assert Holds(st.tables, i, j, true, 0);
    }
  }

  lemma SameFrames(st: State, ps: nat, repaired: bool, x: Access)
    requires Exclusive(st, ps) && ps >= HEADER && Goes(st, ps, repaired, x)
    ensures |After(st, ps, repaired, x).frames| == |st.frames|
  {
    hide Exclusive;
    hide Load;
    hide CanLoad;
    match x
    case Touch(s, p) => assert After(st, ps, repaired, x) == Visit(st, ps, s, p);
    case Put(s, a, h) => HeaderPages(st, ps, s, a);
    case NewPage(s) => AddPageKeeps(st, s, ps);
    case NewTable =>
  }

  /** There, what the source does goes through exactly when it writes no such header. */
  lemma {:induction false} OneFrameExact(st: State, ps: nat, l: seq<Access>)
    requires Exclusive(st, ps) && ps >= HEADER && InRange(ps, Shape(st.tables), l) && Available(st) > PagesAdded(l)
    requires |st.frames| == 1
    ensures Clean(st, ps, false, l) <==> Unbroken(ps, l)
    decreases |l|
  {
    hide Exclusive;
    hide Available;
    hide After;
    hide Goes;
    hide HeaderRoom;
    hide Tears;
    hide Straddles;
    if l != [] {
      assert l[0] in l;
      assert InRange(ps, LensAfter(Shape(st.tables), l[0]), [l[0]][1..]);
      if l[0].Put? && Straddles(ps, l[0].a) {
        RangeRoom(st, ps, l[0]);
        PutExact(st, ps, l[0].s, l[0].a, l[0].h);
        OneFrameTears(st, ps, l[0].s, l[0].a);
      } else {
        OneGoes(st, ps, false, l[0]);
        SameFrames(st, ps, false, l[0]);
        OneFrameExact(After(st, ps, false, l[0]), ps, l[1..]);
        assert l == [l[0]] + l[1..];
      }
    }
  }

  /** A server with one frame and two slots of 8 bytes, before any request. */
  function Fresh(): (st: State)
  {
    Start(2).(tables := [])
  }

  function FreshHeap(): (h: H.System)
  {
    H.System([], [], 3)
  }

  /** The first request, for one byte: two pages, and the second of its two headers at 6. */
  lemma FirstRequest()
    ensures H.Malloc(8, FreshHeap(), 7, 1).1 == H.At(5) && H.Extra(8, FreshHeap(), 7, 1) == 2
    ensures !Unbroken(8, Request(8, FreshHeap(), 7, 1))
  {
    hide Look;
    hide Search;
    hide Walk;
    hide Read;
    hide Begin;
    hide Request;
    hide H.Malloc;
    var h := FreshHeap();
    assert PageStart(1, 8) == 8 && PageStart(2, 8) == 16 && PageStart(3, 8) == 24;
    assert Pages(11, 8) == 2;
    Prepares(8, h, 7, 1);
    var c := [Block(11, true)];
    var g := Prepared(8, h, 7, 1);
    assert g == H.System([7], [c], 1);
    Grants(8, g, 7, 1, 0);
    assert FirstFit(c, 0, 6) == 0 && Addr(c, 0) == 0;
    var x := Put(0, 6, Block(5, true));
    assert x in Cut(8, 0, c, 0, 1);
    assert x in Occupy(8, 0, c, 1);
    assert x in Request(8, g, 7, 1) && x in Request(8, h, 7, 1);
    assert Straddles(8, 6);
  }

  /** So the very first allocation on that server tears a header; written in the repaired order it goes through. */
  lemma FirstRequestTears()
    ensures Exclusive(Fresh(), 8) && Available(Fresh()) == 3
    ensures !Clean(Fresh(), 8, false, Request(8, FreshHeap(), 7, 1))
    ensures Clean(Fresh(), 8, true, Request(8, FreshHeap(), 7, 1))
  {
    hide Exclusive;
    hide Clean;
    hide Request;
    hide H.Malloc;
    hide H.Extra;
    hide InRange;
    hide PagesAdded;
    FreshExclusive();
    FirstRequest();
    assert PageStart(3, 8) == 24 && Shape(Fresh().tables) == [];
    RequestExtends(8, [], FreshHeap(), 7, 1, false);
    var l := Request(8, FreshHeap(), 7, 1);
    assert Lacks(8, FreshHeap(), 7, 1);
    OneFrameExact(Fresh(), 8, l);
    AllGo(Fresh(), 8, true, l);
  }

  lemma FreshExclusive()
    ensures Exclusive(Fresh(), 8) && Available(Fresh()) == 3
  {
    AllTrue([true]);
    AllTrue(Fresh().slotFree);
    assert forall s: nat, p: nat :: !Spot(Fresh().tables, s, p);
  }
}
