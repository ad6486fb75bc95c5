/** What a request to `memoria/main_memory.c` can count on. */
module Guarantees {
  import opened Bytes
  import opened Sizes
  import opened Chain
  import opened Layout
  import opened Clock
  import opened Paging
  import opened Headers
  import opened Views
  import opened Traces
  import opened Accesses
  import opened Assured
  import opened Ranges
  import H = Heap

  /** Walks only read: with a frame or a slot free they go through, and with nothing on swap they change nothing. */
  lemma WalksGo(st: State, ps: nat, repaired: bool, s: nat, c: seq<Block>, i: nat, size: nat)
    requires Exclusive(st, ps) && Fills(ps, Shape(st.tables), s, c) && i < |c|
    ensures Available(st) > 0 || Resident(st.tables) ==>
      Clean(st, ps, repaired, Listing(ps, s, c, i)) &&
      Clean(st, ps, repaired, Walk(ps, s, c, i)) && Clean(st, ps, repaired, Search(ps, s, c, i, size))
      && ((i == |c| - 1 ==> c[i].free) ==> Clean(st, ps, repaired, Seek(ps, s, c, i)))
    ensures Resident(st.tables) ==>
      Play(st, ps, repaired, Walk(ps, s, c, i)).tables == st.tables
      && Play(st, ps, repaired, Search(ps, s, c, i, size)).tables == st.tables
  {
    hide Exclusive;
    hide Available;
    hide Resident;
    hide Clean;
    hide Play;
    hide Inside;
    hide Straddles;
    var lens := Shape(st.tables);
    WalkSteady(ps, lens, s, c, i);
    SearchSteady(ps, lens, s, c, i, size);
    ListingSteady(ps, lens, s, c, i);
    ReadsGo(st, ps, repaired, Listing(ps, s, c, i));
    ReadsGo(st, ps, repaired, Walk(ps, s, c, i));
    ReadsGo(st, ps, repaired, Search(ps, s, c, i, size));
    if i == |c| - 1 ==> c[i].free {
      SeekSteady(ps, lens, s, c, i);
      ReadsGo(st, ps, repaired, Seek(ps, s, c, i));
    }
  }

  /** The same for the search a request begins with. */
  lemma LookGoes(st: State, ps: nat, repaired: bool, s: nat, c: seq<Block>, total: nat)
    requires Exclusive(st, ps) && Fills(ps, Shape(st.tables), s, c)
    ensures Available(st) > 0 || Resident(st.tables) ==> Clean(st, ps, repaired, Look(ps, s, c, total))
  {
    hide Exclusive;
    hide Available;
    hide Resident;
    hide Clean;
    hide Inside;
    hide Straddles;
    LookSteady(ps, Shape(st.tables), s, c, total);
    ReadsGo(st, ps, repaired, Look(ps, s, c, total));
  }

  lemma ReadsGo(st: State, ps: nat, repaired: bool, l: seq<Access>)
    requires Exclusive(st, ps) && ps >= HEADER && Steady(ps, Shape(st.tables), l) && Unbroken(ps, l)
    ensures Available(st) > 0 || Resident(st.tables) ==> Clean(st, ps, repaired, l)
    ensures Resident(st.tables) ==> Play(st, ps, repaired, l).tables == st.tables
  {
    hide Exclusive;
    hide Available;
    hide Resident;
    hide Clean;
    hide Play;
    SteadyInRange(ps, Shape(st.tables), l);
    if Available(st) > 0 {
      AllGo(st, ps, repaired, l);
    }
    if Resident(st.tables) {
      ResidentAllGo(st, ps, repaired, l);
    }
  }

  // ----- the theorems -----

  /** The page counts of a server whose segments are tiled by the chains of `h`. */
  lemma ServerFills(st: State, ps: nat, h: H.System, total: nat)
    requires Exclusive(st, ps) && Sane(st) && Balanced(st) && ps >= HEADER && H.Ordered(h)
    requires total == |st.frames| + |st.swap| && PageStart(total, ps) < WORD
    requires Tiled(Flats(st), h.chains) && h.avail == Available(st)
    ensures Filled(ps, Shape(st.tables), h)
  {
    hide Exclusive;
    hide Balanced;
    hide Available;
    hide PageStart;
    hide Sane;
    Spares(st, ps, 0);
    PageMonotone(Available(st), total, ps);
    forall i | 0 <= i < |st.tables|
      ensures Laid(ps, Shape(st.tables), i, h.chains[i]) && PageStart(|st.tables[i]| + h.avail, ps) < WORD
    {
      assert Tiles(Flats(st)[i], h.chains[i]);
      SegmentSize(st, ps, i, total);
      Spares(st, ps, i);
      PageMonotone(|st.tables[i]| + Available(st), total, ps);
    }
  }

  lemma Spares(st: State, ps: nat, i: nat)
    requires Exclusive(st, ps) && Balanced(st)
    ensures Available(st) <= |st.frames| + |st.swap|
    ensures i < |st.tables| ==> |st.tables[i]| + Available(st) <= |st.frames| + |st.swap|
  {
    if i < |st.tables| {
      SegmentFits(st.tables, i);
    }
  }

  /** A free goes through when no header of the chain is cut, or with the repair, while a frame or a slot is free. */
  lemma ReleaseGoes(st: State, ps: nat, repaired: bool, guarded: bool, h: H.System, i: nat, k: nat)
    requires Exclusive(st, ps) && Filled(ps, Shape(st.tables), h) && h.avail == Available(st)
    requires i < |h.chains| && k < |h.chains[i]| && !h.chains[i][k].free
    ensures Available(st) > 0 && (repaired || Whole(ps, h.chains[i])) ==>
      Clean(st, ps, repaired, Release(ps, i, guarded, h.chains[i], k))
    ensures Resident(st.tables) ==>
      Clean(st, ps, repaired, Release(ps, i, guarded, h.chains[i], k))
      && Play(st, ps, repaired, Release(ps, i, guarded, h.chains[i], k)).tables == st.tables
  {
    hide Exclusive;
    hide Available;
    hide Resident;
    hide Clean;
    hide Play;
    hide Release;
    hide Whole;
    hide Inside;
    var c, lens := h.chains[i], Shape(st.tables);
    var l := Release(ps, i, guarded, c, k);
    assert Laid(ps, lens, i, c);
    ReleaseSteady(ps, lens, i, guarded, c, k);
    SteadyInRange(ps, lens, l);
    if Available(st) > 0 && (repaired || Whole(ps, c)) {
      AllGo(st, ps, repaired, l);
    }
    if Resident(st.tables) {
      ResidentAllGo(st, ps, repaired, l);
    }
  }

  /**
   More frames and slots are free than the request adds pages, and no header it leaves is cut, or
   the repair is in place.
   */
  ghost predicate Certain(ps: nat, repaired: bool, h: H.System, pid: nat, size: int)
    requires ps > 0 && H.Ordered(h)
  {
    && H.Malloc(ps, h, pid, size).1 != H.Overrun
    && (size > 0 ==> H.Extra(ps, h, pid, size) < h.avail)
    && (repaired || WholeAfter(ps, h, pid, size))
  }

  /** The pages it adds find `free` frames. */
  ghost predicate Framed(ps: nat, h: H.System, pid: nat, size: int, free: nat)
    requires ps > 0 && H.Ordered(h)
  {
    H.Malloc(ps, h, pid, size).1 != H.Overrun && (size > 0 ==> H.Extra(ps, h, pid, size) <= free)
  }

  /**
   A request short of an overrun goes through when more frames and slots are free than it adds
   pages, and either the chain it leaves has no cut header or cut headers are written repaired.
   */
  lemma RequestGoes(st: State, ps: nat, repaired: bool, h: H.System, pid: nat, size: int)
    requires Exclusive(st, ps) && Filled(ps, Shape(st.tables), h) && h.avail == Available(st)
    requires H.Malloc(ps, h, pid, size).1 != H.Overrun
    ensures Certain(ps, repaired, h, pid, size) ==> Clean(st, ps, repaired, Request(ps, h, pid, size))
    ensures Resident(st.tables) && Framed(ps, h, pid, size, CountTrue(st.frameFree)) ==>
      Clean(st, ps, repaired, Request(ps, h, pid, size))
      && Resident(Play(st, ps, repaired, Request(ps, h, pid, size)).tables)
  {
    hide Exclusive;
    hide Available;
    hide Resident;
    hide Play;
    hide H.Malloc;
    hide H.Extra;
    hide WholeAfter;
    hide Laid;
    hide Clean;
    hide Request;
    hide PagesAdded;
    hide InRange;
    hide CountTrue;
    var l := Request(ps, h, pid, size);
    var a := WholeAfter(ps, h, pid, size);
    RequestExtends(ps, Shape(st.tables), h, pid, size, a);
    if size <= 0 || size + HEADER > PageStart(h.avail, ps) {
      Idle(ps, h, pid, size);
      Begun(st, ps, repaired, l);
      Ended(st, ps, repaired, l, st);
    } else {
      assert h.avail > 0;
      if H.Extra(ps, h, pid, size) < h.avail && (repaired || a) {
        AllGo(st, ps, repaired, l);
      }
      if Resident(st.tables) && H.Extra(ps, h, pid, size) <= CountTrue(st.frameFree) {
        ResidentAllGo(st, ps, repaired, l);
      }
    }
  }
}
