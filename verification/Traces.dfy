/**
 The accesses the routines of module `Muse` make to pages, one after the other: what each does to
 the paging state, when it goes through, and what it means that a whole list of them has been made.
 `repaired` writes cut headers half by half.
 */
module Traces {
  import opened Bytes
  import opened Sizes
  import opened Chain
  import opened Layout
  import opened Clock
  import opened Paging
  import opened Segments
  import opened Headers
  import opened Views

  /** A page loaded, a header written, a page added to segment `s`, an empty page table added. */
  datatype Access = Touch(s: nat, p: nat) | Put(s: nat, a: nat, h: Block) | NewPage(s: nat) | NewTable

  /** `obtener_data_marco_heap` where it finds room. */
  ghost function Visit(st: State, ps: nat, s: nat, p: nat): (st': State)
    requires Exclusive(st, ps) && Spot(st.tables, s, p) && CanLoad(st, s, p)
    ensures Exclusive(st', ps) && SameContents(st, st', ps) && Available(st') == Available(st)
    ensures SameShape(st.tables, st'.tables) && st'.tables[s][p].present && |st'.frames| == |st.frames|
    ensures st'.tables[s][p].fr < |st'.frames| && forall f | 0 <= f < |st'.frames| :: |st'.frames[f]| == ps
  {
    LoadKeeps(st, s, p, ps);
    Load(st, s, p)
  }

  lemma PutFrameKeeps(st: State, ps: nat, f: nat, off: nat, x: seq<byte>)
    requires Exclusive(st, ps) && f < |st.frames| && off + |x| <= ps
    ensures |st.frames[f]| == ps
    ensures var st' := PutFrame(st, f, off, x);
            Exclusive(st', ps) && Available(st') == Available(st) && |st'.frames| == |st.frames|
  {
    var st' := PutFrame(st, f, off, x);
    assert Mapped(st') && Owned(st');
  }

  /** Page `p` loaded, then `x` written at `off` in it. */
  ghost function WriteAt(st: State, ps: nat, s: nat, p: nat, off: nat, x: seq<byte>): (st': State)
    requires Exclusive(st, ps) && Spot(st.tables, s, p) && CanLoad(st, s, p) && off + |x| <= ps
    ensures Exclusive(st', ps) && Available(st') == Available(st) && SameShape(st.tables, st'.tables)
  {
    var st1 := Visit(st, ps, s, p);
    PutFrameKeeps(st1, ps, st1.tables[s][p].fr, off, x);
    PutFrame(st1, st1.tables[s][p].fr, off, x)
  }

  /** The two loads of a header that runs over the end of page `p`: both find room, and the first page stays. */
  ghost predicate BothStay(st: State, ps: nat, s: nat, p: nat)
    requires Exclusive(st, ps) && Spot(st.tables, s, p) && Spot(st.tables, s, p + 1)
  {
    CanLoad(st, s, p) &&
    var st1 := Visit(st, ps, s, p);
    CanLoad(st1, s, p + 1) && Visit(st1, ps, s, p + 1).tables[s][p].present
  }

  ghost function PutBoth(st: State, ps: nat, f0: nat, f1: nat, x: seq<byte>, y: seq<byte>): (st': State)
    requires Exclusive(st, ps) && f0 < |st.frames| && f1 < |st.frames| && |x| <= ps && |y| <= ps
    ensures Exclusive(st', ps) && Available(st') == Available(st) && st'.tables == st.tables
  {
    PutFrameKeeps(st, ps, f0, ps - |x|, x);
    var st3 := PutFrame(st, f0, ps - |x|, x);
    PutFrameKeeps(st3, ps, f1, 0, y);
    PutFrame(st3, f1, 0, y)
  }

  /** Both pages loaded, then both halves written, as in the source. */
  ghost function WriteBoth(st: State, ps: nat, s: nat, p: nat, x: seq<byte>, y: seq<byte>): (st': State)
    requires Exclusive(st, ps) && Spot(st.tables, s, p) && Spot(st.tables, s, p + 1) && BothStay(st, ps, s, p)
    requires |x| <= ps && |y| <= ps
    ensures Exclusive(st', ps) && Available(st') == Available(st)
  {
    var st1 := Visit(st, ps, s, p);
    var st2 := Visit(st1, ps, s, p + 1);
    PutBoth(st2, ps, st1.tables[s][p].fr, st2.tables[s][p + 1].fr, x, y)
  }

  /** The first page loaded and its half written, then the second: the repair. */
  ghost predicate EachLoads(st: State, ps: nat, s: nat, p: nat, x: seq<byte>)
    requires Exclusive(st, ps) && Spot(st.tables, s, p) && Spot(st.tables, s, p + 1) && |x| <= ps
  {
    CanLoad(st, s, p) && CanLoad(WriteAt(st, ps, s, p, ps - |x|, x), s, p + 1)
  }

  ghost function WriteParts(st: State, ps: nat, s: nat, p: nat, x: seq<byte>, y: seq<byte>): (st': State)
    requires Exclusive(st, ps) && Spot(st.tables, s, p) && Spot(st.tables, s, p + 1) && |x| <= ps && |y| <= ps
    requires EachLoads(st, ps, s, p, x)
    ensures Exclusive(st', ps) && Available(st') == Available(st)
  {
    WriteAt(WriteAt(st, ps, s, p, ps - |x|, x), ps, s, p + 1, 0, y)
  }

  function Front(h: Block, a: nat, ps: nat): (x: seq<byte>)
    requires ps >= HEADER && h.size < WORD && Straddles(ps, a)
    ensures |x| == ps - OffsetOf(a, ps) <= ps
  {
    HeaderBytes(h)[..ps - OffsetOf(a, ps)]
  }

  function Back(h: Block, a: nat, ps: nat): (y: seq<byte>)
    requires ps >= HEADER && h.size < WORD && Straddles(ps, a)
    ensures |y| <= ps
  {
    HeaderBytes(h)[ps - OffsetOf(a, ps)..]
  }

  /** The access goes through: room for what it loads, a page to give, and no torn header. */
  ghost predicate Goes(st: State, ps: nat, repaired: bool, x: Access)
    requires Exclusive(st, ps) && ps >= HEADER
  {
    match x
    case Touch(s, p) => Spot(st.tables, s, p) && CanLoad(st, s, p)
    case Put(s, a, h) =>
      HeaderRoom(st, ps, s, a) && h.size < WORD &&
      (HeaderPages(st, ps, s, a);
       var p := PageOf(a, ps);
       if !Straddles(ps, a) then CanLoad(st, s, p)
       else if repaired then EachLoads(st, ps, s, p, Front(h, a, ps))
       else BothStay(st, ps, s, p))
    case NewPage(s) => s < |st.tables| && Available(st) > 0
    case NewTable => true
  }

  ghost function After(st: State, ps: nat, repaired: bool, x: Access): (st': State)
    requires Exclusive(st, ps) && ps >= HEADER && Goes(st, ps, repaired, x)
    ensures Exclusive(st', ps)
  {
    match x
    case Touch(s, p) => Visit(st, ps, s, p)
    case Put(s, a, h) =>
      HeaderPages(st, ps, s, a);
      var p := PageOf(a, ps);
      if !Straddles(ps, a) then WriteAt(st, ps, s, p, OffsetOf(a, ps), HeaderBytes(h))
      else if repaired then
        WriteParts(st, ps, s, p, Front(h, a, ps), Back(h, a, ps))
      else WriteBoth(st, ps, s, p, Front(h, a, ps), Back(h, a, ps))
    case NewPage(s) =>
      AddPageKeeps(st, s, ps);
      AddPage(st, s)
    case NewTable =>
      ExclusiveSane(st, ps);
      EmptySegment(st, ps);
      st.(tables := st.tables + [[]])
  }

  /** Every access goes through, in the state it is made in. */
  ghost predicate Clean(st: State, ps: nat, repaired: bool, l: seq<Access>)
    requires Exclusive(st, ps) && ps >= HEADER
    decreases |l|
  {
    l == [] || (Goes(st, ps, repaired, l[0]) && Clean(After(st, ps, repaired, l[0]), ps, repaired, l[1..]))
  }

  ghost function Play(st: State, ps: nat, repaired: bool, l: seq<Access>): (st': State)
    requires Exclusive(st, ps) && ps >= HEADER && Clean(st, ps, repaired, l)
    ensures Exclusive(st', ps)
    decreases |l|
  {
    if l == [] then st else Play(After(st, ps, repaired, l[0]), ps, repaired, l[1..])
  }

  /** The accesses `l` were made from `st`: all went through, ending in `st'`, exactly when `done`. */
  ghost predicate Plays(st: State, st': State, ps: nat, repaired: bool, l: seq<Access>, done: bool)
  {
    Exclusive(st, ps) && ps >= HEADER
    && (done <==> Clean(st, ps, repaired, l)) && (done ==> st' == Play(st, ps, repaired, l))
  }

  /** From `st` the accesses `rest` do what `all` do from `st0`. */
  ghost predicate Pending(st0: State, ps: nat, repaired: bool, all: seq<Access>, st: State, rest: seq<Access>)
  {
    Exclusive(st0, ps) && Exclusive(st, ps) && ps >= HEADER
    && (Clean(st0, ps, repaired, all) <==> Clean(st, ps, repaired, rest))
    && (Clean(st, ps, repaired, rest) ==> Play(st0, ps, repaired, all) == Play(st, ps, repaired, rest))
  }

  lemma {:induction false} PlaySum(st: State, ps: nat, repaired: bool, l: seq<Access>, m: seq<Access>)
    requires Exclusive(st, ps) && ps >= HEADER
    ensures Clean(st, ps, repaired, l + m) <==>
              Clean(st, ps, repaired, l) && Clean(Play(st, ps, repaired, l), ps, repaired, m)
    ensures Clean(st, ps, repaired, l + m) ==>
              Play(st, ps, repaired, l + m) == Play(Play(st, ps, repaired, l), ps, repaired, m)
    decreases |l|
  {
    if l == [] {
      assert l + m == m;
    } else {
      assert (l + m)[1..] == l[1..] + m;
      if Goes(st, ps, repaired, l[0]) {
        PlaySum(After(st, ps, repaired, l[0]), ps, repaired, l[1..], m);
      }
    }
  }

  /** What is to come is `l` and then `m`: if `l` does not go through, nothing does; otherwise `m` is to come. */
  lemma Ahead(st0: State, ps: nat, repaired: bool, all: seq<Access>, st: State, l: seq<Access>, m: seq<Access>)
    requires Pending(st0, ps, repaired, all, st, l + m)
    ensures !Clean(st, ps, repaired, l) ==> !Clean(st0, ps, repaired, all)
    ensures Clean(st, ps, repaired, l) ==> Pending(st0, ps, repaired, all, Play(st, ps, repaired, l), m)
  {
    hide Exclusive;
    hide Clean;
    hide Play;
    PlaySum(st, ps, repaired, l, m);
  }

  lemma Begun(st: State, ps: nat, repaired: bool, all: seq<Access>)
    requires Exclusive(st, ps) && ps >= HEADER
    ensures Pending(st, ps, repaired, all, st, all)
  {
  }

  lemma Ended(st0: State, ps: nat, repaired: bool, all: seq<Access>, st: State)
    requires Pending(st0, ps, repaired, all, st, [])
    ensures Plays(st0, st, ps, repaired, all, true)
  {
  }

  // ----- one access -----

  lemma OneAccess(st: State, ps: nat, repaired: bool, x: Access)
    requires Exclusive(st, ps) && ps >= HEADER
    ensures Clean(st, ps, repaired, [x]) <==> Goes(st, ps, repaired, x)
    ensures Goes(st, ps, repaired, x) ==> Play(st, ps, repaired, [x]) == After(st, ps, repaired, x)
  {
    hide Goes;
    hide After;
    hide Exclusive;
    assert [x][1..] == [];
    if Goes(st, ps, repaired, x) {
      assert Clean(After(st, ps, repaired, x), ps, repaired, [x][1..]);
      assert Play(After(st, ps, repaired, x), ps, repaired, [x][1..]) == After(st, ps, repaired, x);
    }
  }

  lemma OneTouch(st: State, ps: nat, repaired: bool, s: nat, p: nat)
    requires Exclusive(st, ps) && ps >= HEADER && Spot(st.tables, s, p)
    ensures Sane(st) && (FirstTrue(st.frameFree, 0) == -1 ==> SomePresent(st.tables))
    ensures Plays(st, Load(st, s, p), ps, repaired, [Touch(s, p)], CanLoad(st, s, p))
  {
    hide Exclusive;
    hide Load;
    hide CanLoad;
    LoadExact(st, s, p, ps);
    OneAccess(st, ps, repaired, Touch(s, p));
  }

  lemma PutInside(st: State, ps: nat, repaired: bool, s: nat, a: nat, h: Block)
    requires Exclusive(st, ps) && HeaderRoom(st, ps, s, a) && h.size < WORD && !Straddles(ps, a)
    ensures Spot(st.tables, s, PageOf(a, ps))
    ensures Clean(st, ps, repaired, [Put(s, a, h)]) <==> CanLoad(st, s, PageOf(a, ps))
    ensures CanLoad(st, s, PageOf(a, ps)) ==>
      Play(st, ps, repaired, [Put(s, a, h)]) == WriteAt(st, ps, s, PageOf(a, ps), OffsetOf(a, ps), HeaderBytes(h))
  {
    hide Exclusive;
    hide WriteAt;
    hide CanLoad;
    HeaderPages(st, ps, s, a);
    OneAccess(st, ps, repaired, Put(s, a, h));
  }

  lemma PutAcross(st: State, ps: nat, s: nat, a: nat, h: Block)
    requires Exclusive(st, ps) && HeaderRoom(st, ps, s, a) && h.size < WORD && Straddles(ps, a)
    ensures Spot(st.tables, s, PageOf(a, ps)) && Spot(st.tables, s, PageOf(a, ps) + 1)
    ensures Clean(st, ps, false, [Put(s, a, h)]) <==> BothStay(st, ps, s, PageOf(a, ps))
    ensures BothStay(st, ps, s, PageOf(a, ps)) ==>
      Play(st, ps, false, [Put(s, a, h)]) == WriteBoth(st, ps, s, PageOf(a, ps), Front(h, a, ps), Back(h, a, ps))
  {
    hide Exclusive;
    hide WriteBoth;
    hide BothStay;
    HeaderPages(st, ps, s, a);
    OneAccess(st, ps, false, Put(s, a, h));
  }

  lemma PutInOrder(st: State, ps: nat, s: nat, a: nat, h: Block)
    requires Exclusive(st, ps) && HeaderRoom(st, ps, s, a) && h.size < WORD && Straddles(ps, a)
    ensures Spot(st.tables, s, PageOf(a, ps)) && Spot(st.tables, s, PageOf(a, ps) + 1)
    ensures Clean(st, ps, true, [Put(s, a, h)]) <==> EachLoads(st, ps, s, PageOf(a, ps), Front(h, a, ps))
    ensures EachLoads(st, ps, s, PageOf(a, ps), Front(h, a, ps)) ==>
      Play(st, ps, true, [Put(s, a, h)]) == WriteParts(st, ps, s, PageOf(a, ps), Front(h, a, ps), Back(h, a, ps))
  {
    hide Exclusive;
    hide WriteParts;
    hide EachLoads;
    HeaderPages(st, ps, s, a);
    OneAccess(st, ps, true, Put(s, a, h));
  }

  lemma OneNewPage(st: State, ps: nat, repaired: bool, s: nat)
    requires Exclusive(st, ps) && ps >= HEADER && s < |st.tables|
    ensures Sane(st) && (FirstTrue(st.frameFree, 0) == -1 ==> SomePresent(st.tables))
    ensures Plays(st, AddPage(st, s), ps, repaired, [NewPage(s)], Available(st) > 0)
  {
    hide Exclusive;
    hide AddPage;
    AddPageExact(st, s, ps);
    OneAccess(st, ps, repaired, NewPage(s));
  }

  lemma OneTable(st: State, ps: nat, repaired: bool)
    requires Exclusive(st, ps) && ps >= HEADER
    ensures Plays(st, st.(tables := st.tables + [[]]), ps, repaired, [NewTable], true)
  {
    hide Exclusive;
    OneAccess(st, ps, repaired, NewTable);
  }
}
