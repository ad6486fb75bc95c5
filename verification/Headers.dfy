/**
 `modificar_metadata` on pages: the write as the code makes it, one page or two, the run on which
 a header across two pages is torn, and exactly when the write is the one it is meant to be on
 the flat bytes.
 */
module Headers {
  import opened Bytes
  import opened Sizes
  import opened Chain
  import opened Layout
  import opened Clock
  import opened Paging
  import opened Segments

  /** What every access to a segment needs: exclusive pages and one frame or slot to spare. */
  ghost predicate Roomy(st: State, ps: nat)
  {
    Exclusive(st, ps) && Available(st) > 0
  }

  lemma RoomyLoad(st: State, s: nat, p: nat, ps: nat)
    requires Roomy(st, ps) && Spot(st.tables, s, p)
    ensures CanLoad(st, s, p) && Sane(st) && (FirstTrue(st.frameFree, 0) == -1 ==> SomePresent(st.tables))
    ensures var st' := Load(st, s, p);
            && Roomy(st', ps) && SameContents(st, st', ps) && Available(st') == Available(st)
            && st'.tables[s][p].present
            && st'.tables[s][p].fr < |st'.frames| && |st'.frames[st'.tables[s][p].fr]| == ps
  {
    CountZero(st.frameFree);
    CountZero(st.slotFree);
    LoadKeeps(st, s, p, ps);
  }

  /** `obtener_data_marco_heap` where there is room for it. */
  function Fetch(st: State, ps: nat, s: nat, p: nat): (st': State)
    requires Roomy(st, ps) && Spot(st.tables, s, p)
    ensures Roomy(st', ps) && SameContents(st, st', ps) && Available(st') == Available(st)
    ensures SameShape(st.tables, st'.tables)
    ensures st'.tables[s][p].present
    ensures st'.tables[s][p].fr < |st'.frames| && |st'.frames[st'.tables[s][p].fr]| == ps
    ensures |st'.frames| == |st.frames|
  {
    RoomyLoad(st, s, p, ps);
    Load(st, s, p)
  }

  function PutFrame(st: State, f: nat, off: nat, x: seq<byte>): (st': State)
    requires f < |st.frames| && off + |x| <= |st.frames[f]|
    ensures |st'.frames| == |st.frames| && forall g | 0 <= g < |st.frames| :: |st'.frames[g]| == |st.frames[g]|
    ensures st'.tables == st.tables
  {
    st.(frames := st.frames[f := Splice(st.frames[f], off, x)])
  }

  /** `x` to the tail of page `p`, `y` to the head of the next, through pointers taken as the code takes them. */
  function WriteTwo(st: State, ps: nat, s: nat, p: nat, x: seq<byte>, y: seq<byte>): (st': State)
    requires Roomy(st, ps) && Spot(st.tables, s, p) && Spot(st.tables, s, p + 1)
    requires |x| <= ps && |y| <= ps
  {
    var st1 := Fetch(st, ps, s, p);
    var f0 := st1.tables[s][p].fr;
    var st2 := Fetch(st1, ps, s, p + 1);
    var f1 := st2.tables[s][p + 1].fr;
    FrameSizes(st2, ps);
    PutFrame(PutFrame(st2, f0, ps - |x|, x), f1, 0, y)
  }

  lemma FrameSizes(st: State, ps: nat)
    requires Roomy(st, ps)
    ensures forall f | 0 <= f < |st.frames| :: |st.frames[f]| == ps
  {
  }

  /**
   The failing family: the second page is on swap, no frame is free, and the clock, asked for
   a victim once the first page is in, picks the first page.
   */
  ghost predicate TearsAt(st: State, ps: nat, s: nat, p: nat)
    requires Roomy(st, ps) && Spot(st.tables, s, p) && Spot(st.tables, s, p + 1)
  {
    var st1 := Fetch(st, ps, s, p);
    && !st1.tables[s][p + 1].present
    && FirstTrue(st1.frameFree, 0) == -1
    && ChosenIs(st1, s, p)
  }

  ghost predicate ChosenIs(st: State, s: nat, p: nat)
  {
    SomePresent(st.tables) && var c := Victim(st.tables, st.handSeg, st.handPage); c.seg == s && c.page == p
  }

  /** A present page stays where it is through a load unless the clock picks it. */
  lemma StaysPut(st: State, ps: nat, s: nat, p: nat, q: nat)
    requires Roomy(st, ps) && Spot(st.tables, s, p) && Spot(st.tables, s, q) && p != q && st.tables[s][p].present
    ensures var st' := Fetch(st, ps, s, q); var x := st'.tables[s][p];
            if !st.tables[s][q].present && FirstTrue(st.frameFree, 0) == -1 && ChosenIs(st, s, p)
            then !x.present && st'.tables[s][q].fr == st.tables[s][p].fr
            else x.present && x.fr == st.tables[s][p].fr
  {
    RoomyLoad(st, s, q, ps);
    if !st.tables[s][q].present && FirstTrue(st.frameFree, 0) == -1 {
      FullHasPresent(st, ps);
      CountZero(st.frameFree);
      CountZero(st.slotFree);
      ReplaceMoves(st, s, p, q);
    }
  }

  lemma ReplaceMoves(st: State, s: nat, p: nat, q: nat)
    requires SomePresent(st.tables) && Sane(st) && FirstTrue(st.slotFree, 0) != -1
    requires Spot(st.tables, s, p) && Spot(st.tables, s, q) && p != q && st.tables[s][p].present
    ensures var r := Replace(st); var x := r.0.tables[s][p];
            if ChosenIs(st, s, p) then !x.present && r.1 == st.tables[s][p].fr
            else x.present && x.fr == st.tables[s][p].fr
  {
    VictimMapping(st.tables, st.handSeg, st.handPage);
  }

  /** Segment `i` reads as the bytes `m`. */
  ghost predicate Shows(st: State, ps: nat, i: nat, m: seq<byte>)
  {
    Exclusive(st, ps) && i < |st.tables| && Flat(st, i) == m
  }

  lemma FetchShows(st: State, ps: nat, s: nat, p: nat, i: nat, m: seq<byte>)
    requires Roomy(st, ps) && Spot(st.tables, s, p) && Shows(st, ps, i, m)
    ensures Shows(Fetch(st, ps, s, p), ps, i, m)
  {
    FlatSame(st, Fetch(st, ps, s, p), ps, i);
  }

  /** With both pages staying, the two writes are one write on flat bytes. */
  lemma WriteTwoFlat(st: State, ps: nat, s: nat, p: nat, x: seq<byte>, y: seq<byte>, m: seq<byte>)
    requires Roomy(st, ps) && Spot(st.tables, s, p) && Spot(st.tables, s, p + 1) && Shows(st, ps, s, m)
    requires |x| <= ps && |y| <= ps && !TearsAt(st, ps, s, p)
    ensures PageStart(p, ps) + ps + |y| <= |m|
    ensures var st' := WriteTwo(st, ps, s, p, x, y);
            && Roomy(st', ps) && SameShape(st.tables, st'.tables) && Available(st') == Available(st)
            && Shows(st', ps, s, Splice(m, PageStart(p, ps) + ps - |x|, x + y))
  {
    hide Exclusive;
    hide SameContents;
    var st1 := Fetch(st, ps, s, p);
    FetchShows(st, ps, s, p, s, m);
    StaysPut(st1, ps, s, p, p + 1);
    FetchShows(st1, ps, s, p + 1, s, m);
    var st2 := Fetch(st1, ps, s, p + 1);
    FrameSizes(st2, ps);
    TwoFrames(st2, ps, s, p, x, y, m, st2.tables[s][p].fr, st2.tables[s][p + 1].fr);
  }

  /** And every other segment keeps its bytes. */
  lemma WriteTwoOther(st: State, ps: nat, s: nat, p: nat, x: seq<byte>, y: seq<byte>, i: nat, m: seq<byte>)
    requires Roomy(st, ps) && Spot(st.tables, s, p) && Spot(st.tables, s, p + 1) && Shows(st, ps, i, m) && i != s
    requires |x| <= ps && |y| <= ps && !TearsAt(st, ps, s, p)
    ensures Shows(WriteTwo(st, ps, s, p, x, y), ps, i, m)
  {
    hide Exclusive;
    hide SameContents;
    var st1 := Fetch(st, ps, s, p);
    var st2 := Fetch(st1, ps, s, p + 1);
    FetchShows(st, ps, s, p, i, m);
    StaysPut(st1, ps, s, p, p + 1);
    FetchShows(st1, ps, s, p + 1, i, m);
    OtherFrame(st2, ps, s, p, ps - |x|, x, i, m);
    OtherFrame(PutFrame(st2, st2.tables[s][p].fr, ps - |x|, x), ps, s, p + 1, 0, y, i, m);
  }

  lemma OneFrame(st: State, ps: nat, s: nat, p: nat, off: nat, x: seq<byte>, m: seq<byte>)
    requires Shows(st, ps, s, m) && Spot(st.tables, s, p) && st.tables[s][p].present && off + |x| <= ps
    ensures st.tables[s][p].fr < |st.frames| && |st.frames[st.tables[s][p].fr]| == ps
    ensures PageStart(p, ps) + off + |x| <= |m|
    ensures var st' := PutFrame(st, st.tables[s][p].fr, off, x);
            Shows(st', ps, s, Splice(m, PageStart(p, ps) + off, x)) && Available(st') == Available(st)
  {
    WriteFrameFlat(st, s, p, off, x, ps, s);
    hide Flat;
    hide Owned;
    hide Unshared;
    hide PageStart;
  }

  lemma OtherFrame(st: State, ps: nat, s: nat, p: nat, off: nat, x: seq<byte>, i: nat, m: seq<byte>)
    requires Shows(st, ps, i, m) && Spot(st.tables, s, p) && st.tables[s][p].present && off + |x| <= ps && i != s
    ensures st.tables[s][p].fr < |st.frames| && |st.frames[st.tables[s][p].fr]| == ps
    ensures Shows(PutFrame(st, st.tables[s][p].fr, off, x), ps, i, m)
  {
    WriteFrameFlat(st, s, p, off, x, ps, i);
    hide Flat;
    hide Owned;
    hide Unshared;
    hide PageStart;
  }

  /** The tail of one page and the head of the next, both present, are one run of bytes. */
  lemma TwoFrames(st: State, ps: nat, s: nat, p: nat, x: seq<byte>, y: seq<byte>, m: seq<byte>,
      f0: nat, f1: nat)
    requires Shows(st, ps, s, m) && Spot(st.tables, s, p) && Spot(st.tables, s, p + 1)
    requires Holds(st.tables, s, p, true, f0) && Holds(st.tables, s, p + 1, true, f1)
    requires f0 < |st.frames| && f1 < |st.frames| && |st.frames[f0]| == ps == |st.frames[f1]|
    requires |x| <= ps && |y| <= ps
    ensures PageStart(p, ps) + ps + |y| <= |m|
    ensures Shows(PutFrame(PutFrame(st, f0, ps - |x|, x), f1, 0, y), ps, s,
                  Splice(m, PageStart(p, ps) + ps - |x|, x + y))
    ensures Available(PutFrame(PutFrame(st, f0, ps - |x|, x), f1, 0, y)) == Available(st)
  {
    hide Shows;
    hide Splice;
    hide PageStart;
    hide PutFrame;
    PageRange(p, p + 1, ps);
    OneFrame(st, ps, s, p, ps - |x|, x, m);
    var at := PageStart(p, ps) + ps - |x|;
    OneFrame(PutFrame(st, f0, ps - |x|, x), ps, s, p + 1, 0, y, Splice(m, at, x));
    SpliceTwice(m, at, x, y);
  }

  /** A torn write never reaches the first page: its bytes are what they were. */
  lemma TornContent(st: State, ps: nat, s: nat, p: nat, x: seq<byte>, y: seq<byte>)
    requires Roomy(st, ps) && Spot(st.tables, s, p) && Spot(st.tables, s, p + 1)
    requires |x| + |y| <= ps && TearsAt(st, ps, s, p)
    ensures var st' := WriteTwo(st, ps, s, p, x, y);
            && Exclusive(st', ps) && SameShape(st.tables, st'.tables)
            && Content(st', s, p) == Content(st, s, p)
  {
    var st1 := Fetch(st, ps, s, p);
    var st2 := Fetch(st1, ps, s, p + 1);
    StaysPut(st1, ps, s, p, p + 1);
    var f := st2.tables[s][p + 1].fr;
    TornFrame(st2, ps, f, x, y);
    var z := Splice(Splice(st2.frames[f], ps - |x|, x), 0, y);
    WriteFrameKeeps(st2, s, p + 1, z, ps);
    SamePage(st, st1, ps, s, p);
    SamePage(st1, st2, ps, s, p);
  }

  lemma TornFrame(st: State, ps: nat, f: nat, x: seq<byte>, y: seq<byte>)
    requires f < |st.frames| && |st.frames[f]| == ps && |x| <= ps && |y| <= ps
    ensures PutFrame(PutFrame(st, f, ps - |x|, x), f, 0, y)
         == st.(frames := st.frames[f := Splice(Splice(st.frames[f], ps - |x|, x), 0, y)])
  {
  }

  lemma SamePage(st: State, st': State, ps: nat, s: nat, p: nat)
    requires Exclusive(st, ps) && Exclusive(st', ps) && SameContents(st, st', ps) && Spot(st.tables, s, p)
    ensures Spot(st'.tables, s, p) && Content(st', s, p) == Content(st, s, p)
  {
  }

  // ----- by address -----

  /** The header at `a` runs over its page's end. */
  predicate Straddles(ps: nat, a: nat)
    requires ps > 0
  {
    OffsetOf(a, ps) + HEADER > ps
  }

  /** The five bytes at `a` lie in segment `s`. */
  ghost predicate HeaderRoom(st: State, ps: nat, s: nat, a: nat)
  {
    ps >= HEADER && s < |st.tables| && a + HEADER <= PageStart(|st.tables[s]|, ps)
  }

  lemma HeaderPages(st: State, ps: nat, s: nat, a: nat)
    requires HeaderRoom(st, ps, s, a)
    ensures Spot(st.tables, s, PageOf(a, ps))
    ensures Straddles(ps, a) ==> Spot(st.tables, s, PageOf(a, ps) + 1)
  {
    AddressPage(a, HEADER, |st.tables[s]|, ps);
  }

  function WriteInside(st: State, ps: nat, s: nat, a: nat, h: Block): (st': State)
    requires Roomy(st, ps) && HeaderRoom(st, ps, s, a) && h.size < WORD && !Straddles(ps, a)
  {
    HeaderPages(st, ps, s, a);
    var st1 := Fetch(st, ps, s, PageOf(a, ps));
    PutFrame(st1, st1.tables[s][PageOf(a, ps)].fr, OffsetOf(a, ps), HeaderBytes(h))
  }

  function WriteAcross(st: State, ps: nat, s: nat, a: nat, h: Block): (st': State)
    requires Roomy(st, ps) && HeaderRoom(st, ps, s, a) && h.size < WORD && Straddles(ps, a)
  {
    HeaderPages(st, ps, s, a);
    var cut := ps - OffsetOf(a, ps);
    WriteTwo(st, ps, s, PageOf(a, ps), HeaderBytes(h)[..cut], HeaderBytes(h)[cut..])
  }

  /**
   As the code has it: the pointer into the first page is taken before the second page is
   loaded, and both halves of the header go through the pointers at hand.
   */
  function WriteHeader(st: State, ps: nat, s: nat, a: nat, h: Block): (st': State)
    requires Roomy(st, ps) && HeaderRoom(st, ps, s, a) && h.size < WORD
  {
    if Straddles(ps, a) then WriteAcross(st, ps, s, a, h) else WriteInside(st, ps, s, a, h)
  }

  ghost predicate Tears(st: State, ps: nat, s: nat, a: nat)
    requires Roomy(st, ps) && HeaderRoom(st, ps, s, a)
  {
    HeaderPages(st, ps, s, a);
    Straddles(ps, a) && TearsAt(st, ps, s, PageOf(a, ps))
  }

  /** The untorn write is the flat write. */
  lemma WriteHeaderFlat(st: State, ps: nat, s: nat, a: nat, h: Block, m: seq<byte>)
    requires Roomy(st, ps) && HeaderRoom(st, ps, s, a) && h.size < WORD
    requires !Tears(st, ps, s, a) && Shows(st, ps, s, m)
    ensures a + HEADER <= |m|
    ensures var st' := WriteHeader(st, ps, s, a, h);
            && Roomy(st', ps) && SameShape(st.tables, st'.tables) && Available(st') == Available(st)
            && Shows(st', ps, s, PutHeader(m, a, h))
  {
    hide Shows;
    hide Exclusive;
    hide WriteAcross;
    hide WriteInside;
    hide PutHeader;
    if Straddles(ps, a) {
      WriteCut(st, ps, s, a, h, m);
    } else {
      WriteWhole(st, ps, s, a, h, m);
    }
  }

  lemma WriteCut(st: State, ps: nat, s: nat, a: nat, h: Block, m: seq<byte>)
    requires Roomy(st, ps) && HeaderRoom(st, ps, s, a) && h.size < WORD && Straddles(ps, a)
    requires !Tears(st, ps, s, a) && Shows(st, ps, s, m)
    ensures a + HEADER <= |m|
    ensures var st' := WriteAcross(st, ps, s, a, h);
            && Roomy(st', ps) && SameShape(st.tables, st'.tables) && Available(st') == Available(st)
            && Shows(st', ps, s, PutHeader(m, a, h))
  {
    hide Shows;
    hide Exclusive;
    hide SameContents;
    hide WriteTwo;
    hide TearsAt;
    hide Splice;
    hide PageStart;
    hide HeaderBytes;
    hide PutHeader;
    hide Available;
    HeaderPages(st, ps, s, a);
    AddressPage(a, HEADER, |st.tables[s]|, ps);
    var cut := ps - OffsetOf(a, ps);
    WriteTwoFlat(st, ps, s, PageOf(a, ps), HeaderBytes(h)[..cut], HeaderBytes(h)[cut..], m);
    Halves(m, a, h, cut);
  }

  lemma Halves(m: seq<byte>, a: nat, h: Block, cut: nat)
    requires a + HEADER <= |m| && h.size < WORD && cut <= HEADER
    ensures Splice(m, a, HeaderBytes(h)[..cut] + HeaderBytes(h)[cut..]) == PutHeader(m, a, h)
  {
    assert HeaderBytes(h)[..cut] + HeaderBytes(h)[cut..] == HeaderBytes(h);
  }

  lemma WriteWhole(st: State, ps: nat, s: nat, a: nat, h: Block, m: seq<byte>)
    requires Roomy(st, ps) && HeaderRoom(st, ps, s, a) && h.size < WORD && !Straddles(ps, a)
    requires Shows(st, ps, s, m)
    ensures a + HEADER <= |m|
    ensures var st' := WriteInside(st, ps, s, a, h);
            && Roomy(st', ps) && SameShape(st.tables, st'.tables) && Available(st') == Available(st)
            && Shows(st', ps, s, PutHeader(m, a, h))
  {
    hide Shows;
    hide Exclusive;
    hide SameContents;
    hide Splice;
    hide PageStart;
    hide HeaderBytes;
    hide Available;
    HeaderPages(st, ps, s, a);
    AddressPage(a, HEADER, |st.tables[s]|, ps);
    var p := PageOf(a, ps);
    FetchShows(st, ps, s, p, s, m);
    OneFrame(Fetch(st, ps, s, p), ps, s, p, OffsetOf(a, ps), HeaderBytes(h), m);
    ShowsRoomy(WriteInside(st, ps, s, a, h), ps, s, PutHeader(m, a, h));
  }

  lemma ShowsRoomy(st: State, ps: nat, i: nat, m: seq<byte>)
    requires Shows(st, ps, i, m) && Available(st) > 0
    ensures Roomy(st, ps)
  {
  }

  /** An untorn write leaves every other segment alone. */
  lemma WriteHeaderOther(st: State, ps: nat, s: nat, a: nat, h: Block, i: nat, m: seq<byte>)
    requires Roomy(st, ps) && HeaderRoom(st, ps, s, a) && h.size < WORD
    requires !Tears(st, ps, s, a) && Shows(st, ps, i, m) && i != s
    ensures Shows(WriteHeader(st, ps, s, a, h), ps, i, m)
  {
    hide Shows;
    hide Exclusive;
    hide SameContents;
    hide WriteTwo;
    hide TearsAt;
    hide Splice;
    HeaderPages(st, ps, s, a);
    var p := PageOf(a, ps);
    if Straddles(ps, a) {
      var cut := ps - OffsetOf(a, ps);
      WriteTwoOther(st, ps, s, p, HeaderBytes(h)[..cut], HeaderBytes(h)[cut..], i, m);
    } else {
      FetchShows(st, ps, s, p, i, m);
      OtherFrame(Fetch(st, ps, s, p), ps, s, p, OffsetOf(a, ps), HeaderBytes(h), i, m);
    }
  }

  /** The write came out as asked, on this segment. */
  ghost predicate WritesRight(st: State, ps: nat, s: nat, a: nat, h: Block)
    requires Roomy(st, ps) && HeaderRoom(st, ps, s, a) && h.size < WORD
  {
    var st' := WriteHeader(st, ps, s, a, h);
    && Exclusive(st', ps) && SameShape(st.tables, st'.tables)
    && a + HEADER <= |Flat(st, s)| && Flat(st', s) == PutHeader(Flat(st, s), a, h)
  }

  /**
   `modificar_metadata` writes the header it was asked for, whatever that header is, exactly
   when it does not tear.
   */
  lemma WriteHeaderExact(st: State, ps: nat, s: nat, a: nat)
    requires Roomy(st, ps) && HeaderRoom(st, ps, s, a)
    ensures (forall h: Block | h.size < WORD :: WritesRight(st, ps, s, a, h)) <==> !Tears(st, ps, s, a)
  {
    if Tears(st, ps, s, a) {
      FlatLen(st, s, ps);
      var h := Block(if Flat(st, s)[a] == 0 then 1 else 0, true);
      assert h.size < WORD;
      if WritesRight(st, ps, s, a, h) {
        TornByte(st, ps, s, a, h, Flat(st, s), Flat(WriteHeader(st, ps, s, a, h), s));
        PutHeaderByte(Flat(st, s), a, h);
        assert false;
      }
    } else {
      forall h: Block | h.size < WORD ensures WritesRight(st, ps, s, a, h) {
        FlatLen(st, s, ps);
        WriteHeaderFlat(st, ps, s, a, h, Flat(st, s));
      }
    }
  }

  lemma PutHeaderByte(m: seq<byte>, a: nat, h: Block)
    requires a + HEADER <= |m| && h.size < 256
    ensures PutHeader(m, a, h)[a] == h.size
  {
    assert HeaderBytes(h)[0] == h.size;
  }

  /** A torn write leaves the first byte of the header as it was. */
  lemma TornByte(st: State, ps: nat, s: nat, a: nat, h: Block, m: seq<byte>, m': seq<byte>)
    requires Roomy(st, ps) && HeaderRoom(st, ps, s, a) && h.size < WORD && Tears(st, ps, s, a)
    requires Shows(st, ps, s, m) && Shows(WriteHeader(st, ps, s, a, h), ps, s, m')
    ensures a < |m| && a < |m'| && m'[a] == m[a]
  {
    HeaderPages(st, ps, s, a);
    var cut := ps - OffsetOf(a, ps);
    var p := PageOf(a, ps);
    TornContent(st, ps, s, p, HeaderBytes(h)[..cut], HeaderBytes(h)[cut..]);
    ByteAt(st, ps, s, a, m);
    ByteAt(WriteHeader(st, ps, s, a, h), ps, s, a, m');
    hide Exclusive;
    hide Splice;
    hide Flat;
    hide PutFrame;
  }

  lemma ByteAt(st: State, ps: nat, s: nat, a: nat, m: seq<byte>)
    requires Shows(st, ps, s, m) && a < PageStart(|st.tables[s]|, ps)
    ensures PageOf(a, ps) < |st.tables[s]| && |m| == PageStart(|st.tables[s]|, ps)
    ensures |Content(st, s, PageOf(a, ps))| == ps && m[a] == Content(st, s, PageOf(a, ps))[OffsetOf(a, ps)]
  {
    AddressPage(a, 1, |st.tables[s]|, ps);
    FlatLen(st, s, ps);
    var cs := Contents(st, s);
    var p := PageOf(a, ps);
    ConcatPage(cs, ps, p);
    assert Concat(cs)[PageStart(p, ps)..PageStart(p, ps) + ps][OffsetOf(a, ps)]
        == Concat(cs)[PageStart(p, ps) + OffsetOf(a, ps)];
  }
}
