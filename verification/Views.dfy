/**
 What the routines of module `Muse` do to the paging state, seen as flat segments: how far a scan
 of the clock has got, what stays the same when pages move, what a header write or a new page
 changes, and when nothing can be lost because every page has its frame. Module `Muse` states its
 contracts with these predicates and leans on these lemmas.
 */
module Views {
  import opened Bytes
  import opened Sizes
  import opened Chain
  import opened Layout
  import opened Clock
  import opened Paging
  import opened Segments
  import opened Headers
  import opened Copies

  /** Where one pass of the clock stands: `base` is the tables as they were when the pass began. */
  ghost predicate Scanning(t0: Tables, hs: nat, hp: nat, passes: nat, base: Tables, t: Tables, s: nat, p: nat)
  {
    && SomePresent(t0) && SameShape(t0, t)
    && 1 <= passes <= 4
    && base == (if passes <= 2 then t0 else Cleared(t0))
    && t == (if passes == 2 then ClearTo(base, s, p) else base)
    && (passes > 1 ==> Find(t0, false, hs, hp + 1).None?)
    && (passes > 2 ==> Find(t0, true, 0, 0).None?)
    && (passes > 3 ==> Find(base, false, 0, 0).None?)
    && Find(base, passes % 2 == 0, if passes == 1 then hs else 0, if passes == 1 then hp + 1 else 0)
         == Find(base, passes % 2 == 0, s, p)
  }

  /** The page under the hand is what this pass looks for. */
  lemma ScanHit(t0: Tables, hs: nat, hp: nat, passes: nat, base: Tables, t: Tables, s: nat, p: nat)
    requires Scanning(t0, hs, hp, passes, base, t, s, p) && Spot(t, s, p) && Wanted(t[s][p], passes % 2 == 0)
    ensures Victim(t0, hs, hp) == Choice(t, s, p, passes)
  {
    assert base[s][p] == t[s][p];
    assert Find(base, passes % 2 == 0, s, p) == Some((s, p));
  }

  /** The page is passed over; in the second pass its use bit falls. */
  lemma ScanMiss(t0: Tables, hs: nat, hp: nat, passes: nat, base: Tables, t: Tables, s: nat, p: nat)
    requires Scanning(t0, hs, hp, passes, base, t, s, p) && Spot(t, s, p) && !Wanted(t[s][p], passes % 2 == 0)
    ensures var x := t[s][p];
            var u := if passes % 2 == 0 && x.present then SetPage(t, s, p, x.(used := false)) else t;
            Scanning(t0, hs, hp, passes, base, u, s, p + 1)
  {
    assert base[s][p] == t[s][p];
    var x := t[s][p];
    var u := if passes % 2 == 0 && x.present then SetPage(t, s, p, x.(used := false)) else t;
    if passes == 2 {
      SameTables(u, ClearTo(base, s, p + 1));
    } else {
      SameTables(u, t);
    }
  }

  lemma SameTables(t: Tables, u: Tables)
    requires SameShape(t, u) && forall i: nat, j: nat | Spot(t, i, j) :: t[i][j] == u[i][j]
    ensures t == u
  {
    forall i | 0 <= i < |t| ensures t[i] == u[i] {
      assert forall j: nat | j < |t[i]| :: Spot(t, i, j);
    }
  }

  lemma ScanStart(t: Tables, hs: nat, hp: nat)
    requires SomePresent(t)
    ensures Scanning(t, hs, hp, 1, t, t, hs, hp + 1)
  {
  }

  lemma ScanShape(t0: Tables, hs: nat, hp: nat, passes: nat, base: Tables, t: Tables, s: nat, p: nat)
    requires Scanning(t0, hs, hp, passes, base, t, s, p)
    ensures SomePresent(t0) && SameShape(t0, t) && SameMapping(t0, t) && 1 <= passes <= 4
  {
  }

  /** The victim leaves; moving the hand before or after makes no difference. */
  lemma ReplaceIs(st: State, c: Choice)
    requires Sane(st) && SomePresent(st.tables) && c == Victim(st.tables, st.handSeg, st.handPage)
    ensures var st1 := st.(tables := c.tables);
            && Sane(st1) && Spot(c.tables, c.seg, c.page) && c.tables[c.seg][c.page].present
            && Replace(st) == (Evict(st1, c.seg, c.page).(handSeg := c.seg, handPage := c.page),
                               c.tables[c.seg][c.page].fr)
  {
    VictimMapping(st.tables, st.handSeg, st.handPage);
  }

  lemma ScanNext(t0: Tables, hs: nat, hp: nat, passes: nat, base: Tables, t: Tables, s: nat, p: nat)
    requires Scanning(t0, hs, hp, passes, base, t, s, p) && s < |t| && p >= |t[s]|
    ensures Scanning(t0, hs, hp, passes, base, t, s + 1, 0)
  {
    if passes == 2 {
      SameTables(ClearTo(base, s, p), ClearTo(base, s + 1, 0));
    }
  }

  /** A pass that ends without a victim is followed by the next; the fourth never ends so. */
  lemma ScanWrap(t0: Tables, hs: nat, hp: nat, passes: nat, base: Tables, t: Tables, s: nat, p: nat)
    requires Scanning(t0, hs, hp, passes, base, t, s, p) && s >= |t|
    ensures passes < 4 && Scanning(t0, hs, hp, passes + 1, t, t, 0, 0)
  {
    if passes == 4 {
      AllDirty(t0);
      assert false;
    }
    if passes == 1 {
      SameTables(t, ClearTo(t, 0, 0));
    }
    if passes == 2 {
      SameTables(t, Cleared(base));
    }
  }

  /** Nothing is on swap, so no load moves anything. */
  ghost predicate Resident(t: Tables)
  {
    forall s: nat, p: nat | Spot(t, s, p) :: t[s][p].present
  }

  // ----- the flat view of every segment -----

  ghost function Flats(st: State): (f: seq<seq<byte>>)
    requires Sane(st)
    ensures |f| == |st.tables| && forall i | 0 <= i < |f| :: f[i] == Flat(st, i)
  {
    seq(|st.tables|, (i: nat) requires i < |st.tables| => Flat(st, i))
  }

  /** From `st` to `st'` pages may have moved, but not multiplied; the segments now read as `f`. */
  ghost predicate Evolves(st: State, st': State, ps: nat, f: seq<seq<byte>>)
  {
    && Exclusive(st', ps) && Sane(st') && SameShape(st.tables, st'.tables) && Available(st') == Available(st)
    && Flats(st') == f
  }

  lemma EvolvesRoom(st: State, st': State, ps: nat, f: seq<seq<byte>>, s: nat, a: nat)
    requires Evolves(st, st', ps, f) && HeaderRoom(st, ps, s, a)
    ensures Exclusive(st', ps) && Sane(st') && HeaderRoom(st', ps, s, a) && Flats(st') == f
  {
    hide Exclusive;
    hide Flats;
    hide PageStart;
  }

  lemma StillTiled(st: State, st': State, ps: nat, s: nat, c: seq<Block>)
    requires Sane(st) && s < |st.tables| && Evolves(st, st', ps, Flats(st)) && Tiles(Flats(st)[s], c)
    ensures Exclusive(st', ps) && Sane(st') && s < |st'.tables| && Flats(st') == Flats(st)
    ensures Tiles(Flats(st')[s], c)
  {
    hide Exclusive;
    hide Flats;
    hide Tiles;
  }

  lemma EvolvesTrans(st0: State, st1: State, st2: State, ps: nat, f: seq<seq<byte>>, g: seq<seq<byte>>)
    requires Evolves(st0, st1, ps, f) && Evolves(st1, st2, ps, g)
    ensures Evolves(st0, st2, ps, g)
  {
    hide Exclusive;
    hide Flats;
  }

  lemma ExclusiveSane(st: State, ps: nat)
    requires Exclusive(st, ps)
    ensures Sane(st)
  {
  }

  lemma LoadEvolves(st: State, s: nat, p: nat, ps: nat)
    requires Exclusive(st, ps) && Spot(st.tables, s, p) && CanLoad(st, s, p)
    ensures Sane(st) && (FirstTrue(st.frameFree, 0) == -1 ==> SomePresent(st.tables))
    ensures Evolves(st, Load(st, s, p), ps, Flats(st)) && Load(st, s, p).tables[s][p].present
  {
    LoadKeeps(st, s, p, ps);
    var st' := Load(st, s, p);
    forall i: nat | i < |st.tables| ensures Flat(st', i) == Flat(st, i) {
      FlatSame(st, st', ps, i);
    }
    assert Flats(st') == Flats(st);
  }

  lemma AvailableLoads(st: State, s: nat, p: nat)
    requires Spot(st.tables, s, p) && Available(st) > 0
    ensures CanLoad(st, s, p)
  {
    CountZero(st.frameFree);
    CountZero(st.slotFree);
  }

  /** The frame of a present page holds that stretch of its segment. */
  lemma FrameIsSlice(st: State, ps: nat, s: nat, p: nat)
    requires Exclusive(st, ps) && Spot(st.tables, s, p) && st.tables[s][p].present
    ensures st.tables[s][p].fr < |st.frames|
    ensures PageStart(p, ps) + ps <= |Flats(st)[s]| == PageStart(|st.tables[s]|, ps)
    ensures st.frames[st.tables[s][p].fr] == Flats(st)[s][PageStart(p, ps)..PageStart(p, ps) + ps]
  {
    FlatLen(st, s, ps);
    ConcatPage(Contents(st, s), ps, p);
    assert Contents(st, s)[p] == st.frames[st.tables[s][p].fr];
  }

  lemma HeaderInside(m: seq<byte>, base: nat, ps: nat, off: nat)
    requires base + ps <= |m| && off + HEADER <= ps
    ensures ReadHeader(m[base..base + ps][off..off + HEADER]) == HeaderAt(m, base + off)
  {
    var page := m[base..base + ps];
    assert forall k | 0 <= k < ps :: page[k] == m[base + k];
    assert page[off..off + HEADER] == m[base + off..base + off + HEADER];
  }

  lemma HeaderAcross(m: seq<byte>, base: nat, ps: nat, off: nat)
    requires base + ps + ps <= |m| && off <= ps < off + HEADER && HEADER <= ps
    ensures ReadHeader(m[base..base + ps][off..] + m[base + ps..base + ps + ps][..off + HEADER - ps])
         == HeaderAt(m, base + off)
  {
    assert m[base..base + ps][off..] + m[base + ps..base + ps + ps][..off + HEADER - ps]
        == m[base + off..base + off + HEADER];
  }

  lemma ShowsFlats(st: State, ps: nat, i: nat)
    requires Exclusive(st, ps) && i < |st.tables|
    ensures Sane(st) && Shows(st, ps, i, Flats(st)[i])
  {
  }

  /** One frame write. */
  lemma WroteOne(st: State, ps: nat, s: nat, p: nat, off: nat, x: seq<byte>)
    requires Exclusive(st, ps) && Spot(st.tables, s, p) && st.tables[s][p].present && off + |x| <= ps
    ensures Sane(st) && st.tables[s][p].fr < |st.frames| && |st.frames[st.tables[s][p].fr]| == ps
    ensures PageStart(p, ps) + off + |x| <= |Flats(st)[s]|
    ensures Evolves(st, PutFrame(st, st.tables[s][p].fr, off, x), ps,
                    Flats(st)[s := Splice(Flats(st)[s], PageStart(p, ps) + off, x)])
  {
    hide PageStart;
    hide Splice;
    hide Owned;
    hide Unshared;
    hide PutFrame;
    ShowsFlats(st, ps, s);
    var m := Flats(st)[s];
    OneFrame(st, ps, s, p, off, x, m);
    var st' := PutFrame(st, st.tables[s][p].fr, off, x);
    var f := Flats(st)[s := Splice(m, PageStart(p, ps) + off, x)];
    forall i: nat | i < |f| ensures Flats(st')[i] == f[i] {
      ShowsFlats(st, ps, i);
      if i != s {
        OtherFrame(st, ps, s, p, off, x, i, Flats(st)[i]);
      }
    }
    assert Flats(st') == f;
  }

  /** The two frame writes of a header that runs over a page's end. */
  lemma WroteTwo(st: State, ps: nat, s: nat, p: nat, x: seq<byte>, y: seq<byte>, f0: nat, f1: nat)
    requires Exclusive(st, ps) && Spot(st.tables, s, p) && Spot(st.tables, s, p + 1)
    requires Holds(st.tables, s, p, true, f0) && Holds(st.tables, s, p + 1, true, f1)
    requires |x| <= ps && |y| <= ps
    ensures Sane(st) && f0 < |st.frames| && f1 < |st.frames| && |st.frames[f0]| == ps == |st.frames[f1]|
    ensures PageStart(p, ps) + ps + |y| <= |Flats(st)[s]|
    ensures Evolves(st, PutFrame(PutFrame(st, f0, ps - |x|, x), f1, 0, y), ps,
                    Flats(st)[s := Splice(Flats(st)[s], PageStart(p, ps) + ps - |x|, x + y)])
  {
    hide Exclusive;
    hide PageStart;
    hide Splice;
    hide PutFrame;
    hide Flats;
    PageRange(p, p + 1, ps);
    ExclusiveSane(st, ps);
    var f := Flats(st);
    var at := PageStart(p, ps) + ps - |x|;
    WroteOne(st, ps, s, p, ps - |x|, x);
    var mid := PutFrame(st, f0, ps - |x|, x);
    WroteOne(st, ps, s, p + 1, 0, y);
    WroteOne(mid, ps, s, p + 1, 0, y);
    SpliceTwice(f[s], at, x, y);
    var g := f[s := Splice(f[s], at, x)];
    EvolvesTrans(st, mid, PutFrame(mid, f1, 0, y), ps, g, g[s := Splice(g[s], at + |x|, y)]);
    assert g[s := Splice(g[s], at + |x|, y)] == f[s := Splice(f[s], at, x + y)];
  }

  /** Where the clock sends the first page while the second is loaded decides whether the write tears. */
  lemma TearsAtIs(st: State, ps: nat, s: nat, p: nat)
    requires Roomy(st, ps) && Spot(st.tables, s, p) && Spot(st.tables, s, p + 1)
    ensures TearsAt(st, ps, s, p) <==> !Fetch(Fetch(st, ps, s, p), ps, s, p + 1).tables[s][p].present
  {
    hide Exclusive;
    hide SameContents;
    hide Available;
    StaysPut(Fetch(st, ps, s, p), ps, s, p, p + 1);
  }

  /** The state after a straddling header write, in terms of the two loads. */
  lemma AcrossIs(st0: State, st1: State, st2: State, ps: nat, s: nat, a: nat, h: Block,
      p: nat, x: seq<byte>, y: seq<byte>)
    requires Roomy(st0, ps) && HeaderRoom(st0, ps, s, a) && h.size < WORD && Straddles(ps, a)
    requires p == PageOf(a, ps) && Spot(st0.tables, s, p) && Spot(st0.tables, s, p + 1)
    requires x == HeaderBytes(h)[..ps - OffsetOf(a, ps)] && y == HeaderBytes(h)[ps - OffsetOf(a, ps)..]
    requires st1 == Fetch(st0, ps, s, p) && st2 == Fetch(st1, ps, s, p + 1)
    ensures Tears(st0, ps, s, a) <==> !st2.tables[s][p].present
    ensures st1.tables[s][p].fr < |st2.frames| && st2.tables[s][p + 1].fr < |st2.frames|
    ensures forall f | 0 <= f < |st2.frames| :: |st2.frames[f]| == ps
    ensures WriteHeader(st0, ps, s, a, h)
         == PutFrame(PutFrame(st2, st1.tables[s][p].fr, ps - |x|, x), st2.tables[s][p + 1].fr, 0, y)
  {
    hide Exclusive;
    hide SameContents;
    hide Available;
    hide HeaderBytes;
    hide PutFrame;
    hide TearsAt;
    FrameSizes(st2, ps);
    TearsAtIs(st0, ps, s, p);
  }

  /** Both halves of a header, in frames both pages are still in. */
  lemma CutEvolves(st0: State, st: State, ps: nat, s: nat, p: nat, off: nat, a: nat, h: Block,
      f0: nat, f1: nat)
    requires Sane(st0) && Evolves(st0, st, ps, Flats(st0)) && h.size < WORD
    requires Spot(st.tables, s, p) && Spot(st.tables, s, p + 1)
    requires Holds(st.tables, s, p, true, f0) && Holds(st.tables, s, p + 1, true, f1)
    requires off < ps && HEADER <= ps < off + HEADER && a == PageStart(p, ps) + off
    ensures f0 < |st.frames| && f1 < |st.frames| && |st.frames[f0]| == ps == |st.frames[f1]|
    ensures a + HEADER <= |Flats(st0)[s]|
    ensures Evolves(st0, PutFrame(PutFrame(st, f0, off, HeaderBytes(h)[..ps - off]), f1, 0, HeaderBytes(h)[ps - off..]),
                    ps, Flats(st0)[s := PutHeader(Flats(st0)[s], a, h)])
  {
    hide Exclusive;
    hide Flats;
    hide PageStart;
    hide PutFrame;
    hide HeaderBytes;
    hide Splice;
    hide Sane;
    var x, y := HeaderBytes(h)[..ps - off], HeaderBytes(h)[ps - off..];
    WroteTwo(st, ps, s, p, x, y, f0, f1);
    Halves(Flats(st0)[s], a, h, ps - off);
    EvolvesTrans(st0, st, PutFrame(PutFrame(st, f0, off, x), f1, 0, y), ps, Flats(st0),
                 Flats(st0)[s := PutHeader(Flats(st0)[s], a, h)]);
  }

  /** The same header with a load between the halves. */
  lemma PartsEvolve(st0: State, st1: State, st2: State, ps: nat, s: nat, p: nat, off: nat, a: nat, h: Block)
    requires Sane(st0) && s < |st0.tables| && h.size < WORD && off < ps && HEADER <= ps < off + HEADER
    requires a == PageStart(p, ps) + off && PageStart(p, ps) + off + ps - off <= |Flats(st0)[s]|
    requires s < |st1.tables| && Sane(st1) && PageStart(p + 1, ps) + 0 + |HeaderBytes(h)[ps - off..]| <= |Flats(st1)[s]|
    requires Evolves(st0, st1, ps,
      Flats(st0)[s := Splice(Flats(st0)[s], PageStart(p, ps) + off, HeaderBytes(h)[..ps - off])])
    requires Evolves(st1, st2, ps,
      Flats(st1)[s := Splice(Flats(st1)[s], PageStart(p + 1, ps) + 0, HeaderBytes(h)[ps - off..])])
    ensures a + HEADER <= |Flats(st0)[s]|
    ensures Evolves(st0, st2, ps, Flats(st0)[s := PutHeader(Flats(st0)[s], a, h)])
  {
    hide Exclusive;
    hide Flats;
    hide PutHeader;
    hide HeaderBytes;
    PageRange(p, p + 1, ps);
    var f := Flats(st0);
    assert Flats(st1)[s] == Splice(f[s], a, HeaderBytes(h)[..ps - off]);
    var x, y := HeaderBytes(h)[..ps - off], HeaderBytes(h)[ps - off..];
    SpliceTwice(f[s], a, x, y);
    Halves(f[s], a, h, ps - off);
    var g := f[s := Splice(f[s], a, x)];
    assert g[s := Splice(g[s], a + |x|, y)] == f[s := PutHeader(f[s], a, h)];
    EvolvesTrans(st0, st1, st2, ps, g, g[s := Splice(g[s], a + |x|, y)]);
  }

  lemma PointersFit(st1: State, st2: State, ps: nat, s: nat, p: nat, q: nat)
    requires Exclusive(st1, ps) && Exclusive(st2, ps) && |st1.frames| == |st2.frames|
    requires Spot(st1.tables, s, p) && st1.tables[s][p].present && Spot(st2.tables, s, q) && st2.tables[s][q].present
    ensures st1.tables[s][p].fr < |st2.frames| && st2.tables[s][q].fr < |st2.frames|
    ensures forall f | 0 <= f < |st2.frames| :: |st2.frames[f]| == ps
  {
    hide Owned;
    hide Unshared;
  }

  /** A page still present after a load is in the frame it was in. */
  lemma FrameStays(st: State, ps: nat, s: nat, p: nat, q: nat)
    requires Exclusive(st, ps) && Spot(st.tables, s, p) && Spot(st.tables, s, q) && p != q
    requires CanLoad(st, s, q) && st.tables[s][p].present
    ensures Sane(st) && (FirstTrue(st.frameFree, 0) == -1 ==> SomePresent(st.tables))
    ensures var x := Load(st, s, q).tables[s][p]; x.present ==> x.fr == st.tables[s][p].fr
  {
    LoadKeeps(st, s, q, ps);
    if !st.tables[s][q].present {
      CountZero(st.frameFree);
      CountZero(st.slotFree);
      StaysPut(st, ps, s, p, q);
    }
  }

  /**
   Segment `s` is now laid out as `d`, the payloads of the allocations in `live` in place and
   every other segment as it was.
   */
  ghost predicate Rewrites(st: State, st': State, ps: nat, s: nat, live: set<(nat, nat)>, d: seq<Block>)
    requires Sane(st) && s < |st.tables|
  {
    && Exclusive(st', ps) && Sane(st') && SameShape(st.tables, st'.tables) && Available(st') == Available(st)
    && Flats(st') == Flats(st)[s := Flats(st')[s]]
    && Tiles(Flats(st')[s], d) && Kept(Flats(st)[s], Flats(st')[s], live)
  }

  lemma StillRewrites(st: State, st': State, ps: nat, s: nat, c: seq<Block>)
    requires Sane(st) && s < |st.tables| && Evolves(st, st', ps, Flats(st)) && Tiles(Flats(st)[s], c)
    ensures Rewrites(st, st', ps, s, Live(c, 0), c)
  {
    hide Exclusive;
    hide Flats;
    KeptSelf(Flats(st)[s], c);
  }

  lemma RewritesFrom(st0: State, st1: State, st2: State, ps: nat, s: nat,
      live: set<(nat, nat)>, d: seq<Block>)
    requires Sane(st0) && s < |st0.tables| && Evolves(st0, st1, ps, Flats(st0)) && Rewrites(st1, st2, ps, s, live, d)
    ensures Rewrites(st0, st2, ps, s, live, d)
  {
    hide Exclusive;
    hide Flats;
    hide Kept;
    hide Tiles;
  }

  /** Reading on changes nothing about it. */
  lemma RewritesOn(st0: State, st1: State, st2: State, ps: nat, s: nat,
      live: set<(nat, nat)>, d: seq<Block>)
    requires Sane(st0) && s < |st0.tables| && Rewrites(st0, st1, ps, s, live, d) && Evolves(st1, st2, ps, Flats(st1))
    ensures Rewrites(st0, st2, ps, s, live, d)
  {
    hide Exclusive;
    hide Flats;
    hide Kept;
    hide Tiles;
  }

  lemma RewritesTrans(st0: State, st1: State, st2: State, ps: nat, s: nat,
      live: set<(nat, nat)>, d: seq<Block>, more: set<(nat, nat)>, e: seq<Block>)
    requires Sane(st0) && s < |st0.tables| && Rewrites(st0, st1, ps, s, live, d)
    requires Rewrites(st1, st2, ps, s, more, e) && live <= more
    ensures Rewrites(st0, st2, ps, s, live, e)
  {
    hide Exclusive;
    hide Flats;
    hide Kept;
    var m0, m1, m2 := Flats(st0)[s], Flats(st1)[s], Flats(st2)[s];
    KeptFewer(m1, m2, more, live);
    KeptTrans(m0, m1, m2, live);
  }

  /** A segment rewritten byte for byte. */
  lemma BytesRewrite(st: State, st': State, ps: nat, s: nat, m: seq<byte>, live: set<(nat, nat)>, d: seq<Block>)
    requires Sane(st) && s < |st.tables| && Evolves(st, st', ps, Flats(st)[s := m])
    requires Tiles(m, d) && Kept(Flats(st)[s], m, live)
    ensures Rewrites(st, st', ps, s, live, d)
  {
    hide Exclusive;
    hide Flats;
    hide Kept;
    hide Tiles;
  }

  lemma TwoPuts(st0: State, st1: State, st2: State, ps: nat, s: nat, a: nat, x: Block, b: nat, y: Block)
    requires Sane(st0) && s < |st0.tables| && x.size < WORD && y.size < WORD
    requires a + HEADER <= |Flats(st0)[s]| && b + HEADER <= |Flats(st0)[s]|
    requires Evolves(st0, st1, ps, Flats(st0)[s := PutHeader(Flats(st0)[s], a, x)])
    requires Evolves(st1, st2, ps, Flats(st1)[s := PutHeader(Flats(st1)[s], b, y)])
    ensures Evolves(st0, st2, ps, Flats(st0)[s := PutHeader(PutHeader(Flats(st0)[s], a, x), b, y)])
  {
    hide Exclusive;
    hide Flats;
    hide PutHeader;
    var f, g := Flats(st0), Flats(st1);
    assert g[s := PutHeader(g[s], b, y)] == f[s := PutHeader(PutHeader(f[s], a, x), b, y)];
  }

  // ----- growing a segment -----

  /** Segment `s` has `j` more pages than in `st`; its old bytes lead, nothing else moved. */
  ghost predicate Extends(st: State, st': State, ps: nat, s: nat, j: nat)
    requires Sane(st) && s < |st.tables|
  {
    && Exclusive(st', ps) && Sane(st') && |st'.tables| == |st.tables| && |st'.tables[s]| == |st.tables[s]| + j
    && |st'.frameFree| == |st.frameFree| && |st'.slotFree| == |st.slotFree|
    && Available(st') + j == Available(st)
    && (Balanced(st) ==> Balanced(st'))
    && Flats(st)[s] <= Flats(st')[s] && |Flats(st')[s]| == |Flats(st)[s]| + PageStart(j, ps)
    && forall i | 0 <= i < |st.tables| && i != s :: Flats(st')[i] == Flats(st)[i]
  }

  lemma ExtendsNone(st: State, ps: nat, s: nat)
    requires Exclusive(st, ps) && Sane(st) && s < |st.tables|
    ensures Extends(st, st, ps, s, 0)
  {
  }

  lemma ExtendsPage(st: State, st': State, ps: nat, s: nat, j: nat)
    requires Sane(st) && s < |st.tables| && Extends(st, st', ps, s, j) && Available(st') > 0
    ensures FirstTrue(st'.frameFree, 0) == -1 ==> SomePresent(st'.tables)
    ensures Extends(st, AddPage(st', s), ps, s, j + 1)
  {
    hide Exclusive;
    hide Flats;
    hide AddPage;
    hide Available;
    OneMorePage(st', s, ps);
    assert PageStart(1, ps) == PageStart(0, ps) + ps;
  }

  lemma OneMorePage(st: State, s: nat, ps: nat)
    requires Exclusive(st, ps) && Sane(st) && s < |st.tables| && Available(st) > 0
    ensures FirstTrue(st.frameFree, 0) == -1 ==> SomePresent(st.tables)
    ensures Extends(st, AddPage(st, s), ps, s, 1)
  {
    hide Exclusive;
    hide Sane;
    hide AddPage;
    hide Available;
    hide Flat;
    AddPageKeeps(st, s, ps);
    if Balanced(st) {
      AddPageBalanced(st, s, ps);
    }
    AddPageSizes(st, s);
    var st2 := AddPage(st, s);
    ExclusiveSane(st2, ps);
    forall i: nat | i < |st.tables|
      ensures if i == s then Flats(st)[s] <= Flats(st2)[s] && |Flats(st2)[s]| == |Flats(st)[s]| + ps
              else Flats(st2)[i] == Flats(st)[i]
    {
      AddPageFlat(st, s, ps, i);
    }
    assert PageStart(1, ps) == PageStart(0, ps) + ps;
  }

  /** Free frames are taken before anything is sent to swap. */
  lemma AddPageResident(st: State, s: nat)
    requires Sane(st) && s < |st.tables|
    requires FirstTrue(st.frameFree, 0) == -1 ==> SomePresent(st.tables)
    ensures Resident(st.tables) && CountTrue(st.frameFree) > 0 ==>
      Resident(AddPage(st, s).tables) && CountTrue(AddPage(st, s).frameFree) + 1 == CountTrue(st.frameFree)
  {
    CountZero(st.frameFree);
    var f := FirstTrue(st.frameFree, 0);
    if f != -1 {
      CountUpdate(st.frameFree, f, false);
      var t := AddPage(st, s).tables;
      assert forall i: nat, j: nat | Spot(t, i, j) && !(i == s && j == |st.tables[s]|) :: Spot(st.tables, i, j);
    }
  }

  lemma SpareFits(st: State)
    ensures CountTrue(st.frameFree) <= Available(st)
  {
  }

  lemma AddPageSizes(st: State, s: nat)
    requires Sane(st) && s < |st.tables|
    requires FirstTrue(st.frameFree, 0) == -1 ==> SomePresent(st.tables)
    ensures var st' := AddPage(st, s);
            |st'.frameFree| == |st.frameFree| && |st'.slotFree| == |st.slotFree|
  {
  }

  /** A new program's segment starts with no page. */
  lemma EmptySegment(st: State, ps: nat)
    requires Exclusive(st, ps) && Sane(st)
    ensures var st' := st.(tables := st.tables + [[]]);
            && Exclusive(st', ps) && Sane(st') && Available(st') == Available(st)
            && (Balanced(st) ==> Balanced(st'))
            && Flats(st') == Flats(st) + [[]]
  {
    var st' := st.(tables := st.tables + [[]]);
    assert forall s: nat, p: nat :: Spot(st'.tables, s, p) == Spot(st.tables, s, p);
    assert forall s: nat, p: nat, b: bool, f: nat
      {:trigger Holds(st'.tables, s, p, b, f)} {:trigger Holds(st.tables, s, p, b, f)} ::
      Holds(st'.tables, s, p, b, f) == Holds(st.tables, s, p, b, f);
    EmptyOwned(st, ps);
    assert st'.tables[..|st.tables|] == st.tables;
    forall i: nat | i < |st'.tables| ensures Flats(st')[i] == (Flats(st) + [[]])[i] {
      if i < |st.tables| {
        assert Contents(st', i) == Contents(st, i);
      }
    }
  }

  lemma EmptyOwned(st: State, ps: nat)
    requires Exclusive(st, ps)
    ensures Owned(st.(tables := st.tables + [[]]))
  {
    var t := st.tables + [[]];
    forall f: nat | f < |st.frameFree| && !st.frameFree[f]
      ensures exists s: nat, p: nat :: Holds(t, s, p, true, f)
    {
      var s: nat, p: nat :| Holds(st.tables, s, p, true, f);
      assert Holds(t, s, p, true, f);
    }
    forall f: nat | f < |st.slotFree| && !st.slotFree[f]
      ensures exists s: nat, p: nat :: Holds(t, s, p, false, f)
    {
      var s: nat, p: nat :| Holds(st.tables, s, p, false, f);
      assert Holds(t, s, p, false, f);
    }
  }

  /** No segment is longer than the machine. */
  lemma {:induction false} SegmentFits(t: Tables, s: nat)
    requires s < |t|
    ensures |t[s]| <= PageCount(t)
  {
    if s < |t| - 1 {
      SegmentFits(t[..|t| - 1], s);
    }
  }

  /** A fresh segment under one header. */
  lemma OneBlockTiles(m: seq<byte>, size: nat)
    requires HEADER <= |m| && size < WORD && HEADER + size == |m|
    ensures Tiles(PutHeader(m, 0, Block(size, true)), [Block(size, true)])
  {
    var c := [Block(size, true)];
    PutThenRead(m, 0, c[0]);
    One(c[0], 0);
    forall i: nat | i < 1 ensures Headed(PutHeader(m, 0, c[0]), c, i) {
      assert c[..i] == [];
    }
  }

  // ----- walking a chain -----

  /** Block `i` of a chain laid out in segment `s`: its header can be read, and where the next one is. */
  lemma ChainStep(st: State, ps: nat, s: nat, c: seq<Block>, i: nat)
    requires Exclusive(st, ps) && ps >= HEADER && s < |st.tables| && i < |c|
    requires Sane(st) && Tiles(Flats(st)[s], c)
    ensures HeaderRoom(st, ps, s, Addr(c, i))
    ensures Addr(c, i) + HEADER <= |Flats(st)[s]| && HeaderAt(Flats(st)[s], Addr(c, i)) == c[i]
    ensures Addr(c, i + 1) == Addr(c, i) + HEADER + c[i].size <= PageStart(|st.tables[s]|, ps)
    ensures Len(c) == |Flats(st)[s]| == PageStart(|st.tables[s]|, ps)
    ensures i + 1 < |c| ==> Addr(c, i + 1) + HEADER <= PageStart(|st.tables[s]|, ps)
    ensures i + 1 == |c| ==> Addr(c, i + 1) == PageStart(|st.tables[s]|, ps)
  {
    FlatLen(st, s, ps);
    AddrStep(c, i);
    assert Headed(Flats(st)[s], c, i);
    if i + 1 < |c| {
      AddrStep(c, i + 1);
    } else {
      assert c[..i + 1] == c;
    }
  }

  lemma AddrInjective(c: seq<Block>, i: nat, j: nat)
    requires i <= |c| && j <= |c| && Addr(c, i) == Addr(c, j)
    ensures i == j
  {
    if i < j {
      AddrOrder(c, i, j);
    } else if j < i {
      AddrOrder(c, j, i);
    }
  }

  function AddrOrNone(c: seq<Block>, i: int): (a: int)
    requires -1 <= i < |c|
  {
    if i == -1 then -1 else Addr(c, i)
  }

  lemma {:induction false} SplitLen(c: seq<Block>, f: nat, size: nat)
    requires f < |c| && c[f].size >= size + HEADER
    ensures Split(c, f, size) != [] && Len(Split(c, f, size)) == Len(c)
  {
    var x, y := Block(size, false), Block(c[f].size - size - HEADER, true);
    assert c == c[..f] + [c[f]] + c[f + 1..];
    Pair(x, y, 0);
    One(c[f], 0);
    EditLen(c[..f], [c[f]], [x, y], c[f + 1..]);
  }

  /** A read, the first header, a read, the second header. */
  lemma SplitWritten(st0: State, st1: State, st2: State, st3: State, st4: State, ps: nat, s: nat,
      c: seq<Block>, f: nat, size: nat)
    requires Sane(st0) && s < |st0.tables| && f < |c| && Tiles(Flats(st0)[s], c) && |Flats(st0)[s]| < WORD
    requires c[f].size >= size + HEADER && c[f].size < WORD && Addr(c, f) + HEADER + size + HEADER <= |Flats(st0)[s]|
    requires Evolves(st0, st1, ps, Flats(st0))
    requires Evolves(st1, st2, ps, Flats(st1)[s := PutHeader(Flats(st1)[s], Addr(c, f), Block(size, false))])
    requires Evolves(st2, st3, ps, Flats(st2))
    requires Evolves(st3, st4, ps, Flats(st3)[s :=
      PutHeader(Flats(st3)[s], Addr(c, f) + HEADER + size, Block(c[f].size - size - HEADER, true))])
    ensures Rewrites(st0, st4, ps, s, if c[f].free then Live(c, 0) else {}, Split(c, f, size))
  {
    hide Exclusive;
    hide Flats;
    hide PutHeader;
    hide Addr;
    hide Split;
    hide Live;
    hide Tiles;
    hide Rewrites;
    EvolvesTrans(st0, st1, st2, ps, Flats(st0), Flats(st2));
    EvolvesTrans(st0, st2, st3, ps, Flats(st2), Flats(st2));
    TwoPuts(st0, st3, st4, ps, s, Addr(c, f), Block(size, false),
            Addr(c, f) + HEADER + size, Block(c[f].size - size - HEADER, true));
    SplitRewrites(st0, st4, ps, s, c, f, size);
  }

  lemma SplitRewrites(st: State, st': State, ps: nat, s: nat, c: seq<Block>, f: nat, size: nat)
    requires Sane(st) && s < |st.tables| && f < |c| && Tiles(Flats(st)[s], c) && |Flats(st)[s]| < WORD
    requires c[f].size >= size + HEADER && c[f].size < WORD
    requires Addr(c, f) + HEADER + size + HEADER <= |Flats(st)[s]|
    requires Evolves(st, st', ps, Flats(st)[s := PutHeader(PutHeader(Flats(st)[s], Addr(c, f), Block(size, false)),
      Addr(c, f) + HEADER + size, Block(c[f].size - size - HEADER, true))])
    ensures Rewrites(st, st', ps, s, if c[f].free then Live(c, 0) else {}, Split(c, f, size))
  {
    hide Exclusive;
    hide Flats;
    SplitTiles(Flats(st)[s], c, f, size);
    BytesRewrite(st, st', ps, s, SplitBytes(Flats(st)[s], c, f, size), if c[f].free then Live(c, 0) else {},
                 Split(c, f, size));
  }

  /** Segment `s` has `k` more pages, all of them part of its last block; payloads and other segments as before. */
  ghost predicate Enlarges(st: State, st': State, ps: nat, s: nat, c: seq<Block>, k: nat)
    requires Sane(st) && s < |st.tables| && c != []
  {
    && Exclusive(st', ps) && Sane(st') && |st'.tables| == |st.tables|
    && Available(st') + k == Available(st) && (Balanced(st) ==> Balanced(st'))
    && Flats(st') == Flats(st)[s := Flats(st')[s]]
    && Tiles(Flats(st')[s], Grow(c, PageStart(k, ps))) && Kept(Flats(st)[s], Flats(st')[s], Live(c, 0))
  }

  /** Growing within what is available keeps sizes in a word. */
  lemma GrowthFits(st: State, ps: nat, s: nat, k: nat, total: nat)
    requires Exclusive(st, ps) && Sane(st) && Balanced(st) && s < |st.tables| && k <= Available(st)
    requires total == |st.frames| + |st.swap| && PageStart(total, ps) < WORD
    ensures |Flats(st)[s]| + PageStart(k, ps) < WORD
  {
    FlatLen(st, s, ps);
    SegmentFits(st.tables, s);
    PageSum(|st.tables[s]|, k, ps);
    PageMonotone(|st.tables[s]| + k, total, ps);
  }

  lemma EvolvesBalanced(st: State, st': State, ps: nat, f: seq<seq<byte>>)
    requires Evolves(st, st', ps, f) && |st'.frameFree| == |st.frameFree| && |st'.slotFree| == |st.slotFree|
    ensures Balanced(st) ==> Balanced(st')
  {
    SameShapeCount(st.tables, st'.tables);
  }

  /** The longer last header, a read, the pages. */
  lemma GrowthIs(st0: State, st1: State, st2: State, st3: State, ps: nat, s: nat, c: seq<Block>, k: nat)
    requires Sane(st0) && s < |st0.tables| && c != [] && Tiles(Flats(st0)[s], c)
    requires |Flats(st0)[s]| + PageStart(k, ps) < WORD && c[|c| - 1].size + PageStart(k, ps) < WORD
    requires |st0.frameFree| == |st2.frameFree| && |st0.slotFree| == |st2.slotFree|
    requires Addr(c, |c| - 1) + HEADER <= |Flats(st0)[s]|
    requires Evolves(st0, st1, ps, Flats(st0)[s :=
      PutHeader(Flats(st0)[s], Addr(c, |c| - 1), Block(PageStart(k, ps) + c[|c| - 1].size, true))])
    requires Evolves(st1, st2, ps, Flats(st1))
    requires Extends(st2, st3, ps, s, k)
    ensures Enlarges(st0, st3, ps, s, c, k)
  {
    hide Exclusive;
    hide Flats;
    hide Tiles;
    hide PutHeader;
    hide Addr;
    hide PageStart;
    hide Available;
    hide Balanced;
    hide Live;
    hide Kept;
    hide Sane;
    hide Grow;
    var m, m3 := Flats(st0)[s], Flats(st3)[s];
    EvolvesTrans(st0, st1, st2, ps, Flats(st1), Flats(st2));
    EvolvesBalanced(st0, st2, ps, Flats(st2));
    var added := m3[|m|..];
    GrowTiles(m, c, added);
    assert m3 == Flats(st2)[s] + added;
  }

  lemma EnlargesFrom(st0: State, st1: State, st2: State, ps: nat, s: nat, c: seq<Block>, k: nat)
    requires Sane(st0) && s < |st0.tables| && c != [] && Evolves(st0, st1, ps, Flats(st0))
    requires Enlarges(st1, st2, ps, s, c, k)
    requires |st0.frameFree| == |st1.frameFree| && |st0.slotFree| == |st1.slotFree|
    ensures Enlarges(st0, st2, ps, s, c, k)
  {
    hide Exclusive;
    hide Flats;
    hide Kept;
    hide Tiles;
    hide Balanced;
    EvolvesBalanced(st0, st1, ps, Flats(st0));
  }

  lemma GrownRoom(st: State, st': State, ps: nat, s: nat, c: seq<Block>, k: nat)
    requires Sane(st) && s < |st.tables| && c != [] && Enlarges(st, st', ps, s, c, k) && ps >= HEADER
    ensures HeaderRoom(st', ps, s, Addr(c, |c| - 1)) && Exclusive(st', ps)
  {
    hide Exclusive;
    hide Flats;
    hide Tiles;
    hide Available;
    hide Balanced;
    hide Live;
    hide Kept;
    hide Sane;
    var d := Grow(c, PageStart(k, ps));
    ChainStep(st', ps, s, d, |d| - 1);
    assert d[..|d| - 1] == c[..|c| - 1];
  }

  lemma EnlargesOn(st0: State, st1: State, st2: State, ps: nat, s: nat, c: seq<Block>, k: nat)
    requires Sane(st0) && s < |st0.tables| && c != [] && Enlarges(st0, st1, ps, s, c, k)
    requires Evolves(st1, st2, ps, Flats(st1))
    requires |st2.frameFree| == |st1.frameFree| && |st2.slotFree| == |st1.slotFree|
    ensures Enlarges(st0, st2, ps, s, c, k)
  {
    hide Exclusive;
    hide Flats;
    hide Kept;
    hide Tiles;
    hide Balanced;
    EvolvesBalanced(st1, st2, ps, Flats(st1));
  }

  /** One more segment, of `k` pages under one free header. */
  ghost predicate Adds(st: State, st': State, ps: nat, k: nat)
    requires Sane(st)
  {
    var n := |st.tables|;
    && Exclusive(st', ps) && Sane(st') && |st'.tables| == n + 1 && PageStart(k, ps) >= HEADER
    && Available(st') + k == Available(st) && (Balanced(st) ==> Balanced(st'))
    && Flats(st')[..n] == Flats(st)
    && Tiles(Flats(st')[n], [Block(PageStart(k, ps) - HEADER, true)])
  }

  lemma StillResident(t: Tables)
    ensures Resident(t) ==> Resident(t + [[]])
  {
    assert forall s: nat, p: nat | Spot(t + [[]], s, p) :: Spot(t, s, p);
  }

  lemma NewRoom(st0: State, st1: State, st2: State, ps: nat, k: nat, total: nat)
    requires Exclusive(st0, ps) && Sane(st0) && Balanced(st0) && ps >= HEADER && PageStart(k, ps) >= HEADER
    requires st1 == st0.(tables := st0.tables + [[]]) && Sane(st1) && Available(st1) == Available(st0)
    requires Extends(st1, st2, ps, |st0.tables|, k)
    requires total == |st0.frames| + |st0.swap| && PageStart(total, ps) < WORD
    ensures Exclusive(st2, ps) && Sane(st2) && HeaderRoom(st2, ps, |st0.tables|, 0) && PageStart(k, ps) < WORD
  {
    hide Exclusive;
    hide Flats;
    hide PageStart;
    PageMonotone(k, total, ps);
    ExclusiveSane(st2, ps);
  }

  lemma NewIs(st0: State, st1: State, st2: State, st3: State, st4: State, ps: nat, k: nat)
    requires Sane(st0) && PageStart(k, ps) >= HEADER && PageStart(k, ps) < WORD
    requires st1 == st0.(tables := st0.tables + [[]]) && Sane(st1) && Available(st1) == Available(st0)
    requires (Balanced(st0) ==> Balanced(st1)) && Flats(st1) == Flats(st0) + [[]]
    requires Extends(st1, st2, ps, |st0.tables|, k)
    requires HEADER <= |Flats(st2)[|st0.tables|]|
    requires Evolves(st2, st3, ps, Flats(st2)[|st0.tables| :=
      PutHeader(Flats(st2)[|st0.tables|], 0, Block(PageStart(k, ps) - HEADER, true))])
    requires Evolves(st3, st4, ps, Flats(st3))
    requires |st4.frameFree| == |st2.frameFree| && |st4.slotFree| == |st2.slotFree|
    ensures Adds(st0, st4, ps, k)
  {
    hide Exclusive;
    hide Flats;
    hide PageStart;
    hide PutHeader;
    hide Balanced;
    hide Tiles;
    var n := |st0.tables|;
    EvolvesTrans(st2, st3, st4, ps, Flats(st3), Flats(st4));
    EvolvesBalanced(st2, st4, ps, Flats(st4));
    OneBlockTiles(Flats(st2)[n], PageStart(k, ps) - HEADER);
    forall i | 0 <= i < n ensures Flats(st4)[i] == Flats(st0)[i] {
      assert Flats(st1)[i] == Flats(st0)[i];
    }
  }

  /** Every allocation of a sound chain has the payload bytes it had. */
  ghost predicate Undisturbed(f: seq<seq<byte>>, f': seq<seq<byte>>, chains: seq<seq<Block>>)
  {
    |f| == |chains| <= |f'| && forall i | 0 <= i < |f| :: Sound(chains[i]) ==> Kept(f[i], f'[i], Live(chains[i], 0))
  }

  /** What was sound stays so, with the same allocations. */
  ghost predicate Carries(c0: seq<seq<Block>>, c1: seq<seq<Block>>)
  {
    |c0| <= |c1| && forall i | 0 <= i < |c0| && Sound(c0[i]) :: Sound(c1[i]) && Live(c1[i], 0) == Live(c0[i], 0)
  }

  lemma CreatedCarries(c0: seq<seq<Block>>, x: seq<Block>)
    ensures Carries(c0, c0 + [x])
  {
  }

  lemma GrownCarries(c0: seq<seq<Block>>, s: nat, extra: nat)
    requires s < |c0| && c0[s] != []
    ensures Carries(c0, c0[s := Grow(c0[s], extra)])
  {
    hide Sound;
    hide Live;
    if Sound(c0[s]) {
      GrowKeeps(c0[s], extra);
    }
  }

  lemma UndisturbedTrans(f0: seq<seq<byte>>, f1: seq<seq<byte>>, f2: seq<seq<byte>>,
      c0: seq<seq<Block>>, c1: seq<seq<Block>>)
    requires Undisturbed(f0, f1, c0) && Undisturbed(f1, f2, c1) && Carries(c0, c1)
    ensures Undisturbed(f0, f2, c0)
  {
    hide Kept;
    hide Sound;
    hide Live;
    forall i | 0 <= i < |f0| && Sound(c0[i]) ensures Kept(f0[i], f2[i], Live(c0[i], 0)) {
      KeptTrans(f0[i], f1[i], f2[i], Live(c0[i], 0));
    }
  }

  lemma AddsTiled(st: State, st': State, ps: nat, k: nat, chains: seq<seq<Block>>)
    requires Sane(st) && Adds(st, st', ps, k) && Tiled(Flats(st), chains)
    ensures Tiled(Flats(st'), chains + [[Block(PageStart(k, ps) - HEADER, true)]])
    ensures Undisturbed(Flats(st), Flats(st'), chains)
  {
    hide Exclusive;
    hide Tiles;
    hide Kept;
    hide Live;
    forall i: nat | i < |st'.tables|
      ensures Tiles(Flats(st')[i], (chains + [[Block(PageStart(k, ps) - HEADER, true)]])[i])
    {
      if i < |chains| {
        assert Flats(st')[..|st.tables|][i] == Flats(st)[i];
      }
    }
    SameUndisturbed(Flats(st), Flats(st'), chains);
  }

  lemma SameUndisturbed(f: seq<seq<byte>>, f': seq<seq<byte>>, chains: seq<seq<Block>>)
    requires f <= f' && Tiled(f, chains)
    ensures Undisturbed(f, f', chains)
  {
    hide Kept;
    hide Live;
    forall i | 0 <= i < |f| ensures Kept(f[i], f'[i], Live(chains[i], 0)) {
      KeptSelf(f[i], chains[i]);
    }
  }

  lemma OneUndisturbed(f: seq<seq<byte>>, f': seq<seq<byte>>, chains: seq<seq<Block>>, s: nat)
    requires s < |f| == |f'| && f' == f[s := f'[s]] && Tiled(f, chains)
    requires Sound(chains[s]) ==> Kept(f[s], f'[s], Live(chains[s], 0))
    ensures Undisturbed(f, f', chains)
  {
    hide Kept;
    hide Live;
    hide Sound;
    forall i | 0 <= i < |f| && i != s ensures Kept(f[i], f'[i], Live(chains[i], 0)) {
      KeptSelf(f[i], chains[i]);
    }
  }

  lemma SplitUndisturbed(f: seq<seq<byte>>, f': seq<seq<byte>>, chains: seq<seq<Block>>, s: nat, total: nat)
    requires s < |f| == |f'| && f' == f[s := f'[s]] && Tiled(f, chains) && FirstFit(chains[s], 0, total) >= 0
    requires chains[s][FirstFit(chains[s], 0, total)].free ==> Kept(f[s], f'[s], Live(chains[s], 0))
    ensures Undisturbed(f, f', chains)
  {
    hide Kept;
    hide Live;
    if Sound(chains[s]) {
      FirstFitLowest(chains[s], 0, total);
    }
    OneUndisturbed(f, f', chains, s);
  }

  lemma EnlargesTiled(st: State, st': State, ps: nat, s: nat, c: seq<Block>, k: nat, chains: seq<seq<Block>>)
    requires Sane(st) && s < |st.tables| && c != [] && Enlarges(st, st', ps, s, c, k)
    requires Tiled(Flats(st), chains) && c == chains[s]
    ensures Exclusive(st', ps) && Sane(st') && |st'.tables| == |st.tables|
    ensures Available(st') + k == Available(st) && (Balanced(st) ==> Balanced(st'))
    ensures Tiled(Flats(st'), chains[s := Grow(c, PageStart(k, ps))])
    ensures Undisturbed(Flats(st), Flats(st'), chains)
  {
    hide Exclusive;
    hide Tiles;
    hide Kept;
    hide Live;
    hide Available;
    hide Balanced;
    hide Sound;
    OneUndisturbed(Flats(st), Flats(st'), chains, s);
    forall i: nat | i < |st.tables| ensures Tiles(Flats(st')[i], chains[s := Grow(c, PageStart(k, ps))][i]) {
      assert i != s ==> Tiles(Flats(st)[i], chains[i]);
    }
  }

  /** Every segment is as long as its pages. */
  ghost predicate PageLong(f: seq<seq<byte>>, t: Tables, ps: nat)
  {
    |f| == |t| && forall i | 0 <= i < |f| :: |f[i]| == PageStart(|t[i]|, ps)
  }

  lemma SegmentLengths(st: State, ps: nat)
    requires Exclusive(st, ps) && Sane(st)
    ensures PageLong(Flats(st), st.tables, ps)
  {
    hide Exclusive;
    hide Flat;
    forall i: nat | i < |st.tables| ensures |Flats(st)[i]| == PageStart(|st.tables[i]|, ps) {
      FlatLen(st, i, ps);
    }
  }

  /**
   A copy of `src` to the payload of block `k` of segment `s` was answered with `r`: it went through exactly
   when the block is allocated and no shorter, every chain is where it was, and so is every other payload.
   */
  ghost predicate Served(f: seq<seq<byte>>, f': seq<seq<byte>>, chains: seq<seq<Block>>, s: nat, k: nat, src: seq<byte>,
      r: Copy)
    requires s < |f| && s < |f'| && s < |chains| && k < |chains[s]|
  {
    var c, b := chains[s], chains[s][k];
    var dst := Addr(c, k) + HEADER;
    && (r == Copied(dst) <==> !b.free && |src| <= b.size) && (r != Copied(dst) ==> f' == f)
    && Tiled(f', chains) && Kept(f[s], f'[s], Live(c, 0) - {(Addr(c, k), b.size)})
  }

  /** A copy that went through set the modified bit of every page from that of the header on; no other copy did. */
  ghost predicate Stamped(t: Tables, u: Tables, ps: nat, s: nat, dst: nat, n: nat, r: Copy)
    requires ps >= HEADER && s < |t|
  {
    var first, k := FirstPage(ps, dst), PageSpan(ps, dst, n, |t[s]|);
    if r.Copied? then first >= 0 && Marks(t, u, s, first, first + k) else Marks(t, u, 0, 0, 0)
  }

  /** Whatever block's payload a copy goes to. */
  lemma CpyServed(ps: nat, total: nat, f: seq<seq<byte>>, chains: seq<seq<Block>>, s: nat, dst: nat, src: seq<byte>)
    requires ps >= HEADER && s < |f| && Tiled(f, chains) && |f[s]| == PageStart(total, ps)
    ensures forall k: nat | k < |chains[s]| && Addr(chains[s], k) + HEADER == dst ::
      && Served(f, f[s := Cpy(ps, total, f[s], dst, src).1], chains, s, k, src, Cpy(ps, total, f[s], dst, src).0)
      && Tiled(f[s := Cpy(ps, total, f[s], dst, src).1], chains)
  {
    hide Cpy;
    hide Tiles;
    hide Live;
    hide Kept;
    hide PageStart;
    hide Addr;
    forall k: nat | k < |chains[s]| && Addr(chains[s], k) + HEADER == dst
      ensures Served(f, f[s := Cpy(ps, total, f[s], dst, src).1], chains, s, k, src, Cpy(ps, total, f[s], dst, src).0)
    {
      CpyTiled(ps, total, f, chains, s, k, src);
    }
  }

  lemma CpyTiled(ps: nat, total: nat, f: seq<seq<byte>>, chains: seq<seq<Block>>, s: nat, k: nat, src: seq<byte>)
    requires ps >= HEADER && s < |f| && Tiled(f, chains) && |f[s]| == PageStart(total, ps)
    requires k < |chains[s]|
    ensures var c := chains[s]; var dst := Addr(c, k) + HEADER; var r := Cpy(ps, total, f[s], dst, src);
            && (r.0 == Copied(dst) <==> !c[k].free && |src| <= c[k].size) && (r.0 != Copied(dst) ==> r.1 == f[s])
            && Tiled(f[s := r.1], chains) && Kept(f[s], r.1, Live(c, 0) - {(Addr(c, k), c[k].size)})
  {
    hide Tiles;
    hide Cpy;
    hide Live;
    hide Kept;
    hide PageStart;
    CpyAnswers(ps, total, f[s], chains[s], k, src);
  }

  lemma Inner(m: seq<byte>, lo: nat, hi: nat, off: nat, n: nat)
    requires lo <= hi <= |m| && lo + off + n <= hi
    ensures m[lo..hi][off..off + n] == m[lo + off..lo + off + n]
  {
    assert forall k | lo <= k < hi :: m[lo..hi][k - lo] == m[k];
  }

  lemma EvolvesSelf(st: State, ps: nat)
    requires Exclusive(st, ps) && Sane(st)
    ensures Evolves(st, st, ps, Flats(st))
  {
  }

  /** The modified bit moves no byte. */
  lemma MarkEvolves(st: State, ps: nat, s: nat, p: nat)
    requires Exclusive(st, ps) && Sane(st) && Spot(st.tables, s, p)
    ensures var t := SetPage(st.tables, s, p, st.tables[s][p].(modified := true));
            && Evolves(st, st.(tables := t), ps, Flats(st)) && (Resident(st.tables) ==> Resident(t))
  {
    var t := SetPage(st.tables, s, p, st.tables[s][p].(modified := true));
    var st' := st.(tables := t);
    RemapKeeps(st, t, st.handSeg, st.handPage, ps);
    forall i: nat | i < |st.tables| ensures Flats(st')[i] == Flats(st)[i] {
      FlatSame(st, st', ps, i);
    }
    assert Flats(st') == Flats(st);
    assert forall i: nat, j: nat :: Spot(t, i, j) == Spot(st.tables, i, j);
  }

  lemma SegmentBounds(st: State, ps: nat, s: nat, first: nat, k: nat)
    requires Exclusive(st, ps) && Sane(st) && s < |st.tables| && first + k <= |st.tables[s]|
    ensures |Flats(st)[s]| == PageStart(|st.tables[s]|, ps)
    ensures PageStart(first, ps) + PageStart(k, ps) == PageStart(first + k, ps) <= |Flats(st)[s]|
  {
    FlatLen(st, s, ps);
    PageSum(first, k, ps);
    PageMonotone(first + k, |st.tables[s]|, ps);
  }

  lemma SpliceMore(m: seq<byte>, base: nat, x: seq<byte>, lo: nat, hi: nat)
    requires base + |x| <= |m| && lo <= hi <= |x|
    ensures Splice(Splice(m, base, x[..lo]), base + lo, x[lo..hi]) == Splice(m, base, x[..hi])
  {
    SpliceTwice(m, base, x[..lo], x[lo..hi]);
    assert x[..lo] + x[lo..hi] == x[..hi];
  }

  lemma HeaderInBuffer(m: seq<byte>, lo: nat, hi: nat, dst: nat)
    requires lo + HEADER <= dst <= hi <= |m|
    ensures m[lo..hi][dst - lo - HEADER..dst - lo] == m[dst - HEADER..dst]
    ensures ReadHeader(m[dst - HEADER..dst]) == HeaderAt(m, dst - HEADER)
  {
    assert forall k | lo <= k < hi :: m[lo..hi][k - lo] == m[k];
  }

  /** Writing into a copy of a stretch and putting the stretch back is writing in place. */
  lemma SpliceWindow(m: seq<byte>, lo: nat, hi: nat, dst: nat, src: seq<byte>)
    requires lo <= dst && dst + |src| <= hi <= |m|
    ensures Splice(m, lo, Splice(m[lo..hi], dst - lo, src)) == Splice(m, dst, src)
  {
  }

  lemma GetCovers(ps: nat, src: nat, n: nat, total: nat)
    requires ps > 0 && src + n <= PageStart(total, ps)
    ensures PageOf(src, ps) + Pages(OffsetOf(src, ps) + n, ps) <= total
    ensures src == PageStart(PageOf(src, ps), ps) + OffsetOf(src, ps)
    ensures src + n <= PageStart(PageOf(src, ps) + Pages(OffsetOf(src, ps) + n, ps), ps)
  {
    hide PageStart;
    hide Pages;
    var p, off := PageOf(src, ps), OffsetOf(src, ps);
    PageAndOffset(src, ps);
    if p > total {
      PageRange(total, p, ps);
      assert false;
    }
    PageSum(p, total - p, ps);
    PagesLeast(off + n, total - p, ps);
    PageSum(p, Pages(off + n, ps), ps);
  }

  ghost predicate Tiled(f: seq<seq<byte>>, chains: seq<seq<Block>>)
  {
    |f| == |chains| && forall i: nat | i < |f| :: Tiles(f[i], chains[i])
  }

  lemma TiledOrdered(f: seq<seq<byte>>, chains: seq<seq<Block>>)
    requires Tiled(f, chains)
    ensures forall i | 0 <= i < |chains| :: chains[i] != []
  {
    forall i | 0 <= i < |chains| ensures chains[i] != [] {
      assert Tiles(f[i], chains[i]);
    }
  }

  lemma SegmentSize(st: State, ps: nat, s: nat, total: nat)
    requires Exclusive(st, ps) && Sane(st) && Balanced(st) && s < |st.tables|
    requires total == |st.frames| + |st.swap| && PageStart(total, ps) < WORD
    ensures |Flats(st)[s]| == PageStart(|st.tables[s]|, ps) < WORD
  {
    FlatLen(st, s, ps);
    SegmentFits(st.tables, s);
    PageMonotone(|st.tables[s]|, total, ps);
  }

  lemma FewerRewrites(st: State, st': State, ps: nat, s: nat, live: set<(nat, nat)>,
      fewer: set<(nat, nat)>, d: seq<Block>)
    requires Sane(st) && s < |st.tables| && Rewrites(st, st', ps, s, live, d) && fewer <= live
    ensures Rewrites(st, st', ps, s, fewer, d)
  {
    hide Exclusive;
    hide Flats;
    KeptFewer(Flats(st)[s], Flats(st')[s], live, fewer);
  }

  lemma RewritesTiled(st: State, st': State, ps: nat, s: nat, live: set<(nat, nat)>,
      d: seq<Block>, chains: seq<seq<Block>>)
    requires Sane(st) && s < |st.tables| && Rewrites(st, st', ps, s, live, d) && Tiled(Flats(st), chains)
    ensures Exclusive(st', ps) && Sane(st') && |st'.tables| == |st.tables| && Available(st') == Available(st)
    ensures Tiled(Flats(st'), chains[s := d])
    ensures Flats(st') == Flats(st)[s := Flats(st')[s]] && Kept(Flats(st)[s], Flats(st')[s], live)
    ensures SameShape(st.tables, st'.tables)
  {
    hide Exclusive;
    hide Tiles;
    hide Kept;
    forall i: nat | i < |st.tables| ensures Tiles(Flats(st')[i], chains[s := d][i]) {
      assert i != s ==> Tiles(Flats(st)[i], chains[i]);
    }
  }

  lemma RewritesReady(st: State, st': State, ps: nat, s: nat, live: set<(nat, nat)>, d: seq<Block>)
    requires Sane(st) && s < |st.tables| && Rewrites(st, st', ps, s, live, d) && Len(d) == |Flats(st)[s]|
    ensures Exclusive(st', ps) && Sane(st') && s < |st'.tables| && |st'.tables| == |st.tables|
    ensures Tiles(Flats(st')[s], d) && |Flats(st')[s]| == |Flats(st)[s]| && Available(st') == Available(st)
  {
    hide Exclusive;
    hide Flats;
    hide Kept;
  }

  lemma RewritesStands(st: State, st': State, ps: nat, s: nat, live: set<(nat, nat)>, d: seq<Block>)
    requires Sane(st) && s < |st.tables| && Rewrites(st, st', ps, s, live, d)
    ensures Exclusive(st', ps) && Sane(st') && s < |st'.tables| && Tiles(Flats(st')[s], d)
  {
    hide Exclusive;
    hide Flats;
    hide Kept;
  }

  /** Where the compactor may stand next: on a free block, or on the next-to-last. */
  lemma {:induction false} NextFreeStands(c: seq<Block>, i: nat)
    requires i < |c| && (i == |c| - 1 ==> c[i].free)
    ensures var k := NextFree(c, i); k != -1 ==> c[k].free || k == |c| - 2
    decreases |c| - i
  {
    if i + 1 < |c| - 1 && !c[i].free {
      NextFreeStands(c, i + 1);
    }
  }

  /** After a merge that is not the last one, block `i` is where it was and reaches to the old `i + 2`. */
  lemma MergeMoves(c: seq<Block>, i: nat)
    requires i + 2 < |c| && c[i].free && c[i + 1].free
    ensures var d := Merge(c, i);
            && Addr(d, i) == Addr(c, i) && Addr(d, i + 1) == Addr(c, i + 1) + HEADER + c[i + 1].size
            && d[i].free && Live(d, 0) == Live(c, 0) && Len(d) == Len(c)
  {
    MergeAddr(c, i);
    MergeLive(c, i);
  }

  lemma MergeAddr(c: seq<Block>, i: nat)
    requires i + 2 < |c|
    ensures var d := Merge(c, i);
            Addr(d, i) == Addr(c, i) && Addr(d, i + 1) == Addr(c, i + 1) + HEADER + c[i + 1].size
  {
    hide Live;
    var d := Merge(c, i);
    assert d[..i] == c[..i];
    AddrStep(d, i);
    AddrStep(c, i);
  }

  lemma MergeLive(c: seq<Block>, i: nat)
    requires i + 2 < |c| && c[i].free && c[i + 1].free
    ensures Live(Merge(c, i), 0) == Live(c, 0) && Len(Merge(c, i)) == Len(c)
  {
    hide Live;
    hide Len;
    var d := Merge(c, i);
    var x, y, pre, post := c[i], c[i + 1], c[..i], c[i + 2..];
    assert c == pre + [x, y] + post && d == pre + [Join(x, y)] + post;
    Pair(x, y, Len(pre));
    One(x, Len(pre));
    One(y, Len(pre) + HEADER + x.size);
    One(Join(x, y), Len(pre));
    Exchange(pre, [x, y], [Join(x, y)], post, {});
  }

  lemma AddrZero(c: seq<Block>)
    ensures Addr(c, 0) == 0
  {
  }

  /** Block `i` is the last one exactly when it starts where the last one does. */
  lemma LastOrNot(c: seq<Block>, i: nat)
    requires c != [] && i <= |c|
    ensures i == |c| - 1 <==> Addr(c, i) == Addr(c, |c| - 1)
  {
    if Addr(c, i) == Addr(c, |c| - 1) {
      AddrInjective(c, i, |c| - 1);
    }
  }

  lemma {:induction false} AllTrue(b: seq<bool>)
    requires forall i | 0 <= i < |b| :: b[i]
    ensures CountTrue(b) == |b|
  {
    if b != [] {
      AllTrue(b[..|b| - 1]);
    }
  }
}
