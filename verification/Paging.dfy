/**
 Frames, swap slots, their two bitmaps and the page tables: what eviction, page creation and
 reloading do, as functions of the whole paging state.
 */
module Paging {
  import opened Bytes
  import opened Clock

  datatype State = State(
    frames: seq<seq<byte>>, frameFree: seq<bool>,
    swap: seq<seq<byte>>, slotFree: seq<bool>,
    tables: Tables, handSeg: nat, handPage: nat)

  /** Index of the first set bit from `i` on, or -1. */
  function FirstTrue(b: seq<bool>, i: nat): (r: int)
    ensures r == -1 ==> forall k | i <= k < |b| :: !b[k]
    ensures r != -1 ==> i <= r < |b| && b[r] && forall k | i <= k < r :: !b[k]
    decreases |b| - i
  {
    if i >= |b| then -1 else if b[i] then i else FirstTrue(b, i + 1)
  }

  function CountTrue(b: seq<bool>): (n: nat)
    ensures n <= |b|
  {
    if b == [] then 0 else (if b[|b| - 1] then 1 else 0) + CountTrue(b[..|b| - 1])
  }

  lemma {:induction false} CountUpdate(b: seq<bool>, i: nat, v: bool)
    requires i < |b|
    ensures CountTrue(b[i := v]) == CountTrue(b) - (if b[i] then 1 else 0) + (if v then 1 else 0)
  {
    var n := |b| - 1;
    if i < n {
      CountUpdate(b[..n], i, v);
      assert b[i := v][..n] == b[..n][i := v];
    } else {
      assert b[i := v][..n] == b[..n];
    }
  }

  lemma {:induction false} CountZero(b: seq<bool>)
    ensures CountTrue(b) == 0 <==> FirstTrue(b, 0) == -1
  {
    if b != [] {
      var n := |b| - 1;
      CountZero(b[..n]);
      if FirstTrue(b, 0) != -1 && !b[n] {
        assert b[..n][FirstTrue(b, 0)];
      }
      if FirstTrue(b[..n], 0) != -1 {
        assert b[FirstTrue(b[..n], 0)];
      }
    }
  }

  /** Free frames plus free swap slots. */
  function Available(st: State): (n: nat)
  {
    CountTrue(st.frameFree) + CountTrue(st.slotFree)
  }

  function PageCount(t: Tables): (n: nat)
  {
    if t == [] then 0 else |t[|t| - 1]| + PageCount(t[..|t| - 1])
  }

  lemma {:induction false} PageCountUpdate(t: Tables, s: nat, x: seq<Page>)
    requires s < |t|
    ensures PageCount(t[s := x]) == PageCount(t) - |t[s]| + |x|
  {
    var n := |t| - 1;
    if s < n {
      PageCountUpdate(t[..n], s, x);
      assert t[s := x][..n] == t[..n][s := x];
    } else {
      assert t[s := x][..n] == t[..n];
    }
  }

  // ----- who owns what -----

  ghost predicate Holds(t: Tables, s: nat, p: nat, present: bool, f: nat)
  {
    Spot(t, s, p) && t[s][p].present == present && t[s][p].fr == f
  }

  ghost predicate Shaped(st: State, ps: nat)
  {
    && ps > 0 && |st.frames| == |st.frameFree| > 0 && |st.swap| == |st.slotFree|
    && (forall f | 0 <= f < |st.frames| :: |st.frames[f]| == ps)
    && (forall k | 0 <= k < |st.swap| :: |st.swap[k]| == ps)
  }

  /** Every page has a frame or a slot, and its bit says taken. */
  ghost predicate Mapped(st: State)
  {
    forall s: nat, p: nat | Spot(st.tables, s, p) ::
      var x := st.tables[s][p];
      if x.present then x.fr < |st.frameFree| && !st.frameFree[x.fr]
      else x.fr < |st.slotFree| && !st.slotFree[x.fr]
  }

  ghost predicate Unshared(t: Tables)
  {
    forall s: nat, p: nat, i: nat, j: nat, b: bool, f: nat ::
      Holds(t, s, p, b, f) && Holds(t, i, j, b, f) ==> s == i && p == j
  }

  /** A taken frame or slot has an owner. */
  ghost predicate Owned(st: State)
  {
    && (forall f: nat | f < |st.frameFree| && !st.frameFree[f] ::
          exists s: nat, p: nat :: Holds(st.tables, s, p, true, f))
    && (forall k: nat | k < |st.slotFree| && !st.slotFree[k] ::
          exists s: nat, p: nat :: Holds(st.tables, s, p, false, k))
  }

  /** Frames and slots are each taken by exactly one page, or free. */
  ghost predicate Exclusive(st: State, ps: nat)
  {
    Shaped(st, ps) && Mapped(st) && Unshared(st.tables) && Owned(st)
  }

  /** The bytes of a page, wherever they are. */
  function Content(st: State, s: nat, p: nat): (r: seq<byte>)
    requires Spot(st.tables, s, p)
    requires st.tables[s][p].fr < if st.tables[s][p].present then |st.frames| else |st.swap|
  {
    var x := st.tables[s][p];
    if x.present then st.frames[x.fr] else st.swap[x.fr]
  }

  /** Same pages in every segment. */
  ghost predicate SameShape(t: Tables, u: Tables)
  {
    |u| == |t| && forall s: nat | s < |t| :: |u[s]| == |t[s]|
  }

  /** No logical byte differs. */
  ghost predicate SameContents(st: State, st': State, ps: nat)
    requires Exclusive(st, ps) && Exclusive(st', ps)
  {
    && SameShape(st.tables, st'.tables)
    && forall s: nat, p: nat | Spot(st.tables, s, p) :: Content(st', s, p) == Content(st, s, p)
  }

  function SetPage(t: Tables, s: nat, p: nat, x: Page): (u: Tables)
    requires Spot(t, s, p)
    ensures |u| == |t| && forall i: nat | i < |t| :: |u[i]| == |t[i]|
    ensures forall i: nat, j: nat | Spot(t, i, j) :: u[i][j] == if i == s && j == p then x else t[i][j]
  {
    t[s := t[s][p := x]]
  }

  // ----- eviction -----

  /** `se_hace_la_vistima`: with no slot left the frame is handed out all the same. */
  function Evict(st: State, s: nat, p: nat): (st': State)
    requires Spot(st.tables, s, p) && st.tables[s][p].present
    requires st.tables[s][p].fr < |st.frames| == |st.frameFree| && |st.swap| == |st.slotFree|
  {
    var x := st.tables[s][p];
    var freed := st.(frameFree := st.frameFree[x.fr := true]);
    var k := FirstTrue(st.slotFree, 0);
    if k == -1 then freed
    else freed.(slotFree := st.slotFree[k := false], swap := st.swap[k := st.frames[x.fr]],
                tables := SetPage(st.tables, s, p, x.(fr := k, present := false)))
  }

  lemma EvictKeeps(st: State, s: nat, p: nat, ps: nat)
    requires Exclusive(st, ps) && Spot(st.tables, s, p) && st.tables[s][p].present
    requires FirstTrue(st.slotFree, 0) != -1
    ensures var st' := Evict(st, s, p);
            && Exclusive(st', ps) && SameContents(st, st', ps)
            && st'.frameFree[st.tables[s][p].fr] && Available(st') == Available(st)
  {
    hide SameContents;
    hide Owned;
    hide Unshared;
    var x := st.tables[s][p];
    CountUpdate(st.frameFree, x.fr, true);
    CountUpdate(st.slotFree, FirstTrue(st.slotFree, 0), false);
    EvictMapped(st, s, p, ps);
    EvictOwned(st, s, p, ps);
    EvictContents(st, s, p, ps);
  }

  lemma EvictContents(st: State, s: nat, p: nat, ps: nat)
    requires Exclusive(st, ps) && Spot(st.tables, s, p) && st.tables[s][p].present
    requires FirstTrue(st.slotFree, 0) != -1 && Exclusive(Evict(st, s, p), ps)
    ensures SameContents(st, Evict(st, s, p), ps)
  {
    hide Owned;
    hide Unshared;
    var st' := Evict(st, s, p);
    var k := FirstTrue(st.slotFree, 0);
    forall i: nat, j: nat | Spot(st.tables, i, j) ensures Content(st', i, j) == Content(st, i, j) {
      var y := st.tables[i][j];
      assert !y.present ==> y.fr != k;
    }
  }

  lemma EvictMapped(st: State, s: nat, p: nat, ps: nat)
    requires Exclusive(st, ps) && Spot(st.tables, s, p) && st.tables[s][p].present
    requires FirstTrue(st.slotFree, 0) != -1
    ensures var st' := Evict(st, s, p); Mapped(st') && Unshared(st'.tables)
  {
    var st' := Evict(st, s, p);
    var x := st.tables[s][p];
    var k := FirstTrue(st.slotFree, 0);
    assert Holds(st.tables, s, p, true, x.fr);
    forall i: nat, j: nat | Spot(st'.tables, i, j)
      ensures var y := st'.tables[i][j];
        if y.present then y.fr < |st'.frameFree| && !st'.frameFree[y.fr]
        else y.fr < |st'.slotFree| && !st'.slotFree[y.fr]
    {
      assert Spot(st.tables, i, j);
      assert st.tables[i][j].present && st.tables[i][j].fr == x.fr ==> Holds(st.tables, i, j, true, x.fr);
    }
    forall i: nat, j: nat, m: nat, n: nat, b: bool, f: nat |
      Holds(st'.tables, i, j, b, f) && Holds(st'.tables, m, n, b, f)
      ensures i == m && j == n
    {
      if (i, j) != (s, p) {
        assert Holds(st.tables, i, j, b, f);
      }
      if (m, n) != (s, p) {
        assert Holds(st.tables, m, n, b, f);
      }
    }
  }

  lemma EvictOwned(st: State, s: nat, p: nat, ps: nat)
    requires Exclusive(st, ps) && Spot(st.tables, s, p) && st.tables[s][p].present
    requires FirstTrue(st.slotFree, 0) != -1
    ensures Owned(Evict(st, s, p))
  {
    var st' := Evict(st, s, p);
    var k := FirstTrue(st.slotFree, 0);
    forall f: nat | f < |st'.frameFree| && !st'.frameFree[f]
      ensures exists i: nat, j: nat :: Holds(st'.tables, i, j, true, f)
    {
      var i: nat, j: nat :| Holds(st.tables, i, j, true, f);
      assert Holds(st'.tables, i, j, true, f);
    }
    forall f: nat | f < |st'.slotFree| && !st'.slotFree[f]
      ensures exists i: nat, j: nat :: Holds(st'.tables, i, j, false, f)
    {
      if f == k {
        assert Holds(st'.tables, s, p, false, k);
      } else {
        var i: nat, j: nat :| Holds(st.tables, i, j, false, f);
        assert Holds(st'.tables, i, j, false, f);
      }
    }
  }

  // ----- the clock's verdict -----

  /** Tables that differ in use and modified bits only. */
  ghost predicate SameMapping(t: Tables, u: Tables)
  {
    && SameShape(t, u)
    && forall s: nat, p: nat | Spot(t, s, p) :: u[s][p].present == t[s][p].present && u[s][p].fr == t[s][p].fr
  }

  lemma RemapKeeps(st: State, u: Tables, hs: nat, hp: nat, ps: nat)
    requires Exclusive(st, ps) && SameMapping(st.tables, u)
    ensures var st' := st.(tables := u, handSeg := hs, handPage := hp);
            Exclusive(st', ps) && SameContents(st, st', ps)
  {
    var st' := st.(tables := u, handSeg := hs, handPage := hp);
    assert forall s: nat, p: nat :: Spot(u, s, p) == Spot(st.tables, s, p);
    assert forall s: nat, p: nat, b: bool, f: nat
      {:trigger Holds(u, s, p, b, f)} {:trigger Holds(st.tables, s, p, b, f)} ::
      Holds(u, s, p, b, f) == Holds(st.tables, s, p, b, f);
    forall f: nat | f < |st.frameFree| && !st.frameFree[f]
      ensures exists s: nat, p: nat :: Holds(u, s, p, true, f)
    {
      var s: nat, p: nat :| Holds(st.tables, s, p, true, f);
      assert Holds(u, s, p, true, f);
    }
    forall f: nat | f < |st.slotFree| && !st.slotFree[f]
      ensures exists s: nat, p: nat :: Holds(u, s, p, false, f)
    {
      var s: nat, p: nat :| Holds(st.tables, s, p, false, f);
      assert Holds(u, s, p, false, f);
    }
  }

  /** With every frame taken there is a page for the clock to find. */
  lemma FullHasPresent(st: State, ps: nat)
    requires Exclusive(st, ps) && FirstTrue(st.frameFree, 0) == -1
    ensures SomePresent(st.tables)
  {
    var s: nat, p: nat :| Holds(st.tables, s, p, true, 0);
    assert Spot(st.tables, s, p) && st.tables[s][p].present;
  }

  ghost predicate Sane(st: State)
  {
    && |st.frames| == |st.frameFree| && |st.swap| == |st.slotFree|
    && forall s: nat, p: nat | Spot(st.tables, s, p) ::
         st.tables[s][p].fr < if st.tables[s][p].present then |st.frames| else |st.swap|
  }

  /** `dame_nro_frame_reemplazado`: the new state and the frame that was emptied. */
  function Replace(st: State): (r: (State, nat))
    requires SomePresent(st.tables) && Sane(st)
    ensures r.1 < |r.0.frames| == |st.frames| && |r.0.frameFree| == |st.frameFree|
    ensures |r.0.slotFree| == |st.slotFree| && |r.0.swap| == |st.swap|
    ensures r.0.frameFree[r.1]
    ensures SameShape(st.tables, r.0.tables)
  {
    var c := Victim(st.tables, st.handSeg, st.handPage);
    VictimMapping(st.tables, st.handSeg, st.handPage);
    var st1 := st.(tables := c.tables, handSeg := c.seg, handPage := c.page);
    (Evict(st1, c.seg, c.page), st.tables[c.seg][c.page].fr)
  }

  lemma VictimMapping(t: Tables, hs: nat, hp: nat)
    requires SomePresent(t)
    ensures SameMapping(t, Victim(t, hs, hp).tables)
  {
  }

  lemma ReplaceKeeps(st: State, ps: nat)
    requires Exclusive(st, ps) && SomePresent(st.tables) && FirstTrue(st.slotFree, 0) != -1
    ensures Sane(st)
    ensures var r := Replace(st);
            && Exclusive(r.0, ps) && SameContents(st, r.0, ps)
            && r.0.frameFree[r.1] && Available(r.0) == Available(st)
  {
    var c := Victim(st.tables, st.handSeg, st.handPage);
    VictimMapping(st.tables, st.handSeg, st.handPage);
    var st1 := st.(tables := c.tables, handSeg := c.seg, handPage := c.page);
    RemapKeeps(st, c.tables, c.seg, c.page, ps);
    EvictKeeps(st1, c.seg, c.page, ps);
  }

  // ----- reloading a page -----

  /** A page on swap takes frame `f`; its slot is freed. */
  function Assign(st: State, s: nat, p: nat, f: nat): (st': State)
    requires Spot(st.tables, s, p) && f < |st.frames| == |st.frameFree|
    requires st.tables[s][p].fr < |st.swap| == |st.slotFree|
  {
    var x := st.tables[s][p];
    st.(frameFree := st.frameFree[f := false], slotFree := st.slotFree[x.fr := true],
        frames := st.frames[f := st.swap[x.fr]],
        tables := SetPage(st.tables, s, p, x.(fr := f, present := true, used := true)))
  }

  lemma AssignKeeps(st: State, s: nat, p: nat, f: nat, ps: nat)
    requires Exclusive(st, ps) && Spot(st.tables, s, p) && !st.tables[s][p].present
    requires f < |st.frameFree| && st.frameFree[f]
    ensures var st' := Assign(st, s, p, f);
            && Exclusive(st', ps) && SameContents(st, st', ps)
            && Available(st') == Available(st) && st'.tables[s][p].present
  {
    var st' := Assign(st, s, p, f);
    var x := st.tables[s][p];
    CountUpdate(st.frameFree, f, false);
    CountUpdate(st.slotFree, x.fr, true);
    AssignMapped(st, s, p, f, ps);
    AssignOwned(st, s, p, f, ps);
  }

  lemma AssignMapped(st: State, s: nat, p: nat, f: nat, ps: nat)
    requires Exclusive(st, ps) && Spot(st.tables, s, p) && !st.tables[s][p].present
    requires f < |st.frameFree| && st.frameFree[f]
    ensures var st' := Assign(st, s, p, f); Mapped(st') && Unshared(st'.tables)
  {
    var st' := Assign(st, s, p, f);
    var x := st.tables[s][p];
    assert Holds(st.tables, s, p, false, x.fr);
    forall i: nat, j: nat | Spot(st'.tables, i, j)
      ensures var y := st'.tables[i][j];
        if y.present then y.fr < |st'.frameFree| && !st'.frameFree[y.fr]
        else y.fr < |st'.slotFree| && !st'.slotFree[y.fr]
    {
      assert Spot(st.tables, i, j);
      assert !st.tables[i][j].present && st.tables[i][j].fr == x.fr ==> Holds(st.tables, i, j, false, x.fr);
    }
    forall i: nat, j: nat, m: nat, n: nat, b: bool, g: nat |
      Holds(st'.tables, i, j, b, g) && Holds(st'.tables, m, n, b, g)
      ensures i == m && j == n
    {
      if (i, j) != (s, p) {
        assert Holds(st.tables, i, j, b, g);
      }
      if (m, n) != (s, p) {
        assert Holds(st.tables, m, n, b, g);
      }
    }
  }

  lemma AssignOwned(st: State, s: nat, p: nat, f: nat, ps: nat)
    requires Exclusive(st, ps) && Spot(st.tables, s, p) && !st.tables[s][p].present
    requires f < |st.frameFree| && st.frameFree[f]
    ensures Owned(Assign(st, s, p, f))
  {
    var st' := Assign(st, s, p, f);
    forall g: nat | g < |st'.frameFree| && !st'.frameFree[g]
      ensures exists i: nat, j: nat :: Holds(st'.tables, i, j, true, g)
    {
      if g == f {
        assert Holds(st'.tables, s, p, true, f);
      } else {
        var i: nat, j: nat :| Holds(st.tables, i, j, true, g);
        assert Holds(st'.tables, i, j, true, g);
      }
    }
    forall g: nat | g < |st'.slotFree| && !st'.slotFree[g]
      ensures exists i: nat, j: nat :: Holds(st'.tables, i, j, false, g)
    {
      var i: nat, j: nat :| Holds(st.tables, i, j, false, g);
      assert Holds(st'.tables, i, j, false, g);
    }
  }

  /** `obtener_data_marco_heap`. */
  function Load(st: State, s: nat, p: nat): (st': State)
    requires Sane(st) && Spot(st.tables, s, p)
    requires FirstTrue(st.frameFree, 0) == -1 ==> SomePresent(st.tables)
    ensures SameShape(st.tables, st'.tables)
  {
    if st.tables[s][p].present then st
    else
      var f := FirstTrue(st.frameFree, 0);
      if f == -1 then
        var r := Replace(st);
        ReplaceSlots(st, s, p);
        Assign(r.0, s, p, r.1)
      else Assign(st, s, p, f)
  }

  /** A page there already is left alone; one brought in, from swap or as a new page, counts as just used. */
  lemma BroughtIn(st: State, s: nat, p: nat)
    requires Sane(st) && Spot(st.tables, s, p)
    requires FirstTrue(st.frameFree, 0) == -1 ==> SomePresent(st.tables)
    ensures var x := Load(st, s, p).tables[s][p];
            x.present && if st.tables[s][p].present then Load(st, s, p) == st else x.used
    ensures var t := AddPage(st, s).tables;
            |t| == |st.tables| && |t[s]| == |st.tables[s]| + 1
            && var x := t[s][|st.tables[s]|]; x.present && x.used && !x.modified
  {
    if !st.tables[s][p].present && FirstTrue(st.frameFree, 0) == -1 {
      ReplaceSlots(st, s, p);
    }
  }

  /** The modified bits are as they were, but for those of pages `lo` to `hi` of segment `s`, which are set. */
  ghost predicate Marks(t: Tables, u: Tables, s: nat, lo: nat, hi: nat)
  {
    && SameShape(t, u)
    && forall i: nat, j: nat | Spot(t, i, j) :: u[i][j].modified == (t[i][j].modified || (i == s && lo <= j < hi))
  }

  lemma MarksTrans(t: Tables, u: Tables, v: Tables, s: nat, lo: nat, mid: nat, hi: nat)
    requires lo <= mid <= hi && Marks(t, u, s, lo, mid) && Marks(u, v, s, mid, hi)
    ensures Marks(t, v, s, lo, hi)
  {
    assert forall i: nat, j: nat :: Spot(u, i, j) == Spot(t, i, j);
  }

  lemma NoMarks(t: Tables, s: nat, at: nat)
    ensures Marks(t, t, s, at, at)
  {
  }

  lemma OneMark(t: Tables, s: nat, p: nat)
    requires Spot(t, s, p)
    ensures Marks(t, SetPage(t, s, p, t[s][p].(modified := true)), s, p, p + 1)
  {
  }

  lemma AlsoMarks(t: Tables, u: Tables, v: Tables, s: nat, lo: nat, hi: nat)
    requires Marks(t, u, s, lo, hi) && Marks(u, v, 0, 0, 0)
    ensures Marks(t, v, s, lo, hi)
  {
    assert forall i: nat, j: nat :: Spot(u, i, j) == Spot(t, i, j);
  }

  lemma LaterMarks(t: Tables, u: Tables, v: Tables, s: nat, lo: nat, hi: nat)
    requires Marks(t, u, 0, 0, 0) && Marks(u, v, s, lo, hi)
    ensures Marks(t, v, s, lo, hi)
  {
    assert forall i: nat, j: nat :: Spot(u, i, j) == Spot(t, i, j);
  }

  /** Neither a search for a victim nor its eviction nor a load sets or clears one. */
  lemma LoadMarks(st: State, s: nat, p: nat)
    requires Sane(st) && Spot(st.tables, s, p)
    requires FirstTrue(st.frameFree, 0) == -1 ==> SomePresent(st.tables)
    ensures Marks(st.tables, Load(st, s, p).tables, 0, 0, 0)
  {
    if !st.tables[s][p].present && FirstTrue(st.frameFree, 0) == -1 {
      VictimMarks(st.tables, st.handSeg, st.handPage);
      var r := Replace(st);
      ReplaceSlots(st, s, p);
      assert Marks(st.tables, r.0.tables, 0, 0, 0);
    }
  }

  lemma VictimMarks(t: Tables, hs: nat, hp: nat)
    requires SomePresent(t)
    ensures Marks(t, Victim(t, hs, hp).tables, 0, 0, 0)
  {
  }

  /** Pages already on swap stay where they are while a victim leaves. */
  lemma ReplaceSlots(st: State, s: nat, p: nat)
    requires SomePresent(st.tables) && Sane(st) && Spot(st.tables, s, p) && !st.tables[s][p].present
    ensures Replace(st).0.tables[s][p].fr == st.tables[s][p].fr && !Replace(st).0.tables[s][p].present
  {
    VictimMapping(st.tables, st.handSeg, st.handPage);
  }

  /** What a load needs: the page is here, or a frame is free, or a slot is. */
  predicate CanLoad(st: State, s: nat, p: nat)
    requires Spot(st.tables, s, p)
  {
    st.tables[s][p].present || FirstTrue(st.frameFree, 0) != -1 || FirstTrue(st.slotFree, 0) != -1
  }

  lemma LoadKeeps(st: State, s: nat, p: nat, ps: nat)
    requires Exclusive(st, ps) && Spot(st.tables, s, p) && CanLoad(st, s, p)
    ensures Sane(st) && (FirstTrue(st.frameFree, 0) == -1 ==> SomePresent(st.tables))
    ensures var st' := Load(st, s, p);
            && Exclusive(st', ps) && SameContents(st, st', ps)
            && Available(st') == Available(st) && st'.tables[s][p].present
  {
    if FirstTrue(st.frameFree, 0) == -1 {
      FullHasPresent(st, ps);
    }
    if !st.tables[s][p].present {
      var f := FirstTrue(st.frameFree, 0);
      if f == -1 {
        ReplaceKeeps(st, ps);
        ReplaceSlots(st, s, p);
        var r := Replace(st);
        AssignKeeps(r.0, s, p, r.1, ps);
      } else {
        AssignKeeps(st, s, p, f, ps);
      }
    }
  }

  /**
   A load keeps frames and slots exclusive exactly when it can find room for its victim;
   otherwise two pages end up on one frame and the victim shows the loaded page's bytes.
   */
  lemma LoadExact(st: State, s: nat, p: nat, ps: nat)
    requires Exclusive(st, ps) && Spot(st.tables, s, p)
    ensures Sane(st) && (FirstTrue(st.frameFree, 0) == -1 ==> SomePresent(st.tables))
    ensures Exclusive(Load(st, s, p), ps) <==> CanLoad(st, s, p)
    ensures !CanLoad(st, s, p) ==>
              var c := Victim(st.tables, st.handSeg, st.handPage);
              var st' := Load(st, s, p);
              && Holds(st'.tables, c.seg, c.page, true, st.tables[c.seg][c.page].fr)
              && Holds(st'.tables, s, p, true, st.tables[c.seg][c.page].fr)
              && st'.frames[st.tables[c.seg][c.page].fr] == Content(st, s, p)
  {
    if FirstTrue(st.frameFree, 0) == -1 {
      FullHasPresent(st, ps);
    }
    if CanLoad(st, s, p) {
      LoadKeeps(st, s, p, ps);
    } else {
      VictimMapping(st.tables, st.handSeg, st.handPage);
      var c := Victim(st.tables, st.handSeg, st.handPage);
      var st' := Load(st, s, p);
      assert Holds(st'.tables, c.seg, c.page, true, st.tables[c.seg][c.page].fr);
      assert Holds(st'.tables, s, p, true, st.tables[c.seg][c.page].fr);
    }
  }

  /** Writing the frame of a present page changes that page's bytes and no other's. */
  lemma WriteFrameKeeps(st: State, s: nat, p: nat, x: seq<byte>, ps: nat)
    requires Exclusive(st, ps) && Spot(st.tables, s, p) && st.tables[s][p].present && |x| == ps
    ensures var st' := st.(frames := st.frames[st.tables[s][p].fr := x]);
            && Exclusive(st', ps) && Available(st') == Available(st)
            && Content(st', s, p) == x
            && forall i: nat, j: nat | Spot(st.tables, i, j) && (i, j) != (s, p) ::
                 Content(st', i, j) == Content(st, i, j)
  {
    var f := st.tables[s][p].fr;
    var st' := st.(frames := st.frames[f := x]);
    forall i: nat, j: nat | Spot(st.tables, i, j) && (i, j) != (s, p) ensures Content(st', i, j) == Content(st, i, j) {
      assert Holds(st.tables, s, p, true, f);
      assert !Holds(st.tables, i, j, true, f);
    }
  }

  // ----- a new page -----

  /** `page_with_free_size`, then `list_add` of the page to segment `s`. */
  function AddPage(st: State, s: nat): (st': State)
    requires Sane(st) && s < |st.tables|
    requires FirstTrue(st.frameFree, 0) == -1 ==> SomePresent(st.tables)
  {
    var f := FirstTrue(st.frameFree, 0);
    var r := if f == -1 then Replace(st) else (st, f as nat);
    r.0.(frameFree := r.0.frameFree[r.1 := false],
         tables := r.0.tables[s := r.0.tables[s] + [Page(true, false, true, r.1)]])
  }

  /** The page tables gain one page at the end of `s`; no old byte moves. */
  ghost predicate Appended(st: State, st': State, s: nat, ps: nat)
    requires Exclusive(st, ps) && Exclusive(st', ps) && s < |st.tables|
  {
    && |st'.tables| == |st.tables|
    && (forall i: nat | i < |st.tables| :: |st'.tables[i]| == |st.tables[i]| + if i == s then 1 else 0)
    && forall i: nat, j: nat | Spot(st.tables, i, j) :: Content(st', i, j) == Content(st, i, j)
  }

  lemma AddPageKeeps(st: State, s: nat, ps: nat)
    requires Exclusive(st, ps) && s < |st.tables| && Available(st) > 0
    ensures Sane(st) && (FirstTrue(st.frameFree, 0) == -1 ==> SomePresent(st.tables))
    ensures var st' := AddPage(st, s);
            Exclusive(st', ps) && Appended(st, st', s, ps) && Available(st') == Available(st) - 1
  {
    CountZero(st.frameFree);
    CountZero(st.slotFree);
    var f := FirstTrue(st.frameFree, 0);
    if f == -1 {
      FullHasPresent(st, ps);
      ReplaceKeeps(st, ps);
      var r := Replace(st);
      AppendKeeps(r.0, s, r.1, ps);
    } else {
      AppendKeeps(st, s, f, ps);
    }
  }

  function AppendPage(st: State, s: nat, f: nat): (st': State)
    requires s < |st.tables| && f < |st.frameFree|
  {
    st.(frameFree := st.frameFree[f := false],
        tables := st.tables[s := st.tables[s] + [Page(true, false, true, f)]])
  }

  lemma AppendKeeps(st: State, s: nat, f: nat, ps: nat)
    requires Exclusive(st, ps) && s < |st.tables| && f < |st.frameFree| && st.frameFree[f]
    ensures var st' := AppendPage(st, s, f);
            Exclusive(st', ps) && Appended(st, st', s, ps) && Available(st') == Available(st) - 1
  {
    CountUpdate(st.frameFree, f, false);
    AppendMapped(st, s, f, ps);
    AppendOwned(st, s, f, ps);
    hide Owned;
    hide Unshared;
  }

  lemma AppendMapped(st: State, s: nat, f: nat, ps: nat)
    requires Exclusive(st, ps) && s < |st.tables| && f < |st.frameFree| && st.frameFree[f]
    ensures var st' := AppendPage(st, s, f); Mapped(st') && Unshared(st'.tables)
  {
    var st' := AppendPage(st, s, f);
    var n := |st.tables[s]|;
    forall i: nat, j: nat | Spot(st'.tables, i, j)
      ensures var y := st'.tables[i][j];
        if y.present then y.fr < |st'.frameFree| && !st'.frameFree[y.fr]
        else y.fr < |st'.slotFree| && !st'.slotFree[y.fr]
    {
      if (i, j) != (s, n) {
        assert Spot(st.tables, i, j);
      }
    }
    forall i: nat, j: nat, m: nat, k: nat, b: bool, g: nat |
      Holds(st'.tables, i, j, b, g) && Holds(st'.tables, m, k, b, g)
      ensures i == m && j == k
    {
      if (i, j) != (s, n) {
        assert Holds(st.tables, i, j, b, g);
      }
      if (m, k) != (s, n) {
        assert Holds(st.tables, m, k, b, g);
      }
    }
  }

  lemma AppendOwned(st: State, s: nat, f: nat, ps: nat)
    requires Exclusive(st, ps) && s < |st.tables| && f < |st.frameFree| && st.frameFree[f]
    ensures Owned(AppendPage(st, s, f))
  {
    var st' := AppendPage(st, s, f);
    forall g: nat | g < |st'.frameFree| && !st'.frameFree[g]
      ensures exists i: nat, j: nat :: Holds(st'.tables, i, j, true, g)
    {
      if g == f {
        assert Holds(st'.tables, s, |st.tables[s]|, true, f);
      } else {
        var i: nat, j: nat :| Holds(st.tables, i, j, true, g);
        assert Holds(st'.tables, i, j, true, g);
      }
    }
    forall g: nat | g < |st'.slotFree| && !st'.slotFree[g]
      ensures exists i: nat, j: nat :: Holds(st'.tables, i, j, false, g)
    {
      var i: nat, j: nat :| Holds(st.tables, i, j, false, g);
      assert Holds(st'.tables, i, j, false, g);
    }
  }

  /** A page can be added cleanly exactly when a frame or a slot is free. */
  lemma AddPageExact(st: State, s: nat, ps: nat)
    requires Exclusive(st, ps) && s < |st.tables|
    ensures Sane(st) && (FirstTrue(st.frameFree, 0) == -1 ==> SomePresent(st.tables))
    ensures Exclusive(AddPage(st, s), ps) <==> Available(st) > 0
  {
    CountZero(st.frameFree);
    CountZero(st.slotFree);
    if Available(st) > 0 {
      AddPageKeeps(st, s, ps);
    } else {
      FullHasPresent(st, ps);
      VictimMapping(st.tables, st.handSeg, st.handPage);
      var c := Victim(st.tables, st.handSeg, st.handPage);
      var st' := AddPage(st, s);
      var f := st.tables[c.seg][c.page].fr;
      assert Holds(st'.tables, c.seg, c.page, true, f);
      assert Holds(st'.tables, s, |st.tables[s]|, true, f);
    }
  }

  // ----- the books balance -----

  /** Free frames, free slots and heap pages add up to the machine. */
  ghost predicate Balanced(st: State)
  {
    Available(st) + PageCount(st.tables) == |st.frameFree| + |st.slotFree|
  }

  lemma {:induction false} SameShapeCount(t: Tables, u: Tables)
    requires SameShape(t, u)
    ensures PageCount(t) == PageCount(u)
  {
    if t != [] {
      SameShapeCount(t[..|t| - 1], u[..|u| - 1]);
    }
  }

  lemma LoadBalanced(st: State, s: nat, p: nat, ps: nat)
    requires Exclusive(st, ps) && Spot(st.tables, s, p) && CanLoad(st, s, p) && Balanced(st)
    ensures Sane(st) && (FirstTrue(st.frameFree, 0) == -1 ==> SomePresent(st.tables))
    ensures Balanced(Load(st, s, p))
  {
    LoadKeeps(st, s, p, ps);
    SameShapeCount(st.tables, Load(st, s, p).tables);
  }

  lemma AddPageBalanced(st: State, s: nat, ps: nat)
    requires Exclusive(st, ps) && s < |st.tables| && Available(st) > 0 && Balanced(st)
    ensures Sane(st) && (FirstTrue(st.frameFree, 0) == -1 ==> SomePresent(st.tables))
    ensures Balanced(AddPage(st, s))
  {
    AddPageKeeps(st, s, ps);
    var st' := AddPage(st, s);
    var u := st.tables[s := st'.tables[s]];
    PageCountUpdate(st.tables, s, st'.tables[s]);
    SameShapeCount(u, st'.tables);
  }

  /** While pages stay strictly below the machine's capacity, every load finds room. */
  lemma RoomToLoad(st: State, s: nat, p: nat)
    requires Balanced(st) && Spot(st.tables, s, p)
    requires PageCount(st.tables) < |st.frameFree| + |st.slotFree|
    ensures CanLoad(st, s, p)
  {
    CountZero(st.frameFree);
    CountZero(st.slotFree);
  }
}
