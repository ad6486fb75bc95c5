/**
 A segment as one flat run of bytes, whatever frames and slots its pages are in, and the header
 write of `modificar_metadata` on pages against the same write on flat bytes.
 */
module Segments {
  import opened Bytes
  import opened Sizes
  import opened Chain
  import opened Layout
  import opened Clock
  import opened Paging

  function Concat(cs: seq<seq<byte>>): (r: seq<byte>)
  {
    if cs == [] then [] else Concat(cs[..|cs| - 1]) + cs[|cs| - 1]
  }

  ghost predicate Paged(cs: seq<seq<byte>>, ps: nat)
  {
    forall p | 0 <= p < |cs| :: |cs[p]| == ps
  }

  lemma {:induction false} ConcatLen(cs: seq<seq<byte>>, ps: nat)
    requires Paged(cs, ps)
    ensures |Concat(cs)| == PageStart(|cs|, ps)
  {
    if cs != [] {
      PageRange(|cs| - 1, |cs|, ps);
      ConcatLen(cs[..|cs| - 1], ps);
    }
  }

  lemma {:induction false} ConcatPage(cs: seq<seq<byte>>, ps: nat, p: nat)
    requires Paged(cs, ps) && p < |cs|
    ensures PageStart(p, ps) + ps <= PageStart(|cs|, ps) == |Concat(cs)|
    ensures Concat(cs)[PageStart(p, ps)..PageStart(p, ps) + ps] == cs[p]
  {
    var n := |cs| - 1;
    PageRange(p, |cs|, ps);
    ConcatLen(cs, ps);
    ConcatLen(cs[..n], ps);
    var front, base := Concat(cs[..n]), PageStart(p, ps);
    assert Concat(cs) == front + cs[n];
    if p < n {
      PageRange(p, n, ps);
      ConcatPage(cs[..n], ps, p);
      assert (front + cs[n])[base..base + ps] == front[base..base + ps];
    } else {
      assert (front + cs[n])[base..base + ps] == cs[n];
    }
  }

  lemma {:induction false} ConcatUpdate(cs: seq<seq<byte>>, ps: nat, p: nat, x: seq<byte>)
    requires Paged(cs, ps) && p < |cs| && |x| == ps
    ensures PageStart(p, ps) + ps <= |Concat(cs)|
    ensures Concat(cs[p := x]) == Splice(Concat(cs), PageStart(p, ps), x)
  {
    ConcatPage(cs, ps, p);
    var n := |cs| - 1;
    ConcatLen(cs[..n], ps);
    if p < n {
      ConcatUpdate(cs[..n], ps, p, x);
      assert cs[p := x][..n] == cs[..n][p := x];
      SpliceAppend(Concat(cs[..n]), cs[n], PageStart(p, ps), x);
    } else {
      assert cs[p := x][..n] == cs[..n];
    }
  }

  lemma SpliceAppend(s: seq<byte>, t: seq<byte>, at: nat, x: seq<byte>)
    requires at + |x| <= |s|
    ensures Splice(s, at, x) + t == Splice(s + t, at, x)
  {
  }

  /** A write inside one page. */
  lemma SpliceInPage(f: seq<byte>, base: nat, page: seq<byte>, off: nat, x: seq<byte>)
    requires base + |page| <= |f| && f[base..base + |page|] == page && off + |x| <= |page|
    ensures Splice(f, base, Splice(page, off, x)) == Splice(f, base + off, x)
  {
    var y := Splice(page, off, x);
    forall k | 0 <= k < |f| ensures Splice(f, base, y)[k] == Splice(f, base + off, x)[k] {
      if base <= k < base + |page| {
        assert Splice(f, base, y)[k] == y[k - base];
        assert page[k - base] == f[k];
      }
    }
  }

  lemma ConcatWrite(cs: seq<seq<byte>>, ps: nat, p: nat, off: nat, x: seq<byte>)
    requires Paged(cs, ps) && p < |cs| && off + |x| <= ps
    ensures PageStart(p, ps) + off + |x| <= |Concat(cs)|
    ensures Concat(cs[p := Splice(cs[p], off, x)]) == Splice(Concat(cs), PageStart(p, ps) + off, x)
  {
    hide Concat;
    hide Splice;
    hide PageStart;
    ConcatPage(cs, ps, p);
    ConcatUpdate(cs, ps, p, Splice(cs[p], off, x));
    SpliceInPage(Concat(cs), PageStart(p, ps), cs[p], off, x);
  }

  // ----- the flat view -----

  function Contents(st: State, s: nat): (r: seq<seq<byte>>)
    requires Sane(st) && s < |st.tables|
    ensures |r| == |st.tables[s]|
  {
    seq(|st.tables[s]|, (p: nat) requires Spot(st.tables, s, p) => Content(st, s, p))
  }

  /** The segment's bytes, from its base to its limit. */
  function Flat(st: State, s: nat): (r: seq<byte>)
    requires Sane(st) && s < |st.tables|
  {
    Concat(Contents(st, s))
  }

  lemma FlatLen(st: State, s: nat, ps: nat)
    requires Exclusive(st, ps) && s < |st.tables|
    ensures Paged(Contents(st, s), ps) && |Flat(st, s)| == PageStart(|st.tables[s]|, ps)
  {
    ContentLen(st, s, ps);
    ConcatLen(Contents(st, s), ps);
  }

  lemma ContentLen(st: State, s: nat, ps: nat)
    requires Exclusive(st, ps) && s < |st.tables|
    ensures Paged(Contents(st, s), ps)
  {
    hide Owned;
    hide Unshared;
    forall p | 0 <= p < |Contents(st, s)| ensures |Contents(st, s)[p]| == ps {
      assert Spot(st.tables, s, p);
    }
  }

  lemma FlatSame(st: State, st': State, ps: nat, s: nat)
    requires Exclusive(st, ps) && Exclusive(st', ps) && SameContents(st, st', ps) && s < |st.tables|
    ensures Flat(st', s) == Flat(st, s)
  {
    hide Owned;
    hide Unshared;
    assert Contents(st', s) == Contents(st, s);
  }

  /** Paging is invisible: a load that finds room changes no byte of any segment. */
  lemma LoadInvisible(st: State, s: nat, p: nat, ps: nat, i: nat)
    requires Exclusive(st, ps) && Spot(st.tables, s, p) && CanLoad(st, s, p) && i < |st.tables|
    ensures Sane(st) && (FirstTrue(st.frameFree, 0) == -1 ==> SomePresent(st.tables))
    ensures Exclusive(Load(st, s, p), ps) && Flat(Load(st, s, p), i) == Flat(st, i)
  {
    LoadKeeps(st, s, p, ps);
    FlatSame(st, Load(st, s, p), ps, i);
  }

  /** A new page lengthens its own segment at the end and touches no other. */
  lemma AddPageFlat(st: State, s: nat, ps: nat, i: nat)
    requires Exclusive(st, ps) && s < |st.tables| && Available(st) > 0 && i < |st.tables|
    ensures Sane(st) && (FirstTrue(st.frameFree, 0) == -1 ==> SomePresent(st.tables))
    ensures var st' := AddPage(st, s);
            && Exclusive(st', ps) && |st'.tables| == |st.tables|
            && if i == s then Flat(st, s) <= Flat(st', s) && |Flat(st', s)| == |Flat(st, s)| + ps
               else Flat(st', i) == Flat(st, i)
  {
    AddPageKeeps(st, s, ps);
    var st' := AddPage(st, s);
    AppendedFlat(st, st', s, ps, i);
  }

  lemma AppendedFlat(st: State, st': State, s: nat, ps: nat, i: nat)
    requires Exclusive(st, ps) && Exclusive(st', ps) && s < |st.tables| && i < |st.tables|
    requires Appended(st, st', s, ps)
    ensures if i == s then Flat(st, s) <= Flat(st', s) && |Flat(st', s)| == |Flat(st, s)| + ps
            else Flat(st', i) == Flat(st, i)
  {
    hide Owned;
    hide Unshared;
    var n := |st.tables[i]|;
    assert Contents(st', i)[..n] == Contents(st, i);
    if i == s {
      ContentLen(st', s, ps);
    } else {
      assert Contents(st', i) == Contents(st, i);
    }
  }

  /** Writing one present page's frame. */
  lemma WriteFrameFlat(st: State, s: nat, p: nat, off: nat, x: seq<byte>, ps: nat, i: nat)
    requires Exclusive(st, ps) && Spot(st.tables, s, p) && st.tables[s][p].present
    requires off + |x| <= ps && i < |st.tables|
    ensures PageStart(p, ps) + off + |x| <= |Flat(st, s)|
    ensures var f := st.tables[s][p].fr;
            var st' := st.(frames := st.frames[f := Splice(st.frames[f], off, x)]);
            && Exclusive(st', ps)
            && Flat(st', i) == if i == s then Splice(Flat(st, s), PageStart(p, ps) + off, x) else Flat(st, i)
  {
    FlatLen(st, s, ps);
    assert Contents(st, s)[p] == st.frames[st.tables[s][p].fr];
    ConcatWrite(Contents(st, s), ps, p, off, x);
    WriteFrameContents(st, s, p, Splice(st.frames[st.tables[s][p].fr], off, x), ps, i);
    hide Owned;
    hide Unshared;
    hide Mapped;
    hide Splice;
    hide Concat;
  }

  lemma WriteFrameContents(st: State, s: nat, p: nat, y: seq<byte>, ps: nat, i: nat)
    requires Exclusive(st, ps) && Spot(st.tables, s, p) && st.tables[s][p].present
    requires |y| == ps && i < |st.tables|
    ensures var st' := st.(frames := st.frames[st.tables[s][p].fr := y]);
            && Exclusive(st', ps)
            && Contents(st', i) == if i == s then Contents(st, s)[p := y] else Contents(st, i)
  {
    hide Owned;
    hide Unshared;
    WriteFrameKeeps(st, s, p, y, ps);
    var st' := st.(frames := st.frames[st.tables[s][p].fr := y]);
    forall j: nat | j < |st.tables[i]|
      ensures Content(st', i, j) == if i == s && j == p then y else Content(st, i, j)
    {
      assert Spot(st.tables, i, j);
    }
  }
}
