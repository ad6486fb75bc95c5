/**
 The accesses of `memory_malloc` and `memory_free` stay inside the segments, add the pages they
 should and no others, and write no cut header but where the chain has one: what the theorems of
 module `Assured` ask for, list by list.
 */
module Ranges {
  import opened Bytes
  import opened Sizes
  import opened Chain
  import opened Layout
  import opened Clock
  import opened Paging
  import opened Headers
  import opened Views
  import opened Traces
  import opened Accesses
  import opened Assured
  import H = Heap

  /** Chain `c` fills segment `s`. */
  ghost predicate Fills(ps: nat, lens: seq<nat>, s: nat, c: seq<Block>)
  {
    ps >= HEADER && s < |lens| && c != [] && Len(c) == PageStart(lens[s], ps)
  }

  /** And its sizes fit in a word. */
  ghost predicate Laid(ps: nat, lens: seq<nat>, s: nat, c: seq<Block>)
  {
    Fills(ps, lens, s, c) && Len(c) < WORD
  }

  lemma ReadSteady(ps: nat, lens: seq<nat>, s: nat, a: nat)
    requires ps >= HEADER && s < |lens| && a + HEADER <= PageStart(lens[s], ps)
    ensures Steady(ps, lens, Read(ps, s, a)) && Unbroken(ps, Read(ps, s, a))
  {
    AddressPage(a, HEADER, lens[s], ps);
  }

  lemma BlockSteady(ps: nat, lens: seq<nat>, s: nat, c: seq<Block>, i: nat)
    requires Fills(ps, lens, s, c) && i < |c|
    ensures Addr(c, i) + HEADER + c[i].size <= PageStart(lens[s], ps)
    ensures Steady(ps, lens, Read(ps, s, Addr(c, i))) && Unbroken(ps, Read(ps, s, Addr(c, i)))
  {
    AddrStep(c, i);
    ReadSteady(ps, lens, s, Addr(c, i));
  }

  lemma {:induction false} WalkSteady(ps: nat, lens: seq<nat>, s: nat, c: seq<Block>, i: nat)
    requires Fills(ps, lens, s, c) && i < |c|
    ensures Steady(ps, lens, Walk(ps, s, c, i)) && Unbroken(ps, Walk(ps, s, c, i))
    decreases |c| - i
  {
    hide Inside;
    hide Read;
    hide Addr;
    BlockSteady(ps, lens, s, c, i);
    if i < |c| - 1 {
      WalkSteady(ps, lens, s, c, i + 1);
    }
  }

  lemma {:induction false} SearchSteady(ps: nat, lens: seq<nat>, s: nat, c: seq<Block>, i: nat, size: nat)
    requires Fills(ps, lens, s, c) && i < |c|
    ensures Steady(ps, lens, Search(ps, s, c, i, size)) && Unbroken(ps, Search(ps, s, c, i, size))
    decreases |c| - i
  {
    hide Inside;
    hide Read;
    hide Addr;
    hide Walk;
    hide Search;
    hide Straddles;
    SearchIs(ps, s, c, i, size);
    BlockSteady(ps, lens, s, c, i);
    WalkSteady(ps, lens, s, c, 0);
    if i < |c| - 1 {
      BlockSteady(ps, lens, s, c, i + 1);
      SearchSteady(ps, lens, s, c, i + 1, size);
    }
  }

  lemma {:induction false} SeekSteady(ps: nat, lens: seq<nat>, s: nat, c: seq<Block>, i: nat)
    requires Fills(ps, lens, s, c) && i < |c| && (i == |c| - 1 ==> c[i].free)
    ensures Steady(ps, lens, Seek(ps, s, c, i)) && Unbroken(ps, Seek(ps, s, c, i))
    decreases |c| - i
  {
    hide Inside;
    hide Read;
    hide Addr;
    hide Walk;
    hide Seek;
    hide Straddles;
    SeekIs(ps, s, c, i);
    BlockSteady(ps, lens, s, c, i);
    WalkSteady(ps, lens, s, c, 0);
    if i < |c| - 1 {
      BlockSteady(ps, lens, s, c, i + 1);
      if !(i + 1 == |c| - 1) && !c[i].free {
        SeekSteady(ps, lens, s, c, i + 1);
      }
    }
  }

  /** No header of the chain runs over its page's end. */
  ghost predicate Whole(ps: nat, c: seq<Block>)
    requires ps > 0
  {
    forall i: nat | i < |c| :: !Straddles(ps, Addr(c, i))
  }

  /** Inside the segments, and broken only where a header of `c` is. */
  ghost predicate Contained(ps: nat, lens: seq<nat>, c: seq<Block>, l: seq<Access>)
    requires ps > 0
  {
    Steady(ps, lens, l) && (Whole(ps, c) ==> Unbroken(ps, l))
  }

  lemma FuseSteady(ps: nat, lens: seq<nat>, s: nat, c: seq<Block>, i: nat)
    requires Laid(ps, lens, s, c) && i + 1 < |c|
    ensures Contained(ps, lens, c, Fuse(s, c, i))
  {
    hide Addr;
    BlockSteady(ps, lens, s, c, i);
    BlockSteady(ps, lens, s, c, i + 1);
    AddrStep(c, i);
  }

  lemma AroundSteady(ps: nat, lens: seq<nat>, s: nat, c: seq<Block>, i: nat)
    requires Laid(ps, lens, s, c) && i + 1 < |c|
    ensures Contained(ps, lens, c, Around(ps, s, c, i))
  {
    hide Inside;
    hide Read;
    hide Addr;
    hide Walk;
    BlockSteady(ps, lens, s, c, i);
    BlockSteady(ps, lens, s, c, i + 1);
    WalkSteady(ps, lens, s, c, 0);
  }

  /** A merge fills the same segment, and its headers are headers of before. */
  lemma MergeLaid(ps: nat, lens: seq<nat>, s: nat, c: seq<Block>, i: nat)
    requires Laid(ps, lens, s, c) && i + 1 < |c|
    ensures Laid(ps, lens, s, Merge(c, i)) && (Whole(ps, c) ==> Whole(ps, Merge(c, i)))
  {
    var d := Merge(c, i);
    var pre, x, y, post := c[..i], c[i], c[i + 1], c[i + 2..];
    assert c == pre + [x, y] + post && d == pre + [Join(x, y)] + post;
    Pair(x, y, 0);
    One(x, 0);
    One(y, 0);
    One(Join(x, y), 0);
    EditLen(pre, [x, y], [Join(x, y)], post);
    forall j: nat | j < |d| ensures Addr(d, j) == Addr(c, if j <= i then j else j + 1) {
      if j <= i {
        assert d[..j] == c[..j];
      } else {
        assert d[..j] == pre + [Join(x, y)] + post[..j - i - 1] && c[..j + 1] == pre + [x, y] + post[..j - i - 1];
        EditLen(pre, [x, y], [Join(x, y)], post[..j - i - 1]);
      }
    }
  }

  lemma {:induction false} SqueezeSteady(ps: nat, lens: seq<nat>, s: nat, guarded: bool, c: seq<Block>, i: nat)
    requires Laid(ps, lens, s, c) && i + 1 < |c|
    ensures Contained(ps, lens, c, Squeeze(ps, s, guarded, c, i))
    decreases |c| - i
  {
    hide Inside;
    hide Read;
    hide Addr;
    hide Walk;
    hide Fuse;
    hide Around;
    hide Seek;
    hide Whole;
    SqueezeIs(ps, s, guarded, c, i);
    AroundSteady(ps, lens, s, c, i);
    FuseSteady(ps, lens, s, c, i);
    if i + 1 < |c| - 1 {
      if Absorbs(guarded, c, i) {
        MergeLaid(ps, lens, s, c, i);
        SqueezeSteady(ps, lens, s, guarded, Merge(c, i), i);
      } else {
        SeekSteady(ps, lens, s, c, i + 1);
        var k := NextFree(c, i + 1);
        if k != -1 {
          BlockSteady(ps, lens, s, c, k);
          SqueezeSteady(ps, lens, s, guarded, c, k);
        }
      }
    }
  }

  lemma PassSteady(ps: nat, lens: seq<nat>, s: nat, guarded: bool, c: seq<Block>)
    requires Laid(ps, lens, s, c) && (|c| == 1 ==> c[0].free)
    ensures Contained(ps, lens, c, Pass(ps, s, guarded, c))
  {
    hide Inside;
    hide Read;
    hide Addr;
    hide Walk;
    hide Seek;
    hide Squeeze;
    hide Whole;
    WalkSteady(ps, lens, s, c, 0);
    SeekSteady(ps, lens, s, c, 0);
    var k := NextFree(c, 0);
    if k != -1 {
      BlockSteady(ps, lens, s, c, k);
      if k != |c| - 1 {
        SqueezeSteady(ps, lens, s, guarded, c, k);
      }
    }
  }

  lemma {:induction false} ListingSteady(ps: nat, lens: seq<nat>, s: nat, c: seq<Block>, i: nat)
    requires Fills(ps, lens, s, c) && i < |c|
    ensures Steady(ps, lens, Listing(ps, s, c, i)) && Unbroken(ps, Listing(ps, s, c, i))
    decreases |c| - i
  {
    hide Inside;
    hide Read;
    hide Addr;
    hide Walk;
    hide Straddles;
    BlockSteady(ps, lens, s, c, i);
    WalkSteady(ps, lens, s, c, 0);
    if i < |c| - 1 {
      BlockSteady(ps, lens, s, c, i + 1);
      ListingSteady(ps, lens, s, c, i + 1);
    }
  }

  /** What a pass leaves fills the same segment. */
  lemma {:induction false} CompactLaid(ps: nat, lens: seq<nat>, s: nat, guarded: bool, c: seq<Block>, i: nat)
    requires Laid(ps, lens, s, c) && i + 1 < |c|
    ensures Laid(ps, lens, s, CompactAs(guarded, c, i))
    decreases |c| - i
  {
    hide CompactAs;
    CompactAsStep(guarded, c, i);
    var last := i + 1 == |c| - 1;
    if Absorbs(guarded, c, i) {
      MergeLaid(ps, lens, s, c, i);
      if !last {
        CompactLaid(ps, lens, s, guarded, Merge(c, i), i);
      }
    } else if !last && NextFree(c, i + 1) != -1 {
      CompactLaid(ps, lens, s, guarded, c, NextFree(c, i + 1));
    }
  }

  lemma FreeLaid(ps: nat, lens: seq<nat>, s: nat, guarded: bool, c: seq<Block>, k: nat)
    requires Laid(ps, lens, s, c) && k < |c| && !c[k].free
    ensures Laid(ps, lens, s, FreeAs(guarded, c, k))
  {
    hide CompactAs;
    var m := c[k := Block(c[k].size, true)];
    MarkFree(c, k);
    FreeSome(guarded, c, k);
    PassAsStep(guarded, m);
    if NextFree(m, 0) != -1 && NextFree(m, 0) != |m| - 1 {
      CompactLaid(ps, lens, s, guarded, m, NextFree(m, 0));
    }
  }

  lemma ReleaseSteady(ps: nat, lens: seq<nat>, s: nat, guarded: bool, c: seq<Block>, k: nat)
    requires Laid(ps, lens, s, c) && k < |c| && !c[k].free
    ensures Contained(ps, lens, c, Release(ps, s, guarded, c, k))
  {
    hide Read;
    hide Walk;
    hide Pass;
    hide Listing;
    hide FreeAs;
    var d := c[k := Block(c[k].size, true)];
    MarkFree(c, k);
    BlockSteady(ps, lens, s, c, k);
    MarkedAddr(c, k);
    PassSteady(ps, lens, s, guarded, d);
    FreeSome(guarded, c, k);
    FreeLaid(ps, lens, s, guarded, c, k);
    ListingSteady(ps, lens, s, FreeAs(guarded, c, k), 0);
  }

  lemma MarkedAddr(c: seq<Block>, k: nat)
    requires k < |c| && !c[k].free
    ensures var d := c[k := Block(c[k].size, true)]; forall i: nat | i < |c| :: Addr(d, i) == Addr(c, i)
  {
    var d := c[k := Block(c[k].size, true)];
    forall i: nat | i < |c| ensures Addr(d, i) == Addr(c, i) {
      if i <= k {
        assert d[..i] == c[..i];
      } else {
        assert d[..i] == c[..i][k := Block(c[k].size, true)];
        MarkFree(c[..i], k);
      }
    }
  }

  // ----- `memory_malloc` -----

  lemma LookSteady(ps: nat, lens: seq<nat>, s: nat, c: seq<Block>, total: nat)
    requires Fills(ps, lens, s, c)
    ensures Steady(ps, lens, Look(ps, s, c, total)) && Unbroken(ps, Look(ps, s, c, total))
  {
    hide Inside;
    hide Read;
    hide Addr;
    hide Search;
    SearchSteady(ps, lens, s, c, 0, total);
    var f := FirstFit(c, 0, total);
    if f >= 0 {
      BlockSteady(ps, lens, s, c, f);
    }
  }

  lemma SplitLaid(ps: nat, lens: seq<nat>, s: nat, c: seq<Block>, f: nat, size: nat)
    requires Laid(ps, lens, s, c) && f < |c| && c[f].size >= size + HEADER
    ensures var d := Split(c, f, size);
            && Laid(ps, lens, s, d) && f + 1 < |d|
            && Addr(d, f) == Addr(c, f) && Addr(d, f + 1) == Addr(c, f) + HEADER + size
            && (Whole(ps, d) ==> !Straddles(ps, Addr(c, f)) && !Straddles(ps, Addr(c, f) + HEADER + size))
  {
    var d := Split(c, f, size);
    SplitLen(c, f, size);
    assert d[..f] == c[..f];
    AddrStep(d, f);
  }

  lemma CutSteady(ps: nat, lens: seq<nat>, s: nat, c: seq<Block>, f: nat, size: nat)
    requires Laid(ps, lens, s, c) && f < |c| && c[f].size >= size + HEADER
    ensures Contained(ps, lens, Split(c, f, size), Cut(ps, s, c, f, size))
  {
    hide Read;
    hide Addr;
    hide Split;
    hide Whole;
    SplitLaid(ps, lens, s, c, f, size);
    BlockSteady(ps, lens, s, c, f);
    ReadSteady(ps, lens, s, Addr(c, f));
    ReadSteady(ps, lens, s, Addr(c, f) + HEADER + size);
  }

  lemma OccupySteady(ps: nat, lens: seq<nat>, s: nat, c: seq<Block>, size: nat)
    requires Laid(ps, lens, s, c) && FirstFit(c, 0, size + HEADER) >= 0
    ensures Contained(ps, lens, Split(c, FirstFit(c, 0, size + HEADER), size), Occupy(ps, s, c, size))
  {
    hide Inside;
    hide Read;
    hide Addr;
    hide Split;
    hide Whole;
    hide Search;
    hide Walk;
    hide Cut;
    hide FirstFit;
    var f := FirstFit(c, 0, size + HEADER);
    var d := Split(c, f, size);
    SplitLaid(ps, lens, s, c, f, size);
    SearchSteady(ps, lens, s, c, 0, size + HEADER);
    CutSteady(ps, lens, s, c, f, size);
    WalkSteady(ps, lens, s, d, 0);
    BlockSteady(ps, lens, s, d, |d| - 1);
  }

  /** `l` stays in range, adds `k` pages to segment `s` and no other, and is broken only where `a` says. */
  ghost predicate Extending(ps: nat, lens: seq<nat>, s: nat, k: nat, l: seq<Access>, lens': seq<nat>, a: bool)
    requires ps > 0
  {
    InRange(ps, lens, l) && LensEnd(lens, l) == lens' && PagesAdded(l) == k && (a ==> Unbroken(ps, l))
  }

  lemma SteadyExtends(ps: nat, lens: seq<nat>, s: nat, l: seq<Access>, a: bool)
    requires ps > 0 && Steady(ps, lens, l) && (a ==> Unbroken(ps, l))
    ensures Extending(ps, lens, s, 0, l, lens, a)
  {
    SteadyInRange(ps, lens, l);
  }

  lemma ExtendsSum(ps: nat, s: nat, lens0: seq<nat>, j: nat, l: seq<Access>, lens1: seq<nat>, k: nat, m: seq<Access>,
      lens2: seq<nat>, a: bool)
    requires ps > 0 && Extending(ps, lens0, s, j, l, lens1, a) && Extending(ps, lens1, s, k, m, lens2, a)
    ensures Extending(ps, lens0, s, j + k, l + m, lens2, a)
  {
    InRangeSum(ps, lens0, l, m);
  }

  lemma LengthenExtends(ps: nat, lens: seq<nat>, s: nat, c: seq<Block>, k: nat, a: bool)
    requires Laid(ps, lens, s, c) && PageStart(lens[s] + k, ps) < WORD
    requires a ==> !Straddles(ps, Addr(c, |c| - 1))
    ensures Extending(ps, lens, s, k, Lengthen(ps, s, c, k), lens[s := lens[s] + k], a)
  {
    hide Addr;
    hide Read;
    hide InRange;
    hide LensEnd;
    hide PagesAdded;
    var at, lens' := Addr(c, |c| - 1), lens[s := lens[s] + k];
    PageSum(lens[s], k, ps);
    BlockSteady(ps, lens, s, c, |c| - 1);
    ReadSteady(ps, lens, s, at);
    ReadSteady(ps, lens', s, at);
    var put := [Put(s, at, Block(PageStart(k, ps) + c[|c| - 1].size, true))];
    var read, news := Read(ps, s, at), NewPages(s, k);
    SteadyExtends(ps, lens, s, put, a);
    SteadyExtends(ps, lens, s, read, a);
    SteadyExtends(ps, lens', s, read, a);
    NewPagesInRange(ps, lens, s, k);
    ExtendsSum(ps, s, lens, k, news, lens', 0, read, lens', a);
    ExtendsSum(ps, s, lens, 0, read, lens, k, news + read, lens', a);
    ExtendsSum(ps, s, lens, 0, put, lens, k, read + (news + read), lens', a);
  }

  lemma EnlargeExtends(ps: nat, lens: seq<nat>, s: nat, c: seq<Block>, k: nat, a: bool)
    requires Laid(ps, lens, s, c) && PageStart(lens[s] + k, ps) < WORD
    requires a ==> !Straddles(ps, Addr(c, |c| - 1))
    ensures Extending(ps, lens, s, k, Enlarge(ps, s, c, k), lens[s := lens[s] + k], a)
  {
    hide Addr;
    hide Read;
    hide Walk;
    hide Lengthen;
    hide Inside;
    WalkSteady(ps, lens, s, c, 0);
    BlockSteady(ps, lens, s, c, |c| - 1);
    LengthenExtends(ps, lens, s, c, k, a);
    var look := Walk(ps, s, c, 0) + Read(ps, s, Addr(c, |c| - 1));
    SteadyExtends(ps, lens, s, look, a);
    ExtendsSum(ps, s, lens, 0, look, lens, k, Lengthen(ps, s, c, k), lens[s := lens[s] + k], a);
  }

  lemma BeginExtends(ps: nat, lens: seq<nat>, k: nat, a: bool)
    requires ps >= HEADER && HEADER <= PageStart(k, ps) < WORD
    ensures Extending(ps, lens, |lens|, k, Begin(ps, |lens|, k), lens + [k], a)
  {
    hide Read;
    hide PageStart;
    hide InRange;
    hide LensEnd;
    hide PagesAdded;
    var n, lens0, lens' := |lens|, lens + [0], lens + [k];
    var put, read, news := [Put(n, 0, Block(PageStart(k, ps) - HEADER, true))], Read(ps, n, 0), NewPages(n, k);
    assert !Straddles(ps, 0);
    ReadSteady(ps, lens', n, 0);
    SteadyExtends(ps, lens', n, put, a);
    SteadyExtends(ps, lens', n, read, a);
    NewPagesInRange(ps, lens0, n, k);
    assert lens0[n := 0 + k] == lens';
    TableExtends(ps, lens, a);
    ExtendsSum(ps, n, lens', 0, put, lens', 0, read, lens', a);
    ExtendsSum(ps, n, lens0, k, news, lens', 0, put + read, lens', a);
    ExtendsSum(ps, n, lens, 0, [NewTable], lens0, k, news + (put + read), lens', a);
  }

  lemma TableExtends(ps: nat, lens: seq<nat>, a: bool)
    requires ps > 0
    ensures Extending(ps, lens, |lens|, 0, [NewTable], lens + [0], a)
  {
    assert [NewTable][1..] == [];
  }

  // ----- the whole request -----

  /** The chains fill their segments, and with all free pages none outgrows a word. */
  ghost predicate Filled(ps: nat, lens: seq<nat>, h: H.System)
  {
    && ps >= HEADER && H.Ordered(h) && |lens| == |h.chains| && PageStart(h.avail, ps) < WORD
    && forall i | 0 <= i < |lens| :: Laid(ps, lens, i, h.chains[i]) && PageStart(lens[i] + h.avail, ps) < WORD
  }

  /** The program's chain as the request leaves it has no header over a page's end. */
  ghost predicate WholeAfter(ps: nat, h: H.System, pid: nat, size: int)
    requires ps > 0 && H.Ordered(h)
  {
    var g := H.Malloc(ps, h, pid, size).0;
    var i := H.IndexOf(g.pids, pid);
    i != -1 && i < |g.chains| ==> Whole(ps, g.chains[i])
  }

  lemma GrantExtends(ps: nat, lens: seq<nat>, h: H.System, pid: nat, size: int, a: bool)
    requires Filled(ps, lens, h) && 0 < size && size + HEADER <= PageStart(h.avail, ps)
    requires H.Served(h, pid, size + HEADER)
    requires a ==> WholeAfter(ps, h, pid, size)
    ensures Extending(ps, lens, 0, 0, Request(ps, h, pid, size), lens, a)
  {
    hide Request;
    hide H.Malloc;
    hide Look;
    hide Occupy;
    hide Split;
    hide Inside;
    hide Whole;
    hide Straddles;
    hide FirstFit;
    var i := H.IndexOf(h.pids, pid);
    var c, total := h.chains[i], size + HEADER;
    assert Laid(ps, lens, i, c);
    Grants(ps, h, pid, size, i);
    LookSteady(ps, lens, i, c, total);
    OccupySteady(ps, lens, i, c, size);
    SteadyExtends(ps, lens, 0, Request(ps, h, pid, size), a);
  }

  /** The last header of a chain is still one after a split. */
  lemma LastStays(ps: nat, c: seq<Block>, f: nat, size: nat)
    requires ps > 0 && f < |c| && c[f].size >= size + HEADER && Whole(ps, Split(c, f, size))
    ensures !Straddles(ps, Addr(c, |c| - 1))
  {
    var d, last := Split(c, f, size), |c| - 1;
    if f == last {
      assert d[..f] == c[..f];
      assert !Straddles(ps, Addr(d, f));
    } else {
      assert d[..|c|] == Split(c[..last], f, size);
      SplitLen(c[..last], f, size);
      assert Addr(d, |c|) == Addr(c, last) && !Straddles(ps, Addr(d, |c|));
    }
  }

  /** Where the grown block starts is a header of the final chain. */
  lemma GrownWhole(ps: nat, h: H.System, pid: nat, size: int, i: nat, k: nat)
    requires ps > 0 && H.Ordered(h) && i == H.IndexOf(h.pids, pid) && k <= h.avail && 0 < size
    requires var g := H.Grown(h, i, ps, k);
             H.Ordered(g) && H.Served(g, pid, size + HEADER) && WholeAfter(ps, g, pid, size)
    ensures !Straddles(ps, Addr(h.chains[i], |h.chains[i]| - 1))
  {
    hide Straddles;
    hide H.Malloc;
    hide Split;
    hide PageStart;
    var g := H.Grown(h, i, ps, k);
    var c, e := h.chains[i], g.chains[i];
    assert e[..|c| - 1] == c[..|c| - 1];
    if size + HEADER <= PageStart(g.avail, ps) {
      Grants(ps, g, pid, size, i);
      LastStays(ps, e, FirstFit(e, 0, size + HEADER), size);
    } else {
      Idle(ps, g, pid, size);
      assert Whole(ps, e) && !Straddles(ps, Addr(e, |c| - 1));
    }
  }

  /** Page counts once the pages asked for are there. */
  function LensPrepared(ps: nat, lens: seq<nat>, h: H.System, pid: nat, size: int): (r: seq<nat>)
    requires ps > 0 && H.Ordered(h) && |lens| == |h.chains| && Lacks(ps, h, pid, size) && !Stuck(ps, h, pid, size)
  {
    var i, k := H.IndexOf(h.pids, pid), H.Extra(ps, h, pid, size);
    if i == -1 then lens + [k] else lens[i := lens[i] + k]
  }

  lemma PreparedFills(ps: nat, lens: seq<nat>, h: H.System, pid: nat, size: int)
    requires Filled(ps, lens, h) && Lacks(ps, h, pid, size) && !Stuck(ps, h, pid, size)
    ensures Filled(ps, LensPrepared(ps, lens, h, pid, size), Prepared(ps, h, pid, size))
    ensures H.Extra(ps, h, pid, size) <= h.avail
  {
    hide Pages;
    hide Len;
    hide FirstFit;
    hide PageStart;
    var i, k := H.IndexOf(h.pids, pid), H.Extra(ps, h, pid, size);
    var g, lens' := Prepared(ps, h, pid, size), LensPrepared(ps, lens, h, pid, size);
    assert g.avail + k == h.avail;
    PageMonotone(g.avail, h.avail, ps);
    PageMonotone(k, h.avail, ps);
    if i == -1 {
      One(Block(PageStart(k, ps) - HEADER, true), 0);
      assert Laid(ps, lens', |lens|, g.chains[|lens|]);
    } else {
      var c := h.chains[i];
      assert Laid(ps, lens, i, c);
      PageSum(lens[i], k, ps);
      PageMonotone(lens[i] + k, lens[i] + h.avail, ps);
      GrowLen(c, PageStart(k, ps));
      assert Laid(ps, lens', i, g.chains[i]);
    }
    forall j | 0 <= j < |lens'|
      ensures Laid(ps, lens', j, g.chains[j]) && PageStart(lens'[j] + g.avail, ps) < WORD
    {
      if j < |lens| {
        assert Laid(ps, lens, j, h.chains[j]);
        PageMonotone(lens[j] + g.avail, lens[j] + h.avail, ps);
      }
    }
  }

  lemma GrowLen(c: seq<Block>, extra: nat)
    requires c != []
    ensures Len(Grow(c, extra)) == Len(c) + extra
  {
    var n := |c| - 1;
    LenAppend(c[..n], [Block(c[n].size + extra, true)]);
    LenAppend(c[..n], [c[n]]);
    assert c == c[..n] + [c[n]];
    One(c[n], 0);
    One(Block(c[n].size + extra, true), 0);
  }

  lemma PreparationExtends(ps: nat, lens: seq<nat>, h: H.System, pid: nat, size: int, a: bool)
    requires Filled(ps, lens, h) && Lacks(ps, h, pid, size) && !Stuck(ps, h, pid, size)
    requires a ==> WholeAfter(ps, Prepared(ps, h, pid, size), pid, size)
    ensures Extending(ps, lens, 0, H.Extra(ps, h, pid, size), Preparation(ps, h, pid, size),
                      LensPrepared(ps, lens, h, pid, size), a)
  {
    hide Pages;
    hide Straddles;
    hide WholeAfter;
    hide Begin;
    hide Enlarge;
    hide InRange;
    hide LensEnd;
    hide PagesAdded;
    var i, k := H.IndexOf(h.pids, pid), H.Extra(ps, h, pid, size);
    PreparedFills(ps, lens, h, pid, size);
    if i == -1 {
      PageMonotone(k, h.avail, ps);
      BeginExtends(ps, lens, k, a);
    } else {
      var c := h.chains[i];
      assert Laid(ps, lens, i, c);
      PageMonotone(lens[i] + k, lens[i] + h.avail, ps);
      if a {
        GrownWhole(ps, h, pid, size, i, k);
      }
      EnlargeExtends(ps, lens, i, c, k, a);
    }
  }

  lemma LackExtends(ps: nat, lens: seq<nat>, h: H.System, pid: nat, size: int, a: bool)
    requires Filled(ps, lens, h) && Lacks(ps, h, pid, size) && !Stuck(ps, h, pid, size)
    requires a ==> WholeAfter(ps, h, pid, size)
    ensures InRange(ps, lens, Request(ps, h, pid, size)) && (a ==> Unbroken(ps, Request(ps, h, pid, size)))
    ensures PagesAdded(Request(ps, h, pid, size)) == H.Extra(ps, h, pid, size)
  {
    hide Laid;
    hide Stuck;
    hide Request;
    hide Prepared;
    hide Preparation;
    hide LensPrepared;
    hide H.Malloc;
    hide H.Extra;
    hide LookFor;
    hide InRange;
    hide LensEnd;
    hide PagesAdded;
    hide Whole;
    hide Unbroken;
    var g, lens' := Prepared(ps, h, pid, size), LensPrepared(ps, lens, h, pid, size);
    var k, total := H.Extra(ps, h, pid, size), size + HEADER;
    Prepares(ps, h, pid, size);
    PreparedFills(ps, lens, h, pid, size);
    PreparationExtends(ps, lens, h, pid, size, a);
    RestExtends(ps, lens', g, pid, size, a);
    LookForExtends(ps, lens, h, pid, total, a);
    ExtendsSum(ps, 0, lens, k, Preparation(ps, h, pid, size), lens', 0, Request(ps, g, pid, size), lens', a);
    ExtendsSum(ps, 0, lens, 0, LookFor(ps, h, pid, total), lens, k,
               Preparation(ps, h, pid, size) + Request(ps, g, pid, size), lens', a);
  }

  lemma LookForExtends(ps: nat, lens: seq<nat>, h: H.System, pid: nat, total: nat, a: bool)
    requires Filled(ps, lens, h)
    ensures Extending(ps, lens, 0, 0, LookFor(ps, h, pid, total), lens, a)
  {
    hide Inside;
    hide Look;
    var i := H.IndexOf(h.pids, pid);
    if i != -1 {
      assert Laid(ps, lens, i, h.chains[i]);
      LookSteady(ps, lens, i, h.chains[i], total);
    }
    SteadyExtends(ps, lens, 0, LookFor(ps, h, pid, total), a);
  }

  /** The retry: refused, or granted. */
  lemma RestExtends(ps: nat, lens: seq<nat>, g: H.System, pid: nat, size: int, a: bool)
    requires Filled(ps, lens, g) && 0 < size && H.Served(g, pid, size + HEADER) && (a ==> WholeAfter(ps, g, pid, size))
    ensures Extending(ps, lens, 0, 0, Request(ps, g, pid, size), lens, a)
  {
    hide Request;
    hide Whole;
    hide H.Malloc;
    hide Straddles;
    if size + HEADER <= PageStart(g.avail, ps) {
      GrantExtends(ps, lens, g, pid, size, a);
    } else {
      Idle(ps, g, pid, size);
    }
  }

  lemma RequestExtends(ps: nat, lens: seq<nat>, h: H.System, pid: nat, size: int, a: bool)
    requires Filled(ps, lens, h) && H.Malloc(ps, h, pid, size).1 != H.Overrun && (a ==> WholeAfter(ps, h, pid, size))
    ensures InRange(ps, lens, Request(ps, h, pid, size)) && (a ==> Unbroken(ps, Request(ps, h, pid, size)))
    ensures PagesAdded(Request(ps, h, pid, size)) == if Lacks(ps, h, pid, size) then H.Extra(ps, h, pid, size) else 0
  {
    hide Request;
    hide H.Malloc;
    hide Whole;
    hide Straddles;
    if size <= 0 || size + HEADER > PageStart(h.avail, ps) {
      Idle(ps, h, pid, size);
    } else if H.Served(h, pid, size + HEADER) {
      GrantExtends(ps, lens, h, pid, size, a);
    } else {
      if Stuck(ps, h, pid, size) {
        Stops(ps, h, pid, size);
      }
      LackExtends(ps, lens, h, pid, size, a);
    }
  }
}
