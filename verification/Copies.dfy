/** `memory_cpy` and `memory_get` on a segment seen as flat bytes. */
module Copies {
  import opened Bytes
  import opened Sizes
  import opened Chain
  import opened Layout

  /**
   `Copied` carries the address `memory_cpy` returns; `Invalid`, `NoSegment` and `TooLong` are -1,
   -3 and -4. `Fault` is where the code follows a null page or writes past its buffer.
   */
  datatype Copy = Copied(dst: nat) | Invalid | NoSegment | Fault
  datatype Fetched = Got(bytes: seq<byte>) | Missing | TooLong

  /** The page where the header of the payload at `dst` starts; -1 before the first page. */
  function FirstPage(ps: nat, dst: nat): (p: int)
    requires ps >= HEADER
    ensures p == -1 <==> dst < HEADER
    ensures p >= -1
  {
    var off := OffsetOf(dst, ps);
    assert off == dst % ps && (PageOf(dst, ps) == 0 ==> off == dst);
    PageOf(dst, ps) - if off < HEADER then Pages(HEADER - off, ps) else 0
  }

  /** Pages `memory_cpy` loads: those of the payload, those of the header before it, but no more than there are. */
  function PageSpan(ps: nat, dst: nat, n: nat, total: nat): (k: nat)
    requires ps >= HEADER
  {
    var off := OffsetOf(dst, ps);
    var need := Pages(off + n, ps) + if off < HEADER then Pages(HEADER - off, ps) else 0;
    if need < total then need else total
  }

  /** `memory_cpy` of `src` to `dst` in a segment of `total` pages. */
  function Cpy(ps: nat, total: nat, m: seq<byte>, dst: nat, src: seq<byte>): (r: (Copy, seq<byte>))
    requires ps >= HEADER && |m| == PageStart(total, ps)
  {
    var first, k := FirstPage(ps, dst), PageSpan(ps, dst, |src|, total);
    if dst > |m| then (NoSegment, m)
    else if first < 0 || first + k > total then (Fault, m)
    else if HeaderAt(m, dst - HEADER).free || HeaderAt(m, dst - HEADER).size < |src| then (Invalid, m)
    else if dst + |src| > PageStart(first + k, ps) then (Fault, m)
    else
      PageMonotone(first + k, total, ps);
      (Copied(dst), Splice(m, dst, src))
  }

  function Get(m: seq<byte>, src: nat, n: nat): (r: Fetched)
  {
    if src > |m| then Missing else if src + n > |m| then TooLong else Got(m[src..src + n])
  }

  lemma OnePage(n: nat, ps: nat)
    requires 0 < n <= ps
    ensures Pages(n, ps) == 1
  {
    assert PageStart(1, ps) == PageStart(0, ps) + ps;
    PagesLeast(n, 1, ps);
  }

  /** The pages named cover the header, and as much of the payload as the segment has. */
  lemma SpanCovers(ps: nat, dst: nat, n: nat, total: nat)
    requires ps >= HEADER && HEADER <= dst <= PageStart(total, ps)
    ensures var first, k := FirstPage(ps, dst), PageSpan(ps, dst, n, total);
            && first >= 0 && PageStart(first, ps) + HEADER <= dst
            && (first + k <= total ==> dst <= PageStart(first + k, ps) <= PageStart(total, ps))
            && (dst + n <= PageStart(total, ps) ==> first + k <= total && dst + n <= PageStart(first + k, ps))
  {
    hide PageStart;
    hide Pages;
    var p, off := PageOf(dst, ps), OffsetOf(dst, ps);
    var first, k := FirstPage(ps, dst), PageSpan(ps, dst, n, total);
    var own := Pages(off + n, ps);
    PageAndOffset(dst, ps);
    if off < HEADER {
      OnePage(HEADER - off, ps);
      PageRange(p - 1, p, ps);
    }
    PageSum(p, own, ps);
    if p > total {
      PageRange(total, p, ps);
      assert false;
    }
    PageSum(p, total - p, ps);
    if dst + n <= PageStart(total, ps) {
      PagesLeast(off + n, total - p, ps);
    }
    if first + k <= total {
      PageMonotone(first + k, total, ps);
    }
  }

  lemma PageAndOffset(a: nat, ps: nat)
    requires ps > 0
    ensures a == PageStart(PageOf(a, ps), ps) + OffsetOf(a, ps)
    ensures a >= ps ==> PageOf(a, ps) > 0
  {
    PageStartIsProduct(a / ps, ps);
  }

  // ----- which copies are refused -----

  /** The header right before `dst` marks an allocation of `n` bytes at least: four bytes of size, one that is 0. */
  predicate Admits(m: seq<byte>, dst: nat, n: nat)
  {
    && 5 <= dst <= |m| && m[dst - 1] == 0
    && n <= m[dst - 5] as int + 256 * m[dst - 4] as int + 65536 * m[dst - 3] as int + 16777216 * m[dst - 2] as int
  }

  lemma AdmitsIs(m: seq<byte>, dst: nat, n: nat)
    requires HEADER <= dst <= |m|
    ensures Admits(m, dst, n) <==> !HeaderAt(m, dst - HEADER).free && n <= HeaderAt(m, dst - HEADER).size
  {
    var h := m[dst - HEADER..dst];
    assert h[4] == m[dst - 1] && h[..4] == m[dst - 5..dst - 1];
  }

  /** The pages run past the segment where the bytes do, unless the first of them is its first page. */
  lemma SpanRunsOut(ps: nat, dst: nat, n: nat, total: nat)
    requires ps >= HEADER && HEADER <= dst <= PageStart(total, ps)
    ensures FirstPage(ps, dst) + PageSpan(ps, dst, n, total) > total
       <==> dst >= HEADER + ps && dst + n > PageStart(total, ps)
  {
    hide PageStart;
    hide Pages;
    var p, off := PageOf(dst, ps), OffsetOf(dst, ps);
    var own := Pages(off + n, ps);
    PageAndOffset(dst, ps);
    SpanCovers(ps, dst, n, total);
    if off < HEADER {
      OnePage(HEADER - off, ps);
    }
    PageSum(p, own, ps);
    if p + own <= total {
      PageMonotone(p + own, total, ps);
    }
    FirstIsZero(ps, dst);
  }

  lemma FirstIsZero(ps: nat, dst: nat)
    requires ps >= HEADER && HEADER <= dst
    ensures FirstPage(ps, dst) == 0 <==> dst < HEADER + ps
  {
    hide Pages;
    var off := OffsetOf(dst, ps);
    assert dst == PageOf(dst, ps) * ps + off;
    if off < HEADER {
      OnePage(HEADER - off, ps);
    }
  }

  /** What is answered to a copy of `src` to `dst` in segment `m`. */
  predicate Answered(m: seq<byte>, ps: nat, dst: nat, src: seq<byte>, r: Copy)
  {
    var n := |src|;
    && (r == NoSegment <==> dst > |m|)
    && (r == Fault <==> dst <= |m| && (dst < 5 || (|m| < dst + n && (Admits(m, dst, n) || dst >= 5 + ps))))
    && (r == Invalid <==> 5 <= dst <= |m| && !Admits(m, dst, n) && (dst + n <= |m| || dst < 5 + ps))
    && (r.Copied? <==> Admits(m, dst, n) && dst + n <= |m|)
    && (r.Copied? ==> r.dst == dst)
  }

  /**
   The answer to every copy, to any address. Past the segment there is none; before the first header, and
   where page or buffer ends before the bytes do, the code leaves its memory; otherwise the five bytes
   before the address decide. Only a copy that goes through changes anything.
   */
  lemma CpyExact(ps: nat, total: nat, m: seq<byte>, dst: nat, src: seq<byte>)
    requires ps >= HEADER && |m| == PageStart(total, ps)
    ensures var r := Cpy(ps, total, m, dst, src);
            && Answered(m, ps, dst, src, r.0)
            && r.1 == if r.0.Copied? then m[..dst] + src + m[dst + |src|..] else m
  {
    hide PageStart;
    hide HeaderAt;
    hide FirstPage;
    hide PageSpan;
    hide Admits;
    var first, k := FirstPage(ps, dst), PageSpan(ps, dst, |src|, total);
    if HEADER <= dst <= |m| {
      AdmitsIs(m, dst, |src|);
      SpanRunsOut(ps, dst, |src|, total);
      SpanCovers(ps, dst, |src|, total);
    } else {
      assert Admits(m, dst, |src|) ==> 5 <= dst <= |m| by {
        NotAdmitted(m, dst, |src|);
      }
    }
  }

  lemma NotAdmitted(m: seq<byte>, dst: nat, n: nat)
    ensures Admits(m, dst, n) ==> 5 <= dst <= |m|
  {
  }

  /**
   To the payload of any block of the chain, from any source: it goes through exactly when the block is
   allocated and as long as the source at least, and the segment stays tiled by the same chain with every
   other payload as it was, whatever the answer.
   */
  lemma CpyAnswers(ps: nat, total: nat, m: seq<byte>, c: seq<Block>, k: nat, src: seq<byte>)
    requires ps >= HEADER && |m| == PageStart(total, ps) && Tiles(m, c) && k < |c|
    ensures var dst := Addr(c, k) + HEADER; var r := Cpy(ps, total, m, dst, src);
            && (r.0 == Copied(dst) <==> !c[k].free && |src| <= c[k].size)
            && (r.0 != Copied(dst) ==> r == (if dst + |src| > |m| && dst >= HEADER + ps then Fault else Invalid, m))
            && Tiles(r.1, c) && Kept(m, r.1, Live(c, 0) - {(Addr(c, k), c[k].size)})
  {
    hide PageStart;
    hide HeaderAt;
    hide Cpy;
    hide Admits;
    hide Live;
    hide Kept;
    var dst := Addr(c, k) + HEADER;
    assert Headed(m, c, k);
    AddrStep(c, k);
    AdmitsIs(m, dst, |src|);
    CpyExact(ps, total, m, dst, src);
    if !c[k].free && |src| <= c[k].size {
      LiveAt(c, 0, k);
      CpyLive(ps, total, m, c, (Addr(c, k), c[k].size), src);
    } else {
      KeptSelf(m, c);
      KeptFewer(m, m, Live(c, 0), Live(c, 0) - {(Addr(c, k), c[k].size)});
    }
  }

  /** Which reads are answered, and with what. */
  lemma GetExact(m: seq<byte>, src: nat, n: nat)
    ensures Get(m, src, n) == Missing <==> src > |m|
    ensures Get(m, src, n) == TooLong <==> src <= |m| < src + n
    ensures forall b :: Get(m, src, n) == Got(b) <==>
              |b| == n && src + n <= |m| && forall x | 0 <= x < n :: m[src + x] == b[x]
  {
    forall b | |b| == n && src + n <= |m| && forall x | 0 <= x < n :: m[src + x] == b[x]
      ensures m[src..src + n] == b
    {
    }
  }

  /** Into a live allocation, up to its size, the copy goes through and touches nothing else. */
  lemma CpyLive(ps: nat, total: nat, m: seq<byte>, c: seq<Block>, e: (nat, nat), src: seq<byte>)
    requires ps >= HEADER && |m| == PageStart(total, ps) && Tiles(m, c) && e in Live(c, 0) && |src| <= e.1
    ensures e.0 + HEADER + |src| <= |m|
    ensures Cpy(ps, total, m, e.0 + HEADER, src) == (Copied(e.0 + HEADER), Splice(m, e.0 + HEADER, src))
    ensures var m' := Splice(m, e.0 + HEADER, src);
            && Tiles(m', c) && Kept(m, m', Live(c, 0) - {e})
            && forall k | 0 <= k < |m| && !(e.0 + HEADER <= k < e.0 + HEADER + |src|) :: m'[k] == m[k]
  {
    hide HeaderAt;
    hide Kept;
    hide PageStart;
    hide FirstPage;
    hide PageSpan;
    LiveBounds(c, 0, e);
    SpanCovers(ps, e.0 + HEADER, |src|, total);
    var i := LiveIndex(c, 0, e);
    assert Headed(m, c, i);
    PayloadWrite(m, c, e, e.0 + HEADER, src);
  }

  /** What was copied into a live allocation is what a read of as many bytes returns. */
  lemma CpyThenGet(ps: nat, total: nat, m: seq<byte>, c: seq<Block>, e: (nat, nat), src: seq<byte>)
    requires ps >= HEADER && |m| == PageStart(total, ps) && Tiles(m, c) && e in Live(c, 0) && |src| <= e.1
    ensures Get(Cpy(ps, total, m, e.0 + HEADER, src).1, e.0 + HEADER, |src|) == Got(src)
  {
    hide HeaderAt;
    hide PageStart;
    CpyLive(ps, total, m, c, e, src);
  }

  /** Reading another live allocation gives what it gave before. */
  lemma CpyThenGetOther(ps: nat, total: nat, m: seq<byte>, c: seq<Block>, e: (nat, nat), src: seq<byte>,
      f: (nat, nat), n: nat)
    requires ps >= HEADER && |m| == PageStart(total, ps) && Tiles(m, c) && e in Live(c, 0) && |src| <= e.1
    requires f in Live(c, 0) && f != e && n <= f.1
    ensures Get(Cpy(ps, total, m, e.0 + HEADER, src).1, f.0 + HEADER, n) == Get(m, f.0 + HEADER, n)
  {
    hide HeaderAt;
    hide PageStart;
    CpyLive(ps, total, m, c, e, src);
    LiveDisjoint(c, 0, e, f);
    LiveBounds(c, 0, f);
    assert Len(c) == |m|;
  }
}
