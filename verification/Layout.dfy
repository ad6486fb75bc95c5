/** A chain of blocks as it lies in the bytes of its segment. */
module Layout {
  import opened Bytes
  import opened Chain

  /** A packed `heap_metadata`: a little-endian size and one flag byte. */
  function HeaderBytes(b: Block): (r: seq<byte>)
    requires b.size < WORD
    ensures |r| == HEADER
  {
    Le32(b.size) + [if b.free then 1 else 0]
  }

  function ReadHeader(h: seq<byte>): (b: Block)
    requires |h| == HEADER
  {
    Block(FromLe32(h[..4]), h[4] != 0)
  }

  function HeaderAt(mem: seq<byte>, a: nat): (b: Block)
    requires a + HEADER <= |mem|
  {
    ReadHeader(mem[a..a + HEADER])
  }

  function PutHeader(mem: seq<byte>, a: nat, b: Block): (r: seq<byte>)
    requires a + HEADER <= |mem| && b.size < WORD
    ensures |r| == |mem|
  {
    Splice(mem, a, HeaderBytes(b))
  }

  lemma {:induction false} HeaderRoundTrip(b: Block)
    requires b.size < WORD
    ensures ReadHeader(HeaderBytes(b)) == b
  {
    Le32RoundTrip(b.size);
    assert HeaderBytes(b)[..4] == Le32(b.size);
  }

  lemma {:induction false} PutThenRead(mem: seq<byte>, a: nat, b: Block)
    requires a + HEADER <= |mem| && b.size < WORD
    ensures HeaderAt(PutHeader(mem, a, b), a) == b
  {
    HeaderRoundTrip(b);
  }

  lemma {:induction false} PutElsewhere(mem: seq<byte>, a: nat, b: Block, x: nat)
    requires a + HEADER <= |mem| && b.size < WORD && x + HEADER <= |mem|
    requires x + HEADER <= a || a + HEADER <= x
    ensures HeaderAt(PutHeader(mem, a, b), x) == HeaderAt(mem, x)
  {
    SpliceElsewhere(mem, a, HeaderBytes(b), x, x + HEADER);
  }

  /** Where the two fields of a header lie, byte by byte, and that a write of one reaches nothing else. */
  lemma {:induction false} HeaderLayout(mem: seq<byte>, a: nat, b: Block)
    requires a + 5 <= |mem| && b.size < 0x1_0000_0000
    ensures var h := HeaderAt(mem, a);
            && h.size
               == mem[a] as int + 256 * mem[a + 1] as int + 65536 * mem[a + 2] as int + 16777216 * mem[a + 3] as int
            && (mem[a + 4] != 0 <==> h.free)
    ensures var w := PutHeader(mem, a, b);
            && w[a] as int + 256 * w[a + 1] as int + 65536 * w[a + 2] as int + 16777216 * w[a + 3] as int == b.size
            && w[a + 4] == (if b.free then 1 else 0)
            && forall x | 0 <= x < |mem| && !(a <= x < a + 5) :: w[x] == mem[x]
  {
    Le32RoundTrip(b.size);
    var w := PutHeader(mem, a, b);
    assert w[a..a + 4] == Le32(b.size);
    assert mem[a..a + HEADER][..4] == mem[a..a + 4];
  }

  ghost predicate Headed(mem: seq<byte>, c: seq<Block>, i: nat)
    requires i < |c|
  {
    Addr(c, i) + HEADER <= |mem| && HeaderAt(mem, Addr(c, i)) == c[i]
  }

  /** The headers of `c` tile `mem` exactly. */
  ghost predicate Tiles(mem: seq<byte>, c: seq<Block>)
  {
    c != [] && Len(c) == |mem| && forall i: nat | i < |c| :: Headed(mem, c, i)
  }

  /** A segment has at most one chain. */
  lemma {:induction false} TilesUnique(mem: seq<byte>, c: seq<Block>, d: seq<Block>, i: nat)
    requires Tiles(mem, c) && Tiles(mem, d) && i <= |c| && i <= |d| && c[..i] == d[..i]
    ensures c == d
    decreases |c| - i
  {
    if i < |c| && i < |d| {
      assert Headed(mem, c, i) && Headed(mem, d, i);
      assert c[..i + 1] == c[..i] + [c[i]] && d[..i + 1] == d[..i] + [d[i]];
      TilesUnique(mem, c, d, i + 1);
    } else if i < |c| {
      assert d[..i] == d;
      AddrStep(c, i);
    } else if i < |d| {
      assert c[..i] == c;
      AddrStep(d, i);
    }
  }

  ghost predicate SamePayload(mem: seq<byte>, mem': seq<byte>, e: (nat, nat))
  {
    var lo, hi := e.0 + HEADER, e.0 + HEADER + e.1;
    hi <= |mem| && hi <= |mem'| && mem'[lo..hi] == mem[lo..hi]
  }

  /** Every allocation in `live` has the same payload bytes in both memories. */
  ghost predicate Kept(mem: seq<byte>, mem': seq<byte>, live: set<(nat, nat)>)
  {
    forall e | e in live :: SamePayload(mem, mem', e)
  }

  lemma {:induction false} KeptSelf(m: seq<byte>, c: seq<Block>)
    requires Len(c) == |m|
    ensures Kept(m, m, Live(c, 0))
  {
    forall e | e in Live(c, 0) ensures SamePayload(m, m, e) {
      LiveBounds(c, 0, e);
    }
  }

  lemma {:induction false} KeptFewer(m: seq<byte>, m': seq<byte>, live: set<(nat, nat)>, fewer: set<(nat, nat)>)
    requires Kept(m, m', live) && fewer <= live
    ensures Kept(m, m', fewer)
  {
  }

  lemma {:induction false} KeptTrans(m0: seq<byte>, m1: seq<byte>, m2: seq<byte>, live: set<(nat, nat)>)
    requires Kept(m0, m1, live) && Kept(m1, m2, live)
    ensures Kept(m0, m2, live)
  {
    forall e | e in live ensures SamePayload(m0, m2, e) {
      assert SamePayload(m0, m1, e) && SamePayload(m1, m2, e);
    }
  }

  /** `[at, at + HEADER)` is free of payload bytes: a header of `c`, or inside a free block. */
  ghost predicate HeaderSpot(c: seq<Block>, j: nat, at: nat)
    requires j < |c|
  {
    at == Addr(c, j) || (c[j].free && Addr(c, j) <= at && at + HEADER <= Addr(c, j) + HEADER + c[j].size)
  }

  lemma {:induction false} PutKeeps(mem: seq<byte>, c: seq<Block>, j: nat, at: nat, h: Block)
    requires Len(c) == |mem| && j < |c| && HeaderSpot(c, j, at) && h.size < WORD
    requires at + HEADER <= |mem|
    ensures Kept(mem, PutHeader(mem, at, h), Live(c, 0))
  {
    forall e | e in Live(c, 0) ensures SamePayload(mem, PutHeader(mem, at, h), e) {
      var k := LiveIndex(c, 0, e);
      LiveBounds(c, 0, e);
      if k < j {
        AddrOrder(c, k, j);
      } else if j < k {
        AddrOrder(c, j, k);
      }
      SpliceElsewhere(mem, at, HeaderBytes(h), e.0 + HEADER, e.0 + HEADER + e.1);
    }
  }

  // ----- chain edits -----

  /** Rewriting one stretch of the chain inside its own bytes. */
  lemma {:induction false} EditTiles(mem: seq<byte>, mem': seq<byte>,
      pre: seq<Block>, mid: seq<Block>, mid': seq<Block>, post: seq<Block>)
    requires Tiles(mem, pre + mid + post) && |mem'| == |mem|
    requires mid' != [] && Len(mid) == Len(mid')
    requires forall k | 0 <= k < |mem| && !(Len(pre) <= k < Len(pre) + Len(mid)) :: mem'[k] == mem[k]
    requires forall j: nat | j < |mid'| ::
      Len(pre) + Addr(mid', j) + HEADER <= |mem| && HeaderAt(mem', Len(pre) + Addr(mid', j)) == mid'[j]
    ensures Tiles(mem', pre + mid' + post)
  {
    EditLen(pre, mid, mid', post);
    forall i: nat | i < |pre + mid' + post| ensures Headed(mem', pre + mid' + post, i) {
      EditHeaded(mem, mem', pre, mid, mid', post, i);
    }
  }

  lemma {:induction false} EditHeaded(mem: seq<byte>, mem': seq<byte>,
      pre: seq<Block>, mid: seq<Block>, mid': seq<Block>, post: seq<Block>, i: nat)
    requires Tiles(mem, pre + mid + post) && |mem'| == |mem|
    requires Len(mid) == Len(mid') && i < |pre + mid' + post|
    requires forall k | 0 <= k < |mem| && !(Len(pre) <= k < Len(pre) + Len(mid)) :: mem'[k] == mem[k]
    requires forall j: nat | j < |mid'| ::
      Len(pre) + Addr(mid', j) + HEADER <= |mem| && HeaderAt(mem', Len(pre) + Addr(mid', j)) == mid'[j]
    ensures Headed(mem', pre + mid' + post, i)
  {
    hide HeaderAt;
    hide Headed;
    hide Len;
    var d := pre + mid' + post;
    EditLen(pre, mid, mid', post);
    if i < |pre| {
      assert pre + (mid + post) == pre + mid + post && pre + (mid' + post) == d;
      assert Headed(mem, pre + mid + post, i);
      EditBefore(mem, mem', pre, mid + post, mid' + post, i);
    } else if i < |pre| + |mid'| {
      EditInside(mem', pre, mid', post, i - |pre|);
    } else {
      var j := i - |pre| - |mid'|;
      assert Headed(mem, pre + mid + post, |pre| + |mid| + j);
      EditAfter(mem, mem', pre, mid, mid', post, j);
    }
  }

  lemma {:induction false} EditInside(mem: seq<byte>, pre: seq<Block>, mid: seq<Block>, post: seq<Block>, j: nat)
    requires j < |mid| && Len(pre) + Addr(mid, j) + HEADER <= |mem|
    requires HeaderAt(mem, Len(pre) + Addr(mid, j)) == mid[j]
    ensures Headed(mem, pre + mid + post, |pre| + j)
  {
    hide HeaderAt;
    assert (pre + mid + post)[..|pre| + j] == pre + mid[..j];
    LenAppend(pre, mid[..j]);
  }

  lemma {:induction false} EditBefore(mem: seq<byte>, mem': seq<byte>,
      pre: seq<Block>, rest: seq<Block>, rest': seq<Block>, i: nat)
    requires i < |pre| && Headed(mem, pre + rest, i)
    requires |mem'| == |mem| && Len(pre) <= |mem|
    requires forall k | 0 <= k < Len(pre) :: mem'[k] == mem[k]
    ensures Headed(mem', pre + rest', i)
  {
    assert (pre + rest)[..i] == pre[..i] == (pre + rest')[..i];
    AddrOrder(pre, i, |pre|);
    assert pre[..|pre|] == pre;
    var a := Addr(pre, i);
    assert mem'[a..a + HEADER] == mem[a..a + HEADER];
  }

  lemma {:induction false} EditAfter(mem: seq<byte>, mem': seq<byte>,
      pre: seq<Block>, mid: seq<Block>, mid': seq<Block>, post: seq<Block>, j: nat)
    requires j < |post| && Len(mid) == Len(mid') && |mem'| == |mem|
    requires Headed(mem, pre + mid + post, |pre| + |mid| + j)
    requires forall k | Len(pre) + Len(mid) <= k < |mem| :: mem'[k] == mem[k]
    ensures Headed(mem', pre + mid' + post, |pre| + |mid'| + j)
  {
    EditTail(pre, mid, mid', post, j);
    var a := Addr(pre + mid + post, |pre| + |mid| + j);
    assert mem'[a..a + HEADER] == mem[a..a + HEADER];
  }

  lemma {:induction false} EditLen(pre: seq<Block>, mid: seq<Block>, mid': seq<Block>, post: seq<Block>)
    requires Len(mid) == Len(mid')
    ensures Len(pre + mid + post) == Len(pre + mid' + post) == Len(pre) + Len(mid) + Len(post)
  {
    Parts(pre, mid, post);
    Parts(pre, mid', post);
  }

  /** Addresses behind the edited stretch stay. */
  lemma {:induction false} EditTail(pre: seq<Block>, mid: seq<Block>, mid': seq<Block>, post: seq<Block>, j: nat)
    requires j < |post| && Len(mid) == Len(mid')
    ensures Addr(pre + mid' + post, |pre| + |mid'| + j) == Addr(pre + mid + post, |pre| + |mid| + j)
    ensures Addr(pre + mid + post, |pre| + |mid| + j) >= Len(pre) + Len(mid)
  {
    assert (pre + mid + post)[..|pre| + |mid| + j] == pre + mid + post[..j];
    assert (pre + mid' + post)[..|pre| + |mid'| + j] == pre + mid' + post[..j];
    EditLen(pre, mid, mid', post[..j]);
  }

  /** Bytes after `memory_malloc` has split block `i`: the allocation's header, then the remainder's. */
  function SplitBytes(mem: seq<byte>, c: seq<Block>, i: nat, size: nat): (r: seq<byte>)
    requires i < |c| && c[i].size >= size + HEADER && Len(c) == |mem| < WORD
    ensures |r| == |mem|
  {
    AddrStep(c, i);
    var a := Addr(c, i);
    PutHeader(PutHeader(mem, a, Block(size, false)), a + HEADER + size, Block(c[i].size - size - HEADER, true))
  }

  lemma {:induction false} SplitTiles(mem: seq<byte>, c: seq<Block>, i: nat, size: nat)
    requires Tiles(mem, c) && i < |c| && c[i].size >= size + HEADER && |mem| < WORD
    ensures Tiles(SplitBytes(mem, c, i, size), Split(c, i, size))
    ensures c[i].free ==> Kept(mem, SplitBytes(mem, c, i, size), Live(c, 0))
  {
    hide HeaderAt;
    hide Splice;
    AddrStep(c, i);
    var a := Addr(c, i);
    var x, y := Block(size, false), Block(c[i].size - size - HEADER, true);
    var b := a + HEADER + size;
    if c[i].free {
      TwoPutsKeep(mem, c, i, a, x, i, b, y);
    }
    TwoPutsRead(mem, a, x, b, y);
    Pair(x, y, 0);
    One(x, 0);
    One(c[i], 0);
    assert c == c[..i] + [c[i]] + c[i + 1..];
    assert [x, y][..0] == [] && [x, y][..1] == [x];
    PutOutside(mem, a, x);
    PutOutside(PutHeader(mem, a, x), b, y);
    EditTiles(mem, SplitBytes(mem, c, i, size), c[..i], [c[i]], [x, y], c[i + 1..]);
  }

  lemma {:induction false} TwoPutsKeep(mem: seq<byte>, c: seq<Block>, i: nat, a: nat, x: Block, j: nat, b: nat,
      y: Block)
    requires Len(c) == |mem| && i < |c| && j < |c| && x.size < WORD && y.size < WORD
    requires HeaderSpot(c, i, a) && HeaderSpot(c, j, b) && a + HEADER <= |mem| && b + HEADER <= |mem|
    ensures Kept(mem, PutHeader(PutHeader(mem, a, x), b, y), Live(c, 0))
  {
    var m1 := PutHeader(mem, a, x);
    PutKeeps(mem, c, i, a, x);
    PutKeeps(m1, c, j, b, y);
    KeptTrans(mem, m1, PutHeader(m1, b, y), Live(c, 0));
  }

  lemma {:induction false} PutOutside(mem: seq<byte>, a: nat, x: Block)
    requires a + HEADER <= |mem| && x.size < WORD
    ensures forall k | 0 <= k < |mem| && !(a <= k < a + HEADER) :: PutHeader(mem, a, x)[k] == mem[k]
  {
  }

  lemma {:induction false} TwoPutsRead(mem: seq<byte>, a: nat, x: Block, b: nat, y: Block)
    requires x.size < WORD && y.size < WORD && a + HEADER <= b && b + HEADER <= |mem|
    ensures var m := PutHeader(PutHeader(mem, a, x), b, y);
            HeaderAt(m, a) == x && HeaderAt(m, b) == y
  {
    var m1 := PutHeader(mem, a, x);
    PutThenRead(mem, a, x);
    PutElsewhere(m1, b, y, a);
    PutThenRead(m1, b, y);
  }

  /** Bytes after the compactor has merged block `i + 1` into block `i`. */
  function MergeBytes(mem: seq<byte>, c: seq<Block>, i: nat): (r: seq<byte>)
    requires i + 1 < |c| && Len(c) == |mem| < WORD
    ensures |r| == |mem|
  {
    AddrStep(c, i);
    AddrStep(c, i + 1);
    PutHeader(PutHeader(mem, Addr(c, i), Join(c[i], c[i + 1])), Addr(c, i + 1), Block(c[i + 1].size, true))
  }

  lemma {:induction false} MergeTiles(mem: seq<byte>, c: seq<Block>, i: nat)
    requires Tiles(mem, c) && i + 1 < |c| && c[i + 1].free && |mem| < WORD
    ensures Tiles(MergeBytes(mem, c, i), Merge(c, i))
    ensures Kept(mem, MergeBytes(mem, c, i), Live(c, 0))
  {
    hide HeaderAt;
    hide Splice;
    AddrStep(c, i);
    AddrStep(c, i + 1);
    var a, b := Addr(c, i), Addr(c, i + 1);
    var x, y := c[i], c[i + 1];
    var h := Block(y.size, true);
    TwoPutsKeep(mem, c, i, a, Join(x, y), i + 1, b, h);
    TwoPutsRead(mem, a, Join(x, y), b, h);
    Pair(x, y, 0);
    One(Join(x, y), 0);
    assert c == c[..i] + [x, y] + c[i + 2..];
    assert [Join(x, y)][..0] == [];
    PutOutside(mem, a, Join(x, y));
    PutOutside(PutHeader(mem, a, Join(x, y)), b, h);
    EditTiles(mem, MergeBytes(mem, c, i), c[..i], [x, y], [Join(x, y)], c[i + 2..]);
  }

  lemma {:induction false} MarkTiles(mem: seq<byte>, c: seq<Block>, k: nat)
    requires Tiles(mem, c) && k < |c| && |mem| < WORD
    ensures Addr(c, k) + HEADER + c[k].size <= |mem|
    ensures var m := PutHeader(mem, Addr(c, k), Block(c[k].size, true));
            Tiles(m, c[k := Block(c[k].size, true)]) && Kept(mem, m, Live(c, 0))
  {
    hide HeaderAt;
    hide Splice;
    AddrStep(c, k);
    var a := Addr(c, k);
    var h := Block(c[k].size, true);
    var m := PutHeader(mem, a, h);
    PutThenRead(mem, a, h);
    PutKeeps(mem, c, k, a, h);
    One(c[k], 0);
    One(h, 0);
    assert c == c[..k] + [c[k]] + c[k + 1..];
    assert c[k := h] == c[..k] + [h] + c[k + 1..];
    assert [h][..0] == [];
    PutOutside(mem, a, h);
    EditTiles(mem, m, c[..k], [c[k]], [h], c[k + 1..]);
  }

  /** Growing: the last header is rewritten first, then `added` bytes are appended. */
  lemma {:induction false} GrowTiles(mem: seq<byte>, c: seq<Block>, added: seq<byte>)
    requires Tiles(mem, c) && |mem| + |added| < WORD
    ensures Addr(c, |c| - 1) + HEADER + c[|c| - 1].size == |mem|
    ensures var m := PutHeader(mem, Addr(c, |c| - 1), Block(c[|c| - 1].size + |added|, true)) + added;
            Tiles(m, Grow(c, |added|)) && Kept(mem, m, Live(c, 0))
  {
    hide HeaderAt;
    hide Splice;
    var n := |c| - 1;
    AddrStep(c, n);
    assert c[..n + 1] == c;
    var a := Addr(c, n);
    var h := Block(c[n].size + |added|, true);
    var m1 := PutHeader(mem, a, h);
    PutKeeps(mem, c, n, a, h);
    ExtendKeeps(mem, m1, added, Live(c, 0));
    LenAppend(c[..n], [h]);
    One(h, 0);
    forall i: nat | i <= n ensures Headed(m1 + added, Grow(c, |added|), i) {
      assert Headed(mem, c, i);
      GrowHeaded(mem, c, h, added, i);
    }
  }

  lemma {:induction false} GrowHeaded(mem: seq<byte>, c: seq<Block>, h: Block, added: seq<byte>, i: nat)
    requires i < |c| && h.size < WORD && Len(c) == |mem| && Headed(mem, c, i)
    requires h == Block(c[|c| - 1].size + |added|, true)
    ensures Addr(c, |c| - 1) + HEADER <= |mem|
    ensures Headed(PutHeader(mem, Addr(c, |c| - 1), h) + added, Grow(c, |added|), i)
  {
    var n := |c| - 1;
    AddrStep(c, n);
    var a, x := Addr(c, n), Addr(c, i);
    var m1 := PutHeader(mem, a, h);
    var d := Grow(c, |added|);
    assert d[..i] == c[..i];
    assert (m1 + added)[x..x + HEADER] == m1[x..x + HEADER];
    if i < n {
      AddrOrder(c, i, n);
      PutElsewhere(mem, a, h, x);
    } else {
      PutThenRead(mem, a, h);
    }
  }

  lemma {:induction false} ExtendKeeps(mem: seq<byte>, m: seq<byte>, added: seq<byte>, live: set<(nat, nat)>)
    requires Kept(mem, m, live)
    ensures Kept(mem, m + added, live)
  {
    forall e | e in live ensures SamePayload(mem, m + added, e) {
      assert SamePayload(mem, m, e);
      var lo, hi := e.0 + HEADER, e.0 + HEADER + e.1;
      assert (m + added)[lo..hi] == m[lo..hi];
    }
  }

  /** Writing inside the payload of a live allocation disturbs neither the chain nor the others. */
  lemma {:induction false} PayloadWrite(mem: seq<byte>, c: seq<Block>, e: (nat, nat), at: nat, x: seq<byte>)
    requires Tiles(mem, c) && e in Live(c, 0)
    requires e.0 + HEADER <= at && at + |x| <= e.0 + HEADER + e.1
    ensures at + |x| <= |mem| && Tiles(Splice(mem, at, x), c)
    ensures Kept(mem, Splice(mem, at, x), Live(c, 0) - {e})
  {
    LiveBounds(c, 0, e);
    var m := Splice(mem, at, x);
    var k := LiveIndex(c, 0, e);
    forall i: nat | i < |c| ensures Headed(m, c, i) {
      assert Headed(mem, c, i);
      if i < k {
        AddrOrder(c, i, k);
      } else if k < i {
        AddrOrder(c, k, i);
      }
      SpliceElsewhere(mem, at, x, Addr(c, i), Addr(c, i) + HEADER);
    }
    forall f | f in Live(c, 0) - {e} ensures SamePayload(mem, m, f) {
      LiveDisjoint(c, 0, e, f);
      LiveBounds(c, 0, f);
      SpliceElsewhere(mem, at, x, f.0 + HEADER, f.0 + HEADER + f.1);
    }
  }
}
