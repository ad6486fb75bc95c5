/**
 The header chain of a heap segment as a list of blocks: what the walkers, the splitter and the
 compactor do to it. Byte offsets are left to module `Layout`.
 */
module Chain {
  const HEADER: nat := 5

  /** One `heap_metadata` and the payload behind it. */
  datatype Block = Block(size: nat, free: bool)

  /** Bytes a run of blocks takes. */
  function Len(c: seq<Block>): (n: nat)
  {
    if c == [] then 0 else HEADER + c[0].size + Len(c[1..])
  }

  /** Address of the header of block `i`. */
  function Addr(c: seq<Block>, i: nat): (a: nat)
    requires i <= |c|
  {
    Len(c[..i])
  }

  lemma {:induction false} LenAppend(a: seq<Block>, b: seq<Block>)
    ensures Len(a + b) == Len(a) + Len(b)
  {
    if a == [] {
      assert a + b == b;
    } else {
      assert (a + b)[1..] == a[1..] + b;
      LenAppend(a[1..], b);
    }
  }

  lemma {:induction false} AddrStep(c: seq<Block>, i: nat)
    requires i < |c|
    ensures Addr(c, i + 1) == Addr(c, i) + HEADER + c[i].size
    ensures Addr(c, i + 1) <= Len(c)
  {
    assert c[..i + 1] == c[..i] + [c[i]];
    LenAppend(c[..i], [c[i]]);
    assert c == c[..i + 1] + c[i + 1..];
    LenAppend(c[..i + 1], c[i + 1..]);
    assert Len([c[i]]) == HEADER + c[i].size;
  }

  lemma {:induction false} AddrOrder(c: seq<Block>, i: nat, j: nat)
    requires i < j <= |c|
    ensures Addr(c, i) + HEADER + c[i].size <= Addr(c, j) <= Len(c)
    decreases j - i
  {
    AddrStep(c, i);
    if i + 1 < j {
      AddrOrder(c, i + 1, j);
    }
  }

  // ----- the invariant -----

  predicate LastFree(c: seq<Block>)
  {
    c != [] && c[|c| - 1].free
  }

  predicate FreePair(c: seq<Block>, i: nat)
    requires i + 1 < |c|
  {
    c[i].free && c[i + 1].free
  }

  ghost predicate NoFreeNeighbours(c: seq<Block>)
  {
    forall i: nat | i + 1 < |c| :: !FreePair(c, i)
  }

  /** What malloc relies on: the tail is free, and free blocks never touch. */
  ghost predicate Sound(c: seq<Block>)
  {
    LastFree(c) && NoFreeNeighbours(c)
  }

  /** The live allocations, as (header address, size) pairs, of a chain laid out from `a`. */
  function Live(c: seq<Block>, a: nat): (s: set<(nat, nat)>)
  {
    if c == [] then {}
    else (if c[0].free then {} else {(a, c[0].size)}) + Live(c[1..], a + HEADER + c[0].size)
  }

  lemma {:induction false} LiveAppend(x: seq<Block>, y: seq<Block>, a: nat)
    ensures Live(x + y, a) == Live(x, a) + Live(y, a + Len(x))
  {
    if x == [] {
      assert x + y == y;
    } else {
      assert (x + y)[1..] == x[1..] + y;
      LiveAppend(x[1..], y, a + HEADER + x[0].size);
    }
  }

  lemma {:induction false} LiveBounds(c: seq<Block>, a: nat, e: (nat, nat))
    requires e in Live(c, a)
    ensures a <= e.0 && e.0 + HEADER + e.1 <= a + Len(c)
  {
    var b := a + HEADER + c[0].size;
    if c[0].free || e != (a, c[0].size) {
      LiveBounds(c[1..], b, e);
    }
  }

  /** Live allocations, headers included, are pairwise disjoint. */
  lemma {:induction false} LiveDisjoint(c: seq<Block>, a: nat, e: (nat, nat), f: (nat, nat))
    requires e in Live(c, a) && f in Live(c, a) && e != f
    ensures e.0 + HEADER + e.1 <= f.0 || f.0 + HEADER + f.1 <= e.0
  {
    var b := a + HEADER + c[0].size;
    var head := (a, c[0].size);
    if !c[0].free && e == head {
      LiveBounds(c[1..], b, f);
    } else if !c[0].free && f == head {
      LiveBounds(c[1..], b, e);
    } else {
      LiveDisjoint(c[1..], b, e, f);
    }
  }

  /** `e` is live exactly when some allocated block sits there. */
  lemma {:induction false} LiveIndex(c: seq<Block>, a: nat, e: (nat, nat)) returns (i: nat)
    requires e in Live(c, a)
    ensures i < |c| && !c[i].free && e == (a + Addr(c, i), c[i].size)
  {
    var b := a + HEADER + c[0].size;
    if !c[0].free && e == (a, c[0].size) {
      i := 0;
    } else {
      var k := LiveIndex(c[1..], b, e);
      i := k + 1;
      assert c[..i] == [c[0]] + c[1..][..k];
    }
  }

  lemma {:induction false} LiveAt(c: seq<Block>, a: nat, i: nat)
    requires i < |c| && !c[i].free
    ensures (a + Addr(c, i), c[i].size) in Live(c, a)
  {
    if i > 0 {
      LiveAt(c[1..], a + HEADER + c[0].size, i - 1);
      assert c[..i] == [c[0]] + c[1..][..i - 1];
    }
  }

  // ----- first fit -----

  /**
   `proxima_metadata_libre_con_size` from block `i`: the next-to-last block is never tested, and
   a last block reached directly is taken without looking at its free flag.
   */
  function FirstFit(c: seq<Block>, i: nat, size: nat): (r: int)
    requires i < |c|
    ensures -1 <= r < |c|
    ensures r >= 0 ==> i <= r && c[r].size >= size
    decreases |c| - i
  {
    var last := |c| - 1;
    if i == last then
      if c[i].size >= size then i else -1
    else if i + 1 == last then
      if c[last].free && c[last].size >= size then last else -1
    else if c[i].free && c[i].size >= size then i
    else FirstFit(c, i + 1, size)
  }

  predicate Fits(b: Block, size: nat)
  {
    b.free && b.size >= size
  }

  /** `r` is the lowest free block from `i` on that is large enough, or -1 when there is none. */
  ghost predicate LowestFit(c: seq<Block>, i: nat, size: nat, r: int)
  {
    if r == -1 then forall j | i <= j < |c| :: !Fits(c[j], size)
    else i <= r < |c| && Fits(c[r], size) && forall j | i <= j < r :: !Fits(c[j], size)
  }

  /** First fit is sound and complete on a sound chain. */
  lemma {:induction false} FirstFitLowest(c: seq<Block>, i: nat, size: nat)
    requires Sound(c) && i < |c|
    ensures LowestFit(c, i, size, FirstFit(c, i, size))
    decreases |c| - i
  {
    var last := |c| - 1;
    if i < last {
      assert !FreePair(c, i);
      if i + 1 < last && !Fits(c[i], size) {
        FirstFitLowest(c, i + 1, size);
      }
    }
  }

  /** Blocks the search skips although they could serve a request: exactly these break it. */
  ghost predicate SearchBlind(c: seq<Block>)
    requires c != []
  {
    var last := |c| - 1;
    if last == 0 then !c[0].free
    else c[last - 1].free && forall j | 0 <= j < last - 1 :: !Fits(c[j], c[last - 1].size)
  }

  /** On an arbitrary chain the search is right for every size exactly when it is not blind. */
  lemma {:induction false} FirstFitExact(c: seq<Block>)
    requires c != []
    ensures (forall size: nat :: LowestFit(c, 0, size, FirstFit(c, 0, size))) <==> !SearchBlind(c)
  {
    var last := |c| - 1;
    if SearchBlind(c) {
      var size := if last == 0 then 0 else c[last - 1].size;
      if last > 0 {
        FirstFitMisses(c, 0, size);
        assert Fits(c[last - 1], size);
      }
      assert !LowestFit(c, 0, size, FirstFit(c, 0, size));
    } else {
      forall size: nat ensures LowestFit(c, 0, size, FirstFit(c, 0, size)) {
        if last > 0 {
          if c[last - 1].free {
            var j :| 0 <= j < last - 1 && Fits(c[j], c[last - 1].size);
            FirstFitNotBlind(c, 0, size, j);
          } else {
            FirstFitTail(c, 0, size);
          }
        }
      }
    }
  }

  lemma {:induction false} FirstFitMisses(c: seq<Block>, i: nat, size: nat)
    requires i < |c| - 1
    requires forall j | i <= j < |c| - 2 :: !Fits(c[j], size)
    ensures FirstFit(c, i, size) != |c| - 2
    decreases |c| - i
  {
    if i + 1 < |c| - 1 {
      FirstFitMisses(c, i + 1, size);
    }
  }

  lemma {:induction false} FirstFitTail(c: seq<Block>, i: nat, size: nat)
    requires i < |c| - 1 && !c[|c| - 2].free
    ensures LowestFit(c, i, size, FirstFit(c, i, size))
    decreases |c| - i
  {
    if i + 1 < |c| - 1 && !Fits(c[i], size) {
      FirstFitTail(c, i + 1, size);
    }
  }

  lemma {:induction false} FirstFitNotBlind(c: seq<Block>, i: nat, size: nat, j: nat)
    requires i < |c| - 1 && (j < i ==> c[|c| - 2].size < size)
    requires j < |c| - 2 && Fits(c[j], c[|c| - 2].size)
    ensures LowestFit(c, i, size, FirstFit(c, i, size))
    decreases |c| - i
  {
    if i + 1 < |c| - 1 && !Fits(c[i], size) {
      FirstFitNotBlind(c, i + 1, size, j);
    }
  }

  // ----- splitting and growing -----

  /** The found block becomes the allocation and a free remainder. */
  function Split(c: seq<Block>, i: nat, size: nat): (d: seq<Block>)
    requires i < |c| && c[i].size >= size + HEADER
  {
    c[..i] + [Block(size, false), Block(c[i].size - size - HEADER, true)] + c[i + 1..]
  }

  lemma {:induction false} SplitKeeps(c: seq<Block>, i: nat, size: nat)
    requires Sound(c) && i < |c| && c[i].free && c[i].size >= size + HEADER
    ensures Sound(Split(c, i, size))
    ensures Len(Split(c, i, size)) == Len(c)
    ensures Live(Split(c, i, size), 0) == Live(c, 0) + {(Addr(c, i), size)}
    ensures (Addr(c, i), size) !in Live(c, 0)
  {
    SplitSound(c, i, size);
    SplitLive(c, i, size);
    FreeNotLive(c, i, size);
  }

  lemma {:induction false} SplitSound(c: seq<Block>, i: nat, size: nat)
    requires Sound(c) && i < |c| && c[i].free && c[i].size >= size + HEADER
    ensures Sound(Split(c, i, size))
  {
    var d := Split(c, i, size);
    forall k: nat | k + 1 < |d| ensures !FreePair(d, k) {
      if k < i {
        assert d[k] == c[k] && !FreePair(c, k);
      } else if k > i {
        assert d[k + 1] == c[k] && !FreePair(c, k - 1);
      }
    }
  }

  lemma {:induction false} SplitLive(c: seq<Block>, i: nat, size: nat)
    requires i < |c| && c[i].free && c[i].size >= size + HEADER
    ensures Len(Split(c, i, size)) == Len(c)
    ensures Live(Split(c, i, size), 0) == Live(c, 0) + {(Addr(c, i), size)}
  {
    var x, y := Block(size, false), Block(c[i].size - size - HEADER, true);
    var at := Addr(c, i);
    assert c == c[..i] + [c[i]] + c[i + 1..];
    One(x, at);
    One(y, at + HEADER + size);
    One(c[i], at);
    Pair(x, y, at);
    Exchange(c[..i], [c[i]], [x, y], c[i + 1..], {(at, size)});
  }

  lemma {:induction false} FreeNotLive(c: seq<Block>, i: nat, size: nat)
    requires i < |c| && c[i].free
    ensures (Addr(c, i), size) !in Live(c, 0)
  {
    if (Addr(c, i), size) in Live(c, 0) {
      var k := LiveIndex(c, 0, (Addr(c, i), size));
      if k < i {
        AddrOrder(c, k, i);
      } else if i < k {
        AddrOrder(c, i, k);
      }
    }
  }

  /** Length and allocations of a chain cut in three. */
  lemma {:induction false} Parts(pre: seq<Block>, mid: seq<Block>, post: seq<Block>)
    ensures Len(pre + mid + post) == Len(pre) + Len(mid) + Len(post)
    ensures Live(pre + mid + post, 0)
         == Live(pre, 0) + Live(mid, Len(pre)) + Live(post, Len(pre) + Len(mid))
  {
    LenAppend(pre + mid, post);
    LenAppend(pre, mid);
    LiveAppend(pre + mid, post, 0);
    LiveAppend(pre, mid, 0);
  }

  /** Swapping one stretch for another of the same length moves nothing else. */
  lemma {:induction false} Exchange(pre: seq<Block>, mid: seq<Block>, mid': seq<Block>, post: seq<Block>,
      gain: set<(nat, nat)>)
    requires Len(mid) == Len(mid') && Live(mid', Len(pre)) == Live(mid, Len(pre)) + gain
    ensures Len(pre + mid' + post) == Len(pre + mid + post)
    ensures Live(pre + mid' + post, 0) == Live(pre + mid + post, 0) + gain
  {
    Parts(pre, mid, post);
    Parts(pre, mid', post);
    Regroup(Live(pre, 0), Live(mid, Len(pre)), Live(post, Len(pre) + Len(mid)), gain);
  }

  lemma {:induction false} Regroup(p: set<(nat, nat)>, m: set<(nat, nat)>, q: set<(nat, nat)>, gain: set<(nat, nat)>)
    ensures p + (m + gain) + q == p + m + q + gain
  {
  }

  lemma {:induction false} One(x: Block, a: nat)
    ensures Len([x]) == HEADER + x.size
    ensures Live([x], a) == if x.free then {} else {(a, x.size)}
  {
    assert [x][1..] == [];
  }

  lemma {:induction false} Pair(x: Block, y: Block, a: nat)
    ensures Len([x, y]) == HEADER + x.size + HEADER + y.size
    ensures Live([x, y], a) == Live([x], a) + Live([y], a + HEADER + x.size)
  {
    assert [x, y] == [x] + [y];
    One(x, a);
    One(y, a);
    LenAppend([x], [y]);
    LiveAppend([x], [y], a);
  }

  /** The last block gains `extra` bytes and is marked free. */
  function Grow(c: seq<Block>, extra: nat): (d: seq<Block>)
    requires c != []
  {
    c[..|c| - 1] + [Block(c[|c| - 1].size + extra, true)]
  }

  lemma {:induction false} GrowKeeps(c: seq<Block>, extra: nat)
    requires Sound(c)
    ensures Sound(Grow(c, extra))
    ensures Len(Grow(c, extra)) == Len(c) + extra
    ensures Live(Grow(c, extra), 0) == Live(c, 0)
  {
    var n := |c| - 1;
    var d := Grow(c, extra);
    assert c == c[..n] + [c[n]];
    LenAppend(c[..n], [c[n]]);
    LenAppend(c[..n], [d[n]]);
    LiveAppend(c[..n], [c[n]], 0);
    LiveAppend(c[..n], [d[n]], 0);
    forall k: nat | k + 1 < |d| ensures !FreePair(d, k) {
      assert !FreePair(c, k);
    }
  }

  /** A grown chain always has room at its end. */
  lemma {:induction false} GrownFits(c: seq<Block>, i: nat, size: nat)
    requires i < |c| && c[|c| - 1].free && c[|c| - 1].size >= size
    ensures FirstFit(c, i, size) >= 0
    decreases |c| - i
  {
    if i + 2 < |c| {
      GrownFits(c, i + 1, size);
    }
  }

  // ----- compaction -----

  function Join(x: Block, y: Block): (r: Block)
  {
    Block(x.size + y.size + HEADER, x.free)
  }

  /** `modificar_metadata` on block `i` and its successor, as the compactor calls it. */
  function Merge(c: seq<Block>, i: nat): (d: seq<Block>)
    requires i + 1 < |c|
    ensures |d| == |c| - 1
  {
    c[..i] + [Join(c[i], c[i + 1])] + c[i + 2..]
  }

  /**
   `proxima_metadata_libre`: the next-to-last block is returned whenever the last one is free,
   whatever its own flag says.
   */
  function NextFree(c: seq<Block>, i: nat): (r: int)
    requires i < |c| && (i == |c| - 1 ==> c[i].free)
    ensures -1 <= r < |c|
    ensures r >= 0 ==> r >= i && (r == |c| - 1 ==> |c| - 1 == i)
    decreases |c| - i
  {
    if i + 1 == |c| - 1 then
      if c[i + 1].free then i else -1
    else if c[i].free then i
    else NextFree(c, i + 1)
  }

  /** `compactar_en_segmento`, standing on block `i` and looking at block `i + 1`. */
  function Compact(c: seq<Block>, i: nat): (d: seq<Block>)
    requires i + 1 < |c|
    decreases |c| - i
  {
    if i + 1 == |c| - 1 then
      if c[i + 1].free then Merge(c, i) else c
    else if c[i + 1].free then Compact(Merge(c, i), i)
    else
      var k := NextFree(c, i + 1);
      if k == -1 then c else Compact(c, k)
  }

  /** `compactar_espacios_libres` on one segment. */
  function CompactPass(c: seq<Block>): (d: seq<Block>)
    requires c != [] && (|c| == 1 ==> c[0].free)
  {
    var k := NextFree(c, 0);
    if k == -1 || k == |c| - 1 then c else Compact(c, k)
  }

  /** What compaction is for: every maximal stretch of free blocks becomes one free block. */
  function MergeRuns(c: seq<Block>): (d: seq<Block>)
    decreases |c|
  {
    if |c| <= 1 then c
    else if c[0].free && c[1].free then MergeRuns([Join(c[0], c[1])] + c[2..])
    else [c[0]] + MergeRuns(c[1..])
  }

  /** An allocated block in front of a free tail: the compactor merges the tail into it. */
  predicate Swallows(c: seq<Block>)
  {
    |c| >= 2 && c[|c| - 1].free && !c[|c| - 2].free
  }

  function Swallow(c: seq<Block>): (d: seq<Block>)
  {
    if Swallows(c) then Merge(c, |c| - 2) else c
  }

  lemma {:induction false} MergeRunsHead(x: Block, y: Block, r: seq<Block>)
    ensures MergeRuns([x, y] + r)
         == if x.free && y.free then MergeRuns([Join(x, y)] + r) else [x] + MergeRuns([y] + r)
  {
    var c := [x, y] + r;
    assert c[1..] == [y] + r && c[2..] == r;
  }

  lemma {:induction false} MergeRunsKeeps(c: seq<Block>, a: nat)
    ensures Len(MergeRuns(c)) == Len(c)
    ensures Live(MergeRuns(c), a) == Live(c, a)
    ensures NoFreeNeighbours(MergeRuns(c))
    ensures c != [] ==> MergeRuns(c) != [] && LastFree(MergeRuns(c)) == LastFree(c)
    ensures c != [] ==> MergeRuns(c)[0].free == c[0].free
    decreases |c|
  {
    if |c| >= 2 {
      var x, y, r := c[0], c[1], c[2..];
      assert c == [x, y] + r;
      MergeRunsHead(x, y, r);
      if x.free && y.free {
        JoinKeeps(x, y, r, a);
        MergeRunsKeeps([Join(x, y)] + r, a);
      } else {
        MergeRunsKeeps([y] + r, a + HEADER + x.size);
        assert [x] + ([y] + r) == c;
        ConsKeeps(x, [y] + r, MergeRuns([y] + r), a);
      }
    }
  }

  lemma {:induction false} JoinKeeps(x: Block, y: Block, r: seq<Block>, a: nat)
    requires x.free && y.free
    ensures Len([Join(x, y)] + r) == Len([x, y] + r)
    ensures Live([Join(x, y)] + r, a) == Live([x, y] + r, a)
  {
    One(Join(x, y), a);
    Pair(x, y, a);
    One(x, a);
    One(y, a + HEADER + x.size);
    LenAppend([x, y], r);
    LenAppend([Join(x, y)], r);
    LiveAppend([x, y], r, a);
    LiveAppend([Join(x, y)], r, a);
  }

  lemma {:induction false} ConsKeeps(x: Block, s: seq<Block>, t: seq<Block>, a: nat)
    requires s != [] && t != [] && s[0].free == t[0].free && !(x.free && s[0].free)
    requires Len(t) == Len(s) && NoFreeNeighbours(t) && LastFree(t) == LastFree(s)
    requires Live(t, a + HEADER + x.size) == Live(s, a + HEADER + x.size)
    ensures Len([x] + t) == Len([x] + s) && Live([x] + t, a) == Live([x] + s, a)
    ensures NoFreeNeighbours([x] + t) && LastFree([x] + t) == LastFree([x] + s)
  {
    assert ([x] + t)[1..] == t && ([x] + s)[1..] == s;
    forall k: nat | k < |t| ensures !FreePair([x] + t, k) {
      assert k > 0 ==> !FreePair(t, k - 1);
    }
  }

  /** Merging a free pair anywhere does not change what the whole merges to. */
  lemma {:induction false} MergeRunsAbsorbs(c: seq<Block>, i: nat)
    requires i + 1 < |c| && c[i].free && c[i + 1].free
    ensures MergeRuns(Merge(c, i)) == MergeRuns(c)
    decreases |c|, 1
  {
    var x, y, r := c[0], c[1], c[2..];
    assert c == [x, y] + r;
    if i == 0 {
      MergeRunsHead(x, y, r);
      assert Merge(c, 0) == [Join(x, y)] + r;
    } else if i == 1 {
      assert r == [c[2]] + c[3..];
      assert Merge(c, 1) == [x, Join(y, c[2])] + c[3..];
      AbsorbSecond(x, y, c[2], c[3..]);
    } else {
      assert Merge(c, i) == [x, y] + Merge(r, i - 2);
      AbsorbLater(x, y, r, i - 2);
    }
  }

  lemma {:induction false} AbsorbLater(x: Block, y: Block, r: seq<Block>, i: nat)
    requires i + 1 < |r| && r[i].free && r[i + 1].free
    ensures MergeRuns([x, y] + Merge(r, i)) == MergeRuns([x, y] + r)
    decreases |r| + 2, 0
  {
    MergeRunsHead(x, y, r);
    MergeRunsHead(x, y, Merge(r, i));
    var z := if x.free && y.free then Join(x, y) else y;
    MergeCons(z, r, i);
    MergeRunsAbsorbs([z] + r, i + 1);
  }

  lemma {:induction false} MergeCons(z: Block, r: seq<Block>, i: nat)
    requires i + 1 < |r|
    ensures Merge([z] + r, i + 1) == [z] + Merge(r, i)
  {
    var c := [z] + r;
    assert c[..i + 1] == [z] + r[..i];
    assert c[i + 3..] == r[i + 2..];
  }

  lemma {:induction false} AbsorbSecond(x: Block, y: Block, z: Block, r: seq<Block>)
    requires y.free && z.free
    ensures MergeRuns([x, Join(y, z)] + r) == MergeRuns([x, y] + ([z] + r))
  {
    assert [y] + ([z] + r) == [y, z] + r;
    MergeRunsHead(x, Join(y, z), r);
    MergeRunsHead(x, y, [z] + r);
    if x.free {
      assert [Join(x, y)] + ([z] + r) == [Join(x, y), z] + r;
      MergeRunsHead(Join(x, y), z, r);
    } else {
      MergeRunsHead(y, z, r);
    }
  }

  /** Nothing left to merge. */
  lemma {:induction false} MergeRunsFixed(c: seq<Block>)
    requires NoFreeNeighbours(c)
    ensures MergeRuns(c) == c
  {
    if |c| >= 2 {
      assert !FreePair(c, 0);
      assert forall k: nat | k + 2 < |c| :: FreePair(c[1..], k) == FreePair(c, k + 1);
      MergeRunsFixed(c[1..]);
    }
  }

  /** Free blocks touch only from block `i` on. */
  ghost predicate MergedBefore(c: seq<Block>, i: nat)
  {
    forall k: nat | k + 1 < |c| && k < i :: !FreePair(c, k)
  }

  lemma {:induction false} NextFreeSkips(c: seq<Block>, i: nat)
    requires i < |c| - 1 && MergedBefore(c, i)
    ensures var k := NextFree(c, i);
            if k == -1 then MergedBefore(c, |c| - 2) && !c[|c| - 1].free
            else MergedBefore(c, k) && (c[k].free || (k == |c| - 2 && c[|c| - 1].free))
    decreases |c| - i
  {
    if i + 1 < |c| - 1 && !c[i].free {
      NextFreeSkips(c, i + 1);
    }
  }

  /** One step of the compactor, and all that follow, in closed form. */
  lemma {:induction false} CompactMeaning(c: seq<Block>, i: nat)
    requires i + 1 < |c| && MergedBefore(c, i)
    requires c[i].free || (i == |c| - 2 && c[|c| - 1].free)
    ensures Compact(c, i) == MergeRuns(Swallow(c))
    decreases |c| - i
  {
    var last := |c| - 1;
    if i + 1 == last {
      if c[last].free {
        var d := Merge(c, i);
        forall k: nat | k + 1 < |d| ensures !FreePair(d, k) {
          assert !FreePair(c, k);
        }
        MergeRunsFixed(d);
        if c[i].free {
          MergeRunsAbsorbs(c, i);
        }
      } else {
        assert NoFreeNeighbours(c);
        MergeRunsFixed(c);
      }
    } else if c[i + 1].free {
      var d := Merge(c, i);
      forall k: nat | k + 1 < |d| && k < i ensures !FreePair(d, k) {
        assert !FreePair(c, k);
      }
      CompactMeaning(d, i);
      MergeSwallow(c, i);
    } else {
      assert MergedBefore(c, i + 1);
      NextFreeSkips(c, i + 1);
      var k := NextFree(c, i + 1);
      if k == -1 {
        assert NoFreeNeighbours(c);
        MergeRunsFixed(c);
      } else {
        CompactMeaning(c, k);
      }
    }
  }

  lemma {:induction false} MergeSwallow(c: seq<Block>, i: nat)
    requires i + 2 < |c| && c[i].free && c[i + 1].free
    ensures MergeRuns(Swallow(Merge(c, i))) == MergeRuns(Swallow(c))
  {
    var d := Merge(c, i);
    assert d[|d| - 1] == c[|c| - 1];
    if i == |c| - 3 {
      assert d[|d| - 2].free;
      MergeRunsAbsorbs(c, i);
    } else {
      assert d[|d| - 2] == c[|c| - 2];
      if Swallows(c) {
        assert Swallow(d) == Merge(Swallow(c), i);
        MergeRunsAbsorbs(Swallow(c), i);
      } else {
        MergeRunsAbsorbs(c, i);
      }
    }
  }

  /** One whole pass, for every chain it can be started on. */
  lemma {:induction false} CompactPassMeaning(c: seq<Block>)
    requires c != [] && (|c| == 1 ==> c[0].free)
    ensures CompactPass(c) == MergeRuns(Swallow(c))
  {
    if |c| > 1 {
      NextFreeSkips(c, 0);
      var k := NextFree(c, 0);
      if k == -1 {
        assert NoFreeNeighbours(c);
        MergeRunsFixed(c);
      } else {
        CompactMeaning(c, k);
      }
    }
  }

  /** What a pass keeps on every chain, and when it keeps what it is meant to keep. */
  lemma {:induction false} CompactPassExact(c: seq<Block>)
    requires c != [] && (|c| == 1 ==> c[0].free)
    ensures var d := CompactPass(c);
            && d != [] && Len(d) == Len(c) && NoFreeNeighbours(d)
            && (Live(d, 0) == Live(c, 0) <==> !Swallows(c))
            && (LastFree(c) ==> (LastFree(d) <==> !Swallows(c)))
  {
    CompactPassMeaning(c);
    MergeRunsKeeps(Swallow(c), 0);
    if Swallows(c) {
      SwallowChangesLive(c);
    }
  }

  lemma {:induction false} SwallowChangesLive(c: seq<Block>)
    requires Swallows(c)
    ensures Len(Swallow(c)) == Len(c)
    ensures var x := (Addr(c, |c| - 2), c[|c| - 2].size);
            x in Live(c, 0) && x !in Live(Swallow(c), 0)
  {
    var n := |c| - 2;
    var x, y := c[n], c[n + 1];
    var pre := c[..n];
    assert c == pre + [x, y] && Swallow(c) == pre + [Join(x, y)];
    Pair(x, y, 0);
    One(Join(x, y), Len(pre));
    LenAppend(pre, [x, y]);
    LenAppend(pre, [Join(x, y)]);
    LiveAppend(pre, [Join(x, y)], 0);
    LiveAt(c, 0, n);
    if (Len(pre), x.size) in Live(pre, 0) {
      LiveBounds(pre, 0, (Len(pre), x.size));
    }
  }

  // ----- free -----

  /** `memory_free` on block `k`: mark it, then compact. */
  function Free(c: seq<Block>, k: nat): (d: seq<Block>)
    requires k < |c|
  {
    CompactPass(c[k := Block(c[k].size, true)])
  }

  /**
   Freeing keeps the invariant exactly when the freed block is the last one before the tail;
   only then does it release that allocation and nothing else.
   */
  lemma {:induction false} FreeExact(c: seq<Block>, k: nat)
    requires Sound(c) && k < |c| && !c[k].free
    ensures var d := Free(c, k); var x := (Addr(c, k), c[k].size);
            && Len(d) == Len(c) && d != [] && NoFreeNeighbours(d)
            && (Sound(d) <==> k == |c| - 2)
            && (Live(d, 0) == Live(c, 0) - {x} <==> k == |c| - 2)
  {
    var m := c[k := Block(c[k].size, true)];
    MarkFree(c, k);
    CompactPassExact(m);
    SoundSwallows(c, m, k);
    FreeVerdict(c, m, CompactPass(m), k);
  }

  lemma {:induction false} FreeVerdict(c: seq<Block>, m: seq<Block>, d: seq<Block>, k: nat)
    requires Sound(c) && k < |c| && !c[k].free && m == c[k := Block(c[k].size, true)]
    requires NoFreeNeighbours(d) && (Swallows(m) <==> k != |c| - 2)
    requires Live(m, 0) == Live(c, 0) - {(Addr(c, k), c[k].size)}
    requires Live(d, 0) == Live(m, 0) <==> !Swallows(m)
    requires LastFree(m) ==> (LastFree(d) <==> !Swallows(m))
    ensures Sound(d) <==> k == |c| - 2
    ensures Live(d, 0) == Live(c, 0) - {(Addr(c, k), c[k].size)} <==> k == |c| - 2
  {
  }

  lemma {:induction false} SoundSwallows(c: seq<Block>, m: seq<Block>, k: nat)
    requires Sound(c) && k < |c| && !c[k].free && m == c[k := Block(c[k].size, true)]
    ensures Swallows(m) <==> k != |c| - 2
  {
    assert !FreePair(c, |c| - 2);
  }

  lemma {:induction false} MarkFree(c: seq<Block>, k: nat)
    requires k < |c| && !c[k].free
    ensures var m := c[k := Block(c[k].size, true)];
            Len(m) == Len(c) && Live(m, 0) == Live(c, 0) - {(Addr(c, k), c[k].size)}
  {
    hide Live;
    hide Len;
    var m := c[k := Block(c[k].size, true)];
    var x := (Addr(c, k), c[k].size);
    assert c == c[..k] + [c[k]] + c[k + 1..];
    assert m == c[..k] + [m[k]] + c[k + 1..];
    Parts(c[..k], [c[k]], c[k + 1..]);
    Parts(c[..k], [m[k]], c[k + 1..]);
    One(c[k], Len(c[..k]));
    One(m[k], Len(c[..k]));
    if x in Live(c[..k], 0) {
      LiveBounds(c[..k], 0, x);
    }
    var b := Len(c[..k]) + Len([c[k]]);
    if x in Live(c[k + 1..], b) {
      LiveBounds(c[k + 1..], b, x);
    }
  }

  // ----- the compactor with its guard -----

  /** `compactar_en_segmento` as its names have it: a block takes the next one in only while it is free itself. */
  function GuardedCompact(c: seq<Block>, i: nat): (d: seq<Block>)
    requires i + 1 < |c|
    decreases |c| - i
  {
    if i + 1 == |c| - 1 then
      if c[i].free && c[i + 1].free then Merge(c, i) else c
    else if c[i].free && c[i + 1].free then GuardedCompact(Merge(c, i), i)
    else
      var k := NextFree(c, i + 1);
      if k == -1 then c else GuardedCompact(c, k)
  }

  function GuardedPass(c: seq<Block>): (d: seq<Block>)
    requires c != [] && (|c| == 1 ==> c[0].free)
  {
    var k := NextFree(c, 0);
    if k == -1 || k == |c| - 1 then c else GuardedCompact(c, k)
  }

  lemma {:induction false} GuardedMeaning(c: seq<Block>, i: nat)
    requires i + 1 < |c| && MergedBefore(c, i)
    requires c[i].free || (i == |c| - 2 && c[|c| - 1].free)
    ensures GuardedCompact(c, i) == MergeRuns(c)
    decreases |c| - i
  {
    var last := |c| - 1;
    if c[i].free && c[i + 1].free {
      var d := Merge(c, i);
      forall k: nat | k + 1 < |d| && k < i ensures !FreePair(d, k) {
        assert !FreePair(c, k);
      }
      MergeRunsAbsorbs(c, i);
      if i + 1 == last {
        assert NoFreeNeighbours(d);
        MergeRunsFixed(d);
      } else {
        GuardedMeaning(d, i);
      }
    } else if i + 1 == last {
      assert NoFreeNeighbours(c);
      MergeRunsFixed(c);
    } else {
      assert MergedBefore(c, i + 1);
      NextFreeSkips(c, i + 1);
      var k := NextFree(c, i + 1);
      if k == -1 {
        assert NoFreeNeighbours(c);
        MergeRunsFixed(c);
      } else {
        GuardedMeaning(c, k);
      }
    }
  }

  /** With the guard a pass merges the maximal runs of free blocks and does nothing else. */
  lemma GuardedPassMeaning(c: seq<Block>)
    requires c != [] && (|c| == 1 ==> c[0].free)
    ensures GuardedPass(c) == MergeRuns(c)
  {
    if |c| > 1 {
      NextFreeSkips(c, 0);
      var k := NextFree(c, 0);
      if k == -1 {
        assert NoFreeNeighbours(c);
        MergeRunsFixed(c);
      } else {
        GuardedMeaning(c, k);
      }
    }
  }

  /** `memory_free` with the guard in place. */
  function GuardedFree(c: seq<Block>, k: nat): (d: seq<Block>)
    requires k < |c|
  {
    GuardedPass(c[k := Block(c[k].size, true)])
  }

  // ----- either compactor -----

  /** Block `i + 1` goes into block `i`: with the guard only if that one is free too. */
  predicate Absorbs(guarded: bool, c: seq<Block>, i: nat)
    requires i + 1 < |c|
  {
    c[i + 1].free && (guarded ==> c[i].free)
  }

  function CompactAs(guarded: bool, c: seq<Block>, i: nat): (d: seq<Block>)
    requires i + 1 < |c|
  {
    if guarded then GuardedCompact(c, i) else Compact(c, i)
  }

  function PassAs(guarded: bool, c: seq<Block>): (d: seq<Block>)
    requires c != [] && (|c| == 1 ==> c[0].free)
  {
    if guarded then GuardedPass(c) else CompactPass(c)
  }

  function FreeAs(guarded: bool, c: seq<Block>, k: nat): (d: seq<Block>)
    requires k < |c|
  {
    if guarded then GuardedFree(c, k) else Free(c, k)
  }

  lemma CompactAsStep(guarded: bool, c: seq<Block>, i: nat)
    requires i + 1 < |c|
    ensures var k := if i + 1 == |c| - 1 then -1 else NextFree(c, i + 1);
            CompactAs(guarded, c, i)
            == if Absorbs(guarded, c, i) then
                 (if i + 1 == |c| - 1 then Merge(c, i) else CompactAs(guarded, Merge(c, i), i))
               else if k == -1 then c
               else CompactAs(guarded, c, k)
  {
    hide Merge;
  }

  lemma {:induction false} CompactSome(guarded: bool, c: seq<Block>, i: nat)
    requires i + 1 < |c|
    ensures CompactAs(guarded, c, i) != []
    decreases |c| - i
  {
    hide CompactAs;
    CompactAsStep(guarded, c, i);
    var last := i + 1 == |c| - 1;
    if Absorbs(guarded, c, i) {
      if !last {
        CompactSome(guarded, Merge(c, i), i);
      }
    } else if !last && NextFree(c, i + 1) != -1 {
      CompactSome(guarded, c, NextFree(c, i + 1));
    }
  }

  lemma FreeSome(guarded: bool, c: seq<Block>, k: nat)
    requires k < |c|
    ensures FreeAs(guarded, c, k) == PassAs(guarded, c[k := Block(c[k].size, true)]) != []
  {
    hide CompactAs;
    var m := c[k := Block(c[k].size, true)];
    PassAsStep(guarded, m);
    if NextFree(m, 0) != -1 && NextFree(m, 0) != |m| - 1 {
      CompactSome(guarded, m, NextFree(m, 0));
    }
  }

  lemma PassAsStep(guarded: bool, c: seq<Block>)
    requires c != [] && (|c| == 1 ==> c[0].free)
    ensures var k := NextFree(c, 0);
            PassAs(guarded, c) == if k == -1 || k == |c| - 1 then c else CompactAs(guarded, c, k)
  {
    hide Compact;
    hide GuardedCompact;
  }

  /** Then every free of a live block of a sound chain keeps it sound and releases that block alone. */
  lemma GuardedFreeKeeps(c: seq<Block>, k: nat)
    requires Sound(c) && k < |c| && !c[k].free
    ensures var d := GuardedFree(c, k);
            && Len(d) == Len(c) && d != [] && Sound(d)
            && Live(d, 0) == Live(c, 0) - {(Addr(c, k), c[k].size)}
  {
    var m := c[k := Block(c[k].size, true)];
    MarkFree(c, k);
    GuardedPassMeaning(m);
    MergeRunsKeeps(m, 0);
  }

  /** A free is right on a sound chain exactly with the guard, or for the block before the tail. */
  lemma FreeAsExact(guarded: bool, c: seq<Block>, k: nat)
    requires Sound(c) && k < |c| && !c[k].free
    ensures var d := FreeAs(guarded, c, k);
            Sound(d) && Live(d, 0) == Live(c, 0) - {(Addr(c, k), c[k].size)} <==> guarded || k == |c| - 2
  {
    hide Free;
    hide GuardedFree;
    hide Live;
    hide Sound;
    FreeExact(c, k);
    GuardedFreeKeeps(c, k);
  }
}
