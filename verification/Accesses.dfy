/**
 Which accesses each routine of `memoria/main_memory.c` makes, in order, as a function of the chain
 and the request alone: the lists that the methods of module `Muse` are proved to play, branch by
 branch as the code takes them.
 */
module Accesses {
  import opened Bytes
  import opened Sizes
  import opened Chain
  import opened Layout
  import opened Headers
  import opened Traces
  import H = Heap

  /** `buscar_metadata_por_direccion` */
  function Read(ps: nat, s: nat, a: nat): (l: seq<Access>)
    requires ps > 0
  {
    var p := PageOf(a, ps);
    if Straddles(ps, a) then [Touch(s, p), Touch(s, p + 1)] else [Touch(s, p)]
  }

  /** `ultima_metadata_segmento`, from block `i` on. */
  function Walk(ps: nat, s: nat, c: seq<Block>, i: nat): (l: seq<Access>)
    requires ps > 0 && i < |c|
    decreases |c| - i
  {
    Read(ps, s, Addr(c, i)) + if i == |c| - 1 then [] else Walk(ps, s, c, i + 1)
  }

  /** `proxima_metadata_libre_con_size`, from block `i` on. */
  function Search(ps: nat, s: nat, c: seq<Block>, i: nat, size: nat): (l: seq<Access>)
    requires ps > 0 && i < |c|
    decreases |c| - i
  {
    var last := |c| - 1;
    (Read(ps, s, Addr(c, i)) + Walk(ps, s, c, 0)) +
    if i == last then []
    else if i + 1 == last then Read(ps, s, Addr(c, last))
    else if c[i].free && c[i].size >= size then []
    else Search(ps, s, c, i + 1, size)
  }

  /** What follows the look at block `i` and at the last one. */
  function SearchOn(ps: nat, s: nat, c: seq<Block>, i: nat, size: nat): (l: seq<Access>)
    requires ps > 0 && i < |c|
  {
    if i == |c| - 1 then []
    else if i + 1 == |c| - 1 then Read(ps, s, Addr(c, i + 1))
    else if c[i].free && c[i].size >= size then []
    else Search(ps, s, c, i + 1, size)
  }

  lemma SearchIs(ps: nat, s: nat, c: seq<Block>, i: nat, size: nat)
    requires ps > 0 && i < |c|
    ensures Search(ps, s, c, i, size) == (Read(ps, s, Addr(c, i)) + Walk(ps, s, c, 0)) + SearchOn(ps, s, c, i, size)
  {
  }

  /** `proxima_metadata_libre`, from block `i` on. */
  function Seek(ps: nat, s: nat, c: seq<Block>, i: nat): (l: seq<Access>)
    requires ps > 0 && i < |c| && (i == |c| - 1 ==> c[i].free)
    decreases |c| - i
  {
    (Read(ps, s, Addr(c, i)) + Walk(ps, s, c, 0)) +
    if i + 1 == |c| - 1 then Read(ps, s, Addr(c, i + 1))
    else if c[i].free then []
    else Seek(ps, s, c, i + 1)
  }

  function SeekOn(ps: nat, s: nat, c: seq<Block>, i: nat): (l: seq<Access>)
    requires ps > 0 && i < |c| && (i == |c| - 1 ==> c[i].free)
  {
    if i + 1 == |c| - 1 then Read(ps, s, Addr(c, i + 1))
    else if c[i].free then []
    else Seek(ps, s, c, i + 1)
  }

  lemma SeekIs(ps: nat, s: nat, c: seq<Block>, i: nat)
    requires ps > 0 && i < |c| && (i == |c| - 1 ==> c[i].free)
    ensures Seek(ps, s, c, i) == (Read(ps, s, Addr(c, i)) + Walk(ps, s, c, 0)) + SeekOn(ps, s, c, i)
  {
  }

  /** The two writes that merge block `i + 1` into block `i`. */
  function Fuse(s: nat, c: seq<Block>, i: nat): (l: seq<Access>)
    requires i + 1 < |c|
  {
    [Put(s, Addr(c, i), Join(c[i], c[i + 1]))] + [Put(s, Addr(c, i + 1), Block(c[i + 1].size, true))]
  }

  /** What `compactar_en_segmento` reads first. */
  function Around(ps: nat, s: nat, c: seq<Block>, i: nat): (l: seq<Access>)
    requires ps > 0 && i + 1 < |c|
  {
    (Read(ps, s, Addr(c, i)) + Walk(ps, s, c, 0)) + Read(ps, s, Addr(c, i + 1))
  }

  /** `compactar_en_segmento`, standing on block `i`. */
  function Squeeze(ps: nat, s: nat, guarded: bool, c: seq<Block>, i: nat): (l: seq<Access>)
    requires ps > 0 && i + 1 < |c|
    decreases |c| - i
  {
    Around(ps, s, c, i) +
    if i + 1 == |c| - 1 then
      if Absorbs(guarded, c, i) then Fuse(s, c, i) else []
    else if Absorbs(guarded, c, i) then Fuse(s, c, i) + Squeeze(ps, s, guarded, Merge(c, i), i)
    else
      var k := NextFree(c, i + 1);
      Seek(ps, s, c, i + 1) + if k == -1 then [] else Read(ps, s, Addr(c, k)) + Squeeze(ps, s, guarded, c, k)
  }

  function SqueezeOn(ps: nat, s: nat, guarded: bool, c: seq<Block>, i: nat): (l: seq<Access>)
    requires ps > 0 && i + 1 < |c|
  {
    if i + 1 == |c| - 1 then
      if Absorbs(guarded, c, i) then Fuse(s, c, i) else []
    else if Absorbs(guarded, c, i) then Fuse(s, c, i) + Squeeze(ps, s, guarded, Merge(c, i), i)
    else Seek(ps, s, c, i + 1) + SqueezeFrom(ps, s, guarded, c, NextFree(c, i + 1))
  }

  function SqueezeFrom(ps: nat, s: nat, guarded: bool, c: seq<Block>, k: int): (l: seq<Access>)
    requires ps > 0 && -1 <= k < |c| - 1
  {
    if k == -1 then [] else Read(ps, s, Addr(c, k)) + Squeeze(ps, s, guarded, c, k)
  }

  lemma SqueezeIs(ps: nat, s: nat, guarded: bool, c: seq<Block>, i: nat)
    requires ps > 0 && i + 1 < |c|
    ensures Squeeze(ps, s, guarded, c, i) == Around(ps, s, c, i) + SqueezeOn(ps, s, guarded, c, i)
  {
  }

  /** `compactar_espacios_libres` */
  function Pass(ps: nat, s: nat, guarded: bool, c: seq<Block>): (l: seq<Access>)
    requires ps > 0 && c != [] && (|c| == 1 ==> c[0].free)
  {
    Walk(ps, s, c, 0) + (Seek(ps, s, c, 0) + PassOn(ps, s, guarded, c, NextFree(c, 0)))
  }

  function PassOn(ps: nat, s: nat, guarded: bool, c: seq<Block>, k: int): (l: seq<Access>)
    requires ps > 0 && -1 <= k < |c|
  {
    if k == -1 then []
    else Read(ps, s, Addr(c, k)) + if k == |c| - 1 then [] else Squeeze(ps, s, guarded, c, k)
  }

  /** `listar_metadatas`, from block `i` on: it logs the headers, and loads their pages for it. */
  function Listing(ps: nat, s: nat, c: seq<Block>, i: nat): (l: seq<Access>)
    requires ps > 0 && i < |c|
    decreases |c| - i
  {
    (Read(ps, s, Addr(c, i)) + Walk(ps, s, c, 0)) + ListingOn(ps, s, c, i)
  }

  function ListingOn(ps: nat, s: nat, c: seq<Block>, i: nat): (l: seq<Access>)
    requires ps > 0 && i < |c|
    decreases |c| - i, 0
  {
    if i == |c| - 1 then []
    else if i + 1 == |c| - 1 then Read(ps, s, Addr(c, i + 1))
    else Listing(ps, s, c, i + 1)
  }

  /** `memory_free` of block `k`. */
  function Release(ps: nat, s: nat, guarded: bool, c: seq<Block>, k: nat): (l: seq<Access>)
    requires ps > 0 && k < |c|
  {
    var m := c[k := Block(c[k].size, true)];
    FreeSome(guarded, c, k);
    Read(ps, s, Addr(c, k)) +
    ([Put(s, Addr(c, k), Block(c[k].size, true))] +
     (Pass(ps, s, guarded, m) + Listing(ps, s, FreeAs(guarded, c, k), 0)))
  }

  /** The split of block `f`: two writes and the reads between them. */
  function Cut(ps: nat, s: nat, c: seq<Block>, f: nat, size: nat): (l: seq<Access>)
    requires ps > 0 && f < |c| && c[f].size >= size + HEADER
  {
    var a := Addr(c, f);
    var next := a + HEADER + size;
    (Read(ps, s, a) + [Put(s, a, Block(size, false))]) +
    ((Read(ps, s, a) + Read(ps, s, next)) + [Put(s, next, Block(c[f].size - size - HEADER, true))])
  }

  /** The branch of `memory_malloc` that found room. */
  function Occupy(ps: nat, s: nat, c: seq<Block>, size: nat): (l: seq<Access>)
    requires ps > 0 && c != [] && FirstFit(c, 0, size + HEADER) >= 0
  {
    var f := FirstFit(c, 0, size + HEADER);
    var d := Split(c, f, size);
    Search(ps, s, c, 0, size + HEADER) + (Cut(ps, s, c, f, size) +
      (Walk(ps, s, d, 0) + Read(ps, s, Addr(d, |d| - 1))))
  }

  /** `segment_with_free_space` */
  function Look(ps: nat, s: nat, c: seq<Block>, total: nat): (l: seq<Access>)
    requires ps > 0 && c != []
  {
    var f := FirstFit(c, 0, total);
    Search(ps, s, c, 0, total) + if f >= 0 then Read(ps, s, Addr(c, f)) else []
  }

  function NewPages(s: nat, k: nat): (l: seq<Access>)
    ensures |l| == k && forall x | x in l :: x == NewPage(s)
  {
    seq(k, _ => NewPage(s))
  }

  /** The last header rewritten, then the pages it counts. */
  function Lengthen(ps: nat, s: nat, c: seq<Block>, k: nat): (l: seq<Access>)
    requires ps > 0 && c != []
  {
    var a := Addr(c, |c| - 1);
    [Put(s, a, Block(PageStart(k, ps) + c[|c| - 1].size, true))] +
    (Read(ps, s, a) + (NewPages(s, k) + Read(ps, s, a)))
  }

  /** The branch of `memory_malloc` that lengthens the segment. */
  function Enlarge(ps: nat, s: nat, c: seq<Block>, k: nat): (l: seq<Access>)
    requires ps > 0 && c != []
  {
    (Walk(ps, s, c, 0) + Read(ps, s, Addr(c, |c| - 1))) + Lengthen(ps, s, c, k)
  }

  /** The branch of `memory_malloc` that makes a first segment. */
  function Begin(ps: nat, n: nat, k: nat): (l: seq<Access>)
    requires ps > 0 && PageStart(k, ps) >= HEADER
  {
    [NewTable] + (NewPages(n, k) + ([Put(n, 0, Block(PageStart(k, ps) - HEADER, true))] + Read(ps, n, 0)))
  }

  /** `memory_malloc`, its retry included. */
  function Request(ps: nat, h: H.System, pid: nat, size: int): (l: seq<Access>)
    requires ps > 0 && H.Ordered(h)
    decreases if size > 0 && H.Served(h, pid, size + HEADER) then 0 else 1
  {
    if size <= 0 || size + HEADER > PageStart(h.avail, ps) then []
    else
      var i := H.IndexOf(h.pids, pid);
      var total := size + HEADER;
      if i == -1 then
        var k := Pages(size + 2 * HEADER, ps);
        if k > h.avail then []
        else
          H.CreatedServes(h, pid, ps, k, size);
          Begin(ps, |h.pids|, k) + Request(ps, H.Created(h, pid, ps, k), pid, size)
      else
        var c := h.chains[i];
        if FirstFit(c, 0, total) >= 0 then
          Look(ps, i, c, total) + (Look(ps, i, c, total) + Occupy(ps, i, c, size))
        else if c[|c| - 1].size >= total then []
        else
          var k := Pages(total - c[|c| - 1].size, ps);
          PagesLeast(total - c[|c| - 1].size, h.avail, ps);
          H.GrownServes(h, pid, i, ps, k, total);
          Look(ps, i, c, total) + (Enlarge(ps, i, c, k) + Request(ps, H.Grown(h, i, ps, k), pid, size))
  }

  // ----- `memory_malloc`, branch by branch -----

  lemma Idle(ps: nat, h: H.System, pid: nat, size: int)
    requires ps > 0 && H.Ordered(h) && (size <= 0 || size + HEADER > PageStart(h.avail, ps))
    ensures Request(ps, h, pid, size) == []
    ensures H.Malloc(ps, h, pid, size) == (h, if size <= 0 then H.Null else H.Refused)
  {
  }

  lemma Grants(ps: nat, h: H.System, pid: nat, size: int, i: nat)
    requires ps > 0 && H.Ordered(h) && 0 < size && size + HEADER <= PageStart(h.avail, ps)
    requires i == H.IndexOf(h.pids, pid) && FirstFit(h.chains[i], 0, size + HEADER) >= 0
    ensures var c := h.chains[i]; var f := FirstFit(c, 0, size + HEADER); var l := Look(ps, i, c, size + HEADER);
            && H.Malloc(ps, h, pid, size)
                 == (h.(chains := h.chains[i := Split(c, f, size)]), H.At(Addr(c, f) + HEADER))
            && Request(ps, h, pid, size) == l + (l + Occupy(ps, i, c, size))
  {
  }

  /** The request passes the guard and is not met where the heap stands. */
  predicate Lacks(ps: nat, h: H.System, pid: nat, size: int)
    requires ps > 0 && H.Ordered(h)
  {
    0 < size && size + HEADER <= PageStart(h.avail, ps) && !H.Served(h, pid, size + HEADER)
  }

  /** And there is no going on: too few pages for a first segment, or a last block that should have served. */
  predicate Stuck(ps: nat, h: H.System, pid: nat, size: int)
    requires ps > 0 && H.Ordered(h) && Lacks(ps, h, pid, size)
  {
    var i := H.IndexOf(h.pids, pid);
    if i == -1 then Pages(size + 2 * HEADER, ps) > h.avail else h.chains[i][|h.chains[i]| - 1].size >= size + HEADER
  }

  /** The heap with the pages the request asks for. */
  function Prepared(ps: nat, h: H.System, pid: nat, size: int): (g: H.System)
    requires ps > 0 && H.Ordered(h) && Lacks(ps, h, pid, size) && !Stuck(ps, h, pid, size)
    ensures H.Ordered(g) && H.Served(g, pid, size + HEADER)
  {
    var i, total := H.IndexOf(h.pids, pid), size + HEADER;
    if i == -1 then
      var k := Pages(size + 2 * HEADER, ps);
      H.CreatedServes(h, pid, ps, k, size);
      H.Created(h, pid, ps, k)
    else
      var last := h.chains[i][|h.chains[i]| - 1].size;
      var k := Pages(total - last, ps);
      PagesLeast(total - last, h.avail, ps);
      H.GrownServes(h, pid, i, ps, k, total);
      H.Grown(h, i, ps, k)
  }

  function Preparation(ps: nat, h: H.System, pid: nat, size: int): (l: seq<Access>)
    requires ps > 0 && H.Ordered(h) && Lacks(ps, h, pid, size) && !Stuck(ps, h, pid, size)
  {
    var i, total := H.IndexOf(h.pids, pid), size + HEADER;
    if i == -1 then Begin(ps, |h.pids|, Pages(size + 2 * HEADER, ps))
    else Enlarge(ps, i, h.chains[i], Pages(total - h.chains[i][|h.chains[i]| - 1].size, ps))
  }

  /** `segment_with_free_space`, which has nothing to look at for a new program. */
  function LookFor(ps: nat, h: H.System, pid: nat, total: nat): (l: seq<Access>)
    requires ps > 0 && H.Ordered(h)
  {
    var i := H.IndexOf(h.pids, pid);
    if i == -1 then [] else Look(ps, i, h.chains[i], total)
  }

  lemma Stops(ps: nat, h: H.System, pid: nat, size: int)
    requires ps > 0 && H.Ordered(h) && Lacks(ps, h, pid, size) && Stuck(ps, h, pid, size)
    ensures H.Malloc(ps, h, pid, size) == (h, H.Overrun)
  {
  }

  lemma Prepares(ps: nat, h: H.System, pid: nat, size: int)
    requires ps > 0 && H.Ordered(h) && Lacks(ps, h, pid, size) && !Stuck(ps, h, pid, size)
    ensures H.Malloc(ps, h, pid, size) == H.Malloc(ps, Prepared(ps, h, pid, size), pid, size)
    ensures Request(ps, h, pid, size) == LookFor(ps, h, pid, size + HEADER)
      + (Preparation(ps, h, pid, size) + Request(ps, Prepared(ps, h, pid, size), pid, size))
  {
    hide Look;
    hide Enlarge;
    hide Begin;
    var i, total := H.IndexOf(h.pids, pid), size + HEADER;
    if i == -1 {
      var rest := Preparation(ps, h, pid, size) + Request(ps, Prepared(ps, h, pid, size), pid, size);
      assert [] + rest == rest;
    } else {
      var last := h.chains[i][|h.chains[i]| - 1].size;
      PagesLeast(total - last, h.avail, ps);
      H.GrownServes(h, pid, i, ps, Pages(total - last, ps), total);
    }
  }
}
