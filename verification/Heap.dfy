/**
 `memory_malloc` and `memory_free` over all programs, with pages counted but not laid out:
 the heap a client of the server sees.
 */
module Heap {
  import opened Chain
  import opened Sizes

  /** One chain per program, in the order of `program_list`; `avail` is free frames plus free slots. */
  datatype System = System(pids: seq<nat>, chains: seq<seq<Block>>, avail: nat)

  /**
   Null and Refused are the 0 and -1 of `memory_malloc`. Overrun is where it goes on and the model
   stops. Either a first segment gets more pages than remain, and two of them end up on one frame;
   or the last block, not free, is long enough for the request, and the source adds `ceil` of a
   negative number of pages: none, but the last header is rewritten that many pages shorter and
   the headers no longer tile the segment.
   */
  datatype Reply = Null | Refused | At(addr: nat) | Overrun

  /** `search_program` */
  function IndexOf(pids: seq<nat>, pid: nat): (i: int)
    ensures i == -1 ==> pid !in pids
    ensures i != -1 ==> 0 <= i < |pids| && pids[i] == pid
  {
    if pids == [] then -1
    else if pids[0] == pid then 0
    else var i := IndexOf(pids[1..], pid); if i == -1 then -1 else i + 1
  }

  ghost predicate Ordered(h: System)
  {
    && |h.pids| == |h.chains|
    && (forall i | 0 <= i < |h.chains| :: h.chains[i] != [])
    && forall i, j | 0 <= i < j < |h.pids| :: h.pids[i] != h.pids[j]
  }

  /** The request is met without a new page. */
  predicate Served(h: System, pid: nat, total: nat)
    requires |h.pids| == |h.chains| && forall i | 0 <= i < |h.chains| :: h.chains[i] != []
  {
    var i := IndexOf(h.pids, pid);
    i != -1 && FirstFit(h.chains[i], 0, total) >= 0
  }

  function Created(h: System, pid: nat, ps: nat, k: nat): (g: System)
    requires k <= h.avail && PageStart(k, ps) >= HEADER
  {
    System(h.pids + [pid], h.chains + [[Block(PageStart(k, ps) - HEADER, true)]], h.avail - k)
  }

  function Grown(h: System, i: nat, ps: nat, k: nat): (g: System)
    requires i < |h.chains| && h.chains[i] != [] && k <= h.avail
  {
    h.(chains := h.chains[i := Grow(h.chains[i], PageStart(k, ps))], avail := h.avail - k)
  }

  /** `memory_malloc`, its retry after growing or creating included. */
  function Malloc(ps: nat, h: System, pid: nat, size: int): (r: (System, Reply))
    requires ps > 0 && Ordered(h)
    decreases if size > 0 && Served(h, pid, size + HEADER) then 0 else 1
  {
    if size <= 0 then (h, Null)
    else if size + HEADER > PageStart(h.avail, ps) then (h, Refused)
    else
      var i := IndexOf(h.pids, pid);
      var total := size + HEADER;
      if i == -1 then
        var k := Pages(size + 2 * HEADER, ps);
        if k > h.avail then (h, Overrun)
        else
          CreatedServes(h, pid, ps, k, size);
          Malloc(ps, Created(h, pid, ps, k), pid, size)
      else
        var c := h.chains[i];
        var f := FirstFit(c, 0, total);
        if f >= 0 then (h.(chains := h.chains[i := Split(c, f, size)]), At(Addr(c, f) + HEADER))
        else if c[|c| - 1].size >= total then (h, Overrun)
        else
          var k := Pages(total - c[|c| - 1].size, ps);
          PagesLeast(total - c[|c| - 1].size, h.avail, ps);
          GrownServes(h, pid, i, ps, k, total);
          Malloc(ps, Grown(h, i, ps, k), pid, size)
  }

  lemma CreatedServes(h: System, pid: nat, ps: nat, k: nat, size: int)
    requires Ordered(h) && IndexOf(h.pids, pid) == -1 && k <= h.avail && PageStart(k, ps) >= size + 2 * HEADER
    requires size > 0
    ensures var g := Created(h, pid, ps, k); Ordered(g) && Served(g, pid, size + HEADER)
  {
    var g := Created(h, pid, ps, k);
    assert g.pids[|h.pids|] == pid;
    assert IndexOf(g.pids, pid) == |h.pids|;
  }

  lemma GrownServes(h: System, pid: nat, i: nat, ps: nat, k: nat, total: nat)
    requires Ordered(h) && i == IndexOf(h.pids, pid) && k <= h.avail
    requires var c := h.chains[i]; c[|c| - 1].size + PageStart(k, ps) >= total
    ensures var g := Grown(h, i, ps, k); Ordered(g) && Served(g, pid, total)
  {
    var c := h.chains[i];
    GrownFits(Grow(c, PageStart(k, ps)), 0, total);
  }

  // ----- what the client is promised -----

  ghost predicate Healthy(h: System)
  {
    Ordered(h) && forall i | 0 <= i < |h.chains| :: Sound(h.chains[i])
  }

  /** Bytes in all segments. */
  function Bytes(chains: seq<seq<Block>>): (n: nat)
  {
    if chains == [] then 0 else Len(chains[|chains| - 1]) + Bytes(chains[..|chains| - 1])
  }

  lemma {:induction false} BytesUpdate(cs: seq<seq<Block>>, i: nat, c: seq<Block>)
    requires i < |cs|
    ensures Bytes(cs[i := c]) == Bytes(cs) - Len(cs[i]) + Len(c)
  {
    var n := |cs| - 1;
    if i < n {
      BytesUpdate(cs[..n], i, c);
      assert cs[i := c][..n] == cs[..n][i := c];
    } else {
      assert cs[i := c][..n] == cs[..n];
    }
  }

  function LiveOf(h: System, pid: nat): (s: set<(nat, nat)>)
    requires |h.pids| == |h.chains|
  {
    var i := IndexOf(h.pids, pid);
    if i == -1 then {} else Live(h.chains[i], 0)
  }

  lemma IndexUnique(pids: seq<nat>, i: nat)
    requires i < |pids| && forall j, k | 0 <= j < k < |pids| :: pids[j] != pids[k]
    ensures IndexOf(pids, pids[i]) == i
  {
  }

  /** Replacing one program's chain. */
  lemma WithChain(h: System, i: nat, c: seq<Block>, avail: nat, p: nat)
    requires Healthy(h) && i < |h.chains| && Sound(c)
    ensures var g := System(h.pids, h.chains[i := c], avail);
            && Healthy(g) && Bytes(g.chains) == Bytes(h.chains) - Len(h.chains[i]) + Len(c)
            && LiveOf(g, p) == if p == h.pids[i] then Live(c, 0) else LiveOf(h, p)
  {
    BytesUpdate(h.chains, i, c);
    IndexUnique(h.pids, i);
  }

  /** `g` with reply `r` is what a client may see of `h` after asking for `size` bytes. */
  ghost predicate Accounts(ps: nat, h: System, pid: nat, size: int, g: System, r: Reply, p: nat)
    requires |h.pids| == |h.chains| && |g.pids| == |g.chains|
  {
    && Bytes(g.chains) + PageStart(g.avail, ps) == Bytes(h.chains) + PageStart(h.avail, ps)
    && (r.At? ==> size >= 0 && r.addr >= HEADER && (r.addr - HEADER, size) !in LiveOf(h, pid))
    && LiveOf(g, p) == LiveOf(h, p) + if r.At? && p == pid then {(r.addr - HEADER, size)} else {}
  }

  /**
   On sound chains, short of an overrun: every chain stays sound, bytes of segments and of free
   pages add up as before, the allocation granted is new, and every program keeps all the others.
   */
  lemma {:induction false} MallocKeeps(ps: nat, h: System, pid: nat, size: int, p: nat)
    requires ps > 0 && Healthy(h) && Malloc(ps, h, pid, size).1 != Overrun
    ensures Healthy(Malloc(ps, h, pid, size).0)
    ensures Accounts(ps, h, pid, size, Malloc(ps, h, pid, size).0, Malloc(ps, h, pid, size).1, p)
    decreases if size > 0 && Served(h, pid, size + HEADER) then 0 else 1, 1
  {
    hide FirstFit;
    hide LiveOf;
    hide Healthy;
    hide PageStart;
    hide Bytes;
    HealthyOrdered(h);
    if 0 < size && size + HEADER <= PageStart(h.avail, ps) {
      var i := IndexOf(h.pids, pid);
      var total := size + HEADER;
      if i == -1 {
        var k := Pages(size + 2 * HEADER, ps);
        if k <= h.avail {
          CreateKeeps(ps, h, pid, k, p);
          CreateKeeps(ps, h, pid, k, pid);
          CreatedServes(h, pid, ps, k, size);
          MallocKeeps(ps, Created(h, pid, ps, k), pid, size, p);
        }
      } else {
        var c := h.chains[i];
        var f := FirstFit(c, 0, total);
        if f >= 0 {
          GrantKeeps(ps, h, pid, size, p);
        } else if c[|c| - 1].size < total {
          var k := Pages(total - c[|c| - 1].size, ps);
          PagesLeast(total - c[|c| - 1].size, h.avail, ps);
          GrowCase(ps, h, i, k, p);
          GrowCase(ps, h, i, k, pid);
          GrownServes(h, pid, i, ps, k, total);
          MallocKeeps(ps, Grown(h, i, ps, k), pid, size, p);
        }
      }
    }
  }

  lemma HealthyOrdered(h: System)
    requires Healthy(h)
    ensures Ordered(h)
  {
  }

  lemma GrantKeeps(ps: nat, h: System, pid: nat, size: int, p: nat)
    requires ps > 0 && Healthy(h) && 0 < size && size + HEADER <= PageStart(h.avail, ps)
    requires Served(h, pid, size + HEADER)
    ensures Healthy(Malloc(ps, h, pid, size).0)
    ensures Accounts(ps, h, pid, size, Malloc(ps, h, pid, size).0, Malloc(ps, h, pid, size).1, p)
  {
    var i := IndexOf(h.pids, pid);
    var c := h.chains[i];
    var f := FirstFit(c, 0, size + HEADER);
    FirstFitLowest(c, 0, size + HEADER);
    SplitKeeps(c, f, size);
    WithChain(h, i, Split(c, f, size), h.avail, p);
  }

  lemma CreateKeeps(ps: nat, h: System, pid: nat, k: nat, p: nat)
    requires Healthy(h) && IndexOf(h.pids, pid) == -1 && k <= h.avail && PageStart(k, ps) >= HEADER
    ensures var g := Created(h, pid, ps, k);
            && Healthy(g) && LiveOf(g, p) == LiveOf(h, p)
            && Bytes(g.chains) + PageStart(g.avail, ps) == Bytes(h.chains) + PageStart(h.avail, ps)
  {
    var g := Created(h, pid, ps, k);
    var n := |h.chains|;
    One(g.chains[n][0], 0);
    assert g.chains[..n] == h.chains;
    PageSum(g.avail, k, ps);
    IndexUnique(g.pids, n);
    if p != pid && IndexOf(h.pids, p) != -1 {
      IndexUnique(g.pids, IndexOf(h.pids, p));
    }
  }

  lemma GrowCase(ps: nat, h: System, i: nat, k: nat, p: nat)
    requires Healthy(h) && i < |h.chains| && k <= h.avail
    ensures var g := Grown(h, i, ps, k);
            && Healthy(g) && LiveOf(g, p) == LiveOf(h, p)
            && Bytes(g.chains) + PageStart(g.avail, ps) == Bytes(h.chains) + PageStart(h.avail, ps)
  {
    var g := Grown(h, i, ps, k);
    GrowKeeps(h.chains[i], PageStart(k, ps));
    WithChain(h, i, g.chains[i], g.avail, p);
    IndexUnique(h.pids, i);
    PageSum(g.avail, k, ps);
  }

  /** Pages a request would add. */
  function Extra(ps: nat, h: System, pid: nat, size: int): (k: nat)
    requires ps > 0 && Ordered(h) && size > 0
  {
    var i := IndexOf(h.pids, pid);
    if i == -1 then Pages(size + 2 * HEADER, ps)
    else if Served(h, pid, size + HEADER) then 0
    else
      var last := h.chains[i][|h.chains[i]| - 1].size;
      if last >= size + HEADER then 0 else Pages(size + HEADER - last, ps)
  }

  /**
   When a request is granted: the retry checks its guard again, after the new pages are gone, so
   what remains free must still cover the whole request.
   */
  lemma MallocGranted(ps: nat, h: System, pid: nat, size: int)
    requires ps > 0 && Healthy(h)
    ensures Malloc(ps, h, pid, size).1.At? <==>
              size > 0 && Extra(ps, h, pid, size) <= h.avail
              && size + HEADER <= PageStart(h.avail - Extra(ps, h, pid, size), ps)
  {
    hide Healthy;
    HealthyOrdered(h);
    if 0 < size {
      var k := Extra(ps, h, pid, size);
      if k <= h.avail {
        PageSum(h.avail - k, k, ps);
      }
      if size + HEADER <= PageStart(h.avail, ps) {
        if IndexOf(h.pids, pid) == -1 {
          if k <= h.avail {
            CreatedServes(h, pid, ps, k, size);
            ServedGranted(ps, Created(h, pid, ps, k), pid, size);
          }
        } else if !Served(h, pid, size + HEADER) {
          GrowGranted(ps, h, pid, size);
        }
      }
    }
  }

  lemma GrowGranted(ps: nat, h: System, pid: nat, size: int)
    requires ps > 0 && Healthy(h) && 0 < size && size + HEADER <= PageStart(h.avail, ps)
    requires IndexOf(h.pids, pid) != -1 && !Served(h, pid, size + HEADER)
    ensures Extra(ps, h, pid, size) <= h.avail
    ensures Malloc(ps, h, pid, size).1.At? <==> size + HEADER <= PageStart(h.avail - Extra(ps, h, pid, size), ps)
  {
    hide PageStart;
    var i := IndexOf(h.pids, pid);
    var c := h.chains[i];
    var k := Extra(ps, h, pid, size);
    FirstFitLowest(c, 0, size + HEADER);
    PagesLeast(size + HEADER - c[|c| - 1].size, h.avail, ps);
    GrownServes(h, pid, i, ps, k, size + HEADER);
    ServedGranted(ps, Grown(h, i, ps, k), pid, size);
  }

  lemma ServedGranted(ps: nat, h: System, pid: nat, size: int)
    requires ps > 0 && Ordered(h) && size > 0 && Served(h, pid, size + HEADER)
    ensures Malloc(ps, h, pid, size).1.At? <==> size + HEADER <= PageStart(h.avail, ps)
    ensures Malloc(ps, h, pid, size).1 != Overrun
  {
  }

  /** On sound chains the one way to overrun is a first segment that needs more pages than there are. */
  lemma OverrunExact(ps: nat, h: System, pid: nat, size: int)
    requires ps > 0 && Healthy(h)
    ensures Malloc(ps, h, pid, size).1 == Overrun <==>
              size > 0 && IndexOf(h.pids, pid) == -1 && size + HEADER <= PageStart(h.avail, ps)
              && Pages(size + 2 * HEADER, ps) > h.avail
  {
    hide Healthy;
    HealthyOrdered(h);
    if 0 < size && size + HEADER <= PageStart(h.avail, ps) {
      var i := IndexOf(h.pids, pid);
      if i == -1 {
        var k := Pages(size + 2 * HEADER, ps);
        if k <= h.avail {
          CreatedServes(h, pid, ps, k, size);
          ServedGranted(ps, Created(h, pid, ps, k), pid, size);
        }
      } else if !Served(h, pid, size + HEADER) {
        GrowNoOverrun(ps, h, pid, size);
      }
    }
  }

  lemma GrowNoOverrun(ps: nat, h: System, pid: nat, size: int)
    requires ps > 0 && Healthy(h) && 0 < size && size + HEADER <= PageStart(h.avail, ps)
    requires IndexOf(h.pids, pid) != -1 && !Served(h, pid, size + HEADER)
    ensures Malloc(ps, h, pid, size).1 != Overrun
  {
    hide PageStart;
    var i := IndexOf(h.pids, pid);
    var c := h.chains[i];
    FirstFitLowest(c, 0, size + HEADER);
    var k := Pages(size + HEADER - c[|c| - 1].size, ps);
    PagesLeast(size + HEADER - c[|c| - 1].size, h.avail, ps);
    GrownServes(h, pid, i, ps, k, size + HEADER);
    ServedGranted(ps, Grown(h, i, ps, k), pid, size);
  }

  /** Chain `d` is `c` with an allocation of `size` bytes at the head of its first free block that is long enough. */
  ghost predicate Lands(c: seq<Block>, d: seq<Block>, size: nat, addr: nat)
  {
    exists f: nat ::
      && f < |c| && c[f].free && c[f].size >= size + 5
      && (forall j | 0 <= j < f :: !c[j].free || c[j].size < size + 5)
      && d == c[..f] + [Block(size, false), Block(c[f].size - size - 5, true)] + c[f + 1..]
      && addr == Len(c[..f]) + 5
  }

  /** As few pages as hold `need` bytes. */
  predicate Fewest(k: nat, need: nat, ps: nat)
  {
    need <= k * ps && (k == 0 || (k - 1) * ps < need)
  }

  /**
   The heap the request is met in: as it is where a free block is long enough; with a first segment of as
   many pages as hold the bytes and two headers; or with the last block longer by the pages it lacks.
   */
  ghost predicate Readied(ps: nat, h: System, pid: nat, size: nat, g: System)
    requires |h.pids| == |h.chains|
  {
    var i := IndexOf(h.pids, pid);
    if i == -1 then
      exists k: nat :: Fewest(k, size + 10, ps) && k <= h.avail && 5 <= k * ps
        && g == System(h.pids + [pid], h.chains + [[Block(k * ps - 5, true)]], h.avail - k)
    else
      var c := h.chains[i];
      if exists f: nat :: f < |c| && c[f].free && c[f].size >= size + 5 then g == h
      else
        exists k: nat ::
          && c != [] && c[|c| - 1].size <= size + 5 && Fewest(k, size + 5 - c[|c| - 1].size, ps) && k <= h.avail
          && g == System(h.pids, h.chains[i := c[..|c| - 1] + [Block(c[|c| - 1].size + k * ps, true)]], h.avail - k)
  }

  /** A grant is an allocation in the program's own chain. */
  ghost predicate Granted(g: System, pid: nat, size: nat, r: (System, Reply))
  {
    exists i: nat, addr: nat, d: seq<Block> ::
      && i < |g.pids| == |g.chains| && g.pids[i] == pid && Lands(g.chains[i], d, size, addr)
      && r == (g.(chains := g.chains[i := d]), At(addr))
  }

  /** The whole of `memory_malloc` on sound chains, short of an overrun: what is answered, and what is left. */
  lemma MallocExact(ps: nat, h: System, pid: nat, size: int)
    requires ps > 0 && Healthy(h) && Malloc(ps, h, pid, size).1 != Overrun
    ensures var r := Malloc(ps, h, pid, size);
            if size <= 0 then r == (h, Null)
            else if size + 5 > h.avail * ps then r == (h, Refused)
            else exists g :: Readied(ps, h, pid, size, g)
                   && if size + 5 > g.avail * ps then r == (g, Refused) else Granted(g, pid, size, r)
  {
    hide Granted;
    hide Readied;
    hide Healthy;
    HealthyOrdered(h);
    PageStartIsProduct(h.avail, ps);
    if 0 < size && size + HEADER <= PageStart(h.avail, ps) {
      var g := ReadyFor(ps, h, pid, size);
      PageStartIsProduct(g.avail, ps);
      ServedExact(ps, g, pid, size);
    }
  }

  /** The recursion of the code ends in the heap above. */
  lemma ReadyFor(ps: nat, h: System, pid: nat, size: nat) returns (g: System)
    requires ps > 0 && Healthy(h) && 0 < size && size + HEADER <= PageStart(h.avail, ps)
    requires Malloc(ps, h, pid, size).1 != Overrun
    ensures Readied(ps, h, pid, size, g) && Ordered(g) && Served(g, pid, size + HEADER)
    ensures Sound(g.chains[IndexOf(g.pids, pid)])
    ensures Malloc(ps, h, pid, size) == Malloc(ps, g, pid, size)
  {
    hide PageStart;
    hide Sound;
    hide Readied;
    hide Malloc;
    HealthySound(h);
    if IndexOf(h.pids, pid) == -1 {
      g := ReadyFirst(ps, h, pid, size);
    } else {
      g := ReadyMore(ps, h, pid, size);
    }
  }

  lemma ReadyFirst(ps: nat, h: System, pid: nat, size: nat) returns (g: System)
    requires ps > 0 && Ordered(h) && 0 < size && size + HEADER <= PageStart(h.avail, ps)
    requires IndexOf(h.pids, pid) == -1 && Malloc(ps, h, pid, size).1 != Overrun
    ensures Readied(ps, h, pid, size, g) && Ordered(g) && Served(g, pid, size + HEADER)
    ensures Sound(g.chains[IndexOf(g.pids, pid)])
    ensures Malloc(ps, h, pid, size) == Malloc(ps, g, pid, size)
  {
    hide PageStart;
    hide Sound;
    var k := Pages(size + 2 * HEADER, ps);
    CreatedServes(h, pid, ps, k, size);
    FewestPages(size + 2 * HEADER, ps);
    g := Created(h, pid, ps, k);
    FreshSound(g.chains[|h.pids|]);
    IndexUnique(g.pids, |h.pids|);
  }

  lemma ReadyMore(ps: nat, h: System, pid: nat, size: nat) returns (g: System)
    requires ps > 0 && Ordered(h) && 0 < size && size + HEADER <= PageStart(h.avail, ps)
    requires IndexOf(h.pids, pid) != -1 && Sound(h.chains[IndexOf(h.pids, pid)])
    requires Malloc(ps, h, pid, size).1 != Overrun
    ensures Readied(ps, h, pid, size, g) && Ordered(g) && Served(g, pid, size + HEADER)
    ensures Sound(g.chains[IndexOf(g.pids, pid)])
    ensures Malloc(ps, h, pid, size) == Malloc(ps, g, pid, size)
  {
    hide PageStart;
    hide Sound;
    hide Readied;
    var i, total := IndexOf(h.pids, pid), size + HEADER;
    var c := h.chains[i];
    FirstFitLowest(c, 0, total);
    if FirstFit(c, 0, total) >= 0 {
      g := h;
      ReadiedAlready(ps, h, pid, size);
    } else {
      var k := Pages(total - c[|c| - 1].size, ps);
      PagesLeast(total - c[|c| - 1].size, h.avail, ps);
      GrownServes(h, pid, i, ps, k, total);
      GrowKeeps(c, PageStart(k, ps));
      g := Grown(h, i, ps, k);
      ReadiedLonger(ps, h, pid, size, k);
    }
  }

  lemma ReadiedAlready(ps: nat, h: System, pid: nat, size: nat)
    requires Ordered(h) && Served(h, pid, size + HEADER) && Sound(h.chains[IndexOf(h.pids, pid)])
    ensures Readied(ps, h, pid, size, h)
  {
    var c := h.chains[IndexOf(h.pids, pid)];
    FirstFitLowest(c, 0, size + HEADER);
    var f: nat := FirstFit(c, 0, size + HEADER);
    assert f < |c| && c[f].free && c[f].size >= size + 5;
  }

  lemma ReadiedLonger(ps: nat, h: System, pid: nat, size: nat, k: nat)
    requires ps > 0 && Ordered(h) && IndexOf(h.pids, pid) != -1 && k <= h.avail
    requires var c := h.chains[IndexOf(h.pids, pid)];
             && Sound(c) && FirstFit(c, 0, size + HEADER) < 0 && c[|c| - 1].size < size + HEADER
             && k == Pages(size + HEADER - c[|c| - 1].size, ps)
    ensures Readied(ps, h, pid, size, Grown(h, IndexOf(h.pids, pid), ps, k))
  {
    hide PageStart;
    var c := h.chains[IndexOf(h.pids, pid)];
    FirstFitLowest(c, 0, size + HEADER);
    FewestPages(size + HEADER - c[|c| - 1].size, ps);
    assert !exists f: nat :: f < |c| && c[f].free && c[f].size >= size + 5;
  }

  lemma HealthySound(h: System)
    requires Healthy(h)
    ensures forall i | 0 <= i < |h.chains| :: Sound(h.chains[i])
  {
  }

  lemma FreshSound(c: seq<Block>)
    requires |c| == 1 && c[0].free
    ensures Sound(c)
  {
  }

  lemma FewestPages(n: nat, ps: nat)
    requires ps > 0
    ensures Fewest(Pages(n, ps), n, ps) && PageStart(Pages(n, ps), ps) == Pages(n, ps) * ps
  {
    var k := Pages(n, ps);
    PageStartIsProduct(k, ps);
    if k > 0 {
      PageStartIsProduct(k - 1, ps);
    }
  }

  lemma ServedExact(ps: nat, g: System, pid: nat, size: nat)
    requires ps > 0 && Ordered(g) && 0 < size && Served(g, pid, size + HEADER)
    requires Sound(g.chains[IndexOf(g.pids, pid)])
    ensures if size + HEADER > PageStart(g.avail, ps) then Malloc(ps, g, pid, size) == (g, Refused)
            else Granted(g, pid, size, Malloc(ps, g, pid, size))
  {
    var i := IndexOf(g.pids, pid);
    var c := g.chains[i];
    var f := FirstFit(c, 0, size + HEADER);
    FirstFitLowest(c, 0, size + HEADER);
    if size + HEADER <= PageStart(g.avail, ps) {
      assert Lands(c, Split(c, f, size), size, Addr(c, f) + HEADER);
    }
  }

  /** One free page of 32 bytes: a new program asks for 27, the guard lets it through, and it takes two pages. */
  lemma OverrunHappens()
    ensures Healthy(System([], [], 1)) && Malloc(32, System([], [], 1), 7, 27) == (System([], [], 1), Overrun)
  {
    assert PageStart(1, 32) == 32;
    assert Pages(37, 32) == 2;
  }

  /** Two free pages and a 27-byte tail: 40 bytes are refused, although the grown tail would hold them. */
  lemma RefusedAfterGrowing()
    ensures var h := System([7], [[Block(27, true)]], 2);
            Malloc(32, h, 7, 40) == (System([7], [[Block(59, true)]], 1), Refused)
  {
    var h := System([7], [[Block(27, true)]], 2);
    assert IndexOf([7], 7) == 0;
    assert PageStart(1, 32) == 32 && PageStart(2, 32) == 64;
    assert Pages(18, 32) == 1;
    var g := Grown(h, 0, 32, 1);
    assert Grow([Block(27, true)], 32) == [Block(59, true)];
    assert g == System([7], [[Block(59, true)]], 1);
    assert Malloc(32, g, 7, 40) == (g, Refused);
  }

  // ----- whole runs -----

  datatype Event = Alloc(pid: nat, size: int) | Release(pid: nat, addr: nat)

  /** Index of the allocation whose payload starts at `addr`, or -1. */
  function BlockAt(c: seq<Block>, a: nat, addr: nat): (k: int)
    ensures -1 <= k < |c|
    ensures k >= 0 ==> !c[k].free && a + Addr(c, k) + HEADER == addr
    ensures k == -1 ==> forall j | 0 <= j < |c| && !c[j].free :: a + Addr(c, j) + HEADER != addr
  {
    if c == [] then -1
    else if !c[0].free && a + HEADER == addr then 0
    else
      var k := BlockAt(c[1..], a + HEADER + c[0].size, addr);
      if k == -1 then
        assert forall j | 0 < j < |c| :: c[j] == c[1..][j - 1] && c[..j] == [c[0]] + c[1..][..j - 1];
        -1
      else
        assert c[..k + 1] == [c[0]] + c[1..][..k];
        k + 1
  }

  /** The block an event frees, or -1. */
  function Target(h: System, e: Event): (k: int)
    requires |h.pids| == |h.chains|
    ensures k != -1 ==> e.Release? && IndexOf(h.pids, e.pid) != -1
    ensures k != -1 ==> var c := h.chains[IndexOf(h.pids, e.pid)];
              0 <= k < |c| && !c[k].free && Addr(c, k) + HEADER == e.addr
    ensures k == -1 && e.Release? && IndexOf(h.pids, e.pid) != -1 ==>
              var c := h.chains[IndexOf(h.pids, e.pid)];
              forall j | 0 <= j < |c| && !c[j].free :: Addr(c, j) + HEADER != e.addr
  {
    if e.Alloc? || IndexOf(h.pids, e.pid) == -1 then -1
    else BlockAt(h.chains[IndexOf(h.pids, e.pid)], 0, e.addr)
  }

  /** `guarded` is the compactor with its guard; the source has none. */
  function Step(ps: nat, guarded: bool, h: System, e: Event): (g: System)
    requires ps > 0 && Ordered(h)
  {
    if e.Alloc? then Malloc(ps, h, e.pid, e.size).0
    else
      var k := Target(h, e);
      if k == -1 then h
      else
        var i := IndexOf(h.pids, e.pid);
        h.(chains := h.chains[i := FreeAs(guarded, h.chains[i], k)])
  }

  /** A free of the block right before its program's tail. */
  ghost predicate TopFree(h: System, e: Event)
    requires |h.pids| == |h.chains|
  {
    Target(h, e) != -1 && Target(h, e) == |h.chains[IndexOf(h.pids, e.pid)]| - 2
  }

  /** What keeps the heap sound: no overrun, and frees of live blocks, of the last one only without the guard. */
  ghost predicate Allowed(ps: nat, guarded: bool, h: System, e: Event)
    requires ps > 0 && Ordered(h)
  {
    match e
    case Alloc(pid, size) => Malloc(ps, h, pid, size).1 != Overrun
    case Release(pid, addr) => if guarded then Target(h, e) != -1 else TopFree(h, e)
  }

  /** What a client would write down: allocations granted, minus those it has freed. */
  function Ledger(ps: nat, h: System, e: Event, p: nat, s: set<(nat, nat)>): (t: set<(nat, nat)>)
    requires ps > 0 && Ordered(h)
  {
    match e
    case Alloc(pid, size) =>
      var r := Malloc(ps, h, pid, size).1;
      if p == pid && r.At? && r.addr >= HEADER && size >= 0 then s + {(r.addr - HEADER, size)} else s
    case Release(pid, addr) =>
      if p == pid then set x | x in s && x.0 + HEADER != addr else s
  }

  /** Sound chains, no byte lost or found, and each program holds what its own events say. */
  ghost predicate Follows(ps: nat, h: System, g: System, p: nat, s: set<(nat, nat)>)
  {
    && Healthy(g) && LiveOf(g, p) == s
    && Bytes(g.chains) + PageStart(g.avail, ps) == Bytes(h.chains) + PageStart(h.avail, ps)
  }

  lemma StepKeeps(ps: nat, guarded: bool, h: System, e: Event, p: nat)
    requires ps > 0 && Healthy(h) && Allowed(ps, guarded, h, e)
    ensures Follows(ps, h, Step(ps, guarded, h, e), p, Ledger(ps, h, e, p, LiveOf(h, p)))
  {
    match e
    case Alloc(pid, size) => AllocCase(ps, guarded, h, pid, size, p);
    case Release(pid, addr) => ReleaseCase(ps, guarded, h, pid, addr, p);
  }

  lemma AllocCase(ps: nat, guarded: bool, h: System, pid: nat, size: int, p: nat)
    requires ps > 0 && Healthy(h) && Malloc(ps, h, pid, size).1 != Overrun
    ensures Follows(ps, h, Step(ps, guarded, h, Alloc(pid, size)), p, Ledger(ps, h, Alloc(pid, size), p, LiveOf(h, p)))
  {
    hide Healthy;
    hide Malloc;
    hide LiveOf;
    hide Bytes;
    hide PageStart;
    HealthyOrdered(h);
    MallocKeeps(ps, h, pid, size, p);
    HealthyOrdered(Malloc(ps, h, pid, size).0);
  }

  lemma ReleaseCase(ps: nat, guarded: bool, h: System, pid: nat, addr: nat, p: nat)
    requires ps > 0 && Healthy(h) && Allowed(ps, guarded, h, Release(pid, addr))
    ensures var e := Release(pid, addr);
            Follows(ps, h, Step(ps, guarded, h, e), p, Ledger(ps, h, e, p, LiveOf(h, p)))
  {
    hide Free;
    hide GuardedFree;
    hide Live;
    hide Sound;
    hide Bytes;
    hide PageStart;
    hide Malloc;
    var i := IndexOf(h.pids, pid);
    var c := h.chains[i];
    var k := Target(h, Release(pid, addr));
    FreeExact(c, k);
    GuardedFreeKeeps(c, k);
    WithChain(h, i, FreeAs(guarded, c, k), h.avail, p);
    FreedByAddress(c, k);
    IndexUnique(h.pids, i);
  }

  /** Freeing by address removes one allocation, since no two share an address. */
  lemma FreedByAddress(c: seq<Block>, k: nat)
    requires k < |c| && !c[k].free
    ensures Live(c, 0) - {(Addr(c, k), c[k].size)} == set x | x in Live(c, 0) && x.0 + HEADER != Addr(c, k) + HEADER
  {
    LiveAt(c, 0, k);
    forall x | x in Live(c, 0) && x.0 == Addr(c, k) ensures x == (Addr(c, k), c[k].size) {
      if x != (Addr(c, k), c[k].size) {
        LiveDisjoint(c, 0, x, (Addr(c, k), c[k].size));
      }
    }
  }

  function Run(ps: nat, guarded: bool, h: System, es: seq<Event>): (g: System)
    requires ps > 0 && Healthy(h) && Proper(ps, guarded, h, es)
    decreases |es|
  {
    if es == [] then h
    else
      StepKeeps(ps, guarded, h, es[0], 0);
      Run(ps, guarded, Step(ps, guarded, h, es[0]), es[1..])
  }

  /** Every event in the run is allowed when it comes. */
  ghost predicate Proper(ps: nat, guarded: bool, h: System, es: seq<Event>)
    requires ps > 0 && Healthy(h)
    decreases |es|
  {
    es == [] || (Allowed(ps, guarded, h, es[0])
      && (StepKeeps(ps, guarded, h, es[0], 0); Proper(ps, guarded, Step(ps, guarded, h, es[0]), es[1..])))
  }

  function Replay(ps: nat, guarded: bool, h: System, es: seq<Event>, p: nat, s: set<(nat, nat)>): (t: set<(nat, nat)>)
    requires ps > 0 && Healthy(h) && Proper(ps, guarded, h, es)
    decreases |es|
  {
    if es == [] then s
    else
      StepKeeps(ps, guarded, h, es[0], 0);
      Replay(ps, guarded, Step(ps, guarded, h, es[0]), es[1..], p, Ledger(ps, h, es[0], p, s))
  }

  /**
   Over every run of allowed events: all chains sound, bytes conserved, and each program's live
   allocations are exactly those its own events account for. With the guard every free of a live
   block is allowed; as the source stands, only that of the block before the tail.
   */
  lemma {:induction false} RunKeeps(ps: nat, guarded: bool, h: System, es: seq<Event>, p: nat)
    requires ps > 0 && Healthy(h) && Proper(ps, guarded, h, es)
    ensures Follows(ps, h, Run(ps, guarded, h, es), p, Replay(ps, guarded, h, es, p, LiveOf(h, p)))
    decreases |es|
  {
    if es != [] {
      StepKeeps(ps, guarded, h, es[0], p);
      RunKeeps(ps, guarded, Step(ps, guarded, h, es[0]), es[1..], p);
    }
  }

  /** One free of any other live block ends soundness there and then. */
  lemma OtherFreeBreaks(ps: nat, h: System, e: Event)
    requires ps > 0 && Healthy(h) && Target(h, e) != -1
    ensures Healthy(Step(ps, false, h, e)) <==> TopFree(h, e)
  {
    var i := IndexOf(h.pids, e.pid);
    FreeExact(h.chains[i], Target(h, e));
    var g := Step(ps, false, h, e);
    assert g.chains[i] == Free(h.chains[i], Target(h, e));
  }

  // ----- one address granted twice -----

  /** The server after three requests for 3 bytes from one program, with pages of 32 bytes. */
  function Thrice(): (h: System)
  {
    System([7], [[Block(3, false), Block(3, false), Block(3, false), Block(3, true)]], 3)
  }

  lemma FirstThree()
    ensures Malloc(32, System([], [], 4), 7, 3).0 == System([7], [[Block(3, false), Block(19, true)]], 3)
  {
    var h0, c := System([], [], 4), [Block(27, true)];
    assert PageStart(1, 32) == 32 && PageStart(2, 32) == 64 && PageStart(3, 32) == 96 && PageStart(4, 32) == 128;
    assert Pages(13, 32) == 1;
    var h := Created(h0, 7, 32, 1);
    assert h == System([7], [c], 3);
    assert FirstFit(c, 0, 8) == 0 && Split(c, 0, 3) == [Block(3, false), Block(19, true)];
    assert Malloc(32, h, 7, 3).0 == System([7], [[Block(3, false), Block(19, true)]], 3);
  }

  lemma NextThree()
    ensures Malloc(32, System([7], [[Block(3, false), Block(19, true)]], 3), 7, 3).0
         == System([7], [[Block(3, false), Block(3, false), Block(11, true)]], 3)
  {
    var c := [Block(3, false), Block(19, true)];
    assert PageStart(1, 32) == 32 && PageStart(2, 32) == 64 && PageStart(3, 32) == 96;
    assert FirstFit(c, 0, 8) == 1;
    assert Split(c, 1, 3) == [Block(3, false), Block(3, false), Block(11, true)];
  }

  lemma LastThree()
    ensures Malloc(32, System([7], [[Block(3, false), Block(3, false), Block(11, true)]], 3), 7, 3)
         == (Thrice(), At(21))
  {
    var c := [Block(3, false), Block(3, false), Block(11, true)];
    assert PageStart(1, 32) == 32 && PageStart(2, 32) == 64 && PageStart(3, 32) == 96;
    assert FirstFit(c, 1, 8) == 2 && FirstFit(c, 0, 8) == 2;
    assert Split(c, 2, 3) == Thrice().chains[0];
    assert [c][0 := Thrice().chains[0]] == Thrice().chains;
    assert c[..2] == [Block(3, false), Block(3, false)];
    assert Addr(c, 2) == 16;
  }

  lemma ThriceIs()
    ensures var h0 := System([], [], 4);
            var h1 := Step(32, false, h0, Alloc(7, 3));
            var h2 := Step(32, false, h1, Alloc(7, 3));
            Step(32, false, h2, Alloc(7, 3)) == Thrice() && Malloc(32, h2, 7, 3).1 == At(21)
  {
    hide Malloc;
    FirstThree();
    NextThree();
    LastThree();
  }

  /**
   The first of the three is freed, and the third, still in use, swallows the free tail. A request
   for 20 bytes then grows the segment, which marks the third block free, and is given its address.
   */
  lemma GrantedTwice()
    ensures var h4 := Step(32, false, Thrice(), Release(7, 5));
            Target(Thrice(), Release(7, 5)) == 0 && Target(Thrice(), Release(7, 21)) == 2
            && h4 == System([7], [[Block(3, true), Block(3, false), Block(11, false)]], 3)
            && Malloc(32, h4, 7, 20).1 == At(21)
  {
    var c := Thrice().chains[0];
    var m := [Block(3, true), Block(3, false), Block(3, false), Block(3, true)];
    var d := [Block(3, true), Block(3, false), Block(11, false)];
    assert c[0 := Block(3, true)] == m;
    CompactPassMeaning(m);
    assert Swallow(m) == d;
    MergeRunsFixed(d);
    var h4 := System([7], [d], 3);
    assert BlockAt(c, 0, 5) == 0;
    assert c[1..] == [Block(3, false), Block(3, false), Block(3, true)];
    assert c[1..][1..] == [Block(3, false), Block(3, true)];
    assert BlockAt(c[1..][1..], 16, 21) == 0 && BlockAt(c[1..], 8, 21) == 1 && BlockAt(c, 0, 21) == 2;
    assert PageStart(1, 32) == 32 && PageStart(2, 32) == 64 && PageStart(3, 32) == 96;
    assert Pages(14, 32) == 1;
    assert FirstFit(d, 1, 25) == -1 && FirstFit(d, 0, 25) == -1;
    var e := [Block(3, true), Block(3, false), Block(43, true)];
    assert Grow(d, 32) == e && Grown(h4, 0, 32, 1) == System([7], [e], 2);
    assert FirstFit(e, 1, 25) == 2 && FirstFit(e, 0, 25) == 2;
    assert e[..2] == [Block(3, true), Block(3, false)];
    assert Addr(e, 2) == 16;
  }

  /**
   A chain on which the last block has swallowed the tail: a request for 20 bytes finds no room, and
   the source, with 107 - 25 bytes too many, rewrites the last header to 43 and adds no page.
   */
  lemma SwallowOverruns()
    ensures var h := System([7], [[Block(3, true), Block(3, false), Block(107, false)]], 2);
            Malloc(32, h, 7, 20) == (h, Overrun)
  {
    var c := [Block(3, true), Block(3, false), Block(107, false)];
    assert PageStart(2, 32) == 64 by {
      assert PageStart(1, 32) == 32;
    }
    assert FirstFit(c, 1, 25) == -1 && FirstFit(c, 0, 25) == -1;
  }
}
