/** `leer_archivo` against what a file holds, and files built by a run of appends. */
module Reads {
  import opened Bytes
  import opened Inodes
  import opened Files

  function DiskByte(bs: seq<seq<byte>>, b: nat, x: nat): (v: byte)
  {
    if b < |bs| && x < |bs[b]| then bs[b][x] else 0
  }

  /** The byte `x` behind the start of block `b`, in whichever block that is. */
  function RawByte(bs: seq<seq<byte>>, b: nat, x: nat): (v: byte)
  {
    DiskByte(bs, b + x / BLOCK, x % BLOCK)
  }

  /** `memcpy` of `t` bytes from offset `r` of block `b`: past its end comes the next block of the disk. */
  function Raw(bs: seq<seq<byte>>, b: nat, r: nat, t: nat): (x: seq<byte>)
    ensures |x| == t && forall y | 0 <= y < t :: x[y] == RawByte(bs, b, r + y)
  {
    seq<byte>(t, y requires 0 <= y => RawByte(bs, b, r + y))
  }

  /** `t` bytes from offset `r` of data block `j` on, a block at a time; only the first starts at `r`. */
  function Gather(bs: seq<seq<byte>>, n: Node, j: nat, r: nat, t: nat): (x: seq<byte>)
    ensures |x| == t
    decreases t
  {
    if t < BLOCK then Raw(bs, Entry(bs, n, j), r, t)
    else Raw(bs, Entry(bs, n, j), r, BLOCK) + if t == BLOCK then [] else Gather(bs, n, j + 1, 0, t - BLOCK)
  }

  /** How many bytes a read of `size` at `off` asks for. */
  function Asked(n: Node, size: nat, off: nat): (t: nat)
  {
    if n.size <= off then 0 else if n.size <= off + size then n.size - off else size
  }

  /** `leer_archivo` */
  function Read(d: Disk, i: nat, size: nat, off: nat): (x: seq<byte>)
    requires i < |d.nodes|
    ensures |x| == Asked(d.nodes[i], size, off)
  {
    var n := d.nodes[i];
    if n.size <= off then [] else Gather(d.blocks, n, off / BLOCK, off % BLOCK, Asked(n, size, off))
  }

  /** Where byte `x` of a file lies, in plain numbers: two levels of four-byte block numbers, the lowest byte first. */
  lemma ByteLies(d: Disk, i: nat, x: nat)
    requires Sound(d) && i < |d.nodes| && d.nodes[i].state == 1 && x < d.nodes[i].size
    ensures |d.nodes[i].indirect| == 1000 && x / 4194304 < 1000
    ensures var pb, at := d.nodes[i].indirect[x / 4194304], 4 * (x / 4096 % 1024);
            && pb < |d.blocks| && |d.blocks[pb]| == 4096
            && var p := d.blocks[pb];
               var b := p[at] as int + 256 * p[at + 1] as int + 65536 * p[at + 2] as int + 16777216 * p[at + 3] as int;
               b < |d.blocks| && |d.blocks[b]| == 4096 && Content(d, i)[x] == d.blocks[b][x % 4096]
  {
    var ks, n := Counts(d), d.nodes[i];
    Split(x, n.size);
    OwnedEntry(d, ks, i, x / 4096);
    OwnedPointer(d, ks, i, x / 4096);
    Placing(x);
    PlainPointer(d.blocks[n.indirect[x / 4194304]], x / 4096 % 1024);
  }

  lemma PlainPointer(p: seq<byte>, j: nat)
    requires |p| == 4096 && j < 1024
    ensures PointerAt(p, j) == p[4 * j] as int + 256 * p[4 * j + 1] as int + 65536 * p[4 * j + 2] as int
                               + 16777216 * p[4 * j + 3] as int
  {
  }

  lemma {:induction false} GatherAt(d: Disk, i: nat, j: nat, t: nat, y: nat)
    requires Sound(d) && i < |d.nodes| && d.nodes[i].state == 1 && j * BLOCK + t <= d.nodes[i].size && y < t
    ensures Gather(d.blocks, d.nodes[i], j, 0, t)[y] == ByteOf(d.blocks, d.nodes[i], j * BLOCK + y)
    decreases t
  {
    hide Entry;
    hide Sound;
    hide ByteOf;
    hide RawByte;
    hide Gather;
    var n := d.nodes[i];
    if y < BLOCK {
      GatherFirst(d.blocks, n, j, 0, t, y);
      FirstByte(d, i, j, y);
    } else {
      GatherRest(d.blocks, n, j, 0, t, y);
      GatherAt(d, i, j + 1, t - BLOCK, y - BLOCK);
      assert (j + 1) * BLOCK + (y - BLOCK) == j * BLOCK + y;
    }
  }

  lemma FirstByte(d: Disk, i: nat, j: nat, y: nat)
    requires Sound(d) && i < |d.nodes| && d.nodes[i].state == 1 && j * BLOCK + y < d.nodes[i].size && y < BLOCK
    ensures RawByte(d.blocks, Entry(d.blocks, d.nodes[i], j), 0 + y) == ByteOf(d.blocks, d.nodes[i], j * BLOCK + y)
  {
    hide Entry;
    assert (j * BLOCK + y) / BLOCK == j && (j * BLOCK + y) % BLOCK == y;
    Split(j * BLOCK + y, d.nodes[i].size);
    OwnedEntry(d, Counts(d), i, j);
  }

  lemma GatherFirst(bs: seq<seq<byte>>, n: Node, j: nat, r: nat, t: nat, y: nat)
    requires y < t && y < BLOCK
    ensures Gather(bs, n, j, r, t)[y] == RawByte(bs, Entry(bs, n, j), r + y)
  {
    hide Entry;
    hide RawByte;
    hide Raw;
  }

  lemma GatherRest(bs: seq<seq<byte>>, n: Node, j: nat, r: nat, t: nat, y: nat)
    requires BLOCK <= y < t
    ensures Gather(bs, n, j, r, t)[y] == Gather(bs, n, j + 1, 0, t - BLOCK)[y - BLOCK]
  {
    hide Entry;
    hide RawByte;
    hide Raw;
  }

  /** Reads at a block's start, or inside one block, return the file's bytes. */
  lemma ReadRight(d: Disk, i: nat, size: nat, off: nat)
    requires Sound(d) && i < |d.nodes| && d.nodes[i].state == 1
    requires off % BLOCK == 0 || off % BLOCK + Asked(d.nodes[i], size, off) <= BLOCK
    ensures off < d.nodes[i].size ==> Read(d, i, size, off) == Content(d, i)[off..off + Asked(d.nodes[i], size, off)]
  {
    hide Entry;
    hide Gather;
    var n := d.nodes[i];
    if off < n.size {
      var t := Asked(n, size, off);
      var j, r := off / BLOCK, off % BLOCK;
      forall y: nat | y < t ensures Read(d, i, size, off)[y] == ByteOf(d.blocks, n, off + y) {
        if r == 0 {
          GatherAt(d, i, j, t, y);
        } else {
          InsideOne(d, i, off, t, y);
        }
      }
    }
  }

  lemma InsideOne(d: Disk, i: nat, off: nat, t: nat, y: nat)
    requires Sound(d) && i < |d.nodes| && d.nodes[i].state == 1 && off + t <= d.nodes[i].size && y < t
    requires 0 < off % BLOCK && off % BLOCK + t <= BLOCK
    ensures Gather(d.blocks, d.nodes[i], off / BLOCK, off % BLOCK, t)[y] == ByteOf(d.blocks, d.nodes[i], off + y)
  {
    hide Entry;
    GatherFirst(d.blocks, d.nodes[i], off / BLOCK, off % BLOCK, t, y);
    assert (off + y) / BLOCK == off / BLOCK && (off + y) % BLOCK == off % BLOCK + y;
    Split(off + y, d.nodes[i].size);
    OwnedEntry(d, Counts(d), i, off / BLOCK);
  }

  /** Block `b` starts, at `x`, like the file at `from`. */
  predicate AgreesAt(bs: seq<seq<byte>>, n: Node, b: nat, from: nat, x: nat)
  {
    DiskByte(bs, b, x) == ByteOf(bs, n, from + x)
  }

  ghost predicate Agrees(bs: seq<seq<byte>>, n: Node, b: nat, from: nat, k: nat)
  {
    forall x: nat | x < k :: AgreesAt(bs, n, b, from, x)
  }

  /**
   Any other read that is shorter than a block runs on into whichever block comes next on the
   disk: it is right exactly when that block starts like the file's own next one.
   */
  lemma ReadRunsOn(d: Disk, i: nat, size: nat, off: nat)
    requires Sound(d) && i < |d.nodes| && d.nodes[i].state == 1 && off < d.nodes[i].size
    requires off % BLOCK + Asked(d.nodes[i], size, off) > BLOCK > Asked(d.nodes[i], size, off)
    ensures var n := d.nodes[i]; var t, b := Asked(n, size, off), Entry(d.blocks, n, off / BLOCK);
            Read(d, i, size, off) == Content(d, i)[off..off + t]
            <==> Agrees(d.blocks, n, b + 1, (off / BLOCK + 1) * BLOCK, off % BLOCK + t - BLOCK)
  {
    hide Entry;
    hide Gather;
    hide DiskByte;
    hide RawByte;
    hide ByteOf;
    var n := d.nodes[i];
    var t, j, r := Asked(n, size, off), off / BLOCK, off % BLOCK;
    var b, v, w := Entry(d.blocks, n, j), Read(d, i, size, off), Content(d, i)[off..off + t];
    var c, from := b + 1, (j + 1) * BLOCK;
    forall y: nat | y < t ensures v[y] == w[y] <==> (r + y < BLOCK || AgreesAt(d.blocks, n, c, from, r + y - BLOCK)) {
      RunsOnAt(d, i, off, t, y);
      assert w[y] == ByteOf(d.blocks, n, off + y);
    }
    if v == w {
      forall x: nat | x < r + t - BLOCK ensures AgreesAt(d.blocks, n, c, from, x) {
        assert v[x + BLOCK - r] == w[x + BLOCK - r];
      }
    }
  }

  lemma RunsOnAt(d: Disk, i: nat, off: nat, t: nat, y: nat)
    requires Sound(d) && i < |d.nodes| && d.nodes[i].state == 1 && off < d.nodes[i].size && y < t && y < BLOCK
    ensures var n := d.nodes[i]; var j, r := off / BLOCK, off % BLOCK;
            Gather(d.blocks, n, j, r, t)[y] == ByteOf(d.blocks, n, off + y)
            <==> (r + y < BLOCK || AgreesAt(d.blocks, n, Entry(d.blocks, n, j) + 1, (j + 1) * BLOCK, r + y - BLOCK))
  {
    hide Entry;
    var n := d.nodes[i];
    var j, r := off / BLOCK, off % BLOCK;
    GatherFirst(d.blocks, n, j, r, t, y);
    Split(off, n.size);
    OwnedEntry(d, Counts(d), i, j);
    assert off + y == j * BLOCK + (r + y);
    if r + y < BLOCK {
      assert (off + y) / BLOCK == j && (off + y) % BLOCK == r + y;
    } else {
      assert (r + y) / BLOCK == 1 && (r + y) % BLOCK == r + y - BLOCK;
    }
  }

  /**
   A longer one, not at a block's start: behind its first 4096 bytes everything comes `off % 4096`
   bytes too early.
   */
  lemma ReadShifts(d: Disk, i: nat, size: nat, off: nat, y: nat)
    requires Sound(d) && i < |d.nodes| && d.nodes[i].state == 1 && off < d.nodes[i].size
    requires BLOCK <= y < Asked(d.nodes[i], size, off)
    ensures Read(d, i, size, off)[y] == ByteOf(d.blocks, d.nodes[i], off - off % BLOCK + y)
  {
    hide Gather;
    hide ByteOf;
    hide Sound;
    hide Entry;
    var n := d.nodes[i];
    var t, j := Asked(n, size, off), off / BLOCK;
    GatherRest(d.blocks, n, j, off % BLOCK, t, y);
    GatherAt(d, i, j + 1, t - BLOCK, y - BLOCK);
    assert (j + 1) * BLOCK + (y - BLOCK) == off - off % BLOCK + y;
  }

  /**
   Byte `y` of a read at `off` is byte `off + y` of the file: in the first 4096 bytes it may come from
   the block that follows on the disk, behind them it comes from `off % 4096` bytes too early.
   */
  ghost predicate Comes(d: Disk, i: nat, off: nat, y: nat)
    requires i < |d.nodes|
  {
    var n, j, r := d.nodes[i], off / BLOCK, off % BLOCK;
    if y < BLOCK then
      r + y < BLOCK || AgreesAt(d.blocks, n, Entry(d.blocks, n, j) + 1, (j + 1) * BLOCK, r + y - BLOCK)
    else ByteOf(d.blocks, n, off - r + y) == ByteOf(d.blocks, n, off + y)
  }

  lemma ByteComes(d: Disk, i: nat, size: nat, off: nat, y: nat)
    requires Sound(d) && i < |d.nodes| && d.nodes[i].state == 1 && off < d.nodes[i].size
    requires y < Asked(d.nodes[i], size, off)
    ensures Read(d, i, size, off)[y] == ByteOf(d.blocks, d.nodes[i], off + y) <==> Comes(d, i, off, y)
  {
    hide Gather;
    hide ByteOf;
    hide Sound;
    hide Entry;
    if y < BLOCK {
      RunsOnAt(d, i, off, Asked(d.nodes[i], size, off), y);
    } else {
      ReadShifts(d, i, size, off, y);
    }
  }

  /** Which reads return the file's bytes: at a block's start, inside one block, or where the bytes happen to agree. */
  lemma ReadExact(d: Disk, i: nat, size: nat, off: nat)
    requires Sound(d) && i < |d.nodes| && d.nodes[i].state == 1 && off < d.nodes[i].size
    ensures var t, r := Asked(d.nodes[i], size, off), off % BLOCK;
            Read(d, i, size, off) == Content(d, i)[off..off + t]
            <==> r == 0 || r + t <= BLOCK || forall y: nat | BLOCK - r <= y < t :: Comes(d, i, off, y)
  {
    hide Sound;
    hide Comes;
    hide Read;
    var n := d.nodes[i];
    var t, r := Asked(n, size, off), off % BLOCK;
    var v, w := Read(d, i, size, off), Content(d, i)[off..off + t];
    forall y: nat | y < t ensures v[y] == w[y] <==> Comes(d, i, off, y) {
      ByteComes(d, i, size, off, y);
      assert w[y] == ByteOf(d.blocks, n, off + y);
    }
    forall y: nat | y < BLOCK - r ensures Comes(d, i, off, y) {
      EarlyComes(d, i, off, y);
    }
    if r == 0 || r + t <= BLOCK {
      ReadRight(d, i, size, off);
    } else if v == w {
      forall y: nat | BLOCK - r <= y < t ensures Comes(d, i, off, y) {
        assert v[y] == w[y];
      }
    }
  }

  lemma EarlyComes(d: Disk, i: nat, off: nat, y: nat)
    requires i < |d.nodes| && y < BLOCK - off % BLOCK
    ensures Comes(d, i, off, y)
  {
    hide Entry;
  }

  // ----- runs of appends -----

  /** Each append starts at a block's end or is shorter than a block, and sizes stay in 31 bits. */
  predicate Orderly(s: nat, bufs: seq<seq<byte>>)
    decreases |bufs|
  {
    bufs == [] || (s + |bufs[0]| < 0x8000_0000 && (s % BLOCK == 0 || |bufs[0]| < BLOCK)
                   && Orderly(s + |bufs[0]|, bufs[1..]))
  }

  function Total(bufs: seq<seq<byte>>): (r: seq<byte>)
  {
    if bufs == [] then [] else bufs[0] + Total(bufs[1..])
  }

  function AppendAll(d: Disk, i: nat, bufs: seq<seq<byte>>): (r: (Disk, Status))
    requires i < |d.nodes|
    decreases |bufs|
  {
    if bufs == [] then (d, Done)
    else
      var r := Append(d, i, bufs[0], d.nodes[i].size % BLOCK);
      if r.1 != Done then r else AppendAll(r.0, i, bufs[1..])
  }

  /** A run of appends that finds its blocks leaves their concatenation behind the file, and nothing else moved. */
  lemma {:induction false} AppendAllGood(d: Disk, i: nat, bufs: seq<seq<byte>>)
    requires Sound(d) && i < |d.nodes| && d.nodes[i].state == 1 && Orderly(d.nodes[i].size, bufs)
    requires Need(d.nodes[i].size, |Total(bufs)|) <= Room(d)
    ensures var r := AppendAll(d, i, bufs);
            && r.1 == Done && Sound(r.0) && Grown(d, r.0, i, Total(bufs))
            && Room(r.0) == Room(d) - Need(d.nodes[i].size, |Total(bufs)|)
    decreases |bufs|
  {
    hide Sound;
    hide Content;
    hide Append;
    hide Free;
    hide Room;
    hide DataBlocks;
    hide PointerBlocks;
    if bufs == [] {
      NothingGrown(d, i);
    } else {
      var s := d.nodes[i].size;
      NeedMore(s + |bufs[0]|, |Total(bufs[1..])|);
      NeedSum(s, |bufs[0]|, |Total(bufs[1..])|);
      AppendGood(d, i, bufs[0]);
      var r := Append(d, i, bufs[0], s % BLOCK);
      assert bufs[0][..|bufs[0]|] == bufs[0];
      AppendAllGood(r.0, i, bufs[1..]);
      GrownTrans(d, r.0, AppendAll(r.0, i, bufs[1..]).0, i, bufs[0], Total(bufs[1..]));
    }
  }

  /** A new file, written by such a run, reads back at any block's start as what was written. */
  lemma WriteThenRead(d: Disk, i: nat, parent: nat, bufs: seq<seq<byte>>, size: nat, off: nat)
    requires Sound(d) && i < |d.nodes| && d.nodes[i].state == 0 && Orderly(0, bufs)
    requires 2 + Need(0, |Total(bufs)|) <= Room(d) && off % BLOCK == 0 && off + size <= |Total(bufs)|
    ensures Create(d, i, parent).1 == Done && i < |Create(d, i, parent).0.nodes|
    ensures var r := AppendAll(Create(d, i, parent).0, i, bufs);
            r.1 == Done && i < |r.0.nodes| && Read(r.0, i, size, off) == Total(bufs)[off..off + size]
  {
    hide Sound;
    hide Create;
    hide AppendAll;
    hide Free;
    hide Room;
    hide Orderly;
    NeedMore(0, |Total(bufs)|);
    CreateGood(d, i, parent);
    var c := Create(d, i, parent).0;
    AppendAllGood(c, i, bufs);
    var g := AppendAll(c, i, bufs).0;
    assert Content(c, i) == [];
    assert Content(g, i) == Total(bufs);
    if off < |Total(bufs)| {
      ReadRight(g, i, size, off);
    }
  }
}
