/** `escribir_archivo` before the end of a file: which writes end, and where their bytes go. */
module Overwrites {
  import opened Bytes
  import opened Inodes
  import opened Files

  /** A write of `n` bytes at `off` that stays inside the file. */
  ghost predicate Within(d: Disk, i: nat, off: nat, n: nat)
  {
    Sound(d) && i < |d.nodes| && d.nodes[i].state == 1 && off + n <= d.nodes[i].size
  }

  /** File `i` reads as before but for `x` at `at`, and nothing else of the disk's tables or files changed. */
  ghost predicate Overwritten(d: Disk, g: Disk, i: nat, at: nat, x: seq<byte>)
    requires i < |d.nodes|
  {
    && Sound(g) && g.nodes == d.nodes && g.bits == d.bits && g.first == d.first && |g.blocks| == |d.blocks|
    && at + |x| <= d.nodes[i].size && Content(g, i) == Splice(Content(d, i), at, x)
    && forall j | 0 <= j < |d.nodes| && j != i && d.nodes[j].state == 1 :: Content(g, j) == Content(d, j)
  }

  lemma NothingOverwritten(d: Disk, i: nat, at: nat)
    requires Sound(d) && i < |d.nodes| && at <= d.nodes[i].size
    ensures Overwritten(d, d, i, at, [])
  {
    hide Sound;
    SpliceNone(Content(d, i), at);
  }

  lemma OverwrittenTrans(d: Disk, e: Disk, g: Disk, i: nat, at: nat, x: seq<byte>, y: seq<byte>)
    requires i < |d.nodes| && Overwritten(d, e, i, at, x) && Overwritten(e, g, i, at + |x|, y)
    ensures Overwritten(d, g, i, at, x + y)
  {
    hide Sound;
    hide Content;
    var c := Content(d, i);
    assert Splice(Splice(c, at, x), at + |x|, y) == Splice(c, at, x + y);
  }

  // ----- one piece -----

  /** The entry for byte `off` of the file, as the loop finds it. */
  lemma Spotted(d: Disk, i: nat, off: nat)
    requires Good(d, Counts(d)) && i < |d.nodes| && d.nodes[i].state == 1 && off < d.nodes[i].size
    ensures off / BLOCK < Counts(d)[i]
    ensures var b := Entry(d.blocks, d.nodes[i], off / BLOCK);
            && Owns(d, Counts(d), i, off / BLOCK, b) && d.first <= b < |d.blocks|
            && b == Pointer(d.blocks, Indirect(d.nodes[i], off / SPAN), off % SPAN / BLOCK)
            && Indirect(d.nodes[i], off / SPAN) >= d.first
  {
    var ks := Counts(d);
    Split(off, d.nodes[i].size);
    Placing(off);
    OwnedEntry(d, ks, i, off / BLOCK);
    OwnedPointer(d, ks, i, off / BLOCK);
  }

  /** A piece inside data block `c` of the file, and inside the file. */
  lemma PieceInside(d: Disk, i: nat, c: nat, b: nat, at: nat, x: seq<byte>)
    requires Sound(d) && i < |d.nodes| && d.nodes[i].state == 1 && Owns(d, Counts(d), i, c, b)
    requires at + |x| <= BLOCK && c * BLOCK + at + |x| <= d.nodes[i].size
    ensures Overwritten(d, PutAs(d, i, b, at, x, d.nodes[i].size), i, c * BLOCK + at, x)
  {
    hide Good;
    hide Entry;
    hide Splice;
    var ks := Counts(d);
    var g := PutAs(d, i, b, at, x, d.nodes[i].size);
    PutKeeps(d, ks, i, c, b, at, x, d.nodes[i].size);
    assert d.nodes[i].(size := d.nodes[i].size) == d.nodes[i];
    assert g.nodes == d.nodes;
    assert Counts(g) == ks;
    forall j, y: nat | 0 <= j < |d.nodes| && d.nodes[j].state == 1 && y < d.nodes[j].size
      ensures ByteOf(g.blocks, g.nodes[j], y)
           == if j == i && c * BLOCK + at <= y < c * BLOCK + at + |x| then x[y - (c * BLOCK + at)]
              else ByteOf(d.blocks, d.nodes[j], y)
    {
      ByteAfter(d, i, c, b, at, x, j, y);
    }
    forall j | 0 <= j < |d.nodes| && j != i && d.nodes[j].state == 1 ensures Content(g, j) == Content(d, j) {
    }
    SpliceIs(Content(d, i), Content(g, i), c * BLOCK + at, x);
  }

  lemma SpliceIs(v: seq<byte>, w: seq<byte>, at: nat, x: seq<byte>)
    requires at + |x| <= |v| == |w|
    requires forall y | 0 <= y < |v| :: w[y] == if at <= y < at + |x| then x[y - at] else v[y]
    ensures w == Splice(v, at, x)
  {
  }

  lemma ByteAfter(d: Disk, i: nat, c: nat, b: nat, at: nat, x: seq<byte>, j: nat, y: nat)
    requires Sound(d) && i < |d.nodes| && d.nodes[i].state == 1 && Owns(d, Counts(d), i, c, b)
    requires at + |x| <= BLOCK && c * BLOCK + at + |x| <= d.nodes[i].size
    requires j < |d.nodes| && d.nodes[j].state == 1 && y < d.nodes[j].size
    ensures var g := PutAs(d, i, b, at, x, d.nodes[i].size);
            ByteOf(g.blocks, g.nodes[j], y)
            == if j == i && c * BLOCK + at <= y < c * BLOCK + at + |x| then x[y - (c * BLOCK + at)]
               else ByteOf(d.blocks, d.nodes[j], y)
  {
    hide Good;
    hide Entry;
    var ks := Counts(d);
    GoodParts(d, ks);
    PutKeeps(d, ks, i, c, b, at, x, d.nodes[i].size);
    Split(y, d.nodes[j].size);
    OwnedEntry(d, ks, j, y / BLOCK);
    OwnedEntry(d, ks, i, c);
  }

  // ----- the loop -----

  /** A turn before the end of the file: no block is taken, whatever the last one has left. */
  lemma WriteTurn(d: Disk, i: nat, buf: seq<byte>, off: nat, o: nat)
    requires Good(d, Counts(d)) && i < |d.nodes| && d.nodes[i].state == 1 && off < d.nodes[i].size && buf != []
    ensures var b := Entry(d.blocks, d.nodes[i], off / BLOCK);
            Write(d, i, buf, off, o) == Fill(d, i, b, buf, off, o, Space(d.nodes[i].size))
  {
    hide Good;
    hide Entry;
    hide Fill;
    hide Take;
    hide AddNode;
    hide Pointer;
    Spotted(d, i, off);
  }

  /** Too little space in the last block for what is left: the loop writes that much, and then turns for ever. */
  lemma Stuck(d: Disk, i: nat, buf: seq<byte>, off: nat, o: nat)
    requires Within(d, i, off, |buf|) && Space(d.nodes[i].size) < |buf| < BLOCK
    requires o + Space(d.nodes[i].size) <= BLOCK
    ensures Write(d, i, buf, off, o).1 == Endless
  {
    hide Good;
    hide Entry;
    hide Write;
    hide Copy;
    var s := d.nodes[i].size;
    var m := Space(s);
    WriteTurn(d, i, buf, off, o);
    Spotted(d, i, off);
    if m > 0 {
      var b := Entry(d.blocks, d.nodes[i], off / BLOCK);
      var g := PutAs(d, i, b, o, buf[..m], s + m);
      assert Fill(d, i, b, buf, off, o, m) == Write(g, i, buf[m..], off + m, 0);
      StuckNext(d, i, b, buf, off, o);
    }
  }

  lemma StuckNext(d: Disk, i: nat, b: nat, buf: seq<byte>, off: nat, o: nat)
    requires Within(d, i, off, |buf|) && 0 < Space(d.nodes[i].size) < |buf| < BLOCK
    requires o + Space(d.nodes[i].size) <= BLOCK && b == Entry(d.blocks, d.nodes[i], off / BLOCK)
    ensures var s, m := d.nodes[i].size, Space(d.nodes[i].size);
            Write(PutAs(d, i, b, o, buf[..m], s + m), i, buf[m..], off + m, 0).1 == Endless
  {
    hide Good;
    hide Entry;
    hide Write;
    var s := d.nodes[i].size;
    var m := Space(s);
    var ks := Counts(d);
    Spotted(d, i, off);
    var g := PutAs(d, i, b, o, buf[..m], s + m);
    PutKeeps(d, ks, i, off / BLOCK, b, o, buf[..m], s + m);
    Filled(s);
    assert Counts(g) == ks;
    WriteTurn(g, i, buf[m..], off + m, 0);
  }

  lemma Filled(s: nat)
    requires s > 0
    ensures Space(s + Space(s)) == 0 && DataBlocks(s + Space(s)) == DataBlocks(s)
  {
  }

  /** The last piece of all, shorter than a block, where the last block's space is enough for it. */
  lemma LastPiece(d: Disk, i: nat, buf: seq<byte>, off: nat, o: nat)
    requires Within(d, i, off, |buf|) && 0 < |buf| < BLOCK && |buf| <= Space(d.nodes[i].size)
    requires o + |buf| <= BLOCK && off / BLOCK * BLOCK + o + |buf| <= d.nodes[i].size
    ensures var r := Write(d, i, buf, off, o); r.1 == Done && Overwritten(d, r.0, i, off / BLOCK * BLOCK + o, buf)
  {
    hide Good;
    hide Entry;
    hide Copy;
    hide Overwritten;
    var s, b := d.nodes[i].size, Entry(d.blocks, d.nodes[i], off / BLOCK);
    WriteTurn(d, i, buf, off, o);
    Spotted(d, i, off);
    PieceInside(d, i, off / BLOCK, b, o, buf);
    assert buf[..|buf|] == buf && buf[|buf|..] == [];
    assert SizeAfter(s, off, |buf|, Space(s)) == s;
  }

  /** Whole blocks land at the start of the block `off` is in; what is left lands behind them. */
  lemma {:induction false} RestInside(d: Disk, i: nat, buf: seq<byte>, off: nat)
    requires Within(d, i, off, |buf|)
    ensures var r := Write(d, i, buf, off, 0);
            if |buf| % BLOCK <= Space(d.nodes[i].size)
            then r.1 == Done && Overwritten(d, r.0, i, off / BLOCK * BLOCK, buf) else r.1 == Endless
    decreases |buf|
  {
    hide Good;
    hide Entry;
    hide Copy;
    hide Write;
    hide Overwritten;
    var s := d.nodes[i].size;
    if buf == [] {
      WriteNothing(d, i, off, 0);
      NothingOverwritten(d, i, off / BLOCK * BLOCK);
    } else if |buf| < BLOCK {
      if |buf| <= Space(s) {
        LastPiece(d, i, buf, off, 0);
      } else {
        Stuck(d, i, buf, off, 0);
      }
    } else {
      var g := WholeBlock(d, i, buf, off, 0);
      RestInside(g, i, buf[BLOCK..], off + BLOCK);
      assert (off + BLOCK) / BLOCK * BLOCK == off / BLOCK * BLOCK + BLOCK;
      assert |buf[BLOCK..]| % BLOCK == |buf| % BLOCK;
      if |buf| % BLOCK <= Space(s) {
        assert buf[..BLOCK] + buf[BLOCK..] == buf;
        OverwrittenTrans(d, g, Write(d, i, buf, off, 0).0, i, off / BLOCK * BLOCK, buf[..BLOCK], buf[BLOCK..]);
      }
    }
  }

  /** A whole block goes to the start of its block, whatever the offset in it. */
  lemma WholeBlock(d: Disk, i: nat, buf: seq<byte>, off: nat, o: nat) returns (g: Disk)
    requires Within(d, i, off, |buf|) && |buf| >= BLOCK
    ensures Overwritten(d, g, i, off / BLOCK * BLOCK, buf[..BLOCK]) && Within(g, i, off + BLOCK, |buf| - BLOCK)
    ensures g.nodes == d.nodes && Write(d, i, buf, off, o) == Write(g, i, buf[BLOCK..], off + BLOCK, 0)
  {
    hide Good;
    hide Entry;
    hide Copy;
    hide Write;
    var s, b := d.nodes[i].size, Entry(d.blocks, d.nodes[i], off / BLOCK);
    g := PutAs(d, i, b, 0, buf[..BLOCK], s);
    WriteTurn(d, i, buf, off, o);
    Spotted(d, i, off);
    PieceInside(d, i, off / BLOCK, b, 0, buf[..BLOCK]);
    assert SizeAfter(s, off, |buf|, Space(s)) == s;
  }

  // ----- the theorem -----

  /** The bytes do not run over the end of a block with less than a block of them to write. */
  predicate Contained(off: nat, n: nat)
  {
    off % BLOCK == 0 || n >= BLOCK || off % BLOCK + n <= BLOCK
  }

  /** Where they land: a block or more at the start of the block, whatever the offset in it. */
  function Landing(off: nat, n: nat): (at: nat)
  {
    if n >= BLOCK then off / BLOCK * BLOCK else off
  }

  /**
   A write inside the file ends exactly when the last block has space for what is left of the buffer
   after its whole blocks, though nothing is to be written there. When it ends, a buffer of a block or
   more has landed at the start of its first block, and a shorter one where it should.
   */
  lemma OverwriteEnds(d: Disk, i: nat, buf: seq<byte>, off: nat)
    requires Within(d, i, off, |buf|) && Contained(off, |buf|)
    ensures var r := Write(d, i, buf, off, off % BLOCK);
            if |buf| % BLOCK <= Space(d.nodes[i].size)
            then r.1 == Done && Overwritten(d, r.0, i, Landing(off, |buf|), buf) else r.1 == Endless
  {
    hide Good;
    hide Entry;
    hide Copy;
    hide Write;
    hide Overwritten;
    var o := off % BLOCK;
    if buf == [] {
      WriteNothing(d, i, off, o);
      NothingOverwritten(d, i, off);
    } else if |buf| < BLOCK {
      if |buf| <= Space(d.nodes[i].size) {
        LastPiece(d, i, buf, off, o);
      } else {
        Stuck(d, i, buf, off, o);
      }
    } else {
      RestInside(d, i, buf, off);
      var g := WholeBlock(d, i, buf, off, o);
      var h := WholeBlock(d, i, buf, off, 0);
      SameTurn(d, i, buf, off, o);
    }
  }

  lemma SameTurn(d: Disk, i: nat, buf: seq<byte>, off: nat, o: nat)
    requires i < |d.nodes| && |buf| >= BLOCK
    ensures Write(d, i, buf, off, o) == Write(d, i, buf, off, 0)
  {
    hide AddNode;
    hide Take;
    hide Copy;
  }

  /**
   Exactly which of them come out right: those that end, and start at a block's start, or are shorter
   than a block, or whose bytes happen to read the same from `off % 4096` bytes further up.
   */
  lemma OverwriteExact(d: Disk, i: nat, buf: seq<byte>, off: nat)
    requires Within(d, i, off, |buf|) && Contained(off, |buf|)
    ensures var r := Write(d, i, buf, off, off % BLOCK); var s, c := d.nodes[i].size, Content(d, i);
            r.1 == Done && Overwritten(d, r.0, i, off, buf)
            <==> |buf| % BLOCK <= Space(s)
                 && (off % BLOCK == 0 || |buf| < BLOCK || Splice(c, Landing(off, |buf|), buf) == Splice(c, off, buf))
  {
    hide Sound;
    hide Write;
    hide Content;
    hide Splice;
    OverwriteEnds(d, i, buf, off);
  }

  // ----- over the end of a block -----

  /**
   The other writes inside the file, shorter than a block, run over the end of one. They end exactly when
   the last block has space for them and another block of the disk follows the one they start in.
   */
  lemma CrossEnds(d: Disk, i: nat, buf: seq<byte>, off: nat)
    requires Within(d, i, off, |buf|) && !Contained(off, |buf|)
    ensures Write(d, i, buf, off, off % BLOCK).1 == Done
       <==> |buf| <= Space(d.nodes[i].size) && Entry(d.blocks, d.nodes[i], off / BLOCK) + 1 < |d.blocks|
  {
    hide Good;
    hide Entry;
    hide Copy;
    hide Write;
    var s, o := d.nodes[i].size, off % BLOCK;
    var b, m := Entry(d.blocks, d.nodes[i], off / BLOCK), Piece(buf, Space(s));
    WriteTurn(d, i, buf, off, o);
    Spotted(d, i, off);
    if |buf| <= Space(s) {
      assert buf[|buf|..] == [];
      WriteNothing(PutAs(d, i, b, o, buf[..m], s), i, off + m, 0);
    } else {
      Filled(s);
      NeverDone(PutAs(d, i, b, o, buf[..m], s + m), i, buf[m..], off + m);
    }
  }

  /** A full last block, and less than a block to write before the end of the file. */
  lemma NeverDone(d: Disk, i: nat, buf: seq<byte>, off: nat)
    requires i < |d.nodes| && 0 < |buf| < BLOCK && off < d.nodes[i].size && Space(d.nodes[i].size) == 0
    ensures Write(d, i, buf, off, 0).1 != Done
  {
    hide Pointer;
    hide Copy;
  }

  /** A piece in block `c` of the file moves none of its entries. */
  lemma NextOwned(d: Disk, g: Disk, i: nat, off: nat, x: seq<byte>, e: nat)
    requires Sound(d) && i < |d.nodes| && d.nodes[i].state == 1 && e < Counts(d)[i]
    requires off < d.nodes[i].size && off % BLOCK + |x| <= BLOCK
    requires g == PutAs(d, i, Entry(d.blocks, d.nodes[i], off / BLOCK), off % BLOCK, x, d.nodes[i].size)
    ensures Sound(g) && g.nodes == d.nodes
    ensures Owns(g, Counts(g), i, e, Entry(d.blocks, d.nodes[i], e))
  {
    hide Good;
    hide Entry;
    Spotted(d, i, off);
    PutKeeps(d, Counts(d), i, off / BLOCK, Entry(d.blocks, d.nodes[i], off / BLOCK), off % BLOCK, x, d.nodes[i].size);
    assert d.nodes[i].(size := d.nodes[i].size) == d.nodes[i];
    assert Counts(g) == Counts(d);
  }

  lemma TwoCopies(d: Disk, i: nat, b: nat, o: nat, buf: seq<byte>)
    requires i < |d.nodes| && b + 1 < |d.blocks| && |d.blocks[b]| == BLOCK && |d.blocks[b + 1]| == BLOCK
    requires 0 < o < BLOCK < o + |buf| && |buf| < BLOCK
    ensures var s, cut := d.nodes[i].size, BLOCK - o;
            PutAs(d, i, b, o, buf, s) == PutAs(PutAs(d, i, b, o, buf[..cut], s), i, b + 1, 0, buf[cut..], s)
  {
    hide Splice;
  }

  /** And come out right where that block is the file's own next one. */
  lemma CrossRight(d: Disk, i: nat, buf: seq<byte>, off: nat)
    requires Within(d, i, off, |buf|) && !Contained(off, |buf|) && |buf| <= Space(d.nodes[i].size)
    requires Entry(d.blocks, d.nodes[i], off / BLOCK + 1) == Entry(d.blocks, d.nodes[i], off / BLOCK) + 1
    ensures var r := Write(d, i, buf, off, off % BLOCK); r.1 == Done && Overwritten(d, r.0, i, off, buf)
  {
    hide Good;
    hide Entry;
    hide Copy;
    hide Write;
    hide Overwritten;
    var s, b := d.nodes[i].size, Entry(d.blocks, d.nodes[i], off / BLOCK);
    TwoPieces(d, i, buf, off);
    WriteTurn(d, i, buf, off, off % BLOCK);
    CrossEnds(d, i, buf, off);
    Spotted(d, i, off);
    assert buf[..|buf|] == buf && buf[|buf|..] == [];
    WriteNothing(PutAs(d, i, b, off % BLOCK, buf, s), i, off + |buf|, 0);
    assert SizeAfter(s, off, |buf|, Space(s)) == s;
  }

  lemma TwoPieces(d: Disk, i: nat, buf: seq<byte>, off: nat)
    requires Within(d, i, off, |buf|) && !Contained(off, |buf|)
    requires Entry(d.blocks, d.nodes[i], off / BLOCK + 1) == Entry(d.blocks, d.nodes[i], off / BLOCK) + 1
    ensures Entry(d.blocks, d.nodes[i], off / BLOCK) + 1 < |d.blocks|
    ensures var b := Entry(d.blocks, d.nodes[i], off / BLOCK);
            Overwritten(d, PutAs(d, i, b, off % BLOCK, buf, d.nodes[i].size), i, off, buf)
  {
    hide Good;
    hide Entry;
    hide Copy;
    hide Overwritten;
    hide Content;
    hide PutAs;
    hide Owns;
    var s, o, ks := d.nodes[i].size, off % BLOCK, Counts(d);
    var b, cut, e := Entry(d.blocks, d.nodes[i], off / BLOCK), BLOCK - o, off / BLOCK + 1;
    var g := PutAs(d, i, b, o, buf[..cut], s);
    assert off + cut == e * BLOCK;
    Spotted(d, i, off);
    Spotted(d, i, off + cut);
    OwnedEntry(d, ks, i, off / BLOCK);
    OwnedEntry(d, ks, i, e);
    PieceInside(d, i, off / BLOCK, b, o, buf[..cut]);
    NextOwned(d, g, i, off, buf[..cut], e);
    PieceInside(g, i, e, b + 1, 0, buf[cut..]);
    OverwrittenTrans(d, g, PutAs(g, i, b + 1, 0, buf[cut..], s), i, off, buf[..cut], buf[cut..]);
    assert buf[..cut] + buf[cut..] == buf;
    TwoCopies(d, i, b, o, buf);
  }
}
