/** Whole lives of a disk, from formatting on: what its files hold after any run of requests. */
module Histories {
  import opened Bytes
  import opened Inodes
  import opened Files
  import opened Removal
  import opened Reads
  import opened Overwrites

  /** As formatted: no node in use, and every block of the data area free, whatever the bits behind the disk are. */
  ghost predicate Formatted(d: Disk)
  {
    && |d.blocks| <= |d.bits| <= WORD && 0 < d.first <= |d.blocks|
    && (forall b | 0 <= b < |d.blocks| :: |d.blocks[b]| == BLOCK && (d.first <= b ==> !d.bits[b]))
    && forall i | 0 <= i < |d.nodes| ::
         d.nodes[i].state == 0 && d.nodes[i].size == 0 && |d.nodes[i].indirect| == INDIRECT
  }

  lemma FormattedSound(d: Disk)
    requires Formatted(d)
    ensures Sound(d) && Room(d) == |d.blocks| - d.first
  {
    hide Entry;
    forall i: nat, c: int, b: nat ensures !Owns(d, Counts(d), i, c, b) {
    }
    AllZeros(d.bits[..|d.blocks|], d.first);
    assert d.bits[..|d.bits|] == d.bits;
  }

  lemma {:induction false} AllZeros(bits: seq<bool>, from: nat)
    requires from <= |bits| && forall b | from <= b < |bits| :: !bits[b]
    ensures CountZeros(bits, from) == |bits| - from
  {
    if |bits| > from {
      AllZeros(bits[..|bits| - 1], from);
    }
  }

  // ----- requests -----

  /** Node numbers stand for paths; `parent` is what `crear_nuevo_nodo` stores. */
  datatype Request =
    MakeFile(i: nat, parent: nat) | MakeDir(i: nat, parent: nat)
    | AppendTo(i: nat, buf: seq<byte>) | Overwrite(i: nat, buf: seq<byte>, off: nat)
    | Unlink(i: nat) | RemoveDir(i: nat)

  /**
   A free node and room for its first blocks; an append that the loop places right, with the blocks it
   needs unless the bitmap counts none behind the disk; a write inside the file that ends, and lands where
   it should; a file; a directory.
   */
  ghost predicate Allowed(d: Disk, q: Request)
  {
    q.i < |d.nodes| &&
    match q
    case MakeFile(i, parent) => d.nodes[i].state == 0 && Room(d) >= 2
    case MakeDir(i, parent) => d.nodes[i].state == 0
    case AppendTo(i, buf) =>
      && d.nodes[i].state == 1 && d.nodes[i].size + |buf| < 0x8000_0000
      && (d.nodes[i].size % BLOCK == 0 || |buf| < BLOCK)
      && (Need(d.nodes[i].size, |buf|) <= Room(d) || Covered(d))
    case Overwrite(i, buf, off) =>
      && d.nodes[i].state == 1 && off + |buf| <= d.nodes[i].size && |buf| % BLOCK <= Space(d.nodes[i].size)
      && (off % BLOCK == 0 || off % BLOCK + |buf| <= BLOCK)
    case Unlink(i) => d.nodes[i].state == 1
    case RemoveDir(i) => d.nodes[i].state == 2
  }

  function Step(d: Disk, q: Request): (g: Disk)
    requires q.i < |d.nodes|
    ensures |g.nodes| == |d.nodes|
  {
    match q
    case MakeFile(i, parent) => CreateNode(d, i, parent, 1).0
    case MakeDir(i, parent) => CreateNode(d, i, parent, 2).0
    case AppendTo(i, buf) => Append(d, i, buf, d.nodes[i].size % BLOCK).0
    case Overwrite(i, buf, off) => Write(d, i, buf, off, off % BLOCK).0
    case Unlink(i) => Erase(d, i)
    case RemoveDir(i) => DeleteDir(d, i)
  }

  /** What each file should hold: what was appended to it, as far as there were blocks, and written over that. */
  ghost function Noted(m: map<nat, seq<byte>>, d: Disk, q: Request): (r: map<nat, seq<byte>>)
    requires q.i < |d.nodes|
  {
    match q
    case MakeFile(i, parent) => m[i := []]
    case MakeDir(i, parent) => m
    case AppendTo(i, buf) =>
      var w := Step(d, q).nodes[i].size - d.nodes[i].size;
      if i in m && 0 <= w <= |buf| then m[i := m[i] + buf[..w]] else m
    case Overwrite(i, buf, off) => if i in m && off + |buf| <= |m[i]| then m[i := Splice(m[i], off, buf)] else m
    case Unlink(i) => m - {i}
    case RemoveDir(i) => map j | j in m && !Doomed(d.nodes, i, j) :: m[j]
  }

  /** The files of the disk are those noted, and hold what is noted. */
  ghost predicate Holds(d: Disk, m: map<nat, seq<byte>>)
  {
    && (forall i: nat :: i in m <==> i < |d.nodes| && d.nodes[i].state == 1)
    && forall i | i in m :: i < |d.nodes| && Content(d, i) == m[i]
  }

  lemma StepKeeps(d: Disk, q: Request, m: map<nat, seq<byte>>)
    requires Sound(d) && Holds(d, m) && Allowed(d, q)
    ensures Sound(Step(d, q)) && Holds(Step(d, q), Noted(m, d, q)) && (Covered(Step(d, q)) <==> Covered(d))
  {
    hide Sound;
    hide Content;
    hide Covered;
    hide Free;
    hide Room;
    RoomExact(d);
    RoomExact(Step(d, q));
    match q
    case MakeFile(i, parent) => CreateGood(d, i, parent);
    case MakeDir(i, parent) => DirectoryGood(d, i, parent);
    case AppendTo(i, buf) => AppendCase(d, i, buf, m);
    case Overwrite(i, buf, off) => OverwriteCase(d, i, buf, off, m);
    case Unlink(i) => UnlinkCase(d, i, m);
    case RemoveDir(i) => RemoveCase(d, i, m);
  }

  lemma AppendCase(d: Disk, i: nat, buf: seq<byte>, m: map<nat, seq<byte>>)
    requires Sound(d) && Holds(d, m) && Allowed(d, AppendTo(i, buf))
    ensures var g := Step(d, AppendTo(i, buf));
            Sound(g) && Holds(g, Noted(m, d, AppendTo(i, buf))) && Free(g) - Room(g) == Free(d) - Room(d)
  {
    hide Sound;
    hide Content;
    hide Append;
    AppendGood(d, i, buf);
  }

  lemma OverwriteCase(d: Disk, i: nat, buf: seq<byte>, off: nat, m: map<nat, seq<byte>>)
    requires Sound(d) && Holds(d, m) && Allowed(d, Overwrite(i, buf, off))
    ensures var g := Step(d, Overwrite(i, buf, off));
            Sound(g) && Holds(g, Noted(m, d, Overwrite(i, buf, off))) && Free(g) - Room(g) == Free(d) - Room(d)
  {
    hide Sound;
    hide Content;
    hide Write;
    hide Splice;
    OverwriteEnds(d, i, buf, off);
    FreeSame(d, Step(d, Overwrite(i, buf, off)));
  }

  lemma UnlinkCase(d: Disk, i: nat, m: map<nat, seq<byte>>)
    requires Sound(d) && Holds(d, m) && Allowed(d, Unlink(i))
    ensures Sound(Erase(d, i)) && Holds(Erase(d, i), m - {i})
    ensures Free(Erase(d, i)) - Room(Erase(d, i)) == Free(d) - Room(d)
  {
    hide Sound;
    hide Entry;
    EraseKeeps(d, i);
    forall j | j in m && j != i ensures Content(Erase(d, i), j) == Content(d, j) {
    }
  }

  lemma RemoveCase(d: Disk, t: nat, m: map<nat, seq<byte>>)
    requires Sound(d) && Holds(d, m) && Allowed(d, RemoveDir(t))
    ensures Sound(DeleteDir(d, t)) && Holds(DeleteDir(d, t), Noted(m, d, RemoveDir(t)))
    ensures Free(DeleteDir(d, t)) - Room(DeleteDir(d, t)) == Free(d) - Room(d)
  {
    hide Sound;
    hide Content;
    hide DeleteDir;
    hide Doomed;
    DeleteKeeps(d, t);
    var g := DeleteDir(d, t);
    forall j: nat | j < |d.nodes|
      ensures g.nodes[j] == if Doomed(d.nodes, t, j) then d.nodes[j].(state := 0, size := 0) else d.nodes[j]
    {
      DeleteExact(d, t, j);
    }
    forall j | j in m && !Doomed(d.nodes, t, j) ensures Content(g, j) == Content(d, j) {
      Survives(d, t, j);
    }
  }

  // ----- runs -----

  ghost predicate Proper(d: Disk, qs: seq<Request>)
    decreases |qs|
  {
    qs == [] || (Allowed(d, qs[0]) && Proper(Step(d, qs[0]), qs[1..]))
  }

  function Run(d: Disk, qs: seq<Request>): (g: Disk)
    requires Proper(d, qs)
    decreases |qs|
  {
    if qs == [] then d else Run(Step(d, qs[0]), qs[1..])
  }

  ghost function NotedIn(m: map<nat, seq<byte>>, d: Disk, qs: seq<Request>): (r: map<nat, seq<byte>>)
    requires Proper(d, qs)
    decreases |qs|
  {
    if qs == [] then m else NotedIn(Noted(m, d, qs[0]), Step(d, qs[0]), qs[1..])
  }

  lemma {:induction false} RunKeeps(d: Disk, qs: seq<Request>, m: map<nat, seq<byte>>)
    requires Sound(d) && Holds(d, m) && Proper(d, qs)
    ensures Sound(Run(d, qs)) && Holds(Run(d, qs), NotedIn(m, d, qs)) && (Covered(Run(d, qs)) <==> Covered(d))
    decreases |qs|
  {
    hide Sound;
    hide Holds;
    hide Step;
    hide Noted;
    if qs != [] {
      StepKeeps(d, qs[0], m);
      RunKeeps(Step(d, qs[0]), qs[1..], Noted(m, d, qs[0]));
    }
  }

  /**
   From formatting on, after any run: the disk is sound and every file holds what was written to it.
   Where the bits behind the disk were set they still are, and no append had to be counted beforehand.
   */
  lemma LifeKeeps(d: Disk, qs: seq<Request>)
    requires Formatted(d) && Proper(d, qs)
    ensures Sound(Run(d, qs)) && Holds(Run(d, qs), NotedIn(map[], d, qs)) && (Covered(Run(d, qs)) <==> Covered(d))
  {
    FormattedSound(d);
    RunKeeps(d, qs, map[]);
  }

  // ----- requests that go wrong -----

  /** A formatted disk of `n` blocks under `m` bits, the first one taken, with a table of one node. */
  function Blank(n: nat, m: nat): (d: Disk)
    requires n > 0
  {
    Disk([Node(0, 0, 0, seq(INDIRECT, _ => 0))], seq(m, b => b == 0), seq(n, _ => Zeros()), 1)
  }

  /** One new file holding `x`. */
  lemma OneFile(n: nat, m: nat, x: seq<byte>)
    requires 0 < n <= m <= WORD && |x| < 0x8000_0000 && 3 + Need(0, |x|) <= n
    ensures var qs := [MakeFile(0, 0), AppendTo(0, x)];
            && Proper(Blank(n, m), qs) && Sound(Run(Blank(n, m), qs)) && |Run(Blank(n, m), qs).nodes| == 1
            && Run(Blank(n, m), qs).nodes[0].state == 1 && Content(Run(Blank(n, m), qs), 0) == x
            && Run(Blank(n, m), qs).nodes[0].size == |x|
            && Run(Blank(n, m), qs) == Append(Create(Blank(n, m), 0, 0).0, 0, x, 0).0
            && Room(Run(Blank(n, m), qs)) == n - 3 - Need(0, |x|)
            && Free(Run(Blank(n, m), qs)) == m - 3 - Need(0, |x|)
  {
    hide Sound;
    hide Content;
    hide Append;
    hide Create;
    hide Formatted;
    hide Room;
    hide Free;
    hide Covered;
    var d, p, q := Blank(n, m), MakeFile(0, 0), AppendTo(0, x);
    BlankFormatted(n, m);
    FormattedSound(d);
    NeedMore(0, |x|);
    CreateGood(d, 0, 0);
    var c := Create(d, 0, 0).0;
    AppendGood(c, 0, x);
    assert Content(c, 0) == [] && x[..|x|] == x;
    assert [p, q][1..] == [q] && [q][1..] == [];
    assert Proper(Step(c, q), [q][1..]);
    assert Proper(c, [p, q][1..]);
    assert Run(Step(c, q), [q][1..]) == Step(c, q);
    assert Run(c, [p, q][1..]) == Step(c, q);
  }

  lemma BlankFormatted(n: nat, m: nat)
    requires 0 < n <= m <= WORD
    ensures Formatted(Blank(n, m)) && Room(Blank(n, m)) == n - 1 && Free(Blank(n, m)) == m - 1
  {
    FormattedSound(Blank(n, m));
    AllZeros(Blank(n, m).bits, 1);
  }

  /** A file of one byte, and then a full block more: the block does not end up behind the byte. */
  lemma LongAppendFails(buf: seq<byte>)
    requires |buf| == BLOCK
    ensures var qs := [MakeFile(0, 0), AppendTo(0, [1])];
            && Proper(Blank(8, 8), qs) && 0 < |Run(Blank(8, 8), qs).nodes|
            && var d := Run(Blank(8, 8), qs);
               Sound(d) && Content(d, 0) == [1] && !Appended(d, 0, buf, Append(d, 0, buf, 1))
  {
    hide Sound;
    hide Content;
    hide Append;
    hide Run;
    hide Appended;
    hide Blank;
    assert Need(0, 1) == 0;
    OneFile(8, 8, [1]);
    AppendExact(Run(Blank(8, 8), [MakeFile(0, 0), AppendTo(0, [1])]), 0, buf);
  }

  /**
   A disk of three blocks under eight bits, full with one file of one block: five blocks still count as
   free, the block found next lies behind the disk, and a byte appended to the file is written there.
   */
  lemma FullDiskGoesOn(x: seq<byte>, v: byte)
    requires |x| == BLOCK
    ensures var qs := [MakeFile(0, 0), AppendTo(0, x)];
            && Proper(Blank(3, 8), qs) && 0 < |Run(Blank(3, 8), qs).nodes|
            && var d := Run(Blank(3, 8), qs);
               && Sound(d) && Content(d, 0) == x && Room(d) == 0 && Free(d) == 5
               && Take(d).1 >= |d.blocks| && Append(d, 0, [v], 0).1 == OffDisk
  {
    hide Sound;
    hide Content;
    hide Run;
    hide Free;
    hide Room;
    hide Append;
    hide Blank;
    assert Need(0, BLOCK) == 0 && Need(BLOCK, 1) == 1;
    OneFile(3, 8, x);
    FullAppend(Run(Blank(3, 8), [MakeFile(0, 0), AppendTo(0, x)]), v);
  }

  lemma FullAppend(d: Disk, v: byte)
    requires Sound(d) && 0 < |d.nodes| && d.nodes[0].state == 1 && d.nodes[0].size == BLOCK
    requires Room(d) == 0 && Free(d) > 0
    ensures Take(d).1 >= |d.blocks| && Append(d, 0, [v], 0).1 == OffDisk
  {
    hide Sound;
    hide CountZeros;
    hide Write;
    hide Fill;
    SoundShape(d);
    TakeExact(d);
    assert Space(BLOCK) == 0;
    AppendTurn(d, 0, [v], 0);
    var t := Take(d);
    AddNodeSize(t.0, 0, t.1);
    AddNodeFalls(t.0, 0, t.1);
    FillTurn(AddNode(t.0, 0, t.1).0, 0, t.1, [v], 0, BLOCK);
    assert BLOCK % SPAN / BLOCK == 1;
  }

  /** A file of one whole block: a byte written over its first one keeps the loop turning for ever. */
  lemma OverwriteHangs(x: seq<byte>, v: byte)
    requires |x| == BLOCK
    ensures var qs := [MakeFile(0, 0), AppendTo(0, x)];
            && Proper(Blank(8, 8), qs) && 0 < |Run(Blank(8, 8), qs).nodes|
            && var d := Run(Blank(8, 8), qs);
               Sound(d) && Content(d, 0) == x && Write(d, 0, [v], 0, 0).1 == Endless
  {
    hide Sound;
    hide Content;
    hide Run;
    hide Append;
    hide Write;
    hide Blank;
    assert Need(0, BLOCK) == 0;
    OneFile(8, 8, x);
    OverwriteEnds(Run(Blank(8, 8), [MakeFile(0, 0), AppendTo(0, x)]), 0, [v], 0);
  }

  /** 4097 zeros and a one: 4097 bytes read from byte 1 on do not end in the one. */
  lemma LongReadFails()
    ensures var x: seq<byte> := seq(BLOCK + 1, _ => 0) + [1]; var qs := [MakeFile(0, 0), AppendTo(0, x)];
            && Proper(Blank(8, 8), qs) && 0 < |Run(Blank(8, 8), qs).nodes|
            && var d := Run(Blank(8, 8), qs);
               Sound(d) && Content(d, 0) == x && Read(d, 0, BLOCK + 1, 1) != x[1..]
  {
    hide Sound;
    hide Run;
    hide Read;
    hide ByteOf;
    hide Blank;
    var x: seq<byte> := seq(BLOCK + 1, _ => 0) + [1];
    assert Need(0, BLOCK + 2) == 1;
    OneFile(8, 8, x);
    OneTooEarly(Run(Blank(8, 8), [MakeFile(0, 0), AppendTo(0, x)]), x);
  }

  lemma OneTooEarly(d: Disk, x: seq<byte>)
    requires Sound(d) && 0 < |d.nodes| && d.nodes[0].state == 1 && d.nodes[0].size == BLOCK + 2
    requires Content(d, 0) == x && x == seq(BLOCK + 1, _ => 0) + [1]
    ensures Read(d, 0, BLOCK + 1, 1) != x[1..]
  {
    hide Sound;
    hide Read;
    hide ByteOf;
    ReadShifts(d, 0, BLOCK + 1, 1, BLOCK);
    assert Content(d, 0)[BLOCK] == 0 && Content(d, 0)[BLOCK + 1] == 1;
    assert Read(d, 0, BLOCK + 1, 1)[BLOCK] == 0;
  }

  /** Bits only get set while files are made and grow. */
  ghost predicate Marks(d: Disk, g: Disk)
  {
    |g.bits| == |d.bits| && forall b | 0 <= b < |d.bits| && d.bits[b] :: g.bits[b]
  }

  lemma AddNodeMarks(d: Disk, i: nat, b: nat)
    requires i < |d.nodes|
    ensures |AddNode(d, i, b).0.nodes| == |d.nodes| && Marks(d, AddNode(d, i, b).0)
  {
  }

  lemma {:induction false} WriteMarks(d: Disk, i: nat, buf: seq<byte>, off: nat, o: nat)
    requires i < |d.nodes|
    ensures Marks(d, Write(d, i, buf, off, o).0)
    decreases |buf|, 1
  {
    hide AddNode;
    hide Fill;
    if buf != [] {
      var n := d.nodes[i];
      if n.size != 0 && off >= n.size + Space(n.size) {
        var t := Take(d);
        if t.1 != -1 {
          AddNodeMarks(t.0, i, t.1);
          var a := AddNode(t.0, i, t.1);
          if a.1 == Done {
            FillMarks(a.0, i, t.1, buf, off, o, BLOCK);
          }
        }
      } else {
        var b := Pointer(d.blocks, Indirect(n, off / SPAN), off % SPAN / BLOCK);
        FillMarks(d, i, b, buf, off, o, Space(n.size));
      }
    }
  }

  lemma {:induction false} FillMarks(d: Disk, i: nat, b: nat, buf: seq<byte>, off: nat, o: nat, space: nat)
    requires i < |d.nodes| && buf != []
    ensures Marks(d, Fill(d, i, b, buf, off, o, space).0)
    decreases |buf|, 0
  {
    hide Copy;
    hide Write;
    var m := Piece(buf, space);
    if m > 0 {
      var s := SizeAfter(d.nodes[i].size, off, |buf|, space);
      WriteMarks(PutAs(d, i, b, if |buf| >= BLOCK then 0 else o, buf[..m], s), i, buf[m..], off + m, 0);
    }
  }

  lemma CreateMarks(d: Disk, i: nat, parent: nat)
    requires i < |d.nodes|
    ensures Marks(d, Create(d, i, parent).0)
  {
    hide AddNode;
    var e := d.(nodes := d.nodes[i := d.nodes[i].(state := 1, size := 0, parent := parent)]);
    var t := Take(e);
    if t.1 != -1 {
      AddNodeMarks(t.0, i, t.1);
    }
  }

  /** A file of 4 MiB, unlinked: block 0, the header of the disk, is given back with it. */
  lemma UnlinkFreesTheHeader()
    ensures var x: seq<byte> := seq(SPAN, _ => 0); var qs := [MakeFile(0, 0), AppendTo(0, x)];
            && Proper(Blank(2000, 2000), qs) && 0 < |Run(Blank(2000, 2000), qs).nodes|
            && var d := Run(Blank(2000, 2000), qs);
               Sound(d) && |d.bits| > 0 && d.bits[0] && |Erase(d, 0).bits| == |d.bits| && !Erase(d, 0).bits[0]
  {
    hide Sound;
    hide Content;
    hide Write;
    hide Create;
    hide Run;
    hide Erase;
    var x: seq<byte> := seq(SPAN, _ => 0);
    assert Need(0, SPAN) == 1023;
    OneFile(2000, 2000, x);
    var c := Create(Blank(2000, 2000), 0, 0).0;
    CreateMarks(Blank(2000, 2000), 0, 0);
    WriteMarks(c, 0, x, c.nodes[0].size, 0);
    assert Append(c, 0, x, 0) == Write(c, 0, x, c.nodes[0].size, 0);
    EraseExact(Run(Blank(2000, 2000), [MakeFile(0, 0), AppendTo(0, x)]), 0);
  }

  /** An empty file, unlinked: the two blocks it was made with stay taken. */
  lemma UnlinkLeaks()
    ensures var qs := [MakeFile(0, 0), AppendTo(0, []), Unlink(0)];
            && Proper(Blank(8, 8), qs) && Sound(Run(Blank(8, 8), qs))
            && Free(Blank(8, 8)) == 7 && Free(Run(Blank(8, 8), qs)) == 5
  {
    hide Sound;
    hide Blank;
    hide Erase;
    hide Create;
    BlankFormatted(8, 8);
    FormattedSound(Blank(8, 8));
    BlankNode(8, 8);
    var d, p, q, u := Blank(8, 8), MakeFile(0, 0), AppendTo(0, []), Unlink(0);
    CreateGood(d, 0, 0);
    var c := Create(d, 0, 0).0;
    assert Step(c, q) == c;
    EraseCount(c, 0);
    EraseKeeps(c, 0);
    assert [p, q, u][1..] == [q, u] && [q, u][1..] == [u] && [u][1..] == [];
    assert Proper(c, [u]);
    assert Proper(c, [q, u]);
    assert Run(c, [u]) == Run(Erase(c, 0), [u][1..]);
    assert Run(c, [q, u]) == Run(c, [q, u][1..]);
  }

  lemma BlankNode(n: nat, m: nat)
    requires n > 0
    ensures |Blank(n, m).nodes| == 1 && Blank(n, m).nodes[0].state == 0
  {
  }
}
