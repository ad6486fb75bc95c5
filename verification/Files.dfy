/** Files as two levels of pointers: who owns which block, and what a file reads as. */
module Files {
  import opened Bytes
  import opened Inodes

  /** Data blocks of a file of `s` bytes: an empty file has one already. */
  function DataBlocks(s: nat): (k: nat)
    ensures k >= 1
  {
    if s == 0 then 1 else Ceil(s)
  }

  /** Pointer blocks that hold `k` entries. */
  function PointerBlocks(k: nat): (q: nat)
  {
    (k + POINTERS - 1) / POINTERS
  }

  /** The block with bytes `4096 j` and on of the file. */
  function Entry(bs: seq<seq<byte>>, n: Node, j: nat): (b: nat)
  {
    Pointer(bs, Indirect(n, j / POINTERS), j % POINTERS)
  }

  /** Byte `x` of the file. */
  function ByteOf(bs: seq<seq<byte>>, n: Node, x: nat): (v: byte)
  {
    var b := Entry(bs, n, x / BLOCK);
    if b < |bs| && |bs[b]| == BLOCK then bs[b][x % BLOCK] else 0
  }

  function Content(d: Disk, i: nat): (r: seq<byte>)
    requires i < |d.nodes|
    ensures |r| == d.nodes[i].size
  {
    seq(d.nodes[i].size, x requires 0 <= x => ByteOf(d.blocks, d.nodes[i], x))
  }

  // ----- ownership -----

  /**
   Block `b` is part of file `i`, which has `ks[i]` data blocks: its data block `c`, or, when `c` is
   negative, its pointer block `-1 - c`.
   */
  ghost predicate Owns(d: Disk, ks: seq<nat>, i: nat, c: int, b: nat)
  {
    i < |d.nodes| == |ks| && d.nodes[i].state == 1 &&
    if c >= 0 then c < ks[i] && b == Entry(d.blocks, d.nodes[i], c)
    else -1 - c < PointerBlocks(ks[i]) && b == Indirect(d.nodes[i], -1 - c)
  }

  /** The bitmap has a bit for every block, and may have more. */
  ghost predicate Shaped(d: Disk, ks: seq<nat>)
  {
    && |d.blocks| <= |d.bits| <= WORD && |ks| == |d.nodes| && d.first > 0
    && (forall b | 0 <= b < |d.blocks| :: |d.blocks[b]| == BLOCK)
    && forall i | 0 <= i < |d.nodes| :: |d.nodes[i].indirect| == INDIRECT
  }

  /** Owned blocks are in the data area, on the disk, and marked. */
  ghost predicate Marked(d: Disk, ks: seq<nat>)
  {
    forall i: nat, c: int, b: nat :: Owns(d, ks, i, c, b) ==> d.first <= b < |d.blocks| && b < |d.bits| && d.bits[b]
  }

  ghost predicate Exclusive(d: Disk, ks: seq<nat>)
  {
    forall i: nat, c: int, j: nat, e: int, b: nat :: Owns(d, ks, i, c, b) && Owns(d, ks, j, e, b) ==> i == j && c == e
  }

  /** Behind the last pointer there is a 0. */
  ghost predicate Ended(d: Disk, i: nat, k: nat)
    requires i < |d.nodes|
  {
    var q := PointerBlocks(k);
    && q < INDIRECT && Indirect(d.nodes[i], q) == 0
    && forall j: nat | k <= j < q * POINTERS :: Entry(d.blocks, d.nodes[i], j) == 0
  }

  /** The tables with `ks` data blocks to each file. */
  ghost predicate Good(d: Disk, ks: seq<nat>)
  {
    && Shaped(d, ks) && Marked(d, ks) && Exclusive(d, ks)
    && forall i: nat | i < |d.nodes| && d.nodes[i].state == 1 && ks[i] > 0 :: Ended(d, i, ks[i])
  }

  function Counts(d: Disk): (ks: seq<nat>)
    ensures |ks| == |d.nodes| && forall i | 0 <= i < |d.nodes| :: ks[i] == DataBlocks(d.nodes[i].size)
  {
    seq(|d.nodes|, i requires 0 <= i < |d.nodes| => DataBlocks(d.nodes[i].size))
  }

  /** Sizes fit in 31 bits, and only files have any. */
  ghost predicate Sized(ns: seq<Node>)
  {
    forall i | 0 <= i < |ns| ::
      ns[i].state <= 2 && if ns[i].state == 1 then ns[i].size < 0x8000_0000 else ns[i].size == 0
  }

  /** Every file has the blocks its size asks for, and they are its own. */
  ghost predicate Sound(d: Disk)
  {
    Good(d, Counts(d)) && Sized(d.nodes)
  }

  // ----- pointers in bytes -----

  function SetPointer(b: seq<byte>, j: nat, p: nat): (r: seq<byte>)
    requires |b| == BLOCK && j < POINTERS && p < WORD
    ensures |r| == BLOCK
  {
    Splice(b, 4 * j, Le32(p))
  }

  lemma SetThenGet(b: seq<byte>, j: nat, p: nat, i: nat)
    requires |b| == BLOCK && j < POINTERS && i < POINTERS && p < WORD
    ensures PointerAt(SetPointer(b, j, p), i) == if i == j then p else PointerAt(b, i)
  {
    if i == j {
      Le32RoundTrip(p);
      assert SetPointer(b, j, p)[4 * j..4 * j + 4] == Le32(p);
    } else {
      SpliceElsewhere(b, 4 * j, Le32(p), 4 * i, 4 * i + 4);
    }
  }

  function Zeros(): (b: seq<byte>)
    ensures |b| == BLOCK
  {
    seq(BLOCK, _ => 0)
  }

  lemma ZeroPointer(j: nat)
    requires j < POINTERS
    ensures PointerAt(Zeros(), j) == 0
  {
    var z: seq<byte> := [0, 0, 0, 0];
    assert Zeros()[4 * j..4 * j + 4] == z;
    assert FromLe32(z) == 0;
  }

  // ----- taking a block -----

  function FirstZero(bits: seq<bool>, i: nat): (b: int)
    ensures b == -1 ==> forall k | i <= k < |bits| :: bits[k]
    ensures b != -1 ==> i <= b < |bits| && !bits[b]
    decreases |bits| - i
  {
    if i >= |bits| then -1 else if !bits[i] then i else FirstZero(bits, i + 1)
  }

  function CountZeros(bits: seq<bool>, from: nat): (n: nat)
  {
    if |bits| <= from then 0 else CountZeros(bits[..|bits| - 1], from) + if bits[|bits| - 1] then 0 else 1
  }

  lemma {:induction false} CountZerosUpdate(bits: seq<bool>, from: nat, i: nat, v: bool)
    requires from <= i < |bits|
    ensures CountZeros(bits[i := v], from) == CountZeros(bits, from) - (if bits[i] then 0 else 1) + (if v then 0 else 1)
  {
    var n := |bits| - 1;
    if i < n {
      CountZerosUpdate(bits[..n], from, i, v);
      assert bits[i := v][..n] == bits[..n][i := v];
    } else {
      assert bits[i := v][..n] == bits[..n];
    }
  }

  lemma {:induction false} NoZeros(bits: seq<bool>, from: nat)
    ensures CountZeros(bits, from) == 0 <==> FirstZero(bits, from) == -1
  {
    if |bits| > from {
      var n := |bits| - 1;
      NoZeros(bits[..n], from);
      if FirstZero(bits, from) != -1 && bits[n] {
        assert !bits[..n][FirstZero(bits, from)];
      }
      if FirstZero(bits[..n], from) != -1 {
        assert !bits[FirstZero(bits[..n], from)];
      }
    }
  }

  /** `cantidad_bloques_libres`: every unmarked bit counts, also behind the last block of the disk. */
  function Free(d: Disk): (n: nat)
  {
    CountZeros(d.bits, d.first)
  }

  /** The unmarked bits that are blocks of the disk. */
  function Room(d: Disk): (n: nat)
  {
    CountZeros(if |d.blocks| < |d.bits| then d.bits[..|d.blocks|] else d.bits, d.first)
  }

  /** No bit behind the last block counts as free. */
  predicate Covered(d: Disk)
  {
    forall b | |d.blocks| <= b < |d.bits| && d.first <= b :: d.bits[b]
  }

  lemma {:induction false} CountPrefix(bits: seq<bool>, from: nat, k: nat)
    requires k <= |bits|
    ensures CountZeros(bits[..k], from) <= CountZeros(bits, from)
    ensures CountZeros(bits[..k], from) == CountZeros(bits, from)
       <==> forall b | k <= b < |bits| && from <= b :: bits[b]
    decreases |bits|
  {
    var n := |bits| - 1;
    if k == |bits| {
      assert bits[..k] == bits;
    } else if |bits| > from {
      CountPrefix(bits[..n], from, k);
      assert bits[..n][..k] == bits[..k];
      if forall b | k <= b < n && from <= b :: bits[..n][b] {
        assert forall b | k <= b < n && from <= b :: bits[b] == bits[..n][b];
      } else {
        var b :| k <= b < n && from <= b && !bits[..n][b];
        assert !bits[b];
      }
    }
  }

  /** The code counts as many free blocks as there are exactly when the bits behind the disk are set. */
  lemma RoomExact(d: Disk)
    ensures Room(d) <= Free(d) && (Room(d) == Free(d) <==> Covered(d))
  {
    if |d.blocks| < |d.bits| {
      CountPrefix(d.bits, d.first, |d.blocks|);
    }
  }

  /** `get_bloque_vacio` */
  function Take(d: Disk): (r: (Disk, int))
    ensures r.1 != -1 ==> d.first <= r.1 < |d.bits| && !d.bits[r.1]
  {
    var b := FirstZero(d.bits, d.first);
    if b == -1 then (d, -1) else (d.(bits := d.bits[b := true]), b)
  }

  /** A block is found if any bit is unmarked, and lies on the disk exactly when some block of the disk is. */
  lemma TakeExact(d: Disk)
    requires |d.blocks| <= |d.bits|
    ensures var r := Take(d);
            && (r.1 == -1 <==> Free(d) == 0) && (0 <= r.1 < |d.blocks| <==> Room(d) > 0)
            && (if r.1 == -1 then r.0 == d else Free(r.0) == Free(d) - 1)
            && Room(r.0) == Room(d) - if Room(d) > 0 then 1 else 0
  {
    var k := |d.blocks|;
    var b := FirstZero(d.bits, d.first);
    var short := if k < |d.bits| then d.bits[..k] else d.bits;
    NoZeros(d.bits, d.first);
    NoZeros(short, d.first);
    if FirstZero(short, d.first) != -1 {
      assert !d.bits[FirstZero(short, d.first)];
      FirstIsFirst(d.bits, d.first, FirstZero(short, d.first));
    }
    if b != -1 {
      CountZerosUpdate(d.bits, d.first, b, true);
      var t := d.bits[b := true];
      if b < k {
        assert !short[b];
        CountZerosUpdate(short, d.first, b, true);
        assert k < |d.bits| ==> t[..k] == short[b := true];
      } else {
        assert t[..k] == d.bits[..k];
      }
    }
  }

  lemma {:induction false} FirstIsFirst(bits: seq<bool>, from: nat, b: nat)
    requires from <= b < |bits| && !bits[b]
    ensures from <= FirstZero(bits, from) <= b
    decreases b - from
  {
    if bits[from] {
      FirstIsFirst(bits, from + 1, b);
    }
  }

  // ----- adding a block to a file -----

  /**
   `Stray` is where the code writes to a block below the data area, through a pointer never set, and
   `OffDisk` where it writes to one behind the last block of the disk, past the mapped file; `Endless`
   is a turn of the loop that writes nothing and changes nothing.
   */
  datatype Status = Done | NoSpace | Stray | OffDisk | Endless

  /** `agregar_nodo`: entry `s / 4096` of the file, in a new pointer block when it is the first of one. */
  function AddNode(d: Disk, i: nat, b: nat): (r: (Disk, Status))
    requires i < |d.nodes|
  {
    var n := d.nodes[i];
    var p, pos := n.size / SPAN, n.size % SPAN / BLOCK;
    if p == INDIRECT - 1 && pos == POINTERS - 1 then (d, NoSpace)
    else if pos == 0 then
      var t := Take(d);
      if t.1 == -1 || p + 1 >= |n.indirect| then (t.0, NoSpace)
      else if t.1 >= |d.blocks| then (t.0, OffDisk)
      else
        (t.0.(nodes := d.nodes[i := n.(indirect := n.indirect[p := t.1 as nat][p + 1 := 0])],
              blocks := PutEntry(d.blocks[t.1 := Zeros()], t.1, 0, b)), Done)
    else (d.(blocks := PutEntry(d.blocks, Indirect(n, p), pos, b)), Done)
  }

  function PutEntry(bs: seq<seq<byte>>, pb: nat, pos: nat, b: nat): (r: seq<seq<byte>>)
    ensures |r| == |bs|
  {
    if pb < |bs| && |bs[pb]| == BLOCK && pos < POINTERS && b < WORD then bs[pb := SetPointer(bs[pb], pos, b)] else bs
  }

  lemma PutEntryGet(bs: seq<seq<byte>>, pb: nat, pos: nat, b: nat, x: nat, j: nat)
    requires pb < |bs| && |bs[pb]| == BLOCK && pos < POINTERS && b < WORD && j < POINTERS
    ensures Pointer(PutEntry(bs, pb, pos, b), x, j) == if x == pb && j == pos then b else Pointer(bs, x, j)
  {
    if x == pb {
      SetThenGet(bs[pb], pos, b, j);
    }
  }

  /** Entry `k` of a file is entry `k % 1024` of its pointer block `k / 1024`. */
  lemma Position(k: nat)
    ensures k < PointerBlocks(k + 1) * POINTERS && k / POINTERS == PointerBlocks(k + 1) - 1
    ensures PointerBlocks(k) == k / POINTERS + if k % POINTERS == 0 then 0 else 1
    ensures k <= PointerBlocks(k) * POINTERS
    ensures k * BLOCK / SPAN == k / POINTERS && k * BLOCK % SPAN / BLOCK == k % POINTERS
  {
  }

  /** A block owned now was owned before, or is the new one, or is the pointer block taken for it. */
  ghost predicate Came(d: Disk, ks: seq<nat>, g: Disk, i: nat, b: nat, j: nat, c: int, x: nat)
    requires i < |ks|
  {
    || Owns(d, ks, j, c, x)
    || (j == i && c == ks[i] && x == b)
    || (j == i && c == -1 - ks[i] / POINTERS && Spare(d, g, ks, x))
  }

  /** The file gains entry `ks[i]`, and maybe the pointer block it is in; nothing that was owned moves. */
  ghost predicate Gains(d: Disk, ks: seq<nat>, g: Disk, i: nat, b: nat)
    requires i < |d.nodes| == |ks|
  {
    var k := ks[i];
    && |g.nodes| == |d.nodes| && g.first == d.first
    && g.nodes == d.nodes[i := d.nodes[i].(indirect := g.nodes[i].indirect)]
    && |g.nodes[i].indirect| == |d.nodes[i].indirect|
    && |g.bits| == |d.bits| && (forall x | 0 <= x < |d.bits| && d.bits[x] :: g.bits[x])
    && |g.blocks| == |d.blocks|
    && (forall j: nat, c: int, x: nat :: Owns(g, ks[i := k + 1], j, c, x) ==>
          Came(d, ks, g, i, b, j, c, x))
    && (forall j: nat, c: nat | j < |ks| && d.nodes[j].state == 1 && c < ks[j] ::
          Entry(g.blocks, g.nodes[j], c) == Entry(d.blocks, d.nodes[j], c))
    && (forall j: nat, c: nat, x: nat :: Owns(d, ks, j, c, x) ==> x < |d.blocks| && g.blocks[x] == d.blocks[x])
    && Entry(g.blocks, g.nodes[i], k) == b
  }

  /** A block nobody owned, now marked. */
  ghost predicate Spare(d: Disk, g: Disk, ks: seq<nat>, x: nat)
  {
    d.first <= x < |d.blocks| && x < |d.bits| == |g.bits| && !d.bits[x] && g.bits[x]
  }

  /** A marked block of the data area that no file has. */
  ghost predicate Loose(d: Disk, ks: seq<nat>, b: nat)
  {
    d.first <= b < |d.blocks| && b < |d.bits| && d.bits[b] && forall j: nat, c: int :: !Owns(d, ks, j, c, b)
  }

  lemma GainsGood(d: Disk, ks: seq<nat>, g: Disk, i: nat, b: nat)
    requires Good(d, ks) && i < |d.nodes| && Loose(d, ks, b) && Gains(d, ks, g, i, b)
    requires Shaped(g, ks) && Ended(g, i, ks[i] + 1)
    requires forall j: nat | j < |d.nodes| && j != i && d.nodes[j].state == 1 && ks[j] > 0 :: Ended(g, j, ks[j])
    ensures Good(g, ks[i := ks[i] + 1])
  {
    hide Entry;
    hide Ended;
    hide Owns;
    var ls := ks[i := ks[i] + 1];
    forall j: nat, c: int, x: nat | Owns(g, ls, j, c, x)
      ensures g.first <= x < |g.blocks| && x < |g.bits| && g.bits[x]
    {
      assert Came(d, ks, g, i, b, j, c, x);
    }
    forall j: nat, c: int, m: nat, e: int, x: nat | Owns(g, ls, j, c, x) && Owns(g, ls, m, e, x)
      ensures j == m && c == e
    {
      assert Came(d, ks, g, i, b, j, c, x) && Came(d, ks, g, i, b, m, e, x);
    }
  }

  // ----- with room in the last pointer block -----

  function InPlace(d: Disk, i: nat, k: nat, b: nat): (g: Disk)
    requires i < |d.nodes|
  {
    d.(blocks := PutEntry(d.blocks, Indirect(d.nodes[i], k / POINTERS), k % POINTERS, b))
  }

  lemma Which(x: nat, q: nat)
    requires x < q * POINTERS
    ensures x / POINTERS < q
  {
  }

  lemma OwnedPointer(d: Disk, ks: seq<nat>, j: nat, x: nat)
    requires Good(d, ks) && j < |d.nodes| && d.nodes[j].state == 1 && x < PointerBlocks(ks[j]) * POINTERS
    ensures var pb := Indirect(d.nodes[j], x / POINTERS);
            Owns(d, ks, j, -1 - x / POINTERS, pb) && d.first <= pb < |d.blocks| && |d.blocks[pb]| == BLOCK
  {
    Which(x, PointerBlocks(ks[j]));
    assert Owns(d, ks, j, -1 - x / POINTERS, Indirect(d.nodes[j], x / POINTERS));
  }

  lemma EntryInPlace(d: Disk, ks: seq<nat>, i: nat, b: nat, j: nat, x: nat)
    requires Good(d, ks) && i < |d.nodes| == |ks| && d.nodes[i].state == 1 && ks[i] % POINTERS != 0 && b < WORD
    requires j < |d.nodes| && d.nodes[j].state == 1 && x < PointerBlocks(ks[j]) * POINTERS
    ensures Entry(InPlace(d, i, ks[i], b).blocks, d.nodes[j], x)
         == if j == i && x == ks[i] then b else Entry(d.blocks, d.nodes[j], x)
  {
    hide PutEntry;
    hide Good;
    var k := ks[i];
    Position(k);
    GoodParts(d, ks);
    OwnedPointer(d, ks, j, x);
    OwnedPointer(d, ks, i, k);
    PutEntryGet(d.blocks, Indirect(d.nodes[i], k / POINTERS), k % POINTERS, b,
                Indirect(d.nodes[j], x / POINTERS), x % POINTERS);
  }

  lemma GoodParts(d: Disk, ks: seq<nat>)
    requires Good(d, ks)
    ensures Shaped(d, ks) && Marked(d, ks) && Exclusive(d, ks)
  {
  }

  lemma OwnedEntry(d: Disk, ks: seq<nat>, j: nat, c: nat)
    requires Good(d, ks) && j < |d.nodes| && d.nodes[j].state == 1 && c < ks[j]
    ensures c < PointerBlocks(ks[j]) * POINTERS
    ensures var x := Entry(d.blocks, d.nodes[j], c);
            Owns(d, ks, j, c, x) && d.first <= x < |d.blocks| && |d.blocks[x]| == BLOCK
  {
    Position(ks[j]);
    assert Owns(d, ks, j, c, Entry(d.blocks, d.nodes[j], c));
  }

  lemma InPlaceGains(d: Disk, ks: seq<nat>, i: nat, b: nat)
    requires Good(d, ks) && i < |d.nodes| == |ks| && d.nodes[i].state == 1 && ks[i] % POINTERS != 0 && Loose(d, ks, b)
    ensures var g := InPlace(d, i, ks[i], b);
            Gains(d, ks, g, i, b) && Good(g, ks[i := ks[i] + 1])
  {
    hide PutEntry;
    hide Entry;
    hide Good;
    var k := ks[i];
    var g := InPlace(d, i, k, b);
    var ls := ks[i := k + 1];
    var pb := Indirect(d.nodes[i], k / POINTERS);
    GoodParts(d, ks);
    Position(k);
    Position(k + 1);
    OwnedPointer(d, ks, i, k);
    forall j: nat, c: nat | j < |ks| && d.nodes[j].state == 1 && c < ls[j]
      ensures Entry(g.blocks, g.nodes[j], c) == if j == i && c == k then b else Entry(d.blocks, d.nodes[j], c)
    {
      if c < ks[j] {
        OwnedEntry(d, ks, j, c);
      }
      EntryInPlace(d, ks, i, b, j, c);
    }
    forall j: nat, c: int, x: nat | Owns(g, ls, j, c, x) ensures Came(d, ks, g, i, b, j, c, x) {
      if c >= 0 && c != k {
        assert Owns(d, ks, j, c, x);
      }
    }
    forall j: nat, c: nat, x: nat | Owns(d, ks, j, c, x) ensures x < |d.blocks| && g.blocks[x] == d.blocks[x] {
      assert x != pb;
      PutElse(d.blocks, pb, k % POINTERS, b, x);
    }
    PutShape(d.blocks, pb, k % POINTERS, b);
    forall j: nat | j < |d.nodes| && d.nodes[j].state == 1 && ls[j] > 0 ensures Ended(g, j, ls[j]) {
      TailInPlace(d, ks, i, b, j);
    }
    GainsGood(d, ks, g, i, b);
  }

  lemma TailInPlace(d: Disk, ks: seq<nat>, i: nat, b: nat, j: nat)
    requires Good(d, ks) && i < |d.nodes| == |ks| && d.nodes[i].state == 1 && ks[i] % POINTERS != 0 && b < WORD
    requires j < |d.nodes| && d.nodes[j].state == 1 && ks[j] > 0
    ensures Ended(InPlace(d, i, ks[i], b), j, if j == i then ks[i] + 1 else ks[j])
  {
    hide PutEntry;
    hide Entry;
    var k := if j == i then ks[i] + 1 else ks[j];
    Position(ks[i]);
    assert Ended(d, j, ks[j]);
    var g := InPlace(d, i, ks[i], b);
    assert PointerBlocks(k) == PointerBlocks(ks[j]);
    forall x: nat | k <= x < PointerBlocks(k) * POINTERS ensures Entry(g.blocks, g.nodes[j], x) == 0 {
      EntryInPlace(d, ks, i, b, j, x);
    }
  }

  lemma PutElse(bs: seq<seq<byte>>, pb: nat, pos: nat, b: nat, x: nat)
    requires x < |bs| && x != pb
    ensures PutEntry(bs, pb, pos, b)[x] == bs[x]
  {
  }

  lemma PutShape(bs: seq<seq<byte>>, pb: nat, pos: nat, b: nat)
    requires forall x | 0 <= x < |bs| :: |bs[x]| == BLOCK
    ensures forall x | 0 <= x < |bs| :: |PutEntry(bs, pb, pos, b)[x]| == BLOCK
  {
  }

  // ----- with a new pointer block -----

  function InNew(d: Disk, i: nat, k: nat, b: nat, pb: nat): (g: Disk)
    requires i < |d.nodes| && k / POINTERS + 1 < |d.nodes[i].indirect| && pb < |d.bits| && pb < |d.blocks|
  {
    var n := d.nodes[i];
    d.(bits := d.bits[pb := true],
       nodes := d.nodes[i := n.(indirect := n.indirect[k / POINTERS := pb][k / POINTERS + 1 := 0])],
       blocks := PutEntry(d.blocks[pb := Zeros()], pb, 0, b))
  }

  /** The conditions under which `agregar_nodo` opens a pointer block. */
  ghost predicate Opens(d: Disk, ks: seq<nat>, i: nat, b: nat, pb: nat)
  {
    && Good(d, ks) && i < |d.nodes| == |ks| && d.nodes[i].state == 1 && ks[i] % POINTERS == 0
    && ks[i] / POINTERS + 1 < INDIRECT && Loose(d, ks, b)
    && d.first <= pb < |d.blocks| && pb < |d.bits| && !d.bits[pb]
  }

  lemma OpensParts(d: Disk, ks: seq<nat>, i: nat, b: nat, pb: nat)
    requires Opens(d, ks, i, b, pb)
    ensures pb < |d.blocks| <= WORD && b < |d.blocks| && pb != b && |d.nodes[i].indirect| == INDIRECT
    ensures forall j: nat, c: int :: !Owns(d, ks, j, c, pb)
  {
  }

  lemma PointerInNew(bs: seq<seq<byte>>, pb: nat, b: nat, x: nat, j: nat)
    requires pb < |bs| && b < WORD && j < POINTERS
    ensures Pointer(PutEntry(bs[pb := Zeros()], pb, 0, b), x, j) ==
      if x == pb then (if j == 0 then b else 0) else Pointer(bs, x, j)
  {
    PutEntryGet(bs[pb := Zeros()], pb, 0, b, x, j);
    ZeroPointer(j);
  }

  lemma EntryInNew(d: Disk, ks: seq<nat>, i: nat, b: nat, pb: nat, j: nat, x: nat)
    requires Opens(d, ks, i, b, pb) && j < |d.nodes| && d.nodes[j].state == 1
    requires x < PointerBlocks(if j == i then ks[i] + 1 else ks[j]) * POINTERS
    ensures pb < |d.blocks| && |d.nodes[i].indirect| == INDIRECT
    ensures var g := InNew(d, i, ks[i], b, pb);
            Entry(g.blocks, g.nodes[j], x) ==
              if j == i && x >= ks[i] then (if x == ks[i] then b else 0) else Entry(d.blocks, d.nodes[j], x)
  {
    hide PutEntry;
    hide Opens;
    OpensParts(d, ks, i, b, pb);
    OpensGood(d, ks, i, b, pb);
    var k := ks[i];
    Position(k);
    Position(k + 1);
    var g := InNew(d, i, k, b, pb);
    PointerInNew(d.blocks, pb, b, Indirect(g.nodes[j], x / POINTERS), x % POINTERS);
    if j == i && x >= k {
      Which(x, PointerBlocks(k + 1));
      Beyond(k, x);
    } else {
      OwnedPointer(d, ks, j, x);
      Which(x, PointerBlocks(ks[j]));
    }
  }

  lemma OpensGood(d: Disk, ks: seq<nat>, i: nat, b: nat, pb: nat)
    requires Opens(d, ks, i, b, pb)
    ensures Good(d, ks) && i < |d.nodes| == |ks| && d.nodes[i].state == 1 && ks[i] % POINTERS == 0
    ensures ks[i] / POINTERS + 1 < INDIRECT && Loose(d, ks, b)
    ensures d.first <= pb < |d.blocks| && pb < |d.bits| && !d.bits[pb]
  {
  }

  lemma Beyond(k: nat, x: nat)
    requires k % POINTERS == 0 && k <= x < PointerBlocks(k + 1) * POINTERS
    ensures x / POINTERS == k / POINTERS && (x % POINTERS == 0 <==> x == k)
  {
  }

  lemma InNewGains(d: Disk, ks: seq<nat>, i: nat, b: nat, pb: nat)
    requires Opens(d, ks, i, b, pb)
    ensures pb < |d.blocks| && |d.nodes[i].indirect| == INDIRECT
    ensures var g := InNew(d, i, ks[i], b, pb);
            Gains(d, ks, g, i, b) && Good(g, ks[i := ks[i] + 1])
  {
    hide PutEntry;
    hide Entry;
    hide Good;
    hide Opens;
    OpensParts(d, ks, i, b, pb);
    OpensGood(d, ks, i, b, pb);
    var k := ks[i];
    var g := InNew(d, i, k, b, pb);
    var ls := ks[i := k + 1];
    GoodParts(d, ks);
    Position(k);
    Position(k + 1);
    forall j: nat, c: nat | j < |ks| && d.nodes[j].state == 1 && c < ls[j]
      ensures Entry(g.blocks, g.nodes[j], c) == if j == i && c == k then b else Entry(d.blocks, d.nodes[j], c)
    {
      Position(ls[j]);
      EntryInNew(d, ks, i, b, pb, j, c);
    }
    forall j: nat, c: int, x: nat | Owns(g, ls, j, c, x) ensures Came(d, ks, g, i, b, j, c, x) {
      if c >= 0 {
        assert c != k ==> Owns(d, ks, j, c, x);
      } else if j != i || -1 - c < k / POINTERS {
        assert Owns(d, ks, j, c, x);
      }
    }
    forall j: nat, c: nat, x: nat | Owns(d, ks, j, c, x) ensures x < |d.blocks| && g.blocks[x] == d.blocks[x] {
      assert x != pb;
      PutElse(d.blocks[pb := Zeros()], pb, 0, b, x);
    }
    PutShape(d.blocks[pb := Zeros()], pb, 0, b);
    forall j: nat | j < |d.nodes| && d.nodes[j].state == 1 && ls[j] > 0 ensures Ended(g, j, ls[j]) {
      TailInNew(d, ks, i, b, pb, j);
    }
    GainsGood(d, ks, g, i, b);
  }

  lemma TailInNew(d: Disk, ks: seq<nat>, i: nat, b: nat, pb: nat, j: nat)
    requires Opens(d, ks, i, b, pb) && j < |d.nodes| && d.nodes[j].state == 1 && (j == i || ks[j] > 0)
    ensures pb < |d.blocks| && |d.nodes[i].indirect| == INDIRECT
    ensures Ended(InNew(d, i, ks[i], b, pb), j, if j == i then ks[i] + 1 else ks[j])
  {
    hide PutEntry;
    hide Entry;
    hide Opens;
    OpensParts(d, ks, i, b, pb);
    OpensGood(d, ks, i, b, pb);
    var k := if j == i then ks[i] + 1 else ks[j];
    Position(ks[i]);
    Position(ks[i] + 1);
    var g := InNew(d, i, ks[i], b, pb);
    assert j != i ==> Ended(d, j, ks[j]);
    forall x: nat | k <= x < PointerBlocks(k) * POINTERS ensures Entry(g.blocks, g.nodes[j], x) == 0 {
      EntryInNew(d, ks, i, b, pb, j, x);
    }
  }

  // ----- taking and adding -----

  /** A bit marked that was not marked: whoever owned what still does. */
  lemma MarkKeeps(d: Disk, ks: seq<nat>, b: nat)
    requires Good(d, ks) && b < |d.bits| && !d.bits[b]
    ensures var g := d.(bits := d.bits[b := true]);
            Good(g, ks) && (d.first <= b < |d.blocks| ==> Loose(g, ks, b))
  {
    hide Entry;
    var g := d.(bits := d.bits[b := true]);
    forall j: nat, c: int, x: nat ensures Owns(g, ks, j, c, x) == Owns(d, ks, j, c, x) {
    }
    forall j: nat | j < |d.nodes| && d.nodes[j].state == 1 && ks[j] > 0 ensures Ended(g, j, ks[j]) {
      assert Ended(d, j, ks[j]);
    }
  }

  /** Ownership stays good whatever block is found; one on the disk is nobody's, and is marked now. */
  lemma TakeKeeps(d: Disk, ks: seq<nat>)
    requires Good(d, ks)
    ensures var r := Take(d);
            && Good(r.0, ks) && r.0 == d.(bits := r.0.bits) && |r.0.bits| == |d.bits|
            && (if Room(d) > 0 then r.1 != -1 && Loose(r.0, ks, r.1) else r.1 == -1 || r.1 >= |d.blocks|)
            && (if Free(d) == 0 then r == (d, -1) else r.1 != -1 && Free(r.0) == Free(d) - 1)
            && Room(r.0) == Room(d) - if Room(d) > 0 then 1 else 0
  {
    hide Good;
    hide Loose;
    GoodParts(d, ks);
    TakeExact(d);
    RoomExact(d);
    if Free(d) != 0 {
      MarkKeeps(d, ks, Take(d).1);
    }
  }

  lemma AddNodeKeeps(d: Disk, ks: seq<nat>, i: nat, b: nat)
    requires Good(d, ks) && i < |d.nodes| == |ks| && d.nodes[i].state == 1 && Loose(d, ks, b)
    requires d.nodes[i].size == ks[i] * BLOCK < 0x8000_0000
    ensures var r := AddNode(d, i, b);
            && r.1 == (if ks[i] % POINTERS != 0 || Room(d) > 0 then Done else if Free(d) == 0 then NoSpace else OffDisk)
            && (r.1 == NoSpace ==> r.0 == d)
            && (r.1 == Done ==> Gains(d, ks, r.0, i, b) && Good(r.0, ks[i := ks[i] + 1]))
            && var k := if ks[i] % POINTERS == 0 then 1 else 0;
               r.1 == Done ==> Free(r.0) == Free(d) - k && Room(r.0) == Room(d) - k
  {
    hide Gains;
    hide PutEntry;
    hide Loose;
    hide CountZeros;
    var k := ks[i];
    Position(k);
    TakeExact(d);
    RoomExact(d);
    if k % POINTERS != 0 {
      InPlaceGains(d, ks, i, b);
    } else if Room(d) > 0 {
      InNewGains(d, ks, i, b, Take(d).1);
    }
  }

  // ----- writing data -----

  /** `memcpy` of `x` to offset `at` of block `b`: what is too long for it runs on into the next block of the disk. */
  function Copy(bs: seq<seq<byte>>, b: nat, at: nat, x: seq<byte>): (r: seq<seq<byte>>)
    ensures |r| == |bs|
  {
    if b >= |bs| || |bs[b]| != BLOCK then bs
    else if at + |x| <= BLOCK then bs[b := Splice(bs[b], at, x)]
    else if at > BLOCK || b + 1 >= |bs| || |bs[b + 1]| != BLOCK || at + |x| > 2 * BLOCK then bs
    else bs[b := Splice(bs[b], at, x[..BLOCK - at])][b + 1 := Splice(bs[b + 1], 0, x[BLOCK - at..])]
  }

  /** One piece, and the size of the file set to `s`. */
  function PutAs(d: Disk, i: nat, b: nat, at: nat, x: seq<byte>, s: nat): (g: Disk)
    requires i < |d.nodes|
  {
    d.(blocks := Copy(d.blocks, b, at, x), nodes := d.nodes[i := d.nodes[i].(size := s)])
  }

  /** One piece, and the file that much longer. */
  function Put(d: Disk, i: nat, b: nat, at: nat, x: seq<byte>): (g: Disk)
    requires i < |d.nodes|
  {
    PutAs(d, i, b, at, x, d.nodes[i].size + |x|)
  }

  /** Owned entries and the blocks behind them, but for data block `c` of file `i`, stay as they are. */
  lemma PutKeeps(d: Disk, ks: seq<nat>, i: nat, c: nat, b: nat, at: nat, x: seq<byte>, s: nat)
    requires Good(d, ks) && i < |d.nodes| == |ks| && Owns(d, ks, i, c, b) && at + |x| <= BLOCK
    ensures var g := PutAs(d, i, b, at, x, s);
            && Good(g, ks) && Free(g) == Free(d) && Room(g) == Room(d)
            && (forall j: nat, e: nat | j < |d.nodes| && d.nodes[j].state == 1 && e < ks[j] ::
                  Entry(g.blocks, g.nodes[j], e) == Entry(d.blocks, d.nodes[j], e))
  {
    hide Good;
    hide Splice;
    GoodParts(d, ks);
    var g := PutAs(d, i, b, at, x, s);
    forall j: nat, e: nat | j < |d.nodes| && d.nodes[j].state == 1 && e < PointerBlocks(ks[j]) * POINTERS
      ensures Entry(g.blocks, g.nodes[j], e) == Entry(d.blocks, d.nodes[j], e)
    {
      OwnedPointer(d, ks, j, e);
    }
    forall j: nat, e: nat | j < |d.nodes| && d.nodes[j].state == 1 && e < ks[j]
      ensures Entry(g.blocks, g.nodes[j], e) == Entry(d.blocks, d.nodes[j], e)
    {
      OwnedEntry(d, ks, j, e);
    }
    PutGood(d, ks, g);
  }

  lemma PutGood(d: Disk, ks: seq<nat>, g: Disk)
    requires Good(d, ks) && Shaped(g, ks) && g.bits == d.bits && g.first == d.first
    requires |g.nodes| == |d.nodes| && |g.blocks| == |d.blocks|
    requires forall j | 0 <= j < |d.nodes| ::
      g.nodes[j].state == d.nodes[j].state && g.nodes[j].indirect == d.nodes[j].indirect
    requires forall j: nat, e: nat | j < |d.nodes| && d.nodes[j].state == 1 && e < PointerBlocks(ks[j]) * POINTERS ::
      Entry(g.blocks, g.nodes[j], e) == Entry(d.blocks, d.nodes[j], e)
    ensures Good(g, ks)
  {
    hide Entry;
    forall j: nat, c: int, x: nat ensures Owns(g, ks, j, c, x) == Owns(d, ks, j, c, x) {
      if c >= 0 && j < |ks| && c < ks[j] {
        Position(ks[j]);
      }
    }
    forall j: nat | j < |d.nodes| && d.nodes[j].state == 1 && ks[j] > 0 ensures Ended(g, j, ks[j]) {
      assert Ended(d, j, ks[j]);
    }
  }

  // ----- contents -----

  /** File `i` reads as before with `x` behind it; every other file reads as before. */
  ghost predicate Grown(d: Disk, g: Disk, i: nat, x: seq<byte>)
    requires i < |d.nodes|
  {
    && |g.nodes| == |d.nodes| && g.first == d.first
    && g.nodes[i] == d.nodes[i].(size := d.nodes[i].size + |x|, indirect := g.nodes[i].indirect)
    && (forall j | 0 <= j < |d.nodes| && j != i :: g.nodes[j] == d.nodes[j])
    && Content(g, i) == Content(d, i) + x
    && forall j | 0 <= j < |d.nodes| && j != i && d.nodes[j].state == 1 :: Content(g, j) == Content(d, j)
  }

  lemma GrownTrans(d: Disk, e: Disk, g: Disk, i: nat, x: seq<byte>, y: seq<byte>)
    requires i < |d.nodes| && Grown(d, e, i, x) && Grown(e, g, i, y)
    ensures Grown(d, g, i, x + y)
  {
    hide Content;
    assert (Content(d, i) + x) + y == Content(d, i) + (x + y);
  }

  lemma Split(x: nat, s: nat)
    ensures x < s ==> x / BLOCK < DataBlocks(s)
    ensures s % BLOCK != 0 || s == 0 ==> DataBlocks(s) == s / BLOCK + 1
    ensures s % BLOCK == 0 && s != 0 ==> DataBlocks(s) == s / BLOCK && s == DataBlocks(s) * BLOCK
  {
  }

  /** The entries owned, and the data in their blocks, are the same in both. */
  ghost predicate SameData(d: Disk, ks: seq<nat>, g: Disk)
  {
    && |g.nodes| == |d.nodes| == |ks|
    && forall j: nat, e: nat | j < |d.nodes| && d.nodes[j].state == 1 && e < ks[j] ::
         var b := Entry(d.blocks, d.nodes[j], e);
         Entry(g.blocks, g.nodes[j], e) == b && b < |d.blocks| && b < |g.blocks| && g.blocks[b] == d.blocks[b]
  }

  lemma SameByte(d: Disk, ks: seq<nat>, g: Disk, j: nat, x: nat)
    requires SameData(d, ks, g) && j < |d.nodes| && d.nodes[j].state == 1 && x / BLOCK < ks[j]
    ensures ByteOf(g.blocks, g.nodes[j], x) == ByteOf(d.blocks, d.nodes[j], x)
  {
    hide Entry;
  }

  lemma GainsSameData(d: Disk, ks: seq<nat>, g: Disk, i: nat, b: nat)
    requires Good(d, ks) && i < |d.nodes| == |ks| && Gains(d, ks, g, i, b)
    ensures SameData(d, ks, g)
  {
    hide Entry;
    hide Good;
    forall j: nat, e: nat | j < |d.nodes| && d.nodes[j].state == 1 && e < ks[j]
      ensures var x := Entry(d.blocks, d.nodes[j], e);
              Entry(g.blocks, g.nodes[j], e) == x && x < |d.blocks| && x < |g.blocks| && g.blocks[x] == d.blocks[x]
    {
      OwnedEntry(d, ks, j, e);
    }
  }

  /** One piece written behind the end of the file, inside its data block `s / 4096`. */
  lemma PieceGrows(d: Disk, ks: seq<nat>, i: nat, b: nat, x: seq<byte>)
    requires Good(d, ks) && i < |d.nodes| == |ks| && Owns(d, ks, i, d.nodes[i].size / BLOCK, b)
    requires d.nodes[i].size % BLOCK + |x| <= BLOCK
    requires forall j | 0 <= j < |d.nodes| && d.nodes[j].state == 1 && j != i :: ks[j] == DataBlocks(d.nodes[j].size)
    ensures Grown(d, Put(d, i, b, d.nodes[i].size % BLOCK, x), i, x)
  {
    hide Good;
    hide Entry;
    hide Splice;
    var s := d.nodes[i].size;
    var c, at := s / BLOCK, s % BLOCK;
    var g := Put(d, i, b, at, x);
    GoodParts(d, ks);
    PutKeeps(d, ks, i, c, b, at, x, s + |x|);
    forall j | 0 <= j < |d.nodes| && j != i && d.nodes[j].state == 1 ensures Content(g, j) == Content(d, j) {
      forall y: nat | y < d.nodes[j].size ensures ByteOf(g.blocks, g.nodes[j], y) == ByteOf(d.blocks, d.nodes[j], y) {
        Split(y, d.nodes[j].size);
        OwnedEntry(d, ks, j, y / BLOCK);
      }
    }
    forall y: nat | y < s + |x|
      ensures ByteOf(g.blocks, g.nodes[i], y) == if y < s then ByteOf(d.blocks, d.nodes[i], y) else x[y - s]
    {
      OwnedEntry(d, ks, i, c);
      PieceByte(d, ks, i, b, x, y);
    }
    assert Content(g, i) == Content(d, i) + x;
  }

  lemma PieceByte(d: Disk, ks: seq<nat>, i: nat, b: nat, x: seq<byte>, y: nat)
    requires Good(d, ks) && i < |d.nodes| == |ks| && Owns(d, ks, i, d.nodes[i].size / BLOCK, b)
    requires d.nodes[i].size % BLOCK + |x| <= BLOCK && y < d.nodes[i].size + |x|
    ensures var g := Put(d, i, b, d.nodes[i].size % BLOCK, x);
            ByteOf(g.blocks, g.nodes[i], y)
            == if y < d.nodes[i].size then ByteOf(d.blocks, d.nodes[i], y) else x[y - d.nodes[i].size]
  {
    hide Good;
    hide Entry;
    var s := d.nodes[i].size;
    var c, at := s / BLOCK, s % BLOCK;
    GoodParts(d, ks);
    PutKeeps(d, ks, i, c, b, at, x, s + |x|);
    OwnedEntry(d, ks, i, c);
    Cut(s, y, |x|);
    if y / BLOCK != c {
      OwnedEntry(d, ks, i, y / BLOCK);
    }
  }

  lemma Cut(s: nat, y: nat, n: nat)
    requires s % BLOCK + n <= BLOCK && y < s + n
    ensures y / BLOCK <= s / BLOCK
    ensures y / BLOCK == s / BLOCK ==> y % BLOCK - s % BLOCK == y - s
    ensures y >= s ==> y / BLOCK == s / BLOCK
  {
  }

  // ----- append -----

  /** What is left in the last block: all of it in a new file, nothing when it is full. */
  function Space(s: nat): (k: nat)
    ensures k <= BLOCK && (s % BLOCK + k <= BLOCK)
  {
    if s == 0 then BLOCK else if s % BLOCK == 0 then 0 else BLOCK - s % BLOCK
  }

  /** One piece: a whole block, the rest of the buffer, or as much as the last block still holds. */
  function Piece(buf: seq<byte>, space: nat): (m: nat)
    ensures m <= |buf| && (buf != [] && space > 0 ==> m > 0)
  {
    if |buf| >= BLOCK then BLOCK else if |buf| <= space then |buf| else space
  }

  /** The size of a file of `s` bytes after a piece at `off`, of which `n` bytes were left to write. */
  function SizeAfter(s: nat, off: nat, n: nat, space: nat): (t: nat)
  {
    if n >= BLOCK then if s <= off then s + BLOCK else s
    else if n <= space then if s <= off then s + n else if s <= off + n then off + n else s
    else s + space
  }

  /**
   The loop of `escribir_archivo` at offset `off`: the space it reckons with is always that of the last
   block. `o` is its `offset_in_block`, which is 0 after the first piece.
   */
  function Write(d: Disk, i: nat, buf: seq<byte>, off: nat, o: nat): (r: (Disk, Status))
    requires i < |d.nodes|
    ensures |r.0.nodes| == |d.nodes|
    decreases |buf|, 1
  {
    if buf == [] then (d, Done)
    else
      var n := d.nodes[i];
      if n.size != 0 && off >= n.size + Space(n.size) then
        var t := Take(d);
        if t.1 == -1 then (d, NoSpace)
        else
          var a := AddNode(t.0, i, t.1);
          if a.1 != Done then a else Fill(a.0, i, t.1, buf, off, o, BLOCK)
      else
        var pb := Indirect(n, off / SPAN);
        var b := Pointer(d.blocks, pb, off % SPAN / BLOCK);
        if pb < d.first || b < d.first then (d, Stray) else Fill(d, i, b, buf, off, o, Space(n.size))
  }

  function Fill(d: Disk, i: nat, b: nat, buf: seq<byte>, off: nat, o: nat, space: nat): (r: (Disk, Status))
    requires i < |d.nodes| && buf != []
    ensures |r.0.nodes| == |d.nodes|
    decreases |buf|, 0
  {
    var m, at := Piece(buf, space), if |buf| >= BLOCK then 0 else o;
    if m == 0 then (d, Endless)
    else if b >= |d.blocks| || (at + m > BLOCK && b + 1 >= |d.blocks|) then (d, OffDisk)
    else
      var s := SizeAfter(d.nodes[i].size, off, |buf|, space);
      Write(PutAs(d, i, b, at, buf[..m], s), i, buf[m..], off + m, 0)
  }

  /** One turn of the loop: where the next piece goes, or why there is none. */
  lemma WriteIs(d: Disk, i: nat, buf: seq<byte>, off: nat, o: nat)
    requires i < |d.nodes| && buf != []
    ensures var n := d.nodes[i]; var t := Take(d);
            var a := if t.1 == -1 then (d, NoSpace) else AddNode(t.0, i, t.1);
            var pb := Indirect(n, off / SPAN); var b := Pointer(d.blocks, pb, off % SPAN / BLOCK);
            && i < |a.0.nodes|
            && Write(d, i, buf, off, o)
               == if n.size != 0 && off >= n.size + Space(n.size) then
                    (if a.1 != Done then a else Fill(a.0, i, t.1, buf, off, o, BLOCK))
                  else if pb < d.first || b < d.first then (d, Stray)
                  else Fill(d, i, b, buf, off, o, Space(n.size))
  {
    hide AddNode;
    hide Pointer;
    hide Fill;
    AddNodeSize(Take(d).0, i, if Take(d).1 == -1 then 0 else Take(d).1);
  }

  lemma FillIs(d: Disk, i: nat, b: nat, buf: seq<byte>, off: nat, o: nat, space: nat)
    requires i < |d.nodes| && buf != []
    ensures var m, at := Piece(buf, space), if |buf| >= BLOCK then 0 else o;
            var g := PutAs(d, i, b, at, buf[..m], SizeAfter(d.nodes[i].size, off, |buf|, space));
            && i < |g.nodes|
            && Fill(d, i, b, buf, off, o, space)
               == if m == 0 then (d, Endless)
                  else if b >= |d.blocks| || (at + m > BLOCK && b + 1 >= |d.blocks|) then (d, OffDisk)
                  else Write(g, i, buf[m..], off + m, 0)
  {
    hide Write;
    hide Copy;
  }

  lemma WriteNothing(d: Disk, i: nat, off: nat, o: nat)
    requires i < |d.nodes|
    ensures Write(d, i, [], off, o) == (d, Done)
  {
  }

  /** The same at the end of the file. */
  function Append(d: Disk, i: nat, buf: seq<byte>, o: nat): (r: (Disk, Status))
    requires i < |d.nodes|
  {
    Write(d, i, buf, d.nodes[i].size, o)
  }

  /** There a new block is taken when the last one is full. */
  lemma AppendTurn(d: Disk, i: nat, buf: seq<byte>, o: nat)
    requires i < |d.nodes| && buf != []
    ensures var n := d.nodes[i]; var t := Take(d);
            var a := if t.1 == -1 then (d, NoSpace) else AddNode(t.0, i, t.1);
            var pb := Indirect(n, n.size / SPAN); var b := Pointer(d.blocks, pb, n.size % SPAN / BLOCK);
            && i < |a.0.nodes|
            && Append(d, i, buf, o)
               == if Space(n.size) == 0 then
                    (if a.1 != Done then a else Fill(a.0, i, t.1, buf, n.size, o, BLOCK))
                  else if pb < d.first || b < d.first then (d, Stray)
                  else Fill(d, i, b, buf, n.size, o, Space(n.size))
  {
    hide AddNode;
    hide Pointer;
    hide Fill;
    hide Write;
    WriteIs(d, i, buf, d.nodes[i].size, o);
  }

  lemma AddNodeSize(d: Disk, i: nat, b: nat)
    requires i < |d.nodes|
    ensures |AddNode(d, i, b).0.nodes| == |d.nodes| && AddNode(d, i, b).0.nodes[i].size == d.nodes[i].size
    ensures |AddNode(d, i, b).0.blocks| == |d.blocks|
  {
  }

  /** And each piece lengthens the file, wherever its block lies. */
  lemma FillTurn(d: Disk, i: nat, b: nat, buf: seq<byte>, o: nat, space: nat)
    requires i < |d.nodes| && buf != [] && space > 0
    requires |buf| >= BLOCK || o + Piece(buf, space) <= BLOCK
    ensures var m := Piece(buf, space);
            Fill(d, i, b, buf, d.nodes[i].size, o, space)
            == if b >= |d.blocks| then (d, OffDisk)
               else Append(Put(d, i, b, if |buf| >= BLOCK then 0 else o, buf[..m]), i, buf[m..], 0)
  {
    hide Write;
    hide Copy;
    hide Fill;
    FillIs(d, i, b, buf, d.nodes[i].size, o, space);
  }

  /** Blocks a file of `s` bytes needs for `n` more. */
  function Need(s: nat, n: nat): (k: int)
  {
    DataBlocks(s + n) - DataBlocks(s) + PointerBlocks(DataBlocks(s + n)) - PointerBlocks(DataBlocks(s))
  }

  lemma NeedPiece(s: nat, m: nat)
    requires 0 < m && s % BLOCK + m <= BLOCK
    ensures Need(s, m) == if Space(s) > 0 then 0 else if DataBlocks(s) % POINTERS == 0 then 2 else 1
    ensures DataBlocks(s + m) == s / BLOCK + 1
  {
    hide Ceil;
    hide PointerBlocks;
    PieceBlocks(s, m);
    Position(DataBlocks(s));
    Position(DataBlocks(s) + 1);
  }

  lemma PieceBlocks(s: nat, m: nat)
    requires 0 < m && s % BLOCK + m <= BLOCK
    ensures DataBlocks(s + m) == s / BLOCK + 1
    ensures DataBlocks(s) == s / BLOCK + if Space(s) > 0 then 1 else 0
  {
  }

  lemma NeedMore(s: nat, n: nat)
    ensures Need(s, n) >= 0
  {
    Monotone(s, s + n);
  }

  lemma Monotone(s: nat, t: nat)
    requires s <= t
    ensures DataBlocks(s) <= DataBlocks(t) && PointerBlocks(DataBlocks(s)) <= PointerBlocks(DataBlocks(t))
  {
  }

  /** A file, room in 31 bits, and an append that the loop places right. */
  ghost predicate Appends(d: Disk, i: nat, buf: seq<byte>)
  {
    && Sound(d) && i < |d.nodes| && d.nodes[i].state == 1 && d.nodes[i].size + |buf| < 0x8000_0000
    && (d.nodes[i].size % BLOCK == 0 || |buf| < BLOCK)
  }

  /**
   The outcome: the buffer, or as much of it as the disk has blocks for, behind the file, and no bit
   behind the disk taken for a block.
   */
  ghost predicate Appended(d: Disk, i: nat, buf: seq<byte>, r: (Disk, Status))
    requires i < |d.nodes|
  {
    && Sound(r.0) && i < |r.0.nodes|
    && Free(r.0) - Room(r.0) == Free(d) - Room(d)
    && var w := r.0.nodes[i].size - d.nodes[i].size;
       && 0 <= w <= |buf| && Grown(d, r.0, i, buf[..w])
       && (if Need(d.nodes[i].size, |buf|) <= Room(d)
           then r.1 == Done && w == |buf| && Room(r.0) == Room(d) - Need(d.nodes[i].size, |buf|)
           else r.1 == NoSpace && w < |buf| && Need(d.nodes[i].size, w + 1) > Room(d))
  }

  /** A bit behind the disk was taken for a block, and maybe written to. */
  ghost predicate FellOff(d: Disk, r: (Disk, Status))
  {
    r.1 == OffDisk || Free(r.0) - Room(r.0) < Free(d) - Room(d)
  }

  /** It falls off when the disk is full before its bitmap is. */
  ghost predicate Outcome(d: Disk, i: nat, buf: seq<byte>, r: (Disk, Status))
    requires i < |d.nodes|
  {
    if Need(d.nodes[i].size, |buf|) <= Room(d) || Covered(d) then Appended(d, i, buf, r) else FellOff(d, r)
  }

  lemma NothingGrown(d: Disk, i: nat)
    requires i < |d.nodes|
    ensures Grown(d, d, i, [])
  {
    assert Content(d, i) + [] == Content(d, i);
    assert d.nodes[i].(size := d.nodes[i].size + 0) == d.nodes[i];
  }

  /** One piece on a sound disk whose file has room in block `b` for it. */
  lemma PieceKeeps(d: Disk, ks: seq<nat>, i: nat, b: nat, x: seq<byte>)
    requires Good(d, ks) && i < |d.nodes| == |ks| && Owns(d, ks, i, d.nodes[i].size / BLOCK, b)
    requires 0 < |x| && d.nodes[i].size % BLOCK + |x| <= BLOCK && d.nodes[i].size + |x| < 0x8000_0000
    requires ks[i] == d.nodes[i].size / BLOCK + 1
    requires forall j | 0 <= j < |d.nodes| && j != i :: ks[j] == DataBlocks(d.nodes[j].size)
    requires Sized(d.nodes)
    ensures var g := Put(d, i, b, d.nodes[i].size % BLOCK, x);
            Sound(g) && Free(g) == Free(d) && Room(g) == Room(d) && Grown(d, g, i, x)
  {
    hide Good;
    hide Entry;
    var s := d.nodes[i].size;
    var g := Put(d, i, b, s % BLOCK, x);
    PutKeeps(d, ks, i, s / BLOCK, b, s % BLOCK, x, s + |x|);
    PieceGrows(d, ks, i, b, x);
    NeedPiece(s, |x|);
    assert Counts(g) == ks;
  }

  lemma {:induction false} AppendOutcome(d: Disk, i: nat, buf: seq<byte>)
    requires Appends(d, i, buf)
    ensures Outcome(d, i, buf, Append(d, i, buf, d.nodes[i].size % BLOCK))
    decreases |buf|, 1
  {
    hide Good;
    hide Entry;
    hide Grown;
    hide Fill;
    hide Write;
    hide Take;
    hide AddNode;
    hide Free;
    hide Room;
    hide Covered;
    hide Gains;
    hide Loose;
    var s := d.nodes[i].size;
    var ks := Counts(d);
    RoomExact(d);
    if buf == [] {
      NothingGrown(d, i);
      assert buf[..0] == [];
      WriteNothing(d, i, s, s % BLOCK);
    } else if Space(s) == 0 {
      AppendTurn(d, i, buf, s % BLOCK);
      NoRoom(s, |buf|);
      NoRoom(s, 1);
      TakeKeeps(d, ks);
      var t := Take(d);
      if Free(d) == 0 {
        NothingGrown(d, i);
        assert buf[..0] == [];
      } else if Room(d) == 0 {
        GoodParts(d, ks);
        AddNodeFalls(t.0, i, t.1);
        AddNodeSize(t.0, i, t.1);
        FillTurn(AddNode(t.0, i, t.1).0, i, t.1, buf, s % BLOCK, BLOCK);
      } else {
        Split(0, s);
        AddNodeKeeps(t.0, ks, i, t.1);
        var a := AddNode(t.0, i, t.1);
        TakenGrown(d, t.0, i);
        if a.1 == Done {
          AddedGrown(d, t.0, a.0, ks, i, t.1);
          var ls := ks[i := ks[i] + 1];
          NewOwned(t.0, ks, a.0, i, t.1);
          LooseOnDisk(t.0, ks, t.1);
          FillGood(d, a.0, ls, i, t.1, buf, s % BLOCK, BLOCK);
        } else {
          assert buf[..0] == [];
        }
      }
    } else {
      AppendTurn(d, i, buf, s % BLOCK);
      Split(0, s);
      LastOwned(d, ks, i);
      NothingGrown(d, i);
      FillGood(d, d, ks, i, Entry(d.blocks, d.nodes[i], s / BLOCK), buf, s % BLOCK, Space(s));
    }
  }

  /** Without room it marks nothing on the disk. */
  lemma AddNodeFalls(d: Disk, i: nat, b: nat)
    requires i < |d.nodes| && |d.blocks| <= |d.bits|
    ensures var r := AddNode(d, i, b);
            && (r.1.Done? || r.1.NoSpace? || r.1.OffDisk?)
            && (r.1 == NoSpace ==> Free(r.0) - Room(r.0) <= Free(d) - Room(d))
  {
    hide CountZeros;
    TakeExact(d);
    RoomExact(d);
  }

  lemma LooseOnDisk(d: Disk, ks: seq<nat>, b: nat)
    requires Loose(d, ks, b)
    ensures b < |d.blocks|
  {
  }

  /** With the blocks it needs, or on a disk whose bitmap counts no others, such an append comes out right. */
  lemma AppendGood(d: Disk, i: nat, buf: seq<byte>)
    requires Appends(d, i, buf) && (Need(d.nodes[i].size, |buf|) <= Room(d) || Covered(d))
    ensures Appended(d, i, buf, Append(d, i, buf, d.nodes[i].size % BLOCK))
  {
    hide Appends;
    hide Appended;
    AppendOutcome(d, i, buf);
  }

  /** Needs one block at least, and two when a pointer block is full. */
  lemma NoRoom(s: nat, n: nat)
    requires Space(s) == 0 && n > 0
    ensures Need(s, n) >= if DataBlocks(s) % POINTERS == 0 then 2 else 1
  {
    NeedPiece(s, 1);
    NeedMore(s + 1, n - 1);
  }

  lemma TakenGrown(d: Disk, t: Disk, i: nat)
    requires i < |d.nodes| && t == d.(bits := t.bits) && Sound(d) && Good(t, Counts(d))
    ensures Grown(d, t, i, []) && Sound(t)
  {
    hide Good;
    assert Counts(t) == Counts(d);
    assert Content(d, i) + [] == Content(d, i);
    assert d.nodes[i].(size := d.nodes[i].size + 0) == d.nodes[i];
  }

  /** The new entry is there; nothing reads differently yet. */
  lemma AddedGrown(d: Disk, t: Disk, a: Disk, ks: seq<nat>, i: nat, b: nat)
    requires i < |d.nodes| && t == d.(bits := t.bits) && ks == Counts(d) && Good(t, ks) && Gains(t, ks, a, i, b)
    requires d.nodes[i].state == 1
    ensures Grown(d, a, i, []) && |a.nodes| == |d.nodes|
    ensures forall j | 0 <= j < |d.nodes| && j != i :: a.nodes[j] == d.nodes[j]
  {
    hide Good;
    hide Entry;
    GainsSameData(t, ks, a, i, b);
    forall j | 0 <= j < |d.nodes| && d.nodes[j].state == 1 ensures Content(a, j) == Content(d, j) {
      forall y: nat | y < d.nodes[j].size ensures ByteOf(a.blocks, a.nodes[j], y) == ByteOf(d.blocks, d.nodes[j], y) {
        Split(y, d.nodes[j].size);
        SameByte(t, ks, a, j, y);
      }
    }
    assert Content(d, i) + [] == Content(d, i);
  }

  lemma NewOwned(t: Disk, ks: seq<nat>, a: Disk, i: nat, b: nat)
    requires i < |t.nodes| == |ks| && Gains(t, ks, a, i, b) && t.nodes[i].state == 1
    ensures Owns(a, ks[i := ks[i] + 1], i, ks[i], b)
  {
    hide Entry;
  }

  lemma LastOwned(d: Disk, ks: seq<nat>, i: nat)
    requires Sound(d) && ks == Counts(d) && i < |d.nodes| && d.nodes[i].state == 1 && Space(d.nodes[i].size) > 0
    ensures ks[i] == d.nodes[i].size / BLOCK + 1
    ensures var b := Entry(d.blocks, d.nodes[i], d.nodes[i].size / BLOCK);
            && Owns(d, ks, i, d.nodes[i].size / BLOCK, b) && b >= d.first
            && b == Pointer(d.blocks, Indirect(d.nodes[i], d.nodes[i].size / SPAN), d.nodes[i].size % SPAN / BLOCK)
            && Indirect(d.nodes[i], d.nodes[i].size / SPAN) >= d.first
  {
    var s := d.nodes[i].size;
    Split(0, s);
    Placing(s);
    OwnedEntry(d, ks, i, s / BLOCK);
    OwnedPointer(d, ks, i, s / BLOCK);
  }

  lemma Placing(s: nat)
    ensures s / SPAN == s / BLOCK / POINTERS && s % SPAN / BLOCK == s / BLOCK % POINTERS
  {
  }

  /** `a` is `d` with room made in block `b`; the rest of the loop fills it and goes on. */
  lemma {:induction false} FillGood(d: Disk, a: Disk, ks: seq<nat>, i: nat, b: nat, buf: seq<byte>, o: nat, space: nat)
    requires Appends(d, i, buf) && buf != [] && i < |a.nodes| == |ks| && Grown(d, a, i, [])
    requires Good(a, ks) && Owns(a, ks, i, d.nodes[i].size / BLOCK, b) && ks[i] == d.nodes[i].size / BLOCK + 1
    requires forall j | 0 <= j < |a.nodes| && j != i :: ks[j] == DataBlocks(a.nodes[j].size)
    requires o == d.nodes[i].size % BLOCK && space == BLOCK - o
    requires var k := if Space(d.nodes[i].size) > 0 then 0
                      else if DataBlocks(d.nodes[i].size) % POINTERS == 0 then 2 else 1;
             Free(a) == Free(d) - k && Room(a) == Room(d) - k
    ensures Outcome(d, i, buf, Fill(a, i, b, buf, d.nodes[i].size, o, space))
    decreases |buf|, 0
  {
    hide Good;
    hide Entry;
    hide Append;
    hide Fill;
    hide Copy;
    hide Free;
    hide Room;
    hide Content;
    hide Need;
    hide DataBlocks;
    hide Grown;
    hide Sound;
    hide Owns;
    hide Outcome;
    var s := d.nodes[i].size;
    var m := Piece(buf, space);
    GrownSize(d, a, i);
    GrownStates(d, a, i);
    var g := Put(a, i, b, if |buf| >= BLOCK then 0 else o, buf[..m]);
    PieceKeeps(a, ks, i, b, buf[..m]);
    OwnedOnDisk(a, ks, i, s / BLOCK, b);
    FillTurn(a, i, b, buf, o, space);
    GrownTrans(d, a, g, i, [], buf[..m]);
    assert [] + buf[..m] == buf[..m];
    NeedPiece(s, m);
    NeedMore(s + m, |buf| - m);
    After(s, |buf|, m);
    AppendOutcome(g, i, buf[m..]);
    AppendZero(g, i, buf[m..]);
    OutcomeOn(d, g, i, buf, m, Append(g, i, buf[m..], 0));
  }

  lemma OwnedOnDisk(d: Disk, ks: seq<nat>, i: nat, c: int, b: nat)
    requires Good(d, ks) && Owns(d, ks, i, c, b)
    ensures b < |d.blocks|
  {
  }

  lemma GrownSize(d: Disk, a: Disk, i: nat)
    requires i < |d.nodes| && Grown(d, a, i, [])
    ensures |a.nodes| == |d.nodes| && a.nodes[i].size == d.nodes[i].size && a.nodes[i].state == d.nodes[i].state
  {
  }

  lemma GrownStates(d: Disk, a: Disk, i: nat)
    requires Sound(d) && i < |d.nodes| && Grown(d, a, i, [])
    ensures Sized(a.nodes)
  {
  }

  /** The outcome of the rest of the loop is the outcome of the loop. */
  lemma OutcomeOn(d: Disk, g: Disk, i: nat, buf: seq<byte>, m: nat, r: (Disk, Status))
    requires i < |d.nodes| && m <= |buf| && Grown(d, g, i, buf[..m]) && i < |g.nodes| && Outcome(g, i, buf[m..], r)
    requires var k := Need(d.nodes[i].size, m); Free(g) == Free(d) - k && Room(g) == Room(d) - k
    ensures Outcome(d, i, buf, r)
  {
    hide Sound;
    hide Free;
    hide Room;
    hide Covered;
    hide Content;
    hide DataBlocks;
    hide PointerBlocks;
    var s := d.nodes[i].size;
    RoomExact(d);
    RoomExact(g);
    NeedSum(s, m, |buf| - m);
    if Need(s, |buf|) <= Room(d) || Covered(d) {
      var w := r.0.nodes[i].size - g.nodes[i].size;
      GrownTrans(d, g, r.0, i, buf[..m], buf[m..][..w]);
      assert buf[..m] + buf[m..][..w] == buf[..m + w];
      NeedSum(s, m, w + 1);
    }
  }

  lemma NeedSum(s: nat, m: nat, n: nat)
    ensures Need(s, m + n) == Need(s, m) + Need(s + m, n)
  {
    hide DataBlocks;
    hide PointerBlocks;
  }

  /** After a piece the file ends at a block's end, or nothing is left. */
  lemma After(s: nat, n: nat, m: nat)
    requires n > 0 && (s % BLOCK == 0 || n < BLOCK)
    requires m == if n >= BLOCK then BLOCK else if n <= BLOCK - s % BLOCK then n else BLOCK - s % BLOCK
    ensures (s + m) % BLOCK == 0 || m == n
  {
  }

  /** An empty rest needs no offset. */
  lemma AppendZero(d: Disk, i: nat, buf: seq<byte>)
    requires i < |d.nodes| && (d.nodes[i].size % BLOCK == 0 || buf == [])
    ensures Append(d, i, buf, 0) == Append(d, i, buf, d.nodes[i].size % BLOCK)
  {
  }

  /** The pointer for a data block past the last one is a 0, or is in a pointer block that is. */
  lemma NextPointer(d: Disk, ks: seq<nat>, i: nat, s: nat)
    requires Good(d, ks) && i < |d.nodes| == |ks| && d.nodes[i].state == 1 && ks[i] > 0 && s / BLOCK == ks[i]
    ensures var pb := Indirect(d.nodes[i], s / SPAN);
            pb < d.first || Pointer(d.blocks, pb, s % SPAN / BLOCK) < d.first
    ensures var pb := Indirect(d.nodes[i], ks[i] / POINTERS);
            if ks[i] % POINTERS == 0 then pb == 0 else Entry(d.blocks, d.nodes[i], ks[i]) == 0
  {
    hide Good;
    hide Entry;
    hide Pointer;
    Placing(s);
    Position(ks[i]);
    GoodParts(d, ks);
    GoodEnds(d, ks, i);
    EntryOf(d.blocks, d.nodes[i], s / BLOCK);
    assert ks[i] % POINTERS != 0 ==> Entry(d.blocks, d.nodes[i], ks[i]) == 0;
  }

  lemma EntryOf(bs: seq<seq<byte>>, n: Node, j: nat)
    ensures Entry(bs, n, j) == Pointer(bs, Indirect(n, j / POINTERS), j % POINTERS)
  {
  }

  lemma GoodEnds(d: Disk, ks: seq<nat>, i: nat)
    requires Good(d, ks) && i < |d.nodes| == |ks| && d.nodes[i].state == 1 && ks[i] > 0
    ensures Ended(d, i, ks[i])
  {
  }

  /**
   A full block or more, not at a block's end: the first piece lands at the block's start, and the
   next has no block.
   */
  lemma AppendStrays(d: Disk, i: nat, buf: seq<byte>)
    requires Sound(d) && i < |d.nodes| && d.nodes[i].state == 1
    requires d.nodes[i].size % BLOCK != 0 && |buf| >= BLOCK
    ensures var r := Append(d, i, buf, d.nodes[i].size % BLOCK); r.1 == Stray || !Sound(r.0)
  {
    hide Good;
    hide Entry;
    hide Write;
    hide Fill;
    hide Space;
    hide DataBlocks;
    hide Pointer;
    hide Indirect;
    var s := d.nodes[i].size;
    var ks := Counts(d);
    var b := Entry(d.blocks, d.nodes[i], s / BLOCK);
    OneBlockOn(s);
    LastOwned(d, ks, i);
    var x := buf[..BLOCK];
    var g := Put(d, i, b, 0, x);
    PutKeeps(d, ks, i, s / BLOCK, b, 0, x, s + BLOCK);
    NextPointer(g, ks, i, s + BLOCK);
    AppendTurn(d, i, buf, s % BLOCK);
    OwnedOnDisk(d, ks, i, s / BLOCK, b);
    FillTurn(d, i, b, buf, s % BLOCK, Space(s));
    if |buf| > BLOCK {
      AppendTurn(g, i, buf[BLOCK..], 0);
    } else {
      assert buf[BLOCK..] == [];
      WriteNothing(g, i, g.nodes[i].size, 0);
      ShortOfBlocks(g, ks, i);
    }
  }

  lemma OneBlockOn(s: nat)
    requires s % BLOCK != 0
    ensures (s + BLOCK) / BLOCK == s / BLOCK + 1 == DataBlocks(s) && (s + BLOCK) % BLOCK == s % BLOCK
    ensures DataBlocks(s + BLOCK) == DataBlocks(s) + 1 && Space(s + BLOCK) == Space(s) > 0
  {
  }

  lemma ShortOfBlocks(g: Disk, ks: seq<nat>, i: nat)
    requires Good(g, ks) && i < |g.nodes| == |ks| && g.nodes[i].state == 1 && DataBlocks(g.nodes[i].size) == ks[i] + 1
    requires var pb := Indirect(g.nodes[i], ks[i] / POINTERS);
             if ks[i] % POINTERS == 0 then pb == 0 else Entry(g.blocks, g.nodes[i], ks[i]) == 0
    ensures !Sound(g)
  {
    hide Entry;
    var k := ks[i];
    Position(k);
    Position(k + 1);
    var c := if k % POINTERS == 0 then -1 - k / POINTERS else k;
    assert Owns(g, Counts(g), i, c, 0);
    assert !Marked(g, Counts(g));
  }

  /**
   Exactly which appends come out right, whatever is written: those that start at a block's end or are
   shorter than a block, when the disk has the blocks they need or its bitmap counts no others.
   */
  lemma AppendExact(d: Disk, i: nat, buf: seq<byte>)
    requires Sound(d) && i < |d.nodes| && d.nodes[i].state == 1 && d.nodes[i].size + |buf| < 0x8000_0000
    ensures Appended(d, i, buf, Append(d, i, buf, d.nodes[i].size % BLOCK))
       <==> (d.nodes[i].size % BLOCK == 0 || |buf| < BLOCK)
            && (Need(d.nodes[i].size, |buf|) <= Room(d) || Covered(d))
  {
    hide Sound;
    hide Append;
    hide Free;
    hide Room;
    hide Covered;
    if d.nodes[i].size % BLOCK == 0 || |buf| < BLOCK {
      AppendOutcome(d, i, buf);
    } else {
      AppendStrays(d, i, buf);
    }
  }

  // ----- a new file -----

  /** The file part of `crear_nuevo_nodo`, once node `i` is chosen: an entry and its zeroed block. */
  function Create(d: Disk, i: nat, parent: nat): (r: (Disk, Status))
    requires i < |d.nodes|
  {
    var e := d.(nodes := d.nodes[i := d.nodes[i].(state := 1, size := 0, parent := parent)]);
    var t := Take(e);
    if t.1 == -1 then (e, Stray)
    else
      var a := AddNode(t.0, i, t.1);
      if a.1 == OffDisk || t.1 >= |d.blocks| then (a.0, OffDisk)
      else if a.1 != Done then (a.0, Stray)
      else (a.0.(blocks := a.0.blocks[t.1 := Zeros()]), Done)
  }

  ghost predicate AllZero(b: seq<byte>)
  {
    |b| == 4096 && forall x | 0 <= x < 4096 :: b[x] == 0
  }

  /**
   With two blocks left on the disk a new file is empty and sound, its first block is wiped, and every
   other file reads as before.
   */
  lemma CreateGood(d: Disk, i: nat, parent: nat)
    requires Sound(d) && i < |d.nodes| && d.nodes[i].state == 0 && Room(d) >= 2
    ensures var r := Create(d, i, parent);
            && r.1 == Done && Sound(r.0) && Free(r.0) == Free(d) - 2 && Room(r.0) == Room(d) - 2
            && |r.0.nodes| == |d.nodes|
            && r.0.nodes[i].state == 1 && r.0.nodes[i].size == 0 && r.0.nodes[i].parent == parent
            && (var b := Entry(r.0.blocks, r.0.nodes[i], 0); b < |r.0.blocks| && AllZero(r.0.blocks[b]))
            && forall j | 0 <= j < |d.nodes| && j != i ::
                 r.0.nodes[j] == d.nodes[j] && (d.nodes[j].state == 1 ==> Content(r.0, j) == Content(d, j))
  {
    hide Good;
    hide Entry;
    hide Take;
    hide AddNode;
    hide Free;
    hide Room;
    var ks := Counts(d)[i := 0];
    var e := d.(nodes := d.nodes[i := d.nodes[i].(state := 1, size := 0, parent := parent)]);
    EmptyFile(d, e, i, parent);
    FreeSame(d, e);
    GoodParts(e, ks);
    RoomExact(d);
    TakeKeeps(e, ks);
    var t := Take(e);
    LooseOnDisk(t.0, ks, t.1);
    AddNodeKeeps(t.0, ks, i, t.1);
    var a := AddNode(t.0, i, t.1);
    GainsSameData(t.0, ks, a.0, i, t.1);
    NewOwned(t.0, ks, a.0, i, t.1);
    var g := a.0.(blocks := a.0.blocks[t.1 := Zeros()]);
    FreeSame(a.0, g);
    Zeroed(a.0, ks[i := 1], g, i, t.1);
    assert Counts(g) == ks[i := 1];
    forall j | 0 <= j < |d.nodes| && j != i && d.nodes[j].state == 1 ensures Content(g, j) == Content(d, j) {
      forall y: nat | y < d.nodes[j].size ensures ByteOf(g.blocks, g.nodes[j], y) == ByteOf(d.blocks, d.nodes[j], y) {
        Split(y, d.nodes[j].size);
        SameByte(t.0, ks, a.0, j, y);
        SameByte(a.0, ks[i := 0], g, j, y);
      }
    }
  }

  /** And otherwise it does not get its first block and the pointer block that names it. */
  lemma CreateExact(d: Disk, i: nat, parent: nat)
    requires Sound(d) && i < |d.nodes| && d.nodes[i].state == 0
    ensures Create(d, i, parent).1 == Done <==> Room(d) >= 2
  {
    hide Sound;
    hide CountZeros;
    if Room(d) >= 2 {
      CreateGood(d, i, parent);
    } else {
      var e := d.(nodes := d.nodes[i := d.nodes[i].(state := 1, size := 0, parent := parent)]);
      assert |d.blocks| <= |d.bits| by {
        SoundShape(d);
      }
      TakeExact(e);
      TakeExact(Take(e).0);
      RoomExact(Take(e).0);
    }
  }

  lemma SoundShape(d: Disk)
    requires Sound(d)
    ensures |d.blocks| <= |d.bits|
  {
  }

  /** `crear_nuevo_nodo`: a directory is a node and nothing else. */
  function CreateNode(d: Disk, i: nat, parent: nat, kind: nat): (r: (Disk, Status))
    requires i < |d.nodes|
  {
    if kind == 1 then Create(d, i, parent)
    else (d.(nodes := d.nodes[i := d.nodes[i].(state := kind, size := 0, parent := parent)]), Done)
  }

  /** A new directory takes no block and touches no file. */
  lemma DirectoryGood(d: Disk, i: nat, parent: nat)
    requires Sound(d) && i < |d.nodes| && d.nodes[i].state == 0
    ensures var g := CreateNode(d, i, parent, 2).0;
            && Sound(g) && Free(g) == Free(d) && Room(g) == Room(d) && |g.nodes| == |d.nodes|
            && g.nodes[i].state == 2 && g.nodes[i].size == 0 && g.nodes[i].parent == parent
            && forall j | 0 <= j < |d.nodes| && j != i ::
                 g.nodes[j] == d.nodes[j] && (d.nodes[j].state == 1 ==> Content(g, j) == Content(d, j))
  {
    hide Entry;
    var g := CreateNode(d, i, parent, 2).0;
    FreeSame(d, g);
    forall j: nat, c: int, x: nat ensures Owns(g, Counts(g), j, c, x) <==> Owns(d, Counts(d), j, c, x) {
    }
    forall j: nat | j < |g.nodes| && g.nodes[j].state == 1 ensures Ended(g, j, Counts(g)[j]) {
      assert Ended(d, j, Counts(d)[j]);
    }
  }

  lemma FreeSame(d: Disk, e: Disk)
    requires e.bits == d.bits && e.first == d.first && |e.blocks| == |d.blocks|
    ensures Free(e) == Free(d) && Room(e) == Room(d)
  {
  }

  lemma EmptyFile(d: Disk, e: Disk, i: nat, parent: nat)
    requires Sound(d) && i < |d.nodes| && d.nodes[i].state == 0
    requires e == d.(nodes := d.nodes[i := d.nodes[i].(state := 1, size := 0, parent := parent)])
    ensures Good(e, Counts(d)[i := 0])
  {
    hide Entry;
    var ks := Counts(d)[i := 0];
    forall j: nat, c: int, x: nat ensures Owns(e, ks, j, c, x) ==> Owns(d, Counts(d), j, c, x) {
    }
    forall j: nat | j < |e.nodes| && e.nodes[j].state == 1 && ks[j] > 0 ensures Ended(e, j, ks[j]) {
      assert Ended(d, j, ks[j]);
    }
  }

  /** Clearing a file's own first data block. */
  lemma Zeroed(a: Disk, ks: seq<nat>, g: Disk, i: nat, b: nat)
    requires Good(a, ks) && i < |a.nodes| == |ks| && ks[i] == 1 && Owns(a, ks, i, 0, b) && b < |a.blocks|
    requires g == a.(blocks := a.blocks[b := Zeros()])
    ensures Good(g, ks) && SameData(a, ks[i := 0], g) && Entry(g.blocks, g.nodes[i], 0) == b
  {
    hide Entry;
    hide Good;
    GoodParts(a, ks);
    forall j: nat, e: nat | j < |a.nodes| && a.nodes[j].state == 1 && e < PointerBlocks(ks[j]) * POINTERS
      ensures Entry(g.blocks, g.nodes[j], e) == Entry(a.blocks, a.nodes[j], e)
    {
      OwnedPointer(a, ks, j, e);
      SamePointer(a.blocks, g.blocks, a.nodes[j], e);
    }
    PutGood(a, ks, g);
    forall j: nat, e: nat | j < |a.nodes| && a.nodes[j].state == 1 && e < ks[i := 0][j]
      ensures var x := Entry(a.blocks, a.nodes[j], e);
              Entry(g.blocks, g.nodes[j], e) == x && x < |a.blocks| && x < |g.blocks| && g.blocks[x] == a.blocks[x]
    {
      OwnedEntry(a, ks, j, e);
    }
  }

  lemma SamePointer(bs: seq<seq<byte>>, cs: seq<seq<byte>>, n: Node, e: nat)
    requires |cs| == |bs| && var pb := Indirect(n, e / POINTERS); pb < |bs| ==> cs[pb] == bs[pb]
    ensures Entry(cs, n, e) == Entry(bs, n, e)
  {
  }
}
