/** Removing files and directories against who owns what: exactly the right bits fall, and every other file stays. */
module Removal {
  import opened Bytes
  import opened Lists
  import opened Inodes
  import opened Files

  // ----- the list of freed blocks, by coordinate -----

  function Stretch(from: nat, k: nat): (l: seq<int>)
    ensures |l| == k && forall j | 0 <= j < k :: l[j] == from + j
  {
    seq(k, j requires 0 <= j => from + j)
  }

  /** Coordinates of the first `i` pointer blocks and their entries, in the order they are freed. */
  function WholeCoords(i: nat): (l: seq<int>)
    ensures |l| == i * (POINTERS + 1)
    ensures forall c | c in l :: if c >= 0 then c < i * POINTERS else -1 - c < i
  {
    if i == 0 then [] else WholeCoords(i - 1) + Stretch((i - 1) * POINTERS, POINTERS) + [-1 - (i - 1)]
  }

  /** Every block of a file of `s` bytes. */
  function Coords(s: nat): (l: seq<int>)
  {
    WholeCoords(s / SPAN) + Stretch(s / SPAN * POINTERS, Ceil(s % SPAN)) + if s % SPAN != 0 then [-1 - s / SPAN] else []
  }

  lemma {:induction false} WholeDistinct(i: nat)
    ensures NoRepeats(WholeCoords(i))
  {
    if i > 0 {
      WholeDistinct(i - 1);
      var a, b := WholeCoords(i - 1), Stretch((i - 1) * POINTERS, POINTERS);
      DistinctSum(a, b);
      DistinctSum(a + b, [-1 - (i - 1)]);
    }
  }

  lemma DistinctSum(a: seq<int>, b: seq<int>)
    requires NoRepeats(a) && NoRepeats(b) && forall x | x in b :: x !in a
    ensures NoRepeats(a + b)
  {
    forall i, j | 0 <= i < j < |a + b| ensures (a + b)[i] != (a + b)[j] {
      if i < |a| <= j {
        assert b[j - |a|] in b && a[i] in a;
      }
    }
  }

  lemma CoordsDistinct(s: nat)
    ensures NoRepeats(Coords(s))
  {
    var q := s / SPAN;
    WholeDistinct(q);
    var a, b := WholeCoords(q), Stretch(q * POINTERS, Ceil(s % SPAN));
    DistinctSum(a, b);
    DistinctSum(a + b, if s % SPAN != 0 then [-1 - q] else []);
  }

  /** `borrar_contenido`'s list without the 0 behind the last pointer block, which is in it when that block is full. */
  function Freed(bs: seq<seq<byte>>, n: Node): (l: seq<nat>)
  {
    if n.size % SPAN != 0 then ToFree(bs, n) else Whole(bs, n, n.size / SPAN)
  }

  lemma {:induction false} WholeAt(bs: seq<seq<byte>>, n: Node, i: nat, x: nat)
    requires x < i * (POINTERS + 1)
    ensures |Whole(bs, n, i)| == |WholeCoords(i)|
    ensures var c := WholeCoords(i)[x];
            Whole(bs, n, i)[x] == if c >= 0 then Entry(bs, n, c) else Indirect(n, -1 - c)
  {
    if i > 0 {
      WholeLen(bs, n, i);
      WholeLen(bs, n, i - 1);
      var at := (i - 1) * (POINTERS + 1);
      if x < at {
        WholeAt(bs, n, i - 1, x);
      } else if x < at + POINTERS {
        var c := (i - 1) * POINTERS + (x - at);
        assert WholeCoords(i)[x] == c;
        assert c / POINTERS == i - 1 && c % POINTERS == x - at;
      }
    }
  }

  lemma {:induction false} WholeLen(bs: seq<seq<byte>>, n: Node, i: nat)
    ensures |Whole(bs, n, i)| == i * (POINTERS + 1)
  {
    if i > 0 {
      WholeLen(bs, n, i - 1);
    }
  }

  lemma FreedAt(bs: seq<seq<byte>>, n: Node, x: nat)
    requires x < |Coords(n.size)|
    ensures |Freed(bs, n)| == |Coords(n.size)|
    ensures var c := Coords(n.size)[x];
            Freed(bs, n)[x] == if c >= 0 then Entry(bs, n, c) else Indirect(n, -1 - c)
  {
    var q, r := n.size / SPAN, n.size % SPAN;
    WholeLen(bs, n, q);
    var at := q * (POINTERS + 1);
    CeilSmall(r);
    if x < at {
      WholeAt(bs, n, q, x);
    } else if x < at + Ceil(r) {
      var c := q * POINTERS + (x - at);
      assert Coords(n.size)[x] == c;
      if x - at < POINTERS {
        assert c / POINTERS == q && c % POINTERS == x - at;
      }
    }
  }

  lemma CeilSmall(r: nat)
    requires r < SPAN
    ensures Ceil(r) <= POINTERS && (r != 0 ==> Ceil(r) > 0)
  {
  }

  /** A file of `s > 0` bytes has `ceil(s / 4096)` data blocks and `ceil(s / 4194304)` pointer blocks. */
  lemma FreedCount(s: nat)
    requires s > 0
    ensures |Coords(s)| == DataBlocks(s) + PointerBlocks(DataBlocks(s))
    ensures PointerBlocks(DataBlocks(s)) == (s + SPAN - 1) / SPAN
    ensures DataBlocks(s) == s / SPAN * POINTERS + Ceil(s % SPAN)
  {
    CeilSmall(s % SPAN);
    Halve(s);
  }

  lemma Halve(s: nat)
    ensures Ceil(s) == s / SPAN * POINTERS + Ceil(s % SPAN)
    ensures PointerBlocks(Ceil(s)) == s / SPAN + if s % SPAN != 0 then 1 else 0
    ensures (s + SPAN - 1) / SPAN == s / SPAN + if s % SPAN != 0 then 1 else 0
  {
    var q, r := s / SPAN, s % SPAN;
    assert s == q * SPAN + r;
    assert Ceil(s) == (q * POINTERS * BLOCK + r + BLOCK - 1) / BLOCK;
  }

  // ----- what a cleared list does to the count of free blocks -----

  lemma {:induction false} ClearCount(bits: seq<bool>, l: seq<nat>, from: nat)
    requires NoRepeats(l) && forall b | b in l :: from <= b < |bits| && bits[b]
    ensures CountZeros(Clear(bits, l), from) == CountZeros(bits, from) + |l|
    decreases |l|
  {
    if l != [] {
      assert l == [l[0]] + l[1..];
      assert l[0] in l;
      var next := bits[l[0] := false];
      CountZerosUpdate(bits, from, l[0], false);
      forall b | b in l[1..] ensures from <= b < |next| && next[b] {
        var j :| 0 <= j < |l[1..]| && l[1..][j] == b;
        assert l[j + 1] == b && b in l;
      }
      ClearCount(next, l[1..], from);
    }
  }

  lemma {:induction false} ClearAppend(bits: seq<bool>, l: seq<nat>, m: seq<nat>)
    ensures Clear(bits, l + m) == Clear(Clear(bits, l), m)
    decreases |l|
  {
    if l == [] {
      assert l + m == m;
    } else {
      assert (l + m)[1..] == l[1..] + m;
      ClearAppend(if l[0] < |bits| then bits[l[0] := false] else bits, l[1..], m);
    }
  }

  lemma {:induction false} CountBelow(bits: seq<bool>, from: nat, i: nat, v: bool)
    requires i < from && i < |bits|
    ensures CountZeros(bits[i := v], from) == CountZeros(bits, from)
  {
    if |bits| > from {
      var n := |bits| - 1;
      CountBelow(bits[..n], from, i, v);
      assert bits[i := v][..n] == bits[..n][i := v];
    }
  }

  // ----- one file -----

  /** Each bit cleared is a block of the file, and each block of the file is one of them. */
  lemma FreedOwned(d: Disk, i: nat, b: nat)
    requires Sound(d) && i < |d.nodes| && d.nodes[i].state == 1 && d.nodes[i].size > 0
    ensures b in Freed(d.blocks, d.nodes[i]) <==> exists c: int :: Owns(d, Counts(d), i, c, b)
  {
    hide Good;
    hide Entry;
    hide Freed;
    var n := d.nodes[i];
    var l := Freed(d.blocks, n);
    FreedCount(n.size);
    FreedLen(d.blocks, n);
    if b in l {
      var x :| 0 <= x < |l| && l[x] == b;
      FreedAt(d.blocks, n, x);
      CoordsRange(n.size, Coords(n.size)[x]);
      assert Owns(d, Counts(d), i, Coords(n.size)[x], b);
    }
    if c: int :| Owns(d, Counts(d), i, c, b) {
      var x := Find(n.size, c);
      FreedAt(d.blocks, n, x);
    }
  }

  lemma FreedLen(bs: seq<seq<byte>>, n: Node)
    requires n.size > 0
    ensures |Freed(bs, n)| == |Coords(n.size)| > 0
  {
    FreedCount(n.size);
    FreedAt(bs, n, 0);
  }

  lemma CoordsRange(s: nat, c: int)
    requires s > 0 && c in Coords(s)
    ensures if c >= 0 then c < DataBlocks(s) else -1 - c < PointerBlocks(DataBlocks(s))
  {
    FreedCount(s);
    Halve(s);
  }

  lemma Find(s: nat, c: int) returns (x: nat)
    requires s > 0 && if c >= 0 then c < DataBlocks(s) else -1 - c < PointerBlocks(DataBlocks(s))
    ensures x < |Coords(s)| && Coords(s)[x] == c
  {
    var q, r := s / SPAN, s % SPAN;
    FreedCount(s);
    Halve(s);
    if (if c >= 0 then c < q * POINTERS else -1 - c < q) {
      x := FindWhole(q, c);
    } else if c >= 0 {
      x := q * (POINTERS + 1) + (c - q * POINTERS);
    } else {
      x := |Coords(s)| - 1;
    }
  }

  lemma {:induction false} FindWhole(q: nat, c: int) returns (x: nat)
    requires if c >= 0 then c < q * POINTERS else -1 - c < q
    ensures x < |WholeCoords(q)| && WholeCoords(q)[x] == c
  {
    if (if c >= 0 then c < (q - 1) * POINTERS else -1 - c < q - 1) {
      x := FindWhole(q - 1, c);
    } else if c >= 0 {
      x := (q - 1) * (POINTERS + 1) + (c - (q - 1) * POINTERS);
    } else {
      x := q * (POINTERS + 1) - 1;
    }
  }

  lemma FreedDistinct(d: Disk, i: nat)
    requires Sound(d) && i < |d.nodes| && d.nodes[i].state == 1 && d.nodes[i].size > 0
    ensures NoRepeats(Freed(d.blocks, d.nodes[i]))
    ensures forall b | b in Freed(d.blocks, d.nodes[i]) :: d.first <= b < |d.blocks| && b < |d.bits| && d.bits[b]
  {
    hide Entry;
    hide Freed;
    var n := d.nodes[i];
    var l, cs := Freed(d.blocks, n), Coords(n.size);
    CoordsDistinct(n.size);
    FreedLen(d.blocks, n);
    forall x: nat | x < |l| ensures Owns(d, Counts(d), i, cs[x], l[x]) {
      FreedAt(d.blocks, n, x);
      CoordsRange(n.size, cs[x]);
    }
    forall x, y | 0 <= x < y < |l| ensures l[x] != l[y] {
      assert Owns(d, Counts(d), i, cs[x], l[x]) && Owns(d, Counts(d), i, cs[y], l[y]);
    }
  }

  /** Unlinking gives back as many blocks as the file has; an empty file's two stay taken. */
  lemma EraseCount(d: Disk, i: nat)
    requires Sound(d) && i < |d.nodes| && d.nodes[i].state == 1
    ensures var s := d.nodes[i].size;
            var n := if s == 0 then 0 else DataBlocks(s) + (s + SPAN - 1) / SPAN;
            Free(Erase(d, i)) == Free(d) + n && Room(Erase(d, i)) == Room(d) + n
  {
    hide Good;
    hide Entry;
    hide ToFree;
    hide Freed;
    hide DataBlocks;
    var n := d.nodes[i];
    if n.size > 0 {
      Grounded(d);
      var l := Freed(d.blocks, n);
      FreedCount(n.size);
      FreedDistinct(d, i);
      FreedLen(d.blocks, n);
      var k := |d.blocks|;
      var z := if n.size % SPAN == 0 then [0] else [];
      Trailing(d, i);
      assert l + [] == l;
      ClearedCount(d.bits, l, z, d.first);
      ClearPrefix(d.bits, l + z, k);
      forall b | b in l ensures d.first <= b < k && d.bits[..k][b] {
      }
      ClearedCount(d.bits[..k], l, z, d.first);
      assert d.bits[..|d.bits|] == d.bits && Clear(d.bits, l + z)[..|d.bits|] == Clear(d.bits, l + z);
    }
  }

  lemma ClearZero(bits: seq<bool>, l: seq<nat>)
    requires |bits| > 0
    ensures Clear(bits, l + [0]) == Clear(bits, l)[0 := false]
  {
    ClearAppend(bits, l, [0]);
    var z: seq<nat> := [0];
    assert z[1..] == [];
  }

  /** Distinct set bits are cleared, and maybe bit 0 below them. */
  lemma ClearedCount(bits: seq<bool>, l: seq<nat>, z: seq<nat>, from: nat)
    requires NoRepeats(l) && (forall b | b in l :: from <= b < |bits| && bits[b]) && l != []
    requires (z == [] || z == [0]) && from > 0
    ensures CountZeros(Clear(bits, l + z), from) == CountZeros(bits, from) + |l|
  {
    hide CountZeros;
    assert l[0] in l;
    ClearCount(bits, l, from);
    if z == [0] {
      ClearZero(bits, l);
      CountBelow(Clear(bits, l), from, 0, false);
    } else {
      assert l + z == l;
    }
  }

  lemma {:induction false} ClearPrefix(bits: seq<bool>, l: seq<nat>, k: nat)
    requires k <= |bits|
    ensures Clear(bits, l)[..k] == Clear(bits[..k], l)
  {
    forall b | 0 <= b < k ensures Clear(bits, l)[..k][b] == Clear(bits[..k], l)[b] {
    }
  }

  /**
   Of the data area exactly the file's own bits fall, and none when it is empty. Below it only bit
   0 can: it does exactly when the last pointer block is full.
   */
  lemma EraseExact(d: Disk, i: nat)
    requires Sound(d) && i < |d.nodes| && d.nodes[i].state == 1
    ensures |d.bits| > 0 && |Erase(d, i).bits| == |d.bits|
    ensures var g, s := Erase(d, i), d.nodes[i].size;
            && (forall b | d.first <= b < |d.bits| ::
                  g.bits[b] == (d.bits[b] && !(s > 0 && exists c: int :: Owns(d, Counts(d), i, c, b))))
            && (forall b | 0 < b < d.first && b < |d.bits| :: g.bits[b] == d.bits[b])
            && (g.bits[0] != d.bits[0] <==> d.bits[0] && s > 0 && s % SPAN == 0)
  {
    hide Good;
    hide Entry;
    hide ToFree;
    hide Freed;
    hide Owns;
    var n := d.nodes[i];
    Grounded(d);
    if n.size > 0 {
      FreedDistinct(d, i);
      Trailing(d, i);
      forall b | d.first <= b < |d.bits|
        ensures b in Freed(d.blocks, n) <==> exists c: int :: Owns(d, Counts(d), i, c, b)
      {
        FreedOwned(d, i, b);
      }
    }
  }

  lemma Grounded(d: Disk)
    requires Sound(d)
    ensures 0 < d.first && |d.blocks| <= |d.bits|
    ensures forall i | 0 <= i < |d.nodes| && d.nodes[i].state == 1 :: 0 < |d.bits|
  {
    forall i | 0 <= i < |d.nodes| && d.nodes[i].state == 1 ensures 0 < |d.bits| {
      OwnedEntry(d, Counts(d), i, 0);
    }
  }

  /** Behind the last pointer block of a file that fills it there is a 0, so bit 0 is cleared too. */
  lemma Trailing(d: Disk, i: nat)
    requires Sound(d) && i < |d.nodes| && d.nodes[i].state == 1 && d.nodes[i].size > 0
    ensures ToFree(d.blocks, d.nodes[i])
         == Freed(d.blocks, d.nodes[i]) + if d.nodes[i].size % SPAN == 0 then [0] else []
  {
    var n := d.nodes[i];
    if n.size % SPAN == 0 {
      FreedCount(n.size);
      assert Ended(d, i, Counts(d)[i]);
      assert Indirect(n, n.size / SPAN) == 0;
      assert Entries(d.blocks, 0, Ceil(0)) == [];
    }
  }

  /** The disk stays sound, every other node and file as it is, and no bit behind the disk falls. */
  lemma EraseKeeps(d: Disk, i: nat)
    requires Sound(d) && i < |d.nodes|
    ensures Sound(Erase(d, i)) && Free(Erase(d, i)) - Room(Erase(d, i)) == Free(d) - Room(d)
  {
    hide Entry;
    hide ToFree;
    hide Clear;
    hide Free;
    hide Room;
    var g := Erase(d, i);
    if d.nodes[i].state == 1 {
      EraseCount(d, i);
    } else {
      FreeSame(d, g);
    }
    var ks, ls := Counts(d), Counts(g);
    forall j: nat, c: int, x: nat ensures Owns(g, ls, j, c, x) ==> j != i && Owns(d, ks, j, c, x) {
    }
    forall j: nat | j < |g.nodes| && g.nodes[j].state == 1 && ls[j] > 0 ensures Ended(g, j, ls[j]) {
      assert Ended(d, j, ks[j]);
    }
    forall j: nat, c: int, x: nat | Owns(g, ls, j, c, x)
      ensures g.first <= x < |g.blocks| && x < |g.bits| && g.bits[x]
    {
      OtherStays(d, i, j, c, x);
    }
  }

  lemma OtherStays(d: Disk, i: nat, j: nat, c: int, x: nat)
    requires Sound(d) && i < |d.nodes| && j != i && Owns(d, Counts(d), j, c, x)
    ensures d.first <= x < |d.blocks| && x < |d.bits| && Erase(d, i).bits[x]
  {
    hide Entry;
    hide ToFree;
    if d.nodes[i].state == 1 {
      EraseExact(d, i);
    }
  }

  // ----- a directory -----

  /** Removing a directory keeps the disk sound, and no bit behind it falls. */
  lemma {:induction false} DeleteKeeps(d: Disk, t: nat)
    requires Sound(d) && t < |d.nodes|
    ensures Sound(DeleteDir(d, t)) && Free(DeleteDir(d, t)) - Room(DeleteDir(d, t)) == Free(d) - Room(d)
    decreases Rest(d.nodes, t), |d.nodes| + 1
  {
    hide Sound;
    hide Erase;
    hide Free;
    hide Room;
    EraseFewer(d, t);
    EraseKeeps(d, t);
    LiveUpdate(d.nodes, t, d.nodes[t].(state := 0, size := 0));
    SweepKeeps(Erase(d, t), t, 0);
  }

  lemma {:induction false} SweepKeeps(d: Disk, t: nat, i: nat)
    requires Sound(d) && t < |d.nodes|
    ensures Sound(Sweep(d, t, i)) && Free(Sweep(d, t, i)) - Room(Sweep(d, t, i)) == Free(d) - Room(d)
    decreases LiveCount(d.nodes), if i < |d.nodes| then |d.nodes| - i else 0
  {
    hide Sound;
    hide Erase;
    hide DeleteDir;
    hide LiveCount;
    hide Free;
    hide Room;
    if i < |d.nodes| {
      if d.nodes[i].state != 0 && d.nodes[i].parent == t + 2 {
        LiveUpdate(d.nodes, i, d.nodes[i].(state := 0, size := 0));
        EraseFewer(d, i);
        if d.nodes[i].state == 1 {
          EraseKeeps(d, i);
          SweepKeeps(Erase(d, i), t, i + 1);
        } else {
          DeleteKeeps(d, i);
          SweepKeeps(DeleteDir(d, i), t, i + 1);
        }
      } else {
        SweepKeeps(d, t, i + 1);
      }
    }
  }

  /** A file that is not under the directory removed reads as it did, and keeps every one of its blocks. */
  lemma Survives(d: Disk, t: nat, j: nat)
    requires Sound(d) && t < |d.nodes| && j < |d.nodes| && d.nodes[j].state == 1 && !Doomed(d.nodes, t, j)
    ensures Sound(DeleteDir(d, t)) && DeleteDir(d, t).nodes[j] == d.nodes[j]
    ensures Content(DeleteDir(d, t), j) == Content(d, j)
    ensures forall c: int, b: nat | Owns(d, Counts(d), j, c, b) ::
      Owns(DeleteDir(d, t), Counts(DeleteDir(d, t)), j, c, b) && b < |d.bits| && DeleteDir(d, t).bits[b]
  {
    hide Entry;
    hide DeleteDir;
    hide Doomed;
    DeleteKeeps(d, t);
    DeleteExact(d, t, j);
    var g := DeleteDir(d, t);
    forall c: int, b: nat | Owns(d, Counts(d), j, c, b)
      ensures Owns(g, Counts(g), j, c, b) && b < |d.bits| && g.bits[b]
    {
      assert Owns(g, Counts(g), j, c, b);
    }
  }
}
