/**
 The node table, bitmap and blocks of `filesystem/sac_handlers.c`, and what removing a file or a
 directory does to them. Names and dates play no part in it and are not here.
 */
module Inodes {
  import opened Bytes

  const BLOCK: nat := 4096
  const POINTERS: nat := 1024
  const SPAN: nat := 4194304
  const INDIRECT: nat := 1000

  /** `state` is 0 for a deleted node, 1 for a file, 2 for a directory. */
  datatype Node = Node(state: nat, parent: nat, size: nat, indirect: seq<nat>)

  /** Bit `b` of `bits` is set while block `b` of `blocks` is taken; files get blocks from `first` on. */
  datatype Disk = Disk(nodes: seq<Node>, bits: seq<bool>, blocks: seq<seq<byte>>, first: nat)

  /** Entry `j` of a block of pointers. */
  function PointerAt(b: seq<byte>, j: nat): (p: nat)
    requires |b| == BLOCK && j < POINTERS
  {
    FromLe32(b[4 * j..4 * j + 4])
  }

  /** The same through a block number; nothing is read past the disk. */
  function Pointer(bs: seq<seq<byte>>, b: nat, j: nat): (p: nat)
  {
    if b < |bs| && |bs[b]| == BLOCK && j < POINTERS then PointerAt(bs[b], j) else 0
  }

  function Indirect(n: Node, i: nat): (p: nat)
  {
    if i < |n.indirect| then n.indirect[i] else 0
  }

  // ----- one file -----

  /** Entries `0..k` of the pointer block `b`. */
  function Entries(bs: seq<seq<byte>>, b: nat, k: nat): (l: seq<nat>)
    ensures |l| == k && forall j | 0 <= j < k :: l[j] == Pointer(bs, b, j)
  {
    seq(k, j requires 0 <= j => Pointer(bs, b, j))
  }

  /** The first `i` pointer blocks, each after the entries it holds. */
  function Whole(bs: seq<seq<byte>>, n: Node, i: nat): (l: seq<nat>)
  {
    if i == 0 then [] else Whole(bs, n, i - 1) + Entries(bs, Indirect(n, i - 1), POINTERS) + [Indirect(n, i - 1)]
  }

  /** `ceil(n / 4096)` */
  function Ceil(n: nat): (k: nat)
  {
    (n + BLOCK - 1) / BLOCK
  }

  /** The bits `borrar_contenido` clears, in order. */
  function ToFree(bs: seq<seq<byte>>, n: Node): (l: seq<nat>)
  {
    var last := Indirect(n, n.size / SPAN);
    Whole(bs, n, n.size / SPAN) + Entries(bs, last, Ceil(n.size % SPAN)) + [last]
  }

  function Clear(bits: seq<bool>, l: seq<nat>): (r: seq<bool>)
    ensures |r| == |bits| && forall b | 0 <= b < |bits| :: r[b] == (bits[b] && b !in l)
    decreases |l|
  {
    if l == [] then bits
    else
      assert l == [l[0]] + l[1..];
      Clear(if l[0] < |bits| then bits[l[0] := false] else bits, l[1..])
  }

  /** `borrar_archivo`: a directory or an empty file gives nothing back. */
  function Erase(d: Disk, i: nat): (r: Disk)
    requires i < |d.nodes|
    ensures |r.nodes| == |d.nodes| && r.blocks == d.blocks && r.first == d.first && |r.bits| == |d.bits|
  {
    var n := d.nodes[i];
    var bits := if n.state != 2 && n.size != 0 then Clear(d.bits, ToFree(d.blocks, n)) else d.bits;
    d.(nodes := d.nodes[i := n.(state := 0, size := 0)], bits := bits)
  }

  // ----- a directory -----

  function LiveCount(ns: seq<Node>): (c: nat)
    ensures c <= |ns|
  {
    if ns == [] then 0 else (if ns[|ns| - 1].state != 0 then 1 else 0) + LiveCount(ns[..|ns| - 1])
  }

  lemma {:induction false} LiveUpdate(ns: seq<Node>, i: nat, n: Node)
    requires i < |ns|
    ensures LiveCount(ns[i := n])
         == LiveCount(ns) - (if ns[i].state != 0 then 1 else 0) + (if n.state != 0 then 1 else 0)
  {
    var k := |ns| - 1;
    if i < k {
      LiveUpdate(ns[..k], i, n);
      assert ns[i := n][..k] == ns[..k][i := n];
    } else {
      assert ns[i := n][..k] == ns[..k];
    }
  }

  /** Live nodes other than `i`. */
  function Rest(ns: seq<Node>, i: nat): (c: nat)
    requires i < |ns|
  {
    LiveUpdate(ns, i, ns[i].(state := 0));
    LiveCount(ns) - if ns[i].state != 0 then 1 else 0
  }

  /** `borrar_directorio` */
  function DeleteDir(d: Disk, t: nat): (r: Disk)
    requires t < |d.nodes|
    ensures |r.nodes| == |d.nodes| && r.blocks == d.blocks && r.first == d.first && |r.bits| == |d.bits|
    ensures LiveCount(r.nodes) <= Rest(d.nodes, t)
    decreases Rest(d.nodes, t), |d.nodes| + 1
  {
    var n := d.nodes[t];
    LiveUpdate(d.nodes, t, n.(state := 0, size := 0));
    Sweep(Erase(d, t), t, 0)
  }

  /** Its loop, from node `i` on: every live node whose parent is `t`. */
  function Sweep(d: Disk, t: nat, i: nat): (r: Disk)
    requires t < |d.nodes|
    ensures |r.nodes| == |d.nodes| && r.blocks == d.blocks && r.first == d.first && |r.bits| == |d.bits|
    ensures LiveCount(r.nodes) <= LiveCount(d.nodes)
    decreases LiveCount(d.nodes), if i < |d.nodes| then |d.nodes| - i else 0
  {
    if i >= |d.nodes| then d
    else if d.nodes[i].state != 0 && d.nodes[i].parent == t + 2 then
      LiveUpdate(d.nodes, i, d.nodes[i].(state := 0, size := 0));
      if d.nodes[i].state == 1 then Sweep(Erase(d, i), t, i + 1)
      else Sweep(DeleteDir(d, i), t, i + 1)
    else Sweep(d, t, i + 1)
  }

  // ----- what is removed -----

  /** Node `j` is under `t`: `n` parent links lead up to it, through live directories. */
  ghost predicate Under(ns: seq<Node>, t: nat, j: nat, n: nat)
    decreases n
  {
    n > 0 && j < |ns| && ns[j].state != 0 && ns[j].parent >= 2 &&
    var p := ns[j].parent - 2;
    p == t || (p < |ns| && ns[p].state > 1 && Under(ns, t, p, n - 1))
  }

  ghost predicate Doomed(ns: seq<Node>, t: nat, j: nat)
  {
    j == t || exists n: nat :: Under(ns, t, j, n)
  }

  /** From `ns` to `ms` nodes have only been deleted. */
  ghost predicate Fewer(ns: seq<Node>, ms: seq<Node>)
  {
    |ms| == |ns| && forall j | 0 <= j < |ns| :: ms[j] == ns[j] || (ms[j] == ns[j].(state := 0, size := 0))
  }

  lemma FewerTrans(a: seq<Node>, b: seq<Node>, c: seq<Node>)
    requires Fewer(a, b) && Fewer(b, c)
    ensures Fewer(a, c)
  {
  }

  /** What is under `t` now was under it before. */
  lemma {:induction false} UnderBefore(ns: seq<Node>, ms: seq<Node>, t: nat, j: nat, n: nat)
    requires Fewer(ns, ms) && Under(ms, t, j, n)
    ensures Under(ns, t, j, n)
    decreases n
  {
    var p := ms[j].parent - 2;
    if p != t {
      UnderBefore(ns, ms, t, p, n - 1);
    }
  }

  /** Under a directory that is itself under `t`. */
  lemma {:induction false} UnderUp(ns: seq<Node>, t: nat, c: nat, j: nat, n: nat, m: nat)
    requires Under(ns, c, j, n) && Under(ns, t, c, m) && ns[c].state > 1
    ensures Under(ns, t, j, n + m)
    decreases n
  {
    var p := ns[j].parent - 2;
    if p == t {
    } else if p == c {
      UnderMore(ns, t, c, m, n + m - 1);
    } else {
      UnderUp(ns, t, c, p, n - 1, m);
    }
  }

  lemma {:induction false} UnderMore(ns: seq<Node>, t: nat, j: nat, n: nat, m: nat)
    requires Under(ns, t, j, n) && n <= m
    ensures Under(ns, t, j, m)
    decreases n
  {
    var p := ns[j].parent - 2;
    if p != t {
      UnderMore(ns, t, p, n - 1, m - 1);
    }
  }

  // ----- only what is under the target -----

  /** Whatever is different in `ms` is under `t` in `ns`. */
  ghost predicate OnlyUnder(ns: seq<Node>, ms: seq<Node>, t: nat)
    requires |ms| == |ns|
  {
    forall j | 0 <= j < |ns| && ms[j] != ns[j] :: exists n: nat :: Under(ns, t, j, n)
  }

  lemma EraseFewer(d: Disk, i: nat)
    requires i < |d.nodes|
    ensures Fewer(d.nodes, Erase(d, i).nodes) && Erase(d, i).nodes == d.nodes[i := d.nodes[i].(state := 0, size := 0)]
  {
  }

  lemma {:induction false} DeleteSound(d: Disk, t: nat)
    requires t < |d.nodes|
    ensures Fewer(d.nodes, DeleteDir(d, t).nodes) && DeleteDir(d, t).nodes[t] == d.nodes[t].(state := 0, size := 0)
    ensures forall j | 0 <= j < |d.nodes| && DeleteDir(d, t).nodes[j] != d.nodes[j] :: Doomed(d.nodes, t, j)
    decreases Rest(d.nodes, t), |d.nodes| + 1
  {
    hide ToFree;
    hide Clear;
    var n := d.nodes[t];
    LiveUpdate(d.nodes, t, n.(state := 0, size := 0));
    var e := Erase(d, t);
    EraseFewer(d, t);
    SweepSound(e, t, 0);
    var r := DeleteDir(d, t);
    FewerTrans(d.nodes, e.nodes, r.nodes);
    forall j | 0 <= j < |d.nodes| && r.nodes[j] != d.nodes[j] ensures Doomed(d.nodes, t, j) {
      if j != t {
        var k: nat :| Under(e.nodes, t, j, k);
        UnderBefore(d.nodes, e.nodes, t, j, k);
      }
    }
  }

  lemma {:induction false} SweepSound(d: Disk, t: nat, i: nat)
    requires t < |d.nodes|
    ensures Fewer(d.nodes, Sweep(d, t, i).nodes) && OnlyUnder(d.nodes, Sweep(d, t, i).nodes, t)
    decreases LiveCount(d.nodes), if i < |d.nodes| then |d.nodes| - i else 0
  {
    hide Erase;
    hide DeleteDir;
    hide Doomed;
    hide LiveCount;
    hide ToFree;
    hide Clear;
    if i < |d.nodes| {
      if d.nodes[i].state != 0 && d.nodes[i].parent == t + 2 {
        LiveUpdate(d.nodes, i, d.nodes[i].(state := 0, size := 0));
        assert Under(d.nodes, t, i, 1);
        var e := if d.nodes[i].state == 1 then Erase(d, i) else DeleteDir(d, i);
        if d.nodes[i].state == 1 {
          EraseFewer(d, i);
        } else {
          DeleteSound(d, i);
          ChildUnder(d.nodes, e.nodes, t, i);
        }
        SweepSound(e, t, i + 1);
        SoundTrans(d.nodes, e.nodes, Sweep(e, t, i + 1).nodes, t);
      } else {
        SweepSound(d, t, i + 1);
      }
    }
  }

  lemma ChildUnder(ns: seq<Node>, ms: seq<Node>, t: nat, i: nat)
    requires |ms| == |ns| && i < |ns| && Under(ns, t, i, 1) && ns[i].state > 1
    requires forall j | 0 <= j < |ns| && ms[j] != ns[j] :: Doomed(ns, i, j)
    ensures OnlyUnder(ns, ms, t)
  {
    forall j | 0 <= j < |ns| && ms[j] != ns[j] ensures exists n: nat :: Under(ns, t, j, n) {
      assert Doomed(ns, i, j);
      if j != i {
        var n: nat :| Under(ns, i, j, n);
        UnderUp(ns, t, i, j, n, 1);
      }
    }
  }

  lemma SoundTrans(a: seq<Node>, b: seq<Node>, c: seq<Node>, t: nat)
    requires Fewer(a, b) && Fewer(b, c) && OnlyUnder(a, b, t) && OnlyUnder(b, c, t)
    ensures Fewer(a, c) && OnlyUnder(a, c, t)
  {
    FewerTrans(a, b, c);
    forall j | 0 <= j < |a| && c[j] != a[j] ensures exists n: nat :: Under(a, t, j, n) {
      if b[j] == a[j] {
        var n: nat :| Under(b, t, j, n);
        UnderBefore(a, b, t, j, n);
      }
    }
  }

  // ----- and all of it -----

  /** In `ms` nobody is left under `t` before index `i`, nor under any other directory of `ns` that is gone. */
  ghost predicate Orphanless(ns: seq<Node>, ms: seq<Node>, t: nat, i: nat)
    requires |ms| == |ns|
  {
    forall j | 0 <= j < |ms| && ms[j].state != 0 :: Kept(ns, ms, t, i, j)
  }

  ghost predicate Kept(ns: seq<Node>, ms: seq<Node>, t: nat, i: nat, j: nat)
    requires j < |ms| == |ns|
  {
    && (ms[j].parent == t + 2 ==> j >= i)
    && forall p: nat | p < |ns| && p != t && ns[p].state > 1 && ms[p].state == 0 :: ms[j].parent != p + 2
  }

  lemma {:induction false} DeleteCloses(d: Disk, t: nat)
    requires t < |d.nodes|
    ensures Orphanless(d.nodes, DeleteDir(d, t).nodes, t, |d.nodes|)
    decreases Rest(d.nodes, t), |d.nodes| + 1
  {
    hide ToFree;
    hide Clear;
    LiveUpdate(d.nodes, t, d.nodes[t].(state := 0, size := 0));
    EraseFewer(d, t);
    Untouched(d.nodes, Erase(d, t).nodes, t);
    SweepCloses(d.nodes, Erase(d, t), t, 0);
  }

  lemma Untouched(ns: seq<Node>, a: seq<Node>, t: nat)
    requires t < |ns| && a == ns[t := ns[t].(state := 0, size := 0)]
    ensures Orphanless(ns, a, t, 0)
  {
  }

  lemma {:induction false} SweepCloses(ns: seq<Node>, d: Disk, t: nat, i: nat)
    requires t < |d.nodes| == |ns| && Fewer(ns, d.nodes) && Orphanless(ns, d.nodes, t, i)
    ensures Orphanless(ns, Sweep(d, t, i).nodes, t, |ns|)
    decreases LiveCount(d.nodes), if i < |d.nodes| then |d.nodes| - i else 0
  {
    hide Erase;
    hide DeleteDir;
    hide Doomed;
    hide LiveCount;
    hide Orphanless;
    hide ToFree;
    hide Clear;
    if i < |d.nodes| {
      if d.nodes[i].state != 0 && d.nodes[i].parent == t + 2 {
        LiveUpdate(d.nodes, i, d.nodes[i].(state := 0, size := 0));
        if d.nodes[i].state == 1 {
          EraseFewer(d, i);
          FewerTrans(ns, d.nodes, Erase(d, i).nodes);
          FileGone(ns, d.nodes, Erase(d, i).nodes, t, i);
          SweepCloses(ns, Erase(d, i), t, i + 1);
        } else {
          DeleteSound(d, i);
          DeleteCloses(d, i);
          FewerTrans(ns, d.nodes, DeleteDir(d, i).nodes);
          DirGone(ns, d.nodes, DeleteDir(d, i).nodes, t, i);
          SweepCloses(ns, DeleteDir(d, i), t, i + 1);
        }
      } else {
        NoChild(ns, d.nodes, t, i);
        SweepCloses(ns, d, t, i + 1);
      }
    } else {
      PastTheEnd(ns, d.nodes, t, i);
    }
  }

  lemma PastTheEnd(ns: seq<Node>, a: seq<Node>, t: nat, i: nat)
    requires |a| == |ns| <= i && Orphanless(ns, a, t, i)
    ensures Orphanless(ns, a, t, |ns|)
  {
    forall j | 0 <= j < |ns| && a[j].state != 0 ensures Kept(ns, a, t, |ns|, j) {
      assert Kept(ns, a, t, i, j);
    }
  }

  lemma NoChild(ns: seq<Node>, a: seq<Node>, t: nat, i: nat)
    requires |a| == |ns| && i < |ns| && Orphanless(ns, a, t, i) && !(a[i].state != 0 && a[i].parent == t + 2)
    ensures Orphanless(ns, a, t, i + 1)
  {
    forall j | 0 <= j < |ns| && a[j].state != 0 ensures Kept(ns, a, t, i + 1, j) {
      assert Kept(ns, a, t, i, j);
    }
  }

  lemma FileGone(ns: seq<Node>, a: seq<Node>, b: seq<Node>, t: nat, i: nat)
    requires Fewer(ns, a) && i < |a| && a[i].state == 1 && b == a[i := a[i].(state := 0, size := 0)]
    requires Orphanless(ns, a, t, i)
    ensures Orphanless(ns, b, t, i + 1)
  {
    forall j | 0 <= j < |ns| && b[j].state != 0 ensures Kept(ns, b, t, i + 1, j) {
      assert Kept(ns, a, t, i, j);
    }
  }

  lemma DirGone(ns: seq<Node>, a: seq<Node>, b: seq<Node>, t: nat, i: nat)
    requires Fewer(ns, a) && Fewer(a, b) && i < |a| && b[i].state == 0
    requires Orphanless(ns, a, t, i) && Orphanless(a, b, i, |a|)
    ensures Orphanless(ns, b, t, i + 1)
  {
    forall j | 0 <= j < |ns| && b[j].state != 0 ensures Kept(ns, b, t, i + 1, j) {
      assert Kept(ns, a, t, i, j) && Kept(a, b, i, |a|, j);
    }
  }

  lemma {:induction false} NoneLeft(ns: seq<Node>, ms: seq<Node>, t: nat, j: nat, n: nat)
    requires Fewer(ns, ms) && Orphanless(ns, ms, t, |ns|) && Under(ns, t, j, n)
    ensures ms[j].state == 0
    decreases n
  {
    var p := ns[j].parent - 2;
    if p != t {
      NoneLeft(ns, ms, t, p, n - 1);
    }
    assert ms[j].parent == ns[j].parent == p + 2;
    assert !Kept(ns, ms, t, |ns|, j);
  }

  /**
   `borrar_directorio` ends, and deletes the target and exactly the nodes that parent links lead
   up from to it through live directories; every other node is as it was.
   */
  lemma DeleteExact(d: Disk, t: nat, j: nat)
    requires t < |d.nodes| && j < |d.nodes|
    ensures DeleteDir(d, t).nodes[j] ==
      if Doomed(d.nodes, t, j) then d.nodes[j].(state := 0, size := 0) else d.nodes[j]
  {
    DeleteSound(d, t);
    DeleteCloses(d, t);
    if j != t && exists n: nat :: Under(d.nodes, t, j, n) {
      var n: nat :| Under(d.nodes, t, j, n);
      NoneLeft(d.nodes, DeleteDir(d, t).nodes, t, j, n);
    }
  }

  // ----- the bitmap -----

  /** Deleting node `n` clears bit `b`. */
  ghost predicate Frees(bs: seq<seq<byte>>, n: Node, b: nat)
  {
    n.state != 2 && n.size != 0 && b in ToFree(bs, n)
  }

  /** Bit `b` belongs to a node that was live in `ns` and is not in `ms`. */
  ghost predicate Lost(bs: seq<seq<byte>>, ns: seq<Node>, ms: seq<Node>, b: nat)
    requires |ms| == |ns|
  {
    exists j | 0 <= j < |ns| :: ns[j].state != 0 && ms[j].state == 0 && Frees(bs, ns[j], b)
  }

  ghost predicate Swept(d: Disk, r: Disk)
  {
    && |r.nodes| == |d.nodes| && |r.bits| == |d.bits|
    && forall b | 0 <= b < |d.bits| :: r.bits[b] == (d.bits[b] && !Lost(d.blocks, d.nodes, r.nodes, b))
  }

  lemma LostTrans(bs: seq<seq<byte>>, x: seq<Node>, y: seq<Node>, z: seq<Node>, b: nat)
    requires Fewer(x, y) && Fewer(y, z)
    ensures Lost(bs, x, z, b) <==> Lost(bs, x, y, b) || Lost(bs, y, z, b)
  {
    if Lost(bs, x, z, b) {
      var j :| 0 <= j < |x| && x[j].state != 0 && z[j].state == 0 && Frees(bs, x[j], b);
      assert y[j].state != 0 ==> Frees(bs, y[j], b);
    }
    if Lost(bs, x, y, b) {
      var j :| 0 <= j < |x| && x[j].state != 0 && y[j].state == 0 && Frees(bs, x[j], b);
      assert z[j].state == 0;
    }
    if Lost(bs, y, z, b) {
      var j :| 0 <= j < |y| && y[j].state != 0 && z[j].state == 0 && Frees(bs, y[j], b);
      assert x[j] == y[j];
    }
  }

  lemma SweptTrans(d: Disk, e: Disk, r: Disk)
    requires Fewer(d.nodes, e.nodes) && Fewer(e.nodes, r.nodes) && Swept(d, e) && Swept(e, r) && e.blocks == d.blocks
    ensures Swept(d, r)
  {
    hide Lost;
    forall b | 0 <= b < |d.bits| ensures r.bits[b] == (d.bits[b] && !Lost(d.blocks, d.nodes, r.nodes, b)) {
      LostTrans(d.blocks, d.nodes, e.nodes, r.nodes, b);
    }
  }

  lemma EraseSwept(d: Disk, i: nat)
    requires i < |d.nodes| && d.nodes[i].state != 0
    ensures Swept(d, Erase(d, i))
  {
    hide ToFree;
    var r := Erase(d, i);
    forall b | 0 <= b < |d.bits| ensures Lost(d.blocks, d.nodes, r.nodes, b) <==> Frees(d.blocks, d.nodes[i], b) {
      if Frees(d.blocks, d.nodes[i], b) {
        assert d.nodes[i].state != 0 && r.nodes[i].state == 0;
      }
    }
  }

  lemma {:induction false} DeleteSwept(d: Disk, t: nat)
    requires t < |d.nodes| && d.nodes[t].state != 0
    ensures Swept(d, DeleteDir(d, t))
    decreases Rest(d.nodes, t), |d.nodes| + 1
  {
    hide Erase;
    hide Swept;
    hide Sweep;
    LiveUpdate(d.nodes, t, d.nodes[t].(state := 0, size := 0));
    EraseFewer(d, t);
    EraseSwept(d, t);
    var e := Erase(d, t);
    SweepSwept(e, t, 0);
    SweepSound(e, t, 0);
    SweptTrans(d, e, Sweep(e, t, 0));
  }

  lemma {:induction false} SweepSwept(d: Disk, t: nat, i: nat)
    requires t < |d.nodes|
    ensures Swept(d, Sweep(d, t, i))
    decreases LiveCount(d.nodes), if i < |d.nodes| then |d.nodes| - i else 0
  {
    hide Erase;
    hide DeleteDir;
    hide Swept;
    hide Doomed;
    hide LiveCount;
    if i < |d.nodes| {
      if d.nodes[i].state != 0 && d.nodes[i].parent == t + 2 {
        LiveUpdate(d.nodes, i, d.nodes[i].(state := 0, size := 0));
        var e := if d.nodes[i].state == 1 then Erase(d, i) else DeleteDir(d, i);
        if d.nodes[i].state == 1 {
          EraseFewer(d, i);
          EraseSwept(d, i);
        } else {
          DeleteSound(d, i);
          DeleteSwept(d, i);
        }
        SweepSwept(e, t, i + 1);
        SweepSound(e, t, i + 1);
        SweptTrans(d, e, Sweep(e, t, i + 1));
      } else {
        SweepSwept(d, t, i + 1);
      }
    } else {
      NothingSwept(d);
    }
  }

  lemma NothingSwept(d: Disk)
    ensures Swept(d, d)
  {
  }

  /** A bit falls exactly when it belongs to a file that is deleted. */
  lemma DeleteBits(d: Disk, t: nat, b: nat)
    requires t < |d.nodes| && d.nodes[t].state != 0 && b < |d.bits|
    ensures DeleteDir(d, t).bits[b] <==>
      d.bits[b] && !exists j ::
        0 <= j < |d.nodes| && d.nodes[j].state != 0 && Doomed(d.nodes, t, j) && Frees(d.blocks, d.nodes[j], b)
  {
    hide DeleteDir;
    hide Frees;
    hide Doomed;
    DeleteSwept(d, t);
    var r := DeleteDir(d, t);
    DoomedAll(d, t);
    forall j | 0 <= j < |d.nodes| ensures d.nodes[j].state != 0 ==> (r.nodes[j].state == 0 <==> Doomed(d.nodes, t, j)) {
      DeleteExact(d, t, j);
    }
  }

  lemma DoomedAll(d: Disk, t: nat)
    requires t < |d.nodes|
    ensures Fewer(d.nodes, DeleteDir(d, t).nodes)
  {
    DeleteSound(d, t);
  }
}
