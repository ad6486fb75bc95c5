/**
 The file system's disk and the functions of `filesystem/sac_handlers.c` that change it in place:
 node table, bitmap and blocks are arrays, and each method is tied to the same step on disk values,
 where what the source promises is proved.
 */
module Sac {
  import opened Bytes
  import opened Inodes
  import opened Files
  import opened Removal
  import opened Reads
  import opened Overwrites

  class Disco {
    const nodes: array<Node>
    const bits: array<bool>
    const blocks: array<seq<byte>>
    const first: nat

    ghost function St(): Disk
      reads nodes, bits, blocks
    {
      Disk(nodes[..], bits[..], blocks[..], first)
    }

    /** A disk with its own copy of the tables read from the mapped file. */
    constructor (d: Disk)
      ensures St() == d && fresh(nodes) && fresh(bits) && fresh(blocks)
    {
      var n, b, c := d.nodes, d.bits, d.blocks;
      nodes := new Node[|n|](i requires 0 <= i < |n| => n[i]);
      bits := new bool[|b|](i requires 0 <= i < |b| => b[i]);
      blocks := new seq<byte>[|c|](i requires 0 <= i < |c| => c[i]);
      first := d.first;
      new;
      assert nodes[..] == n && bits[..] == b && blocks[..] == c;
    }

    /** `get_bloque_vacio`: what it finds lies on the disk exactly when some block of the disk is left. */
    method GetBloqueVacio() returns (b: int)
      modifies bits
      ensures (St(), b) == Take(old(St()))
      ensures blocks.Length <= bits.Length ==> (0 <= b < blocks.Length <==> old(Room(St())) > 0)
    {
      if blocks.Length <= bits.Length {
        TakeExact(St());
      }
      var bitActual := first;
      while bitActual < bits.Length && bits[bitActual]
        invariant FirstZero(bits[..], first) == FirstZero(bits[..], bitActual)
        invariant bits[..] == old(bits[..])
        decreases bits.Length - bitActual
      {
        bitActual := bitActual + 1;
      }
      if bitActual >= bits.Length {
        return -1;
      }
      bits[bitActual] := true;
      return bitActual;
    }

    /** `cantidad_bloques_libres`: the blocks left on the disk exactly when no bit behind it is unmarked. */
    method CantidadBloquesLibres() returns (contador: nat)
      ensures contador == Free(St()) && contador >= Room(St()) && (contador == Room(St()) <==> Covered(St()))
    {
      contador := 0;
      var i := first;
      CountFrom(bits[..], first);
      while i < bits.Length
        invariant i <= bits.Length ==> contador == CountZeros(bits[..i], first)
        invariant first <= i && (first <= bits.Length ==> i <= bits.Length) && (bits.Length < first ==> contador == 0)
      {
        assert bits[..i + 1][..i] == bits[..i];
        if !bits[i] {
          contador := contador + 1;
        }
        i := i + 1;
      }
      if first <= bits.Length {
        assert bits[..bits.Length] == bits[..];
      }
      RoomExact(St());
    }

    /** `agregar_nodo` */
    method AgregarNodo(i: nat, numeroNodo: nat) returns (respuesta: Status)
      requires i < nodes.Length
      modifies nodes, bits, blocks
      ensures (St(), respuesta) == AddNode(old(St()), i, numeroNodo)
    {
      hide FirstZero;
      hide SetPointer;
      var n := nodes[i];
      var puntero, posicion := n.size / SPAN, n.size % SPAN / BLOCK;
      if puntero == INDIRECT - 1 && posicion == POINTERS - 1 {
        return NoSpace;
      }
      var bloque: nat := Indirect(n, puntero);
      if posicion == 0 {
        var nuevo := GetBloqueVacio();
        if nuevo == -1 || puntero + 1 >= |n.indirect| {
          return NoSpace;
        }
        if nuevo >= blocks.Length {
          return OffDisk;
        }
        bloque := nuevo;
        blocks[bloque] := Zeros();
        nodes[i] := n.(indirect := n.indirect[puntero := bloque][puntero + 1 := 0]);
      }
      if bloque < blocks.Length && |blocks[bloque]| == BLOCK && numeroNodo < WORD {
        blocks[bloque] := SetPointer(blocks[bloque], posicion, numeroNodo);
      }
      respuesta := Done;
    }

    // ----- files -----

    /** `memcpy` to an offset in a block, on into the next one if need be, and the node's size with it. */
    method Copiar(i: nat, bloque: nat, at: nat, x: seq<byte>, fileSize: nat)
      requires i < nodes.Length
      modifies nodes, blocks
      ensures St() == PutAs(old(St()), i, bloque, at, x, fileSize)
    {
      if bloque < blocks.Length && |blocks[bloque]| == BLOCK {
        if at + |x| <= BLOCK {
          blocks[bloque] := Splice(blocks[bloque], at, x);
        } else if at <= BLOCK && bloque + 1 < blocks.Length && |blocks[bloque + 1]| == BLOCK && at + |x| <= 2 * BLOCK {
          blocks[bloque] := Splice(blocks[bloque], at, x[..BLOCK - at]);
          blocks[bloque + 1] := Splice(blocks[bloque + 1], 0, x[BLOCK - at..]);
        }
      }
      nodes[i] := nodes[i].(size := fileSize);
    }

    /** What `escribir_archivo` takes for the space left in the last block. */
    method EspacioEnBloque(fileSize: nat) returns (spaceInBlock: nat)
      ensures spaceInBlock == Space(fileSize)
    {
      spaceInBlock := BLOCK - fileSize % BLOCK;
      if spaceInBlock == BLOCK {
        spaceInBlock := 0;
      }
      if fileSize == 0 {
        spaceInBlock := BLOCK;
      }
    }

    /** A new block for the file, as `escribir_archivo` asks for one. */
    method BloqueNuevo(i: nat) returns (bloque: nat, respuesta: Status)
      requires i < nodes.Length
      modifies nodes, bits, blocks
      ensures Take(old(St())).1 == -1 ==> respuesta == NoSpace && St() == old(St())
      ensures Take(old(St())).1 != -1 ==>
        (St(), respuesta) == AddNode(Take(old(St())).0, i, Take(old(St())).1) && bloque == Take(old(St())).1
      ensures nodes[i].size == old(nodes[i].size)
    {
      hide Take;
      hide AddNode;
      hide Free;
      hide Room;
      hide Covered;
      bloque, respuesta := 0, NoSpace;
      var libres := CantidadBloquesLibres();
      ghost var e := St();
      TakeNone(e);
      if libres == 0 {
        return;
      }
      var nodoLibreNuevo := GetBloqueVacio();
      if nodoLibreNuevo < 0 {
        return;
      }
      bloque := nodoLibreNuevo;
      AddNodeSize(Take(e).0, i, bloque);
      respuesta := AgregarNodo(i, bloque);
    }

    /** The loop of `escribir_archivo`. */
    method EscribirPiezas(i: nat, buffer: seq<byte>, offset: nat) returns (respuesta: Status)
      requires i < nodes.Length
      modifies nodes, bits, blocks
      ensures (St(), respuesta) == Write(old(St()), i, buffer, offset, offset % BLOCK)
    {
      hide PutAs;
      hide AddNode;
      hide Take;
      hide Pointer;
      hide Indirect;
      hide Write;
      hide Fill;
      hide Space;
      hide SizeAfter;
      ghost var goal := Write(St(), i, buffer, offset, offset % BLOCK);
      var resto, fileSize := buffer, nodes[i].size;
      var off: nat, offsetInBlock: nat := offset, offset % BLOCK;
      while resto != []
        invariant fileSize == nodes[i].size
        invariant goal == Write(St(), i, resto, off, offsetInBlock)
        decreases |resto|
      {
        WriteIs(St(), i, resto, off, offsetInBlock);
        var spaceInBlock := EspacioEnBloque(fileSize);
        var bloque: nat;
        if off >= fileSize + spaceInBlock && fileSize != 0 {
          bloque, respuesta := BloqueNuevo(i);
          if respuesta != Done {
            return;
          }
          spaceInBlock := BLOCK;
        } else {
          var punteros := Indirect(nodes[i], off / SPAN);
          bloque := Pointer(blocks[..], punteros, off % SPAN / BLOCK);
          if punteros < first || bloque < first {
            return Stray;
          }
        }
        FillIs(St(), i, bloque, resto, off, offsetInBlock, spaceInBlock);
        var m, at := Piece(resto, spaceInBlock), if |resto| >= BLOCK then 0 else offsetInBlock;
        if m == 0 {
          return Endless;
        }
        if bloque >= blocks.Length || (at + m > BLOCK && bloque + 1 >= blocks.Length) {
          return OffDisk;
        }
        fileSize := SizeAfter(fileSize, off, |resto|, spaceInBlock);
        PutAsSize(St(), i, bloque, at, resto[..m], fileSize);
        Copiar(i, bloque, at, resto[..m], fileSize);
        off := off + m;
        resto := resto[m..];
        offsetInBlock := 0;
      }
      WriteNothing(St(), i, off, offsetInBlock);
      return Done;
    }

    /**
     `escribir_archivo`. At the end of a file of a sound disk a write comes out right when it starts at a
     block's end or is shorter than a block, and the disk has the blocks it needs or counts no others as
     free; no other does. Before the end it ends when the last block has space for what is left of it
     after its whole blocks, and is right when it starts at a block's start, lies in one block, or is
     over bytes that read the same; among those that run over no block's end, no other is.
     */
    method EscribirArchivo(i: nat, buffer: seq<byte>, offset: nat) returns (respuesta: Status)
      requires i < nodes.Length && nodes[i].size + |buffer| < 0x8000_0000 && offset + |buffer| < 0x8000_0000
      modifies nodes, bits, blocks
      ensures (St(), respuesta) == Write(old(St()), i, buffer, offset, offset % BLOCK)
      ensures Sound(old(St())) && old(nodes[i].state) == 1 && offset == old(nodes[i].size) ==>
        (Appended(old(St()), i, buffer, (St(), respuesta))
         <==> (offset % BLOCK == 0 || |buffer| < BLOCK)
              && (Need(offset, |buffer|) <= old(Room(St())) || old(Covered(St()))))
      ensures old(Within(St(), i, offset, |buffer|)) && Contained(offset, |buffer|) ==>
        (respuesta == Done && Overwritten(old(St()), St(), i, offset, buffer)
         <==> |buffer| % BLOCK <= Space(old(nodes[i].size))
              && (offset % BLOCK == 0 || |buffer| < BLOCK
                  || var c := old(Content(St(), i));
                     Splice(c, Landing(offset, |buffer|), buffer) == Splice(c, offset, buffer)))
    {
      hide Sound;
      hide Appended;
      hide Overwritten;
      hide Content;
      hide Write;
      hide Room;
      hide Covered;
      hide Splice;
      hide Within;
      hide Contained;
      ghost var d := St();
      respuesta := EscribirPiezas(i, buffer, offset);
      if Sound(d) && d.nodes[i].state == 1 && offset == d.nodes[i].size {
        AppendExact(d, i, buffer);
      }
      if Within(d, i, offset, |buffer|) && Contained(offset, |buffer|) {
        OverwriteExact(d, i, buffer, offset);
      }
    }

    /** `leer_archivo`, of a file as long as its table of pointer blocks allows: when it returns the file's bytes. */
    method LeerArchivo(i: nat, size: nat, off: nat) returns (buffer: seq<byte>)
      requires i < nodes.Length && nodes[i].size <= INDIRECT * SPAN
      ensures buffer == Read(St(), i, size, off)
      ensures Sound(St()) && nodes[i].state == 1 && off < nodes[i].size ==>
        var t, r := Asked(nodes[i], size, off), off % BLOCK;
        buffer == Content(St(), i)[off..off + t]
        <==> r == 0 || r + t <= BLOCK || forall y: nat | BLOCK - r <= y < t :: Comes(St(), i, off, y)
    {
      hide Comes;
      hide Pending;
      hide Sound;
      hide Content;
      hide Gather;
      hide Entry;
      var n := nodes[i];
      if Sound(St()) && n.state == 1 && off < n.size {
        ReadExact(St(), i, size, off);
      }
      if n.size <= off {
        return [];
      }
      var tamanio: nat := if n.size <= off + size then n.size - off else size;
      var offset: nat := off;
      ghost var bs, goal := blocks[..], Gather(blocks[..], n, off / BLOCK, off % BLOCK, tamanio);
      PendingStart(bs, n, off, tamanio);
      buffer := [];
      var terminado := false;
      var p := 0;
      while p < INDIRECT && !terminado
        invariant 0 <= p <= INDIRECT
        invariant terminado ==> buffer == goal
        invariant !terminado ==> Pending(bs, n, p * POINTERS, offset, tamanio, buffer, goal)
        decreases INDIRECT - p, if terminado then 0 else 1
      {
        if offset > SPAN {
          PendingSkip(bs, n, p * POINTERS, offset, tamanio, buffer, goal, POINTERS);
          offset := offset - SPAN;
        } else {
          terminado, offset, tamanio, buffer := LeerBloque(n, p, offset, tamanio, buffer, goal);
        }
        p := p + 1;
      }
      if !terminado {
        PendingSoon(bs, n, p * POINTERS, offset, tamanio, buffer, goal);
      }
    }

    /** The inner loop of `leer_archivo`: the entries of pointer block `p`. */
    method LeerBloque(n: Node, p: nat, off: nat, size: nat, leido: seq<byte>, ghost goal: seq<byte>)
      returns (terminado: bool, offset: nat, tamanio: nat, buffer: seq<byte>)
      requires Pending(blocks[..], n, p * POINTERS, off, size, leido, goal)
      ensures terminado ==> buffer == goal
      ensures !terminado ==> Pending(blocks[..], n, (p + 1) * POINTERS, offset, tamanio, buffer, goal)
    {
      hide Gather;
      hide Entry;
      hide Pending;
      hide Raw;
      hide Pointer;
      ghost var bs := blocks[..];
      var bloquePunteros := Indirect(n, p);
      offset, tamanio, buffer, terminado := off, size, leido, false;
      var j := 0;
      while j < POINTERS && !terminado
        invariant 0 <= j <= POINTERS
        invariant terminado ==> buffer == goal
        invariant !terminado ==> Pending(bs, n, p * POINTERS + j, offset, tamanio, buffer, goal)
        decreases POINTERS - j, if terminado then 0 else 1
      {
        if offset >= BLOCK {
          PendingSkip(bs, n, p * POINTERS + j, offset, tamanio, buffer, goal, 1);
          offset := offset - BLOCK;
          j := j + 1;
        } else {
          var bloque := Pointer(blocks[..], bloquePunteros, j);
          EntryIs(bs, n, p, j);
          PendingRead(bs, n, p * POINTERS + j, offset, tamanio, buffer, goal);
          if tamanio < BLOCK {
            buffer := buffer + Raw(blocks[..], bloque, offset, tamanio);
            tamanio := 0;
            terminado := true;
          } else {
            buffer := buffer + Raw(blocks[..], bloque, offset, BLOCK);
            tamanio := tamanio - BLOCK;
            terminado := tamanio == 0;
            j := j + 1;
          }
          offset := 0;
        }
      }
    }

    /** The node search of `crear_nuevo_nodo`, then a node of type `tipo`: 1 for a file, which gets its first block. */
    method CrearNodo(parent: nat, tipo: nat) returns (i: int, respuesta: Status)
      modifies nodes, bits, blocks
      ensures i == -1 ==> St() == old(St()) && respuesta == NoSpace
      ensures i == -1 ==> forall j | 0 <= j < nodes.Length :: nodes[j].state != 0
      ensures i != -1 ==> 0 <= i < nodes.Length && (St(), respuesta) == CreateNode(old(St()), i, parent, tipo)
      ensures i != -1 ==> old(nodes[i].state) == 0 && forall j | 0 <= j < i :: old(nodes[j].state) != 0
      ensures i != -1 && tipo == 1 && old(Sound(St())) ==> (respuesta == Done <==> old(Room(St())) >= 2)
    {
      hide Take;
      hide Sound;
      hide Room;
      ghost var d := St();
      hide AddNode;
      var currNode := 0;
      while currNode < nodes.Length && nodes[currNode].state != 0
        invariant 0 <= currNode <= nodes.Length
        invariant forall j | 0 <= j < currNode :: nodes[j].state != 0
      {
        currNode := currNode + 1;
      }
      if currNode >= nodes.Length {
        return -1, NoSpace;
      }
      i := currNode;
      nodes[i] := nodes[i].(state := tipo, size := 0, parent := parent);
      respuesta := Done;
      if tipo == 1 {
        if Sound(d) {
          CreateExact(d, i, parent);
        }
        TakeNone(St());
        var nuevo := GetBloqueVacio();
        if nuevo == -1 {
          respuesta := Stray;
          return;
        }
        respuesta := AgregarNodo(i, nuevo);
        if respuesta == OffDisk || nuevo >= blocks.Length {
          respuesta := OffDisk;
          return;
        }
        if respuesta != Done {
          respuesta := Stray;
          return;
        }
        blocks[nuevo] := Zeros();
      }
    }

    // ----- removal -----

    /** `bitarray_clean_bit` */
    method LimpiarBit(b: nat)
      modifies bits
      ensures bits[..] == Clear(old(bits[..]), [b])
    {
      var one := [b];
      assert one[1..] == [];
      if b < bits.Length {
        bits[b] := false;
      }
    }

    /** The first `k` entries of a pointer block. */
    method LimpiarEntradas(bloque: nat, k: nat)
      modifies bits
      ensures bits[..] == Clear(old(bits[..]), Entries(blocks[..], bloque, k))
    {
      ghost var was := bits[..];
      for j := 0 to k
        invariant bits[..] == Clear(was, Entries(blocks[..], bloque, j))
      {
        LimpiarBit(Pointer(blocks[..], bloque, j));
        ClearAppend(was, Entries(blocks[..], bloque, j), [Pointer(blocks[..], bloque, j)]);
        assert Entries(blocks[..], bloque, j + 1) == Entries(blocks[..], bloque, j) + [Pointer(blocks[..], bloque, j)];
      }
    }

    /** `borrar_contenido` */
    method BorrarContenido(i: nat, tamanio: nat)
      requires i < nodes.Length && tamanio == nodes[i].size
      modifies bits
      ensures bits[..] == Clear(old(bits[..]), ToFree(blocks[..], nodes[i]))
    {
      hide Clear;
      hide Entries;
      ghost var was, bs := bits[..], blocks[..];
      var n := nodes[i];
      NothingCleared(was);
      for p := 0 to tamanio / SPAN
        invariant bits[..] == Clear(was, Whole(bs, n, p))
      {
        var bloque := Indirect(n, p);
        LimpiarEntradas(bloque, POINTERS);
        LimpiarBit(bloque);
        ClearAppend(was, Whole(bs, n, p), Entries(bs, bloque, POINTERS));
        ClearAppend(was, Whole(bs, n, p) + Entries(bs, bloque, POINTERS), [bloque]);
      }
      var ultimo := Indirect(n, tamanio / SPAN);
      LimpiarEntradas(ultimo, Ceil(tamanio % SPAN));
      LimpiarBit(ultimo);
      ClearAppend(was, Whole(bs, n, tamanio / SPAN), Entries(bs, ultimo, Ceil(tamanio % SPAN)));
      ClearAppend(was, Whole(bs, n, tamanio / SPAN) + Entries(bs, ultimo, Ceil(tamanio % SPAN)), [ultimo]);
    }

    /** `borrar_archivo` */
    method BorrarArchivo(i: nat)
      requires i < nodes.Length
      modifies nodes, bits
      ensures St() == Erase(old(St()), i)
    {
      hide ToFree;
      hide Clear;
      if nodes[i].state == 2 {
        nodes[i] := nodes[i].(state := 0, size := 0);
        return;
      }
      if nodes[i].size != 0 {
        BorrarContenido(i, nodes[i].size);
      }
      nodes[i] := nodes[i].(state := 0, size := 0);
    }

    /** `borrar_directorio` */
    method BorrarDirectorio(t: nat)
      requires t < nodes.Length
      modifies nodes, bits
      ensures St() == DeleteDir(old(St()), t)
      ensures old(Sound(St())) ==> Sound(St())
      ensures forall j | 0 <= j < nodes.Length ::
        nodes[j] == if Doomed(old(nodes[..]), t, j) then old(nodes[j]).(state := 0, size := 0) else old(nodes[j])
      decreases Rest(nodes[..], t)
    {
      hide Erase;
      hide Sound;
      hide Doomed;
      hide LiveCount;
      ghost var d := St();
      EraseFewer(d, t);
      LiveUpdate(d.nodes, t, d.nodes[t].(state := 0, size := 0));
      BorrarArchivo(t);
      ghost var e := St();
      var currNode := 0;
      while currNode < nodes.Length
        invariant 0 <= currNode <= nodes.Length
        invariant Sweep(St(), t, currNode) == Sweep(e, t, 0)
        invariant LiveCount(nodes[..]) <= Rest(d.nodes, t)
        decreases nodes.Length - currNode
      {
        ghost var f := St();
        if nodes[currNode].state != 0 {
          if nodes[currNode].parent == t + 2 {
            EraseFewer(f, currNode);
            LiveUpdate(f.nodes, currNode, f.nodes[currNode].(state := 0, size := 0));
            if nodes[currNode].state == 1 {
              BorrarArchivo(currNode);
            } else {
              BorrarDirectorio(currNode);
            }
          }
        }
        currNode := currNode + 1;
      }
      if Sound(d) {
        DeleteKeeps(d, t);
      }
      forall j | 0 <= j < nodes.Length
        ensures nodes[j] == if Doomed(d.nodes, t, j) then d.nodes[j].(state := 0, size := 0) else d.nodes[j]
      {
        DeleteExact(d, t, j);
      }
    }
  }

  lemma PutAsSize(d: Disk, i: nat, b: nat, at: nat, x: seq<byte>, s: nat)
    requires i < |d.nodes|
    ensures |PutAs(d, i, b, at, x, s).nodes| == |d.nodes| && PutAs(d, i, b, at, x, s).nodes[i].size == s
  {
  }

  lemma TakeNone(d: Disk)
    ensures Take(d).1 == -1 <==> Free(d) == 0
    ensures Take(d).1 == -1 ==> Take(d).0 == d
  {
    NoZeros(d.bits, d.first);
  }

  /** What is read so far and what the rest of the loop will read make up the goal, and the rest is in reach. */
  ghost predicate Pending(bs: seq<seq<byte>>, n: Node, j: nat, offset: nat, t: nat, buffer: seq<byte>, goal: seq<byte>)
  {
    && buffer + Gather(bs, n, j + offset / BLOCK, offset % BLOCK, t) == goal
    && j * BLOCK + offset < INDIRECT * SPAN && j * BLOCK + offset + t <= INDIRECT * SPAN
  }

  lemma PendingStart(bs: seq<seq<byte>>, n: Node, off: nat, t: nat)
    requires off < INDIRECT * SPAN && off + t <= INDIRECT * SPAN
    ensures Pending(bs, n, 0 * POINTERS, off, t, [], Gather(bs, n, off / BLOCK, off % BLOCK, t))
  {
    hide Gather;
  }

  lemma PendingSkip(bs: seq<seq<byte>>, n: Node, j: nat, offset: nat, t: nat, buffer: seq<byte>, goal: seq<byte>,
      k: nat)
    requires Pending(bs, n, j, offset, t, buffer, goal) && k * BLOCK <= offset
    ensures Pending(bs, n, j + k, offset - k * BLOCK, t, buffer, goal)
  {
    hide Gather;
    assert (j + k) + (offset - k * BLOCK) / BLOCK == j + offset / BLOCK;
    assert (offset - k * BLOCK) % BLOCK == offset % BLOCK;
  }

  lemma PendingRead(bs: seq<seq<byte>>, n: Node, j: nat, offset: nat, t: nat, buffer: seq<byte>, goal: seq<byte>)
    requires Pending(bs, n, j, offset, t, buffer, goal) && offset < BLOCK
    ensures var b := Entry(bs, n, j);
            if t < BLOCK then buffer + Raw(bs, b, offset, t) == goal
            else if t == BLOCK then buffer + Raw(bs, b, offset, BLOCK) == goal
            else Pending(bs, n, j + 1, 0, t - BLOCK, buffer + Raw(bs, b, offset, BLOCK), goal)
  {
    hide Entry;
    GatherStep(bs, n, j, offset, t, buffer);
  }

  /** A file ends where its table of pointer blocks does, at the latest. */
  lemma PendingSoon(bs: seq<seq<byte>>, n: Node, j: nat, offset: nat, t: nat, buffer: seq<byte>, goal: seq<byte>)
    requires Pending(bs, n, j, offset, t, buffer, goal)
    ensures j < INDIRECT * POINTERS
  {
    hide Gather;
  }

  lemma EntryIs(bs: seq<seq<byte>>, n: Node, p: nat, j: nat)
    requires j < POINTERS
    ensures Entry(bs, n, p * POINTERS + j) == Pointer(bs, Indirect(n, p), j)
  {
    assert (p * POINTERS + j) / POINTERS == p && (p * POINTERS + j) % POINTERS == j;
  }

  lemma GatherStep(bs: seq<seq<byte>>, n: Node, j: nat, offset: nat, t: nat, buffer: seq<byte>)
    requires offset < BLOCK
    ensures var b := Entry(bs, n, j); var x := buffer + Gather(bs, n, j + offset / BLOCK, offset % BLOCK, t);
            if t < BLOCK then x == buffer + Raw(bs, b, offset, t)
            else if t == BLOCK then x == buffer + Raw(bs, b, offset, BLOCK)
            else x == (buffer + Raw(bs, b, offset, BLOCK)) + Gather(bs, n, j + 1 + 0 / BLOCK, 0 % BLOCK, t - BLOCK)
  {
    hide Entry;
    hide Raw;
    assert offset / BLOCK == 0 && offset % BLOCK == offset;
  }

  lemma NothingCleared(bits: seq<bool>)
    ensures Clear(bits, []) == bits
  {
  }

  lemma CountFrom(bits: seq<bool>, from: nat)
    ensures |bits| <= from ==> CountZeros(bits, from) == 0
    ensures from <= |bits| ==> CountZeros(bits[..from], from) == 0
  {
  }
}
