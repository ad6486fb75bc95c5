/**
 The server's state and the routines of `memoria/main_memory.c` that work on it in place: frames,
 swap file, bitmaps, page tables and clock hands are the fields, and every routine that loads a
 page may evict another. Each method is tied to the header chain, to the flat bytes of the
 segments, or to both.
 */
module Muse {
  import opened Bytes
  import opened Sizes
  import opened Chain
  import opened Layout
  import opened Clock
  import opened Paging
  import opened Segments
  import opened Headers
  import opened Copies
  import opened Views
  import opened Traces
  import opened Accesses
  import opened Assured
  import opened Ranges
  import opened Guarantees
  import H = Heap

  /** `Corrupted` is where the model stops: a page lost its frame, or a header went to the wrong page. */
  datatype Outcome<+T> = Done(value: T) | Corrupted {
    predicate IsFailure()
    {
      Corrupted?
    }

    function PropagateFailure<U>(): Outcome<U>
      requires Corrupted?
    {
      Corrupted
    }

    function Extract(): T
      requires Done?
    {
      value
    }
  }

  class Memory {
    const pageSize: nat
    const frames: array<seq<byte>>
    const bitmap: array<bool>
    const swap: array<seq<byte>>
    const bitmapSwap: array<bool>
    /** False in the source: true writes each half of a cut header before the other page is loaded. */
    const reparado: bool
    /** False in the source: true has the compactor merge into free blocks only. */
    const guardado: bool
    var pids: seq<nat>
    var tables: Tables
    var segmentoClock: nat
    var paginaClock: nat
    ghost var chains: seq<seq<Block>>

    ghost function St(): State
      reads this, frames, bitmap, swap, bitmapSwap
    {
      State(frames[..], bitmap[..], swap[..], bitmapSwap[..], tables, segmentoClock, paginaClock)
    }

    ghost predicate Apart()
    {
      frames != swap && bitmap != bitmapSwap
    }

    /** `muse_main_memory_init`: everything free, no program. */
    constructor (memorySize: nat, pageSize: nat, swapSize: nat, reparado: bool, guardado: bool)
      requires 0 < pageSize <= memorySize
      ensures this.pageSize == pageSize && this.reparado == reparado && this.guardado == guardado
      ensures Apart() && fresh(frames) && fresh(swap) && fresh(bitmap) && fresh(bitmapSwap)
      ensures pids == [] && tables == [] && chains == []
      ensures |St().frames| == memorySize / pageSize && |St().swap| == swapSize / pageSize
      ensures Exclusive(St(), pageSize) && Balanced(St())
    {
      var totalFrameNum := memorySize / pageSize;
      var totalFrameNumSwap := swapSize / pageSize;
      this.pageSize, this.reparado, this.guardado := pageSize, reparado, guardado;
      frames := new seq<byte>[totalFrameNum](_ => seq(pageSize, _ => 0));
      bitmap := new bool[totalFrameNum](_ => true);
      swap := new seq<byte>[totalFrameNumSwap](_ => seq(pageSize, _ => 0));
      bitmapSwap := new bool[totalFrameNumSwap](_ => true);
      pids, tables, chains := [], [], [];
      segmentoClock, paginaClock := 0, 0;
      new;
      AllTrue(bitmap[..]);
      AllTrue(bitmapSwap[..]);
      assert memorySize / pageSize > 0 by {
        assert memorySize == memorySize / pageSize * pageSize + memorySize % pageSize;
      }
    }

    /** `number_of_free_frames` */
    method NumberOfFreeFrames() returns (n: nat)
      ensures n == Available(St())
    {
      n := 0;
      for i := 0 to bitmap.Length
        invariant n == CountTrue(bitmap[..i])
      {
        assert bitmap[..i + 1][..i] == bitmap[..i];
        n := n + if bitmap[i] then 1 else 0;
      }
      ghost var upcm := n;
      for i := 0 to bitmapSwap.Length
        invariant n == upcm + CountTrue(bitmapSwap[..i])
      {
        assert bitmapSwap[..i + 1][..i] == bitmapSwap[..i];
        n := n + if bitmapSwap[i] then 1 else 0;
      }
      assert bitmap[..bitmap.Length] == bitmap[..] && bitmapSwap[..bitmapSwap.Length] == bitmapSwap[..];
    }

    /** `number_of_free_frames_upcm` */
    method NumberOfFreeFramesUpcm() returns (n: nat)
      ensures n == CountTrue(bitmap[..])
    {
      n := 0;
      for i := 0 to bitmap.Length
        invariant n == CountTrue(bitmap[..i])
      {
        assert bitmap[..i + 1][..i] == bitmap[..i];
        n := n + if bitmap[i] then 1 else 0;
      }
      assert bitmap[..bitmap.Length] == bitmap[..];
    }

    /** `frame_swap_libre` */
    method FrameSwapLibre() returns (k: int)
      modifies bitmapSwap
      ensures k == FirstTrue(old(bitmapSwap[..]), 0)
      ensures bitmapSwap[..] == if k == -1 then old(bitmapSwap[..]) else old(bitmapSwap[..])[k := false]
    {
      for i := 0 to bitmapSwap.Length
        invariant bitmapSwap[..] == old(bitmapSwap[..])
        invariant forall j | 0 <= j < i :: !bitmapSwap[..][j]
      {
        if bitmapSwap[i] {
          assert bitmapSwap[..][i];
          bitmapSwap[i] := false;
          return i;
        }
      }
      return -1;
    }

    /** `mandar_al_archivo_swap_toda_la_pagina_que_esta_en` */
    method MandarASwap(frame: nat) returns (k: int)
      requires Apart() && frame < frames.Length && swap.Length == bitmapSwap.Length
      modifies bitmapSwap, swap
      ensures k == FirstTrue(old(bitmapSwap[..]), 0)
      ensures bitmapSwap[..] == if k == -1 then old(bitmapSwap[..]) else old(bitmapSwap[..])[k := false]
      ensures swap[..] == if k == -1 then old(swap[..]) else old(swap[..])[k := frames[frame]]
    {
      k := FrameSwapLibre();
      if k != -1 {
        swap[k] := frames[frame];
      }
    }

    /** `se_hace_la_vistima`; `moved` is false where the code logs that the swap file is full. */
    method SeHaceLaVistima(s: nat, p: nat) returns (frame: nat, moved: bool)
      requires Apart() && Sane(St()) && Spot(tables, s, p) && tables[s][p].present
      modifies this`tables, bitmap, bitmapSwap, swap
      ensures St() == Evict(old(St()), s, p) && frame == old(tables[s][p].fr)
      ensures moved == (FirstTrue(old(bitmapSwap[..]), 0) != -1)
    {
      frame := tables[s][p].fr;
      bitmap[frame] := true;
      var k := MandarASwap(frame);
      moved := k != -1;
      if moved {
        tables := SetPage(tables, s, p, tables[s][p].(fr := k, present := false));
      }
    }

    /** The search of `dame_nro_frame_reemplazado`: the hand goes round until a page is chosen. */
    method BuscarVictima() returns (nroDeSegmento: nat, nroDePag: nat, ghost passes: nat)
      requires SomePresent(tables)
      modifies this`tables
      ensures Choice(tables, nroDeSegmento, nroDePag, passes) == Victim(old(tables), segmentoClock, paginaClock)
    {
      hide Scanning;
      hide Victim;
      hide Find;
      hide ClearTo;
      nroDeSegmento, nroDePag := segmentoClock, paginaClock + 1;
      var nroPaso := 1;
      ghost var t0, hs, hp := tables, segmentoClock, paginaClock;
      ghost var base := tables;
      passes := 1;
      ScanStart(t0, hs, hp);
      label busqueda:
      while true
        invariant Scanning(t0, hs, hp, passes, base, tables, nroDeSegmento, nroDePag)
        invariant nroPaso == 2 - passes % 2
        modifies this`tables
        decreases 4 - passes
      {
        ScanShape(t0, hs, hp, passes, base, tables, nroDeSegmento, nroDePag);
        while nroDeSegmento < |tables|
          invariant SameShape(t0, tables)
          invariant Scanning(t0, hs, hp, passes, base, tables, nroDeSegmento, nroDePag)
          modifies this`tables
          decreases |t0| - nroDeSegmento
        {
          while nroDePag < |tables[nroDeSegmento]|
            invariant SameShape(t0, tables)
            invariant Scanning(t0, hs, hp, passes, base, tables, nroDeSegmento, nroDePag)
            invariant nroDeSegmento < |tables|
            modifies this`tables
            decreases |t0[nroDeSegmento]| - nroDePag
          {
            var pag := tables[nroDeSegmento][nroDePag];
            if pag.present {
              if (nroPaso == 1 && !pag.used && !pag.modified) || (nroPaso == 2 && !pag.used && pag.modified) {
                ScanHit(t0, hs, hp, passes, base, tables, nroDeSegmento, nroDePag);
                break busqueda;
              }
              ScanMiss(t0, hs, hp, passes, base, tables, nroDeSegmento, nroDePag);
              if nroPaso == 2 {
                tables := SetPage(tables, nroDeSegmento, nroDePag, pag.(used := false));
              }
            } else {
              ScanMiss(t0, hs, hp, passes, base, tables, nroDeSegmento, nroDePag);
            }
            nroDePag := nroDePag + 1;
          }
          ScanNext(t0, hs, hp, passes, base, tables, nroDeSegmento, nroDePag);
          nroDePag := 0;
          nroDeSegmento := nroDeSegmento + 1;
        }
        ScanWrap(t0, hs, hp, passes, base, tables, nroDeSegmento, nroDePag);
        base := tables;
        nroDeSegmento, nroDePag := 0, 0;
        nroPaso := nroPaso + 1;
        if nroPaso == 3 {
          nroPaso := 1;
        }
        passes := passes + 1;
      }
    }

    /** `dame_nro_frame_reemplazado` */
    method DameNroFrameReemplazado() returns (frame: nat, moved: bool, ghost passes: nat)
      requires Apart() && Sane(St()) && SomePresent(tables)
      modifies this`tables, this`segmentoClock, this`paginaClock, bitmap, bitmapSwap, swap
      ensures (St(), frame) == Replace(old(St()))
      ensures moved == (FirstTrue(old(bitmapSwap[..]), 0) != -1)
      ensures passes == Victim(old(tables), old(segmentoClock), old(paginaClock)).passes <= 4
    {
      hide Replace;
      hide Sane;
      ghost var st0 := St();
      var nroDeSegmento, nroDePag;
      nroDeSegmento, nroDePag, passes := BuscarVictima();
      assert St() == st0.(tables := tables);
      ReplaceIs(st0, Choice(tables, nroDeSegmento, nroDePag, passes));
      frame, moved := SeHaceLaVistima(nroDeSegmento, nroDePag);
      ghost var st2 := St();
      segmentoClock, paginaClock := nroDeSegmento, nroDePag;
      assert St() == st2.(handSeg := nroDeSegmento, handPage := nroDePag);
    }

    /** `page_with_free_size`; `moved` is false where its victim found no slot. */
    method PageWithFreeSize() returns (pag: Page, moved: bool)
      requires Apart() && Sane(St()) && (FirstTrue(bitmap[..], 0) == -1 ==> SomePresent(tables))
      modifies this`tables, this`segmentoClock, this`paginaClock, bitmap, bitmapSwap, swap
      ensures var f := FirstTrue(old(bitmap[..]), 0);
              var r := if f == -1 then Replace(old(St())) else (old(St()), f as nat);
              St() == r.0.(frameFree := r.0.frameFree[r.1 := false]) && pag == Page(true, false, true, r.1)
      ensures moved == (FirstTrue(old(bitmap[..]), 0) != -1 || FirstTrue(old(bitmapSwap[..]), 0) != -1)
    {
      moved := true;
      var currFrameNum: nat := 0;
      while true
        invariant currFrameNum <= bitmap.Length && moved
        invariant unchanged(this, bitmap, bitmapSwap, swap)
        invariant forall j | 0 <= j < currFrameNum :: !bitmap[..][j]
        decreases bitmap.Length - currFrameNum
      {
        ghost var st := St();
        if currFrameNum == bitmap.Length {
          ghost var passes;
          currFrameNum, moved, passes := DameNroFrameReemplazado();
          assert bitmap[..] == St().frameFree;
        } else if bitmap[currFrameNum] {
          assert bitmap[..][currFrameNum];
        }
        if bitmap[currFrameNum] {
          bitmap[currFrameNum] := false;
          pag := Page(true, false, true, currFrameNum);
          return;
        }
        currFrameNum := currFrameNum + 1;
      }
    }

    /** `obtener_data_marco_heap`; `ok` is false where its victim found no slot. */
    method ObtenerDataMarcoHeap(s: nat, p: nat) returns (ok: bool)
      requires Apart() && Sane(St()) && Spot(tables, s, p)
      requires FirstTrue(bitmap[..], 0) == -1 ==> SomePresent(tables)
      modifies this`tables, this`segmentoClock, this`paginaClock, frames, bitmap, bitmapSwap, swap
      ensures St() == Load(old(St()), s, p) && ok == CanLoad(old(St()), s, p)
    {
      ok := true;
      if !tables[s][p].present {
        var libres := NumberOfFreeFramesUpcm();
        CountZero(bitmap[..]);
        if libres == 0 {
          ghost var st0 := St();
          ReplaceSlots(St(), s, p);
          var frame, moved;
          ghost var passes;
          frame, moved, passes := DameNroFrameReemplazado();
          ghost var st1 := St();
          ok := moved;
          bitmap[frame] := false;
          var slot := tables[s][p].fr;
          bitmapSwap[slot] := true;
          var buffer := swap[slot];
          tables := SetPage(tables, s, p, tables[s][p].(fr := frame, present := true, used := true));
          frames[frame] := buffer;
          assert St() == Assign(st1, s, p, frame);
        } else {
          ghost var st1 := St();
          var slot := tables[s][p].fr;
          var buffer := swap[slot];
          var sacarFrame, moved := PageWithFreeSize();
          bitmapSwap[slot] := true;
          bitmap[sacarFrame.fr] := false;
          tables := SetPage(tables, s, p, tables[s][p].(fr := sacarFrame.fr, present := true, used := true));
          frames[sacarFrame.fr] := buffer;
          assert St() == Assign(st1, s, p, sacarFrame.fr);
        }
      }
    }

    /** Pages are exclusive and a header spans at most two of them. */
    ghost predicate Ready()
      reads this, frames, bitmap, swap, bitmapSwap
    {
      Apart() && pageSize >= HEADER && Exclusive(St(), pageSize)
    }

    /** One load, seen from above. */
    method Obtener(s: nat, p: nat) returns (ok: bool)
      requires Ready() && Spot(tables, s, p)
      modifies this`tables, this`segmentoClock, this`paginaClock, frames, bitmap, bitmapSwap, swap
      ensures ok ==> Evolves(old(St()), St(), pageSize, Flats(old(St()))) && tables[s][p].present
      ensures ok == CanLoad(old(St()), s, p)
      ensures old(Available(St())) > 0 ==> ok && St() == Fetch(old(St()), pageSize, s, p)
      ensures St() == Load(old(St()), s, p) && Marks(old(tables), tables, 0, 0, 0)
      ensures Resident(old(tables)) ==> ok && St() == old(St())
    {
      ghost var st0 := St();
      LoadExact(St(), s, p, pageSize);
      if CanLoad(St(), s, p) {
        LoadEvolves(St(), s, p, pageSize);
      } else if Available(St()) > 0 {
        AvailableLoads(St(), s, p);
      }
      ok := ObtenerDataMarcoHeap(s, p);
      LoadMarks(st0, s, p);
    }

    /** One page's stretch of the segment; copied out, so a later load cannot disturb it. */
    method LeerPagina(s: nat, p: nat) returns (r: Outcome<seq<byte>>)
      requires Ready() && Spot(tables, s, p)
      modifies this`tables, this`segmentoClock, this`paginaClock, frames, bitmap, bitmapSwap, swap
      ensures r.Done? ==> Evolves(old(St()), St(), pageSize, Flats(old(St())))
      ensures r.Done? ==> PageStart(p, pageSize) + pageSize <= |Flats(old(St()))[s]|
      ensures r.Done? ==> r.value == Flats(old(St()))[s][PageStart(p, pageSize)..PageStart(p, pageSize) + pageSize]
      ensures old(Available(St())) > 0 ==> r.Done?
      ensures Resident(old(tables)) ==> r.Done? && St() == old(St())
      ensures Plays(old(St()), St(), pageSize, reparado, [Touch(s, p)], r.Done?)
      ensures Marks(old(tables), tables, 0, 0, 0)
    {
      hide Resident;
      hide Exclusive;
      hide Sane;
      hide Load;
      hide CanLoad;
      hide Flats;
      hide Available;
      hide PageStart;
      hide Clean;
      hide Play;
      OneTouch(St(), pageSize, reparado, s, p);
      ExclusiveSane(St(), pageSize);
      var ok := Obtener(s, p);
      if !ok {
        return Corrupted;
      }
      FrameIsSlice(St(), pageSize, s, p);
      return Done(frames[tables[s][p].fr]);
    }

    /** `buscar_metadata_por_direccion`, the header across two pages. */
    method BuscarCortada(s: nat, a: nat) returns (r: Outcome<Block>)
      requires Ready() && HeaderRoom(St(), pageSize, s, a) && Straddles(pageSize, a)
      modifies this`tables, this`segmentoClock, this`paginaClock, frames, bitmap, bitmapSwap, swap
      ensures r.Done? ==> Evolves(old(St()), St(), pageSize, Flats(old(St())))
      ensures r.Done? ==> a + HEADER <= |Flats(old(St()))[s]| && r.value == HeaderAt(Flats(old(St()))[s], a)
      ensures old(Available(St())) > 0 ==> r.Done?
      ensures Resident(old(tables)) ==> r.Done? && St() == old(St())
      ensures Plays(old(St()), St(), pageSize, reparado, Read(pageSize, s, a), r.Done?)
    {
      hide PageOf;
      hide OffsetOf;
      hide Resident;
      hide Exclusive;
      hide Sane;
      hide Load;
      hide CanLoad;
      hide Flats;
      hide HeaderAt;
      hide ReadHeader;
      hide Available;
      hide PageStart;
      hide Clean;
      hide Play;
      ExclusiveSane(St(), pageSize);
      ghost var st0 := St();
      HeaderPages(St(), pageSize, s, a);
      AddressPage(a, HEADER, |tables[s]|, pageSize);
      var pag, off := PageOf(a, pageSize), OffsetOf(a, pageSize);
      ghost var all := Read(pageSize, s, a);
      assert all == [Touch(s, pag)] + [Touch(s, pag + 1)];
      Begun(st0, pageSize, reparado, all);
      Ahead(st0, pageSize, reparado, all, st0, [Touch(s, pag)], [Touch(s, pag + 1)]);
      var parte1 :- LeerPagina(s, pag);
      var parte2 :- LeerPagina(s, pag + 1);
      PageRange(pag, pag + 1, pageSize);
      HeaderAcross(Flats(st0)[s], PageStart(pag, pageSize), pageSize, off);
      return Done(ReadHeader(parte1[off..] + parte2[..off + HEADER - pageSize]));
    }

    /** `buscar_metadata_por_direccion` */
    method BuscarMetadata(s: nat, a: nat) returns (r: Outcome<Block>)
      requires Ready() && HeaderRoom(St(), pageSize, s, a)
      modifies this`tables, this`segmentoClock, this`paginaClock, frames, bitmap, bitmapSwap, swap
      ensures r.Done? ==> Evolves(old(St()), St(), pageSize, Flats(old(St())))
      ensures r.Done? ==> a + HEADER <= |Flats(old(St()))[s]| && r.value == HeaderAt(Flats(old(St()))[s], a)
      ensures old(Available(St())) > 0 ==> r.Done?
      ensures Resident(old(tables)) ==> r.Done? && St() == old(St())
      ensures Plays(old(St()), St(), pageSize, reparado, Read(pageSize, s, a), r.Done?)
    {
      hide PageOf;
      hide OffsetOf;
      hide Resident;
      hide Exclusive;
      hide Sane;
      hide Load;
      hide CanLoad;
      hide Flats;
      hide HeaderAt;
      hide ReadHeader;
      hide Available;
      hide PageStart;
      hide Clean;
      hide Play;
      ExclusiveSane(St(), pageSize);
      ghost var st0 := St();
      HeaderPages(St(), pageSize, s, a);
      AddressPage(a, HEADER, |tables[s]|, pageSize);
      var pag, off := PageOf(a, pageSize), OffsetOf(a, pageSize);
      if off + HEADER > pageSize {
        r := BuscarCortada(s, a);
      } else {
        var pagina :- LeerPagina(s, pag);
        HeaderInside(Flats(st0)[s], PageStart(pag, pageSize), pageSize, off);
        return Done(ReadHeader(pagina[off..off + HEADER]));
      }
    }

    /** `memcpy` into a frame. */
    method EscribirMarco(f: nat, off: nat, x: seq<byte>)
      requires Apart() && f < frames.Length && off + |x| <= |frames[f]|
      modifies frames
      ensures off + |x| <= |old(St()).frames[f]| && St() == PutFrame(old(St()), f, off, x)
      ensures forall g | 0 <= g < frames.Length :: |frames[g]| == |old(frames[g])|
    {
      frames[f] := Splice(frames[f], off, x);
    }

    /** Page `p`, a pointer into it, and then page `p + 1`, which may cost `p` its frame. */
    method CargarDos(s: nat, p: nat) returns (ok: bool, puntero: nat)
      requires Ready() && Spot(tables, s, p) && Spot(tables, s, p + 1)
      modifies this`tables, this`segmentoClock, this`paginaClock, frames, bitmap, bitmapSwap, swap
      ensures ok ==> Evolves(old(St()), St(), pageSize, Flats(old(St())))
      ensures ok ==> tables[s][p + 1].present && (tables[s][p].present ==> tables[s][p].fr == puntero)
      ensures ok ==> puntero < frames.Length && tables[s][p + 1].fr < frames.Length
      ensures ok ==> forall f | 0 <= f < frames.Length :: |frames[f]| == pageSize
      ensures ok <==> CanLoad(old(St()), s, p) && CanLoad(Visit(old(St()), pageSize, s, p), s, p + 1)
      ensures ok ==>
        var st1 := Visit(old(St()), pageSize, s, p);
        St() == Visit(st1, pageSize, s, p + 1) && puntero == st1.tables[s][p].fr
      ensures old(Available(St())) > 0 ==>
        && ok && St() == Fetch(Fetch(old(St()), pageSize, s, p), pageSize, s, p + 1)
        && puntero == Fetch(old(St()), pageSize, s, p).tables[s][p].fr
    {
      hide Resident;
      hide Exclusive;
      hide Sane;
      hide Load;
      hide CanLoad;
      hide Flats;
      hide Available;
      ExclusiveSane(St(), pageSize);
      ghost var st0 := St();
      puntero := 0;
      ok := Obtener(s, p);
      if ok {
        ghost var st1 := St();
        puntero := tables[s][p].fr;
        ok := Obtener(s, p + 1);
        if ok {
          FrameStays(st1, pageSize, s, p, p + 1);
          EvolvesTrans(st0, st1, St(), pageSize, Flats(st0), Flats(st0));
          PointersFit(st1, St(), pageSize, s, p, p + 1);
          assert frames[..] == St().frames;
        }
      }
    }

    /** Page `p` loaded, and `x` written at `off` in its frame. */
    method EscribirEn(s: nat, p: nat, off: nat, x: seq<byte>) returns (ok: bool)
      requires Ready() && Spot(tables, s, p) && off + |x| <= pageSize
      modifies this`tables, this`segmentoClock, this`paginaClock, frames, bitmap, bitmapSwap, swap
      ensures ok == CanLoad(old(St()), s, p)
      ensures ok ==> St() == WriteAt(old(St()), pageSize, s, p, off, x)
      ensures ok ==> PageStart(p, pageSize) + off + |x| <= |Flats(old(St()))[s]|
      ensures ok ==> Evolves(old(St()), St(), pageSize,
        Flats(old(St()))[s := Splice(Flats(old(St()))[s], PageStart(p, pageSize) + off, x)])
    {
      hide Exclusive;
      hide Sane;
      hide Load;
      hide CanLoad;
      hide Flats;
      hide Available;
      hide PageStart;
      hide Splice;
      hide Resident;
      ExclusiveSane(St(), pageSize);
      ghost var st0 := St();
      ok := Obtener(s, p);
      if ok {
        ghost var st1 := St();
        var puntero := tables[s][p].fr;
        WroteOne(st1, pageSize, s, p, off, x);
        EscribirMarco(puntero, off, x);
        EvolvesTrans(st0, st1, St(), pageSize, Flats(st0),
                     Flats(st0)[s := Splice(Flats(st0)[s], PageStart(p, pageSize) + off, x)]);
      }
    }

    /**
     `modificar_metadata`, the header across two pages. A torn write is carried out, as in the
     code, before it is reported.
     */
    method ModificarCortada(s: nat, a: nat, nuevoSize: nat, isFree: bool) returns (r: Outcome<()>)
      requires Ready() && HeaderRoom(St(), pageSize, s, a) && nuevoSize < WORD && Straddles(pageSize, a) && !reparado
      modifies this`tables, this`segmentoClock, this`paginaClock, frames, bitmap, bitmapSwap, swap
      ensures r.Done? ==> a + HEADER <= |Flats(old(St()))[s]|
      ensures r.Done? ==> Evolves(old(St()), St(), pageSize,
        Flats(old(St()))[s := PutHeader(Flats(old(St()))[s], a, Block(nuevoSize, isFree))])
      ensures old(Available(St())) > 0 ==>
        && St() == WriteHeader(old(St()), pageSize, s, a, Block(nuevoSize, isFree))
        && (r.Done? <==> !Tears(old(St()), pageSize, s, a))
      ensures Plays(old(St()), St(), pageSize, false, [Put(s, a, Block(nuevoSize, isFree))], r.Done?)
    {
      hide PageOf;
      hide OffsetOf;
      hide Resident;
      hide Exclusive;
      hide Sane;
      hide Load;
      hide CanLoad;
      hide Flats;
      hide HeaderBytes;
      hide Available;
      hide PageStart;
      hide Splice;
      hide WriteAcross;
      hide WriteInside;
      hide TearsAt;
      hide PutFrame;
      hide PutHeader;
      hide Fetch;
      hide SameContents;
      hide WriteHeader;
      hide Tears;
      hide Clean;
      hide Play;
      hide Visit;
      ExclusiveSane(St(), pageSize);
      ghost var st0 := St();
      ghost var h := Block(nuevoSize, isFree);
      HeaderPages(St(), pageSize, s, a);
      AddressPage(a, HEADER, |tables[s]|, pageSize);
      var pag, off := PageOf(a, pageSize), OffsetOf(a, pageSize);
      var bytes := HeaderBytes(Block(nuevoSize, isFree));
      PutAcross(st0, pageSize, s, a, h);
      var ok, puntero := CargarDos(s, pag);
      if !ok {
        return Corrupted;
      }
      ghost var st2 := St();
      var siguiente := tables[s][pag + 1].fr;
      var cut := pageSize - off;
      EscribirMarco(puntero, off, bytes[..cut]);
      EscribirMarco(siguiente, 0, bytes[cut..]);
      if Available(st0) > 0 {
        assert |bytes[..cut]| == cut;
        AcrossIs(st0, Fetch(st0, pageSize, s, pag), st2, pageSize, s, a, h, pag, bytes[..cut], bytes[cut..]);
      }
      if !tables[s][pag].present {
        return Corrupted;
      }
      CutEvolves(st0, st2, pageSize, s, pag, off, a, h, puntero, siguiente);
      return Done(());
    }

    /** `modificar_metadata`; cut headers in the order of the source, or repaired. */
    method ModificarMetadata(s: nat, a: nat, nuevoSize: nat, isFree: bool) returns (r: Outcome<()>)
      requires Ready() && HeaderRoom(St(), pageSize, s, a) && nuevoSize < WORD
      modifies this`tables, this`segmentoClock, this`paginaClock, frames, bitmap, bitmapSwap, swap
      ensures r.Done? ==> a + HEADER <= |Flats(old(St()))[s]|
      ensures r.Done? ==> Evolves(old(St()), St(), pageSize,
        Flats(old(St()))[s := PutHeader(Flats(old(St()))[s], a, Block(nuevoSize, isFree))])
      ensures !reparado && old(Available(St())) > 0 ==>
        && St() == WriteHeader(old(St()), pageSize, s, a, Block(nuevoSize, isFree))
        && (r.Done? <==> !Tears(old(St()), pageSize, s, a))
      ensures Plays(old(St()), St(), pageSize, reparado, [Put(s, a, Block(nuevoSize, isFree))], r.Done?)
    {
      if OffsetOf(a, pageSize) + HEADER <= pageSize {
        r := ModificarEntera(s, a, nuevoSize, isFree);
      } else if reparado {
        r := ModificarPorPartes(s, a, nuevoSize, isFree);
      } else {
        r := ModificarCortada(s, a, nuevoSize, isFree);
      }
    }

    /** The repair: each half of the header is written before the other page is loaded. */
    method ModificarPorPartes(s: nat, a: nat, nuevoSize: nat, isFree: bool) returns (r: Outcome<()>)
      requires Ready() && HeaderRoom(St(), pageSize, s, a) && nuevoSize < WORD && Straddles(pageSize, a)
      modifies this`tables, this`segmentoClock, this`paginaClock, frames, bitmap, bitmapSwap, swap
      ensures r.Done? ==> a + HEADER <= |Flats(old(St()))[s]|
      ensures r.Done? ==> Evolves(old(St()), St(), pageSize,
        Flats(old(St()))[s := PutHeader(Flats(old(St()))[s], a, Block(nuevoSize, isFree))])
      ensures Plays(old(St()), St(), pageSize, true, [Put(s, a, Block(nuevoSize, isFree))], r.Done?)
    {
      hide PageOf;
      hide OffsetOf;
      hide Resident;
      hide Exclusive;
      hide Sane;
      hide CanLoad;
      hide Flats;
      hide HeaderBytes;
      hide Available;
      hide PageStart;
      hide Splice;
      hide PutHeader;
      hide WriteAt;
      hide Clean;
      hide Play;
      ExclusiveSane(St(), pageSize);
      ghost var st0 := St();
      ghost var h := Block(nuevoSize, isFree);
      HeaderPages(St(), pageSize, s, a);
      AddressPage(a, HEADER, |tables[s]|, pageSize);
      var pag, off := PageOf(a, pageSize), OffsetOf(a, pageSize);
      var bytes := HeaderBytes(Block(nuevoSize, isFree));
      var cut := pageSize - off;
      PutInOrder(st0, pageSize, s, a, h);
      var ok := EscribirEn(s, pag, off, bytes[..cut]);
      if !ok {
        return Corrupted;
      }
      ghost var st1 := St();
      ok := EscribirEn(s, pag + 1, 0, bytes[cut..]);
      if !ok {
        return Corrupted;
      }
      PartsEvolve(st0, st1, St(), pageSize, s, pag, off, a, h);
      return Done(());
    }

    /** `modificar_metadata`, the header inside one page. */
    method ModificarEntera(s: nat, a: nat, nuevoSize: nat, isFree: bool) returns (r: Outcome<()>)
      requires Ready() && HeaderRoom(St(), pageSize, s, a) && nuevoSize < WORD && !Straddles(pageSize, a)
      modifies this`tables, this`segmentoClock, this`paginaClock, frames, bitmap, bitmapSwap, swap
      ensures r.Done? ==> a + HEADER <= |Flats(old(St()))[s]|
      ensures r.Done? ==> Evolves(old(St()), St(), pageSize,
        Flats(old(St()))[s := PutHeader(Flats(old(St()))[s], a, Block(nuevoSize, isFree))])
      ensures old(Available(St())) > 0 ==>
        && St() == WriteHeader(old(St()), pageSize, s, a, Block(nuevoSize, isFree))
        && (r.Done? <==> !Tears(old(St()), pageSize, s, a))
      ensures Plays(old(St()), St(), pageSize, reparado, [Put(s, a, Block(nuevoSize, isFree))], r.Done?)
    {
      hide PageOf;
      hide OffsetOf;
      hide Resident;
      hide Exclusive;
      hide Sane;
      hide Load;
      hide CanLoad;
      hide Flats;
      hide HeaderBytes;
      hide Available;
      hide PageStart;
      hide Splice;
      hide WriteAcross;
      hide TearsAt;
      hide PutFrame;
      hide Clean;
      hide Play;
      ExclusiveSane(St(), pageSize);
      ghost var st0 := St();
      ghost var h := Block(nuevoSize, isFree);
      HeaderPages(St(), pageSize, s, a);
      AddressPage(a, HEADER, |tables[s]|, pageSize);
      var pag, off := PageOf(a, pageSize), OffsetOf(a, pageSize);
      var bytes := HeaderBytes(Block(nuevoSize, isFree));
      PutInside(st0, pageSize, reparado, s, a, h);
      if Available(st0) > 0 {
        AvailableLoads(st0, s, pag);
      }
      var ok := EscribirEn(s, pag, off, bytes);
      return if ok then Done(()) else Corrupted;
    }

    /** `ultima_metadata_segmento`, standing on block `i`. */
    method UltimaMetadataSegmento(s: nat, a: nat, ghost c: seq<Block>, ghost i: nat) returns (r: Outcome<nat>)
      requires Ready() && s < |tables| && i < |c| && Tiles(Flats(St())[s], c) && a == Addr(c, i)
      modifies this`tables, this`segmentoClock, this`paginaClock, frames, bitmap, bitmapSwap, swap
      ensures r.Done? ==> Evolves(old(St()), St(), pageSize, Flats(old(St())))
      ensures old(Available(St())) > 0 || Resident(old(tables)) ==> r.Done?
      ensures Plays(old(St()), St(), pageSize, reparado, Walk(pageSize, s, c, i), r.Done?)
      ensures r.Done? ==> r.value == Addr(c, |c| - 1)
      decreases |c| - i
    {
      hide Resident;
      hide Exclusive;
      hide Sane;
      hide Flats;
      hide Available;
      hide PageStart;
      hide Clean;
      hide Play;
      hide Tiles;
      hide HeaderAt;
      hide Addr;
      hide Read;
      ExclusiveSane(St(), pageSize);
      ChainStep(St(), pageSize, s, c, i);
      WalksGo(St(), pageSize, reparado, s, c, i, 0);
      ghost var st0, all := St(), Walk(pageSize, s, c, i);
      ghost var rest := if i == |c| - 1 then [] else Walk(pageSize, s, c, i + 1);
      Begun(st0, pageSize, reparado, all);
      Ahead(st0, pageSize, reparado, all, st0, Read(pageSize, s, a), rest);
      var actual :- BuscarMetadata(s, a);
      var siguiente := actual.size + HEADER + a;
      if siguiente == PageStart(|tables[s]|, pageSize) {
        Ended(st0, pageSize, reparado, all, St());
        return Done(a);
      }
      r := UltimaMetadataSegmento(s, siguiente, c, i + 1);
    }

    /** The block at `a`, and where the last one is. */
    method ActualYUltima(s: nat, a: nat, ghost c: seq<Block>, ghost i: nat) returns (r: Outcome<(Block, nat)>)
      requires Ready() && s < |tables| && i < |c| && Tiles(Flats(St())[s], c) && a == Addr(c, i)
      modifies this`tables, this`segmentoClock, this`paginaClock, frames, bitmap, bitmapSwap, swap
      ensures r.Done? ==> Evolves(old(St()), St(), pageSize, Flats(old(St())))
      ensures r.Done? ==> r.value == (c[i], Addr(c, |c| - 1))
      ensures Plays(old(St()), St(), pageSize, reparado, Read(pageSize, s, a) + Walk(pageSize, s, c, 0), r.Done?)
    {
      hide Resident;
      hide Exclusive;
      hide Sane;
      hide Flats;
      hide Available;
      hide PageStart;
      hide Clean;
      hide Play;
      hide Read;
      hide Walk;
      hide Tiles;
      hide HeaderAt;
      hide Addr;
      ExclusiveSane(St(), pageSize);
      ghost var st0, all := St(), Read(pageSize, s, a) + Walk(pageSize, s, c, 0);
      ChainStep(St(), pageSize, s, c, i);
      ChainStep(St(), pageSize, s, c, 0);
      AddrZero(c);
      Begun(st0, pageSize, reparado, all);
      Ahead(st0, pageSize, reparado, all, st0, Read(pageSize, s, a), Walk(pageSize, s, c, 0));
      var actual :- BuscarMetadata(s, a);
      var ultima :- UltimaMetadataSegmento(s, 0, c, 0);
      return Done((actual, ultima));
    }

    /** `proxima_metadata_libre_con_size`, standing on block `i`. */
    method ProximaMetadataLibreConSize(s: nat, a: nat, size: nat, ghost c: seq<Block>, ghost i: nat)
      returns (r: Outcome<int>)
      requires Ready() && s < |tables| && i < |c| && Tiles(Flats(St())[s], c) && a == Addr(c, i)
      modifies this`tables, this`segmentoClock, this`paginaClock, frames, bitmap, bitmapSwap, swap
      ensures r.Done? ==> Evolves(old(St()), St(), pageSize, Flats(old(St())))
      ensures old(Available(St())) > 0 || Resident(old(tables)) ==> r.Done?
      ensures Plays(old(St()), St(), pageSize, reparado, Search(pageSize, s, c, i, size), r.Done?)
      ensures r.Done? ==> r.value == AddrOrNone(c, FirstFit(c, i, size))
      decreases |c| - i
    {
      hide Resident;
      hide Exclusive;
      hide Sane;
      hide Flats;
      hide Available;
      hide PageStart;
      hide Clean;
      hide Play;
      hide Tiles;
      hide HeaderAt;
      hide Addr;
      hide Read;
      hide Walk;
      hide Search;
      ExclusiveSane(St(), pageSize);
      ChainStep(St(), pageSize, s, c, i);
      WalksGo(St(), pageSize, reparado, s, c, i, size);
      ghost var st0, all := St(), Search(pageSize, s, c, i, size);
      ghost var rest := SearchOn(pageSize, s, c, i, size);
      SearchIs(pageSize, s, c, i, size);
      Begun(st0, pageSize, reparado, all);
      Ahead(st0, pageSize, reparado, all, st0, Read(pageSize, s, a) + Walk(pageSize, s, c, 0), rest);
      var leido :- ActualYUltima(s, a, c, i);
      var (actual, ultima) := leido;
      LastOrNot(c, i);
      if a == ultima {
        Ended(st0, pageSize, reparado, all, St());
        return Done(if actual.size >= size then a else -1);
      }
      var siguiente := actual.size + HEADER + a;
      ChainStep(St(), pageSize, s, c, i + 1);
      LastOrNot(c, i + 1);
      if ultima == siguiente {
        var ultimaMetadata :- BuscarMetadata(s, siguiente);
        return Done(if ultimaMetadata.free && ultimaMetadata.size >= size then siguiente else -1);
      }
      if actual.free && actual.size >= size {
        Ended(st0, pageSize, reparado, all, St());
        return Done(a);
      }
      r := ProximaMetadataLibreConSize(s, siguiente, size, c, i + 1);
    }

    /** `listar_metadatas`, standing on block `i`: nothing but page loads. */
    method ListarMetadatas(s: nat, a: nat, ghost c: seq<Block>, ghost i: nat) returns (r: Outcome<()>)
      requires Ready() && s < |tables| && i < |c| && Tiles(Flats(St())[s], c) && a == Addr(c, i)
      modifies this`tables, this`segmentoClock, this`paginaClock, frames, bitmap, bitmapSwap, swap
      ensures r.Done? ==> Evolves(old(St()), St(), pageSize, Flats(old(St())))
      ensures old(Available(St())) > 0 || Resident(old(tables)) ==> r.Done?
      ensures Plays(old(St()), St(), pageSize, reparado, Listing(pageSize, s, c, i), r.Done?)
      decreases |c| - i
    {
      hide Resident;
      hide Exclusive;
      hide Sane;
      hide Flats;
      hide Available;
      hide PageStart;
      hide Clean;
      hide Play;
      hide Tiles;
      hide HeaderAt;
      hide Addr;
      hide Read;
      hide Walk;
      ExclusiveSane(St(), pageSize);
      ChainStep(St(), pageSize, s, c, i);
      WalksGo(St(), pageSize, reparado, s, c, i, 0);
      ghost var st0, all := St(), Listing(pageSize, s, c, i);
      ghost var rest := ListingOn(pageSize, s, c, i);
      Begun(st0, pageSize, reparado, all);
      Ahead(st0, pageSize, reparado, all, st0, Read(pageSize, s, a) + Walk(pageSize, s, c, 0), rest);
      var leido :- ActualYUltima(s, a, c, i);
      var (actual, ultima) := leido;
      LastOrNot(c, i);
      if a == ultima {
        Ended(st0, pageSize, reparado, all, St());
        return Done(());
      }
      var siguiente := actual.size + HEADER + a;
      ChainStep(St(), pageSize, s, c, i + 1);
      LastOrNot(c, i + 1);
      if ultima == siguiente {
        var ultimaMetadata :- BuscarMetadata(s, siguiente);
        return Done(());
      }
      r := ListarMetadatas(s, siguiente, c, i + 1);
    }

    /** `proxima_metadata_libre`, standing on block `i`. */
    method ProximaMetadataLibre(s: nat, a: nat, ghost c: seq<Block>, ghost i: nat) returns (r: Outcome<int>)
      requires Ready() && s < |tables| && i < |c| && Tiles(Flats(St())[s], c) && a == Addr(c, i)
      requires i == |c| - 1 ==> c[i].free
      modifies this`tables, this`segmentoClock, this`paginaClock, frames, bitmap, bitmapSwap, swap
      ensures r.Done? ==> Evolves(old(St()), St(), pageSize, Flats(old(St())))
      ensures old(Available(St())) > 0 || Resident(old(tables)) ==> r.Done?
      ensures Plays(old(St()), St(), pageSize, reparado, Seek(pageSize, s, c, i), r.Done?)
      ensures r.Done? ==> r.value == AddrOrNone(c, NextFree(c, i))
      decreases |c| - i
    {
      hide Resident;
      hide Exclusive;
      hide Sane;
      hide Flats;
      hide Available;
      hide PageStart;
      hide Clean;
      hide Play;
      hide Tiles;
      hide HeaderAt;
      hide Addr;
      hide Read;
      hide Walk;
      hide Seek;
      ExclusiveSane(St(), pageSize);
      ChainStep(St(), pageSize, s, c, i);
      WalksGo(St(), pageSize, reparado, s, c, i, 0);
      ghost var st0, all := St(), Seek(pageSize, s, c, i);
      ghost var rest := SeekOn(pageSize, s, c, i);
      SeekIs(pageSize, s, c, i);
      Begun(st0, pageSize, reparado, all);
      Ahead(st0, pageSize, reparado, all, st0, Read(pageSize, s, a) + Walk(pageSize, s, c, 0), rest);
      var leido :- ActualYUltima(s, a, c, i);
      var (actual, ultima) := leido;
      var siguiente := actual.size + HEADER + a;
      LastOrNot(c, i + 1);
      if ultima == siguiente {
        ChainStep(St(), pageSize, s, c, i + 1);
        var ultimaMetadata :- BuscarMetadata(s, siguiente);
        return Done(if ultimaMetadata.free then a else -1);
      }
      if actual.free {
        Ended(st0, pageSize, reparado, all, St());
        return Done(a);
      }
      r := ProximaMetadataLibre(s, siguiente, c, i + 1);
    }

    /** The two `modificar_metadata` of the compactor: block `i + 1` becomes payload of block `i`. */
    method Fundir(s: nat, a: nat, b: nat, libre: Block, siguiente: Block, ghost c: seq<Block>, ghost i: nat)
      returns (r: Outcome<()>)
      requires Ready() && s < |tables| && i + 1 < |c| && Tiles(Flats(St())[s], c) && |Flats(St())[s]| < WORD
      requires a == Addr(c, i) && b == Addr(c, i + 1) && libre == c[i] && siguiente == c[i + 1] && siguiente.free
      modifies this`tables, this`segmentoClock, this`paginaClock, frames, bitmap, bitmapSwap, swap
      ensures Plays(old(St()), St(), pageSize, reparado, Fuse(s, c, i), r.Done?)
      ensures r.Done? ==> Rewrites(old(St()), St(), pageSize, s, Live(c, 0), Merge(c, i))
    {
      hide Resident;
      hide Exclusive;
      hide Sane;
      hide Flats;
      hide Available;
      hide PageStart;
      hide Clean;
      hide Play;
      hide Tiles;
      hide HeaderAt;
      hide Addr;
      hide PutHeader;
      hide Rewrites;
      hide Live;
      ExclusiveSane(St(), pageSize);
      ghost var st0 := St();
      ChainStep(St(), pageSize, s, c, i);
      ChainStep(St(), pageSize, s, c, i + 1);
      ghost var all := Fuse(s, c, i);
      Begun(st0, pageSize, reparado, all);
      ghost var segunda := [Put(s, b, Block(siguiente.size, true))];
      Ahead(st0, pageSize, reparado, all, st0, [Put(s, a, Join(libre, siguiente))], segunda);
      var _ :- ModificarMetadata(s, a, libre.size + siguiente.size + HEADER, libre.free);
      ghost var st1 := St();
      var _ :- ModificarMetadata(s, b, siguiente.size, true);
      TwoPuts(st0, st1, St(), pageSize, s, a, Join(libre, siguiente), b, Block(siguiente.size, true));
      MergeTiles(Flats(st0)[s], c, i);
      BytesRewrite(st0, St(), pageSize, s, MergeBytes(Flats(st0)[s], c, i), Live(c, 0), Merge(c, i));
      return Done(());
    }

    /** What `compactar_en_segmento` reads first: the block it stands on, where the last one is, and the next block. */
    method Alrededores(s: nat, a: nat, sig: nat, ghost c: seq<Block>, ghost i: nat)
      returns (r: Outcome<(Block, nat, Block)>)
      requires Ready() && s < |tables| && i + 1 < |c| && Tiles(Flats(St())[s], c) && a == Addr(c, i)
      requires sig == Addr(c, i + 1)
      modifies this`tables, this`segmentoClock, this`paginaClock, frames, bitmap, bitmapSwap, swap
      ensures Plays(old(St()), St(), pageSize, reparado, Around(pageSize, s, c, i), r.Done?)
      ensures r.Done? ==> Rewrites(old(St()), St(), pageSize, s, Live(c, 0), c)
      ensures r.Done? ==> r.value == (c[i], Addr(c, |c| - 1), c[i + 1])
    {
      hide Resident;
      hide Exclusive;
      hide Sane;
      hide Flats;
      hide Available;
      hide PageStart;
      hide Clean;
      hide Play;
      hide Read;
      hide Walk;
      hide Tiles;
      hide HeaderAt;
      hide Addr;
      hide Rewrites;
      hide Live;
      ExclusiveSane(St(), pageSize);
      ghost var st0 := St();
      ChainStep(St(), pageSize, s, c, i);
      ChainStep(St(), pageSize, s, c, i + 1);
      ghost var all, dos := Around(pageSize, s, c, i), Read(pageSize, s, a) + Walk(pageSize, s, c, 0);
      Begun(st0, pageSize, reparado, all);
      Ahead(st0, pageSize, reparado, all, st0, dos, Read(pageSize, s, sig));
      var leido :- ActualYUltima(s, a, c, i);
      var (libreInicial, ultima) := leido;
      var siguiente :- BuscarMetadata(s, sig);
      StillRewrites(st0, St(), pageSize, s, c);
      return Done((libreInicial, ultima, siguiente));
    }

    /** `compactar_en_segmento`, standing on block `i` with the next one at `sig`. */
    method CompactarEnSegmento(s: nat, a: nat, sig: nat, ghost c: seq<Block>, ghost i: nat) returns (r: Outcome<()>)
      requires Ready() && s < |tables| && i + 1 < |c| && Tiles(Flats(St())[s], c) && |Flats(St())[s]| < WORD
      requires a == Addr(c, i) && sig == Addr(c, i + 1) && (c[i].free || i == |c| - 2)
      modifies this`tables, this`segmentoClock, this`paginaClock, frames, bitmap, bitmapSwap, swap
      ensures Plays(old(St()), St(), pageSize, reparado, Squeeze(pageSize, s, guardado, c, i), r.Done?)
      ensures r.Done? ==> Rewrites(old(St()), St(), pageSize, s, Live(c, 0), CompactAs(guardado, c, i))
      decreases |c| - i, 0
    {
      hide Resident;
      hide Exclusive;
      hide Sane;
      hide Flats;
      hide Available;
      hide PageStart;
      hide Clean;
      hide Play;
      hide Read;
      hide Walk;
      hide Squeeze;
      hide CompactAs;
      hide Around;
      hide Fuse;
      hide Seek;
      hide Tiles;
      hide HeaderAt;
      hide Addr;
      hide PutHeader;
      hide Rewrites;
      hide Live;
      hide Evolves;
      ExclusiveSane(St(), pageSize);
      ghost var st0 := St();
      ChainStep(St(), pageSize, s, c, i + 1);
      LastOrNot(c, i + 1);
      ghost var all := Squeeze(pageSize, s, guardado, c, i);
      SqueezeIs(pageSize, s, guardado, c, i);
      CompactAsStep(guardado, c, i);
      Begun(st0, pageSize, reparado, all);
      Ahead(st0, pageSize, reparado, all, st0, Around(pageSize, s, c, i), SqueezeOn(pageSize, s, guardado, c, i));
      var leido :- Alrededores(s, a, sig, c, i);
      var (libreInicial, ultima, siguiente) := leido;
      ghost var st1 := St();
      RewritesReady(st0, st1, pageSize, s, Live(c, 0), c);
      if sig == ultima {
        if siguiente.free && (!guardado || libreInicial.free) {
          var _ :- Fundir(s, a, sig, libreInicial, siguiente, c, i);
          RewritesTrans(st0, st1, St(), pageSize, s, Live(c, 0), c, Live(c, 0), Merge(c, i));
        } else {
          Ended(st0, pageSize, reparado, all, st1);
        }
        return Done(());
      }
      if siguiente.free && (!guardado || libreInicial.free) {
        var _ :- FundirYSeguir(s, a, sig, libreInicial, siguiente, c, i);
        RewritesTrans(st0, st1, St(), pageSize, s, Live(c, 0), c, Live(c, 0), CompactAs(guardado, c, i));
        return Done(());
      }
      ghost var k := NextFree(c, i + 1);
      NextFreeStands(c, i + 1);
      Ahead(st0, pageSize, reparado, all, St(), Seek(pageSize, s, c, i + 1), SqueezeFrom(pageSize, s, guardado, c, k));
      var nueva :- ProximaMetadataLibre(s, sig, c, i + 1);
      ghost var st2 := St();
      StillTiled(st1, st2, pageSize, s, c);
      RewritesOn(st0, st1, st2, pageSize, s, Live(c, 0), c);
      if nueva != -1 {
        LastOrNot(c, k);
        if ultima != nueva {
          var _ :- CompactarDesde(s, nueva, c, k);
          RewritesTrans(st0, st2, St(), pageSize, s, Live(c, 0), c, Live(c, 0), CompactAs(guardado, c, i));
        }
      } else {
        Ended(st0, pageSize, reparado, all, st2);
      }
      return Done(());
    }

    /** Where the next block is not the last one: the merge, and the compaction of what it leaves. */
    method FundirYSeguir(s: nat, a: nat, b: nat, libre: Block, siguiente: Block, ghost c: seq<Block>, ghost i: nat)
      returns (r: Outcome<()>)
      requires Ready() && s < |tables| && i + 2 < |c| && Tiles(Flats(St())[s], c) && |Flats(St())[s]| < WORD
      requires a == Addr(c, i) && b == Addr(c, i + 1) && libre == c[i] && siguiente == c[i + 1]
      requires siguiente.free && libre.free
      modifies this`tables, this`segmentoClock, this`paginaClock, frames, bitmap, bitmapSwap, swap
      ensures Plays(old(St()), St(), pageSize, reparado,
        Fuse(s, c, i) + Squeeze(pageSize, s, guardado, Merge(c, i), i), r.Done?)
      ensures r.Done? ==> Rewrites(old(St()), St(), pageSize, s, Live(c, 0), CompactAs(guardado, Merge(c, i), i))
      decreases |c| - i - 1, 1
    {
      hide Resident;
      hide Exclusive;
      hide Sane;
      hide Flats;
      hide Available;
      hide PageStart;
      hide Clean;
      hide Play;
      hide Squeeze;
      hide Fuse;
      hide CompactAs;
      hide Tiles;
      hide HeaderAt;
      hide Addr;
      hide Rewrites;
      hide Live;
      hide Len;
      ExclusiveSane(St(), pageSize);
      ghost var st0 := St();
      ChainStep(St(), pageSize, s, c, i);
      ghost var all := Fuse(s, c, i) + Squeeze(pageSize, s, guardado, Merge(c, i), i);
      Begun(st0, pageSize, reparado, all);
      Ahead(st0, pageSize, reparado, all, st0, Fuse(s, c, i), Squeeze(pageSize, s, guardado, Merge(c, i), i));
      var _ :- Fundir(s, a, b, libre, siguiente, c, i);
      ghost var st1 := St();
      MergeMoves(c, i);
      RewritesReady(st0, st1, pageSize, s, Live(c, 0), Merge(c, i));
      var _ :- CompactarEnSegmento(s, a, b + siguiente.size + HEADER, Merge(c, i), i);
      RewritesTrans(st0, st1, St(), pageSize, s, Live(c, 0), Merge(c, i), Live(Merge(c, i), 0),
                    CompactAs(guardado, Merge(c, i), i));
      return Done(());
    }

    /** The same from the next place to stand on, block `k`, whose header is looked up first. */
    method CompactarDesde(s: nat, a: nat, ghost c: seq<Block>, ghost k: nat) returns (r: Outcome<()>)
      requires Ready() && s < |tables| && k + 1 < |c| && Tiles(Flats(St())[s], c) && |Flats(St())[s]| < WORD
      requires a == Addr(c, k) && (c[k].free || k == |c| - 2)
      modifies this`tables, this`segmentoClock, this`paginaClock, frames, bitmap, bitmapSwap, swap
      ensures Plays(old(St()), St(), pageSize, reparado,
        Read(pageSize, s, a) + Squeeze(pageSize, s, guardado, c, k), r.Done?)
      ensures r.Done? ==> Rewrites(old(St()), St(), pageSize, s, Live(c, 0), CompactAs(guardado, c, k))
      decreases |c| - k, 1
    {
      hide Resident;
      hide Exclusive;
      hide Sane;
      hide Flats;
      hide Available;
      hide PageStart;
      hide Clean;
      hide Play;
      hide Read;
      hide Squeeze;
      hide CompactAs;
      hide Tiles;
      hide HeaderAt;
      hide Addr;
      hide Rewrites;
      hide Live;
      hide Evolves;
      ExclusiveSane(St(), pageSize);
      ghost var st0 := St();
      ChainStep(St(), pageSize, s, c, k);
      ghost var all := Read(pageSize, s, a) + Squeeze(pageSize, s, guardado, c, k);
      Begun(st0, pageSize, reparado, all);
      Ahead(st0, pageSize, reparado, all, st0, Read(pageSize, s, a), Squeeze(pageSize, s, guardado, c, k));
      var libre :- BuscarMetadata(s, a);
      ghost var st1 := St();
      StillTiled(st0, st1, pageSize, s, c);
      StillRewrites(st0, st1, pageSize, s, c);
      var _ :- CompactarEnSegmento(s, a, a + libre.size + HEADER, c, k);
      RewritesTrans(st0, st1, St(), pageSize, s, Live(c, 0), c, Live(c, 0), CompactAs(guardado, c, k));
      return Done(());
    }

    /** `compactar_espacios_libres`, for a program's one segment. */
    method CompactarEspaciosLibres(s: nat, ghost c: seq<Block>) returns (r: Outcome<()>)
      requires Ready() && s < |tables| && c != [] && Tiles(Flats(St())[s], c) && |Flats(St())[s]| < WORD
      requires |c| == 1 ==> c[0].free
      modifies this`tables, this`segmentoClock, this`paginaClock, frames, bitmap, bitmapSwap, swap
      ensures Plays(old(St()), St(), pageSize, reparado, Pass(pageSize, s, guardado, c), r.Done?)
      ensures r.Done? ==> Rewrites(old(St()), St(), pageSize, s, Live(c, 0), PassAs(guardado, c))
    {
      hide Resident;
      hide Exclusive;
      hide Sane;
      hide Flats;
      hide Available;
      hide PageStart;
      hide Clean;
      hide Play;
      hide Read;
      hide Walk;
      hide Squeeze;
      hide CompactAs;
      hide Seek;
      hide Tiles;
      hide HeaderAt;
      hide Addr;
      hide PutHeader;
      hide Rewrites;
      hide Live;
      hide Evolves;
      ExclusiveSane(St(), pageSize);
      ghost var st0 := St();
      ChainStep(St(), pageSize, s, c, 0);
      AddrZero(c);
      ghost var k := NextFree(c, 0);
      ghost var all := Pass(pageSize, s, guardado, c);
      Begun(st0, pageSize, reparado, all);
      Ahead(st0, pageSize, reparado, all, st0, Walk(pageSize, s, c, 0),
            Seek(pageSize, s, c, 0) + PassOn(pageSize, s, guardado, c, k));
      var ultima :- UltimaMetadataSegmento(s, 0, c, 0);
      ghost var leido := St();
      StillTiled(st0, leido, pageSize, s, c);
      Ahead(st0, pageSize, reparado, all, leido, Seek(pageSize, s, c, 0), PassOn(pageSize, s, guardado, c, k));
      var libre :- ProximaMetadataLibre(s, 0, c, 0);
      ghost var st1 := St();
      StillTiled(leido, st1, pageSize, s, c);
      EvolvesTrans(st0, leido, st1, pageSize, Flats(st0), Flats(st0));
      StillRewrites(st0, st1, pageSize, s, c);
      var _ :- CompactarHallado(s, libre, ultima, c);
      RewritesTrans(st0, st1, St(), pageSize, s, Live(c, 0), c, Live(c, 0), PassAs(guardado, c));
      return Done(());
    }

    /** What the pass does with the place it found, or with -1. */
    method CompactarHallado(s: nat, libre: int, ultima: nat, ghost c: seq<Block>) returns (r: Outcome<()>)
      requires Ready() && s < |tables| && c != [] && Tiles(Flats(St())[s], c) && |Flats(St())[s]| < WORD
      requires |c| == 1 ==> c[0].free
      requires libre == AddrOrNone(c, NextFree(c, 0)) && ultima == Addr(c, |c| - 1)
      modifies this`tables, this`segmentoClock, this`paginaClock, frames, bitmap, bitmapSwap, swap
      ensures Plays(old(St()), St(), pageSize, reparado, PassOn(pageSize, s, guardado, c, NextFree(c, 0)), r.Done?)
      ensures r.Done? ==> Rewrites(old(St()), St(), pageSize, s, Live(c, 0), PassAs(guardado, c))
    {
      hide Resident;
      hide Exclusive;
      hide Sane;
      hide Flats;
      hide Available;
      hide PageStart;
      hide Clean;
      hide Play;
      hide Read;
      hide Squeeze;
      hide CompactAs;
      hide PassAs;
      hide Tiles;
      hide HeaderAt;
      hide Addr;
      hide Rewrites;
      hide Live;
      hide Evolves;
      ExclusiveSane(St(), pageSize);
      ghost var st0, k := St(), NextFree(c, 0);
      ChainStep(St(), pageSize, s, c, 0);
      NextFreeStands(c, 0);
      PassAsStep(guardado, c);
      ghost var all := PassOn(pageSize, s, guardado, c, k);
      Begun(st0, pageSize, reparado, all);
      EvolvesSelf(st0, pageSize);
      StillRewrites(st0, st0, pageSize, s, c);
      if libre == -1 {
        Ended(st0, pageSize, reparado, all, st0);
        return Done(());
      }
      ChainStep(St(), pageSize, s, c, k);
      LastOrNot(c, k);
      ghost var rest := if k == |c| - 1 then [] else Squeeze(pageSize, s, guardado, c, k);
      Ahead(st0, pageSize, reparado, all, st0, Read(pageSize, s, libre), rest);
      var libreInicial :- BuscarMetadata(s, libre);
      ghost var st1 := St();
      StillTiled(st0, st1, pageSize, s, c);
      StillRewrites(st0, st1, pageSize, s, c);
      if libre != ultima {
        var _ :- CompactarEnSegmento(s, libre, libreInicial.size + HEADER + libre, c, k);
        RewritesTrans(st0, st1, St(), pageSize, s, Live(c, 0), c, Live(c, 0), PassAs(guardado, c));
      } else {
        Ended(st0, pageSize, reparado, all, st1);
      }
      return Done(());
    }

    // ----- the heap -----

    /** Page tables, programs and chains agree, and every segment is tiled by its chain. */
    ghost predicate Valid()
      reads this, frames, bitmap, swap, bitmapSwap
    {
      && Ready() && Sane(St()) && Balanced(St())
      && PageStart(frames.Length + swap.Length, pageSize) < WORD
      && |pids| == |tables| == |chains|
      && (forall i, j | 0 <= i < j < |pids| :: pids[i] != pids[j])
      && Tiled(Flats(St()), chains)
    }

    /** What the clients can see of the server. */
    ghost function Abs(): H.System
      reads this, frames, bitmap, swap, bitmapSwap
    {
      H.System(pids, chains, Available(St()))
    }

    /** `search_program` */
    method SearchProgram(pid: nat) returns (i: int)
      ensures i == H.IndexOf(pids, pid)
    {
      i := 0;
      while i < |pids|
        invariant 0 <= i <= |pids|
        invariant H.IndexOf(pids, pid) == if H.IndexOf(pids[i..], pid) == -1 then -1 else i + H.IndexOf(pids[i..], pid)
      {
        if pids[i] == pid {
          return i;
        }
        assert pids[i..][1..] == pids[i + 1..];
        i := i + 1;
      }
      return -1;
    }

    /** The part of `memory_free` behind `search_program`: block `k` is marked free, then its segment compacted. */
    method Liberar(s: nat, a: nat, ghost c: seq<Block>, ghost k: nat) returns (r: Outcome<()>)
      requires Ready() && s < |tables| && k < |c| && Tiles(Flats(St())[s], c) && |Flats(St())[s]| < WORD
      requires a == Addr(c, k) && !c[k].free
      modifies this`tables, this`segmentoClock, this`paginaClock, frames, bitmap, bitmapSwap, swap
      ensures Plays(old(St()), St(), pageSize, reparado, Release(pageSize, s, guardado, c, k), r.Done?)
      ensures r.Done? ==>
        Rewrites(old(St()), St(), pageSize, s, Live(c, 0) - {(Addr(c, k), c[k].size)}, FreeAs(guardado, c, k))
    {
      hide Resident;
      hide Exclusive;
      hide Sane;
      hide Flats;
      hide Available;
      hide PageStart;
      hide Clean;
      hide Play;
      hide Read;
      hide Pass;
      hide Listing;
      hide FreeAs;
      hide Tiles;
      hide Live;
      hide HeaderAt;
      hide PassAs;
      hide Kept;
      hide PutHeader;
      hide Rewrites;
      ExclusiveSane(St(), pageSize);
      ghost var st0 := St();
      ChainStep(St(), pageSize, s, c, k);
      ghost var all := Release(pageSize, s, guardado, c, k);
      ghost var marca := [Put(s, a, Block(c[k].size, true))];
      ghost var pasada := Pass(pageSize, s, guardado, c[k := Block(c[k].size, true)]);
      FreeSome(guardado, c, k);
      ghost var lista := Listing(pageSize, s, FreeAs(guardado, c, k), 0);
      Begun(st0, pageSize, reparado, all);
      Ahead(st0, pageSize, reparado, all, st0, Read(pageSize, s, a), marca + (pasada + lista));
      var metadata :- BuscarMetadata(s, a);
      Ahead(st0, pageSize, reparado, all, St(), marca, pasada + lista);
      var viejoSize := metadata.size;
      var _ :- ModificarMetadata(s, a, viejoSize, true);
      ghost var st1 := St();
      ghost var d := c[k := Block(c[k].size, true)];
      MarkTiles(Flats(st0)[s], c, k);
      MarkFree(c, k);
      BytesRewrite(st0, st1, pageSize, s, PutHeader(Flats(st0)[s], Addr(c, k), Block(c[k].size, true)), Live(c, 0), d);
      RewritesReady(st0, st1, pageSize, s, Live(c, 0), d);
      Ahead(st0, pageSize, reparado, all, st1, pasada, lista);
      var _ :- CompactarEspaciosLibres(s, d);
      ghost var st2 := St();
      FewerRewrites(st0, st1, pageSize, s, Live(c, 0), Live(d, 0), d);
      RewritesTrans(st0, st1, st2, pageSize, s, Live(d, 0), d, Live(d, 0), PassAs(guardado, d));
      RewritesStands(st0, st2, pageSize, s, Live(d, 0), PassAs(guardado, d));
      AddrZero(PassAs(guardado, d));
      var _ :- ListarMetadatas(s, 0, PassAs(guardado, d), 0);
      RewritesOn(st0, st2, St(), pageSize, s, Live(d, 0), PassAs(guardado, d));
      return Done(());
    }

    /**
     `memory_free`, of an address `memory_malloc` has returned and that is still allocated. It is
     carried through exactly when its accesses go through: with a frame or a slot free, and no
     header of the chain over a page's end or the repair in place, always; and with nothing on swap.
     A sound chain then stays sound, and loses this one allocation, exactly when the compactor is
     guarded or the block freed is the one before the tail.
     */
    method MemoryFree(virtualAddress: nat, pid: nat) returns (r: Outcome<()>)
      requires Valid() && H.Target(Abs(), H.Release(pid, virtualAddress)) != -1
      modifies this, frames, bitmap, bitmapSwap, swap
      ensures r.Done? ==> Valid() && H.Ordered(old(Abs()))
      ensures r.Done? ==> Abs() == H.Step(pageSize, guardado, old(Abs()), H.Release(pid, virtualAddress))
      ensures r.Done? ==>
        var i := H.IndexOf(old(pids), pid); var c := old(chains)[i];
        var k := H.Target(old(Abs()), H.Release(pid, virtualAddress));
        && Flats(St()) == Flats(old(St()))[i := Flats(St())[i]]
        && Kept(Flats(old(St()))[i], Flats(St())[i], Live(c, 0) - {(Addr(c, k), c[k].size)})
      ensures r.Done? ==>
        var i := H.IndexOf(old(pids), pid); var c, d := old(chains)[i], chains[i];
        var k := H.Target(old(Abs()), H.Release(pid, virtualAddress));
        Sound(c) ==>
          (Sound(d) && Live(d, 0) == Live(c, 0) - {(Addr(c, k), c[k].size)} <==> guardado || k == |c| - 2)
      ensures var i := H.IndexOf(old(pids), pid); var k := H.Target(old(Abs()), H.Release(pid, virtualAddress));
        Plays(old(St()), St(), pageSize, reparado, Release(pageSize, i, guardado, old(chains)[i], k), r.Done?)
      ensures var c := old(chains)[H.IndexOf(old(pids), pid)];
        old(Available(St())) > 0 && (reparado || Whole(pageSize, c)) ==> r.Done?
      ensures Resident(old(tables)) ==> r.Done? && tables == old(tables)
    {
      hide Resident;
      hide Exclusive;
      hide Flats;
      hide Available;
      hide PageStart;
      hide Clean;
      hide Play;
      hide Release;
      hide Whole;
      hide Filled;
      hide Tiles;
      hide Live;
      hide Addr;
      hide Kept;
      hide Rewrites;
      hide FreeAs;
      hide Sound;
      ghost var st0 := St();
      TiledOrdered(Flats(st0), chains);
      ghost var k := H.Target(Abs(), H.Release(pid, virtualAddress));
      var s := SearchProgram(pid);
      ServerFills(st0, pageSize, Abs(), frames.Length + swap.Length);
      ReleaseGoes(st0, pageSize, reparado, guardado, Abs(), s, k);
      ghost var c := chains[s];
      SegmentSize(St(), pageSize, s, frames.Length + swap.Length);
      var _ :- Liberar(s, virtualAddress - HEADER, c, k);
      RewritesTiled(st0, St(), pageSize, s, Live(c, 0) - {(Addr(c, k), c[k].size)}, FreeAs(guardado, c, k), chains);
      SameShapeCount(st0.tables, tables);
      chains := chains[s := FreeAs(guardado, c, k)];
      if Sound(c) {
        FreeAsExact(guardado, c, k);
      }
      return Done(());
    }

    // ----- growing -----

    /** `page_with_free_size` and the `list_add` behind it. */
    method AgregarPagina(s: nat) returns (ok: bool)
      requires Ready() && Sane(St()) && s < |tables|
      modifies this`tables, this`segmentoClock, this`paginaClock, bitmap, bitmapSwap, swap
      ensures FirstTrue(old(bitmap[..]), 0) == -1 ==> SomePresent(old(tables))
      ensures St() == AddPage(old(St()), s) && ok == (old(Available(St())) > 0)
    {
      hide Replace;
      hide Owned;
      hide Unshared;
      if FirstTrue(bitmap[..], 0) == -1 {
        FullHasPresent(St(), pageSize);
      }
      CountZero(bitmap[..]);
      CountZero(bitmapSwap[..]);
      var pag;
      pag, ok := PageWithFreeSize();
      ghost var st1 := St();
      tables := tables[s := tables[s] + [pag]];
      assert St() == st1.(tables := tables);
    }

    method AgregarPaginas(s: nat, k: nat) returns (ok: bool)
      requires Ready() && Sane(St()) && s < |tables|
      modifies this`tables, this`segmentoClock, this`paginaClock, bitmap, bitmapSwap, swap
      ensures ok == (k <= old(Available(St())))
      ensures ok ==> Extends(old(St()), St(), pageSize, s, k)
      ensures Plays(old(St()), St(), pageSize, reparado, NewPages(s, k), ok)
    {
      hide Resident;
      hide Exclusive;
      hide Sane;
      hide AddPage;
      hide Available;
      hide CountTrue;
      hide Clean;
      hide Play;
      ok := true;
      ghost var st0, all := St(), NewPages(s, k);
      ExtendsNone(st0, pageSize, s);
      Begun(st0, pageSize, reparado, all);
      for i := 0 to k
        invariant Ready() && Extends(st0, St(), pageSize, s, i) && ok
        invariant Pending(st0, pageSize, reparado, all, St(), NewPages(s, k - i))
      {
        ghost var st1 := St();
        assert NewPages(s, k - i) == [NewPage(s)] + NewPages(s, k - i - 1);
        Ahead(st0, pageSize, reparado, all, st1, [NewPage(s)], NewPages(s, k - i - 1));
        OneNewPage(st1, pageSize, reparado, s);
        ok := AgregarPagina(s);
        if !ok {
          return;
        }
        ExtendsPage(st0, st1, pageSize, s, i);
      }
      assert NewPages(s, k - k) == [];
      Ended(st0, pageSize, reparado, all, St());
    }

    /** `segment_with_free_space`, for a program's one segment. */
    method SegmentWithFreeSpace(s: nat, size: nat, ghost c: seq<Block>) returns (r: Outcome<bool>)
      requires Ready() && s < |tables| && c != [] && Tiles(Flats(St())[s], c)
      modifies this`tables, this`segmentoClock, this`paginaClock, frames, bitmap, bitmapSwap, swap
      ensures r.Done? ==> Evolves(old(St()), St(), pageSize, Flats(old(St())))
      ensures r.Done? ==> r.value == (FirstFit(c, 0, size) >= 0)
      ensures old(Available(St())) > 0 || Resident(old(tables)) ==> r.Done?
      ensures Plays(old(St()), St(), pageSize, reparado, Look(pageSize, s, c, size), r.Done?)
    {
      hide Resident;
      hide Exclusive;
      hide Sane;
      hide Flats;
      hide Available;
      hide PageStart;
      hide Clean;
      hide Play;
      hide Read;
      hide Search;
      hide Tiles;
      hide HeaderAt;
      hide Addr;
      ExclusiveSane(St(), pageSize);
      ChainStep(St(), pageSize, s, c, 0);
      AddrZero(c);
      LookGoes(St(), pageSize, reparado, s, c, size);
      ghost var st0, all := St(), Look(pageSize, s, c, size);
      ghost var f := FirstFit(c, 0, size);
      ghost var rest := if f >= 0 then Read(pageSize, s, Addr(c, f)) else [];
      Begun(st0, pageSize, reparado, all);
      Ahead(st0, pageSize, reparado, all, st0, Search(pageSize, s, c, 0, size), rest);
      var encontrada :- ProximaMetadataLibreConSize(s, 0, size, c, 0);
      if encontrada != -1 {
        ChainStep(St(), pageSize, s, c, FirstFit(c, 0, size));
        var _ :- BuscarMetadata(s, encontrada);
      } else {
        Ended(st0, pageSize, reparado, all, St());
      }
      return Done(encontrada != -1);
    }

    /** Where the last block is, and its header. */
    method UltimaLeida(s: nat, ghost c: seq<Block>) returns (r: Outcome<(nat, Block)>)
      requires Ready() && s < |tables| && c != [] && Tiles(Flats(St())[s], c)
      modifies this`tables, this`segmentoClock, this`paginaClock, frames, bitmap, bitmapSwap, swap
      ensures r.Done? ==> Evolves(old(St()), St(), pageSize, Flats(old(St())))
      ensures r.Done? ==> r.value == (Addr(c, |c| - 1), c[|c| - 1])
      ensures Plays(old(St()), St(), pageSize, reparado,
        Walk(pageSize, s, c, 0) + Read(pageSize, s, Addr(c, |c| - 1)), r.Done?)
    {
      hide Resident;
      hide Exclusive;
      hide Sane;
      hide Flats;
      hide Available;
      hide PageStart;
      hide Clean;
      hide Play;
      hide Read;
      hide Walk;
      hide Tiles;
      hide HeaderAt;
      hide Addr;
      ExclusiveSane(St(), pageSize);
      ghost var st0, leer := St(), Read(pageSize, s, Addr(c, |c| - 1));
      ghost var all := Walk(pageSize, s, c, 0) + leer;
      ChainStep(St(), pageSize, s, c, 0);
      ChainStep(St(), pageSize, s, c, |c| - 1);
      AddrZero(c);
      Begun(st0, pageSize, reparado, all);
      Ahead(st0, pageSize, reparado, all, st0, Walk(pageSize, s, c, 0), leer);
      var ultima :- UltimaMetadataSegmento(s, 0, c, 0);
      var metadata :- BuscarMetadata(s, ultima);
      return Done((ultima, metadata));
    }

    /** The branch of `memory_malloc` that found room: the block is split where it lies. */
    method Ocupar(s: nat, size: nat, ghost c: seq<Block>) returns (r: Outcome<nat>)
      requires Ready() && s < |tables| && c != [] && Tiles(Flats(St())[s], c) && |Flats(St())[s]| < WORD
      requires FirstFit(c, 0, size + HEADER) >= 0
      modifies this`tables, this`segmentoClock, this`paginaClock, frames, bitmap, bitmapSwap, swap
      ensures r.Done? ==> var f := FirstFit(c, 0, size + HEADER);
        && r.value == Addr(c, f)
        && Rewrites(old(St()), St(), pageSize, s, if c[f].free then Live(c, 0) else {}, Split(c, f, size))
      ensures Plays(old(St()), St(), pageSize, reparado, Occupy(pageSize, s, c, size), r.Done?)
    {
      hide Resident;
      hide Exclusive;
      hide Sane;
      hide Flats;
      hide Available;
      hide PageStart;
      hide Clean;
      hide Play;
      hide Read;
      hide Search;
      hide Walk;
      hide Cut;
      hide Tiles;
      hide HeaderAt;
      hide Addr;
      hide Live;
      hide Split;
      hide PutHeader;
      hide Rewrites;
      ExclusiveSane(St(), pageSize);
      ghost var f := FirstFit(c, 0, size + HEADER);
      ghost var live := if c[f].free then Live(c, 0) else {};
      ghost var st0 := St();
      ChainStep(St(), pageSize, s, c, 0);
      ChainStep(St(), pageSize, s, c, f);
      AddrZero(c);
      ghost var all := Occupy(pageSize, s, c, size);
      ghost var d := Split(c, f, size);
      SplitLen(c, f, size);
      ghost var fin := Walk(pageSize, s, d, 0) + Read(pageSize, s, Addr(d, |d| - 1));
      Begun(st0, pageSize, reparado, all);
      Ahead(st0, pageSize, reparado, all, st0, Search(pageSize, s, c, 0, size + HEADER),
            Cut(pageSize, s, c, f, size) + fin);
      var libre :- ProximaMetadataLibreConSize(s, 0, size + HEADER, c, 0);
      ghost var leido := St();
      Ahead(st0, pageSize, reparado, all, St(), Cut(pageSize, s, c, f, size), fin);
      var _ :- Partir(s, libre, size, c, f);
      ghost var st1 := St();
      RewritesFrom(st0, leido, st1, pageSize, s, live, d);
      RewritesReady(st0, st1, pageSize, s, live, d);
      var _ :- UltimaLeida(s, d);
      RewritesOn(st0, st1, St(), pageSize, s, live, d);
      return Done(libre);
    }

    /** The address behind the block at `a`, after a look at the header there. */
    method Siguiente(s: nat, a: nat, ghost b: Block) returns (r: Outcome<nat>)
      requires Ready() && HeaderRoom(St(), pageSize, s, a) && HeaderRoom(St(), pageSize, s, a + HEADER + b.size)
      requires a + HEADER <= |Flats(St())[s]| && HeaderAt(Flats(St())[s], a) == b
      modifies this`tables, this`segmentoClock, this`paginaClock, frames, bitmap, bitmapSwap, swap
      ensures r.Done? ==> Evolves(old(St()), St(), pageSize, Flats(old(St()))) && r.value == a + HEADER + b.size
      ensures Plays(old(St()), St(), pageSize, reparado,
        Read(pageSize, s, a) + Read(pageSize, s, a + HEADER + b.size), r.Done?)
    {
      hide Resident;
      hide Exclusive;
      hide Sane;
      hide Flats;
      hide Available;
      hide PageStart;
      hide Clean;
      hide Play;
      hide Read;
      hide HeaderAt;
      ExclusiveSane(St(), pageSize);
      ghost var st0, despues := St(), Read(pageSize, s, a + HEADER + b.size);
      ghost var all := Read(pageSize, s, a) + despues;
      Begun(st0, pageSize, reparado, all);
      Ahead(st0, pageSize, reparado, all, st0, Read(pageSize, s, a), despues);
      var leida :- BuscarMetadata(s, a);
      var final := leida.size + HEADER + a;
      var _ :- BuscarMetadata(s, final);
      return Done(final);
    }

    /** The block at `a` becomes an allocation of `size` bytes; its size before comes back. */
    method Achicar(s: nat, a: nat, size: nat, ghost b: Block) returns (r: Outcome<nat>)
      requires Ready() && HeaderRoom(St(), pageSize, s, a) && size < WORD
      requires a + HEADER <= |Flats(St())[s]| && HeaderAt(Flats(St())[s], a) == b
      modifies this`tables, this`segmentoClock, this`paginaClock, frames, bitmap, bitmapSwap, swap
      ensures r.Done? ==> r.value == b.size && a + HEADER <= |Flats(old(St()))[s]|
      ensures r.Done? ==> Evolves(old(St()), St(), pageSize,
        Flats(old(St()))[s := PutHeader(Flats(old(St()))[s], a, Block(size, false))])
      ensures Plays(old(St()), St(), pageSize, reparado,
        Read(pageSize, s, a) + [Put(s, a, Block(size, false))], r.Done?)
    {
      hide Resident;
      hide Exclusive;
      hide Sane;
      hide Flats;
      hide Available;
      hide PageStart;
      hide Clean;
      hide Play;
      hide Read;
      hide HeaderAt;
      hide PutHeader;
      ExclusiveSane(St(), pageSize);
      ghost var st0, una := St(), [Put(s, a, Block(size, false))];
      ghost var all := Read(pageSize, s, a) + una;
      Begun(st0, pageSize, reparado, all);
      Ahead(st0, pageSize, reparado, all, st0, Read(pageSize, s, a), una);
      var metadata :- BuscarMetadata(s, a);
      ghost var st1 := St();
      var _ :- ModificarMetadata(s, a, size, false);
      EvolvesTrans(st0, st1, St(), pageSize, Flats(st0),
                   Flats(st0)[s := PutHeader(Flats(st0)[s], a, Block(size, false))]);
      return Done(metadata.size);
    }

    /** The two header writes of a split and the reads between them. */
    method Partir(s: nat, a: nat, size: nat, ghost c: seq<Block>, ghost f: nat) returns (r: Outcome<()>)
      requires Ready() && s < |tables| && f < |c| && Tiles(Flats(St())[s], c) && |Flats(St())[s]| < WORD
      requires a == Addr(c, f) && c[f].size >= size + HEADER
      modifies this`tables, this`segmentoClock, this`paginaClock, frames, bitmap, bitmapSwap, swap
      ensures r.Done? ==>
        Rewrites(old(St()), St(), pageSize, s, if c[f].free then Live(c, 0) else {}, Split(c, f, size))
      ensures Plays(old(St()), St(), pageSize, reparado, Cut(pageSize, s, c, f, size), r.Done?)
    {
      hide Resident;
      hide Exclusive;
      hide Sane;
      hide Flats;
      hide Available;
      hide PageStart;
      hide Clean;
      hide Play;
      hide Read;
      hide Tiles;
      hide HeaderAt;
      hide Addr;
      hide Live;
      hide Split;
      hide PutHeader;
      hide Rewrites;
      hide Evolves;
      hide Straddles;
      ExclusiveSane(St(), pageSize);
      ghost var st0 := St();
      ghost var m := Flats(st0)[s];
      ChainStep(St(), pageSize, s, c, f);
      ghost var all, next := Cut(pageSize, s, c, f, size), a + HEADER + size;
      ghost var otra := [Put(s, next, Block(c[f].size - size - HEADER, true))];
      ghost var una := Read(pageSize, s, a) + [Put(s, a, Block(size, false))];
      ghost var leidas := Read(pageSize, s, a) + Read(pageSize, s, next);
      Begun(st0, pageSize, reparado, all);
      Ahead(st0, pageSize, reparado, all, st0, una, leidas + otra);
      var sizeAnterior :- Achicar(s, a, size, c[f]);
      ghost var medio := St();
      ghost var escrito := Flats(st0)[s := PutHeader(m, a, Block(size, false))];
      EvolvesRoom(st0, medio, pageSize, escrito, s, a);
      EvolvesRoom(st0, medio, pageSize, escrito, s, next);
      PutThenRead(m, a, Block(size, false));
      Ahead(st0, pageSize, reparado, all, medio, leidas, otra);
      var final :- Siguiente(s, a, Block(size, false));
      ghost var st1 := St();
      EvolvesRoom(medio, st1, pageSize, escrito, s, next);
      var _ :- ModificarMetadata(s, final, sizeAnterior - (size + HEADER), true);
      EvolvesSelf(st0, pageSize);
      SplitWritten(st0, st0, medio, st1, St(), pageSize, s, c, f, size);
      return Done(());
    }

    /** The last header is rewritten before the pages it counts are there. */
    method Alargar(s: nat, a: nat, sizeAnterior: nat, k: nat, ghost c: seq<Block>) returns (r: Outcome<()>)
      requires Ready() && Sane(St()) && s < |tables| && c != [] && Tiles(Flats(St())[s], c) && k <= Available(St())
      requires |Flats(St())[s]| + PageStart(k, pageSize) < WORD && a == Addr(c, |c| - 1)
      requires sizeAnterior == c[|c| - 1].size
      modifies this`tables, this`segmentoClock, this`paginaClock, frames, bitmap, bitmapSwap, swap
      ensures r.Done? ==> Enlarges(old(St()), St(), pageSize, s, c, k)
      ensures Plays(old(St()), St(), pageSize, reparado, Lengthen(pageSize, s, c, k), r.Done?)
    {
      hide Resident;
      hide Exclusive;
      hide Sane;
      hide Flats;
      hide Available;
      hide PageStart;
      hide Clean;
      hide Play;
      hide Read;
      hide Tiles;
      hide HeaderAt;
      hide Addr;
      hide PutHeader;
      hide Enlarges;
      hide Balanced;
      hide Extends;
      ghost var st0 := St();
      ChainStep(St(), pageSize, s, c, |c| - 1);
      ghost var all, leer, nuevas := Lengthen(pageSize, s, c, k), Read(pageSize, s, a), NewPages(s, k);
      ghost var una := [Put(s, a, Block(PageStart(k, pageSize) + sizeAnterior, true))];
      Begun(st0, pageSize, reparado, all);
      Ahead(st0, pageSize, reparado, all, st0, una, leer + (nuevas + leer));
      var _ :- ModificarMetadata(s, a, PageStart(k, pageSize) + sizeAnterior, true);
      ghost var st1 := St();
      Ahead(st0, pageSize, reparado, all, St(), leer, nuevas + leer);
      var _ :- BuscarMetadata(s, a);
      ghost var st2 := St();
      Ahead(st0, pageSize, reparado, all, St(), nuevas, leer);
      var ok := AgregarPaginas(s, k);
      ghost var st3 := St();
      GrowthIs(st0, st1, st2, st3, pageSize, s, c, k);
      GrownRoom(st0, st3, pageSize, s, c, k);
      var _ :- BuscarMetadata(s, a);
      EnlargesOn(st0, st3, St(), pageSize, s, c, k);
      return Done(());
    }

    /** The branch of `memory_malloc` that lengthens the segment. */
    method Agrandar(s: nat, total: nat, ghost c: seq<Block>) returns (r: Outcome<nat>)
      requires Ready() && Sane(St()) && Balanced(St()) && PageStart(frames.Length + swap.Length, pageSize) < WORD
      requires s < |tables| && c != [] && Tiles(Flats(St())[s], c) && total <= PageStart(Available(St()), pageSize)
      modifies this`tables, this`segmentoClock, this`paginaClock, frames, bitmap, bitmapSwap, swap
      ensures r.Done? ==> c[|c| - 1].size < total && r.value == Pages(total - c[|c| - 1].size, pageSize)
      ensures r.Done? ==> Enlarges(old(St()), St(), pageSize, s, c, r.value)
      ensures var lleno := c[|c| - 1].size;
        if lleno < total then
          Plays(old(St()), St(), pageSize, reparado, Enlarge(pageSize, s, c, Pages(total - lleno, pageSize)), r.Done?)
        else r.Corrupted?
    {
      hide Resident;
      hide Exclusive;
      hide Sane;
      hide Flats;
      hide Available;
      hide PageStart;
      hide Clean;
      hide Play;
      hide Read;
      hide Walk;
      hide Lengthen;
      hide Pages;
      hide Tiles;
      hide HeaderAt;
      hide Addr;
      hide Enlarges;
      hide Balanced;
      ghost var st0 := St();
      ghost var mirar := Walk(pageSize, s, c, 0) + Read(pageSize, s, Addr(c, |c| - 1));
      ghost var lleno := c[|c| - 1].size;
      ghost var resto := if lleno < total then Lengthen(pageSize, s, c, Pages(total - lleno, pageSize)) else [];
      ghost var all := mirar + resto;
      Begun(st0, pageSize, reparado, all);
      Ahead(st0, pageSize, reparado, all, st0, mirar, resto);
      ChainStep(St(), pageSize, s, c, |c| - 1);
      var leida :- UltimaLeida(s, c);
      var (ultima, ultimaMetadata) := leida;
      var sizeAnterior := ultimaMetadata.size;
      if sizeAnterior >= total {
        return Corrupted;
      }
      var k := Pages(total - sizeAnterior, pageSize);
      PagesLeast(total - sizeAnterior, Available(st0), pageSize);
      GrowthFits(st0, pageSize, s, k, frames.Length + swap.Length);
      ghost var st1 := St();
      var _ :- Alargar(s, ultima, sizeAnterior, k, c);
      EnlargesFrom(st0, st1, St(), pageSize, s, c, k);
      return Done(k);
    }

    /** A first segment: an empty page table, its pages, and one header over all of them. */
    method NuevoSegmento(k: nat) returns (r: Outcome<()>)
      requires Ready() && Sane(St()) && Balanced(St()) && PageStart(frames.Length + swap.Length, pageSize) < WORD
      requires PageStart(k, pageSize) >= HEADER
      modifies this`tables, this`segmentoClock, this`paginaClock, frames, bitmap, bitmapSwap, swap
      ensures r.Done? ==> Adds(old(St()), St(), pageSize, k)
      ensures Plays(old(St()), St(), pageSize, reparado, Begin(pageSize, |old(tables)|, k), r.Done?)
    {
      hide Resident;
      hide Exclusive;
      hide Sane;
      hide Flats;
      hide Available;
      hide PageStart;
      hide Clean;
      hide Play;
      hide Read;
      hide HeaderAt;
      hide PutHeader;
      hide Balanced;
      hide Extends;
      hide Adds;
      hide Evolves;
      ghost var st0 := St();
      var n := |tables|;
      SpareFits(st0);
      ghost var all, nuevas, leer := Begin(pageSize, n, k), NewPages(n, k), Read(pageSize, n, 0);
      ghost var una := [Put(n, 0, Block(PageStart(k, pageSize) - HEADER, true))];
      Begun(st0, pageSize, reparado, all);
      Ahead(st0, pageSize, reparado, all, st0, [NewTable], nuevas + (una + leer));
      OneTable(st0, pageSize, reparado);
      tables := tables + [[]];
      ghost var st1 := St();
      EmptySegment(st0, pageSize);
      assert st1 == st0.(tables := st0.tables + [[]]);
      Ahead(st0, pageSize, reparado, all, St(), nuevas, una + leer);
      var ok := AgregarPaginas(n, k);
      if !ok {
        return Corrupted;
      }
      ghost var st2 := St();
      NewRoom(st0, st1, st2, pageSize, k, frames.Length + swap.Length);
      Ahead(st0, pageSize, reparado, all, St(), una, leer);
      var _ :- ModificarMetadata(n, 0, PageStart(k, pageSize) - HEADER, true);
      ghost var st3 := St();
      ghost var b := Block(PageStart(k, pageSize) - HEADER, true);
      EvolvesRoom(st2, st3, pageSize, Flats(st2)[n := PutHeader(Flats(st2)[n], 0, b)], n, 0);
      var _ :- BuscarMetadata(n, 0);
      NewIs(st0, st1, st2, st3, St(), pageSize, k);
      return Done(());
    }

    /** A new program and its first segment. */
    method Crear(pid: nat, k: nat) returns (r: Outcome<()>)
      requires Valid() && H.IndexOf(pids, pid) == -1 && PageStart(k, pageSize) >= HEADER
      modifies this, frames, bitmap, bitmapSwap, swap
      ensures r.Done? ==> Valid() && k <= old(Available(St())) && Abs() == H.Created(old(Abs()), pid, pageSize, k)
      ensures r.Done? ==> Undisturbed(Flats(old(St())), Flats(St()), old(chains))
      ensures Plays(old(St()), St(), pageSize, reparado, Begin(pageSize, |old(tables)|, k), r.Done?)
    {
      hide Resident;
      hide Exclusive;
      hide Sane;
      hide Flats;
      hide Available;
      hide PageStart;
      hide Clean;
      hide Play;
      hide Balanced;
      hide Tiles;
      hide Kept;
      ghost var st0 := St();
      var _ :- NuevoSegmento(k);
      AddsTiled(st0, St(), pageSize, k, chains);
      pids := pids + [pid];
      chains := chains + [[Block(PageStart(k, pageSize) - HEADER, true)]];
      return Done(());
    }

    /** The request is met where there is room for it. */
    method Asignar(s: nat, size: nat) returns (r: Outcome<nat>)
      requires Valid() && s < |chains| && chains[s] != [] && FirstFit(chains[s], 0, size + HEADER) >= 0
      modifies this, frames, bitmap, bitmapSwap, swap
      ensures r.Done? ==> var f := FirstFit(old(chains)[s], 0, size + HEADER);
        && Valid() && r.value == Addr(old(chains)[s], f)
        && Abs() == old(Abs()).(chains := old(chains)[s := Split(old(chains)[s], f, size)])
      ensures r.Done? ==> Undisturbed(Flats(old(St())), Flats(St()), old(chains))
      ensures Plays(old(St()), St(), pageSize, reparado, Occupy(pageSize, s, old(chains)[s], size), r.Done?)
    {
      hide Resident;
      hide Exclusive;
      hide Flats;
      hide Available;
      hide PageStart;
      hide Clean;
      hide Play;
      hide Occupy;
      hide Tiles;
      hide Kept;
      hide Rewrites;
      hide Live;
      hide Addr;
      hide Split;
      hide Undisturbed;
      ghost var st0 := St();
      ghost var c := chains[s];
      ghost var f := FirstFit(c, 0, size + HEADER);
      ghost var live := if c[f].free then Live(c, 0) else {};
      assert Tiles(Flats(St())[s], c);
      SegmentSize(St(), pageSize, s, frames.Length + swap.Length);
      var libre :- Ocupar(s, size, c);
      RewritesTiled(st0, St(), pageSize, s, live, Split(c, f, size), chains);
      SameShapeCount(st0.tables, tables);
      SplitUndisturbed(Flats(st0), Flats(St()), chains, s, size + HEADER);
      chains := chains[s := Split(c, f, size)];
      return Done(libre);
    }

    /** The program's segment grows by as many pages as its last block lacks. */
    method Ampliar(s: nat, total: nat) returns (r: Outcome<nat>)
      requires Valid() && s < |chains| && chains[s] != [] && total <= PageStart(Available(St()), pageSize)
      modifies this, frames, bitmap, bitmapSwap, swap
      ensures r.Done? ==> var c := old(chains)[s];
        && Valid() && c[|c| - 1].size < total
        && r.value == Pages(total - c[|c| - 1].size, pageSize) <= old(Available(St()))
        && Abs() == H.Grown(old(Abs()), s, pageSize, r.value)
      ensures r.Done? ==> Undisturbed(Flats(old(St())), Flats(St()), old(chains))
      ensures var c := old(chains)[s]; var lleno := c[|c| - 1].size;
        if lleno < total then
          Plays(old(St()), St(), pageSize, reparado, Enlarge(pageSize, s, c, Pages(total - lleno, pageSize)), r.Done?)
        else r.Corrupted?
    {
      hide Resident;
      hide Exclusive;
      hide Flats;
      hide Available;
      hide PageStart;
      hide Clean;
      hide Play;
      hide Enlarge;
      hide Tiles;
      hide Kept;
      hide Enlarges;
      hide Live;
      hide Pages;
      hide Grow;
      hide Undisturbed;
      hide Balanced;
      ghost var st0 := St();
      ghost var c := chains[s];
      assert Tiles(Flats(St())[s], c);
      var k :- Agrandar(s, total, c);
      EnlargesTiled(st0, St(), pageSize, s, c, k, chains);
      chains := chains[s := Grow(c, PageStart(k, pageSize))];
      return Done(k);
    }

    /** `segment_with_free_space`, asked of a program. */
    method HayEspacio(s: nat, total: nat) returns (r: Outcome<bool>)
      requires Valid() && s < |chains| && chains[s] != []
      modifies this`tables, this`segmentoClock, this`paginaClock, frames, bitmap, bitmapSwap, swap
      ensures r.Done? ==> Valid() && Abs() == old(Abs()) && Flats(St()) == Flats(old(St()))
      ensures r.Done? ==> r.value == (FirstFit(chains[s], 0, total) >= 0)
      ensures Plays(old(St()), St(), pageSize, reparado, Look(pageSize, s, chains[s], total), r.Done?)
    {
      hide Resident;
      hide Exclusive;
      hide Flats;
      hide Available;
      hide PageStart;
      hide Clean;
      hide Play;
      hide Look;
      hide Tiles;
      ghost var st0 := St();
      assert Tiles(Flats(St())[s], chains[s]);
      r := SegmentWithFreeSpace(s, total, chains[s]);
      if r.Done? {
        SameShapeCount(st0.tables, tables);
      }
    }

    /** The request would be met without a new page. */
    ghost predicate HayLugar(pid: nat, total: int)
      reads this
    {
      var i := H.IndexOf(pids, pid);
      total >= 0 && 0 <= i < |chains| && chains[i] != [] && FirstFit(chains[i], 0, total) >= 0
    }

    /** The branches of `memory_malloc` that make a segment or lengthen it, up to the retry. */
    method Preparar(s: int, size: int, pid: nat) returns (r: Outcome<()>)
      requires Valid() && H.Ordered(Abs()) && s == H.IndexOf(pids, pid) && Lacks(pageSize, Abs(), pid, size)
      modifies this, frames, bitmap, bitmapSwap, swap
      ensures r.Done? ==> !Stuck(pageSize, old(Abs()), pid, size) && Valid()
      ensures r.Done? ==> Abs() == Prepared(pageSize, old(Abs()), pid, size)
      ensures r.Done? ==> Undisturbed(Flats(old(St())), Flats(St()), old(chains)) && Carries(old(chains), chains)
      ensures if Stuck(pageSize, old(Abs()), pid, size) then r.Corrupted?
        else Plays(old(St()), St(), pageSize, reparado, Preparation(pageSize, old(Abs()), pid, size), r.Done?)
    {
      hide Resident;
      hide Exclusive;
      hide Flats;
      hide Available;
      hide PageStart;
      hide Tiled;
      hide Undisturbed;
      hide Pages;
      hide Grow;
      hide FirstFit;
      hide Balanced;
      hide Enlarge;
      hide Begin;
      hide Clean;
      hide Play;
      ghost var chains0 := chains;
      if s == -1 {
        var k := Pages(size + 2 * HEADER, pageSize);
        var _ :- Crear(pid, k);
        CreatedCarries(chains0, chains[|chains0|]);
      } else {
        var k :- Ampliar(s, size + HEADER);
        GrownCarries(chains0, s, PageStart(k, pageSize));
      }
      return Done(());
    }

    /** The branch of `memory_malloc` that found room: it looks again, and splits. */
    method Conceder(s: nat, size: int, pid: nat) returns (r: Outcome<nat>)
      requires Valid() && s < |chains| && chains[s] != [] && 0 < size && FirstFit(chains[s], 0, size + HEADER) >= 0
      modifies this, frames, bitmap, bitmapSwap, swap
      ensures r.Done? ==> var f := FirstFit(old(chains)[s], 0, size + HEADER);
        && Valid() && r.value == Addr(old(chains)[s], f) + HEADER
        && Abs() == old(Abs()).(chains := old(chains)[s := Split(old(chains)[s], f, size)])
      ensures r.Done? ==> Undisturbed(Flats(old(St())), Flats(St()), old(chains))
      ensures Plays(old(St()), St(), pageSize, reparado,
        Look(pageSize, s, old(chains)[s], size + HEADER) + Occupy(pageSize, s, old(chains)[s], size), r.Done?)
    {
      hide Resident;
      hide Exclusive;
      hide Flats;
      hide Available;
      hide PageStart;
      hide Tiled;
      hide Undisturbed;
      hide Split;
      hide FirstFit;
      hide Balanced;
      hide Look;
      hide Occupy;
      hide Clean;
      hide Play;
      ghost var st0, mirar := St(), Look(pageSize, s, chains[s], size + HEADER);
      ghost var tomar := Occupy(pageSize, s, chains[s], size);
      Begun(st0, pageSize, reparado, mirar + tomar);
      Ahead(st0, pageSize, reparado, mirar + tomar, st0, mirar, tomar);
      var _ :- HayEspacio(s, size + HEADER);
      var direccion :- Asignar(s, size);
      return Done(direccion + HEADER);
    }

    /**
     `memory_malloc`. Reply and what clients see are those of the counting heap; no allocation of a
     sound chain loses a byte; and, short of an overrun, it is carried through exactly when every
     access on the way goes through.
     */
    method MemoryMalloc(size: int, pid: nat) returns (r: Outcome<H.Reply>)
      requires Valid()
      modifies this, frames, bitmap, bitmapSwap, swap
      ensures H.Ordered(old(Abs()))
      ensures r.Done? ==> Valid() && r.value != H.Overrun
      ensures r.Done? ==> (Abs(), r.value) == H.Malloc(pageSize, old(Abs()), pid, size)
      ensures r.Done? ==> Undisturbed(Flats(old(St())), Flats(St()), old(chains))
      ensures var h := old(Abs());
        if H.Malloc(pageSize, h, pid, size).1 == H.Overrun then r.Corrupted?
        else Plays(old(St()), St(), pageSize, reparado, Request(pageSize, h, pid, size), r.Done?)
      ensures Certain(pageSize, reparado, old(Abs()), pid, size) ==> r.Done?
      ensures Resident(old(tables)) && Framed(pageSize, old(Abs()), pid, size, CountTrue(old(bitmap[..]))) ==>
        r.Done? && Resident(tables)
      decreases if HayLugar(pid, size + HEADER) then 0 else 1, 1
    {
      hide Resident;
      hide Exclusive;
      hide Flats;
      hide Available;
      hide PageStart;
      hide Tiled;
      hide Undisturbed;
      hide Split;
      hide FirstFit;
      hide Balanced;
      hide CountTrue;
      hide Clean;
      hide Play;
      hide Look;
      hide Occupy;
      hide Request;
      hide H.Malloc;
      hide Prepared;
      hide Preparation;
      hide Stuck;
      hide Carries;
      hide WholeAfter;
      hide Filled;
      hide H.Extra;
      ghost var st0 := St();
      TiledOrdered(Flats(st0), chains);
      SameUndisturbed(Flats(st0), Flats(st0), chains);
      if H.Malloc(pageSize, Abs(), pid, size).1 != H.Overrun {
        ServerFills(st0, pageSize, Abs(), frames.Length + swap.Length);
        RequestGoes(st0, pageSize, reparado, Abs(), pid, size);
      }
      Begun(st0, pageSize, reparado, []);
      Ended(st0, pageSize, reparado, [], st0);
      if size <= 0 {
        Idle(pageSize, Abs(), pid, size);
        return Done(H.Null);
      }
      var libres := NumberOfFreeFrames();
      if size + HEADER > PageStart(libres, pageSize) {
        Idle(pageSize, Abs(), pid, size);
        return Done(H.Refused);
      }
      r := Pedir(size, pid);
    }

    /** `memory_malloc` past its guard. */
    method Pedir(size: int, pid: nat) returns (r: Outcome<H.Reply>)
      requires Valid() && 0 < size && size + HEADER <= PageStart(Available(St()), pageSize)
      modifies this, frames, bitmap, bitmapSwap, swap
      ensures H.Ordered(old(Abs()))
      ensures r.Done? ==> Valid() && r.value != H.Overrun
      ensures r.Done? ==> (Abs(), r.value) == H.Malloc(pageSize, old(Abs()), pid, size)
      ensures r.Done? ==> Undisturbed(Flats(old(St())), Flats(St()), old(chains))
      ensures var h := old(Abs());
        if H.Malloc(pageSize, h, pid, size).1 == H.Overrun then r.Corrupted?
        else Plays(old(St()), St(), pageSize, reparado, Request(pageSize, h, pid, size), r.Done?)
      decreases if HayLugar(pid, size + HEADER) then 0 else 1, 0
    {
      hide Resident;
      hide Exclusive;
      hide Flats;
      hide Available;
      hide PageStart;
      hide Tiled;
      hide Undisturbed;
      hide Split;
      hide FirstFit;
      hide Balanced;
      hide CountTrue;
      hide Clean;
      hide Play;
      hide Look;
      hide Occupy;
      hide Request;
      hide H.Malloc;
      hide Prepared;
      hide Preparation;
      hide Stuck;
      hide Carries;
      ghost var st0, h0, chains0 := St(), Abs(), chains;
      TiledOrdered(Flats(st0), chains);
      ghost var all := Request(pageSize, h0, pid, size);
      Begun(st0, pageSize, reparado, all);
      var s := SearchProgram(pid);
      ghost var quedan := Lacks(pageSize, h0, pid, size) && !Stuck(pageSize, h0, pid, size);
      ghost var primero, luego := [], [];
      if quedan {
        Prepares(pageSize, h0, pid, size);
        primero := Preparation(pageSize, h0, pid, size);
        luego := Request(pageSize, Prepared(pageSize, h0, pid, size), pid, size);
      }
      if s != -1 {
        ghost var mirar := Look(pageSize, s, chains[s], size + HEADER);
        if FirstFit(chains[s], 0, size + HEADER) >= 0 {
          Grants(pageSize, h0, pid, size, s);
          Ahead(st0, pageSize, reparado, all, st0, mirar, mirar + Occupy(pageSize, s, chains[s], size));
        } else if quedan {
          Ahead(st0, pageSize, reparado, all, st0, mirar, primero + luego);
        } else {
          Stops(pageSize, h0, pid, size);
        }
        var hay :- HayEspacio(s, size + HEADER);
        if hay {
          var direccion :- Conceder(s, size, pid);
          return Done(H.At(direccion));
        }
      } else if quedan {
        assert [] + (primero + luego) == primero + luego;
      }
      if quedan {
        Ahead(st0, pageSize, reparado, all, St(), primero, luego);
      } else {
        Stops(pageSize, h0, pid, size);
      }
      var _ :- Preparar(s, size, pid);
      ghost var st1, chains1 := St(), chains;
      r := MemoryMalloc(size, pid);
      if r.Done? {
        UndisturbedTrans(Flats(st0), Flats(st1), Flats(St()), chains0, chains1);
      }
    }

    // ----- copies -----

    /** Pages `first` to `first + k`, one after the other, into a buffer. */
    method Volcar(s: nat, first: nat, k: nat) returns (r: Outcome<seq<byte>>)
      requires Ready() && s < |tables| && first + k <= |tables[s]|
      modifies this`tables, this`segmentoClock, this`paginaClock, frames, bitmap, bitmapSwap, swap
      ensures r.Done? ==> Evolves(old(St()), St(), pageSize, Flats(old(St())))
      ensures r.Done? ==> PageStart(first, pageSize) <= PageStart(first + k, pageSize) <= |Flats(old(St()))[s]|
      ensures r.Done? ==> r.value == Flats(old(St()))[s][PageStart(first, pageSize)..PageStart(first + k, pageSize)]
      ensures old(Available(St())) > 0 ==> r.Done?
      ensures Resident(old(tables)) ==> r.Done? && St() == old(St())
      ensures r.Done? ==> Marks(old(tables), tables, 0, 0, 0)
    {
      hide Resident;
      hide Exclusive;
      hide Sane;
      hide Flats;
      hide Available;
      hide PageStart;
      hide Plays;
      hide Marks;
      ExclusiveSane(St(), pageSize);
      ghost var st0 := St();
      NoMarks(tables, 0, 0);
      ghost var m := Flats(st0)[s];
      SegmentBounds(st0, pageSize, s, first, k);
      var buffer: seq<byte> := [];
      for i := 0 to k
        invariant Ready() && Evolves(st0, St(), pageSize, Flats(st0))
        invariant PageStart(first, pageSize) <= PageStart(first + i, pageSize) <= |m|
        invariant buffer == m[PageStart(first, pageSize)..PageStart(first + i, pageSize)]
        invariant Resident(st0.tables) ==> St() == st0
        invariant Marks(st0.tables, tables, 0, 0, 0)
      {
        PageRange(first + i, |tables[s]|, pageSize);
        ghost var antes := tables;
        var datos :- LeerPagina(s, first + i);
        MarksTrans(st0.tables, antes, tables, 0, 0, 0, 0);
        buffer := buffer + datos;
      }
      return Done(buffer);
    }

    /** The buffer goes back, page by page, each marked modified and loaded again first. */
    method Reescribir(s: nat, first: nat, k: nat, buffer: seq<byte>) returns (r: Outcome<()>)
      requires Ready() && s < |tables| && first + k <= |tables[s]| && |buffer| == PageStart(k, pageSize)
      modifies this`tables, this`segmentoClock, this`paginaClock, frames, bitmap, bitmapSwap, swap
      ensures r.Done? ==> Sane(old(St())) && PageStart(first, pageSize) + |buffer| <= |Flats(old(St()))[s]|
      ensures r.Done? ==> Evolves(old(St()), St(), pageSize,
        Flats(old(St()))[s := Splice(Flats(old(St()))[s], PageStart(first, pageSize), buffer)])
      ensures old(Available(St())) > 0 ==> r.Done?
      ensures Resident(old(tables)) ==> r.Done? && Resident(tables)
      ensures r.Done? ==> Marks(old(tables), tables, s, first, first + k)
    {
      hide Resident;
      hide Exclusive;
      hide Sane;
      hide Flats;
      hide Available;
      hide PageStart;
      hide Splice;
      hide Marks;
      NoMarks(tables, s, first);
      ExclusiveSane(St(), pageSize);
      ghost var st0 := St();
      ghost var m, base := Flats(st0)[s], PageStart(first, pageSize);
      SegmentBounds(st0, pageSize, s, first, k);
      SpliceNone(m, base);
      assert buffer[..PageStart(0, pageSize)] == [] by {
        PageSum(0, 0, pageSize);
      }
      assert Flats(st0) == Flats(st0)[s := m];
      for x := 0 to k
        invariant Ready() && PageStart(x, pageSize) <= |buffer|
        invariant Evolves(st0, St(), pageSize, Flats(st0)[s := Splice(m, base, buffer[..PageStart(x, pageSize)])])
        invariant Resident(st0.tables) ==> Resident(tables)
        invariant Marks(st0.tables, tables, s, first, first + x)
      {
        ghost var antes := tables;
        PageRange(x, k, pageSize);
        PageSum(first, x, pageSize);
        var lo, hi := PageStart(x, pageSize), PageStart(x + 1, pageSize);
        var _ :- ReescribirPagina(s, first + x, buffer[lo..hi]);
        MarksTrans(st0.tables, antes, tables, s, first, first + x, first + x + 1);
        SpliceMore(m, base, buffer, lo, hi);
      }
      assert buffer[..PageStart(k, pageSize)] == buffer;
      return Done(());
    }

    method ReescribirPagina(s: nat, p: nat, datos: seq<byte>) returns (r: Outcome<()>)
      requires Ready() && Spot(tables, s, p) && |datos| == pageSize
      modifies this`tables, this`segmentoClock, this`paginaClock, frames, bitmap, bitmapSwap, swap
      ensures r.Done? ==> Sane(old(St())) && PageStart(p, pageSize) + pageSize <= |Flats(old(St()))[s]|
      ensures r.Done? ==> Evolves(old(St()), St(), pageSize,
        Flats(old(St()))[s := Splice(Flats(old(St()))[s], PageStart(p, pageSize), datos)])
      ensures old(Available(St())) > 0 ==> r.Done?
      ensures Resident(old(tables)) ==> r.Done? && Resident(tables)
      ensures r.Done? ==> Marks(old(tables), tables, s, p, p + 1)
    {
      hide Resident;
      hide Exclusive;
      hide Sane;
      hide Flats;
      hide Available;
      hide PageStart;
      hide Splice;
      hide PutFrame;
      hide Marks;
      hide Load;
      hide CanLoad;
      ExclusiveSane(St(), pageSize);
      ghost var st0 := St();
      MarkEvolves(st0, pageSize, s, p);
      tables := SetPage(tables, s, p, tables[s][p].(modified := true));
      ghost var st1 := St();
      assert st1 == st0.(tables := tables);
      OneMark(st0.tables, s, p);
      var ok := Obtener(s, p);
      if !ok {
        return Corrupted;
      }
      ghost var st2 := St();
      WroteOne(st2, pageSize, s, p, 0, datos);
      AlsoMarks(st0.tables, st1.tables, st2.tables, s, p, p + 1);
      EscribirMarco(tables[s][p].fr, 0, datos);
      EvolvesTrans(st0, st1, st2, pageSize, Flats(st0), Flats(st0));
      EvolvesTrans(st0, st2, St(), pageSize, Flats(st0), Flats(St()));
      return Done(());
    }

    /** `memory_cpy` once the program is found: exactly as on flat bytes. */
    method Copiar(s: nat, dst: nat, src: seq<byte>) returns (r: Outcome<Copy>)
      requires Ready() && Sane(St()) && s < |tables|
      modifies this`tables, this`segmentoClock, this`paginaClock, frames, bitmap, bitmapSwap, swap
      ensures PageLong(Flats(old(St())), old(tables), pageSize)
      ensures r.Done? ==>
        var f := Flats(old(St()));
        var g := Cpy(pageSize, |old(tables)[s]|, f[s], dst, src);
        r.value == g.0 && Evolves(old(St()), St(), pageSize, f[s := g.1])
      ensures old(Available(St())) > 0 || Resident(old(tables)) ==> r.Done?
      ensures r.Done? ==> Stamped(old(tables), tables, pageSize, s, dst, |src|, r.value)
    {
      hide Resident;
      hide Exclusive;
      hide Sane;
      hide Flats;
      hide Available;
      hide PageStart;
      hide Splice;
      hide HeaderAt;
      hide ReadHeader;
      hide Marks;
      NoMarks(tables, s, 0);
      NoMarks(tables, 0, 0);
      ghost var st0 := St();
      SegmentLengths(st0, pageSize);
      ghost var m := Flats(st0)[s];
      assert Flats(st0)[s := m] == Flats(st0);
      var limite := PageStart(|tables[s]|, pageSize);
      EvolvesSelf(st0, pageSize);
      if dst > limite {
        return Done(NoSegment);
      }
      var numPage, paginas := FirstPage(pageSize, dst), PageSpan(pageSize, dst, |src|, |tables[s]|);
      if numPage < 0 || numPage + paginas > |tables[s]| {
        return Done(Fault);
      }
      SpanCovers(pageSize, dst, |src|, |tables[s]|);
      var posicion := dst - PageStart(numPage, pageSize);
      ghost var t0 := tables;
      var buffer :- Volcar(s, numPage, paginas);
      ghost var t1 := tables;
      HeaderInBuffer(m, PageStart(numPage, pageSize), PageStart(numPage + paginas, pageSize), dst);
      var metadata := ReadHeader(buffer[posicion - HEADER..posicion]);
      if metadata.free || metadata.size < |src| {
        return Done(Invalid);
      }
      if posicion + |src| > |buffer| {
        return Done(Fault);
      }
      PageSum(numPage, paginas, pageSize);
      var nuevo := Splice(buffer, posicion, src);
      var _ :- Reescribir(s, numPage, paginas, nuevo);
      LaterMarks(t0, t1, tables, s, numPage, numPage + paginas);
      SpliceWindow(m, PageStart(numPage, pageSize), PageStart(numPage + paginas, pageSize), dst, src);
      return Done(Copied(dst));
    }

    /**
     `memory_cpy`: the flat copy, for any address. A copy to the payload of any block of the program's
     chain, of any length, goes through exactly when the block is allocated and no shorter, and the
     heap stays valid whatever the answer. One spare frame or slot, or nothing on swap, sees it through.
     */
    method MemoryCpy(dst: nat, src: seq<byte>, pid: nat) returns (r: Outcome<Copy>)
      requires Valid()
      modifies this`tables, this`segmentoClock, this`paginaClock, frames, bitmap, bitmapSwap, swap
      ensures Sane(old(St())) && |old(tables)| == |old(pids)| && PageLong(Flats(old(St())), old(tables), pageSize)
      ensures r.Done? ==>
        var i := H.IndexOf(old(pids), pid);
        if i == -1 then r.value == NoSegment && St() == old(St())
        else
          var f := Flats(old(St()));
          var g := Cpy(pageSize, |old(tables)[i]|, f[i], dst, src);
          r.value == g.0 && Evolves(old(St()), St(), pageSize, f[i := g.1])
      ensures r.Done? ==>
        var i := H.IndexOf(old(pids), pid);
        i != -1 ==> Answered(Flats(old(St()))[i], pageSize, dst, src, r.value)
      ensures r.Done? ==>
        var i := H.IndexOf(old(pids), pid);
        i != -1 ==> forall k: nat | k < |old(chains)[i]| && Addr(old(chains)[i], k) + HEADER == dst ::
          Valid() && Abs() == old(Abs()) && Served(Flats(old(St())), Flats(St()), old(chains), i, k, src, r.value)
      ensures old(Available(St())) > 0 || Resident(old(tables)) ==> r.Done?
      ensures r.Done? ==>
        var i := H.IndexOf(old(pids), pid);
        i != -1 ==> Stamped(old(tables), tables, pageSize, i, dst, |src|, r.value)
    {
      hide Resident;
      hide Exclusive;
      hide Flats;
      hide Available;
      hide Cpy;
      hide PageStart;
      hide Tiled;
      hide Kept;
      hide Live;
      hide Addr;
      hide Served;
      hide Stamped;
      hide Answered;
      ghost var st0 := St();
      SegmentLengths(st0, pageSize);
      var s := SearchProgram(pid);
      if s == -1 {
        return Done(NoSegment);
      }
      r := Copiar(s, dst, src);
      if r.Done? {
        CpyExact(pageSize, |st0.tables[s]|, Flats(st0)[s], dst, src);
        SameShapeCount(st0.tables, tables);
        CpyServed(pageSize, |st0.tables[s]|, Flats(st0), chains, s, dst, src);
      }
    }

    /** `memory_get` once the program is found. */
    method Leer(s: nat, src: nat, n: nat) returns (r: Outcome<Fetched>)
      requires Ready() && Sane(St()) && s < |tables|
      modifies this`tables, this`segmentoClock, this`paginaClock, frames, bitmap, bitmapSwap, swap
      ensures r.Done? ==> Evolves(old(St()), St(), pageSize, Flats(old(St())))
      ensures r.Done? ==> r.value == Get(Flats(old(St()))[s], src, n)
      ensures old(Available(St())) > 0 || Resident(old(tables)) ==> r.Done?
    {
      hide Resident;
      hide Exclusive;
      hide Sane;
      hide Flats;
      hide Available;
      hide PageStart;
      hide Pages;
      hide PageOf;
      hide OffsetOf;
      ghost var st0 := St();
      EvolvesSelf(st0, pageSize);
      SegmentLengths(st0, pageSize);
      var limite := PageStart(|tables[s]|, pageSize);
      if src > limite {
        return Done(Missing);
      }
      if limite < src + n {
        return Done(TooLong);
      }
      var numPage, offset := PageOf(src, pageSize), OffsetOf(src, pageSize);
      var paginas := Pages(offset + n, pageSize);
      GetCovers(pageSize, src, n, |tables[s]|);
      var buffer :- Volcar(s, numPage, paginas);
      Inner(Flats(st0)[s], PageStart(numPage, pageSize), PageStart(numPage + paginas, pageSize), offset, n);
      return Done(Got(buffer[offset..offset + n]));
    }

    /** `memory_get`, exactly as on flat bytes. */
    method MemoryGet(src: nat, n: nat, pid: nat) returns (r: Outcome<Fetched>)
      requires Valid()
      modifies this`tables, this`segmentoClock, this`paginaClock, frames, bitmap, bitmapSwap, swap
      ensures Sane(old(St())) && |old(tables)| == |old(pids)|
      ensures r.Done? ==> Valid() && Abs() == old(Abs()) && Evolves(old(St()), St(), pageSize, Flats(old(St())))
      ensures r.Done? ==>
        var i := H.IndexOf(old(pids), pid);
        r.value == if i == -1 then Missing else Get(Flats(old(St()))[i], src, n)
      ensures old(Available(St())) > 0 || Resident(old(tables)) ==> r.Done?
    {
      hide Resident;
      hide Exclusive;
      hide Flats;
      hide Available;
      hide PageStart;
      hide Tiled;
      hide Get;
      ghost var st0 := St();
      EvolvesSelf(st0, pageSize);
      var s := SearchProgram(pid);
      if s == -1 {
        return Done(Missing);
      }
      r := Leer(s, src, n);
      if r.Done? {
        SameShapeCount(st0.tables, tables);
      }
    }
  }
}
