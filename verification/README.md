# A verified model of MUSE, SUSE, SAC and their call codec

The repository is three operating-system servers written in C and the binary codec their
clients speak. This project models the part of each that decides something, and proves what it
promises.

- **MUSE** (`memoria/main_memory.c`) gives every program a heap segment: a chain of 5-byte
  headers laid over fixed-size pages, each page in a memory frame or in a slot of the swap file,
  with a modified clock choosing victims. Modules `Bytes`, `Sizes`, `Chain`, `Layout`, `Clock`,
  `Paging`, `Segments`, `Headers`, `Heap`, `Copies`, `Views`, `Traces`, `Accesses`, `Assured`,
  `Ranges`, `Guarantees`, `Shortages`; class `Muse.Memory` is the server.
- **SUSE** (`planificador/suse.c`) schedules user-level threads: five states, a new queue, a
  ready list and an executing slot per process, counting semaphores, joins, a multiprogramming
  cap and shortest job first over exponentially averaged bursts. Modules `Scheduler`,
  `Agreement`, `Joins`, `Effects`, `Runs`, `Bursts`, `Estimates`; class `Suse.Planificador` is the server.
- **SAC** (`filesystem/sac_handlers.c`) keeps files as up to 1000 pointer blocks of 1024 data
  blocks each, with a bitmap of taken blocks and directories by parent link. Modules `Inodes`,
  `Files`, `Overwrites`, `Removal`, `Reads`, `Histories`; class `Sac.Disco` is the disk.
- **The codec** (`utils_suse/message.c`) writes and reads calls with a variable argument list.
  Modules `Codec`, `Wire`.

Code that changes things in place is a class, or a method on an array, that makes the same
changes in the same order, loop for loop. Each such method is tied to a function from the old
state to the new one, and what the source promises is proved about those functions: for one
call, for every pair of calls that must agree, and over every run.

What an operation does is also said apart from the function it is tied to, in plain terms and
with the numbers written out: the bytes of a heap header (`Layout.HeaderLayout`), of a message
(`Wire`) and of a file (`Reads.ByteLies`), the answer and the state of every `memory_malloc`
(`Heap.MallocExact`) and `memory_cpy` (`Copies.CpyExact`), and what each request to the scheduler
leaves where (`Effects`).

How the layers of MUSE fit: `Chain` treats a segment as a list of blocks; `Layout` ties that
list to bytes; `Segments` ties bytes to pages wherever they are; `Headers` does so for the one
write that takes two page loads; `Heap` is all of it as a client sees it, pages only counted.

A method of `Muse.Memory` that may load pages answers `Corrupted` where the model stops: a victim
found no swap slot, or a header write was torn. When that is, is exact. `Accesses` gives, for every
routine, the list of page loads, header writes and new pages it makes, as a function of the chain
and the request alone; `Traces.Clean` says that all accesses of a list go through, each in the
state the ones before it leave; and each method ensures that it answers `Done` if and only if its
list is clean, and then leaves exactly the state the list leads to. `Assured.UntornExact` reads
that as: no header write tears in the state it is made in. From it follow guarantees a caller can
check beforehand (`Guarantees.RequestGoes`, `Guarantees.ReleaseGoes`), and that with the repair,
which writes each half of a cut header before the other page is loaded, `memory_malloc` and
`memory_free` always go through while pages stay below frames plus slots. The repair is the field
`reparado`; false is the source.

## Where the code falls short of its intent

The code is modelled as it is. Where it does not do what its names, comments or callers expect,
the exact condition is proved, for all inputs.

- Compaction merges a free tail into the block before it without looking at that block
  (`memoria/main_memory.c:1029-1032`, with `681-686`): an allocated block swallows the tail.
  `Chain.CompactPassExact` and `Chain.FreeExact` say exactly when (a free keeps the chain sound
  only for the last block before the tail); `Heap.OtherFreeBreaks` says the same of the whole
  server; in `Heap.GrantedTwice` three small requests and one free lead to an address granted to
  a program that still uses it. With the guard its names imply, every free of a live block keeps
  the heap (`Chain.GuardedPassMeaning`, `Heap.RunKeeps` with `guarded`), over pages as well: the
  field `guardado` of `Muse.Memory`, false in the source, puts the guard in place, and
  `Muse.Memory.MemoryFree` says of both.
- `modificar_metadata` keeps a pointer into the first page across the load of the second
  (`memoria/main_memory.c:480-488`): the write is torn exactly when that load evicts the first
  page (`Headers.WriteHeaderExact`, `Headers.TornByte`). On a server with one frame every header
  over a page's end is torn, and the very first request can be (`Shortages.OneFrameExact`,
  `Shortages.FirstRequestTears`). Reading a header copies first and is always right.
- With the swap file full the victim's frame is handed out although the victim keeps it
  (`memoria/main_memory.c:395-404`): `Paging.LoadExact` and `Paging.AddPageExact`, and
  `Shortages.LoadShares` and `Shortages.NewPageShares` on the smallest servers. A load needs its
  slot before it frees its own, so pages must stay strictly below frames plus slots
  (`Paging.RoomToLoad`).
- `memory_malloc` checks its guard again after growing, when the pages just added no longer
  count as free, so a request that the segment could now serve is refused
  (`Heap.MallocGranted`, `Heap.RefusedAfterGrowing`).
- Creating a first segment reserves five bytes more than the guard counted
  (`memoria/main_memory.c:713`, `929-930`). On sound chains that is the one way to overrun what
  there is, and `Heap.OverrunExact` says exactly when; in `Heap.OverrunHappens` one free page is
  asked for 27 bytes and two are taken, which then share a frame (`Shortages.NewPageShares`). On a
  chain whose last block has swallowed the tail a request can also rewrite the last header shorter
  and add nothing (`Heap.SwallowOverruns`). The theorems about runs leave both out by name.
- `memory_cpy` fixes the pages it goes through from the length asked for, before it reads the header
  (`memoria/main_memory.c:1346-1362`): a copy too long for the segment is answered -1 only when its
  header is on the first page, and otherwise follows a page that is not there, as does one to an
  address below 5. `Copies.CpyExact` says which addresses and lengths get which answer.
- Closing a thread that is blocked leaves it in `joinedBy` or `BLOCKED_LIST`
  (`Joins.CloseExact`), and a wait on an empty semaphore is sound only for the executing thread
  (`Joins.WaitExact`). A joiner released into a full system goes to the new queue but stays in
  the blocked queue and in the count (`planificador/suse.c:759-766`): the counter is exactly the
  busy threads plus the entries of the blocked queue, stale ones included
  (`Agreement.RequeuedAgrees`), hence an upper bound on the threads admitted (`Runs.CapHolds`).
- The bitmap has 32768 bits for every block it fills (`filesystem/sac_servidor.c:42-74`), and both
  `get_bloque_vacio` and `cantidad_bloques_libres` go through all of them
  (`filesystem/sac_handlers.c:719-758`): a disk of 12800 blocks counts another 19968 as free unless
  their bits are set beforehand. `Files.RoomExact` says when the count is right, `Files.TakeExact`
  when the block found is on the disk, `Files.AppendExact` what that makes of an append, and in
  `Histories.FullDiskGoesOn` a full disk of three blocks hands out one behind its end. A run of requests that
  asks for no more than the disk has, or starts with those bits set, never meets one
  (`Histories.LifeKeeps`).
- Appending a full block or more to a file that does not end at a block's end writes at the
  block's start (`filesystem/sac_handlers.c:901-902`): `Files.AppendExact`, with a file of one
  byte in `Histories.LongAppendFails`. Reading from inside a block past its end runs into the next
  block of the disk and shifts what follows: `Reads.ReadExact`, with a file of 4098 bytes in
  `Histories.LongReadFails`.
- Before the end of a file the loop still reckons with the space of its last block
  (`filesystem/sac_handlers.c:860-863`, `906-918`): where that is too little it writes what fits and
  then turns for ever, and a block or more lands at the start of its block. `Overwrites.OverwriteExact`
  says exactly which of these writes end and are right; in `Histories.OverwriteHangs` one byte written
  over the first one of a file of 4096 does not end.
- Unlinking an empty file gives neither of its two blocks back (`Removal.EraseCount`,
  `Histories.UnlinkLeaks`), and unlinking a file whose last pointer block is full clears bit 0 as
  well (`Removal.EraseExact`, `Histories.UnlinkFreesTheHeader`).
- The error reply's type -1 arrives as 255 (`Codec.RoundTripExact`, `Codec.ErrorArrives`).

## Model

| member | source | states |
|---|---|---|
| `Chain.FirstFitLowest` | memoria/main_memory.c:604-644 | On a chain whose last block is free and whose free blocks never touch, the search returns the lowest free block that is large enough, or -1 exactly when there is none |
| `Chain.FirstFitExact` | memoria/main_memory.c:604-644 | On an arbitrary chain the search answers every size rightly if and only if the next-to-last block, which it never tests, is not a free block larger than every free one before it, and a lone block is free |
| `Chain.LiveDisjoint` | memoria/main_memory.c:783-813 | Any two live allocations of a chain, headers included, occupy disjoint bytes |
| `Chain.LiveBounds` | memoria/main_memory.c:783-813 | Every live allocation lies inside the segment |
| `Chain.SplitKeeps` | memoria/main_memory.c:783-813 | Splitting a free block keeps the chain sound and its length, and adds exactly one allocation, which was not there before |
| `Chain.GrowKeeps` | memoria/main_memory.c:835-860 | Lengthening the last block keeps the chain sound, adds exactly the new bytes and touches no allocation |
| `Chain.GrownFits` | memoria/main_memory.c:835-872 | After growing, the retry finds a block |
| `Chain.CompactPassMeaning` | memoria/main_memory.c:1012-1108 | One pass of the compactor, for every chain, equals merging every maximal run of free blocks, after a free tail has been swallowed by an allocated block right before it |
| `Chain.CompactPassExact` | memoria/main_memory.c:1012-1108 | A pass keeps the length and leaves no two free neighbours, always; it keeps the allocations, and the free tail, if and only if no allocated block stands right before that tail |
| `Chain.GuardedPassMeaning` | memoria/main_memory.c:1012-1108 | With the guard its names imply, a pass merges the maximal runs of free blocks and does nothing else |
| `Chain.GuardedFreeKeeps` | memoria/main_memory.c:1110-1144 | Then freeing any live block of a sound chain keeps it sound and releases that block alone |
| `Chain.FreeExact` | memoria/main_memory.c:1110-1144 | Freeing a block of a sound chain leaves a sound chain, and releases that allocation and nothing else, if and only if it is the last block before the tail |
| `Chain.FreeAsExact` | memoria/main_memory.c:1012-1144 | Freeing a live block of a sound chain keeps it sound and releases that block alone if and only if the compactor is guarded or the block is the one before the tail |
| `Layout.HeaderRoundTrip` | memoria/main_memory.c:465-583 | A header read from the five bytes of a header is that header |
| `Layout.HeaderLayout` | memoria/main_memory.c:465-583 | The five bytes of a header are its size, the lowest byte first, and 1 if the block is free or 0 if it is not; whatever the bytes, that is how they are read |
| `Layout.TilesUnique` | memoria/main_memory.c:585-602 | Bytes are tiled by one chain at most, so the chain of a segment is a fact about its bytes |
| `Layout.SplitTiles` | memoria/main_memory.c:783-813 | The two header writes of a split turn bytes tiled by the chain into bytes tiled by the split chain, and no live payload changes |
| `Layout.MergeTiles` | memoria/main_memory.c:1029-1070 | The two header writes of a merge do the same for the merged chain |
| `Layout.MarkTiles` | memoria/main_memory.c:1110-1144 | Marking a block free rewrites one header and no payload |
| `Layout.GrowTiles` | memoria/main_memory.c:835-860 | Rewriting the last header before its pages exist, then appending them, gives bytes tiled by the grown chain |
| `Layout.PayloadWrite` | memoria/main_memory.c:1388-1412 | A write inside the payload of a live allocation keeps the tiling and every other payload |
| `Clock.Victim` | memoria/main_memory.c:305-375 | With some page present the search ends within four passes on a present page |
| `Clock.VictimMeaning` | memoria/main_memory.c:305-375 | Who is chosen, said of the tables before the search: the first (0,0) page behind the hand; else the first (0,1) page anywhere; else the first present page that is unmodified, or the first present page when all are modified; and which use bits are cleared |
| `Clock.FindFirst` | memoria/main_memory.c:305-375 | A pass finds a page that is wanted whenever one lies ahead, and none before it |
| `Paging.EvictKeeps` | memoria/main_memory.c:378-446 | With a slot free, eviction keeps frames and slots exclusive, changes no logical byte, frees that frame and leaves free frames plus free slots as they were |
| `Paging.ReplaceKeeps` | memoria/main_memory.c:305-405 | The same for the victim search and the eviction together |
| `Paging.LoadKeeps` | memoria/main_memory.c:1165-1227 | A load that has room keeps everything exclusive, brings the page in and changes no logical byte |
| `Paging.LoadExact` | memoria/main_memory.c:1165-1227 | A load keeps frames and slots exclusive if and only if the page is present, or a frame or a slot is free; otherwise two pages end on one frame and the victim shows the loaded bytes |
| `Paging.WriteFrameKeeps` | memoria/main_memory.c:465-516 | Writing the frame of a present page changes the bytes of that page alone |
| `Paging.AddPageKeeps` | memoria/main_memory.c:252-282 | A new page takes one frame, moves no old byte and costs one of what is free |
| `Paging.AddPageExact` | memoria/main_memory.c:252-282 | Adding a page keeps frames and slots exclusive if and only if a frame or a slot is free |
| `Paging.LoadBalanced` | memoria/main_memory.c:1165-1227 | Free frames plus free slots plus heap pages is constant under loads |
| `Paging.AddPageBalanced` | memoria/main_memory.c:252-282 | And under new pages |
| `Paging.RoomToLoad` | memoria/main_memory.c:194-234 | While pages stay strictly below frames plus slots, every load finds room |
| `Paging.LoadMarks` | memoria/main_memory.c:305-446 | No search for a victim, eviction or load sets or clears a modified bit |
| `Paging.BroughtIn` | memoria/main_memory.c:1165-1227 | A page there already is left alone, hand and bits included; one brought in from swap, or a new one, is present and counts as just used |
| `Segments.LoadInvisible` | memoria/main_memory.c:1165-1227 | A load that finds room changes no byte of any segment, seen as one flat run |
| `Segments.AddPageFlat` | memoria/main_memory.c:252-282 | A new page lengthens its own segment at the end and touches no other |
| `Segments.WriteFrameFlat` | memoria/main_memory.c:465-516 | A write through a present frame is a write at the flat address, and no other segment sees it |
| `Headers.WriteHeaderFlat` | memoria/main_memory.c:465-516 | A header write that is not torn is the flat write of five bytes, whatever pages it straddles and whatever is evicted on the way |
| `Headers.WriteHeaderOther` | memoria/main_memory.c:465-516 | And it leaves every other segment as it was |
| `Headers.WriteHeaderExact` | memoria/main_memory.c:476-500 | The write is right for every header if and only if it is not the case that it straddles two pages, the second is on swap, no frame is free and the clock picks the first |
| `Headers.TornByte` | memoria/main_memory.c:476-500 | A torn write never reaches the first byte of the header |
| `Assured.PutExact` | memoria/main_memory.c:476-500 | With a frame or a slot free, a header write goes through if and only if it does not tear |
| `Assured.UntornExact` | memoria/main_memory.c:465-1227 | With more frames and slots free than pages are added, a list of accesses goes through if and only if no write tears in the state it is made in |
| `Assured.AllGo` | memoria/main_memory.c:465-1227 | Then it goes through if no header written is cut by a page's end, and always with the repair |
| `Assured.ResidentAllGo` | memoria/main_memory.c:1165-1227 | With nothing on swap and frames for the new pages it goes through and evicts nothing |
| `Guarantees.WalksGo` | memoria/main_memory.c:585-697 | The walks over a chain go through while a frame or a slot is free, and with nothing on swap they move nothing |
| `Guarantees.ReleaseGoes` | memoria/main_memory.c:1110-1144 | A free, with the compactor as it is or guarded, goes through, with a frame or a slot free, when no header of its chain is cut or the repair is in place, and whenever nothing is on swap |
| `Guarantees.RequestGoes` | memoria/main_memory.c:708-976 | A request short of an overrun goes through when more frames and slots are free than it adds pages and no header it leaves is cut, or the repair is in place |
| `Shortages.HeaderTears` | memoria/main_memory.c:476-500 | One frame, two slots, two pages of 8 bytes: the header at 6 is torn |
| `Shortages.OneFrameExact` | memoria/main_memory.c:465-516 | On a server with one frame everything goes through if and only if no header written is cut |
| `Shortages.FirstRequestTears` | memoria/main_memory.c:708-976 | So the first request for one byte on such a server tears a header, and with the repair it does not |
| `Shortages.LoadShares` | memoria/main_memory.c:1165-1227 | One frame, one slot, two pages: loading the page on swap leaves two pages on one frame |
| `Shortages.NewPageShares` | memoria/main_memory.c:252-282 | One frame, no slot: a second page is given the frame of the first, which keeps it |
| `Heap.MallocKeeps` | memoria/main_memory.c:708-976 | On sound chains, short of an overrun: all chains stay sound; bytes in segments and in free pages add up as before; what is granted is new; every program keeps all its other allocations |
| `Heap.OverrunExact` | memoria/main_memory.c:713-951 | On sound chains a request overruns if and only if it is positive, its program is unknown, the guard lets it through and the first segment needs more pages than are free |
| `Heap.OverrunHappens` | memoria/main_memory.c:922-951 | One free page of 32 bytes, a new program, 27 bytes: the guard passes and two pages are needed |
| `Heap.SwallowOverruns` | memoria/main_memory.c:838-846 | After a swallow a request can find a last block too long for it and grow by a negative number of pages |
| `Heap.MallocGranted` | memoria/main_memory.c:708-976 | A request is granted if and only if its size is positive, the pages it adds are there, and what is then left still covers the whole request |
| `Heap.MallocExact` | memoria/main_memory.c:708-976 | The whole answer and state of a request on sound chains, short of an overrun: 0 for no size, a refusal for more than the free pages hold; else the heap is as it was where a free block is long enough, or has a first segment, or a longer last block, of as few pages as do; there it is refused, or granted at the head of the first free block that is long enough, split in two |
| `Heap.RefusedAfterGrowing` | memoria/main_memory.c:713-719 | A concrete request refused although the tail just grown would hold it |
| `Heap.StepKeeps` | memoria/main_memory.c:708-1144 | One malloc that does not overrun, or one free of the block before a tail, with the guard of any live block: sound chains, bytes conserved, live allocations as the client would write them down |
| `Heap.RunKeeps` | memoria/main_memory.c:708-1144 | Over every run of such events, with the compactor as it is or guarded: all chains sound, bytes conserved, each program holding exactly the allocations its own requests account for |
| `Heap.OtherFreeBreaks` | memoria/main_memory.c:1110-1144 | As the source stands any other free ends soundness at that step, and only those do |
| `Heap.ThriceIs` | memoria/main_memory.c:708-976 | Three requests for 3 bytes, from an empty server with 32-byte pages; the third is granted address 21 |
| `Heap.GrantedTwice` | memoria/main_memory.c:846 | Then the first is freed, the third swallows the tail, and a request for 20 bytes is granted address 21 again |
| `Copies.CpyLive` | memoria/main_memory.c:1293-1442 | A copy into a live allocation, no longer than it, succeeds, and keeps the chain, every other payload and every byte outside the target |
| `Copies.CpyThenGet` | memoria/main_memory.c:1293-1442 | What was copied is what a read of as many bytes then returns, for any page alignment |
| `Copies.CpyThenGetOther` | memoria/main_memory.c:1843-1942 | A read of another live allocation returns what it did before the copy |
| `Copies.SpanCovers` | memoria/main_memory.c:1346-1385 | The pages loaded cover the header, on the page before if need be, and the whole payload |
| `Copies.CpyExact` | memoria/main_memory.c:1293-1442 | The answer to every copy to any address: past the segment there is none, below 5 or where page or buffer ends before the bytes do it faults, and otherwise it goes through if and only if the byte before the address is 0 and the four before that hold a number no smaller than the length; only then do bytes change, and those alone |
| `Copies.CpyAnswers` | memoria/main_memory.c:1364-1412 | To the payload of any block of a tiled segment, from a source of any length: it goes through if and only if the block is allocated and no shorter than the source; the segment stays tiled by the same chain and every other payload as it was, whatever the answer |
| `Copies.GetExact` | memoria/main_memory.c:1843-1942 | Which reads are answered, and byte for byte with what |
| `Muse.Memory.constructor` | memoria/main_memory.c:32-81 | A new server has everything free, exclusive and balanced |
| `Muse.Memory.NumberOfFreeFrames` | memoria/main_memory.c:194-234 | Counts free frames and free slots |
| `Muse.Memory.NumberOfFreeFramesUpcm` | memoria/main_memory.c:151-192 | Counts free frames alone |
| `Muse.Memory.BuscarVictima` | memoria/main_memory.c:305-375 | The loops of the clock choose the page, the use bits and the number of passes of `Clock.Victim` |
| `Muse.Memory.SeHaceLaVistima` | memoria/main_memory.c:378-405 | Eviction in place is the eviction proved exclusive, and reports a full swap file |
| `Muse.Memory.DameNroFrameReemplazado` | memoria/main_memory.c:305-375 | Victim search and eviction together, in four passes at most |
| `Muse.Memory.PageWithFreeSize` | memoria/main_memory.c:252-282 | The page handed out, its frame taken, and whether its victim found a slot |
| `Muse.Memory.ObtenerDataMarcoHeap` | memoria/main_memory.c:1165-1227 | The load in place is the load proved invisible, and it is sound if and only if the page is there or a frame or a slot is free |
| `Muse.Memory.BuscarCortada` | memoria/main_memory.c:541-583 | A header across two pages is read as it lies on the flat bytes, whatever the two loads evict, if and only if both find room |
| `Muse.Memory.BuscarMetadata` | memoria/main_memory.c:518-583 | Any header is read as it lies on the flat bytes |
| `Muse.Memory.ModificarMetadata` | memoria/main_memory.c:465-516 | The write is the flat write and nothing else changes; as in the source it goes through if and only if it is not torn |
| `Muse.Memory.ModificarPorPartes` | memoria/main_memory.c:465-516 | The repaired write, half by half, is the flat write and goes through if and only if both loads find room |
| `Muse.Memory.UltimaMetadataSegmento` | memoria/main_memory.c:585-602 | Returns the address of the last block of the chain the bytes hold, if and only if its reads go through, which they do with a frame or a slot free |
| `Muse.Memory.ProximaMetadataLibreConSize` | memoria/main_memory.c:604-644 | The walk over pages returns the block `Chain.FirstFit` names and changes no byte, if and only if its reads go through, which they do with a frame or a slot free |
| `Muse.Memory.ProximaMetadataLibre` | memoria/main_memory.c:673-697 | The walk returns the block `Chain.NextFree` names and changes no byte, under the same condition |
| `Muse.Memory.ListarMetadatas` | memoria/main_memory.c:646-671 | The log of a segment's headers goes through if and only if its page loads do, and changes no byte |
| `Muse.Memory.CompactarEnSegmento` | memoria/main_memory.c:1012-1080 | Goes through if and only if the accesses of `Accesses.Squeeze` do; then the bytes hold the compacted chain, of the compactor as it is or guarded, and no live payload and no other segment changes |
| `Muse.Memory.CompactarEspaciosLibres` | memoria/main_memory.c:1082-1108 | The same for a whole pass and `Accesses.Pass` |
| `Muse.Memory.MemoryFree` | memoria/main_memory.c:1110-1144 | Goes through if and only if the accesses of `Accesses.Release` do, those of the final log included, always with the repair or an uncut chain while a frame or a slot is free, and always with nothing on swap; then what a client sees is the free of `Heap.Step`, no other segment changes and no other live payload does; and a sound chain stays sound and loses this allocation alone if and only if the compactor is guarded or the block is the one before the tail |
| `Muse.Memory.AgregarPaginas` | memoria/main_memory.c:849-860 | Adds the pages if and only if there are frames and slots enough, behind the bytes that were there |
| `Muse.Memory.SegmentWithFreeSpace` | memoria/main_memory.c:978-1010 | Says whether first fit finds room, and changes no byte |
| `Muse.Memory.Ocupar` | memoria/main_memory.c:783-813 | Goes through if and only if the accesses of `Accesses.Occupy` do; then the bytes hold the split chain and no live payload changes |
| `Muse.Memory.Agrandar` | memoria/main_memory.c:835-860 | Stops on a last block that is long enough; otherwise goes through if and only if the accesses of `Accesses.Enlarge` do, and then the segment holds the grown chain, by as many pages as the last block lacks |
| `Muse.Memory.NuevoSegmento` | memoria/main_memory.c:922-961 | Goes through if and only if the accesses of `Accesses.Begin` do; then there is a new segment of one free block, and no old byte changes |
| `Muse.Memory.MemoryMalloc` | memoria/main_memory.c:708-976 | Short of an overrun, goes through if and only if the accesses of `Accesses.Request` do: always with the repair, or leaving no cut header, while pages stay below frames plus slots, and always with nothing on swap and frames enough. Then reply and client-visible state are those of `Heap.Malloc`, every segment stays tiled by its chain, and no allocation of a sound chain loses a byte |
| `Muse.Memory.MemoryCpy` | memoria/main_memory.c:1293-1442 | The copy through pages is the flat copy for every address, with the answer that `Copies.CpyExact` tells from the bytes, leaves the other segments alone and sets the modified bits of the pages it wrote and no other; to the payload address of any block, whatever the length, the server stays valid, the copy goes through if and only if the block is allocated and long enough, and every other payload stays; one free frame or slot sees it through |
| `Muse.Memory.MemoryGet` | memoria/main_memory.c:1843-1942 | The read through pages is the flat read for every address and length, and changes no byte |
| `Scheduler.RemoveCounts` | planificador/suse.c:1362-1418 | Taking a thread off a list takes one occurrence and nothing else |
| `Agreement.NewToReadyAgrees` | planificador/suse.c:1389-1407 | Admitting a new thread keeps every thread in the one place its state names, `semaforoReady` equal to the ready list, and the count exact |
| `Agreement.NewToExecuteAgrees` | planificador/suse.c:1211-1234 | So does sending a process's first thread straight to execution |
| `Agreement.BlockedToReadyAgrees` | planificador/suse.c:1256-1265 | So does waking a blocked thread |
| `Agreement.ExecuteToReadyAgrees` | planificador/suse.c:1236-1254 | So does putting the executing thread back |
| `Agreement.ExecuteToBlockedAgrees` | planificador/suse.c:1268-1296 | So does blocking the executing thread |
| `Agreement.ReadyToExecuteAgrees` | planificador/suse.c:1187-1209 | So does dispatching a ready thread once `sem_wait` has taken its count |
| `Agreement.ToExitAgrees` | planificador/suse.c:1081-1185 | So do the four exits, of which the one from ready therefore finds its count and never waits |
| `Agreement.BornAgrees` | planificador/suse.c:591-613 | So does creating a thread |
| `Agreement.RequeuedAgrees` | planificador/suse.c:759-766 | So does queueing a blocked joiner as new, provided its old entry in the blocked queue stays counted |
| `Joins.UnjoinAllKeeps` | planificador/suse.c:721-771 | Releasing the joiners wakes every one of them, ready or at the end of the new queue, and changes no other thread |
| `Joins.CloseKeeps` | planificador/suse.c:615-719 | Closing a live thread that is not blocked, or has only joined itself, keeps queues, waits and cap |
| `Joins.CloseExact` | planificador/suse.c:615-719 | And it keeps them if and only if that is the case |
| `Joins.CloseReleases` | planificador/suse.c:658-712 | A close touches the thread, exactly the joiners whose target it was, and at most the head of the new queue |
| `Joins.JoinKeeps` | planificador/suse.c:490-517 | A join keeps `joinTo` and `joinedBy` mirrored, each thread waiting on one join or one semaphore but not both |
| `Joins.WaitKeeps` | planificador/suse.c:1052-1078 | A wait by the executing thread, or one that does not block, keeps the invariant |
| `Joins.WaitExact` | planificador/suse.c:1052-1078 | And only those do: it is kept if and only if the semaphore is unknown, or above 0, or the thread is executing |
| `Joins.SignalKeeps` | planificador/suse.c:996-1050 | A signal keeps it: value at most the maximum, as many threads held as the value is below 0 |
| `Joins.CreateKeeps` | planificador/suse.c:519-613 | Creating a thread whose number no live thread has keeps it, and the new queue stays empty below the cap |
| `Joins.NextKeeps` | planificador/suse.c:848-889 | `schedule_next` keeps it whenever it does not have to wait |
| `Joins.NextEnabled` | planificador/suse.c:848-866 | On agreeing queues it need not wait if and only if the process executes or has a ready thread |
| `Joins.ExampleBreaks` | planificador/suse.c:615-719 | A concrete sound state in which closing a joiner, or having it wait as well, breaks the invariant |
| `Effects.CreateEffect` | planificador/suse.c:519-613 | Where a created thread ends up: below the cap the first of an unknown process executes, its burst starting now, and another is the last of its ready list; at the cap it is new and last in the new queue; one more is counted exactly below the cap, and no other thread, list or process changes |
| `Effects.JoinEffect` | planificador/suse.c:490-517 | Where the process executes a thread and the target lives, that thread is blocked, waits for the target and is listed by it, its burst ends, it is last in the blocked queue and the process executes nobody; otherwise nothing happens at all |
| `Effects.WaitEffect` | planificador/suse.c:1052-1078 | A wait is answered -1, and changes nothing, if and only if no semaphore has the name; else the value is one less, and from 0 down the thread is blocked, last in that semaphore's list and in the blocked queue, and its process executes nobody; above 0 nothing else changes |
| `Effects.SignalEffect` | planificador/suse.c:996-1050 | A signal is answered -1, and changes nothing, if and only if no semaphore has the name or it is at its maximum; else the value is one more and the first thread of its list, if any, leaves it and the blocked queue and is the last of the ready |
| `Effects.CloseEffect` | planificador/suse.c:615-719 | A thread that closes is last in the exit queue; one that leaves through the new queue only leaves it, and any other gives its place to the head of the new queue, or is counted off when nobody is queued |
| `Effects.CloseRearranges` | planificador/suse.c:658-806 | And what each process then executes and has ready, in which order: the joiners released, unless the system is full, and the thread admitted |
| `Effects.NextEffect` | planificador/suse.c:848-937 | After a dispatch the process executes the thread returned, and no queue, semaphore, other process or list of joins has moved |
| `Runs.InitialSound` | planificador/suse.c:278-294 | The server starts sound |
| `Runs.RunKeeps` | planificador/suse.c:396-434 | Over every run of allowed requests, numbers used again included: queue agreement, mirrored joins, sound semaphores, and a new queue that is empty below the cap |
| `Runs.CapHolds` | planificador/suse.c:789-794 | Threads that are ready, executing or blocked never outnumber the counter, nor the counter the cap |
| `Runs.RunSettles` | planificador/suse.c:996-1078 | Over every run a semaphore's value is what it was less the waits on it that were asked for plus the signals on it below its maximum, and threads wake in the order in which they fell asleep on it |
| `Bursts.NextPicks` | planificador/suse.c:848-937 | The thread dispatched has the least refreshed estimate of all candidates and is the first of those; the rest stay, a permutation in order of estimate |
| `Bursts.SortedAscends` | planificador/suse.c:914-937 | Sorting by the source's comparison orders by estimate |
| `Estimates.WeightedWithin` | planificador/suse.c:907-912 | The exponentially weighted sum lies between 0 and the longest burst |
| `Estimates.RunFair` | planificador/suse.c:848-912 | Over every run, against a stopwatch held to each thread and reset when its number is given anew: a burst is kept as a duration once it ends, and is folded into the estimate once |
| `Estimates.EstimatesAreBursts` | planificador/suse.c:848-937 | From the start of the server, every estimate is the weighted sum of the finished bursts, all or all but the one kept aside, and lies between 0 and the longest |
| `Suse.Planificador.constructor` | planificador/suse.c:278-294 | A new server is in the initial state |
| `Suse.Planificador.EliminarULTColaActual` | planificador/suse.c:1340-1360 | Removes the thread from the list its state names |
| `Suse.Planificador.SuseCreate` | planificador/suse.c:519-613 | Creates the thread where `Effects.CreateEffect` says, and keeps the invariant, for a number no live thread of the process has |
| `Suse.Planificador.SuseJoin` | planificador/suse.c:490-517 | Blocks the executing thread on a live target, or does nothing, as `Effects.JoinEffect` says, and keeps the invariant |
| `Suse.Planificador.DesjoinearHilo` | planificador/suse.c:734-771 | Releases one joiner, to ready or to new by the cap |
| `Suse.Planificador.CloseTid` | planificador/suse.c:615-719 | Closes the thread; sound afterwards if and only if it was not blocked or had only joined itself, and then every thread is as `Joins.Released` says and every queue and list as `Effects.CloseEffect` and `Effects.CloseRearranges` do |
| `Suse.Planificador.DecrementarSemaforo` | planificador/suse.c:1052-1078 | Waits on a semaphore as `Effects.WaitEffect` says; sound afterwards if and only if the thread executes or need not block |
| `Suse.Planificador.SignalSemaforo` | planificador/suse.c:996-1050 | Signals a semaphore and wakes its first thread as `Effects.SignalEffect` says, and keeps the invariant |
| `Suse.Planificador.EstimarULTsListos` | planificador/suse.c:896-912 | The loop folds every pending burst of the list once |
| `Suse.Planificador.ObtenerProximoEjecutar` | planificador/suse.c:848-889 | Dispatches the least estimate, moves nothing that `Effects.NextEffect` leaves alone, and keeps the invariant |
| `Inodes.DeleteDir` | filesystem/sac_handlers.c:451-472 | The recursive removal ends: live nodes decrease |
| `Inodes.DeleteExact` | filesystem/sac_handlers.c:451-472 | It deletes the target and exactly the nodes that parent links lead up from to it through live directories; every other node is as it was |
| `Inodes.DeleteBits` | filesystem/sac_handlers.c:378-472 | A bit falls if and only if it belongs to a file so deleted |
| `Files.TakeKeeps` | filesystem/sac_handlers.c:719-741 | Whatever bit is taken, ownership stays as it was; with a block of the disk unmarked, the one taken is such a block and no file's, and one is counted off |
| `Files.TakeExact` | filesystem/sac_handlers.c:719-741 | A bit is found if and only if one of the data area's is unmarked, and it is a block of the disk if and only if one of those is a block of the disk |
| `Files.RoomExact` | filesystem/sac_handlers.c:743-758 | Blocks are counted as free that are not on the disk, if and only if a bit behind its last block is unmarked |
| `Files.AddNodeKeeps` | filesystem/sac_handlers.c:760-816 | A file gains one entry, and a pointer block when the last is full; ownership stays exclusive and marked, no other entry moves; below 2 GiB it fails only for want of a block, or goes past the disk's end exactly when the disk is full and its bitmap is not |
| `Files.AppendGood` | filesystem/sac_handlers.c:818-939 | An append that is block-aligned or short, on a disk that has the blocks or whose bitmap counts no others, leaves it sound with the buffer, or as much as there were blocks for, behind the file, every other file as it was and no bit behind the disk taken |
| `Files.AppendStrays` | filesystem/sac_handlers.c:901-918 | Any other append leaves the file without a block it should have, or stops at a pointer of 0 |
| `Files.AppendExact` | filesystem/sac_handlers.c:818-939 | So an append comes out right if and only if the file ends at a block's end or the buffer is shorter than a block, and the disk has the blocks it needs or its bitmap counts no others |
| `Files.CreateGood` | filesystem/sac_handlers.c:508-589 | With two blocks left on the disk a new file is empty and sound, its first block is wiped, and nothing else changes |
| `Files.CreateExact` | filesystem/sac_handlers.c:508-589 | A new file gets its block and pointer block if and only if the disk has two left |
| `Files.DirectoryGood` | filesystem/sac_handlers.c:508-589 | A new directory takes no block and changes no file |
| `Overwrites.OverwriteEnds` | filesystem/sac_handlers.c:818-939 | A write inside the file that runs over no block's end, or is a block long or more, ends if and only if what is left of it after its whole blocks is no more than the space in the last block; then it has landed at its place when shorter than a block, at the start of its block otherwise, and nothing else changed |
| `Overwrites.OverwriteExact` | filesystem/sac_handlers.c:818-939 | So it comes out right if and only if it ends, and starts at a block's start, or is shorter than a block, or reads the same from where it landed |
| `Overwrites.CrossEnds` | filesystem/sac_handlers.c:906-918 | A shorter one that runs over a block's end ends if and only if the last block has space for it and the disk has a block behind the one it starts in |
| `Overwrites.CrossRight` | filesystem/sac_handlers.c:906-918 | And is right where that block is the file's own next one |
| `Removal.EraseCount` | filesystem/sac_handlers.c:378-449 | Unlinking gives back ceil(s/4096) + ceil(s/4194304) blocks, all on the disk, and none for an empty file |
| `Removal.EraseExact` | filesystem/sac_handlers.c:378-449 | Of the data area exactly the file's own bits fall; below it only bit 0 can, if and only if the last pointer block is full |
| `Removal.EraseKeeps` | filesystem/sac_handlers.c:424-449 | Unlinking keeps the disk sound, and frees no bit behind it |
| `Removal.DeleteKeeps` | filesystem/sac_handlers.c:451-472 | So does removing a directory |
| `Removal.Survives` | filesystem/sac_handlers.c:451-472 | A file that is not under the directory reads as it did and keeps every block |
| `Reads.ReadRight` | filesystem/sac_handlers.c:645-717 | A read at a block's start, or inside one block, returns the file's bytes |
| `Reads.ReadRunsOn` | filesystem/sac_handlers.c:645-717 | A shorter read that crosses its block's end is right if and only if the next block of the disk starts like the file's next one |
| `Reads.ReadShifts` | filesystem/sac_handlers.c:645-717 | Behind its first 4096 bytes a read that is not at a block's start returns everything too early by the offset in the block |
| `Reads.ReadExact` | filesystem/sac_handlers.c:645-717 | Any read returns the file's bytes if and only if it is at a block's start, or inside one block, or every byte past its first block's end agrees, byte for byte, with where the code takes it from |
| `Reads.AppendAllGood` | filesystem/sac_handlers.c:818-939 | A run of appends leaves their concatenation behind the file, for exactly the blocks that many bytes need |
| `Reads.ByteLies` | filesystem/sac_handlers.c:645-717 | Where byte x of a file lies, in plain numbers: in the block whose number is in the four bytes from 4 * (x / 4096 % 1024) on, the lowest first, of pointer block x / 4194304, at x % 4096 |
| `Reads.WriteThenRead` | filesystem/sac_handlers.c:508-939 | A new file written by such a run reads back at any block's start as the concatenation, across pointer blocks |
| `Histories.FormattedSound` | filesystem/sac_handlers.c:719-758 | A formatted disk is sound, all of its data area free, whatever the bits behind it are |
| `Histories.StepKeeps` | filesystem/sac_handlers.c:378-939 | Making a file or a directory, appending, overwriting, unlinking or removing a directory keeps the disk sound, every file holding what was written to it, and the bits behind the disk set if they were |
| `Histories.LifeKeeps` | filesystem/sac_handlers.c:378-939 | So after any run of such requests from a formatted disk on, each file holds what was appended to it since it was made, with what was written over that |
| `Histories.LongAppendFails` | filesystem/sac_handlers.c:901-918 | A file of one byte and a whole block more: it does not come out right |
| `Histories.FullDiskGoesOn` | filesystem/sac_handlers.c:719-758 | A full disk of three blocks under eight bits counts five as free, finds a block behind its end, and an append is written there |
| `Histories.OverwriteHangs` | filesystem/sac_handlers.c:860-918 | One byte written over the first one of a file of 4096 keeps the loop turning for ever |
| `Histories.LongReadFails` | filesystem/sac_handlers.c:645-717 | 4097 bytes read from byte 1 of a file of 4098 are not its bytes |
| `Histories.UnlinkLeaks` | filesystem/sac_handlers.c:424-449 | A file made and unlinked empty costs two blocks for good |
| `Histories.UnlinkFreesTheHeader` | filesystem/sac_handlers.c:378-422 | A file of 4 MiB, unlinked, gives block 0 back as well |
| `Sac.Disco.GetBloqueVacio` | filesystem/sac_handlers.c:719-741 | Marks and returns the first unmarked bit of the data area, which is a block of the disk if and only if some block of it is left |
| `Sac.Disco.CantidadBloquesLibres` | filesystem/sac_handlers.c:743-758 | Counts the unmarked bits of the data area: the blocks left on the disk if and only if none behind it is unmarked |
| `Sac.Disco.AgregarNodo` | filesystem/sac_handlers.c:760-816 | Adds the entry in place |
| `Sac.Disco.EscribirArchivo` | filesystem/sac_handlers.c:818-939 | Writes in place at any offset; at the end of a file of a sound disk right if and only if the condition of `Files.AppendExact` holds, and before it if and only if that of `Overwrites.OverwriteExact` does |
| `Sac.Disco.EscribirPiezas` | filesystem/sac_handlers.c:856-923 | The loop makes the writes that those theorems are about, and stops where it would turn for ever |
| `Sac.Disco.LeerArchivo` | filesystem/sac_handlers.c:645-717 | The nested loops return what was asked for, and on a sound disk the file's own bytes if and only if the condition of `Reads.ReadExact` holds |
| `Sac.Disco.CrearNodo` | filesystem/sac_handlers.c:508-589 | Takes the first free node for a file or a directory, or reports a full table and changes nothing; a file is complete if and only if the disk has two blocks left |
| `Sac.Disco.BorrarContenido` | filesystem/sac_handlers.c:378-422 | The loops clear exactly the bits of the file's list |
| `Sac.Disco.BorrarArchivo` | filesystem/sac_handlers.c:424-449 | Unlinks in place |
| `Sac.Disco.BorrarDirectorio` | filesystem/sac_handlers.c:451-472 | Ends, deletes exactly what is under the target, and keeps a sound disk sound |
| `Codec.RoundTrip` | utils_suse/message.c:25-236 | Decoding an encoded message, whatever follows it, gives it back, its function's type cut to a byte, and uses its own bytes only: 7 plus `tamDataFunction` for a call |
| `Codec.RoundTripExact` | utils_suse/message.c:183-236 | It is the same message if and only if the function's type lies in 0..255 |
| `Codec.ErrorArrives` | utils_suse/message.c:183-236 | The error reply of type -1 arrives as 255 |
| `Codec.SplitsBack` | utils_suse/message.c:25-236 | Any concatenation of encoded messages splits back into them |
| `Codec.ArgsBack` | utils_suse/message.c:115-181 | An encoded argument list, anywhere in a buffer, is decoded as that list |
| `Codec.EncodeFunction` | filesystem/sac_handlers.c:4-14 | An encoded call takes as many bytes as `tamDataFunction` says |
| `Wire.EncodeLayout` | utils_suse/message.c:25-203 | The bytes of a message in plain numbers: type 1 for a call, 2 for a return, 3 for a new thread; two bytes of caller and four of size, the lowest first; a call's function type and argument count; each argument's kind, four bytes of length and its value. The messages that can be sent are exactly those with room for their numbers and 9 arguments, values of any length included |
| `Wire.DecodeLayout` | utils_suse/message.c:25-236 | Bytes are read as a message if and only if they begin with it so laid out, and otherwise rejected if and only if the type is none of the three, there are too many arguments or too wide a one, or the bytes run out |
| `Wire.RealCall` | utils_suse/message.h:89-94 | Nine bytes that are a call of `malloc` by client 7, read as one |
| `Codec.MessageEncode` | utils_suse/message.c:59-86 | Writes the encoding and nothing behind it, or returns -1 and writes nothing, exactly when the buffer is shorter than the header promises |
| `Codec.MessageFunctionEncode` | utils_suse/message.c:183-203 | Writes the call at the cursor and nothing else |
| `Codec.FunctionArgEncode` | utils_suse/message.c:115-143 | Writes one argument at the cursor and nothing else |
| `Codec.MessageDecode` | utils_suse/message.c:88-113 | The cursor reads what `Codec.RoundTrip` is proved about |
| `Codec.DecodeArguments` | utils_suse/message.c:205-236 | The argument loop reads the list that `Codec.ArgsBack` is proved about |

## Left out

- Muse.Memory.constructor: takes any number of frames and slots; the source's two bitmaps have 140 and 2048 entries (`memoria/main_memory.c:32-33`), and a configuration with more of either runs past them, which is not modelled.
- Muse.Memory.MemoryMalloc: nothing is said of what follows a torn write, a frame shared by two pages or an overrun; when each happens is exact.
- Muse.Memory.MemoryFree: takes an address that `memory_malloc` returned to this program and that is still allocated; the source checks neither the program nor the address.
- Muse.Memory.MemoryCpy: stops with `Fault` where the source would use a page or bytes that are not there. A copy to an address that is no block's payload, over bytes that look like a header, is carried out as the source does, and nothing is said of the chain after it.
- Suse.Planificador.SuseCreate: not for a number that a live thread of the process has; threads are named by number here, and the source would keep two records of one number.
- Suse.Planificador.CloseTid: not for thread 0 of a process, whose close frees threads that are still queued.
- Suse.Planificador.ObtenerProximoEjecutar: only when someone is or will be ready; otherwise the source waits in `sem_wait`.
- Sac.Disco.EscribirArchivo: below 2 GiB (`setear_posicion` finds the place with `div`, which takes an `int`). Writes that start inside the file and end past it, or start past it, are carried out but nothing else is proved of them; nor of what a short write over a block's end does to a next block that is not the file's own.
- Sac.Disco.LeerArchivo: files of at most 1000 pointer blocks, which is where the loop of the source and the appends end. A byte behind the last block of the disk reads as 0, where the source reads past the mapped file. The source also reads entry `bloque_a_buscar` of each pointer block, a block number used as an index (`filesystem/sac_handlers.c:678`), which can lie past the block and past the disk; the value is not used, and that read is not modelled.
- Sac.Disco.CrearNodo: with fewer than two blocks left on the disk a file's node is left half made, as in the source, and nothing else is proved of it.
- Codec.RoundTrip: at most 9 arguments and scalars of at most 8 bytes; on decoding, more of either would write past the source's structures and is reported as `Overflow`.
- Segments backed by files (`memory_map`, `memory_sync`, `memory_unmap`): they rest on the host's `mmap`.
- More than one heap segment per program: the source lays later ones out from address 0; here a program has one, at base 0, and its limit is pages times page size.
- Rounding of the page counts that the source computes with `float` above 2^24, and truncation of process numbers to 16 bits.
- Programs that are known without having a segment (`memory_cpy` or `memory_get` before any `memory_malloc`), and a client that leaves.
- Frames as addresses into one block of memory: a frame is a sequence of bytes as long as a page. Page records are values in the tables, so two pointers to one record are not modelled.
- Mutexes and the interleaving of requests: each request is one step. Time is a parameter, one reading per request.
- Metrics, logs, configuration files, sockets, FUSE callbacks and handshakes: input and output.
- Names in SAC: path lookup, duplicate names, renaming, listing, dates and truncation. A node is given by its index. The node table starts at block 2, which the source assumes as well (`filesystem/sac_handlers.c:459`) and which holds up to 128 MiB.
- Lifetimes of thread and process records in SUSE: a closed thread stays known, in state EXIT.
- The serializers of `utils_suse/libraries.c`, which would only repeat the codec's round trip.
