# Verified models of the kernel's algorithms

The repository is a small x86 teaching kernel with its libraries and test programs. This project
models its algorithms in Dafny, one group of modules each, and proves what they are for.

- **The boundary-tag allocator** (`shared/malloc.c`, over the `sbrk` of `kernel/mem.c`). Chunk
  headers, footers, list links and client data are words of one flat memory, as in C; the class
  `Malloc.Allocator` reads and writes them as the code does. Ghost fields say which chunks and lists
  are there, and the invariant ties them to memory. `MallocHeap` says what a sound heap is;
  `MallocSteps`, `MallocMoves`, `MallocOrder`, `MallocSound`, `MallocJoins` and `MallocTakes` prove
  that the moves of the code keep it so; `MallocBins` is the size and bitmap arithmetic; `MallocAges`
  is about which of several equal chunks goes first, `MallocLocality` about runs of small requests;
  `MallocChecks` reads the result off memory alone, as the `do_check` routines of the source would;
  `MallocRuns` is about whole runs of any client.
- **The hash table** (`kernel/hash.c`): `HashProbe` shows that a probe meets every slot, `HashTable`
  that the table refines a finite map.
- **Two concurrent protocols** as step systems with every interleaving: the dining philosophers
  (`Philosophers`) and the three-semaphore bounded buffer (`BoundedBuffer`).
- **Paging**: `PagedMemory` is memory as bytes and the 32-bit page walk, `EarlyPaging` the code that
  builds the tables at boot, `DebuggerCopy` the code that walks them to copy a client's bytes.
- **64-bit division** out of 32-bit divides, shift-subtract division, multiplication by 16-bit limbs
  (`Division`).
- **Packets of the remote debugger**: `GdbCodec` has the encoding and a receiver of the protocol,
  `GdbSerial` the sender and the two decoders of incoming data.
- **The scheduler**: the intrusive priority queue (`Queue`), the list of sleepers (`Sleepers`), the
  election as a function of values (`Election`), the kernel around them (`Scheduler`) and runs of it
  (`SchedulerRuns`).
- **Substring search** (`StringSearch`).

`Arith` holds machine words, powers of two and division facts, `Wrappers` the option type.

## Where the code falls short

Each of these is proved, with the exact condition and an instance.

- `do_div64` faults (its `divl` divides by 0) exactly for divisors of at least 2^32 whose 32 leading
  bits are all ones: `Division.DoDiv64`; `Division.FaultAt` has two.
- The bounded buffer keeps its order for 2^32 sends. Past them 100 does not divide the period of
  `wpos`, and a store can land on an unread byte just after the wrap, with 96 unread bytes or more:
  `BoundedBuffer.ClashExactly`; `BoundedBuffer.OrderBreaks` is such a run, of one send more.
- `wake_process` wakes one process per call, as `suiv` of the one woken is cleared before it is
  followed; everyone due is woken exactly when the second sleeper is not due: `Scheduler.Kernel.Wake`,
  `SchedulerRuns.TwoDue`.
- `ordonnance` runs into the assertion of `queue_add` exactly when the process it wakes is the running
  one itself, gone to sleep with a deadline already past, while another of at least its priority is
  ready: `Scheduler.Kernel.Ordonnance`, `Scheduler.Kernel.SleepUntil`, `SchedulerRuns.VainSleep`.
- `putfrags` sends a fragment of length 0 up to its first NUL, so an empty one must begin with a NUL:
  `GdbSerial.SentLength`. A packet with plain characters is received as its text exactly when none of
  them is `#`, `$` or `*`: `GdbSerial.PacketReceived`, `GdbSerial.StarIsLost`. Runs of 7 and 8 use `#`
  and `$` as repeat characters: `GdbCodec.RepeatCharacters`, `GdbCodec.SevenAndEight`.
- The `X` command takes the length to count escaped bytes, the protocol has it count data bytes; they
  agree exactly when nothing is escaped: `GdbCodec.LengthOfEscaped`, `GdbCodec.LengthFails`.
- `memmem`, and with it `strstr`, never finds an empty needle, where the C standard wants the
  haystack: `StringSearch.Memmem`, `StringSearch.EmptyOccurs`.
- A refused resize makes `hash_set` answer -1 with the value set all the same, and can leave a table
  without an empty slot; the lookup of a key then ends exactly when the key is there:
  `HashTable.HashMap.Set`, `HashTable.HashMap.EndsExactly`, `HashTable.FillUp`.
- `malloc` means ties to go to the chunk that has waited longest. For small sizes they do:
  `MallocTakes.PickedBefore`. In a large bin the test for a chunk smaller than the smallest compares with
  a header that has the flag set, so one just as small is put behind its equals and goes first:
  `Malloc.Allocator.PlaceInBin`, `MallocAges.TieJumps`, `MallocAges.TieAt`.
- `malloc` needs a heap that begins on a word, or whose end grants its second `sbrk`, to keep the size
  of the first top clear of the flags: `MallocTakes.SecondGranted`, `MallocTakes.RaggedTop`. The
  kernel's heap ends on a page: `MallocTakes.PageEnd`.

## Model

| member | source | states |
|---|---|---|
| MallocRuns.Run | shared/malloc.c:3378-3994 | any sequence of mallocs, frees and client writes from the first call on: the heap stays sound, the live blocks are just those the trace says, each still holds what the client wrote there last, and requests are refused only out of range or with less left than they need, but for about two pages |
| MallocRuns.BlocksApart | shared/malloc.c:2698-2741 | blocks held at the same time share no byte, by the sizes the client asked for |
| MallocRuns.Answered | shared/malloc.c:3378-3724 | an answered request adds one aligned block of at least the bytes asked for and disturbs no other; a refused one changes nothing |
| MallocChecks.StateChecked | shared/malloc.c:2755-2867 | every sound heap passes the checks of `do_check_malloc_state`, read from memory: chunks, tags, fastbins, bins, sizes, bitmap, and every free chunk is on its bin's list |
| MallocChecks.FastChecked | shared/malloc.c:2782-2804 | a chunk on a fastbin claims to be in use, has the size of that fastbin and leads to the next; the fastbins past the largest size are empty |
| MallocRuns.FlagChecked | shared/malloc.c:2806-2809 | the heads of the fastbins are those lists', and none holds a chunk while the flag is clear |
| MallocChecks.MallocedChecked | shared/malloc.c:2698-2741 | a block handed out passes `do_check_malloced_chunk`: legal size, less than MINSIZE above the request, in use, and preceded by a chunk in use unless it comes off a fastbin |
| MallocChecks.ChunkChecked | shared/malloc.c:2567-2611 | `do_check_chunk` holds of every chunk, top included |
| MallocChecks.FreeChecked | shared/malloc.c:2617-2651 | `do_check_free_chunk` holds of every free chunk: footer, neighbours in use, `fd->bk` and `bk->fd` lead back |
| MallocChecks.InuseChecked | shared/malloc.c:2657-2691 | `do_check_inuse_chunk` holds of every chunk in use: its bit, and the neighbours it points to |
| MallocChecks.BinChecked | shared/malloc.c:2811-2840 | a chunk on a list is in the bin of its size, the bin's bit is set, and the list is sorted |
| MallocChecks.TotalSize | shared/malloc.c:2755-2867 | walking the chunks by size from the first meets each once, and the sizes add up to what `sbrk` granted but for at most 7 bytes of alignment |
| MallocChecks.BlockIsNew | shared/malloc.c:2698-2741 | a block handed out has the bytes asked for inside the arena, shares none with a live block, and live contents stay |
| MallocChecks.ClientWrites | shared/malloc.c:2698-2741 | a client that writes inside its block breaks no invariant and no other block |
| Malloc.Allocator.constructor | shared/malloc.c:2464-2470 | the zeroed static state is a valid allocator with no live block |
| Malloc.Allocator.Sbrk | kernel/mem.c:16-23 | grants exactly the requests that go up and fit below the heap's end |
| Malloc.Allocator.MAlloc | shared/malloc.c:3378-3724 | null with nothing changed, only for a request out of range or with the arena nearly used up; or an 8-aligned block that is the whole or the low end of the first chunk on its fastbin; else of the last remainder if a small request has no exact fit and that comes up last of the unsorted chunks; else of the smallest adequate free chunk, of small ones the one that has waited longest; else of top. A cut leaves the rest alone on the unsorted list; it is the last remainder from then on if the request was small, and in every other case that is what it was. Unless the fastbins were emptied for it, all this is said of the heap before the call; else of the heap emptying them made. They are emptied for a small request only when nothing fits, and memory is asked for only with none in use, by at most the request and about two pages |
| MallocLocality.CutAndNext | shared/malloc.c:3486-3515 | after a small request cut from a free chunk, a second one with no exact fit for which the rest is more than big enough gets the block directly behind the first |
| MallocLocality.SmallRun | shared/malloc.c:3486-3515 | any number of small requests with no exact fit, together smaller than the last remainder, get one block directly behind the other |
| MallocTakes.RestLaw | shared/malloc.c:3497-3515 | when the last remainder serves, the block is its low end, the rest takes its place and no other listed chunk changes |
| MallocAges.LinesSorted | shared/malloc.c:2119-2125 | sorting an unsorted chunk changes nothing about the order in which small chunks of one size are taken |
| MallocAges.TieJumps | shared/malloc.c:3539-3542 | a large chunk of the size of the smallest in its bin goes behind its equals and is the next of them to be taken |
| MallocAges.TieAt | shared/malloc.c:3539-3542 | a second chunk of 512 bytes does |
| Malloc.Allocator.PlaceInBin | shared/malloc.c:3526-3564 | the chunk is in the bin of its size: in a small bin first; in a large one before all that are not larger, but at the end if it is no larger than the smallest |
| Malloc.Allocator.TakeFirst | shared/malloc.c:3656-3687 | the last chunk of the bin, whole or cut; the rest of a cut for a small request is the last remainder |
| MallocTakes.PickedBefore | shared/malloc.c:3477-3564 | sorting the unsorted chunks does not change which chunk is the right one, ties among small chunks included |
| Malloc.Allocator.Free | shared/malloc.c:3731-3882 | the block is no longer live; every other live block keeps place, size and contents; the invariant holds again; the last remainder is what it was. A small chunk is first on its fastbin; any other is one with its free neighbours, in top or first on the unsorted list, and when they have 128 KB or more together the fastbins are empty |
| Malloc.Allocator.FreeFast | shared/malloc.c:3760-3775 | a small chunk goes to the front of the fastbin of its size, and no bin changes |
| Malloc.Allocator.FreeChunk | shared/malloc.c:3781-3861 | the chunk is one with its free neighbours, in top or first on the unsorted list; from 128 KB on the fastbins are emptied after that, below they stay |
| Malloc.Allocator.Coalesce | shared/malloc.c:3784-3835 | the chunk, with just the free neighbours on both sides, is top if top was next and else first on the unsorted list, and no free chunk has a free neighbour |
| Malloc.Allocator.ConsolidateBackward | shared/malloc.c:3787-3793 | the free chunk before, found by its footer, is off its list and one with this one |
| Malloc.Allocator.ConsolidateForward | shared/malloc.c:3795-3804 | the next chunk knows its predecessor is free, and is taken in if it is free itself |
| MallocLists.UnlinkLinked | shared/malloc.c:2148-2154 | the links of a chunk are its neighbours in its list, and unlinking leaves the list without just that chunk, linked both ways |
| Malloc.Allocator.Consolidate | shared/malloc.c:3899-3994 | all fastbins are emptied, or the state is initialised on the first call; live blocks stay |
| Malloc.Allocator.EmptyFastbin | shared/malloc.c:3940-3987 | one fastbin is emptied chunk by chunk, the loop ends, the others stay |
| Malloc.Allocator.InitState | shared/malloc.c:2487-2516 | all bins become empty circular lists |
| Malloc.Allocator.FromFastbin | shared/malloc.c:3428-3435 | a fastbin hit is the first chunk of its list, an exact fit, and no other chunk changes |
| Malloc.Allocator.FromSmallBin | shared/malloc.c:3445-3458 | a small-bin hit is an exact fit, so the best one, and the one that has waited longest |
| Malloc.Allocator.ProcessUnsorted | shared/malloc.c:3485-3564 | the unsorted chunks are sorted into their bins until one is an exact fit, or the lone last remainder serves a small request that has no exact fit |
| Malloc.Allocator.WalkLarge | shared/malloc.c:3547-3557 | the walk down a large bin stops where every chunk before is at least as large and every one after at most as large |
| Malloc.Allocator.FindLargePlace | shared/malloc.c:3537-3557 | the place for a chunk in a large bin, by the shortcut or by the walk, keeps the bin sorted; among equals it is the front, or the end if no chunk of the bin is smaller |
| Malloc.Allocator.ScanLarge | shared/malloc.c:3575-3604 | of its own bin a large request takes the smallest adequate chunk of the whole heap, or there is none up to that bin |
| Malloc.Allocator.NextBlock | shared/malloc.c:3624-3632 | the loop over bitmap words ends and skips no bin that holds a chunk |
| Malloc.Allocator.NextBit | shared/malloc.c:3635-3639 | the loop to the next set bit ends inside the word and skips no bin that holds a chunk |
| Malloc.Allocator.ScanBinmap | shared/malloc.c:3615-3688 | the first chunk found by the bitmap scan is large enough and the smallest adequate one; a false alarm clears its bit; out of bins means no adequate chunk |
| Malloc.Allocator.UseTop | shared/malloc.c:3706-3723 | with no adequate free chunk, the low end of top, perhaps extended; unless the fastbins are emptied and the request begins again |
| Malloc.Allocator.SysMalloc | shared/malloc.c:2881-3300 | fastbins are emptied and the request begins again, or with none in use top is extended and its low end handed out, or null for want of memory |
| Malloc.Allocator.FromSystem | shared/malloc.c:3014-3300 | an arena that has a top grows by whole pages, the fewest that make room for the request and a top behind it |
| Malloc.Allocator.FirstMemory | shared/malloc.c:3121-3225 | the first memory becomes an aligned top that ends at the break |
| Malloc.Allocator.NewMemory | shared/malloc.c:3090-3225 | granted memory becomes top or extends it; no free chunk and no live block is touched |
| MallocTakes.FirstAlign | shared/malloc.c:3151-3175 | the first chunk begins 8-aligned within 7 bytes of the start; without the second `sbrk` its size is a multiple of 4 exactly when the heap begins on a word |
| MallocTakes.SecondGranted | shared/malloc.c:3174-3186 | in a heap that does not begin on a word but is well placed, the second `sbrk` is granted whatever the first asked for |
| MallocTakes.RaggedTop | shared/malloc.c:3180-3187 | in any other heap there is a first request for which it is refused and the size of top gets bits where the flags are |
| MallocTakes.PageEnd | kernel/build/kernel.lds:99-103 | a heap that ends on a page is well placed |
| MallocBins.Request2SizeLeast | shared/malloc.c:1996-2008 | the padded size is the least legal chunk size with the requested usable bytes |
| MallocBins.HighestIsMsb | shared/malloc.c:2207-2216 | the branch-free code in 32-bit arithmetic finds the highest set bit |
| MallocBins.LargeBinIndexIs | shared/malloc.c:2187-2221 | each power-of-two range of sizes is cut into four bins |
| MallocBins.BinIndexMonotone | shared/malloc.c:2223-2224 | bin numbers grow with the size, lie in 2..95, and small and large sizes never share a bin |
| MallocBins.NoBitAbove | shared/malloc.c:3624 | the test `bit > map` is right: no bit is left at or above |
| MallocBins.SomeBitAbove | shared/malloc.c:3635-3639 | where the test fails there is a bit to be found |
| HashProbe.PerturbDies | kernel/hash.c:58-79 | `perturb` is 0 from the seventh shift on |
| HashProbe.FullCycle | kernel/hash.c:77-78 | from any start, 2^k steps of i -> 5i+1 visit every residue modulo 2^k |
| HashProbe.ProbeIsIter | kernel/hash.c:77-78 | once `perturb` is 0 the masked index follows the affine map, 32-bit wrap-around or not |
| HashProbe.ProbeHits | kernel/hash.c:54-81 | every slot is looked at within the first size + 7 probes |
| HashTable.MissingKey | kernel/hash.c:64-66 | an empty slot met without the key means that no slot holds an equal key |
| HashTable.MatchTest | kernel/hash.c:67-70 | on an active slot the pointer-or-hash-and-cmp test decides `cmp` |
| HashTable.ReplayFindsLastSet | kernel/hash.c:188-236 | of the map that operations leave, an equal key finds the value last set and not deleted since, read off the operations alone |
| HashTable.HashMap.Play | kernel/hash.c:163-236 | any operations on a table, growing, shrinking, reusing tombstones, refused memory or not: while there is room the map is that of the operations, and room is lost only to refusals |
| HashTable.Session | kernel/hash.c:138-236 | a table from `hash_init` on answers `hash_get` with the value last set for an equal key and not deleted since, or the default |
| HashTable.FillUp | kernel/hash.c:204-213 | eight keys set in a new table with resizes refused: the last three answer -1 and are set all the same, the table is full, and the lookup of a ninth key never ends |
| HashTable.FindAfterSet | kernel/hash.c:188-214 | setting a key changes what equal keys find and nothing else |
| HashTable.FindAfterDel | kernel/hash.c:217-236 | deleting a key makes equal keys missing and changes nothing else |
| HashTable.Insert | kernel/hash.c:204-211 | a new key in the free slot the lookup gave keeps every key reachable, tombstone or not |
| HashTable.Erase | kernel/hash.c:229-233 | a tombstone keeps every other key reachable and removes just one |
| HashTable.NewSizeOk | kernel/hash.c:116-126 | the new size is a power of two of at least 8 with the active keys in less than two thirds of it |
| HashTable.LookupEnds | kernel/hash.c:63-80 | the loop returns, and then within size + 7 probes, if and only if some slot is empty or active with an equal key |
| HashTable.HashMap.EndsExactly | kernel/hash.c:63-80 | the loop returns if and only if the table has an empty slot or the map an equal key |
| HashTable.HashMap.Initialize | kernel/hash.c:29-47 | a fresh table of empty slots, or -1 and nothing changed |
| HashTable.HashMap.Init | kernel/hash.c:138-147 | an empty map of 8 slots, or -1 and nothing changed |
| HashTable.HashMap.Lookup | kernel/hash.c:54-81 | returns within size + 7 probes, at the first that meets an empty slot or an equal key, with the active slot of that key, or with the first tombstone on the way or else the empty slot |
| HashTable.HashMap.Copy | kernel/hash.c:88-105 | the new table stands for the map of the old one, without tombstones |
| HashTable.HashMap.Update | kernel/hash.c:110-135 | grows or shrinks by the two tests, keeps the map, leaves 3*fill < 2*size; on refusal nothing changes |
| HashTable.HashMap.IsSet | kernel/hash.c:163-171 | true exactly when an equal key is in the map |
| HashTable.HashMap.Get | kernel/hash.c:174-185 | the value of the equal key in the map, or the default |
| HashTable.HashMap.Set | kernel/hash.c:188-214 | the map is updated at the key, also when -1 is returned; -1 exactly when the key is new, a resize is due and memory is refused; `fill`, `count` and `mask` exactly |
| HashTable.HashMap.Del | kernel/hash.c:217-236 | the map loses the key; -1 exactly when it was there, a resize is due and memory is refused; `fill`, `count` and `mask` exactly |
| Philosophers.StepKeeps | user/tests/test20/philosophe.c:57-125 | any statement of any philosopher keeps the invariant on mutex, forks, marks and semaphores |
| Philosophers.RunSafe | user/tests/test20/philosophe.c:103-126 | the invariant holds in every state of every run |
| Philosophers.FlagsAreOwners | user/tests/test20/philosophe.c:57-101 | a fork flag is set exactly when one of its two philosophers owns the fork; never both do |
| Philosophers.NeighboursApart | user/tests/test20/philosophe.c:44-55 | two neighbours never show 'm' at the same time |
| Philosophers.GrantPassesFork | user/tests/test20/philosophe.c:84-98 | a grant hands the shared fork over with its flag up throughout |
| Philosophers.CountsBelowTwo | user/tests/lib/xlock.c:39-46 | no signal takes a count to 2 |
| Philosophers.SomeoneMoves | user/tests/test20/philosophe.c:63-101 | no deadlock: while a philosopher is not done some statement can be executed |
| Philosophers.RemainingFalls | user/tests/test20/philosophe.c:113-118 | every step lowers the work left |
| Philosophers.RunsEnd | user/tests/test20/philosophe.c:113-118 | no run has more than 240 steps a philosopher |
| Philosophers.MaximalRunServesAll | user/tests/test20/philosophe.c:103-125 | in a run that cannot go on each philosopher has begun to show `m` six times and `p` six times; whenever one shows `m` both forks are in use, by it alone, and no neighbour shows `m`; at the end all forks are back |
| Philosophers.MealThenThought | user/tests/test20/philosophe.c:113-118 | in any run, whole or not, a philosopher has begun as many thoughts as meals, or one less |
| BoundedBuffer.StepKeeps | user/tests/test17/proc17_1-sem.c:4-11 | any statement of any process keeps free + pending + buffered + returning slots at 100 and one process at most in its critical section |
| BoundedBuffer.RunInv | user/tests/test17/test17-sem.c:23-30 | that holds in every state of every run from the initial counts |
| BoundedBuffer.StoreBuffers | user/tests/test17/proc17_1-sem.c:8 | a store finds fewer than 100 unread bytes, and keeps them all in place exactly when it does not hit one of another value |
| BoundedBuffer.LoadTakesOldest | user/tests/test17/proc17_2-sem.c:9 | a load finds a byte, the oldest unread one |
| BoundedBuffer.ClashExactly | user/tests/test17/proc17_1-sem.c:8 | a store hits an unread slot if and only if it is among the first 96 after a wrap of `wpos` with 96 unread bytes or more |
| BoundedBuffer.RunOrdered | user/tests/test17/proc17_2-sem.c:4-13 | as long as no store clobbers an unread byte the bytes read are a prefix of the bytes written |
| BoundedBuffer.ShortRunOrdered | user/tests/test17/proc17_2-sem.c:4-13 | for up to 2^32 sends the bytes read are a prefix of the bytes written, at most 100 behind |
| BoundedBuffer.NeverStuck | user/tests/test17/proc17_1-sem.c:4-11 | with a producer and a consumer some process can always step |
| BoundedBuffer.OrderBreaks | user/tests/test17/proc17_1-sem.c:8 | a run of 2^32 + 1 sends after which the bytes read are not a prefix of those written |
| PagedMemory.SameTables | kernel/gdb_serial_support.c:90-121 | memories that agree on the directory and the tables it names translate alike |
| PagedMemory.WriteOutside | kernel/gdb_serial_support.c:177 | a byte written outside the tables leaves the tables where and as they are |
| PagedMemory.SuperPageWalk | kernel/gdb_serial_support.c:90-121 | the addresses of a 4 MB page lead into its frame |
| EarlyPaging.BootPaging.FillPgdir | kernel/boot/early_mm.c:145-160 | 64 entries name the consecutive tables read/write, the other 960 are 0, and the tables stay |
| EarlyPaging.BootPaging.ClearTables | kernel/boot/early_mm.c:195-196 | every table entry is 0 |
| EarlyPaging.BootPaging.MapRegion | kernel/boot/early_mm.c:173-188 | exactly the pages the region covers get their identity entry with its flags |
| EarlyPaging.BootPaging.MapPage | kernel/boot/early_mm.c:179-187 | the entry written through the directory is that of the page, and no other changes |
| EarlyPaging.BootPaging.MapKernel | kernel/boot/early_mm.c:193-223 | with sections on pages and apart, the page walk is the identity on text, multiboot header and constants, not writable; on everything before the text but the first page, stack, data, bss and all from the page of `_end` to 256 MB, writable; and finds nothing elsewhere |
| EarlyPaging.BootPaging.Protected | kernel/boot/early_mm.c:193-223 | that, of tables that hold the nine regions |
| EarlyPaging.EntryProtects | kernel/boot/early_mm.c:205-222 | the table entry of each address is read-only, read/write or 0 by the section it lies in |
| EarlyPaging.LinkerOrder | kernel/build/kernel.lds:8-88 | in the order of the linker script the sections are apart |
| EarlyPaging.EntryIs | kernel/boot/early_mm.c:207-222 | the entry of a page has the flags of the last region that covers it, and is 0 when none does |
| EarlyPaging.EntryRange | kernel/boot/early_mm.c:203-222 | page 0 and the pages from 256 MB on are never mapped, and no entry has other flags than read-only or read/write |
| EarlyPaging.BootPaging.WalkIs | kernel/boot/early_mm.c:193-223 | the page walk, the debugger's own, is the identity for the pages some region covers, with the flags of the last, and finds nothing else |
| DebuggerCopy.Debugger.PhysAddrLookup | kernel/gdb_serial_support.c:90-121 | length 0 exactly for an unmapped address; else it reaches the end of the page, and each of its bytes lies as far after the physical address as after the virtual one |
| DebuggerCopy.Debugger.CopyIn | kernel/gdb_serial_support.c:142-162 | the bytes fetched one by one through the walk, up to the first that is not mapped, across 4K and 4M pages; -1 exactly when there is one |
| DebuggerCopy.Debugger.CopyOut | kernel/gdb_serial_support.c:164-184 | memory and answer are those of storing byte by byte through the walk of the moment |
| Division.DoDiv64 | shared/div64.c:28-64 | exact quotient and remainder; a divide error exactly for divisors whose 32 leading bits are ones; the quotient of the one divide is never too big and at most 2 too small |
| Division.FaultAt | shared/div64.c:36-38 | two such divisors |
| Division.Correct | shared/div64.c:40-46 | the correcting loop ends after at most two rounds with the exact result and without wrap-around |
| Division.Shifted | shared/div64.c:20-22 | the `shrd` sequence is the shift of a 64-bit number, for every count up to 32 |
| Division.TwoSteps | shared/div64.c:54-58 | two chained divides give the exact 64-bit quotient, and neither overflows |
| Division.LeadingOnesAre | shared/div64.c:36-38 | `y0 + 1` wraps to 0 exactly when the 32 leading bits of the divisor are ones |
| Division.Div64 | user/tests/lib/math.c:109-139 | exact quotient and remainder for every nonzero divisor; the doubling never overflows and both loops end |
| Division.Mul64 | user/tests/lib/math.c:145-177 | the limb sums are the product modulo 2^64 |
| GdbCodec.HexRoundTrip | kernel/gdb_serial.c:47-66 | the value of the hex digits of a byte string is that byte string |
| GdbCodec.HexDigits | kernel/gdb_serial.c:45-66 | a character is worth v exactly when it is number v of the digits, small or capital |
| GdbCodec.SumAppend | kernel/gdb_serial.c:139 | the sum of a byte is the byte, and sums add up |
| GdbCodec.ExpandTokens | kernel/gdb_serial.c:148-207 | the runs and characters sent stand for the plain or hexified text |
| GdbCodec.PacketRoundTrip | kernel/gdb_serial.c:134-221 | a receiver that takes the character after `*` literally, and checks the sum, gets the text back if and only if no `#`, `$` or `*` is in it |
| GdbCodec.HexTokensClean | kernel/gdb_serial.c:152-198 | no `#` occurs in a hexified body, repeat characters included |
| GdbCodec.RepeatCharacters | kernel/gdb_serial.c:174-191 | repeat characters lie in 32..126; that of a run of 7 is `#`, of 8 is `$` |
| GdbCodec.SevenAndEight | kernel/gdb_serial.c:174-191 | two such bodies |
| GdbCodec.EscapeRoundTrip | kernel/gdb_serial.c:440-463 | unescaping undoes escaping, whatever bytes the sender escapes besides `}` |
| GdbCodec.LengthOfEscaped | kernel/gdb_serial.c:429-463 | unescaping as many bytes as the data has gives the data if and only if nothing was escaped |
| GdbCodec.LengthFails | kernel/gdb_serial.c:429-463 | a write of the one byte `}`, escaped, is an error |
| GdbSerial.SentLength | kernel/gdb_serial.c:150-151 | what goes out for a fragment is the encoding of just its explicit length if and only if that is not 0 or the data begins with a NUL |
| GdbSerial.PacketReceived | kernel/gdb_serial.c:134-221 | the text of any fragments is received if and only if it is free of `#`, `$` and `*` |
| GdbSerial.StarIsLost | kernel/gdb_serial.c:199-206 | the plain text `a*b` is not received as sent |
| GdbSerial.HexPacketReceived | kernel/gdb_serial.c:134-221 | hexified fragments come back to the byte |
| GdbSerial.Link.TestRun | kernel/gdb_serial.c:156-167 | the test finds a run of four output characters where there is one, and reads nothing past the end |
| GdbSerial.Link.RunEnd | kernel/gdb_serial.c:172-181 | the run is the longest, up to 98 output characters, within the fragment |
| GdbSerial.Link.SendNext | kernel/gdb_serial.c:152-206 | one turn sends the next token and keeps the checksum |
| GdbSerial.Link.SendFragment | kernel/gdb_serial.c:148-207 | the bytes of the fragment's tokens go out and into the checksum |
| GdbSerial.Link.SendPacket | kernel/gdb_serial.c:138-216 | `$`, the body, `#` and the digits of the body's sum modulo 256, in which each byte counts once |
| GdbSerial.Link.PutFrags | kernel/gdb_serial.c:137-221 | the packet goes out once for each reply up to the first `+` |
| GdbSerial.SendOk | kernel/gdb_serial.c:134-221 | the text `OK`, refused once, goes out twice as the bytes of `$OK#9a`, which are received as `OK`; those of `$OK#34` are not |
| GdbSerial.OkReceived | kernel/gdb_serial.c:209-216 | of all checksum digits only those of 0x9a are taken for `OK` |
| GdbSerial.Hex2Bin | kernel/gdb_serial.c:55-66 | 0 exactly when all characters are digits, and then their bytes; else the bytes before the first bad pair |
| GdbSerial.UnescapeInPlace | kernel/gdb_serial.c:449-463 | the front of the buffer is the unescaped data, in place; an error exactly for a dangling `}` |
| Queue.PriorityQueue.Add | shared/queue.h:73-87 | a newcomer goes before all of at least its priority; the queue stays sorted by priority, then age |
| Queue.PriorityQueue.Out | shared/queue.h:129-147 | the highest priority and among equals the oldest is taken out, its links cleared; null when empty |
| Queue.PriorityQueue.Del | shared/queue.h:155-163 | just that node leaves, its links cleared |
| Queue.PriorityQueue.Top | shared/queue.h:209-221 | the node `Out` would take |
| Queue.PriorityQueue.Empty | shared/queue.h:107-110 | the head points to itself exactly when there is no node |
| Queue.PriorityQueue.Next | shared/queue.h:173-176 | a walk by `next` meets the nodes in order and comes back to the head |
| Queue.RingWith | shared/queue.h:83-86 | four link writes put a node into the ring at its place |
| Queue.RingWithout | shared/queue.h:159-162 | two link writes close the ring around a node |
| Queue.OrderedWith | shared/queue.h:79-82 | a newcomer before all of at least its priority keeps the order by priority and age |
| Sleepers.SleepList.Extract | kernel/proc.c:121-138 | the first sleeper leaves, also as the only one |
| Sleepers.SleepList.InsertUntil | kernel/proc.c:140-196 | a sleeper goes after all that wake no later; the list stays sorted by deadline and ends at its tail |
| Scheduler.Kernel.InsertActivable | kernel/proc.c:90-95 | the process is ready, at the place of its priority |
| Scheduler.Kernel.ExtractActivable | kernel/proc.c:72-88 | the last of the queue, or null |
| Scheduler.Kernel.Wake | kernel/proc.c:786-795 | the first sleeper becomes ready if its deadline has come, nobody else ever does in one call; so everyone due is woken exactly when the second sleeper is not due |
| SchedulerRuns.TwoDue | kernel/proc.c:786-795 | two sleepers due at once, of whom one call of `ordonnance` wakes one and leaves the other asleep |
| Scheduler.Kernel.Elect | kernel/proc.c:373-400 | running process and queue become those of `Elected` |
| Scheduler.Kernel.Ordonnance | kernel/proc.c:367-401 | nobody ready has a higher priority than the elected process, nobody is lost or doubled, state and election as values; panics exactly when the running process is woken in vain |
| Scheduler.Kernel.SleepUntil | kernel/proc.c:774-784 | the process goes to sleep behind those that wake no later, and the election is made, state and election as values; panics exactly when its deadline is past, all others wake later and someone of at least its priority is ready |
| SchedulerRuns.VainSleep | kernel/proc.c:780-784 | such a panic |
| Scheduler.Kernel.ChangeReady | kernel/proc.c:586-598 | the walk that deletes and re-inserts where it stands ends, changes just the process asked for and leaves a sorted queue of the same members |
| Scheduler.Kernel.ChangeAsleep | kernel/proc.c:600-610 | the walk over the sleepers changes just the process asked for |
| Scheduler.Kernel.ChPrio | kernel/proc.c:569-615 | the priority of that process alone changes and its old one is returned, wherever it is. The state after is the election of the state with the new priority and the first sleeper due woken: the caller runs on exactly if all ready ones then have lower priorities, and else is the newest of its own. It cannot panic; a bad argument changes nothing |
| Scheduler.Kernel.NotMetAgain | kernel/proc.c:588-597 | going on from the new place the walk does not meet the pid again |
| Election.AddedIncreasing | shared/queue.h:73-87 | adding keeps the order and the members |
| Election.ElectedHighest | kernel/proc.c:379-399 | after an election nobody ready has a higher priority, and the queue is sorted |
| Election.ElectedHandsOver | kernel/proc.c:379-399 | who runs hands over if somebody ready has at least its priority, and then leaves the queue after all others of its own; else nothing changes |
| Election.ElectedConserves | kernel/proc.c:379-399 | an election neither loses nor doubles a process |
| Election.OneTurn | kernel/proc.c:379-399 | with k tied processes one election turns the ring by one |
| Election.RoundRobin | kernel/proc.c:5-11 | as many elections, as values, as there are tied processes run each once and restore the state |
| SchedulerRuns.TimeSlices | kernel/proc.c:367-401 | so do as many calls of `ordonnance` on the kernel while nobody asleep is due |
| StringSearch.Memcmp | shared/string.c:83-95 | 0 exactly for equal bytes, else the first difference |
| StringSearch.SecondMissing | shared/string.c:249-250 | a second needle byte that is missing rules out the places jumped over |
| StringSearch.SecondThere | shared/string.c:251-255 | one that is there rules out the next place when the needle begins with two different bytes |
| StringSearch.OccursByParts | shared/string.c:252-253 | the three partial tests together are the occurrence |
| StringSearch.SearchPairs | shared/string.c:238-257 | the leftmost occurrence of a needle of two bytes or more, or none; all reads in bounds |
| StringSearch.Memmem | shared/string.c:228-266 | the leftmost occurrence, or null exactly when there is none, if and only if the needle is not empty; for an empty one always null |
| StringSearch.EmptyOccurs | shared/string.c:235-236 | null is wrong for an empty needle: it occurs at once |
| StringSearch.Strlen | shared/string.c:393-399 | the bytes before the first NUL |
| StringSearch.Strstr | shared/string.c:559-563 | the leftmost occurrence of the needle string in the haystack string; null for an empty needle |

## Left out

- Hardware: port I/O, display, serial line and keyboard drivers, context switch, descriptor tables, BIOS calls, system-call assembly. Of the instructions in `shared/div64.c` only the arithmetic meaning is kept; `cr0` is not switched while the debugger copies.
- `shared/malloc.c`: mmap, WIN32, `rEALLOc`, `mEMALIGn`, `cALLOc`, `iALLOc`, `mALLOPt`, statistics, foreign `sbrk` calls with fenceposts, and `mem_alloc` and `mem_free` around it. Trimming is there as far as it gets: the kernel's `sbrk` refuses to shrink.
- Malloc.Allocator.MAlloc: memory is by word, each at its own address, so client writes that straddle two words are not modelled.
- Malloc.Allocator.constructor: asks for addresses below 2^31 and for a heap where the first top can have a legal size, which `MallocTakes.RaggedTop` shows to be needed.
- Malloc.Allocator.FreeChunk: when a large chunk has the fastbins emptied after it, where its bytes end up is not followed further.
- Malloc.Allocator.Free: asks for a live block or null, as the C standard does; freeing anything else is not modelled.
- HashTable.HashMap.Update: freeing the old table is left out, and so is the overflow test of the size, which the limit of the heap never lets happen.
- HashTable.HashMap.Lookup: asks for an empty slot or an equal key, the exact condition under which the loop of the source ends.
- `hash_destroy`, the tests for a null map, and the two ready-made pairs of callbacks of `kernel/hash.c`.
- Philosophers.StepKeeps: `affiche_etat` and the waiting loops have no effect here, and the array sizes follow N, from 3 on.
- BoundedBuffer.StepKeeps: reading and incrementing `wpos` or `rpos` are one step each, between them anything may happen; the counting of received bytes is left out.
- EarlyPaging.BootPaging.MapKernel: `early_mm_check`, which halts on bad symbols, is left to the preconditions: regions between 4 KB and 256 MB, directory and tables page aligned and apart. The boot directory is in plain memory, as paging is still off.
- DebuggerCopy.Debugger.CopyIn: the buffer is an array apart from the memory it is filled from, and the range does not wrap at 2^32.
- DebuggerCopy.Debugger.CopyOut: the target is not in the tables that translate it, and the range does not wrap at 2^32.
- GdbSerial.Link.PutFrags: the replies are given and one of them acknowledges; with none the loop of the source does not end.
- `getpacket` and the commands of the debugger other than the two decoders.
- Queue.PriorityQueue.Add: the links are fields of the node itself; the pointer arithmetic from link to element is left out.
- Scheduler.Kernel.Ordonnance: the kernel's clock is a parameter, constant during a call; `ctx_sw` is left out.
- Process creation and death, `waitpid`, `kill`, `sleep_del` and messages of `kernel/proc.c` and `kernel/message.c`.
- Division.Mul64: the random numbers made with it.
- `strtol`, `doprnt`, the test `printf` and the rest of `shared/string.c`: easier loops.
