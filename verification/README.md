# A verified model of the course repository's hard core

Four programs of the repository are modelled in Dafny, each with the properties it exists for.

- **The heap allocator** (`6-malloc-haininz`): boundary tags, free-list links and user payload in one flat memory;
  `mm_malloc`, `mm_free` and `mm_realloc` over it, and the driver's validity check played against them.
- **The database** (`7-database-haininz/db.c`): the binary search tree as linked records, proved against a finite map;
  the command interpreter on top; and the records shared by threads that lock them hand over hand.
- **The maze generator and solver** (`1-maze-haininz`): a random walk that carves a spanning tree, and a depth-first
  search whose links and reports are exact.
- **The server's client registry and stop/go gate** (`7-database-haininz/server.c`): a doubly linked list, a counter and a
  gate, each write of a critical section a step of its own.

`dafny verify dfyconfig.toml` checks everything.

## How the model is laid out

| files | what they hold |
|---|---|
| `Options`, `Sequences` | optional values; sequences without repeats |
| `MallocLayout`, `MallocMemory`, `Malloc`, `MallocHazards` | blocks as an abstract layout, and runs of requests; how a layout is stored in memory; the class `Heap` with the operations; what a moving realloc's copy touches |
| `MallocTrace`, `MallocExamples`, `MallocDriver` | traces, and their verdict as a matter of the trace alone; two short traces; the class `Driver` |
| `DbTree`, `Db`, `DbCommands` | the tree as a value; the class `Database` over linked records; commands, and keys too long to store |
| `DbConcurrent`, `DbSafety`, `DbHistory`, `DbBounds` | threads on the tree as a value; what every step keeps; the map that explains it, and progress; how many steps an operation has left |
| `DbMachine`, `DbRefines`, `DbMachineRuns`, `DbPrint`, `DbSuccessor` | threads on records in memory, one access a step; that they do what the threads on the tree do; theorems about whole runs; which records a print locks; what the walk without locks breaks |
| `MazeGrid`, `MazeGenerator`, `MazeSolver` | rooms, openings and reachability; the walk; the search |
| `ServerRegistry`, `ServerLiveness`, `ServerShutdown`, `ServerGate` | the client list and counter; that clients get served and a shutdown goes on; registration after shutdown; the gate |

Conventions of the model:

- *Allocator.* Addresses are byte offsets from the start of the heap, so `NULL` is 0 (the prologue, which is never free and
  never a payload). The memory is an array with one cell per byte address; the cell at an aligned address holds the `long`
  stored there, and every access is shown to be aligned. The source's assertions in the accessors are preconditions, so no
  call can trip one. The ghost fields `blocks` and `free` are tied to memory by `Valid`, and so is `run`, the requests
  served since `mm_init`, by `Leads`; `Live` is the payload of every live block.
- *Sizes.* `mem_sbrk` takes an `int`. `SbrkFaithful` is the exact condition under which the truncated request is served as
  asked or refused. Outside it the heap has grown by less than the block and the next write is past all storage; the
  operations report `fault` exactly then. Every size up to `INT_MAX` meets the condition.
- *Moving realloc.* `memcpy` is called with the new rounded size, which on that path always exceeds the old payload. The
  copy is exact on the old payload; what arrives beyond it is arbitrary. `CopyHazards` says exactly when the source range
  leaves the storage and when source and destination overlap, both undefined in C; `CopyMeets` and `CopyLeaves` are runs in
  which they do.
- *Driver.* A trace may allocate an index again while it is in use (the old block is lost but stays allocated and listed)
  and may reallocate to zero (the block is freed and its range stays listed, stale). An index that is not in use may not be
  reallocated or freed: the driver would read an uninitialised or dangling pointer. Sizes are any ints; a negative one trips
  the assertion in `add_range`, and the outcome is `Aborted`. `Verdict` says how a trace ends in terms of the allocator's
  layout and the stale ranges only, `VerdictOnce` that there is one such end, and `EvalMmValid` that the driver comes to it.
  A payload is refused exactly if one of its ends lies in a stale range; `add_range` compares ends only, so a payload that
  encloses a range is let through (`MissedOverlap`, and `EnclosedPasses` for a trace in which it is). Whether plain `char` is
  signed is a constant of the driver: the data check compares a `char` with `index & 0xFF`, so where `char` is signed it
  refuses every index of 128 or more modulo 256. The shipped binary is for AArch64, where `char` is unsigned and the check is
  sound.
- *Database.* A search compares with `strcmp`, modelled as `Less`. Each record carries an identity, so the laws of
  `DbTree` serve both the records in memory and the records locked by threads. Whether `malloc` has memory
  for a record is a parameter: of each call of `NodeConstructor` and `DbAdd`, and for the commands of a whole run a function
  of how many records have been asked for. The threads of the concurrent model always get their record.
- *Threads.* One step of `DbMachine` is one lock operation or one access to a record in memory. Threads and their operations
  are arbitrary and finite in number; a step is taken by any thread that can move. A record's lock is a read-write lock;
  search takes the head for writing, also for a query. Keys and values are of storable length, as the command scanner
  guarantees.
- *Successor walk.* `db_remove` finds the successor of a record with two children without taking locks (db.c:224-233), then
  writes the link to it, its own key and its own value, each a step. With `guarded`, the walk starts only when no other thread
  holds or awaits a record on the spine it will read, the left spine of the right subtree; from then on nothing waits, and
  every run theorem is proved for the walk link by link. The code does not wait. `CodeRuns` covers the code as it is for
  runs without removes and for a single operation. Otherwise: a remover that has found, or can get to, a record on the spine
  with at most one child (`SpineCutBreaks`, `HeadingCuts`) can free it under the walk; a thread that holds or awaits the
  successor, or can get to await it (`SuccessorTaken`, `HeadingTaken`), can find it freed; and `WalkReadsFreed` and
  `QueryMissesKey` are whole runs of the code that go wrong. That the guard is sufficient is proved for every state; that it
  is necessary is proved only for those families, and for other uses of the spine nothing is claimed.
- *Maze.* `rand` is an arbitrary choice. The full and the pruned report of the solver are two builds of the same program;
  the model returns both.
- *Shutdown.* The comment at server.c:379-384 asks that no thread can add itself to the list once the server stops
  accepting; the test at server.c:100 is made without a lock and does not ensure it. `RegistersAfterExit` says exactly when
  a client can still get in after the main thread's wait, and `LateReachable` that this happens.
- *Overlong keys.* `node_constructor` accepts a key of 256 characters and stores 255 of them at the place of the whole key.
  `LongKeyOrder` says exactly when the tree stays ordered, `AddExact` exactly when an add is the map's insertion.

## Model

| member | source | states |
|---|---|---|
| `MallocLayout.Align` | 6-malloc-haininz/mm.c:27-29 | the least multiple of 8 that is not below the size |
| `MallocLayout.AdjustedSize` | 6-malloc-haininz/mm.c:84-87 | a block size that is aligned, at least 32 and holds the payload and both tags |
| `MallocLayout.AdjustedIsAligned` | 6-malloc-haininz/mm.c:208-236 | rounding commutes with adding the tags, so the rounded copy of a moving realloc fits the new payload |
| `MallocLayout.SbrkTruncates` | 6-malloc-haininz/memlib.c:51-61 | requests up to `INT_MAX` are served as asked or refused; one that is neither grows the heap by less, and its block would end past all storage |
| `MallocLayout.SbrkTruncatesWitness` | 6-malloc-haininz/memlib.c:51-61 | a request of 4 GB and 16 bytes on a fresh heap grows it by 32 bytes |
| `MallocMemory.TagBits` | 6-malloc-haininz/mminline.h:37-65 | size and allocated bit can both be read back from a tag word |
| `MallocMemory.PullCoherent` | 6-malloc-haininz/mminline.h:278-288 | pulling a block leaves one circular doubly linked list of exactly the others, all tags intact and all payloads untouched |
| `MallocMemory.InsertCoherent` | 6-malloc-haininz/mminline.h:297-313 | inserting a block leaves one circular doubly linked list with it in front, all tags intact and all payloads untouched |
| `MallocMemory.RetagCoherent` | 6-malloc-haininz/mminline.h:88-131 | writing both tags of a block keeps every other block's tags, every link of the list and every payload outside |
| `MallocMemory.PayloadWrite` | 6-malloc-haininz/mm.c:236-236 | writing inside a live payload damages no tag, no link and no other payload |
| `MallocLayout.SplitSound` | 6-malloc-haininz/mm.c:95-110 | cutting the top off a free block keeps the tiling, the exact free list and the separation of free blocks |
| `MallocLayout.MergeSound` | 6-malloc-haininz/mm.c:136-149 | joining a block with the free one after it keeps the tiling and the exact free list |
| `MallocLayout.CoalesceWellFormed` | 6-malloc-haininz/mm.c:132-150 | coalescing restores that no two free blocks touch, whichever neighbours are free |
| `MallocLayout.FreeWellFormed` | 6-malloc-haininz/mm.c:163-174 | freeing a live block leaves a tiled heap, an exact free list and no two adjacent free blocks |
| `MallocLayout.MallocWellFormed` | 6-malloc-haininz/mm.c:76-130 | allocation leaves a well-formed heap on all its paths, and the block it returns is live |
| `MallocLayout.MallocOutcome` | 6-malloc-haininz/mm.c:90-129 | the first fitting block in list order serves the request; brk grows, by exactly the block, only if no free block fits; failure exactly if the storage is exhausted too |
| `MallocLayout.MallocLive` | 6-malloc-haininz/mm.c:84-129 | the block was not live before, exceeds the adjusted size by less than 32 bytes, and no other live block changes |
| `MallocLayout.ServedPart` | 6-malloc-haininz/mm.c:93-115 | the first fitting block gives up exactly its top if 32 bytes or more remain, and then leads the list; else it goes whole |
| `MallocLayout.FreeLive` | 6-malloc-haininz/mm.c:163-174 | exactly the freed block stops being live; all others keep address and size |
| `MallocLayout.FreedFirst` | 6-malloc-haininz/mm.c:163-174 | a block freed behind a used one comes first in the free list, and a free block after it is gone from the list |
| `MallocLayout.LastFreedFirst` | 6-malloc-haininz/mm.c:90-116 | the next request that fits it is served from the block freed last |
| `MallocLayout.GrowWellFormed` | 6-malloc-haininz/mm.c:217-227 | growing a live block into the free one after it keeps the heap well formed |
| `MallocLayout.FitsAsIfFreed` | 6-malloc-haininz/mm.c:213-227 | behind a used block, a resize stays in place if and only if freeing the block would leave one of at least the new size there |
| `MallocLayout.SizesSumToHeap` | 6-malloc-haininz/memlib.c:66-76 | stepping by sizes from the prologue meets every block once, in address order, and the sizes sum to the heap size |
| `MallocLayout.RangeChecksPass` | 6-malloc-haininz/mdriver.c:346-381 | a live payload is aligned, inside the heap and disjoint from every other live payload |
| `MallocLayout.AllFreed` | 6-malloc-haininz/mm.c:132-174 | with no live block left the heap is prologue, at most one free block covering everything between, and epilogue |
| `MallocLayout.LeadsSound` | 6-malloc-haininz/mm.c:44-240 | every layout that a run of requests leads to from `mm_init` is well formed |
| `MallocLayout.LeadsOnce` | 6-malloc-haininz/mm.c:44-240 | the requests alone decide the whole layout: addresses, sizes, bits and list order |
| `MallocHazards.CopyHazards` | 6-malloc-haininz/mm.c:229-237 | the copy of a moving realloc stays inside the new payload and off the old one, always reads past the old one, leaves the storage only when moving down, and overlaps its source exactly if the new block starts above the old one by less than the bytes copied |
| `MallocHazards.CopyMeets` | 6-malloc-haininz/mm.c:236-236 | a run from `mm_init` after which source and destination overlap |
| `MallocHazards.CopyLeaves` | 6-malloc-haininz/mm.c:236-236 | a run from `mm_init` after which the copy reads past the end of the storage |
| `Malloc.Heap.BlockSetSize` | 6-malloc-haininz/mminline.h:88-94 | both tags get the new size and the old allocated bit; nothing else is written |
| `Malloc.Heap.BlockSetAllocated` | 6-malloc-haininz/mminline.h:105-115 | both tags get the new allocated bit and keep the size; nothing else is written |
| `Malloc.Heap.BlockSetSizeAndAllocated` | 6-malloc-haininz/mminline.h:126-131 | both tags get size and bit; nothing else is written |
| `Malloc.Heap.PullFreeBlock` | 6-malloc-haininz/mminline.h:278-288 | the neighbours' links meet, and the list head moves on or becomes NULL as it should |
| `Malloc.Heap.InsertFreeBlock` | 6-malloc-haininz/mminline.h:297-313 | the four link writes of an insertion before the head, in an empty list too |
| `Malloc.Heap.MemSbrk` | 6-malloc-haininz/memlib.c:51-61 | -1 and no change exactly for a negative increment or one past the storage; else the old brk |
| `Malloc.Heap.MmInit` | 6-malloc-haininz/mm.c:44-63 | a valid heap of prologue and epilogue with an empty free list, which no request has been made of |
| `Malloc.Heap.SplitBlock` | 6-malloc-haininz/mm.c:103-110 | memory after the split stores the split layout and no payload byte has changed |
| `Malloc.Heap.ExtendHeap` | 6-malloc-haininz/mm.c:124-129 | the old epilogue becomes the new block, a new epilogue ends at brk, and no payload byte has changed |
| `Malloc.Heap.FindFit` | 6-malloc-haininz/mm.c:90-116 | the circular scan terminates with the first fitting block in list order, or none |
| `Malloc.Heap.Allocate` | 6-malloc-haininz/mm.c:90-129 | for any block size: a fault exactly if `mem_sbrk` serves it short; else tags and links in memory become those of the first-fit specification, and no live payload byte changes |
| `Malloc.Heap.MmMalloc` | 6-malloc-haininz/mm.c:76-130 | NULL exactly if the size is zero or nothing fits and the storage is exhausted, with nothing changed; else one new live block, big enough and at most 24 bytes too big, every other payload intact, and the request is the run's next; a fault exactly if `mem_sbrk` serves the size short |
| `Malloc.Heap.CoalesceBlock` | 6-malloc-haininz/mm.c:132-150 | memory follows the coalescing of the layout and no payload byte changes |
| `Malloc.Heap.MmFree` | 6-malloc-haininz/mm.c:163-174 | exactly the freed payload disappears; every other payload keeps place and contents; NULL does nothing |
| `Malloc.Heap.CopyInto` | 6-malloc-haininz/mm.c:236-236 | the copy fills the front of the new payload with the whole old one and stays inside the new payload |
| `Malloc.Heap.GrowBlock` | 6-malloc-haininz/mm.c:217-227 | the block swallows the next one, keeps its payload in front, and no other payload changes |
| `Malloc.Heap.Resize` | 6-malloc-haininz/mm.c:206-239 | same address exactly if it fits in place or with the free block after it; NULL exactly if there is no room, and then nothing has changed; which requests of the layout each path makes |
| `Malloc.Heap.MmRealloc` | 6-malloc-haininz/mm.c:189-240 | on all paths the old payload is at the front of the result and no other payload changes; the address stays, and brk with it, exactly if the block is large enough or is so together with a free block after it, an exact fit included; NULL exactly if it fits neither so nor elsewhere, with nothing changed; size zero frees; a fault exactly if `mem_sbrk` serves the size short |
| `MallocDriver.AddRange` | 6-malloc-haininz/mdriver.c:346-393 | accepts exactly aligned payloads inside the heap neither end of which lies in a range on the list |
| `MallocDriver.RemoveRange` | 6-malloc-haininz/mdriver.c:399-411 | the list loses exactly the range of the given index, whatever lost and stale ranges are on it |
| `MallocDriver.RangePasses` | 6-malloc-haininz/mdriver.c:346-381 | the checks on a live payload fail if and only if one of its ends lies in a stale range |
| `MallocDriver.MemSet` | 6-malloc-haininz/mdriver.c:588-588 | filling a live payload changes that payload only and leaves the heap valid |
| `MallocDriver.TrackedAdd` | 6-malloc-haininz/mdriver.c:567-634 | after an allocation or reallocation and the fill, every index in use owns its own live block with its own pattern, and all other live blocks are lost ones |
| `MallocDriver.Driver.PlayAlloc` | 6-malloc-haininz/mdriver.c:565-593 | exhausted exactly if nothing fits and the storage is used up; aborted exactly for a negative size; refused exactly if an end of the payload lies in a stale range; else the index has the new block and one it had before is lost |
| `MallocDriver.Driver.PlayRealloc` | 6-malloc-haininz/mdriver.c:595-634 | size zero frees the block and leaves its range stale; else refused exactly if an end of the payload lies in a stale range, and the data check fails exactly for high bytes read as signed chars |
| `MallocDriver.Driver.CheckData` | 6-malloc-haininz/mdriver.c:614-627 | data that was preserved passes the comparison if and only if its bytes are below 128 or `char` is unsigned |
| `MallocDriver.Driver.EvalMmValid` | 6-malloc-haininz/mdriver.c:540-651 | every legal trace ends exactly as its verdict says; after a passed trace that has freed everything, the heap is empty if and only if no index was allocated while in use, and is then at most one free block |
| `MallocTrace.VerdictOnce` | 6-malloc-haininz/mdriver.c:540-651 | a trace has one verdict, decided by where first fit puts its blocks and which ranges are stale |
| `MallocTrace.RefusedAfterZero` | 6-malloc-haininz/mdriver.c:595-607 | the verdict is a refused payload only if something is placed after a reallocation to zero |
| `MallocTrace.DataLostExactly` | 6-malloc-haininz/mdriver.c:614-627 | the verdict is lost data only where high bytes are compared as signed chars, and no trace passes such a comparison |
| `MallocTrace.MissedOverlap` | 6-malloc-haininz/mdriver.c:373-381 | the overlap test misses shared bytes if and only if the new payload reaches beyond the listed range on both sides |
| `MallocTrace.AllocPlays` | 6-malloc-haininz/mm.c:76-130 | the block a heap's next allocation request brings to life is the one first fit chooses in its layout, so the operation ends as in the verdict |
| `MallocTrace.ReallocPlays` | 6-malloc-haininz/mm.c:189-240 | the requests of a resize leave the block where the layout says: in place, grown, or moved by first fit |
| `MallocExamples.ReuseVerdict` | 6-malloc-haininz/mdriver.c:595-607 | allocate n, reallocate to zero, allocate m: refused if and only if the second block fits the first, for all n and m |
| `MallocExamples.EnclosedPasses` | 6-malloc-haininz/mdriver.c:373-381 | a trace that passes although its last payload covers a stale range |
| `MallocExamples.ExactFit` | 6-malloc-haininz/mm.c:219-227 | a run after which a block grows in place into a free one that fits exactly |
| `DbTree.LessTrans` | 7-database-haininz/db.c:97-97 | `strcmp` order is transitive, as ordered search needs |
| `DbTree.LessExact` | 7-database-haininz/db.c:97-97 | one key is less than another exactly if at the first difference it ends or has the smaller character |
| `DbTree.LookupIsMapGet` | 7-database-haininz/db.c:91-128 | binary search in an ordered tree finds a key exactly if the map has it, with the map's value |
| `DbTree.InsertOrdered` | 7-database-haininz/db.c:160-168 | adding an absent key where the search ended keeps the strict order |
| `DbTree.InsertContents` | 7-database-haininz/db.c:160-168 | the tree then maps the new key to its value and is otherwise unchanged |
| `DbTree.SuccessorOrdered` | 7-database-haininz/db.c:218-246 | taking over the successor keeps the order and deletes exactly the old key |
| `DbTree.RemoveContents` | 7-database-haininz/db.c:175-251 | removal in all three cases keeps the order and deletes exactly the given key |
| `DbTree.RemoveIds` | 7-database-haininz/db.c:197-247 | removal drops exactly one record, the one the code destroys |
| `DbTree.InsertCells` | 7-database-haininz/db.c:162-168 | insertion changes one link of the record where the search ended, and adds one record |
| `DbTree.SpliceCells` | 7-database-haininz/db.c:197-217 | removal of a record with at most one child changes one link of its parent |
| `DbTree.SuccessorCells` | 7-database-haininz/db.c:224-240 | removal of a record with two children changes its key and value and one link that led to the successor |
| `Db.NodeConstructor` | 7-database-haininz/db.c:20-61 | NULL exactly for an overlong key or value or if malloc fails; else a fresh record with both clipped |
| `Db.Database.Search` | 7-database-haininz/db.c:91-128 | the record found and its parent are those of binary search in the tree the records represent |
| `Db.Database.DbQuery` | 7-database-haininz/db.c:130-144 | the map's value for the key, or "not found", clipped to the buffer |
| `Db.Database.DbAdd` | 7-database-haininz/db.c:146-173 | reports exactly whether the key was absent, even when no record could be made; for storable keys and values the map gains exactly that binding; the records stay linked and ordered |
| `Db.Database.FindSuccessor` | 7-database-haininz/db.c:224-233 | the loop ends at the smallest record of the right subtree and at the record whose link leads to it |
| `Db.Database.ReplaceBySuccessor` | 7-database-haininz/db.c:224-246 | the records become those of the tree without the key; the successor's record is the one that goes |
| `Db.Database.DbRemove` | 7-database-haininz/db.c:175-251 | reports exactly whether the key was there; the map loses exactly that key; the records stay linked and ordered |
| `DbCommands.ScanBack` | 7-database-haininz/db.c:342-373 | a word of up to 255 characters written after any white space is scanned back whole, and what follows it is left |
| `DbCommands.ParseExact` | 7-database-haininz/db.c:333-379 | a line is a query, delete or file command exactly if it is the letter and a word, an add exactly if it is the letter and two words, in any white space and with any line end |
| `DbCommands.NewlineEnds` | 7-database-haininz/comm.c:102-102 | the lines clients send, each with its newline, are such commands |
| `DbCommands.AnswerExact` | 7-database-haininz/db.c:327-406 | what each such line does to the map and answers, word for word; a file leaves what its lines leave one after the other; every other line does nothing and is answered "ill-formed command" |
| `DbCommands.AfterAllOneMore` | 7-database-haininz/db.c:394-397 | one line more has exactly its own effect and answer on what the lines before left |
| `DbCommands.InterpretCommand` | 7-database-haininz/db.c:327-406 | every command line, ill-formed ones and files included, gets the map's response and leaves the map's next state, whichever records malloc has memory for |
| `DbCommands.InterpretLines` | 7-database-haininz/db.c:394-397 | any sequence of commands gives the map's responses one by one, and leaves the map they lead to |
| `DbCommands.AfterAllNoBlank` | 7-database-haininz/db.c:347-350 | commands never store an empty value, so a query says "not found" only for a missing key |
| `DbCommands.CommandsRoundTrip` | 7-database-haininz/db.c:340-379 | after any run, for lines in any white space: add, query, delete, query, delete give exactly the expected five responses, for a key that is there, for a new one and for one there is no memory for; add with delete leaves the map without the key |
| `DbCommands.LongKeyOrder` | 7-database-haininz/db.c:25-47 | adding a key of 256 characters keeps the tree ordered if and only if its first 255 characters are not a key already |
| `DbCommands.LongKeyWitness` | 7-database-haininz/db.c:25-47 | such a key and tree: a direct `db_add` after which the tree is unordered |
| `DbCommands.AddExact` | 7-database-haininz/db.c:25-53 | an accepted add is the map's insertion if and only if key and value are shorter than 256 |
| `DbConcurrent.AheadFacts` | 7-database-haininz/db.c:91-128 | a thread's key, if anywhere in the tree, is in the subtree it will enter from the record it stands on |
| `DbSafety.GotKeeps` | 7-database-haininz/db.c:107-118 | letting the parent go once the child is held keeps the thread on its search path |
| `DbSafety.LinkKeeps` | 7-database-haininz/db.c:146-173 | a new record where the search ended leaves every other thread on its search path |
| `DbSafety.CutKeeps` | 7-database-haininz/db.c:197-247 | cutting a record out leaves every other thread on its search path, and off the record |
| `DbSafety.PrintingKeeps` | 7-database-haininz/db.c:263-288 | every step of a print keeps its read locks on exactly the path from the head to the record it prints |
| `DbSafety.Referenced` | 7-database-haininz/db.c:91-288 | every record a thread holds or awaits is in the tree, or is its own to destroy |
| `DbSafety.StepKeeps` | 7-database-haininz/db.c:91-288 | every step of the specification keeps tree order, lock exclusion, search paths and the set of existing records |
| `DbHistory.SameAsCommands` | 7-database-haininz/db.c:340-379 | the effects and replies that explain a run of threads are those of the commands without threads |
| `DbHistory.StepExplained` | 7-database-haininz/db.c:130-251 | every step leaves the map alone or does exactly the operation of its thread, with the map's reply |
| `DbHistory.SomeoneMoves` | 7-database-haininz/db.c:91-288 | while a thread is unfinished some thread can step: whoever is waited for waits deeper |
| `DbRefines.LinkIsLocal` | 7-database-haininz/db.c:160-168 | the specification's insertion is the write to one link of the record the thread holds, and the new record |
| `DbRefines.SpliceIsLocal` | 7-database-haininz/db.c:197-212 | its removal of a record with at most one child is the write to one link of the parent the thread holds |
| `DbRefines.SuccessorIsLocal` | 7-database-haininz/db.c:224-247 | its removal of a record with two children is three writes: the link that leads to the successor, and key and value of the record the thread holds |
| `DbRefines.StepRefines` | 7-database-haininz/db.c:91-288 | every access of every thread to the records in memory is a step of the specification or hidden from all other threads, in the midst of other threads' walks too |
| `DbMachineRuns.MachineLinearizable` | 7-database-haininz/db.c:91-251 | every run over memory, successor walks link by link, is explained by one order of its operations on a map: each reply is the map's at that point, and memory stores a tree with the map's contents, but for the two records that each walk under way writes ahead |
| `DbMachineRuns.MachineRealTime` | 7-database-haininz/db.c:91-251 | in that order an operation that had taken effect stays before every one that had not |
| `DbMachineRuns.MachineGivesBack` | 7-database-haininz/db.c:107-288 | when all operations have ended no lock is held and memory is exactly the records of an ordered tree |
| `DbMachineRuns.MachineDestroysUnused` | 7-database-haininz/db.c:201-247 | a record about to be destroyed is locked, awaited and walked over by nobody |
| `DbMachineRuns.NoUseAfterFree` | 7-database-haininz/db.c:91-288 | in every reachable state the records a thread reads, writes, locks, unlocks or frees next exist, those of the walk without locks included |
| `DbMachineRuns.MachineProgress` | 7-database-haininz/db.c:91-288 | in every reachable state some thread can step unless all have ended |
| `DbBounds.AheadShrinks` | 7-database-haininz/db.c:107-118 | strictly fewer records lie ahead of a search once it enters the child |
| `DbBounds.PrintStep` | 7-database-haininz/db.c:263-288 | every step of a print uses up one of a number fixed by the records it has still to visit |
| `DbMachineRuns.StepsBounded` | 7-database-haininz/db.c:91-288 | every operation, prints and walks included, takes at most a number of own steps fixed by the records and threads at the start |
| `DbMachineRuns.EveryRunEnds` | 7-database-haininz/db.c:91-288 | every run is finite, and one that cannot go on has finished every operation |
| `DbMachineRuns.SharedByReaders` | 7-database-haininz/db.c:91-288 | two threads hold a record at once only if both query or print, the head only if both print |
| `DbMachineRuns.ReadersShare` | 7-database-haininz/db.c:107-118 | a query never waits for a record that only queries and prints hold |
| `DbPrint.NextLockExact` | 7-database-haininz/db.c:91-288 | the record a step is said to lock is what it adds to the locks held |
| `DbPrint.PrintLocksAll` | 7-database-haininz/db.c:263-288 | in every run a print that has ended has locked every record that was in the tree from its first step on, the head included, each once, whatever was added and removed meanwhile |
| `DbPrint.PrintAlone` | 7-database-haininz/db.c:263-288 | a print nobody interrupts locks the head and then every record in preorder |
| `DbMachineRuns.CodeRuns` | 7-database-haininz/db.c:91-288 | every run of the code as it is, without removes or of one operation, is linearizable and touches no freed record |
| `DbSuccessor.SpineCutBreaks` | 7-database-haininz/db.c:224-233 | link by link and without waiting, whenever another remover has found a record with at most one child on the spine, the walk can come to read it after it was freed |
| `DbSuccessor.SuccessorTaken` | 7-database-haininz/db.c:224-247 | without waiting, whenever another thread holds or awaits the successor, the walk can free it under that thread |
| `DbSuccessor.HeadingTaken` | 7-database-haininz/db.c:107-118 | so it can under a thread higher up on the spine with nobody below it, whose key leads it to the successor: the thread is left waiting for a freed lock |
| `DbSuccessor.HeadingCuts` | 7-database-haininz/db.c:107-118 | a remover higher up, with nobody below it, that is on its way to a record of the spine with at most one child can free it under the walk |
| `DbSuccessor.WalkReadsFreed` | 7-database-haininz/db.c:224-233 | a run of the code, from a fresh start, in which the walk reads a freed record |
| `DbSuccessor.QueryMissesKey` | 7-database-haininz/db.c:218-247 | a run of the code, from a fresh start, in which a query replies "not found" to a key that is in the tree at the start and that nobody removes |
| `MazeGrid.NeighborsAreAdjacent` | 1-maze-haininz/common.c:46-73 | the four directions lead to exactly the rooms of the grid one row or one column away |
| `MazeGenerator.StepByCoordinates` | 1-maze-haininz/common.c:46-73 | one can step up, down, left or right exactly if that room is in range and that wall is open |
| `MazeGrid.NeighborBack` | 1-maze-haininz/generator.c:17-36 | adjacency is mutual across opposite sides, and each side leads to a different room |
| `MazeGrid.InitializeMaze` | 1-maze-haininz/common.c:87-106 | every room is blank: unvisited, undecided, linked to nothing |
| `MazeGrid.ClosedHolds` | 1-maze-haininz/solver.c:104-129 | a set of rooms that no opening leaves holds everything reachable from it |
| `MazeGrid.ReachableBack` | 1-maze-haininz/generator.c:142-190 | where walls agree from both sides every walk can be walked back |
| `MazeGrid.OneWalk` | 1-maze-haininz/generator.c:74-194 | where every opening joins a room to the one it was first entered from, two repeat-free walks with the same ends are equal |
| `MazeGenerator.ShuffleArray` | 1-maze-haininz/generator.c:46-56 | whatever is drawn, all four directions are still there |
| `MazeGenerator.SettleOk` | 1-maze-haininz/generator.c:142-190 | deciding a side without opening it keeps both rooms in agreement and the border solid |
| `MazeGenerator.OpenEdgesGrow` | 1-maze-haininz/generator.c:119-139 | opening the way to an unvisited room carves exactly one new edge |
| `MazeGenerator.WalkSide` | 1-maze-haininz/generator.c:88-193 | one side of the room being walked is decided, by a wall, by the neighbour's value or by an opening and a walk behind it |
| `MazeGenerator.DrunkenWalk` | 1-maze-haininz/generator.c:74-194 | terminates for every shuffle; rooms left are decided, rooms visited before untouched, rooms visited since reachable, edges one fewer than visited rooms, and every opening joins a room to the one it was entered from |
| `MazeGenerator.WalkedSpans` | 1-maze-haininz/generator.c:74-194 | from the first room of a fresh grid every room is visited, borders are solid, walls match, exactly one repeat-free walk joins any two rooms, and there are rows*cols-1 edges |
| `MazeGenerator.EncodeRoom` | 1-maze-haininz/generator.c:204-225 | one hexadecimal digit whose four bits are the four walls |
| `MazeGenerator.EncodeMaze` | 1-maze-haininz/generator.c:239-251 | every room's number is its encoding |
| `MazeGenerator.EncodedOpens` | 1-maze-haininz/generator.c:204-251 | the numbers open exactly the steps of the maze: up, down, left, right for a clear bit 0, 1, 2, 3 |
| `MazeGenerator.Generate` | 1-maze-haininz/generator.c:343-354 | for a grid with rooms, a spanning tree and numbers that open exactly its steps; nothing otherwise |
| `MazeSolver.RoomRoundTrip` | 1-maze-haininz/solver.c:30-37 | decoding an encoded room gives back every decided side |
| `MazeSolver.DecodeMaze` | 1-maze-haininz/solver.c:53-65 | every room gets the walls of its number and keeps the rest |
| `MazeSolver.DecodedOpens` | 1-maze-haininz/solver.c:30-65 | in the decoded maze one can step from a room to the one above, below, left or right exactly if that is in range and bit 0, 1, 2 or 3 of the room's number is clear |
| `MazeSolver.Dfs` | 1-maze-haininz/solver.c:87-130 | terminates; on success the links lead along openings to the goal, by the first repeat-free way in the order up, down, right, left; on failure everything visited is closed under openings; rooms visited before are untouched; the trace is contiguous and has every room entered |
| `MazeSolver.SearchExact` | 1-maze-haininz/solver.c:87-130 | on any maze, symmetric or not, the search succeeds if and only if the goal can be reached through openings |
| `MazeSolver.ChainAcyclic` | 1-maze-haininz/solver.c:115-115 | after success or failure, every chain of links is free of repeats and follows openings |
| `MazeSolver.PrintPrunedPath` | 1-maze-haininz/solver.c:142-155 | terminates, and prints exactly the chain of links from the start |
| `MazeSolver.PrintedIsPath` | 1-maze-haininz/solver.c:277-289 | on success what is printed is the path to the goal |
| `MazeSolver.Solve` | 1-maze-haininz/solver.c:221-298 | refuses exactly positions out of range; else, by the numbers and coordinates alone: success exactly if there is a way; a pruned report that is the first repeat-free way in the order of the directions; a full report that is contiguous, ends at the goal or back at the start, and on failure has every room that can be reached |
| `MazeSolver.MazeRoundTrip` | 1-maze-haininz/generator.c:239-251 | decoding the encoding of a maze with matching walls gives back the same walls |
| `MazeSolver.GenerateAndSolve` | 1-maze-haininz/generator.c:343-354 | every generated maze is solved between any two of its rooms; the pruned report is the one repeat-free walk between them through the openings of that maze |
| `ServerRegistry.InsertLinked` | 7-database-haininz/server.c:121-127 | the three writes put a client in front of a doubly linked list |
| `ServerRegistry.RemoveLinked` | 7-database-haininz/server.c:190-199 | the two writes take a client out, from any place in the list |
| `ServerRegistry.StepKeeps` | 7-database-haininz/server.c:100-223 | every step of every client, sweep and main thread keeps list, links, mutexes, counter and freed clients consistent |
| `ServerRegistry.RegistrySound` | 7-database-haininz/server.c:108-127 | in every reachable state the counter is the number of threads between increment and decrement, listed clients are distinct, counted and not freed, clients being served are listed, and the list is linked when no client is changing it |
| `ServerRegistry.EmptyAtExit` | 7-database-haininz/server.c:441-447 | when the main thread's wait loop exits the list is empty and nobody is counted |
| `ServerRegistry.SweepSound` | 7-database-haininz/server.c:210-223 | delete_all visits only listed, unfreed clients, and has cancelled every one when it ends |
| `ServerRegistry.MainIsWoken` | 7-database-haininz/server.c:200-208 | in every reachable state with nobody counted and no client about to signal, the main thread is not asleep without a signal |
| `ServerLiveness.GetsServed` | 7-database-haininz/server.c:100-131 | in every reachable state a client that comes while the server accepts, with nobody in its way, gets counted, listed and served by its own steps |
| `ServerLiveness.ShutdownGoesOn` | 7-database-haininz/server.c:436-450 | a shutdown never gets stuck before the main thread has exited, even if nobody wakes up without a signal |
| `ServerShutdown.RegistersAfterExit` | 7-database-haininz/server.c:100-110 | after that exit the list can fill again if and only if a client has passed the accepting test and not been counted |
| `ServerShutdown.LateReachable` | 7-database-haininz/server.c:100-110 | a run in which this is so |
| `ServerGate.StoppedStarts` | 7-database-haininz/server.c:138-147 | while the gate is stopped only a client already past it starts a command, and only one |
| `ServerGate.StopHolds` | 7-database-haininz/server.c:229-282 | between a completed stop and the next release each client starts at most one command, whatever wake-ups and further stops occur |
| `ServerGate.NoLostWakeup` | 7-database-haininz/server.c:229-282 | after a release no client goes on sleeping without a signal |
| `ServerGate.StoppedExactly` | 7-database-haininz/server.c:256-282 | whenever the main thread is done, the gate is stopped exactly if its last command was a stop |
| `ServerGate.ReleaseOpens` | 7-database-haininz/server.c:229-282 | after any run whose last command was a release, or that had none, every client that has not left can be brought to start a command by steps of clients alone |
| `ServerGate.EverySixth` | 7-database-haininz/server.c:138-147 | while no stop is given a client starts a command with every sixth of its own steps, whatever the others do |
| `ServerGate.NobodyStuck` | 7-database-haininz/server.c:229-282 | a client can always step, or whoever holds the mutex can |

## Left out

- The two shells, the traps and buffer exercises: process control and answers without source; the job list would only add easy members.
- Trace parsing, timing and scoring of the malloc driver, and its other evaluation modes: only the validity check is modelled.
- `mem_init`'s own `malloc`, `mem_deinit` and the page size: foreign calls.
- Malloc.Heap.Allocate: says nothing about the heap after a fault, because the code then writes past all storage; the same holds for MmMalloc, Resize and MmRealloc.
- Malloc.Heap.MmMalloc: the wrap-around of `long` arithmetic at the top of its range is not modelled.
- Malloc.Heap.MmRealloc: does not say which bytes arrive beyond the old payload, because the code copies past its end.
- Malloc.Heap.CopyInto: the same; the copy takes place also where `CopyHazards` finds the ranges overlapping or outside the storage, as if `memcpy` moved byte by byte upwards and read anything outside.
- MallocDriver.Driver.EvalMmValid: indices reallocated or freed when not in use are excluded, because the driver's pointers are then undefined.
- The locks' own error returns, and the output of `db_print`; of the print only the locking is modelled. The `realloc` calls of `db_remove` succeed, and so does every `malloc` of the concurrent model.
- DbSafety.CutKeeps: the step for a record with two children waits until no other thread is on the spine, which the code does not; DbSafety.StepKeeps, DbHistory.StepExplained, DbRefines.StepRefines DbHistory.SomeoneMoves and the theorems of DbMachineRuns but CodeRuns share this.
- DbSuccessor.SpineCutBreaks: with SuccessorTaken, HeadingTaken and HeadingCuts, one half only of an exact condition for the walk link by link without waiting; for the other states in which the spine is in use nothing is claimed.
- DbCommands.InterpretCommand: files are a parameter, and so is the number of files that can still be opened one inside another; cancellation inside a file is left out.
- ServerRegistry.RegistrySound: clients are identities, so reuse of a freed client's memory is not modelled; a refused client's record is never freed, as in the code.
- Sockets, `comm.c`, `client.c`, signal masks and thread creation: foreign calls. A client may leave its loop at any time.
- Maze file reading and writing, and command-line parsing.
- The distribution of shuffles.
