# Verified models from spring-os

Dafny models of the algorithmic parts of spring-os, an AArch64 microkernel with a musl runtime, and
proofs of what those parts are for. `dafny verify dfyconfig.toml` checks everything.

Each part keeps the form of its source: arrays sorted in place, objects with fields and marks, pointer
rings, table pages, loops with cursors. A method is tied to a function on values or to a state machine,
and the theorems are about that function or machine.

| part | modules | main results |
|---|---|---|
| Smoothsort | `OrderBits`, `LeonardoHeaps`, `LeonardoForests`, `ForestCode`, `SmoothsortSteps`, `Smoothsort` | every array is sorted and permuted; the two-word encoding works exactly up to L(66) elements |
| Dependency lists and constructor order | `DepGraph`, `BfsDeps`, `CtorOrder`, `CtorTurns`, `DsoLinker` | the list is the breadth-first closure, in one order; the queue is complete; exactly which objects come before which; stack and queue never collide |
| Constructors and finalizers | `InitFini`, `InitWakes` | five safety properties over every interleaving of threads; no wakeup is lost; exactly when threads can wait for each other for good |
| Symbol lookup | `SymbolIndex` | both hash indexes agree with a linear scan; `sysv_hash` is the standard's hash, `gnu_hash` in closed form |
| Thread-local storage | `TlsLayout` | regions never overlap, stay congruent to their images, and fit what is reserved, which is exact |
| Deferred relocations | `LazyRelocs` | in-place filtering conserves entries and rebuilds the list exactly |
| Page tables | `Descriptors`, `Attributes`, `Translation`, `Rights`, `PageTables` | mapping refines a flat map, with the rights its flags ask for, changes nothing else, takes its tables from the free frames and fails only without any; exactly where the walker answers right |
| Bitmaps and pages | `Bitmap`, `PageAlloc` | the area search is exact; live runs never overlap; exactly when counter and addresses are right; what stale descriptors do |
| Size-class heap | `HeapSpec`, `Halloc`, `HeapRuns` | over every sequence of calls, what is handed out is as long as asked for and apart, and no memory is lost; lists and headers in memory follow |
| Ready queues | `ReadyQueue` | pointer rings refine sequences; lowest list first; round robin within it |
| Wide arithmetic | `MulDiv`, `Words` | 96-bit multiply-divide is exact; when a round trip of ticks is within one |

`Words` holds bit operations on naturals, `Basics` what several modules share. Where a sum, a product,
a shift or a cast of the source can wrap, the model wraps too, or a `requires` or a line of "Left out" names the bound.
Where a contract compares a large predicate with `true`, the verifier takes it whole instead of part by part; the meaning is the same.

## What turned out not to hold

The model does what the code does. The members named in an entry state where the property fails and when it holds.

- `pntz` answers 64 for any gap of more than 64 between two tree orders. `Smoothsort.GapLimit`: every gap is
  measured right exactly when at most L(66) = 89891140425705 elements are sorted. By
  `SmoothsortSteps.OneForest` the number of elements determines the forest, so every longer sort meets the
  bad forest on its way down (`Smoothsort.GapMissed`). `QSort` is therefore proved up to L(66).
- `queue_ctors` puts a direct dependency that does not lead back first, but not every indirect one
  (`CtorOrder.IndirectLate`). `CtorTurns.PrecedesExactly` says, object by object, exactly which others come before it.
  The queue is a full order exactly when no two of its objects depend on each other (`CtorOrder.TopologicalExactly`).
- Two threads in `__libc_exit_fini` can run a finalizer twice (`InitFini.TwoExits`); finalizers run once in all
  runs with up to n exits exactly when n is at most 1 (`InitFini.ExitOnce`).
- Two threads whose constructors load each other's object wait for ever (`InitWakes.Deadlock`). Threads can always go
  on in runs with calls into the linker nested up to n deep exactly when n is at most 1 (`InitWakes.GoesExactly`).
- `bitmap_find_next_0` can return a set bit at a word boundary (`Bitmap.BoundaryTaken`); `Bitmap.Next0Exact` says when
  it does not. The area search built on it is exact all the same.
- `page_free` clears one bit of a run. The counter agrees with the bitmap exactly when the freed runs have as many
  pages behind their first, inside the section, as live runs have past its end (`PageAlloc.FreeCountsClear`). Where no
  run can reach past the end, that is: exactly when every run freed so far was a single page (`PageAlloc.SinglesOnly`).
  `PageAlloc.Miscounted` frees one of two.
- `page_section_init` does not clear the descriptors. `page_free` hits nothing but live runs where they are null
  (`PageAlloc.PageSection.Free`); one left from before can take a page out of a live run (`PageAlloc.Stale`).
- Areas are searched in whole words; `PageAlloc.StaysInside` says for which section sizes no page past the end is
  handed out.
- `pos*PAGE_SIZE` and `count*PAGE_SIZE` are products of `int`s. Addresses are right exactly in sections with at most
  0x80000 searched pages, 2 GB (`PageAlloc.AddressesExactly`); from 4.25 GB on, three allocations lead to two live runs
  at one address (`PageAlloc.SharedRuns`).
- A table keeps users out when the mapping that first needed it was the kernel's. A page mapped for users later is
  within their reach exactly when none of its tables was made for the kernel (`Rights.KeptOutExactly`).
- `halloc` wraps for requests above 2^64 - 32 (`Halloc.RoundsUp`): the next block is then the same one, or has no room
  (`Halloc.WideRequest`).
- A freed block is the next one of its size exactly when its header is not at address 0, which ends a list
  (`HeapSpec.ComesBack`). `HeapRuns.AtZero` loses the first block of a region there.
- `slab_size` is 32 bits wide: `slab_base + slab_size` falls short of `slab_end` by a constant `lost`, which is 0 exactly
  for regions below 4 GB (`Halloc.Heap.Init`; no other method may change `lost`).
- `map_pud_range` and `map_pgd_range` do not stop at the boundary of the unit a range starts in; `PudFits` and
  `PgdFits` describe exactly the ranges whose chunks stay below one entry (`PageTables.PudFitsExactly`,
  `PageTables.PgdFitsExactly`). Of any other range, nothing written below the entry a chunk is passed to maps the page
  behind its boundary (`PageTables.ChunkMisses`).
- `pgtbl_walk` shifts bit-fields without widening them and drops the offset in a block. It answers right exactly for
  pages below 64 GB and for the first bytes of blocks below 2 GB (`PageTables.PageMemory.PgtblWalk`); a page at 64 GB is
  walked to 0 (`PageTables.HighFrame`).
- `ns2tick(tick2ns(t))` is t or t - 1 exactly when t * 10^9 leaves a remainder of at most 10^9 modulo the
  frequency (`MulDiv.RoundTrip`); up to 1 GHz it always does, at 3 GHz it does not (`MulDiv.FastClock`).
- `list_del` leaves a poisoned link behind, so a process taken off its list by `rm_proc_from_ready_list` does not pass
  the check of `add_proc_to_ready_list`, which is that the link is null (`ReadyQueue.TakenOff`).

## Model

| member | source | states |
|---|---|---|
| Smoothsort.QSort | ukern/src/qsort.c:170-231 | for every total preorder the array ends sorted and holds the same multiset of elements |
| Smoothsort.SmoothSort | ukern/src/qsort.c:170-231 | the in-place sort computes the sort on values, for any comparator |
| SmoothsortSteps.SmoothSortedSorts | ukern/src/qsort.c:187-230 | building, the last trinkle and draining together sort and permute every sequence |
| SmoothsortSteps.PlacedBuilding | ukern/src/qsort.c:187-210 | a building round keeps: every tree but the last a heap, roots that can no longer be merged in order |
| SmoothsortSteps.BuiltBuilding | ukern/src/qsort.c:187-210 | that invariant holds at the end of the building loop, whatever was skipped for trees still to be merged |
| SmoothsortSteps.TailInOrder | ukern/src/qsort.c:193-197 | left of a final tree all roots are in order, which is what makes the skipped trinkles harmless |
| LeonardoForests.FinalIsSorted | ukern/src/qsort.c:193-197 | left of a final tree every tree is final |
| SmoothsortSteps.RemovedDrains | ukern/src/qsort.c:214-230 | a draining round keeps a sorted forest of heaps below a settled, larger rest |
| SmoothsortSteps.DrainedSorted | ukern/src/qsort.c:214-230 | draining a sorted forest of heaps leaves the whole sequence sorted |
| SmoothsortSteps.GrownShrunk | ukern/src/qsort.c:187-230 | the building loop's change to the forest undoes the draining loop's |
| SmoothsortSteps.OneForest | ukern/src/qsort.c:187-230 | two forests over the same number of elements are equal, so the last tree left has order 1 |
| LeonardoHeaps.HeapMax | ukern/src/qsort.c:104-129 | the root of a Leonardo heap is its maximum |
| LeonardoHeaps.SiftedHeap | ukern/src/qsort.c:104-129 | sifting a new root over two heaps makes a heap |
| LeonardoHeaps.SiftedPermutes | ukern/src/qsort.c:104-129 | sifting only moves elements |
| LeonardoForests.ForestMax | ukern/src/qsort.c:131-168 | the rightmost root of a sorted forest of heaps is the maximum of the prefix |
| LeonardoForests.TrinkledForest | ukern/src/qsort.c:131-168 | trinkling makes a sorted forest of heaps, also when trusted not to look at the children |
| LeonardoForests.TrinkledPermutes | ukern/src/qsort.c:131-168 | trinkling only moves elements |
| Smoothsort.Cycle | ukern/src/qsort.c:57-77 | every position on the path takes its successor's value and the last one the first value |
| Smoothsort.Sift | ukern/src/qsort.c:104-129 | the path collected first and rotated once gives the sifted array; the path fits its buffer |
| Smoothsort.Trinkle | ukern/src/qsort.c:131-168 | navigating by p and pshift, path first and rotation later, gives the trinkled array |
| Smoothsort.LeonardoNumbers | ukern/src/qsort.c:184-185 | the table holds Leonardo numbers up to the first that is at least n, within its slots |
| Smoothsort.Advance | ukern/src/qsort.c:188-208 | p and pshift encode the forest after a building round |
| Smoothsort.RemoveHead | ukern/src/qsort.c:214-230 | a round leaves the removed array, and p and pshift encode the forest after it |
| Smoothsort.GapLimit | ukern/src/qsort.c:49-55 | pntz measures every gap of every forest over n elements exactly when n <= L(66) |
| Smoothsort.WideGap | ukern/src/qsort.c:49-55 | a forest over L(66) + 1 elements whose gap of 65 is read as 64 |
| Smoothsort.GapMissed | ukern/src/qsort.c:214-218 | every forest over L(66) + 1 elements is read that way, where the draining loop calls pntz |
| OrderBits.PNtzExact | ukern/src/qsort.c:49-55 | the distance to the next set bit is found exactly when it is at most 64 |
| OrderBits.ShlValue | ukern/src/qsort.c:80-90 | the two-word shift multiplies by 2^n while the result fits |
| OrderBits.ShrValue | ukern/src/qsort.c:92-102 | the two-word shift divides by 2^n |
| ForestCode.PairTest | ukern/src/qsort.c:188 | the low bits are 11 exactly when the two rightmost trees have consecutive orders |
| ForestCode.MergePair | ukern/src/qsort.c:190-208 | merging two consecutive trees, on the encoding |
| ForestCode.PushTree | ukern/src/qsort.c:199-208 | a new rightmost tree, on the encoding |
| ForestCode.NextTree | ukern/src/qsort.c:159-161 | the encoding of the forest without its rightmost tree, for gaps up to 64 |
| ForestCode.ExposeLeft | ukern/src/qsort.c:220-223 | the shift and flip expose the left subtree of a removed root |
| BfsDeps.BfsIsClosure | libc/ldso/dynlink.c:1240-1289 | the grown list holds exactly what is reachable over one or more edges, nearest first, additions without repetition |
| BfsDeps.BfsInTurn | libc/ldso/dynlink.c:1262-1285 | which of two entries comes first: the one whose first parent on the list does, or that stands first in their common parent's list |
| DsoLinker.ExtendBfsDeps | libc/ldso/dynlink.c:1240-1289 | the object's list becomes that closure, in that order, and all marks are clear again |
| DsoLinker.GrowDeps | libc/ldso/dynlink.c:1262-1285 | reading the list while it grows gives the breadth-first list |
| DsoLinker.AppendedFits | libc/ldso/dynlink.c:1264-1283 | the entries counted before the list is enlarged are enough for those copied |
| DsoLinker.QueueCtors | libc/ldso/dynlink.c:1441-1498 | the null-ended queue, of exactly the slots counted, holds every reachable object once, in constructor order; no mark of theirs is set, and none that was not before |
| DsoLinker.Load | libc/ldso/dynlink.c:2100-2104 | closure and queue in sequence, for any object, with all marks clear before and after |
| DsoLinker.Separate | libc/ldso/dynlink.c:1472-1497 | in every state of the search stack and queue together stay below the buffer's length |
| DsoLinker.ClosureBounds | libc/ldso/dynlink.c:1452-1460 | with the closure built, its length plus two bounds the search |
| DsoLinker.Descend | libc/ldso/dynlink.c:1485-1494 | the inner loop follows the search down to a node whose dependencies are all marked |
| DsoLinker.Visit | libc/ldso/dynlink.c:1483-1496 | a round follows the search until one more node is put out |
| CtorOrder.StateInv | libc/ldso/dynlink.c:1475-1496 | the search invariant holds after any number of steps |
| CtorOrder.EndsInCtorQueue | libc/ldso/dynlink.c:1441-1498 | a finished search has put out exactly what the root reaches, each after its dependencies that do not lead back |
| CtorOrder.DependencyFirst | libc/ldso/dynlink.c:1482-1496 | a direct dependency that does not reach its dependent comes first |
| CtorOrder.ChainFirst | libc/ldso/dynlink.c:1482-1496 | so does the end of a chain of dependencies none of which leads back to its start |
| CtorTurns.PrecedesExactly | libc/ldso/dynlink.c:1482-1496 | for every object: those before it are exactly those already out when the search came to it, and those it reaches around the objects then on the stack |
| CtorTurns.ComesBack | libc/ldso/dynlink.c:1482-1496 | the search comes back to every object it stacks, having reached only what that object reaches around the stack |
| CtorTurns.OutWhenBack | libc/ldso/dynlink.c:1482-1496 | what is out by then, in terms of the state when the object was stacked |
| CtorTurns.DependenciesInTurn | libc/ldso/dynlink.c:1484-1494 | dependency i of a stacked object comes before every object that is not out by then and that none of its first i + 1 dependencies reaches around the stack |
| CtorTurns.PassesEach | libc/ldso/dynlink.c:1484-1494 | the search passes the dependencies of a stacked object one after the other, having reached only what those so far reach |
| CtorOrder.TopologicalExactly | libc/ldso/dynlink.c:1482-1496 | everything an object depends on comes before it, for all objects, exactly when no two of them depend on each other |
| CtorOrder.IndirectLate | libc/ldso/dynlink.c:1482-1496 | a graph where an indirect dependency that does not lead back comes late |
| InitFini.RunInv | libc/ldso/dynlink.c:1510-1548 | the invariant of lock, marks, calls and finalizer list holds after every interleaving |
| InitFini.StartedOnce | libc/ldso/dynlink.c:1510-1548 | in every interleaving, constructors of an object start at most once |
| InitFini.NoneAfterShutdown | libc/ldso/dynlink.c:1518-1522 | once shutting down, no constructors start, however the run goes on |
| InitFini.ReturnsSettled | libc/ldso/dynlink.c:1510-1548 | whatever step makes do_init_fini return, every queued object is then constructed, or being visited by the caller itself |
| InitFini.OnlyAtEnd | libc/ldso/dynlink.c:1517-1547 | it returns only with its queue worked through and the lock held |
| InitFini.NoReturnWhileDown | libc/ldso/dynlink.c:1518-1519 | once shutting down, a call with an object to come never returns, however the run goes on |
| InitFini.RunsAlone | libc/ldso/dynlink.c:1518-1544 | no two threads, and no two calls of one thread, run constructors of one object at a time |
| InitFini.FinalizedInReverse | libc/ldso/dynlink.c:1400-1428 | with one exit, finalizers have run for constructed objects only, once each, in reverse order of constructor start |
| InitFini.FinalizedAll | libc/ldso/dynlink.c:1400-1428 | when it returns, they have run for all constructed objects |
| InitFini.TwoExits | libc/ldso/dynlink.c:1400-1428 | a run with two exits that finalizes an object twice |
| InitFini.ExitOnce | libc/ldso/dynlink.c:1400-1428 | at most once in all runs with up to n exits exactly when n <= 1 |
| InitWakes.IsRun | libc/ldso/dynlink.c:1519-1520 | runs in which waiting ends only with a broadcast are among those above |
| InitWakes.NoLostWakeup | libc/ldso/dynlink.c:1510-1548 | in every such run, whoever sleeps still has to: its condition has not changed since without a broadcast |
| InitWakes.VisitorSteps | libc/ldso/dynlink.c:1519-1544 | whoever keeps others waiting can go on, or is itself in a call made from a constructor |
| InitWakes.ShallowGoes | libc/ldso/dynlink.c:1510-1548 | without calls from constructors, some thread can always go on until all are outside or held up by an exit |
| InitWakes.Deadlock | libc/ldso/dynlink.c:1519-1520 | a run with such calls that leaves two threads asleep for good |
| InitWakes.GoesExactly | libc/ldso/dynlink.c:1510-1548 | some thread can always go on, in all runs with calls nested up to n deep, exactly when n <= 1 |
| SymbolIndex.SysvHash | libc/ldso/dynlink.c:224-233 | equals the hash function of System V gABI chapter 5, "Hash Table", for every string |
| SymbolIndex.FoldAgrees | libc/ldso/dynlink.c:224-233 | leaving the top nibble in place until the end changes nothing |
| SymbolIndex.ElfShort | libc/ldso/dynlink.c:224-233 | while the bytes as digits to base 16 fit 28 bits, they are the hash |
| SymbolIndex.HashGnu | libc/ldso/dynlink.c:235-242 | 5381 * 33^n plus the bytes as digits to base 33, modulo 2^32 |
| SymbolIndex.GnuClosed | libc/ldso/dynlink.c:235-242 | the same of the function that tables are built with |
| SymbolIndex.GnuLookup | libc/ldso/dynlink.c:258-277 | the least hashed symbol with the name and a visible version, as a linear scan finds it |
| SymbolIndex.GnuLookupFiltered | libc/ldso/dynlink.c:279-289 | the same behind the Bloom filter |
| SymbolIndex.NotInBloom | libc/ldso/dynlink.c:279-289 | a name the filter rejects is not among the hashed symbols |
| SymbolIndex.SysvLookup | libc/ldso/dynlink.c:244-254 | finds a visible symbol exactly when there is one; the scanned one when names are unique |
| SymbolIndex.CountSyms | libc/ldso/dynlink.c:931-948 | the number of symbols, or 0 when no symbol is hashed |
| TlsLayout.MaxP2IsMax | libc/ldso/dynlink.c:34 | MAXP2 of powers of two is their maximum |
| TlsLayout.PadFits | libc/ldso/dynlink.c:1168-1169 | the padding is below the alignment and makes the address congruent to the image |
| TlsLayout.TlsState.AddModule | libc/ldso/dynlink.c:1164-1170 | after any sequence of loads, regions do not overlap, each is congruent to its image, tls_align is the largest alignment |
| TlsLayout.NewThreadFits | libc/src/env/__init_tls.c:46-57 | in tls_size bytes every module's copy is aligned and lies between thread structure and DTV |
| TlsLayout.TlsSizeExactly | libc/ldso/dynlink.c:1568-1578 | the size reserved is the least multiple of the alignment with room for all of it |
| TlsLayout.AllocExactly | libc/ldso/dynlink.c:1142-1149 | the reservation is made exactly when n shares fit a signed word, and how long it is |
| TlsLayout.DtvExactly | libc/ldso/dynlink.c:1176-1177 | the new DTVs start at the first word boundary behind the name |
| TlsLayout.ReservationFits | libc/ldso/dynlink.c:1142-1179 | each running thread's new DTV and aligned copy fit in what was allocated, apart from each other |
| LazyRelocs.Dso.RetryAll | libc/ldso/dynlink.c:383-398 | entries are applied in order or kept in order, in the table being read |
| LazyRelocs.Conserved | libc/ldso/dynlink.c:390-398 | every entry is applied once or kept once |
| LazyRelocs.PickedResolve | libc/ldso/dynlink.c:383-398 | applied entries are those that resolve for the object, kept ones those that do not |
| LazyRelocs.PickedInOrder | libc/ldso/dynlink.c:390-398 | both are subsequences: their positions rise, and none that belongs is missing |
| LazyRelocs.RedoLazyRelocs | libc/ldso/dynlink.c:516-534 | every object is redone, and an object is on the new list exactly when it keeps an entry |
| LazyRelocs.RemainingMembers | libc/ldso/dynlink.c:516-534 | a list relinked from the front while being read loses and repeats no object with entries left |
| LazyRelocs.RemainingReversed | libc/ldso/dynlink.c:516-534 | the new list is in reverse order |
| Descriptors.LeafDecodes | ukern/src/pagetable.c:166-211 | a page or block descriptor gives back its frame: neither attributes nor the bit vtop adds reach it |
| Descriptors.TableDecodes | ukern/src/pagetable.c:42-63 | a table descriptor gives back the table's address |
| Attributes.LeafPermits | ukern/src/pagetable.c:166-211 | every bit of a page or block descriptor outside its address field, by position: read only, user access, execution, memory type and software bits are what the flags ask for |
| Attributes.TableLimits | ukern/src/pagetable.c:42-63 | the same of a table descriptor: bits 60 and 61 keep users out exactly for kernel flags |
| Descriptors.VtopPtov | ukern/inc/kernel.h:17-18 | vtop undoes ptov, and adds bit 48 to a physical address |
| Translation.NoSharing | ukern/src/pagetable.c:332-341 | in a tree of tables no two entries name one table |
| Translation.WriteElsewhere | ukern/src/pagetable.c:239-260 | changing an entry matters only to pages that the entry covers |
| Translation.HangSame | ukern/src/pagetable.c:332-341 | hanging in an empty table changes no translation |
| Rights.LeafMade | ukern/src/pagetable.c:239-389 | a page that was not translated and now is, is so by a descriptor with the rights asked for |
| Rights.LeafKept | ukern/src/pagetable.c:239-389 | a page that was translated is so by the same descriptor |
| Rights.KeptOutExactly | ukern/src/pagetable.c:42-63 | a mapping for users is out of their reach exactly where a table made for the kernel stood above it |
| PageTables.PageMemory.ChildTable | ukern/src/pagetable.c:332-341 | the table an entry names, or an empty one in the first free frame; none exactly when the entry is null and no frame is free, and then nothing changed |
| PageTables.PageMemory.MapPtRange | ukern/src/pagetable.c:239-261 | the pages translate to the frames given with the rights asked for, nothing else changes, the tables stay a tree |
| PageTables.PageMemory.MapPmdRange | ukern/src/pagetable.c:263-313 | the same for any mix of 2 MB blocks and pages, with a block exactly where flags and alignment allow one and there was no table; new tables are the frames that left the free ones; it fails only with none left, after which every page is right or unmapped, and not with a frame for each table the range can need |
| PageTables.PageMemory.MapPudRange | ukern/src/pagetable.c:315-354 | the same, frames and failure included, for ranges whose chunks stay below one entry |
| PageTables.PageMemory.MapPgdRange | ukern/src/pagetable.c:357-389 | the same, frames and failure included, from the root |
| PageTables.PageMemory.PagetableMap | ukern/src/pagetable.c:390-406 | success sends every va + off to pa + off with the rights of the flags, failure is for want of frames only; in every case other addresses keep translation and rights, no entry in use changes, the tables stay a tree, and those added are exactly the frames taken off the front of the free ones |
| PageTables.DrawnFrames | ukern/src/pagetable.c:239-389 | frames that move one by one from the free ones to the tables: what is left is a suffix, what is new a prefix |
| PageTables.PageMemory.PgtblWalk | ukern/src/pagetable.c:417-450 | the translation itself exactly for pages below 64 GB and first bytes of blocks below 2 GB; what else it answers for every translated address |
| PageTables.HighFrame | ukern/inc/pagetable.h:27-29 | a page mapped at 64 GB, which the walker reports at 0 |
| PageTables.PudFitsExactly | ukern/src/pagetable.c:324-351 | the loop's chunks stay below one entry exactly for ranges in one 1 GB unit or starting on one |
| PageTables.PgdFitsExactly | ukern/src/pagetable.c:366-386 | the same one level up, with chunks that suit the level below |
| PageTables.ChunkMisses | ukern/src/pagetable.c:324-386 | in a chunk that crosses its entry's boundary a page keeps its translation, whatever is written to any table below that entry |
| PageTables.OtherEntry | ukern/src/pagetable.c:324-386 | tables below one entry do not matter to pages below another |
| PageTables.IndexOf | ukern/inc/pagetable.h:22-25 | the shift and mask of each level, on any 64-bit address, pick the slot of the entry that covers its page |
| Bitmap.SetBits | ukern/inc/bitmap.h:28-32 | sets the bits of the range and no others |
| Bitmap.ClearBit | ukern/inc/bitmap.h:21-26 | clears the bit and no other |
| Bitmap.FindNext0 | ukern/inc/bitmap.h:62-91 | the first clear bit, or the next word when the tail of the first word is all ones |
| Bitmap.Next0Exact | ukern/inc/bitmap.h:62-91 | that is the first clear bit exactly when there is no such tail or the next word starts clear |
| Bitmap.BoundaryTaken | ukern/inc/bitmap.h:62-91 | a bitmap for which a set bit is returned |
| Bitmap.FindNext1 | ukern/inc/bitmap.h:114-139 | the first set bit, or -1 exactly when there is none |
| Bitmap.FindNext0Area | ukern/inc/bitmap.h:142-164 | the least free area from start on, or -1 exactly when there is none |
| PageAlloc.PageSection.constructor | ukern/src/page.c:15-41 | a section without live or freed runs and with all its pages free, which start at the first page boundary behind bitmap and descriptors and reach to the end; no other descriptor is in use exactly when memory held null ones |
| PageAlloc.LaidOutAt | ukern/src/page.c:23-40 | that layout, for every section size |
| PageAlloc.RunClear | ukern/src/page.c:23-40 | no byte of a run among the managed pages lies in bitmap or descriptors, or behind the section |
| PageAlloc.PageSection.AllocN | ukern/src/page.c:52-70 | the least free area becomes a live run apart from all others; null exactly when there is none |
| PageAlloc.PageSection.Free | ukern/src/page.c:164-202 | the first set bit whose descriptor, by its int product, takes the address in; a live run found goes; on tidy descriptors nothing else is found, and where the products fit it is the run that contains the address |
| PageAlloc.HitMeans | ukern/src/page.c:176-190 | what that means for the live runs |
| PageAlloc.Stale | ukern/src/page.c:28-31 | a descriptor from before, by which an address outside of all runs takes a page out of a live run |
| PageAlloc.OneRun | ukern/src/page.c:176-190 | an address lies in at most one live run |
| PageAlloc.SumOfLive | ukern/src/page.c:52-70 | the pages in use are the sum of the lengths of the live runs |
| PageAlloc.FreeCountsClear | ukern/src/page.c:164-202 | the counter is the number of clear bits exactly when freed runs have as many pages behind their first, inside the section, as live runs have past its end |
| PageAlloc.SinglesOnly | ukern/src/page.c:164-202 | in sections no run can leave: exactly when every run freed was a single page |
| PageAlloc.PageSection.CounterMeans | ukern/src/page.c:65-190 | both conditions for the section's own counter, after any sequence of calls |
| PageAlloc.Miscounted | ukern/src/page.c:164-202 | in every section of 64 MB to 2 GB with null descriptors, two pages allocated and freed make the counter wrong |
| PageAlloc.FreedAlloc | ukern/src/page.c:52-70 | allocation never reuses a page behind the first of a freed run |
| PageAlloc.FreedFree | ukern/src/page.c:164-202 | freeing adds one run to those lost behind their first page, apart from all others |
| PageAlloc.AddressesExactly | ukern/src/page.c:64 | every run a section can hand out is recorded with its own address exactly when at most 0x80000 pages are searched |
| PageAlloc.PaExactly | ukern/src/page.c:64 | the address of page p is the base plus p pages exactly when p < 0x80000 |
| Words.SignExtendedIs | ukern/src/page.c:64 | what an int product is as a 64-bit word |
| PageAlloc.HitsExactly | ukern/src/page.c:188-189 | in sections where the products fit, the range test takes in exactly the bytes of the run |
| PageAlloc.SharedAddress | ukern/src/page.c:64 | a section with two free pages that get one address |
| PageAlloc.SharedRuns | ukern/src/page.c:52-70 | in every section from 4.25 GB on, calls that lead to two live runs at one address |
| PageAlloc.AllocLeaks | ukern/src/page.c:52-70 | allocation leaks nothing |
| PageAlloc.FreeLeaks | ukern/src/page.c:164-202 | freeing leaks every page of the run but the first |
| PageAlloc.StaysInside | ukern/src/page.c:57 | no area reaches past n pages exactly when n is 0 or 63 modulo 64 |
| PageAlloc.DescriptorsSuffice | ukern/src/page.c:15-41 | sections of 64 MB or more have a descriptor for every searched bit |
| Halloc.RoundsUp | service/roots/halloc.c:90-99 | a request is rounded to the next multiple of 16, at least 16, without wrapping exactly up to 2^64 - 32 |
| Halloc.HashSpreads | service/roots/halloc.c:29 | two size classes share a bucket exactly when they are a multiple of eight apart |
| Halloc.WideRequest | service/roots/halloc.c:57-73 | the requests beyond: the region is not used up, or the block has no room |
| Halloc.Heap.Init | service/roots/halloc.c:165-182 | a sound heap without blocks, or refusal exactly for bad bounds; what the 32-bit size loses |
| Halloc.Heap.FromHashTable | service/roots/halloc.c:32-55 | the last freed block of the size, or null exactly when its list is empty |
| Halloc.Heap.FromSlabHeap | service/roots/halloc.c:57-73 | a new block at the base, or null exactly when too little is left |
| Halloc.Heap.Alloc | service/roots/halloc.c:76-99 | the whole heap after the call; up to 2^64 - 32 a block of at least the request that was not in use, null exactly when neither list nor region can serve, other blocks and lists as they were; beyond, what the wrapped size takes from the region |
| Halloc.Heap.Free | service/roots/halloc.c:101-142 | the whole heap after the call: a block in use goes to the front of the list of its size, other blocks and lists stay, base plus size stays; a freed one is told by its header and refused |
| HeapSpec.GotMeans | service/roots/halloc.c:76-99 | what an allocation is for, of the function the code computes |
| HeapSpec.PutMeans | service/roots/halloc.c:101-142 | the same of a release |
| HeapSpec.GotSound | service/roots/halloc.c:76-99 | an allocation keeps blocks tiled, uses apart and every block accounted for |
| HeapSpec.PutSound | service/roots/halloc.c:101-142 | so does a release, with or without a new cache |
| HeapSpec.ComesBack | service/roots/halloc.c:44-51 | a freed block is the next of its size exactly when its header is not at 0, and taking it leaves the same blocks in use as before |
| HeapSpec.TwiceNoticed | service/roots/halloc.c:108-112 | freeing a block twice is noticed |
| HeapRuns.RunInv | service/roots/halloc.c:76-142 | soundness, the end of the region and at least the bytes asked for, after every sequence of calls |
| HeapRuns.GrantsApart | service/roots/halloc.c:76-142 | in every run, what is handed out is aligned, in the region, and no byte of it is handed out twice |
| HeapRuns.NothingLost | service/roots/halloc.c:76-142 | in every run on a region that is not at 0, every block is in use, of a cache, or on one list, once |
| HeapRuns.Serve | service/roots/halloc.c:76-182 | the program's own heap and answers are those of the run, for every sequence of calls |
| HeapRuns.AtZero | service/roots/halloc.c:44-51 | a region at 0, where the first block is freed and never seen again |
| Halloc.BlocksApart | service/roots/halloc.c:57-73 | a block's data is aligned, in the region and apart from all other blocks, headers and caches |
| Halloc.FreeHasNoMagic | service/roots/halloc.c:101-142 | no header on a free list carries the magic word |
| Halloc.CheckWord | service/roots/halloc.c:108-112 | the magic word tells blocks in use from free ones |
| ReadyQueue.ListInsert | ukern/inc/list.h:98-105 | the ring with the new node between its neighbours |
| ReadyQueue.ListAdd | ukern/inc/list.h:115-117 | the new node comes first |
| ReadyQueue.ListAddTail | ukern/inc/list.h:127-129 | the new node comes last |
| ReadyQueue.ListDel | ukern/inc/list.h:138-157 | the ring without the entry, which is left poisoned |
| ReadyQueue.FfsIsLowest | ukern/src/sched2.c:8-25 | the table holds the index of the lowest set bit, and -1 for none |
| ReadyQueue.Cpu.constructor | ukern/src/cpu.c:58-62 | eight empty rings and an empty summary |
| ReadyQueue.Cpu.Add | ukern/src/sched2.c:82-90 | the process comes last on the list of its priority; the summary stays exact |
| ReadyQueue.Cpu.Ready | ukern/src/proc.c:197-203 | the same without the check |
| ReadyQueue.Cpu.Remove | ukern/src/sched2.c:92-100 | the process leaves its list; the summary stays exact |
| ReadyQueue.TakenOff | ukern/src/sched2.c:82-100 | a removed process is refused by the check of the one way back, and put last by the other |
| ReadyQueue.Cpu.PickNext | ukern/src/sched2.c:102-126 | the front of the lowest non-empty list, which moves to the end of that list |
| ReadyQueue.PickMany | ukern/src/sched2.c:102-126 | k picks serve the list in turn; as many picks as processes serve each once and restore the list |
| MulDiv.MulDivExact | ukern/src/math.c:6-23 | floor(a * b / c) modulo 2^64, with no overflow on the way |
| MulDiv.FastClock | ukern/inc/time.h:10-19 | at 3 GHz two ticks come back as none |
| MulDiv.RoundTrip | ukern/inc/time.h:10-19 | ticks to nanoseconds and back gives t or t - 1 exactly when the remainder is at most 10^9 |

## Left out

- Smoothsort.QSort: elements are array slots of width one, so the 256-byte chunks of `cycle` are not modelled.
- Smoothsort.QSort: at most L(66) elements, the exact limit of the two-word encoding (see above).
- CtorOrder.ChainFirst: a condition on the graph alone, one direction; the exact condition, `CtorTurns.PrecedesExactly`, also depends on the order of the lists.
- DsoLinker.QueueCtors: running out of memory, listing mode and the wait for another thread's constructors are not modelled.
- DsoLinker.ExtendBfsDeps: running out of memory is not modelled; lists grow by assignment.
- InitFini.RunInv: the global rwlock, and fairness: `InitWakes` says that some thread can go on, not that each does.
- InitWakes.Deadlock: constructors that never return are not modelled; in the model they may return at any time.
- SymbolIndex.CountSyms: the branch that reads the count from a System V table is a single read and left out.
- SymbolIndex.GnuLookup: tables are as linkers build them; damaged tables are not modelled.
- TlsLayout.TlsState.AddModule: the layout above the thread pointer, which AArch64 uses; offsets do not wrap.
- LazyRelocs.Dso.RetryAll: whether an entry resolves is a function of object and entry; what its relocation stores is not modelled.
- PageTables.PageMemory.PagetableMap: unmapped ranges that `PgdFits`. Where the 1 GB flag meets an aligned 1 GB chunk the source asserts if the entry is null; such chunks are left out also below tables that exist.
- PageTables.PageMemory.PagetableMap: barriers, cache maintenance and unmapping, which the source does not implement.
- PageTables.PageMemory.MapPudRange: which pages get blocks is stated below it, for each 1 GB chunk.
- PageTables.PageMemory.PgtblWalk: translated addresses only; the source asserts on others.
- PageAlloc.PageSection.constructor: sections small enough to lack descriptors are excluded.
- PageAlloc.PageSection.Free: after a stale descriptor is hit, no invariant is promised; it does not hold then.
- PageAlloc.PageSection.AllocN: at least one page, in sections where positions fit an int; one section, as the loop over sections takes the first that answers.
- PageAlloc.PageSection.AllocN: `int` products that overflow are taken to wrap, as compilers for the target do; C leaves them undefined.
- Halloc.Heap.Alloc: the invariant is promised up to 2^64 - 32, as it does not survive larger requests (see above); users keep to their blocks.
- Halloc.Heap.Free: pointers that `halloc` has returned at some time, and that are in use or on a list; others are not modelled.
- MulDiv.RoundTrip: the frequency fits the 32-bit parameter it is passed in.
- ReadyQueue.Cpu.PickNext: a summary of 0, on which the source asserts.
- `list_cut_position`, `list_splice` and the other list operations, which the ready queues do not use.
- `bitmap_find_first_0`, `bitmap_find_first_1` and `bitmap_clear_bits`: simpler forms of what is modelled.
- Process states in `sched`, address-space identifiers, kernel slabs, region splitting of the root service.
- File mapping, path search, relocation arithmetic and error exits of the dynamic linker.
- Devices, timers, boot code, printing.
