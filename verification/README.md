# Models of the systems labs

This project models six programs of the repository and proves properties of
them. Each file models one source file or a part of it.

| files | program |
|---|---|
| `malloc_sizes`, `malloc_rings`, `malloc_heap`, `malloc_undo`, `malloc_realloc`, `malloc`, `malloc_runs`, `malloc_refused` | the segregated-fit allocator `labs/08-malloc/mm.c` |
| `bits`, `hcl_lang`, `hcl_symbols`, `hcl_gen`, `hcl_parse`, `hcl_sets`, `hcl_proof`, `hcl_exact`, `hcl_types` | the HCL-to-C generator `labs/04-architecture/sim/misc/node.c` |
| `y86_words`, `y86_isa`, `y86_effects`, `y86_asm`, `y86_yo`, `y86_columns`, `y86_lines`, `y86_legal`, `y86_programs` | the Y86-64 instruction set simulator `isa.c` and assembler `yas.c` of the same directory |
| `proxy_sbuf`, `proxy_cache`, `proxy_cache_stay`, `proxy_cache_runs`, `proxy_rio` | the proxy's bounded buffer, object cache and robust reader in `labs/09-proxy` |
| `arith`, `cachesim_masks`, `cachesim`, `cachesim_reuse`, `transpose` | the cache simulator and the blocked transposes of `labs/05-cache` |
| `shell_jobs`, `shell`, `shell_states` | job control of the tiny shell `labs/07-shell/tsh.c` |

`dafny verify dfyconfig.toml` checks all of them together.

## The allocator

The heap is an array of 32-bit words and an address is a word index: byte
address divided by four. Tags hold byte sizes, as in the source. Index 0 is
NULL, the break starts at index 2 (8-aligned), and the word below it exists
because the prologue header is written there. `Heap` is the ghost view: the
blocks by payload address, the nine lists as sequences of nodes, the end.
`Inv(m, h, X, E)` says that the blocks tile the heap, tags agree, the lists
hold exactly the free blocks by class, links run both ways, and no two free
blocks touch, with X the blocks momentarily off the lists and E the blocks
whose tags are momentarily stale. The break can fail to move (20 MB limit), and
every failure is a modelled outcome.

`mm_realloc` works on the run of a block: the block with the free ones that touch it.
`Malloc.Allocator.MmRealloc` gives the start of the run exactly if the run holds the
request, and `MallocRefused.RefusedExactly` says, in terms of blocks and the break, which
requests are refused.

A refused `mm_realloc` restores the heap only when the block to the left was
free: `uncoalesce_was_resvd` takes whatever stands there for a part of the merge.
`MallocUndo.UndoGood` and `UndoBad` cover the two cases and
`Malloc.Allocator.MmRealloc` joins them: the heap is valid after a refusal if the
left neighbour was free, and otherwise no valid heap with the same live
payloads fits the memory any more. `MallocRuns.Run` serves any sequence of
requests and records the moments between them (`Ran`): which request gets NULL, what
each call does to the client's payloads, and where a refusal spoils the heap.
`MallocRefused.RefusedRun` shows that every run of two requests, 8 bytes and then
a realloc to 20 MB, ends that way.

## The HCL compiler

Expressions are the grammar's; `Build` and `Checked` are the parse actions, which
accept exactly the well-typed expressions (`HclTypes.CheckedExactly`),
`Gen` is `gen_expr` in the branch that emits C, as a sequence of tokens.
`CText` parses tokens by C's operator precedence and evaluates the tree over
the values of the quoted C texts. Four things can make the emitted text mean something else
than what was written, and each has its exact condition: a signal declared Boolean
whose C text is worth neither 0 nor 1, a number with a leading zero, a case list
inside a set, and a set of nothing but empty case lists. Case nodes use the `next`
link that also chains the members of a set, so `gen_expr` reads a set's members off one
chain: a case list among them goes on through whatever follows it up to a default arm,
and each of its arms starts a member of its own. `Spread` is the expression that is
emitted then. `HclCorrect.GeneratedMeaning` holds for every accepted definition: the
text is a C expression exactly when no empty set is emitted (`Filled(Spread(e))`), and
then has the value of `Spread(e)`. `HclExact.SetExact` says when that is the value as
written, for every set: the argument equals a written member if and only if it equals
a member as the case loop reads it. `make_ele` checks the links of its first argument, not the
members of the set; the model does the same.

## The Y86-64 tools

Words are 64-bit integers with explicit wrap-around; addresses are mathematical
integers, so `pos + 8` does not overflow. `Machine` is the architecture,
`State` the simulator's byte arrays. The assembler is modelled from tokens to
listing lines, the listing is printed as text, and the loader reads text.
`Y86Effects` says what each instruction does. `Y86Lines` gives every line its operation by
mnemonic and register names, and `Y86Programs` joins all of it: what the simulator does at
a line of a loaded program, in terms of what the line says. `.align` from an address at or
below minus its operand goes a multiple too far (`Y86Lines.AlignExactly`), because C
division truncates.

## The proxy

`sbuf` is a transition system: any number of threads, each step one semaphore,
mutex or copy operation. `labs/09-proxy/sbuf.c:66` and `:76` index the byte
buffer by item number without scaling by the element size, so items overlap
when an element has two or more bytes and there are two or more slots
(`ProxySbuf.FifoExactly`); the proxy itself stores pointers. The counting
invariants hold for every size. The cache is a class over the list from most to
least recently placed; gets are split into three steps so that readers
interleave, puts are single steps because they hold the write lock. The reader
is a class over a script of outcomes of `read`.

## The cache lab

The simulator's lines and timestamps are shown to stand for a queue of tags, and the
outcome of every access follows from the trace alone (`CacheReuse.OutcomeExactly`). A
64-bit clock is assumed not to wrap. `trans_64` is given its exact result and
the exact condition under which that is the transpose, for one matrix and for all
matrices of a shape at given addresses; 256 by 256 is a shape that fails.

## The shell

A transition system of main loop, SIGCHLD handler and kernel. The mask after
`fg` with a malformed argument is arbitrary, because `tsh.c:308` restores a mask
that was never saved. Job numbers can collide once they wrap; nothing is claimed
about their uniqueness. `fg 0` finds a free slot and marks it as the foreground
job: the exact condition for the foreground to be sane is in
`Shell.ForegroundExactly`. When the handler takes the report of a stop before
`waitfg` does, `waitpid` in `waitfg` blocks on a stopped child: exactly then, by
`Shell.StrandedExactly`, and until something wakes the child
(`Shell.StrandedStays`). The SIGCONT of `fg` and `bg` is part of their step.

## Model

| member | source | states |
|---|---|---|
| `MallocSizes.AllocSizeExact` | labs/08-malloc/mm.c:72-78 | ALLOC_SIZE of a request is a multiple of 8, at least 16 and leaves room for the payload and both tags exactly when the 32-bit sum does not wrap |
| `MallocSizes.RoundToChunksExact` | labs/08-malloc/mm.c:250 | rounding up to 4096-byte chunks covers the wanted size exactly when the 32-bit sum does not wrap, and then with the fewest chunks, one at least |
| `MallocSizes.MaxRequestExact` | labs/08-malloc/mm.c:77-78 | 0xFFFFEFF8 is the exact bound up to which neither of the two roundings wraps |
| `MallocSizes.ClassBounds` | labs/08-malloc/mm.c:156-169 | class c < 8 is given exactly the sizes from 16 * 2^c up to twice that, and the ninth class all sizes from 4096 on |
| `MallocSizes.ClassMonotone` | labs/08-malloc/mm.c:156-169 | a larger size never has a lower class, so a search upwards from the class of a size skips no class that could fit it |
| `MallocSizes.Pow2Class` | labs/08-malloc/mm.c:146-150 | the loop bound on the class size stops the walk after exactly nine classes |
| `Rings.InsertRing` | labs/08-malloc/mm.c:128-138 | free_list_insert turns a well-formed circular doubly linked list into the one with the node put right after the head |
| `Rings.RemoveRing` | labs/08-malloc/mm.c:140-144 | free_list_remove turns a well-formed circular doubly linked list into the one without the node |
| `HeapInvariant.ReserveInv` | labs/08-malloc/mm.c:179-181 | taking a free block off its list keeps the tiling, the tags and all nine lists, and changes link words only |
| `HeapInvariant.FreeInv` | labs/08-malloc/mm.c:183-191 | listing a reserved block under the class of its header keeps the whole invariant: a block is free exactly when it lies on exactly one list, the one of its class |
| `HeapInvariant.JoinInv` | labs/08-malloc/mm.c:193-215 | merging two neighbours that are off the lists keeps the tiling and everything but the tags of the merged block |
| `HeapInvariant.SplitInv` | labs/08-malloc/mm.c:304-323 | cutting a block in two keeps the tiling and everything but the tags of the two parts |
| `HeapInvariant.MetaPutInv` | labs/08-malloc/mm.c:95-99 | META_PUT of the right tag makes a block consistent again: header and footer agree, through the footer address computed from the new header |
| `HeapInvariant.MergeInv` | labs/08-malloc/mm.c:193-215 | the merge of a block with whichever neighbours are free, with the added-up size as its tag, gives a heap that satisfies the invariant with the merged block off the lists |
| `HeapInvariant.MergedIsolated` | labs/08-malloc/mm.c:193-215 | after the merge the block has no free neighbour on either side, so no two free blocks ever touch |
| `HeapInvariant.ExtendInv` | labs/08-malloc/mm.c:252-262 | moving the break, writing the new epilogue over the end and tagging the new memory from the old epilogue on keeps the tiling |
| `HeapInvariant.SearchComplete` | labs/08-malloc/mm.c:325-341 | if no list from the class of a size up holds a node that is big enough, then no free block of the heap is big enough |
| `HeapInvariant.PrevBlock` | labs/08-malloc/mm.c:87-90 | PREVBLK and the tags found through it are those of the block that ends where this one starts, or of the prologue |
| `HeapInvariant.NextBlock` | labs/08-malloc/mm.c:87-91 | the header of a block holds its size, and NEXTBLK is the next block or the epilogue |
| `HeapInvariant.LinkedBothWays` | labs/08-malloc/mm.c:469-487 | every free block found by walking the heap is linked from both of its neighbours in its list |
| `HeapInvariant.PayloadWrite` | labs/08-malloc/mm.c:355-370 | a client that writes into a live payload leaves the invariant intact |
| `MallocUndo.UndoGood` | labs/08-malloc/mm.c:217-241 | undoing a merge that took in the left neighbour brings back the tiling, the tags and the lists from before the merge, with every payload unchanged |
| `MallocUndo.UndoBad` | labs/08-malloc/mm.c:217-241 | undoing a merge that did not take in the left neighbour clears the allocation bit of that (allocated) neighbour |
| `ReallocSpec.UndoFailed` | labs/08-malloc/mm.c:423-427 | after a refused realloc the heap is whole again exactly if the block to the left of the pointer was free |
| `ReallocSpec.JoinMoved` | labs/08-malloc/mm.c:402-418 | merging, then sliding down or copying, carries every word that holds one of the first min(old, new) payload bytes |
| `ReallocSpec.BrokenHeap` | labs/08-malloc/mm.c:217-233 | once the left neighbour has lost its allocation bit, no heap with the same live payloads fits the memory |
| `Malloc.Allocator.MemSbrk` | labs/08-malloc/memlib.c:54-70 | the break moves by the increment, or not at all when the increment is negative as an int or passes the limit |
| `Malloc.Allocator.FreeListInsert` | labs/08-malloc/mm.c:128-138 | the four stores of the insertion, as a function of the memory before |
| `Malloc.Allocator.FreeListRemove` | labs/08-malloc/mm.c:140-144 | the two stores of the removal, as a function of the memory before |
| `Malloc.Allocator.CoalesceWillFree` | labs/08-malloc/mm.c:193-215 | from a valid heap to one with the merged block reserved, isolated, starting at the left edge of the merge, all other live blocks untouched |
| `Malloc.Allocator.ExtendHeap` | labs/08-malloc/mm.c:243-266 | fails exactly when the break is stuck, changing nothing; otherwise the heap grows by the fewest chunks that make the memory at its end, with the free block that ended there, at least the size asked for, and that memory is the block; the subtraction of the free last block never underflows |
| `Malloc.Allocator.FreeTail` | labs/08-malloc/mm.c:304-323 | the block is cut to size when the rest can hold a block and taken whole otherwise; the rest is listed; no other live block changes |
| `Malloc.Allocator.FirstFit` | labs/08-malloc/mm.c:330-341 | returns the first node in class and list order that is big enough, and NULL only if no free block of the heap is |
| `Malloc.Allocator.AllocateBlock` | labs/08-malloc/mm.c:325-353 | NULL exactly when neither a free block nor the break can serve the size; otherwise exactly one new live block and nothing else changed: the front of the first fit where it stands, or, when nothing fits, the front of the memory at the end of the heap, grown by the fewest chunks; the rest becomes a free block when it can be one |
| `Malloc.Allocator.MmMalloc` | labs/08-malloc/mm.c:355-370 | NULL exactly for size 0 or when nothing can serve the request, then with the heap unchanged; otherwise an 8-aligned payload of at least the requested size that was not live, and every live payload keeps every word; it is cut from the front of the first fit where it stands or, when nothing fits, from the front of the memory at the end of the heap, grown by the fewest chunks. Requests up to the bound of MaxRequestExact |
| `Malloc.Allocator.MmFree` | labs/08-malloc/mm.c:372-386 | takes exactly the freed payload out of the live ones and changes no word of any other |
| `Malloc.Allocator.MmRealloc` | labs/08-malloc/mm.c:388-438 | all paths, for requests up to the bound of MaxRequestExact: the result is the start of the run of the block and its free neighbours exactly if that run holds the request, and then the block is cut from the front of the run; which other requests fail; that the first min(old, new) bytes are carried, that other payloads are untouched, and in which state a refusal leaves the heap |
| `ReallocSpec.RunOfBlock` | labs/08-malloc/mm.c:193-215 | every block has such a run: it starts at the free block on its left or at the block itself, and takes in the block |
| `ReallocSpec.MergeIsRun` | labs/08-malloc/mm.c:193-215 | the block that coalesce_will_free makes is that run |
| `MallocRefused.RefusedExactly` | labs/08-malloc/mm.c:402-428 | mm_realloc of a live block is refused exactly if the run is too small, no free block outside it is big enough, and the break cannot move by the chunks that the free memory at the end, the block's own run set aside, lacks |
| `Malloc.Allocator.UncoalesceWasResvd` | labs/08-malloc/mm.c:217-241 | the stores it makes inside the heap's memory, as a function of the memory before, whether or not its idea of the left neighbour is right |
| `Malloc.Allocator.MmInit` | labs/08-malloc/mm.c:271-302 | from a fresh break: a valid heap of one free block, prologue and epilogue in place |
| `Malloc.Allocator.CheckLists` | labs/08-malloc/mm.c:448-467 | in a valid heap the list half of mm_check reports nothing |
| `Malloc.Allocator.CheckBlocks` | labs/08-malloc/mm.c:469-487 | in a valid heap the block half of mm_check reports nothing |
| `MallocRuns.PayloadsDisjoint` | labs/08-malloc/mm.c:355-386 | live payloads are 8-aligned, inside the heap and pairwise disjoint with room for the tags between them |
| `MallocRuns.Step` | labs/08-malloc/mm.c:355-438 | each malloc, free, realloc or write by a client returns NULL exactly when nothing can serve it, has its effect on an abstract map from pointers to payload words and keeps the heap valid, unless it is a refused realloc whose left neighbour was allocated: then no valid heap with those payloads fits the memory |
| `MallocRuns.Run` | labs/08-malloc/mm.c:271-438 | from mm_init on, any sequence of requests by id is served one after the other, each as its call on the client's pointer: NULL exactly when nothing can serve it, its effect on the client's payloads, the client's table afterwards; all of them, or exactly up to the first refused realloc whose left neighbour was allocated |
| `MallocRefused.EmptyHeapIsOneBlock` | labs/08-malloc/mm.c:271-302 | a valid heap without live blocks is a single free block, so after mm_init the layout is known |
| `MallocRefused.SmallHeapRefuses` | labs/08-malloc/mm.c:397-428 | with one 16-byte block at the start of a 4096-byte heap, a realloc to 0x1400000 bytes is refused, and the prologue on the left was not merged |
| `MallocRefused.RefusedRun` | labs/08-malloc/mm.c:217-241 | every run of mm_malloc(8) and mm_realloc of its pointer to 0x1400000 bytes on a fresh heap ends with the realloc refused and a memory no valid heap with that payload fits |
| `MallocRefused.RefusedRealloc` | labs/08-malloc/mm.c:423-427 | a run of those two requests on a fresh allocator: not all are served, and no valid heap with the first block fits its memory any more |
| `HclSymbols.SymbolTable.FindSymbol` | labs/04-architecture/sim/misc/node.c:133-145 | the loop finds the first declaration of a name, and reports an error exactly when there is none |
| `HclSymbols.SymbolTable.AddArg` | labs/04-architecture/sim/misc/node.c:99-108 | a declaration is appended, or dropped with an error when the table is full |
| `HclSymbols.FirstDeclarationWins` | labs/04-architecture/sim/misc/node.c:99-145 | a later declaration of a name never changes what it stands for |
| `HclCorrect.GenIsUnary` | labs/04-architecture/sim/misc/node.c:479-643 | whatever is emitted without error parses, by C precedence, as one unary expression with the tree of the spread expression, in any context; or an empty set is emitted, and then the text holds an opening parenthesis closed at once |
| `HclTypes.CheckArgExactly` | labs/04-architecture/sim/misc/node.c:238-272 | check_arg of an expression succeeds exactly if it has the wanted type: a signal its declared one, 0 and 1 both, other numbers word, negations, conjunctions, disjunctions, comparisons and memberships Boolean, case lists word |
| `HclTypes.CheckedExactly` | labs/04-architecture/sim/misc/node.c:274-315 | the parse actions report no error exactly on well-typed expressions: Boolean operands of !, & and | and conditions of cases, word operands of comparisons, argument of a set and values of cases |
| `HclTypes.AcceptedExactly` | labs/04-architecture/sim/misc/node.c:645-698 | an accepted definition is well-typed and of its declared type; and any such definition of declared signals, without empty case lists and without case lists inside sets, is accepted |
| `HclParse.VoidFails` | labs/04-architecture/sim/misc/node.c:566-586 | no text with nothing between two of its parentheses is read as a whole as a C expression |
| `HclCorrect.ParsesExactly` | labs/04-architecture/sim/misc/node.c:479-643 | what is emitted without error is read as a whole as a C expression exactly when no empty set is in it, up to the default arm of each case list |
| `HclCorrect.TreeMeans` | labs/04-architecture/sim/misc/node.c:274-315 | for a spread expression with Boolean operands of & and | the C value of its tree is its meaning: bitwise & and | agree with logic, set membership with some equal member, a case list with the first true arm or else 0 |
| `HclCorrect.BooleansAreBits` | labs/04-architecture/sim/misc/node.c:238-272 | whatever check_arg accepts as Boolean is worth 0 or 1, as written and as emitted |
| `HclCorrect.GeneratedMeaning` | labs/04-architecture/sim/misc/node.c:479-698 | for every accepted definition the emitted text is a C expression, by C precedence, exactly when no empty set is emitted, and then it has the value of the spread definition: the definition itself, but for case lists inside sets |
| `HclCorrect.LitExact` | labs/04-architecture/sim/misc/node.c:504-530 | a number is worth in C what it is worth in HCL exactly when it is plain: C reads a leading zero as octal |
| `HclExact.BoolSignalExact` | labs/04-architecture/sim/misc/node.c:329-340 | a signal declared Boolean whose C text is not 0 or 1 already breaks a disjunction with it, and only then |
| `HclExact.CaseInSetMisread` | labs/04-architecture/sim/misc/hcl.y:85-95 | a case list as a member of a set runs into the links of the set, and the emitted text then differs from the meaning: a concrete expression |
| `HclExact.CaseInSetMissed` | labs/04-architecture/sim/misc/hcl.y:85-95 | the other way round: an open case list followed by another is read on into it, and a member that equals the argument is missed: a concrete expression |
| `HclSets.BuildSetLinks` | labs/04-architecture/sim/misc/hcl.y:89-95 | the members of a set and the arms of every case list among them end up on one chain of next links, in order |
| `HclExact.LastCaseTree` | labs/04-architecture/sim/misc/node.c:544-643 | a set that ends with a case list is emitted as the test of its other members, of the case list, and of each proper suffix of the case list |
| `HclExact.SetExact` | labs/04-architecture/sim/misc/node.c:544-643 | a set test is worth what the set means exactly if the argument equals a member as written if and only if it equals a member as the case loop reads it |
| `HclExact.ClosedExact` | labs/04-architecture/sim/misc/node.c:544-643 | when the case lists of the set are non-empty and either end it or end with a default arm: exactly if the argument equals a member, or no proper suffix of a case list in the set |
| `HclExact.SetEmittedExactly` | labs/04-architecture/sim/misc/node.c:479-698 | the same for the emitted text: it is an expression with the meaning as written exactly if no empty set is in it and that condition holds |
| `HclExact.EmittedAsWritten` | labs/04-architecture/sim/misc/node.c:479-698 | an accepted definition all of whose sets meet that condition is emitted with the meaning it was written with, or holds an empty set and is emitted as no expression |
| `HclExact.PlainAgrees` | labs/04-architecture/sim/misc/node.c:544-643 | sets without case lists, or with one-arm case lists in last place or under a constant true condition, meet it whatever the signals are worth |
| `HclExact.OpenCaseRejected` | labs/04-architecture/sim/misc/node.c:618-637 | a set in which a signal, number or negation follows a case list without a default arm is never accepted |
| `HclExact.EmptyCaseUnreadable` | labs/04-architecture/sim/misc/hcl.y:93-95 | a set of one empty case list is accepted, and what is emitted for it is no C expression |
| `HclExact.SkippedEmptyReads` | labs/04-architecture/sim/misc/node.c:618-637 | after a default arm such a set is not emitted: a concrete definition whose text is an expression with the right value |
| `HclExact.SetsFilledEmits` | labs/04-architecture/sim/misc/hcl.y:85-95 | when every set as written has a member other than an empty case list, no empty set is emitted |
| `Y86Words.WordRoundTrip` | labs/04-architecture/sim/misc/isa.c:310-344 | storing a word as eight little-endian bytes and loading it back gives the word |
| `Y86Words.SubConditions` | labs/04-architecture/sim/misc/isa.c:482-506 | after subq each of the conditions holds exactly when the signed comparison of argB with argA does |
| `Y86Words.OverflowExact` | labs/04-architecture/sim/misc/isa.c:482-506 | the overflow flags of addq and subq are set exactly when the true result does not fit in 64 bits |
| `Y86Isa.GetPut` | labs/04-architecture/sim/misc/isa.c:310-344 | a stored word is read back at its address, and words elsewhere are unaffected |
| `Y86Isa.PopUndoesPush` | labs/04-architecture/sim/misc/isa.c:860-908 | a popq after a successful pushq gets the pushed value and restores every other register |
| `Y86Isa.RetUndoesCall` | labs/04-architecture/sim/misc/isa.c:824-859 | a ret after a successful call continues after the call with all registers as before |
| `Y86Effects.AluEffect` | labs/04-architecture/sim/misc/isa.c:792-804 | addq, subq, andq and xorq change their second register and the flags only: the wrapped sum or difference, or bit by bit the conjunction or exclusive or; zero, sign and overflow flags as the true result has it |
| `Y86Effects.IaddqEffect` | labs/04-architecture/sim/misc/isa.c:909-933 | iaddq adds its constant to its register, with the flags of addq |
| `Y86Effects.JumpEffect` | labs/04-architecture/sim/misc/isa.c:806-822 | on the flags a subq of x from y has left, a jump goes to its destination exactly if the comparison it is named for holds of y and x; jmp always does |
| `Y86Effects.MoveEffect` | labs/04-architecture/sim/misc/isa.c:683-708 | rrmovq copies its register; on the flags of a subq a conditional move does exactly if its comparison holds |
| `Y86Effects.IrmovqEffect` | labs/04-architecture/sim/misc/isa.c:709-732 | irmovq sets its register to the constant and nothing else |
| `Y86Effects.RmmovqEffect` | labs/04-architecture/sim/misc/isa.c:733-764 | the register is stored at base plus displacement, wrapped, and no other byte changes; outside the memory nothing changes |
| `Y86Effects.MrmovqEffect` | labs/04-architecture/sim/misc/isa.c:765-791 | the register gets the word at base plus displacement, wrapped; outside the memory nothing changes |
| `Y86Effects.LoadAfterStore` | labs/04-architecture/sim/misc/isa.c:733-791 | an mrmovq reads back what an rmmovq has stored at the same base and displacement |
| `Y86Effects.PushqEffect` | labs/04-architecture/sim/misc/isa.c:860-883 | the register as it was goes to the word below the stack pointer, which moves there, also when that faults |
| `Y86Effects.CallEffect` | labs/04-architecture/sim/misc/isa.c:824-846 | the next address is pushed and control goes to the destination |
| `Y86Effects.PopqEffect` | labs/04-architecture/sim/misc/isa.c:884-908 | the register gets the word at the stack pointer after that has moved up, so popping the stack pointer leaves the word in it |
| `Y86Effects.RetEffect` | labs/04-architecture/sim/misc/isa.c:847-859 | control goes to the word at the stack pointer, which moves up; a fault changes nothing |
| `Y86Effects.StatusExactly` | labs/04-architecture/sim/misc/isa.c:627-943 | which status every step ends with: HLT for halt; INS for a missing operation, constant or register; ADR for a program counter, register byte, jump constant or accessed word outside the memory |
| `Y86Effects.FaultKeeps` | labs/04-architecture/sim/misc/isa.c:627-943 | a step that does not succeed changes nothing but the stack pointer |
| `Y86Isa.State.GetWordVal` | labs/04-architecture/sim/misc/isa.c:310-323 | the byte loop reads exactly the little-endian word, and fails exactly outside the memory |
| `Y86Isa.State.SetWordVal` | labs/04-architecture/sim/misc/isa.c:333-344 | the byte loop stores exactly the eight bytes of the word, and nothing when they do not fit |
| `Y86Isa.State.SetRegVal` | labs/04-architecture/sim/misc/isa.c:414-425 | only the named register changes, and the register number for none stores nothing |
| `Y86Isa.State.StepState` | labs/04-architecture/sim/misc/isa.c:627-943 | a step of the byte-array machine is a step of the architecture over registers and memory, faults included: a faulting push, call or pop has already moved the stack pointer |
| `Y86Asm.TableCoherent` | labs/04-architecture/sim/misc/isa.c:62-104 | every row of the instruction table gives each operand a place in the layout the fetch stage reads, and the byte count of that layout |
| `Y86Asm.DecodeEncode` | labs/04-architecture/sim/misc/isa.c:642-674 | wherever memory holds the emitted bytes, fetch reads back the operation, the registers and the 64-bit constant, and falls through by the byte count of the table |
| `Y86Asm.FilledIn` | labs/04-architecture/sim/misc/yas.c:397-439 | filling the code buffer operand by operand gives the architecture's encoding, whatever an earlier line left in the buffer |
| `Y86Asm.LabelResolves` | labs/04-architecture/sim/misc/yas.c:505-522 | a name resolves exactly when some line defines it, and then to the address of the first line that does |
| `Y86Lines.RegisterFound` | labs/04-architecture/sim/misc/isa.c:17-46 | the fifteen register numbers, each by its name |
| `Y86Lines.MnemonicFound` | labs/04-architecture/sim/misc/isa.c:62-97 | the operation and variant of each mnemonic, by its name, with the layout of its operands |
| `Y86Lines.DirectiveFound` | labs/04-architecture/sim/misc/isa.c:98-102 | .byte, .word, .long and .quad put down 1, 2, 4 and 8 bytes |
| `Y86Lines.AlignExactly` | labs/04-architecture/sim/misc/yas.c:364-378 | .align n goes on at a multiple of n not below the position, and at the least one exactly if the position is above -n or one above a multiple of n: the division truncates |
| `Y86Lines.PosExactly` | labs/04-architecture/sim/misc/yas.c:350-362 | .pos goes on at its number |
| `Y86Legal.LegalAccepted` | labs/04-architecture/sim/misc/yas.c:305-443 | a program of legal lines within the addresses is accepted: any statement of the language by its mnemonics and register names, with numbers or defined labels, with or without a label in front |
| `Y86Asm.Assembler.LookUp` | labs/04-architecture/sim/misc/yas.c:514-522 | the loop finds the first entry of the name; -1 and an error when there is none |
| `Y86Asm.Assembler.GetReg` | labs/04-architecture/sim/misc/yas.c:205-223 | a register operand is parsed into its half of the byte, or an error is noted |
| `Y86Asm.Assembler.GetNum` | labs/04-architecture/sim/misc/yas.c:227-243 | a number or label is stored as its low bytes, lowest first, or an error is noted |
| `Y86Asm.Assembler.GetMem` | labs/04-architecture/sim/misc/yas.c:255-291 | optional displacement and optional register, either alone or neither, into the low half and the following eight bytes, or an error is noted |
| `Y86Asm.Assembler.FinishLine` | labs/04-architecture/sim/misc/yas.c:305-443 | the address after the line, the symbol entered in pass 1, the listing line emitted in pass 2, and exactly which lines are errors |
| `Y86Asm.Assembler.Pass` | labs/04-architecture/sim/misc/yas.c:504-522 | pass 1 collects exactly the labels with their addresses; pass 2 emits exactly the listing |
| `Y86Asm.Assembler.Assemble` | labs/04-architecture/sim/misc/yas.c:602-623 | succeeds exactly on the sources whose lines are well formed and encodable with the collected labels, and then emits their listing |
| `Y86Yo.HexStuff` | labs/04-architecture/sim/misc/yas.c:122-131 | writes exactly the low hex digits of the value, highest first, and nothing else |
| `Y86Yo.PrintLine` | labs/04-architecture/sim/misc/yas.c:133-190 | the printed line: address in three or four digits, code bytes in hex right after the colon or one blank further, padding, bar, source text |
| `Y86Yo.ReadBack` | labs/04-architecture/sim/misc/isa.c:216-275 | the loader reads from a printed line exactly its bytes, and its address exactly when that is not negative; an empty source line is skipped |
| `Y86Yo.LoadLine` | labs/04-architecture/sim/misc/isa.c:211-275 | the loops of the loader compute the parse of the line, store its bytes until one falls outside the memory, and count the bytes stored |
| `Y86Yo.LoadMem` | labs/04-architecture/sim/misc/isa.c:194-300 | loading the lines in order, stopping at the first bad one; the count returned is the number of bytes stored, or 0 when a line is refused |
| `Y86Yo.LoadPrinted` | labs/04-architecture/sim/misc/isa.c:194-300 | loading a printed listing stores exactly the emitted bytes at the emitted addresses, whatever source text stands beside them |
| `Y86Yo.AssembleAndLoad` | labs/04-architecture/sim/misc/yas.c:602-623 | assembling, printing and loading succeeds exactly on accepted programs, and fills the memory with their bytes at their addresses when these lie in it, returning how many there are |
| `Y86Yo.FetchesWhatWasWritten` | labs/04-architecture/sim/misc/yas.c:602-623 | end to end: in the loaded image of an accepted program the fetch at an instruction line's address gives the operation, registers and constant written on that line |
| `Y86Yo.JumpsReachTheirLabel` | labs/04-architecture/sim/misc/yas.c:227-243 | end to end: a jump or call to a label is fetched with the address of the first line that defines it |
| `Y86Columns.LineColumns` | labs/04-architecture/sim/misc/yas.c:133-190 | a listing line column by column: the address in three or four lower-case hex digits, colon, the bytes in two digits each from column 7 on, blanks, bar |
| `Y86Lines.LoadedIsThere` | labs/04-architecture/sim/misc/yas.c:602-623 | in the loaded image of an accepted program each instruction line that no later line lies over is in memory at its address, which is what the next rows ask for |
| `Y86Programs.OperationStep` | labs/04-architecture/sim/misc/isa.c:78-81 | at a line addq, subq, andq or xorq of two named registers the second gets the sum, difference, conjunction or exclusive or, with its flags; nothing else changes and the next line follows |
| `Y86Programs.CompareThenJump` | labs/04-architecture/sim/misc/isa.c:83-89 | subq %ra, %rb and then jmp, jle, jl, je, jne, jge or jg: control goes to the number or label exactly if %rb compared with %ra is as the jump says, else to the line after |
| `Y86Programs.CompareThenMove` | labs/04-architecture/sim/misc/isa.c:66-73 | subq and then rrmovq or cmovXX: the copy is made exactly if the comparison in the name holds |
| `Y86Programs.JumpStep` | labs/04-architecture/sim/misc/isa.c:83-89 | the same for a jump line on flags left by any subq before; jmp needs no flags |
| `Y86Programs.MoveStep` | labs/04-architecture/sim/misc/isa.c:66-73 | the same for a move line |
| `Y86Programs.IrmovqStep` | labs/04-architecture/sim/misc/isa.c:75 | at a line irmovq of a number or label the named register gets it, wrapped, and nothing else changes |
| `Y86Programs.IaddqStep` | labs/04-architecture/sim/misc/isa.c:94 | at a line iaddq of a number or label the named register gets the sum, with the flags of addq |
| `Y86Programs.StoreStep` | labs/04-architecture/sim/misc/isa.c:76 | at a line rmmovq of a register and a memory operand as written the register is stored at displacement plus base and no other byte changes, or it faults |
| `Y86Programs.LoadStep` | labs/04-architecture/sim/misc/isa.c:77 | at a line mrmovq the register gets the word at displacement plus base, or it faults |
| `Y86Programs.StoreThenLoad` | labs/04-architecture/sim/misc/isa.c:76-77 | rmmovq and then mrmovq with the same operand: the second register gets the first one's value, as long as the store is not over the load |
| `Y86Programs.PushqStep` | labs/04-architecture/sim/misc/isa.c:92 | at a line pushq the named register is pushed |
| `Y86Programs.PopqStep` | labs/04-architecture/sim/misc/isa.c:93 | at a line popq the named register gets the word on top |
| `Y86Programs.PushThenPop` | labs/04-architecture/sim/misc/isa.c:92-93 | a popq with the stack as a pushq has left it gets the pushed value, and all other registers, the stack pointer too, are as before the push |
| `Y86Programs.CallStep` | labs/04-architecture/sim/misc/isa.c:90 | at a line call the address of the next line is pushed and control goes to the number or label |
| `Y86Programs.RetStep` | labs/04-architecture/sim/misc/isa.c:91 | at a line ret control goes to the word on top |
| `Y86Programs.CallThenRet` | labs/04-architecture/sim/misc/isa.c:90-91 | a ret with the stack as a call has left it goes on at the line after the call, with every register as before the call |
| `Y86Programs.HaltStep` | labs/04-architecture/sim/misc/isa.c:65 | a line halt stops with everything as it was |
| `Y86Programs.NopStep` | labs/04-architecture/sim/misc/isa.c:64 | a line nop goes on to the next line |
| `Y86Programs.DataLine` | labs/04-architecture/sim/misc/isa.c:98-102 | the bytes of a data line, lowest first, are its number or label modulo 256 to the number of bytes |
| `Y86Programs.QuadLine` | labs/04-architecture/sim/misc/isa.c:102 | the word at a .quad line is its number or label, wrapped |
| `ProxySbuf.NextInv` | labs/09-proxy/sbuf.c:62-80 | every atomic step keeps: semaphore counts plus threads in flight add up to n, the indices differ by what is stored, one thread holds the mutex |
| `ProxySbuf.RunInv` | labs/09-proxy/sbuf.c:23-37 | in every state of every run of any number of threads 0 <= rear - front <= n and the counts are conserved, for every element size |
| `ProxySbuf.CopiesAreSafe` | labs/09-proxy/sbuf.c:62-80 | a producer about to copy has a slot index no unread item uses, a consumer has an item to read, and both copies stay inside the buffer |
| `ProxySbuf.NotBothBlocked` | labs/09-proxy/sbuf.c:62-80 | with nobody in between, producers and consumers are never both blocked |
| `ProxySbuf.StuckExactly` | labs/09-proxy/sbuf.c:62-80 | nobody inside a call can go on exactly if everyone is outside, or the buffer is full and only producers wait, or it is empty and only consumers wait |
| `ProxySbuf.FifoPrefix` | labs/09-proxy/sbuf.c:66-76 | with one-byte elements or a single slot, what has been dequeued is a prefix of what has been enqueued |
| `ProxySbuf.FifoExactly` | labs/09-proxy/sbuf.c:66-76 | the buffer delivers items unchanged and in order in every run exactly when elements are one byte or there is at most one slot: the slot index is not scaled by the element size |
| `ProxyCache.UriInjective` | labs/09-proxy/cache.c:34-49 | different host and path give different keys as long as hosts hold no slash |
| `ProxyCache.ChancesDrop` | labs/09-proxy/cache.c:112-134 | promoting an entry that is out of patience uses up one of finitely many promotions, and evicting adds none |
| `ProxyCache.SweepProgress` | labs/09-proxy/cache.c:155-161 | a pass of the second loop over a non-empty list evicts something or uses up a promotion |
| `ProxyCache.LoopEndsExactly` | labs/09-proxy/cache.c:154-162 | the second loop of cache_bookkeeping ends exactly when the object is no larger than the whole cache |
| `ProxyCache.ScanFinds` | labs/09-proxy/cache.c:139-152 | the first loop finds a key exactly when the list holds it, although it promotes and evicts on the way |
| `ProxyCache.ScanLeavesPatient` | labs/09-proxy/cache.c:139-152 | after an unsuccessful scan only the entry in front can still be out of patience |
| `ProxyCache.ScanSurvives` | labs/09-proxy/cache.c:139-152 | what the scan leaves are entries that were there, with their data, patience raised only from zero or below; evicted sizes all become free bytes |
| `ProxyCache.PutEffect` | labs/09-proxy/cache.c:167-187 | a put keeps free bytes plus sizes equal to the capacity and keys unique; a new object goes in front, a live key keeps its old object with patience 3 |
| `ProxyCache.PutTallied` | labs/09-proxy/cache.c:112-187 | a put leaves every other surviving entry with its old patience plus three for each time it was promoted |
| `ProxyCache.ProxyStore.CacheGet` | labs/09-proxy/cache.c:51-78 | a hit exactly when the key is live, with the bytes of its entry and one unit of patience taken |
| `ProxyCache.ProxyStore.Bookkeeping` | labs/09-proxy/cache.c:136-165 | terminates for every list and every object that fits the capacity, and does the scan and then the sweeps |
| `ProxyCache.ProxyStore.CachePut` | labs/09-proxy/cache.c:167-187 | no underflow of the free bytes; the new list and free count are the function of the old ones that ProxyCacheStay.PutKeeps, PutEffect and PutTallied are about |
| `ProxyCacheStay.PutKeeps` | labs/09-proxy/cache.c:136-187 | with room for the object a put drops no key; otherwise without the last entry to go there was not enough room; an entry goes only if every entry with patience left nearer the back goes, and with room entries with patience keep their order |
| `ProxyCacheRuns.NextInv` | labs/09-proxy/cache.c:51-78 | every step under the readers-writer lock keeps the accounting; a hit is served the bytes of the put that created the live entry; the patience given to a key changes only when it is put (to 3) or promoted while out of patience |
| `ProxyCacheRuns.PutKept` | labs/09-proxy/cache.c:112-187 | a put promotes another entry only while it is out of patience, by 3 each time and to at most 3, and keeps its data |
| `ProxyCacheRuns.RunInv` | labs/09-proxy/cache.c:51-187 | in every interleaving: keys unique, bytes accounted for, each entry with the bytes of the put that created it and, as patience, what it was last given by a put or a promotion (at most 3) minus the hits since |
| `ProxyRio.ResultsAreTheStream` | labs/09-proxy/csapp.c:748-833 | the results of a run of calls, put together, are exactly the next bytes of the stream; a numeric read is short only at its end, a line is cut only at a newline, at maxlen - 1 or at the end |
| `ProxyRio.Rio.RioRead` | labs/09-proxy/csapp.c:748-770 | up to n of the pending bytes, none lost or repeated, whatever short reads and interruptions there are |
| `ProxyRio.Rio.ReadNB` | labs/09-proxy/csapp.c:790-804 | without hard errors exactly the next min(n, remaining) bytes |
| `ProxyRio.Rio.ReadLineB` | labs/09-proxy/csapp.c:812-833 | without hard errors exactly the next line, cut at maxlen - 1, and a terminating zero after it |
| `ProxyRio.Session` | labs/09-proxy/csapp.c:748-833 | any mix of calls on one reader gives exactly the results the stream prescribes |
| `CacheMasks.SetOfValue` | labs/05-cache/params.c:13-20 | masking and shifting gives the low s bits of the block number |
| `CacheMasks.TagOfValue` | labs/05-cache/cache.c:37-39 | masking and halving gives the address above the index, scaled, and always a valid (non-negative) tag |
| `CacheMasks.SameBlock` | labs/05-cache/cache.c:37-40 | with at least one index or offset bit, equal set and tag mean equal block |
| `CacheMasks.BlocksToldApartExactly` | labs/05-cache/cache.c:37-40 | that holds for all addresses exactly when there is at least one index or offset bit |
| `CacheSim.Hit` | labs/05-cache/cache.c:52-56 | a hit is a move to the front of the queue |
| `CacheSim.Fill` | labs/05-cache/cache.c:58-63 | a miss with an invalid line fills the first one, and the valid lines stay a prefix |
| `CacheSim.Replace` | labs/05-cache/cache.c:65-75 | in a full set the line with the least timestamp is the least recently used, and is the one replaced |
| `CacheSim.Simulator.AccessCache` | labs/05-cache/cache.c:37-80 | after any trace each set of lines and timestamps stands for the queue of tags most recently used first, and the result is hit, miss or miss with eviction as that queue says |
| `CacheSim.SmallerIsPrefix` | labs/05-cache/cache.c:37-80 | after any tags the queue of the smaller set is the front of the queue of the set with one more line |
| `CacheSim.Inclusion` | labs/05-cache/cache.c:37-80 | for any trace a cache holds a part of what the cache with one more line per set holds, and every hit in it is a hit there |
| `CacheReuse.KeptExactly` | labs/05-cache/cache.c:37-80 | a tag is in its set exactly if fewer different tags than the set has lines were used since its last use, and the set is full exactly if at least that many were used at all |
| `CacheReuse.OutcomeExactly` | labs/05-cache/cache.c:37-80 | for every access of every trace: a hit exactly if its block, told by set and tag, was used before and fewer different blocks of its set since then than the set has lines; otherwise a miss, with an eviction exactly if at least that many blocks of the set were used before |
| `Transpose.TransOdds` | labs/05-cache/trans.c:88-99 | B is the transpose of A, for all dimensions |
| `Transpose.Trans32` | labs/05-cache/trans.c:33-49 | B is the transpose of A when the block size divides both dimensions, wherever the matrices lie in memory |
| `Transpose.Trans64` | labs/05-cache/trans.c:51-86 | which element of A ends in each cell of B: its own, unless the cell is a conflicting one after the first of its pass, which gets the last conflicting element |
| `Transpose.Trans64Exactly` | labs/05-cache/trans.c:51-86 | B is the transpose of A exactly when in each pass the conflicting elements after the first are equal |
| `Transpose.TwoConflictsAgree` | labs/05-cache/trans.c:51-86 | passes that meet at most two conflicts each are harmless, whatever the matrix holds |
| `Transpose.Trans64Content` | labs/05-cache/trans.c:51-86 | whether trans_64 transposes a matrix depends on its content alone, for given shape and addresses |
| `Transpose.TransposesAllExactly` | labs/05-cache/trans.c:51-86 | trans_64 transposes every matrix of a shape at given addresses exactly when no pass meets more than two conflicts |
| `Transpose.AllConflict256` | labs/05-cache/trans.c:26-31 | in 256 by 256 matrices whose addresses are multiples of the cache size all eight cells of the first pass conflict |
| `Transpose.Fails256` | labs/05-cache/trans.c:101-110 | there trans_64 puts a[4][3] where a[0][1] belongs, so it fails on every matrix in which the two differ |
| `Transpose.Conflict64` | labs/05-cache/trans.c:26-31 | for 64 by 64 and block-aligned matrices at the same cache offset, elements conflict only on the diagonals of the 8 by 4 blocks |
| `Transpose.Agrees64` | labs/05-cache/trans.c:51-86 | so each pass meets at most two conflicts there, and trans_64 is right for every matrix |
| `Transpose.TransOpt` | labs/05-cache/trans.c:101-110 | the dispatch: which dimensions give the transpose outright, and otherwise the exact condition on conflicts; at most two conflicts a pass suffice |
| `ShellJobs.JobTable.AddJob` | labs/07-shell/tsh.c:505-521 | the job goes into the first free slot with the next number, which wraps after 16; nothing when the table is full |
| `ShellJobs.JobTable.DeleteJob` | labs/07-shell/tsh.c:524-531 | the slot is freed and the next number is one more than the largest in use |
| `ShellJobs.JobTable.ReapChild` | labs/07-shell/tsh.c:376-396 | a stopped job is marked, any other is deleted, an unknown pid is ignored |
| `ShellJobs.JobTable.MaxJob` | labs/07-shell/tsh.c:491-502 | the largest job number in use |
| `ShellJobs.JobTable.GetJobPid` | labs/07-shell/tsh.c:544-553 | the first slot with the pid, none for a negative one; 0 finds a free slot |
| `ShellJobs.JobTable.GetJobJid` | labs/07-shell/tsh.c:556-566 | the first slot with the job number, none below 1 |
| `Shell.StepInv` | labs/07-shell/tsh.c:165-205 | every step of main loop, handler and kernel keeps the invariant, and every deletion is of a job entered before, whose end was reported, and not deleted yet |
| `Shell.ForegroundExactly` | labs/07-shell/tsh.c:284-355 | in a run at most one job is ever in the foreground and none at the prompt, exactly if no fg 0 that found a free slot is followed by a prompt |
| `Shell.DeletedExactlyOnce` | labs/07-shell/tsh.c:376-424 | in every run the job of every child that was entered and whose end was reported is deleted exactly once, after it was entered; at the prompt none is left over |
| `Shell.ZeroBreaksIt` | labs/07-shell/tsh.c:543-553 | such a run: fg 0 finds a free slot, and the shell is back at the prompt with that slot in the foreground |
| `Shell.StrandedStays` | labs/07-shell/tsh.c:338-347 | when waitfg waits for a child whose stop has been reported to somebody else, the main program has no step, until that child goes on or dies |
| `Shell.StrandedExactly` | labs/07-shell/tsh.c:284-355 | in every run waitfg is in that state exactly if the handler took the stop of the child it waits for and nothing has woken the child since, and the handler did so during that very wait |
| `Shell.StopIsStolen` | labs/07-shell/tsh.c:338-347 | a run that gets there: the handler takes the report of the foreground job between unblocking SIGCHLD and waitpid |
| `ShellStates.JobStateExactly` | labs/07-shell/tsh.c:165-205 | in every run the state of every job is what the last action about it made it: BG or FG as it was started or as bg or fg resumed it, ST if a stop was reported after that |
| `ShellStates.StoppedIsMarked` | labs/07-shell/tsh.c:376-396 | in every run, at the prompt, a job whose child has stopped and whose stop was reported is marked as stopped; elsewhere too, unless waitfg has that report in hand |

## Left out

- Malloc.Allocator.MmMalloc: requests above 0xFFFFEFF8 bytes are outside its precondition, because `ALLOC_SIZE` or the chunk rounding wraps there (`MaxRequestExact` shows the bound is exact).
- Malloc.Allocator.MmRealloc: requests above 0xFFFFEFF8 bytes, as for `MmMalloc`. The state after a refusal that could not be undone is described only by no valid heap fitting it.
- Malloc.Allocator.UncoalesceWasResvd: when its idea of the left neighbour is wrong, a store outside the heap's memory is dropped, where in C it would hit other memory, and a part too small for the two links is not listed.
- MallocRuns.Run: stops at the first refused realloc of that kind, because the heap it leaves satisfies no invariant.
- HclCorrect.GeneratedMeaning: blanks, line breaks and the wrapping by `outgen.c` in the emitted text are not modelled; the text is a sequence of tokens. Values are unbounded integers, where C computes in `long long`.
- HclSymbols.SymbolTable.FindSymbol: reference counts, and the report of unused signals made from them, are not modelled.
- HclSets.BuildSetLinks: nodes are values, so sharing of a node between two parents is modelled only where it shows, in the `next` links of case lists and sets.
- Y86Asm.Assembler.Pass: the scanner is not part of this model; a line is at most 12 tokens, register tokens name registers, and a line with a character the scanner rejects does not occur (`add_token` tests `tpos`, which is 0 there, instead of `tcount`, so a longer line writes past the token array).
- Y86Asm.Assembler.FinishLine: the symbol table is unbounded (1000 entries in C, not checked), and an address is a mathematical integer after the 32-bit truncation of the operand of `.pos` or `.align`.
- Y86Legal.LegalAccepted: one direction only; the assembler also takes lines that go on after a complete statement, which `Y86Asm.Assembler.Assemble` and `Y86Yo.FetchesWhatWasWritten` cover and the rows of `Y86Programs` do not.
- Y86Yo.LoadPrinted: a printed line is taken to fit the loader's 4096-byte buffer; `fgets` would split a longer one. The Verilog output of `yas -V` and the GUI reports of the loader are left out.
- ProxySbuf.RunInv: `front` and `rear` are unbounded; elements have at least one byte; `sem_wait` is retried by the step being taken later.
- ProxyCache.ProxyStore.CachePut: an object larger than the cache is outside its precondition (the caller's guard in `proxy.c:346`); `LoopEndsExactly` shows the loop would not end.
- ProxyCache.ProxyStore.CacheGet: the growing of the caller's buffer is not modelled; the bytes are returned. The doubly linked nodes are a sequence.
- ProxyRio.Rio.ReadNB: after a hard error the bytes already taken by that call are lost, as in C; the row is about reads without hard errors, and what a failed call loses is stated only as some prefix of the pending bytes.
- CacheSim.Simulator.AccessCache: the clock is kept below 2^64 - 2, and the number of index bits at most 30, so that `1 << s` is an int.
- Transpose.TransOpt: the dimensions must be divisible by the block sizes where the blocked loops assume it; otherwise C writes outside the matrices.
- Shell.StepInv: `parseline`, printing, the SIGINT and SIGTSTP handlers (which read the table and send signals) and `exec` are left out; fork, waitpid and the children are kernel steps. A full table leaves a foreground child untracked and ends the program for a background one, as the null pointer does in C.
- Shell.ForegroundExactly: a child is in its own process group from the fork on, where in C it moves there itself a little later; so the `waitpid(0)` that `fg 0` leads to never finds a child here, where in C it could find one that has not moved yet.
- Shell.DeletedExactlyOnce: the same; in C the end of such a child would be collected by `fg 0` without deleting its job.
- The pipelined simulators `psim.c` and `ssim.c`: their control signals come from HCL files outside these sources.
- The UCLID and Verilog branches of `node.c`, the Tcl interfaces, `kernels.c`, `labs/01-data`, `mdriver.c`, timing code, sockets and HTTP handling, and the bomb and attack labs.
