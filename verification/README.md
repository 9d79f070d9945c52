# The allocator, the threads and the number conversions of the kernel

This project models, in Dafny, the parts of the kernel that carry state or arithmetic worth proving: the
heap allocator of `memory.c` with the cyclic lists of `list.h` under it, the cooperative scheduler of
`Thread_stubs.c` with the thread switch of `boot.S`, and number printing and parsing (`sprint_int` and
`vsnprintf` of `printf.c`, `strtol` of `main.c`).  `dafny verify dfyconfig.toml` checks all of it.

## The allocator

Memory is an array of 32-bit words; a pointer is the number of the word it addresses and NULL is word 0.
A chunk is three words of header (`all.next`, `all.prev`, `used`) and a payload whose first two words
are `free.next` and `free.prev` while the chunk is free.  Sizes are bytes, and `size_t` arithmetic wraps
modulo 2^32 where the code's does.

* `DList` has the operations of `list.h` as methods on the array and as functions of its contents, and the
  algebra of splicing rings.
* `HeapSpec`, `Ledger` and `HeapOps` are the allocator on an abstract heap: chunk boundaries, free set,
  32 lists in order, three counters.  `Inv` is the invariant: the chunks tile the region between the two
  sentinels, a chunk is free exactly when it is on the list for its size (once), no two neighbours are
  free, and the counters obey an exact law.
* `HeapLaws`, `HeapTheorems` and `HeapRuns` prove what callers and histories can rely on.
* `HeapLayout`, `Contents`, `Bytes`, `PayloadWrites` and `HeapStart` say how a word memory holds an
  abstract heap and which words each step may write.
* `Allocator` is the code: a class over the word array and the `free_chunk` array.  Each method refines the
  abstract operation, and `Contents()`, the words of every block in use, changes only as stated.

The three counters are not plain sums.  A malloc that does not split adds `size2 - HEADER_SIZE` to
`mem_used` (memory.c:125) while the free of that block subtracts all of its size (memory.c:152), so each such
pair loses a header in `mem_used` and in `mem_free`.  The law that does hold is `Ledger.Account`.

Rounding up at memory.c:100 wraps for requests above 2^32 - 4 bytes; malloc then hands out a block
smaller than the request.  `HeapLaws.MallocSize` says that a block is large enough exactly up to that size.
The product `nmemb * size` at memory.c:177 wraps as well: when it is 2^32 or more, calloc hands out a block
smaller than the array asked for.

## The threads

`Coroutines` is what the scheduler is for: a ring of threads with private contexts (r4-r12, d8-d15, sp,
the eight variables of the OCaml runtime, the stack from sp up) in which the running one may yield, create
another or compute.  There the isolation of contexts over all runs and bounded waiting are proved.
`ThreadMemory` puts descriptors and stacks into a word memory and shows what a switch and a creation do to
them.  `Scheduler` is the code, on a machine with registers: `schedule` saves the shared variables in the
descriptor of `curr_thread`, `switch_thread` pushes 26 words and changes stacks, and the thread that
resumes advances `curr_thread`, which still names the thread that was left.

## Numbers

`Printf` has `sprint_int`, `Format` says what a format puts out, with and without a buffer, `Conversions` says
what that means in terms of the characters of the format, and `Vsnprintf` is the code of `vsnprintf`.  `Strtol` has `strtol`, `Standard` compares it with the standard, and
`RoundTrip` connects printing and reading.  `Numerals` has what both directions need of positional numbers.

The comment at printf.c:97-98 promises that `sprint_int` returns the end of the full conversion and only
writes what fits, and printf.c:180-182 promises the same for `vsnprintf`.  This does not hold.  The macro
`buf_add` (printf.c:83-86) mentions its argument only in the branch that stores it, so `tmp[--len]`,
`*s++` and `va_arg(args, int)` are evaluated only while there is room:

* when a digit does not come before the end, the loop at printf.c:164 never ends (in the machine it runs until
  the pointer overflows); `Format.LengthQueryHangs` has the example `vsnprintf(buf, 0, "%d", n)`, the usual way to
  ask for a length;
* `%s` without a precision never ends either; with a precision it counts the whole precision although the
  string is shorter;
* `%c` leaves its argument to the next conversion.

What the caller can see of this is settled by `Truncation.LengthLaw` and the contract of
`Vsnprintf.VSNPrintf`: for every complete format of known conversions, `vsnprintf` returns the length of the full
text if and only if the buffer has the size `Truncation.Need` and the text is no longer than
`Vsnprintf.CountLimit`, and then the buffer holds the full text as far as it fits.  The limit is 2^31 - 1, the
largest `ssize_t` (printf.c:185, 339), or less when the buffer is so high that the pointer would leave the 32-bit
address space.  `Truncation.LengthOverflows` has the example `vsnprintf(buf, 10, "%-2147483647dab", 5)`: size 10 is
all that is needed, but the text has 2^31 + 1 characters, and the code returns -2147483647.  `Need` counts digits and strings, but neither literal text nor padding after the last digit, nor
the characters of a string that its precision covers; and it counts a `%c` only when a `%s` follows, which
would be given the wrong argument.  `Format.RunIsFull` is a stricter law, with the size `Format.Needed`, for
conversions that are each to get their own argument, the last `%c` included.

Printing a 32-bit number and reading it back does not always give the number: a sign comes before blanks
(printf.c:139-155), and `strtol` takes no blank after a sign; and after a `0x` prefix base 10 reads the 0 alone.
`RoundTrip.PrintThenParse` says exactly when it does, and `RoundTrip.PrintAndRead` takes the way through the buffer.

`strtol` departs from section 7.20.1.4 of ISO/IEC 9899:1999 in that it takes a plus sign and then a minus sign
(main.c:599-605), that letters are digits from 16 on (main.c:577-578), so that no hexadecimal letter is ever
read, and that `0X` does not choose a base (main.c:610).  `Standard.StandardExactly` says for every string and base
exactly when it agrees; in the bases up to 10 (`Standard.UpToTen`) only two signs before a digit are in the way.

## Model

| member | source | states |
|---|---|---|
| DList.DListInit | list.h:34-38 | the node becomes a ring of its own; nothing else is written |
| DList.DListInsertAfter | list.h:41-50 | the four writes, as a function of the memory contents |
| DList.DListInsertBefore | list.h:53-62 | the four writes, as a function of the memory contents |
| DList.DListRemove | list.h:65-71 | the four writes, as a function of the memory contents |
| DList.DListPush | list.h:74-80 | inserts before the head unless the list is NULL; the new node is the head |
| DList.DListPop | list.h:83-94 | removes the head and returns it; the next node is the head, or the list is NULL |
| DList.DListRemoveFrom | list.h:97-104 | removes the node, and advances the head if it was that node |
| DList.Join | list.h:41-50 | inserting a node of another ring joins the two rings into one |
| DList.Split | list.h:41-50 | inserting a node of the same ring splits it into two rings |
| DList.InsertKeepsInverse | list.h:41-50 | whatever rings the nodes are in, next and prev stay inverse to each other |
| DList.InsertUndone | list.h:41-50 | inserting d1's former successor after d1 restores the memory |
| DList.InsertBeforeIsAfter | list.h:53-62 | inserting before d1 is inserting after d1's predecessor |
| DList.RemoveIsInsert | list.h:65-71 | removing a node is inserting it after itself |
| DList.RingRemoveAt | list.h:65-71 | removing takes one node out of its ring and leaves it a ring of its own |
| DList.RingPush | list.h:74-80 | pushing puts the new node in front of the ring |
| Slots.MemoryChunkSlot | memory.c:68-75 | the loop computes the slot of the size |
| Slots.SlotIsLog2 | memory.c:68-75 | slot n holds exactly the sizes from 2^n to 2^(n+1) - 1 |
| Slots.FirstSlotIsCeilLog2 | memory.c:102 | the first list searched is the rounded-up logarithm of the request |
| Slots.RoundCovers | memory.c:100-101 | the rounded request is a multiple of 4 of at least 8, less than 4 above the request unless it is 8, and covers the request exactly up to 2^32 - 4 bytes |
| Ledger.AccountRemove | memory.c:130-136 | remove_free keeps the law of the counters, with the chunk's bytes in no account |
| Ledger.AccountPush | memory.c:138-144 | push_free keeps the law, taking the chunk's bytes in |
| Ledger.AccountMerge | memory.c:157-166 | a merge keeps the law: one header becomes free bytes |
| Ledger.AccountSplit | memory.c:112-122 | a split keeps the law: a header's worth of bytes becomes meta data |
| Ledger.RegionConserved | memory.c:90-173 | free bytes, used bytes and mem_meta always add up to the length of the region |
| HeapOps.MallocKeepsInv | memory.c:98-128 | malloc keeps tiling, index, coalescing and the law of the counters |
| HeapOps.FreeKeepsInv | memory.c:146-173 | free keeps tiling, index, coalescing and the law of the counters |
| HeapOps.MallocChunks | memory.c:102-127 | malloc takes the head of the first non-empty list and cuts off the rest exactly when a Chunk fits |
| HeapOps.FreeChunks | memory.c:153-172 | free merges with whichever neighbours are free |
| HeapLaws.MallocBlocks | memory.c:98-128 | malloc adds one block at a new pointer and leaves every other block its address and size |
| HeapLaws.FreeBlocks | memory.c:146-173 | free removes exactly its block and leaves every other block its address and size |
| HeapLaws.MallocSize | memory.c:98-128 | the block wastes less than a Chunk over the rounded request, and covers the request exactly up to 2^32 - 4 |
| HeapLaws.HeadFits | memory.c:102-108 | every chunk on a list at or above the first one searched is large enough, so no list is searched |
| HeapLaws.ListedSize | memory.c:130-144 | a chunk on list l is free and has a size from 2^l to 2^(l+1) - 1 |
| HeapTheorems.NullExactly | memory.c:98-107 | malloc returns NULL exactly when every free chunk is below the rounded-up power of two, itself below twice the request |
| HeapTheorems.ListedOnce | memory.c:98-173 | a chunk is free exactly when it is on one list, once, and that is the list for its size |
| HeapTheorems.CanonicalLayout | memory.c:130-173 | the live blocks alone determine the chunks and which of them are free |
| HeapTheorems.Canonical | memory.c:130-173 | two heaps with the same live blocks have the same chunks and the same members on every list |
| HeapTheorems.SameAccount | memory.c:90-173 | they have the same counters but for a header for each malloc that did not split |
| HeapTheorems.MallocThenFree | memory.c:98-173 | malloc and free of its result restore chunks and lists in order; the counters too, or lose one header if malloc did not split |
| HeapTheorems.InitialInv | memory.c:77-96 | memory_init establishes the invariant with no block in use |
| HeapTheorems.AllFreed | memory.c:146-173 | a heap without blocks is the initial one, but for headers lost in two counters |
| HeapRuns.StepKeepsInv | memory.c:98-198 | each of malloc, calloc, realloc and free keeps the invariant and the region |
| HeapRuns.MallocStep | memory.c:98-128 | as a step of a run malloc returns NULL and changes nothing, or adds one block, at least as large as the request if and only if that is at most 2^32 - 4 |
| HeapRuns.CallocStep | memory.c:175-181 | as a step calloc adds one block of at least nmemb * size bytes modulo 2^32 |
| HeapRuns.FreeStep | memory.c:146-173 | as a step free takes exactly its block out, and nothing for NULL |
| HeapRuns.ReallocBlocks | memory.c:183-198 | as a step realloc changes nothing, or replaces its block by a new one that is large enough |
| HeapRuns.RunOne | memory.c:98-198 | a run of one call is that call |
| HeapRuns.RunConcat | memory.c:98-198 | a run of two parts is a run of the one and then of the other |
| HeapRuns.RunKeepsInv | memory.c:98-198 | every reachable heap satisfies the invariant |
| HeapRuns.RunsConfluent | memory.c:98-198 | runs that end with the same live blocks end with the same layout, whatever their order |
| HeapRuns.RunReturns | memory.c:77-198 | a run that has freed all it allocated is back at three chunks and one free chunk |
| HeapLayout.PayloadSafe | memory.c:31-38 | writes to headers and free nodes leave the payload of a chunk in use alone |
| Contents.BlocksDisjoint | memory.c:98-128 | blocks in use do not overlap, are a whole number of words, and end before the last sentinel |
| Contents.BlockAvoidsHeaders | memory.c:98-128 | a block overlaps no header, be its chunk used, free or a sentinel |
| Contents.MallocContents | memory.c:98-128 | the words malloc writes change no word of a block in use |
| Contents.FreeContents | memory.c:146-173 | the words free writes change no word of any other block in use |
| Bytes.MemSet | string.c:50-56 | the n bytes from s on hold c; no other byte changes |
| Bytes.MemCpy | string.c:41-48 | n bytes are copied between ranges that do not overlap; no other byte changes |
| Allocator.Memory.constructor | memory.c:77-96 | memory holds the initial heap, no block is in use, nothing outside the region is written |
| Allocator.Memory.MemoryInit | memory.c:81-95 | three chunks are initialised, linked and marked, and the middle one is listed |
| Allocator.Memory.MemoryChunkInit | memory.c:54-59 | the chunk is bare: unlinked, unused, unlisted; only its own five words are written |
| Allocator.Memory.MemoryChunkSize | memory.c:61-66 | the distance to the next chunk less the header |
| Allocator.Memory.PopList | list.h:132-143 | the head leaves the list, in memory and in free_chunk |
| Allocator.Memory.RemoveFromList | list.h:111-121 | the chunk leaves the list, in memory and in free_chunk |
| Allocator.Memory.PushList | list.h:123-130 | the chunk comes first on the list, in memory and in free_chunk |
| Allocator.Memory.RemoveFreeChunk | memory.c:130-136 | memory and counter follow the abstract remove_free |
| Allocator.Memory.PushFreeChunk | memory.c:138-144 | memory and counter follow the abstract push_free |
| Allocator.Memory.MergeNextChunk | memory.c:153-159 | memory and counters follow the merge with the next chunk |
| Allocator.Memory.MergePrevChunk | memory.c:160-166 | memory and counters follow the merge into the previous chunk |
| Allocator.Memory.Malloc | memory.c:98-128 | refines the abstract malloc, and is a step of a run; the other blocks keep every word; NULL changes nothing |
| Allocator.Memory.Free | memory.c:146-173 | refines the abstract free, and is a step of a run; the other blocks keep every word; NULL is ignored |
| Allocator.Memory.Calloc | memory.c:175-181 | a new block of nmemb * size zero bytes, in `size_t` arithmetic; it is a step of a run; the other blocks keep every word |
| Allocator.Memory.Realloc | memory.c:183-198 | a step of a run: the same pointer and untouched memory if the block is large enough; else a new block that begins with the words of the old one, which is gone; the other blocks keep every word |
| Allocator.Memory.WriteWord | memory.c:34-37 | a program that writes to its own block, free links included, disturbs nothing |
| Coroutines.Isolation | Thread_stubs.c:66-97 | over every run, a thread finds the context it left, whatever yields, creations and computations come between |
| Coroutines.Distance | Thread_stubs.c:283-290 | yields bring a thread nearer one by one; creations leave its distance as it is |
| Coroutines.RunsAfter | Thread_stubs.c:283-290 | a thread at distance d runs after exactly d yields and not before |
| ThreadMemory.SwitchedOut | boot.S:266-269 | the thread left behind is suspended on a frame of 10 core words under 16 words of d8-d15 and keeps its context |
| ThreadMemory.GoesOn | boot.S:270-273 | what is loaded from that frame is the saved context |
| ThreadMemory.StartsUp | boot.S:277-281 | the frame of a thread not yet started leads to starter with its descriptor, its closure and sp at the top |
| ThreadMemory.SwitchIsYield | Thread_stubs.c:66-97 | leaving one stack and advancing along the ring is a yield: every context is kept |
| ThreadMemory.ComputeIsWork | Thread_stubs.c:66-97 | a thread that keeps to its stack changes no other thread's context |
| ThreadMemory.Built | Thread_stubs.c:236-281 | the hand-built frame and descriptor are a suspended thread that has yet to start |
| ThreadMemory.BuiltFields | Thread_stubs.c:236-281 | word by word: bottom_of_stack, gc_regs, exception_pointer, local_roots, backtrace_pos and backtrace_buffer 0, last_retaddr 1, backtrace_last_exn Val_unit, and the two frames |
| ThreadMemory.StartValues | Thread_stubs.c:224-291 | what a thread just created finds in its registers and shared variables, value by value |
| ThreadMemory.LinkedRing | Thread_stubs.c:283-287 | the four writes insert the thread behind the running one in a doubly linked ring |
| ThreadMemory.CreateIsYield | Thread_stubs.c:236-290 | building, linking and one yield make up a creation |
| ThreadMemory.WalkStep | Thread_stubs.c:125-126 | following next goes through the ring and comes back to the running thread |
| ThreadMemory.ScannedExactly | Thread_stubs.c:113-121 | the stacks scanned are those of the other threads that saved one |
| ThreadMemory.ScannedContexts | Thread_stubs.c:113-121 | in terms of contexts: a thread is scanned if and only if it does not run and its caml_bottom_of_stack is not NULL |
| ThreadMemory.UnstartedUnscanned | Thread_stubs.c:113-121 | a thread that has not yet run is never scanned |
| ThreadMemory.ThreadsScannedOnce | Thread_stubs.c:109-125 | no thread is scanned twice |
| Scheduler.Machine.SwitchThread | boot.S:266-273 | registers are pushed, sp is saved through the pointer, and the registers of the new stack are loaded |
| Scheduler.Machine.StarterStub | boot.S:277-281 | r0-r3 and lr are popped |
| Scheduler.Machine.Leave | Thread_stubs.c:69-81 | the shared variables and the frame are stored and the next thread's registers are loaded |
| Scheduler.Machine.Resume | Thread_stubs.c:82-95 | control reaches schedule or starter, curr_thread is the resumed thread, and its context is back |
| Scheduler.Machine.StartUp | boot.S:277-281 | a thread not yet started finds its first context: starter gets its descriptor and its closure, and its stack is empty |
| Scheduler.Machine.GoOn | Thread_stubs.c:82-95 | a thread resumed in schedule becomes curr_thread and finds the context it left |
| Scheduler.Machine.Starter | Thread_stubs.c:203-216 | curr_thread is the new thread and the shared variables are its own |
| Scheduler.Machine.Schedule | Thread_stubs.c:66-97 | one yield of the abstract state; with one thread or none nothing changes |
| Scheduler.Machine.BuildThread | Thread_stubs.c:236-281 | the descriptor's fields and the 31 words of the two frames, each written out |
| Scheduler.Machine.LinkThread | Thread_stubs.c:283-287 | the four link writes |
| Scheduler.Machine.Create | Thread_stubs.c:224-295 | a creation of the abstract state, entered with descriptor, closure and a full stack, with the shared variables NULL or 0 but last_retaddr 1 and the exception root Val_unit; when an allocation fails nothing changes but that the descriptor is given back |
| Scheduler.Machine.ThreadInit | Thread_stubs.c:298-337 | the caller becomes the only thread, with the fields of its descriptor written out, and the hooks are set, once; a second call changes nothing |
| Scheduler.Machine.ScanRoots | Thread_stubs.c:103-128 | every thread's exception slot is visited once, in ring order; the stacks scanned, each once, are exactly those of the threads other than the running one whose context has a caml_bottom_of_stack other than NULL; none of them is yet to be started; the previous hook is called if there is one |
| Scheduler.Machine.StoreOwn | Thread_stubs.c:66-97 | a thread that writes to its own stack changes its own context only |
| Scheduler.Machine.SetRegisters | Thread_stubs.c:66-97 | a thread that sets registers and shared variables changes its own context only |
| Printf.BufAdd | printf.c:83-86 | the text placed grows by the character, which is stored if it comes before the end |
| Printf.DigitsDenote | printf.c:101-127 | in base 10 and 16, upper or lower case, the digits denote the number and have no leading zero |
| Printf.NatTextLength | printf.c:124-127 | a number below base^k has at most k digits |
| Printf.TwentyDigits | printf.c:104-127 | 20 digits are enough for every 64-bit number in base 10 and 16 |
| Printf.MakeDigits | printf.c:119-127 | the temporary buffer of 20 holds the digits in reverse |
| Printf.PadToWidth | printf.c:152-155 | the padding written and what is left of width |
| Printf.PadToPrecision | printf.c:157-161 | the padding written and what is left of width |
| Printf.DrainEnds | printf.c:163-167 | a loop whose counter sits in buf_add's argument ends exactly when all characters fit |
| Printf.PutDigits | printf.c:163-167 | it ends exactly when the digits fit, and then has written them in order |
| Printf.RenderLength | printf.c:128-170 | the length is the larger of the width and what sign, prefix, precision and digits need |
| Printf.WidthFitsText | printf.c:131-170 | the counter for the width leaves the range of an int only when there are more than 2^31 - 1 characters |
| Printf.SprintInt | printf.c:100-173 | NULL for another base; ends exactly when the last digit fits, and then, if the counter for the width stays in the range of an int, advances by the whole text and writes what lies before the end |
| Conversions.RenderParts | printf.c:100-173 | sign, prefix, padding, digits that denote the magnitude in the base, and blanks, each in terms of number and flags; and how many characters come before the end of the digits |
| Conversions.ParseWritten | printf.c:196-284 | flags, width, precision, length modifier and letter that are written out, or asked for with a *, are given back by the parser; without an int for the * or with a number beyond an int there is no conversion |
| Conversions.LiteralMeans | printf.c:189-194 | a character outside conversions stands for itself |
| Conversions.IntegerMeans | printf.c:282-311 | d, i, u, x, X and p: the digits denote the argument modulo 2^8, 2^16, 2^32 or 2^64, signed for d and i, in base 10 or 16, x in lower case; sign, prefix and padding follow the flags, and p has a prefix and at least 8 digits |
| Conversions.CharMeans | printf.c:312-314 | c: the one character with the code of the argument modulo 256 |
| Conversions.StringMeans | printf.c:315-328 | s: the string, cut at the precision if there is one |
| Conversions.PercentMeans | printf.c:329-331 | %%: one % |
| Conversions.NothingMeant | printf.c:282-335 | a letter that is not known, or arguments that are missing or of another type, stand for nothing |
| Conversions.UnknownMeans | printf.c:332-334 | in a run an unknown letter copies the nearest %, and the format goes on after it, or, past the end of the buffer, at it |
| Format.RunIsFull | printf.c:175-340 | the run puts out the full text and gives every conversion its own argument, as ISO C has va_arg advance, if and only if the buffer has the size Needed and the text can be counted |
| Format.TextFits | printf.c:175-340 | a buffer for the whole text is always large enough for that |
| Format.Behind | printf.c:312-314 | an argument that %c did not take is still left over at the end |
| Format.Ahead | printf.c:315-328 | given the right arguments, never less than the full text is counted |
| Format.LengthQueryHangs | printf.c:163-167 | asking for the length of "%d" with size 0 never returns |
| Truncation.Shifted | printf.c:312-328 | past the end and behind with its arguments, a run returns exactly when only literal text and %c follow and these can be counted, and has then counted all of it |
| Truncation.AtLeast | printf.c:185-340 | given its own arguments, a run that returns counts no less than the full text |
| Truncation.LengthLaw | printf.c:175-183 | a run counts the length of the full text if and only if the buffer has the size Need and the text can be counted, and then puts out the full text as far as there is room |
| Truncation.LengthOverflows | printf.c:180-185 | `"%-2147483647dab"` needs size 1 only, but its text has 2^31 + 1 characters, more than can be counted |
| Truncation.NeedWithin | printf.c:175-183 | that size is at most Needed |
| Vsnprintf.ReadFlags | printf.c:204-213 | the flags and where they end |
| Vsnprintf.ReadNumber | printf.c:73-81 | the decimal number, which its callers refuse when it overflows an int, and where it ends |
| Vsnprintf.ReadAmount | printf.c:218-240 | a width or a precision, from the format or an argument, negative ones as 0 |
| Vsnprintf.ReadLength | printf.c:249-272 | the argument's size in bytes |
| Vsnprintf.ReadDirective | printf.c:204-284 | the whole conversion up to its letter |
| Vsnprintf.SetFormat | printf.c:282-310 | base, flags and precision of the six numeric conversions, whose meaning Conversions.IntegerMeans states |
| Vsnprintf.PutNumber | printf.c:285-311 | the text of the number, as Conversions.IntegerMeans states it, or no end when its last digit does not fit, or too much text to count |
| Vsnprintf.PutChar | printf.c:312-314 | the argument is taken only when there is room |
| Vsnprintf.PutString | printf.c:315-320 | ends exactly when the string fits |
| Vsnprintf.PutPart | printf.c:321-327 | the prefix of the string, or the whole precision when the buffer ends before the string |
| Vsnprintf.PutUnknown | printf.c:332-334 | the format is rewound to the nearest '%', which is skipped only when there is room |
| Vsnprintf.WrittenIs | printf.c:337-338 | the buffer then holds the first characters of the text, a terminator, and beyond its size what it held before |
| Vsnprintf.PutFormat | printf.c:189-339 | the loop over the format does what its run says, and leaves its text and a terminator in the buffer |
| Vsnprintf.VSNPrintf | printf.c:175-340 | the outcome of its run, with its text in the buffer; and for complete formats of known conversions, whose meaning the lemmas of Conversions state, the length of the full text, which is returned as a `ssize_t` exactly when the buffer has the size Need and the text is within CountLimit, and then the full text as far as it fits, a terminator, and nothing else changed |
| Strtol.DigitsMaximal | main.c:678-692 | the digits read are the longest run of characters below the base |
| Strtol.DigitsAre | main.c:575-580 | decimal characters count from 0 and letters from 16, as far as the base goes, and the first character that is no digit ends them |
| Strtol.AccumulateMore | main.c:676-690 | accumulating negatively, no step leaves the range of a long, and the accumulator is the value held at LONG_MIN |
| Strtol.ReadDigits | main.c:675-692 | where the digits end, and their value held at LONG_MIN |
| Strtol.DetectBase | main.c:608-674 | the base and where the digits start |
| Strtol.SignedResult | main.c:694-707 | with its sign the accumulator is the value clamped to a long, and ERANGE means that clamping changed it |
| Strtol.StrToL | main.c:582-708 | the signed positional value clamped to a long, the end of the digits, and errno, for every string and base |
| Strtol.DecimalCharactersOnly | main.c:575-580 | up to base 16 only decimal characters are digits, with their usual values |
| Strtol.HexLettersUnread | main.c:575-580 | "0x" and a hexadecimal letter is read as 0, and ends after the 0 |
| Strtol.LeadingLetter | main.c:652-668 | in base 16 "-a" ends after the sign without an error, and "-b" is no number |
| Standard.SkipsAlike | main.c:555-567 | the white space skipped is that of the "C" locale, and no other |
| Standard.StdDigitsAre | main.c:678-692 | the digits of the standard are the longest run of characters whose value, with letters from 10 on, is below the base |
| Standard.StandardExactly | main.c:582-708 | for every string and base: value, end and error are those of the standard if and only if there are not two signs before something the code takes, no 0X is to choose the base, and no letter is among the digits, or all are read and the number is out of range anyway |
| Standard.UpToTen | main.c:594-707 | in bases 2 to 10 they are, if and only if the text is not a plus, a minus and a digit |
| Standard.PlusMinus | main.c:599-605 | "+-5" is read as -5, where the standard finds no number |
| Standard.CapitalPrefix | main.c:608-620 | "0X1" in base 0 is read as 0, where the standard finds 1 |
| RoundTrip.DigitTextValue | printf.c:119-127 | the decimal digits printed are taken by strtol for the number that they denote |
| RoundTrip.ReadsBack | main.c:594-707 | white space of the "C" locale, a sign and digits are read as the signed value, up to the last digit, whatever follows that is no digit |
| RoundTrip.BlankAfterSign | main.c:598-674 | a sign followed by a blank is no number |
| RoundTrip.PrintedIsText | printf.c:139-170 | what is printed holds no terminator |
| RoundTrip.PrintThenParse | printf.c:100-173 | strtol gets every printed 32-bit number back, and ends after its last digit, if and only if there is no prefix and no blank separates a sign from the digits |
| RoundTrip.PrintAndRead | printf.c:100-173 | the same for a number printed into a buffer with room, with a counter for the width that fits an int, terminated, and read from the buffer |

## Left out

- `printf` tracing and `delay` calls inside the allocator, the byte loops and the scheduler: they do not touch the modelled state.
- Interrupts that arrive in allocator or scheduler code, and the 64-bit layout.
- calloc and realloc when malloc returns NULL or when the size is above 2^32 - 4: the code then writes through a bad pointer or past a block, so they are preconditions.
- free and realloc of anything but a live block (and NULL for free), and memory_init of a region with room for fewer than three chunks.
- HeapTheorems.Canonical: lists agree as sets, not in order, because their order depends on the history.
- Allocator.Memory.constructor: the region is given as a start and a size within the word array; the linker symbols and start-up code that choose it are not part of this model.
- DLIST_ITERATOR_BEGIN and DLIST_ITERATOR_END: the code modelled does not use them.
- Scheduler.Machine.ThreadInit: stat_alloc does not fail here, since it raises an exception then.
- Scheduler.Machine.Create: the results of the two allocations are parameters, and the block given back is a result; the allocator itself is modelled apart.
- Scheduler.Machine.Starter: the call of the closure is code of the new thread, and a closure that returns crashes the kernel.
- Scheduler.Machine.ScanRoots: the collector's action is left uninterpreted and does not move the descriptors' fields.
- The frames that the compiler lays out for schedule and its callers are part of a thread's stack contents; the code addresses in lr are three distinct unspecified words.
- Printf.SprintInt: -INT64_MIN wraps and the last `width--` (printf.c:170), whose result is not read, may leave the range of an int, as compilers have it; a loop that never ends is not followed to the overflow of its pointer or its counter; the end of the address space is left to Vsnprintf.CountLimit.
- Truncation.LengthLaw: formats with unknown letters are in `Run` and in the code, but have no text to compare with.
- Vsnprintf.VSNPrintf: a missing or mistyped argument, a number in the format that overflows an int and a format that ends inside a conversion have no defined outcome and are reported as misuse; for a text beyond CountLimit the result is only said to be nothing to rely on, and the buffer is not described; the buffer itself lies within the address space.
- `printf`, `snprintf`, `memmove`, `memcmp`, `strcat`, `strcmp` and `strcpy`: the first four only pass on to the code modelled or carry no state, and the last three do not do what their names say (string.c:70-95).
- Channel mutexes (Thread_stubs.c:143-200): one global remembers the last lock of all threads, so no clean exclusion holds.
- UART, MMIO, mailbox, framebuffer, timer, the rest of boot.S, entry.S, the linker script and the OCaml modules: device access and fixed tables.
- The stubs of main.c other than strtol, digit and isspace: they return constants.
