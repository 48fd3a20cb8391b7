# A Dafny model of the runtime's core protocols

This project models the parts of a WebAssembly runtime (a Go program, module path
`github.com/mgilbir/andsifr`) whose correctness does not show in any single function, and proves
what they are meant to guarantee. `dafny verify dfyconfig.toml` verifies all of it.

**Reclaiming memory.** A module that is closed may still be executing, and other modules may still
call into it. `Reclamation` is a transition system in which every atomic operation of
`BeginExecution`, `EndExecution`, `collectRetiredMemory`, `retireMemory`, of closing a module and of
linking one is a step of its own. `ReclamationInv`, `ReclamationMemory` and `ReclamationSafety` prove
that no interleaving frees memory that a guest call can reach, that nothing is freed twice, and that
nothing retired is left behind once all threads are idle. `ReclamationClosing` tells exactly which closed
modules are never retired, and `ReclamationQueue` what a collection takes while other threads run. `ImportGraph` and `RetireWorklist` are the import
graph with its cycles and the worklist that decides which modules may go, updated in place;
`EpochQueue` is the linked queue of sealed epochs.

**Validating functions.** `Validation` is the abstract stack machine of the validator, `WasmMachine` a
small-step semantics of the same instructions with a stack of typed values, and `FunctionValidator` the
validator that works in place on its stacks. The modules from `ValidationLemmas` to `ValidationBranches`
prove, and `ValidationSoundness` concludes, that a function that is accepted never gets stuck.

**Directories and descriptors.** `DirentCache` is the sliding window over a directory that can only be
read forward, `Readdir` the buffer format of `fd_readdir`, and `FdReaddir` the call and a guest that
lists a directory with it. `DescriptorTable` is the bitmask table and `FSContext` the open files on top
of it. `Bits`, `Bytes` and `GuestMemory` hold the arithmetic on words, little-endian numbers and writes to
memory.

**Integers and constant expressions.** `LEB128`, `LEB128Signed` and `LEB128Int33` are the encoders and
decoders next to the reading of section 5.2.2 of the WebAssembly Core Specification 1.0. `ConstExpr` is the
evaluator over 64-bit slots, the typed machine that it implements, and the analysis in front of it.

**Memory and modules.** `WaitNotify` is wait and notify on one address as a transition system,
`MemoryGrow` the buffer of a memory, `ModuleList` the store's linked list and name map, and `ArgsLayout`
the layout of args and environ.

Where the code does not do what its documentation or the WebAssembly specification says, the model
does what the code does, and the exact condition is proved next to a case that shows it:

- `ReclamationClosing.ClosedButNotRetired` and `ClosedMayStay`: closing a module does not always retire its allocation.
- `GuestMemory.ReadExact` and `LastByteUnreadable`: `Read` panics on a region that ends at 2^32. What follows for the
  callers is in `FdReaddir.FdReaddir` and `FdReaddir.Enumerate`, with `ListingAtTheEndPanics`, and in
  `ArgsLayout.WriteOffsetsAndNullTerminatedValues`.
- `DirentCache.Cache.Read`: a request for two entries from the start returns none.
- `LEB128Signed.DecodedExact` and `BitSixGoesUnnoticed`, `LEB128Int33.Int33Exact` and `FifthBitGoesUnnoticed`: the
  signed decoders accept sequences that are no valid encodings.
- `WaitNotify.CountedTimesOutExactly`: a waiter that a notify has counted may still time out.
- `ConstExpr.PanicsExactly` and `PrefixAloneGoesWrong`: evaluation can read out of bounds. No module that has been
  decoded gets there, because `decodeConstantExpression` (internal/wasm/binary/const_expr.go) only returns data that
  ends in the end opcode; `EndedIsSafe` proves that this suffices.

Modules, threads, files and epochs are opaque identities. Host calls (opening a file, reading a
directory, closing, accepting, the resolvers of a constant expression, the effect of a numeric
instruction) are parameters or nondeterministic choices, with their failures.

## Model

| member | source | states |
|---|---|---|
| `ReclamationSafety.GuestMemoryIsSafe` | internal/wasm/execution.go:38-195 | In every interleaving, from admission of a guest call to its end, no allocation of the entry module or of any module it transitively imports at any moment of the call is freed or even taken by a thread about to free it |
| `ReclamationSafety.EpochsReclaimedInOrder` | internal/wasm/execution.go:61-93 | While a confirmed call pins an epoch, no batch sealed with that or a later epoch has been collected, even if the later epoch has no active call |
| `ReclamationSafety.NoLateJoin` | internal/wasm/execution.go:45-56 | A thread that has a sealed epoch in hand has had it since before the epoch was sealed, so no later call joins the set a batch waits for |
| `ReclamationSafety.FreedOnceAndOnlyUnreferenced` | internal/wasm/execution.go:139-195 | In every reachable state each allocation has been freed at most once, and only if its module is retired and no module that is not retired transitively imports it |
| `ReclamationSafety.QuietMeansReclaimed` | internal/wasm/execution.go:61-93 | When no call and no retirement is in progress, the queue is empty, every module closed with its resources is retired, and an allocation has been freed, exactly once, if and only if its module is retired and not transitively imported by one that is not |
| `ReclamationClosing.ClosedButNotRetired` | internal/wasm/module_instance.go:13-25 | When no call and no retirement is in progress, a module with Closed set is not retired if and only if it was closed without its resources and no FailIfClosed has found it closed since |
| `ReclamationClosing.ClosedMayStay` | internal/wasm/module_instance.go:113-119 | A run that ends so: all is quiet, the module is closed, and its memory is neither freed nor retired |
| `ReclamationQueue.CollectExact` | internal/wasm/execution.go:80-93 | Whatever the other threads do meanwhile, a collection takes the batches of a prefix of the queue that it found, in order, having seen each of its epochs idle at the head, and stops at a head that still has calls |
| `ReclamationSafety.RunKeepsInv` | internal/wasm/execution.go:10-195 | Every state of every run satisfies the whole invariant: mutual exclusion, epoch order, pin counts, graph exactness, one place per allocation, shielding of reachable memory, and a thread responsible for every idle head |
| `ReclamationSafety.ShieldKept` | internal/wasm/execution.go:61-93 | No step of any thread moves an allocation that a confirmed call shields out of the places where it is protected |
| `ReclamationSafety.GuestKept` | internal/wasm/execution.go:38-58 | Every step keeps all memory reachable from every running guest call shielded by that call's epoch |
| `ReclamationSafety.LeakKept` | internal/wasm/execution.go:61-75 | Every step keeps a thread that will still collect whenever the head of the queue has no active call |
| `ReclamationSafety.CloseKept` | internal/wasm/module_instance.go:100-167 | Every step keeps a closer on its way to retirement for each module closed with its resources and not yet retired |
| `ReclamationSafety.OrderKept` | internal/wasm/execution.go:174-190 | Every step keeps the order of reclamation: every epoch after one that is not reclaimed yet is not reclaimed either |
| `ReclamationInv.PinsKept` | internal/wasm/execution.go:45-64 | Every step keeps each epoch's active count equal to the number of threads that pin it |
| `ReclamationInv.ConfirmKept` | internal/wasm/execution.go:46-51 | Every step keeps the epoch of a confirmed call unreclaimed |
| `ReclamationInv.LoadedKept` | internal/wasm/execution.go:38-58 | Every step keeps the epochs created in order and every epoch that a thread holds no newer than the current one |
| `ReclamationInv.ModuleKept` | internal/wasm/module_instance.go:140-167 | Every step keeps Closed set before a module's memory is closed, and only on visible modules |
| `ReclamationInv.GraphKept` | internal/wasm/execution.go:98-173 | Every step of every thread keeps the import graph exact and its counts equal to multiplicities |
| `ReclamationMemory.PlacesKept` | internal/wasm/execution.go:80-93 | Every step keeps each retired allocation in exactly one list: pending, one batch, one thread's hands, or freed |
| `ReclamationMemory.OwnersKept` | internal/wasm/execution.go:167-171 | Every step keeps the retired allocations exactly those of the released modules that own one |
| `RetireWorklist.Modules.RetainImport` | internal/wasm/execution.go:98-110 | Retaining an import fails exactly when the module is closed, and otherwise adds one edge to both directions and keeps the graph exact |
| `RetireWorklist.Modules.UnreferencedClosed` | internal/wasm/execution.go:116-134 | The search returns nothing exactly when an open module transitively imports the module, and otherwise the module and all its transitive importers, each once, all closed |
| `RetireWorklist.Modules.ReleaseUnreferenced` | internal/wasm/execution.go:140-173 | The worklist ends with exactly the closed modules released that no open module transitively imports, cycles included, drops exactly their imports, and collects each newly released allocation once |
| `RetireWorklist.Modules.DropImports` | internal/wasm/execution.go:160-166 | Dropping the imports of a released module takes each count down by its multiplicity, so that no count goes below zero |
| `RetireWorklist.WithImportKeepsInv` | internal/wasm/execution.go:98-110 | A new edge to an open module leaves the set of released modules exact |
| `RetireWorklist.RetiresKeepsInv` | internal/wasm/execution.go:139-173 | What the worklist does to a graph keeps its invariant |
| `EpochQueue.Queue.Enqueue` | internal/wasm/execution.go:182-188 | A sealed epoch goes last with its batch, and the list stays well linked |
| `EpochQueue.Queue.Collect` | internal/wasm/execution.go:80-93 | Whatever the loads of the active counts return, collecting takes exactly the epochs up to the first whose load is not zero, returns their batches in order, and unlinks them |
| `ValidationSoundness.AcceptedFunctionsAreSound` | internal/wasm/func_validation.go:65-2326 | In every execution of an accepted function no step underflows the operand stack or finds a wrongly typed value, a return delivers exactly the declared result types, and the stack never exceeds the recorded maximum, which is within the limit |
| `ValidationSoundness.ExecutionTyped` | internal/wasm/func_validation.go:2476-2610 | At every point of every execution the machine's values and labels have exactly the types and frames that the validator has computed for that point |
| `ValidationSoundness.StepSound` | internal/wasm/func_validation.go:409-547 | From a state that agrees with the validator every instruction leads to one that agrees again, to a trap, or to a return of the result types |
| `ValidationBranches.BranchSound` | internal/wasm/func_validation.go:409-430 | A branch whose operands were checked unwinds to a state that agrees with the validator at the loop's start or behind the block's end, or returns |
| `ValidationBranches.BrIfSound` | internal/wasm/func_validation.go:431-459 | Both outcomes of a conditional branch are sound |
| `ValidationBranches.BrTableSound` | internal/wasm/func_validation.go:460-547 | Whatever the index, the label that a branch table selects gets operands of its types |
| `ValidationBlocks.IfSound` | internal/wasm/func_validation.go:2143-2181 | Both arms of an if are entered as the validator expects, and an if without else passes its parameters on as its results |
| `ValidationBlocks.EndSound` | internal/wasm/func_validation.go:2182-2224 | At the end of a block in reachable code exactly its results are on its stack |
| `ValidationHeight.TraceHeight` | internal/wasm/func_validation.go:2529-2534 | At every point the reachable part of the stack is within the recorded maximum |
| `ValidationLemmas.CheckKeeps` | internal/wasm/func_validation.go:2541-2559 | No instruction changes the stack below the limit of an enclosing block, its limit or its frame |
| `ValidationTrace.EndMatches` | internal/wasm/func_validation.go:2182-2224 | The end that the machine finds by counting nesting is the one at which the validator closed the block |
| `FunctionValidator.Validate` | internal/wasm/func_validation.go:65-2326 | The loop over the body accepts exactly the functions that the abstract machine accepts |
| `FunctionValidator.Stacks.TryPop` | internal/wasm/func_validation.go:2490-2507 | Popping in place does to the stacks what the abstract pop does, including the value that stays in unreachable code |
| `FunctionValidator.Stacks.PopAndVerifyType` | internal/wasm/func_validation.go:2518-2527 | Fails exactly when the abstract machine cannot pop that type |
| `FunctionValidator.Stacks.RequireStackValues` | internal/wasm/func_validation.go:2569-2610 | Succeeds exactly when the wanted types can be popped and, if asked, nothing is left above the limit |
| `FunctionValidator.Stacks.BrTable` | internal/wasm/func_validation.go:460-547 | The loops over the default label and the table accept exactly what the abstract machine accepts |
| `FunctionValidator.Stacks.EndBlock` | internal/wasm/func_validation.go:2182-2224 | Closing a block in place agrees with the abstract machine |
| `DirentCache.Cache.Read` | internal/sys/fs.go:166-238 | Over any sequence of reads the cache is the window of one listing that ends at countRead; a read returns the listing from the position if and only if it does not ask for two entries from the start, ENOENT exactly when the position is past countRead or nonzero and before the window, the new window is as specified, and a read that has failed can be tried again with the outcome it would have had |
| `DirentCache.Cache.FirstRead` | internal/sys/fs.go:184-201 | A read after a rewind fills the cache with the dot entries and the first entries of the directory |
| `DirentCache.Cache.NextRead` | internal/sys/fs.go:203-238 | A later read slides the window to the position and extends it as far as needed |
| `DirentCache.Cache.CachedDirents` | internal/sys/fs.go:241-250 | Returns the first entries of the cache, at most as many as asked for |
| `Readdir.MaxDirents` | imports/wasi_snapshot_preview1/fs.go:967-1011 | The count is that of the longest prefix that fits, plus one if an entry is truncated, and the bytes claimed never exceed the buffer |
| `Readdir.FitsIsLongest` | imports/wasi_snapshot_preview1/fs.go:967-1011 | The prefix fits, and with one entry more it would not |
| `Readdir.WriteDirents` | imports/wasi_snapshot_preview1/fs.go:1016-1042 | Memory afterwards is the memory before with exactly the encoded entries at the buffer, inside the bytes claimed |
| `Readdir.WriteDirent` | imports/wasi_snapshot_preview1/fs.go:1045-1051 | Writes the 24 bytes of the header and nothing else |
| `Readdir.ParseEncoded` | imports/wasi_snapshot_preview1/fs.go:1016-1051 | Parsing undoes the encoding of any entries, whatever bytes follow |
| `Readdir.BufferRoundTrip` | imports/wasi_snapshot_preview1/fs.go:1016-1051 | A guest that parses the used part of its buffer gets exactly the complete entries with consecutive d_next, whatever the buffer held before |
| `Readdir.ShortMeansEnd` | imports/wasi_snapshot_preview1/fs.go:905-953 | bufused below buf_len means that every remaining entry has been written, because at least one entry more was read than can fit |
| `FdReaddir.FdReaddir` | imports/wasi_snapshot_preview1/fs.go:882-959 | Exactly when each error is returned and when the call panics, that errors before the answer leave memory alone, and memory and the cache after every outcome |
| `FdReaddir.WriteAnswer` | imports/wasi_snapshot_preview1/fs.go:927-958 | A panic exactly when the claimed bytes end at 2^32, EFAULT exactly when they or the result lie outside memory, and otherwise the entries and bufused are written |
| `FdReaddir.AnswerReadsBack` | imports/wasi_snapshot_preview1/fs.go:882-959 | After a successful call with the regions apart the guest reads back bufused and the complete entries |
| `FdReaddir.CallProgress` | imports/wasi_snapshot_preview1/fs.go:905-953 | With a buffer for the longest name a call that fills the buffer has taken an entry, a call that does not has taken the rest, and the next cookie is in the window |
| `FdReaddir.Enumerate` | imports/wasi_snapshot_preview1/fs.go:882-959 | A guest that goes on from the d_next of the last complete entry gets ".", ".." and every entry exactly once in order, and terminates, unless some call on the way fills a buffer that ends at 2^32 to its last byte, which panics |
| `FdReaddir.ListingAtTheEndPanics` | imports/wasi_snapshot_preview1/fs.go:935-938 | An empty directory listed into the last 51 bytes of a memory of 65536 pages is such a case |
| `GuestMemory.ReadExact` | internal/wasm/memory.go:161-166 | Read gives the region asked for if and only if it lies in memory and does not end at 2^32, where it panics |
| `GuestMemory.LastByteUnreadable` | internal/wasm/memory.go:161-166 | The last byte of a memory of 65536 pages is such a case |
| `DescriptorTable.Table.Insert` | internal/descriptor/table.go:57-78 | The item goes to the least key that is absent, which is at most the number of items, and no other key changes |
| `DescriptorTable.Table.Lookup` | internal/descriptor/table.go:81-93 | Finds an item exactly when the map has the key; negative keys are absent |
| `DescriptorTable.Table.InsertAt` | internal/descriptor/table.go:97-109 | Updates the map at the key, growing as needed, and fails exactly for negative keys |
| `DescriptorTable.Table.Delete` | internal/descriptor/table.go:112-125 | Removes the key from the map, if it is there |
| `DescriptorTable.Table.Len` | internal/descriptor/table.go:33-41 | The bit counts of the masks add up to the size of the map |
| `DescriptorTable.Table.Range` | internal/descriptor/table.go:129-143 | The calls made are the ascending entries up to and including the first for which the callback returns false |
| `DescriptorTable.AscendingIsContents` | internal/descriptor/table.go:129-143 | The order of Range lists each key of the map once, ascending, with its item |
| `DescriptorTable.Table.Reset` | internal/descriptor/table.go:146-149 | Leaves the empty map |
| `DescriptorTable.Table.Grow` | internal/descriptor/table.go:44-50 | Adds empty masks and leaves the map as it is |
| `DescriptorTable.LeastFree` | internal/descriptor/table.go:63-71 | The lowest free bit of the first mask that is not full is the least absent key of the map |
| `FSContext.Context.OpenFile` | internal/sys/fs.go:280-302 | Which error is returned in which case; a success adds the file at the least free descriptor and nothing else changes |
| `FSContext.Context.Renumber` | internal/sys/fs.go:305-334 | Which error is returned in which case, with nothing changed; a success moves the file, closes exactly the file it replaces, and renumbering onto itself closes nothing |
| `FSContext.Context.SockAccept` | internal/sys/fs.go:338-374 | Which error is returned in which case; a connection that does not get into the table is closed |
| `FSContext.Context.CloseFile` | internal/sys/fs.go:377-387 | A file that fails to close stays open; otherwise exactly its descriptor goes |
| `FSContext.RunKeepsBound` | internal/sys/fs.go:271-387 | After any run of opens, accepts, renumberings and closes every descriptor is within the maximum, so that inserting never wraps or fails |
| `FSContext.PreopensStay` | internal/sys/fs.go:305-334 | In any run a preopen that is not closed itself keeps its descriptor and its file |
| `FSContext.NoNewPreopens` | internal/sys/fs.go:280-374 | A preopen at the end of a run was the same preopen at its start |
| `FSContext.UntouchedStays` | internal/sys/fs.go:280-387 | In any run a file stays open under its descriptor until a call names that descriptor, and no new file takes its place |
| `LEB128.EncodeUint64` | internal/leb128/leb128.go:75-94 | The loop computes the encoding whose value, shortness and round trip are proved |
| `LEB128.EncodedValue` | internal/leb128/leb128.go:75-94 | The encoding stands for the number |
| `LEB128.EncodedShortest` | internal/leb128/leb128.go:75-94 | No terminated sequence with the same value is shorter |
| `LEB128.LoadUnsigned` | internal/leb128/leb128.go:111-157 | The decoders accept exactly the sequences that end within 5 or 10 bytes and whose value fits 32 or 64 bits, with that value and length, and tell end of data from overflow |
| `LEB128.UnsignedRoundTrip` | internal/leb128/leb128.go:75-157 | Decoding an encoded number followed by any bytes gives the number and the encoded length |
| `LEB128Signed.EncodeInt64` | internal/leb128/leb128.go:41-63 | The loop computes the encoding whose value, shortness and round trip are proved |
| `LEB128Signed.EncodedValue` | internal/leb128/leb128.go:41-63 | The encoding stands for the number |
| `LEB128Signed.EncodedShortest` | internal/leb128/leb128.go:41-63 | No terminated sequence with the same value is shorter |
| `LEB128Signed.LoadSigned` | internal/leb128/leb128.go:172-199 | The decoder for 32 bits, and that for 64, reads as the specification does, except that bit 5 of a last byte at the maximal length also stands for bit 6 |
| `LEB128Signed.DecodedExact` | internal/leb128/leb128.go:172-285 | A decoder agrees with the specification if and only if the last byte at the maximal length does not differ in bits 5 and 6 while passing for a value in range |
| `LEB128Signed.DecodersAcceptTheSpec` | internal/leb128/leb128.go:172-285 | Everything valid is decoded to its value |
| `LEB128Signed.DecodedRoundTrip` | internal/leb128/leb128.go:41-285 | Decoding an encoded number in range followed by any bytes gives the number and the encoded length |
| `LEB128Signed.BitSixGoesUnnoticed` | internal/leb128/leb128.go:187-196 | Five bytes that are no int32 and decode to zero |
| `LEB128Int33.DecodeInt33AsInt64` | internal/leb128/leb128.go:205-243 | Reads as the other signed decoders do for 33 bits and 5 bytes, with the continuation bit of the fifth byte cleared |
| `LEB128Int33.Int33RoundTrip` | internal/leb128/leb128.go:205-243 | Decoding an encoded 33-bit number followed by any bytes gives it back |
| `LEB128Int33.EndsInTime` | internal/leb128/leb128.go:205-243 | The continuation bit does not matter to a sequence that ends within five bytes |
| `LEB128Int33.Int33Exact` | internal/leb128/leb128.go:205-243 | The decoder agrees with the specification on a sequence if and only if neither bit 6 nor the continuation bit of the fifth byte goes unnoticed |
| `LEB128Int33.AcceptedGoingOn` | internal/leb128/leb128.go:209-221 | A sequence that goes on after five bytes is accepted if and only if its first five would be |
| `LEB128Int33.FifthBitGoesUnnoticed` | internal/leb128/leb128.go:209-221 | Five bytes that never end, and decode to zero |
| `ConstExpr.EvaluateConstExpr` | internal/wasm/const_expr.go:16-224 | The slot evaluator returns the flattened result of the typed machine and makes the same number of resolver calls; throughout, the slots are as many as the types are wide, a vector counting two |
| `ConstExpr.StepSlots` | internal/wasm/const_expr.go:28-220 | Each instruction has the same effect, error or resolver call on slots and types as on typed values |
| `ConstExpr.SlotsMatchTypes` | internal/wasm/const_expr.go:17-18 | The number of slots of any stack of values is the total width of its types |
| `ConstExpr.ConstExprReferencesGlobal` | internal/wasm/const_expr.go:240-274 | Reports exactly the expressions that are not integer constants and arithmetic up to an end |
| `ConstExpr.UnreportedIsIndependent` | internal/wasm/const_expr.go:226-274 | An expression that is not reported calls no resolver and has the same result or error for all resolvers |
| `ConstExpr.PanicsExactly` | internal/wasm/const_expr.go:117-118 | Evaluation reads out of bounds if and only if the data ends in a vector prefix and, without that byte, evaluation runs off the end where the next instruction should start |
| `ConstExpr.PrefixAloneGoesWrong` | internal/wasm/const_expr.go:117-118 | The shortest such data is that byte alone |
| `ConstExpr.PanicsAfterWalk` | internal/wasm/const_expr.go:117-118 | It happens only if a walk over the opcodes alone comes to a last byte that is a vector prefix |
| `ConstExpr.EndedIsSafe` | internal/wasm/binary/const_expr.go:101-107 | Data that ends in the end opcode, as all decoded data does, is evaluated within its bounds |
| `ConstExpr.FromI32RoundTrip` | internal/wasm/const_expr.go:303-305 | Evaluating the expression made from an int32 gives its 32 bits back |
| `ConstExpr.FromI64RoundTrip` | internal/wasm/const_expr.go:307-309 | Evaluating the expression made from an int64 gives its 64 bits back |
| `ConstExpr.FromVectorRoundTrip` | internal/wasm/const_expr.go:290-301 | Evaluating the expression made from 16 bytes gives the two halves of the vector |
| `WaitNotify.NoLostWakeup` | internal/wasm/memory.go:378-475 | Once a notify for all waiters has returned, then for as long as the value is not the expected one, no waiter that has seen it is in the list, and every one still waiting can return |
| `WaitNotify.NoLostWakeupUnregistered` | internal/wasm/memory.go:454-458 | The same for a notify that finds that nobody has ever waited, and returns 0 |
| `WaitNotify.NotifyExact` | internal/wasm/memory.go:454-475 | Notify returns the smaller of the count and the number of waiters, and takes off exactly the first ones in order of arrival |
| `WaitNotify.RunKeepsInv` | internal/wasm/memory.go:378-475 | In every reachable state a waiter is in the list or has been told, never both; no channel is closed twice; the list has no duplicates and fewer than 2^32 waiters |
| `WaitNotify.ReturnCodes` | internal/wasm/memory.go:405-439 | A wait returns 0 only to a thread that a notify has counted, 1 only after reading another value, and 2 only after a timeout |
| `WaitNotify.CountedTimesOutExactly` | internal/wasm/memory.go:423-438 | A waiter that a notify has counted returns 2 in some run if and only if it has a timeout |
| `WaitNotify.CountedReturnsZero` | internal/wasm/memory.go:423-425 | In every run a waiter without a timeout that a notify has counted waits on, counted, until it returns 0 |
| `WaitNotify.CountedMayTimeOut` | internal/wasm/memory.go:426-438 | A run in which a waiter with a timeout has been counted by a notify and returns 2 |
| `MemoryGrow.Memory.Grow` | internal/wasm/memory.go:230-281 | Succeeds exactly when the sum of pages, without wrap-around, is within the maximum; keeps the old bytes, exposes only zero bytes, never shrinks, and a failure changes nothing |
| `MemoryGrow.Memory.Reslice` | internal/wasm/memory.go:269-278 | The capacity recorded is real and what it exposes is zero |
| `MemoryGrow.Memory.Write` | internal/wasm/memory.go:359-375 | Writes succeed exactly in bounds, change exactly their bytes, and leave the unexposed part zero |
| `MemoryGrow.Memory.constructor` | internal/wasm/memory.go:70-104 | A new memory has its minimum of zero pages |
| `ModuleList.Store.RegisterModule` | internal/wasm/store_module_list.go:67-92 | Fails exactly for a closed store or a name in use, with nothing changed; otherwise the module becomes the head of a well-formed list and its name maps to it |
| `ModuleList.Store.DeleteModule` | internal/wasm/store_module_list.go:9-52 | Takes exactly the module off the list, keeps the list well formed and the map exactly its named modules, never removes another module's entry, and leaves the capacity below twice the larger of size and threshold |
| `ModuleList.DeletedTwice` | internal/wasm/store_module_list.go:23-26 | Deleting again changes nothing |
| `ModuleList.NamedWithout` | internal/wasm/store_module_list.go:28-35 | After forgetting a module's own entry the map is exactly the named modules left on the list |
| `ModuleList.Store.Module` | internal/wasm/store_module_list.go:55-63 | Finds a module exactly when the list has one of that name |
| `ModuleList.Store.Close` | internal/wasm/store.go:920-934 | The snapshot is the whole list, newest first, and the store is empty and closed |
| `ArgsLayout.NullTerminatedByteCount` | internal/sys/sys.go:203-228 | Succeeds exactly when no value has a NUL and the size with terminators is within the maximum, and returns that size |
| `ArgsLayout.WriteOffsetsAndNullTerminatedValues` | imports/wasi_snapshot_preview1/wasi.go:232-267 | EFAULT exactly when a region lies outside memory and a panic exactly when one that is read ends at 2^32, with nothing written; otherwise the offsets and values are written within their regions |
| `ArgsLayout.LaidOutside` | imports/wasi_snapshot_preview1/wasi.go:246-264 | Nothing outside the two regions changes, whether or not they overlap |
| `ArgsLayout.LayoutRoundTrip` | imports/wasi_snapshot_preview1/wasi.go:246-264 | With the regions apart, following offset i to the next NUL yields value i, for every i |

## Left out

- Validator: SIMD, atomics, exception handling, reference and typed-function types and the tracking of initialised locals; numeric instructions, loads, stores and calls are one instruction with operand and result types, and subtyping is equality.
- Validator: reading immediates from bytes, and error messages.
- Engines and the binary decoder: what they must guarantee is stated as preconditions or choices.
- Import counts are unbounded in the model; the source uses uint32.
- Memory reclamation: one allocation per module that owns a memory, named by its module; the order in which the worklist collects allocations is left open.
- WaitNotify.NoLostWakeup: speaks of one address; the map from addresses to their waiters, whose entries are never removed, is not modelled, and neither is the duration of a timeout.
- DirentCache.Cache.Read: listings have fewer than 2^32 entries; the directory does not change while it is read, and its Seek and Readdir may fail without having moved.
- FdReaddir.FdReaddir: finding the cache of a descriptor (EBADF, ENOTDIR) and names too long to encode, on which the source panics.
- FdReaddir.Enumerate: the guest's loop is not part of the repository; it is the protocol that the comments of fd_readdir describe.
- DescriptorTable.Table.Insert: fewer than 2^31 items, beyond which an int32 key would wrap around.
- FSContext: closing the whole context, and initialisation with its preopens.
- MemoryGrow.Memory.Grow: custom allocators and shared memories, and the notification of the engine.
- ModuleList: the store's mutex; each operation is one critical section.
- readv, writev, poll_oneoff, sockets, clocks, paths, configuration and the command line.
