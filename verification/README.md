# Nathra: verified models of the compiler's transformations and of its runtime

Nathra compiles typed Python syntax to C and ships a C runtime. This project models the parts of both whose
correctness is not visible from reading one body, and proves what they are for.

* **Object-graph save/load** (`ObjectGraph`, `CollectOrder`, `GraphRoundTrip`, `GraphSaveLoad`, `GraphSchemas`). A
  heap of typed objects is collected in post-order into an index table, written with pointers as table indices, and
  rebuilt while reading. Saving and loading gives an isomorphic copy, sharing included, exactly when every pointer
  held by a collected object leads to an object collected no later. All graphs with a root of some type meet this
  exactly when no type that collect can come across from there has a pointer out of collect's sight.
* **Binary AST codec and arena** (`Bytes`, `BinaryIO`, `AstFormat`, `AstBytes`, `AstRoundTrip`, `AstArena`,
  `AstReaders`). One table of node shapes drives the encoder and both decoders; it agrees with the payload structs of
  the C header, member by member and in size. Both readers give back exactly what was written, the C reader exactly
  for trees without NUL bytes in strings, and the C reader never takes more than 14 arena bytes per input byte.
* **Channel and thread pool** (`ChannelMachine`, `Channel`, `PoolMachine`). The bounded channel as a state machine
  whose steps are the lock-protected sections, with single-waiter signals and spurious wakeups, and the ring buffer
  that refines it. No run loses a wakeup, and the k-th value received is the argument of the k-th accepted send; a
  pool shutdown leaves no task unrun or run twice.
* **Call specialisation** (`MiniLang`, `Specialise`, `SpecialiseScan`, `SpecialisedProgram`). A statement language
  with typed values, calls, loops, output and an evaluator; a whole program with calls redirected to clones behaves as
  before, under a condition on each redirected call that is also shown to be necessary. The program that the scan of
  the hot functions leads to is such a program when the constants cached first are literals of the parameters' types.
* **Stack-lifetime narrowing** (`Blocks`, `Scopes`, `Narrowing`), **defer lowering** (`DeferLowering`, `DeferShapes`), **struct
  layout advice** (`StructLayout`, `StructAdvice`, `StructPlaces`), **allocation merging** (`ArenaBatching`), **loop
  index spaces** (`IndexSpaces`) and **expression printing** (`CGrammar`, `ExprPrinter`, `ExprMeaning`): each transformation against
  an independent account of what it must keep.
* **Analyses** (`LeakChecker`, `LeakExactness`, `LeakEvents`, `LeakTracking`, `ColdInference`): for each, exactly when
  its verdict is the truth about the paths or runs of a body. **Graph algorithms** (`Topology`, `EmissionOrder`).

`Wrappers` holds optional results and what several modules share.

Code that updates state is modelled by classes and loops (`NrPtrSet`, `NrWriter`, `NrReader`, `NrChannel`, `NrArena`,
`AstSerializer`, `AstDeserializer`, `ObjectStore`, `Specialiser`, `Checker`, `Sorter`, `FunctionCompiler`), each
proved against a specification function or relation; the theorems are about those. malloc's answers, the thread a
signal wakes, the iteration order of sets, and file contents are parameters.

Integers are unbounded except where the source stores them in a fixed width: the binary formats, and the conversions
of `MiniLang`.

## Where the code does not do what its text says

Each of these is a lemma or a method's contract, most with the exact condition under which the promise does hold.

* Collect looks for pointers only in direct fields and one level of value fields, but the writer writes nested ones
  and struct arrays too: such a pointer can be loaded as NULL (`HiddenPointerIsLost`), and exactly then the copy
  differs (`RoundTripExactly`, for schemas `SchemaExactly`). A null root is saved as an empty table that load cannot
  use (`NullRootDoesNotLoad`).
* A specialised clone gets the literal where the call would have converted it to the parameter's type
  (`ConstantMustBeConverted`, `HalfOfOneBecomesZero`), and because 1 and 1.0 are equal dictionary keys two calls can
  share a clone made for one of them (`IntAndFloatShareAClone`); a call fits its clone exactly when the constants
  cached first are literals of the parameters' types (`CallFitsExactly`).
* A tuple return without array fields is built after the deferred calls have run, despite the rule the other returns
  follow (`TupleAfterDefer`; exactly when it matters: `TidyAgreesExactly`).
* A defer inside a branch or loop is pasted at every later exit whether or not and however often it ran
  (`NestedDeferAlwaysRuns`). `LoweringAgreesExactly` says of any body and run when the outcome is right all the same,
  and `SameEndExactly` which bodies always end in the right state.
* `_body_is_all_cold` says any return statement makes a body not all-cold; it only looks at top-level ones
  (`NestedReturnIsMissed`; `InferredAreColdExactly` says when the inferred functions are cold all the same). Its
  native twin applies a different rule (`TwinsDiffer`) and looks at decorated functions that the other skips
  (`SkippedIsInferredNatively`); `TwinsAgreeExactly` says when they infer the same.
* The leak checker reports a leak that no path has when a variable is freed in one branch and again after it
  (`FalseLeak`). Its double frees and uses after free are always those of some path (`OnlyLeaksAreSpurious`), its
  leaks exactly unless it frees or hands over a variable that it holds both live and freed (`LeaksExactWithoutClash`),
  and a spurious leak is always about a variable with a real error (`SpuriousLeakHasRealError`). After a with
  statement whose body always exits it goes on as if the body had not been there (`AfterExitingWith`).
* Pinning functions together updates neither the recorded weight nor the category of a cluster
  (`PinKeepsWeightExactly`, `PinKeepsCategoryExactly`).
* A struct variable whose address is taken gets no block, for a pointer to it may outlive its last mention; but one
  that is declared inside the kept block of another variable is closed with it (`PointerOutlivesBlock`,
  `AddressTakenInScopeExactly`).
* The leak checker never takes a variable off its list of freed ones. One that is acquired anew after a free and freed
  again is reported as freed twice and, for good measure, as leaked (`ReusedIsReported`); `FaultIsReal` and
  `WithoutReuseAllIsReal` say when a report on a path is true.
* `//` and `%` are printed as C's division and remainder, which round towards zero: they agree with Python exactly when
  the division is exact or the signs are equal (`ArithAgreesExactly`, `FloorIsTruncated`). `and` and `or` are printed
  as operators that give 0 or 1, so they agree exactly where Python's value is 0 or 1 (`BooleanAgreesExactly`,
  `AndOfNumbers`).
* A chained comparison is printed without outer parentheses, so that a neighbouring operator takes hold of one of its
  ends (`NotOfAChain`, `PrintReadsBack`).
* The field-order warning is said to skip structs with arrays or function pointers; it skips those members and
  compares the sizes of the rest. Following it can then make the struct larger (`AdviceCanHurt`). In front of such a
  member or behind it, its saving is the real one for all fields exactly when their largest alignment is 1, or divides
  the member's size and is no smaller than the member's (`AdviceBehindExactly`, `AdviceAheadExactly`); anywhere,
  exactly when the member needs no alignment and has such a size (`AdviceAnywhereExactly`), and then for any number of
  members (`AdviceAmongBlocks`).
* A compiled parallel function returns early when its range is empty, so the statements after the loop are skipped too
  (`CompiledParallel`).

## Model

| member | source | states |
|---|---|---|
| GraphSaveLoad.NrPtrSet.Find | runtime/nathra_rt.h:1263-1268 | the position of a pointer in the set, or -1 exactly when it is absent |
| GraphSaveLoad.NrPtrSet.Add | runtime/nathra_rt.h:1270-1282 | an absent pointer is appended with its type at the returned index; a present one changes nothing |
| GraphSaveLoad.Collect | compiler/compiler.py:3071-3097 | on an acyclic graph it terminates with the table that the order function gives, children before parents, duplicate-free and with the right types |
| CollectOrder.VisitKeeps | compiler/compiler.py:3080-3096 | collecting an object keeps the table duplicate-free with children before parents, adds nothing but what the object reaches by lower rank, and ends with the object itself |
| CollectOrder.OrderIsPostOrder | compiler/compiler.py:3080-3096 | collecting from a root gives the children-first table of exactly what is followed from it, the root last |
| CollectOrder.VisitSame | compiler/compiler.py:3080-3096 | the order depends on the objects there are only, not on others in memory |
| GraphSaveLoad.CollectAll | compiler/compiler.py:3172-3177 | the table is a post-order of exactly what is followed from the root, the root last; empty for a null root |
| CollectOrder.PostOrderIsClosed | compiler/compiler.py:3080-3094 | the table's objects contain the root and everything collect follows from any of them |
| ObjectGraph.InSightRefsAreKids | compiler/compiler.py:3080-3092 | where a schema nests no pointer out of collect's sight, every stored pointer is one that collect follows |
| ObjectGraph.FollowedExactly | compiler/compiler.py:3080-3092 | a pointer is followed if and only if it is not null and stored in a field, or in a field of a value field |
| CollectOrder.LeavesInOrder | compiler/compiler.py:3080-3092 | fields are followed in order: different objects without pointers come in the order of the fields that lead to them |
| GraphSaveLoad.SerializeGraph | compiler/compiler.py:3099-3125 | appends the encoding of the value, pointers as indices in the pointer set or -1 |
| GraphRoundTrip.ValueBytes | compiler/compiler.py:3099-3125 | byte by byte: text after its length, a pointer as its first index in the table or four bytes 255, a struct after its hash, each in four bytes, low byte first |
| GraphRoundTrip.EncodedInOrder | compiler/compiler.py:3099-3125 | fields and elements follow one another in order |
| GraphSaveLoad.Save | compiler/compiler.py:3172-3207 | the file is the encoding of the header and of every object in the collected order |
| GraphRoundTrip.FileBytes | compiler/compiler.py:3179-3199 | a file begins with the bytes of the magic number, the root type's hash and the number of objects |
| GraphRoundTrip.HeaderExactly | compiler/compiler.py:3215-3224 | a header is accepted if and only if it has twelve bytes, the magic number, this root type's hash and a positive count |
| GraphRoundTrip.OtherTypeDoesNotLoad | compiler/compiler.py:3218-3219 | a file saved for one root type does not load as another |
| GraphRoundTrip.OtherHashIsNotRead | compiler/compiler.py:3127-3133 | a value with the hash of another struct in front is not read |
| GraphSaveLoad.DeserializeGraph | compiler/compiler.py:3127-3164 | reads what the decoding function says, failing on a short input, a hash mismatch or an index whose slot is not filled yet |
| GraphSaveLoad.ObjectStore.Load | compiler/compiler.py:3209-3253 | decodes the file, puts the objects at the addresses the allocator gave and returns the last one; nothing else in memory changes |
| GraphRoundTrip.LoadOfSave | compiler/compiler.py:3166-3253 | loading a saved file succeeds exactly when no object points to a later table entry, and gives every object with its pointers moved |
| GraphRoundTrip.RoundTripExactly | compiler/compiler.py:3071-3253 | the loaded objects are isomorphic to the saved ones (scalars, types, pointers, sharing) if and only if every pointer in a collected object leads to an object collected no later |
| GraphSaveLoad.FlatGraphsPointBack | compiler/compiler.py:3080-3092 | the condition of the round trip holds for every children-first table of a schema whose pointers are all in sight |
| GraphSchemas.SchemaExactly | compiler/compiler.py:3071-3122 | every acyclic graph with a root of a type meets the round trip's condition if and only if no type that collect can come across from it has a pointer two value levels down or inside a non-empty array |
| GraphSaveLoad.CopyIsIsomorphic | compiler/compiler.py:3226-3250 | the objects load leaves in memory are a disjoint isomorphic copy, with the new root for the old one, if and only if pointers point back |
| GraphSaveLoad.SaveThenLoad | compiler/compiler.py:3172-3253 | save, then load, in one store: an isomorphic copy exactly under the condition, and always for flat schemas |
| GraphSaveLoad.NullRootDoesNotLoad | compiler/compiler.py:3220-3245 | the file written for a null root does not load |
| GraphSaveLoad.HiddenPointerIsLost | compiler/compiler.py:3017-3122 | for a type that save and load are generated for, a pointer inside a struct array is written as -1 and loaded as NULL although its target exists |
| Bytes.NumOfLE | runtime/nathra_rt.h:1170-1171 | reading back an unsigned little-endian store returns the value |
| Bytes.SignedRoundTrip | runtime/nathra_rt.h:1167-1168 | reading back a two's complement store returns the value when it fits the width |
| Bytes.LEByte | runtime/nathra_rt.h:1170-1171 | byte k of an unsigned store is the digit of 256 to the k |
| Bytes.SignedByte | runtime/nathra_rt.h:1167-1168 | of a signed store too, quotients rounded down |
| BinaryIO.NrReader.ReadBytes | runtime/nathra_rt.h:1214-1222 | the next bytes are returned and passed over, or nothing is read past the end |
| AstReaders.AstSerializer.Serialize | compiler/ast_serial.py:229-531 | succeeds exactly on encodable trees and then appends their encoding |
| AstBytes.NodeBytes | compiler/ast_serial.py:229-231 | a node is its tag, its line number low byte first, and its fields |
| AstBytes.FieldBytes | compiler/ast_serial.py:171-226 | each kind of field byte by byte: the form byte, then counts and lengths in four bytes, integers in eight, low byte first; -1 for no string |
| AstBytes.LimitsExactly | compiler/ast_serial.py:155-177 | what the serializer accepts, limit by limit: line numbers, string lengths, integers, operator counts, constants |
| AstBytes.MalformedIsRejected | compiler/ast_serial.py:664-852 | a node cut off in its header, an unknown tag and a form byte of no form make the Python reader raise; an unknown tag leaves an empty payload in C |
| AstBytes.NegativeLength | compiler/ast_serial.py:656-659 | a string of any negative length is no string |
| AstBytes.CutOffString | compiler/ast_serial.py:656-662 | of a string that is cut off the Python reader takes what is there, the C reader aborts |
| AstBytes.ShapesAreStructs | native/generated/ast_nodes.h:51-330 | for every tag the fields that are written are the members of the C payload struct, in order and kind |
| AstBytes.PayloadIsSizeof | native/generated/ast_nodes.h:51-330 | the arena memory taken for a payload is the size of its struct under C's layout rules, and 8 its alignment |
| AstBytes.NodeIsSizeof | native/generated/ast_nodes.h:56-60 | and that for the node itself the size of its struct |
| AstReaders.AstDeserializer.ReadNode | compiler/ast_serial.py:636-862 | the Python reader returns and consumes what the decoding function says, on any bytes; a string cut short by the end of the input comes back truncated |
| AstReaders.ReadNode | native/generated/ast_nodes.c:826-1028 | the C reader returns and consumes what the decoding function says, and the arena grows by the result's footprint |
| AstReaders.ReadNodeList | native/generated/ast_nodes.c:422-437 | the item array and the nodes take 8 bytes an item plus the items' footprints |
| AstReaders.ReadStr | native/generated/ast_nodes.c:403-414 | a string is copied up to its first NUL byte; a negative length gives NULL |
| AstReaders.NrArena.Alloc | runtime/nathra_rt.h:934-945 | the block starts at the old offset, the offset grows by the size rounded up to 8, the arena doubles until that fits and moves only then |
| AstRoundTrip.PythonRoundTrip | compiler/ast_serial.py:229-862 | decoding an encoding followed by anything returns the tree and the rest |
| AstRoundTrip.PrefixFree | compiler/ast_serial.py:229-531 | no encoding is a prefix of a different tree's |
| AstRoundTrip.CRoundTrip | native/generated/ast_nodes.c:403-446 | the C reader consumes the same bytes and builds the tree with strings cut at NUL: the same tree if and only if no string holds a NUL |
| AstArena.FootprintBound | native/generated/ast_nodes.c:826-1028 | all blocks taken for a tree, and 8 bytes more, are at most 14 times its encoding |
| AstArena.BoundIsTight | native/generated/ast_nodes.c:826-1028 | 14 cannot be lowered |
| AstReaders.SerializeThenReadInC | native/generated/ast_nodes.c:1030-1036 | serialising a tree and reading it with an arena of 64 bytes a byte gives the tree's C view, never reallocates, and fills exactly the footprint |
| ChannelMachine.SendKeepsInv | runtime/nathra_rt.h:501-516 | a send section keeps the wakeup and order invariants, whichever sleeper its signal wakes |
| ChannelMachine.RecvKeepsInv | runtime/nathra_rt.h:518-533 | a receive section keeps them |
| ChannelMachine.RunKeepsInv | runtime/nathra_rt.h:501-541 | every run keeps them, for any number of threads and spurious wakeups at any time |
| ChannelMachine.ChannelSafety | runtime/nathra_rt.h:475-541 | with capacity at least 1: while open, a sleeping receiver implies no more values than woken receivers, a sleeping sender no more free slots than woken senders; accepted values are received values followed by the queue; sleepers on both sides never coexist with nobody woken; after close nobody sleeps |
| ChannelMachine.ReceivedAreSent | runtime/nathra_rt.h:501-533 | in every run the values received, followed by the queue, are the arguments of the sends that were made while open and not full, in order, whatever slept in between |
| ChannelMachine.CapacityZeroPassesNothing | runtime/nathra_rt.h:487-533 | with capacity 0 no run accepts or delivers a value, and until close no thread that waits gets out again |
| ChannelMachine.CapacityZeroDeadlocks | runtime/nathra_rt.h:487-533 | with capacity 0 a sender and a receiver can both sleep with nobody to wake them |
| ChannelMachine.ClosedAcceptsNothing | runtime/nathra_rt.h:506-541 | once closed, no run accepts another value; receivers drain what is left in order |
| Channel.NrChannel.SendSection | runtime/nathra_rt.h:501-516 | on the ring buffer, one pass through the locked section is one send step of the machine, with its result; exactly a send while open and not full appends its value to the contents |
| Channel.NrChannel.RecvSection | runtime/nathra_rt.h:518-533 | likewise for receive; the value is the oldest, and the rest stays in order |
| Channel.NrChannel.CloseSection | runtime/nathra_rt.h:535-541 | likewise for close |
| PoolMachine.RunKeepsInv | runtime/nathra_rt.h:603-643 | in every run each received task is either executed once or in the hands of exactly one worker |
| PoolMachine.TasksAreSubmitted | runtime/nathra_rt.h:603-643 | the k-th task a worker gets is the k-th one whose submission was accepted |
| PoolMachine.ShutdownRanEverything | runtime/nathra_rt.h:628-643 | with at least one worker, when shutdown returns the queue is empty and every accepted task has run exactly once |
| PoolMachine.ShutdownRanAllExactly | runtime/nathra_rt.h:616-643 | when shutdown returns, every accepted task has run if and only if there was a worker or nothing was accepted |
| PoolMachine.NoWorkersDropTasks | runtime/nathra_rt.h:616-643 | a run without workers in which an accepted task is dropped |
| PoolMachine.ShutdownMakesProgress | runtime/nathra_rt.h:635-643 | while shutdown is joining, some step other than waiting is always possible |
| PoolMachine.WorkerStepsUseUpWork | runtime/nathra_rt.h:603-643 | after close every worker step uses up part of a finite amount of work, and nothing adds to it: shutdown cannot run for ever |
| Specialise.CloneCompiles | compiler/codegen_stmts.py:648-657 | a clone is compilable C exactly when the callee neither assigns nor calls a substituted parameter |
| Specialise.SubstExec | compiler/codegen_stmts.py:648-657 | running the substituted body without those parameters gives the same result, output and final variables |
| Specialise.RedirectedEval | compiler/codegen_exprs.py:562-568 | an expression whose calls are redirected evaluates to the same value with the same output |
| Specialise.CloneSameAsCallee | compiler/codegen_stmts.py:644-674 | a clone called with the remaining arguments does what its callee does with all of them, recursion through other clones included |
| Specialise.SameFunction | compiler/codegen_stmts.py:608-674 | every original function of the rewritten program does what it did before |
| Specialise.ConstantMustBeConverted | compiler/codegen_stmts.py:649-655 | for any parameter type, call constant and substituted constant, results agree if and only if the substituted constant is the call's converted to the parameter type |
| Specialise.HalfOfOneBecomesZero | compiler/codegen_stmts.py:649-655 | a double parameter specialised on the literal 1 turns x / 2 from 0.5 into 0 |
| SpecialiseScan.Specialiser.Scan | compiler/codegen_stmts.py:608-674 | every participating call whose callee has at most three different combinations of constants or at most thirty statements is mapped to the clone of its own key with its non-constant arguments, and no other call is; the cache only grows, and no two keys share a clone |
| SpecialiseScan.TakesExactly | compiler/codegen_stmts.py:614-627 | a call takes part if and only if its callee is known and some argument with a parameter is a constant |
| SpecialiseScan.PassedExactly | compiler/codegen_stmts.py:671-674 | the arguments passed to the clone are, in order, those that are no constants or have no parameter |
| SpecialiseScan.BooleansAreNumbers | compiler/codegen_exprs.py:155-159 | True and False have the keys and the values of 1 and 0 |
| SpecialiseScan.FitsExactly | compiler/codegen_stmts.py:626-645 | of two constants with equal keys, the one converted to the parameter's type is the cached one if and only if the cached one is a literal of that type |
| SpecialiseScan.CallFitsExactly | compiler/codegen_stmts.py:614-674 | a mapped call has its clone's constant positions, and its converted constants are the clone's if and only if those cached first are literals of the parameters' types |
| SpecialiseScan.IntAndFloatShareAClone | compiler/codegen_stmts.py:626-645 | f(1) and f(1.0) share a key although the constants differ |
| SpecialisedProgram.ScanAll | compiler/codegen_stmts.py:596-674 | scanning the hot functions one after the other leaves every mapped call with the clone of its own key, whatever the order of the walk |
| SpecialisedProgram.EmittedIsRewritten | compiler/codegen_exprs.py:562-568 | with cached literals of the parameters' types, the program compiled from the call map is a rewriting of the original: every dropped argument converts to the constant in the clone |
| SpecialisedProgram.SpecialisationIsSound | compiler/codegen_stmts.py:608-674 | every function of the emitted program gives the same result and output as before, for all arguments and any number of steps |
| Scopes.FindLastUse | compiler/codegen_stmts.py:969-977 | the last statement from the declaration on that mentions the variable |
| Scopes.FindPlan | compiler/codegen_stmts.py:939-1036 | the plan has a block for exactly the candidates with no partially overlapping candidate and no local trapped inside |
| Narrowing.BlockExactly | compiler/codegen_stmts.py:951-1036 | a block from d to l is emitted if and only if a struct variable lives from its last declaration d to its last mention l, is never passed to ref, its life crosses no other such life, and every other local declared within is last mentioned within |
| Narrowing.AddressTakenHasNoBlock | compiler/codegen_stmts.py:951-967 | a variable whose address is taken anywhere in the body has no block of its own |
| Narrowing.AddressTakenInScopeExactly | compiler/codegen_stmts.py:951-1058 | such a local is in scope at a later statement if and only if every block that was open at its declaration is still open |
| Narrowing.PointerOutlivesBlock | compiler/codegen_stmts.py:951-1058 | a local whose address was stored is closed with another variable's block before the stored pointer can be used |
| Scopes.CompileBody | compiler/codegen_stmts.py:1047-1058 | the emitted braces and statements are those of the plan |
| Scopes.PlanIsLaminar | compiler/codegen_stmts.py:1005-1017 | two kept intervals are disjoint or nested |
| Scopes.NarrowingIsScopeCorrect | compiler/codegen_stmts.py:935-1058 | the braces are balanced and each one closes the block whose lifetime ended; each statement runs with exactly the kept intervals containing it open; each declared local is in scope wherever it is mentioned |
| Scopes.LocalsStayInScope | compiler/codegen_stmts.py:1018-1029 | every later mention of a top-level local lies in all blocks that were open at its declaration |
| Scopes.DeferredCallsSee | compiler/codegen_stmts.py:1060-1064 | a local is visible to cleanup at the end of the function exactly when no kept block covers its declaration |
| Blocks.Emit | compiler/codegen_stmts.py:1047-1058 | the loop emits openers, statement and closers as specified |
| Blocks.BlocksNest | compiler/codegen_stmts.py:1053-1058 | for laminar intervals every closing brace closes the innermost open block, and none is left open |
| Blocks.OpenAtStatement | compiler/codegen_stmts.py:1047-1058 | the blocks open at a statement are exactly the kept intervals containing it |
| Blocks.InScopeExactly | compiler/codegen_stmts.py:1018-1029 | a declaration is in scope at a later statement if and only if every interval covering the one covers the other |
| LeakChecker.Checker.AnalyzeBody | compiler/compiler.py:1486-1496 | computes the state and reports of the statement-list analysis |
| LeakChecker.Checker.RunDischarge | compiler/compiler.py:1452-1484 | computes the state and reports of a call |
| LeakChecker.Checker.CheckFunction | compiler/compiler.py:1452-1594 | the reports are those of the analysis, and include those of every path |
| LeakChecker.MergingMissesNothing | compiler/compiler.py:1551-1573 | every leak, double free or use after free reported along any single path is reported by the merged analysis |
| LeakChecker.CheckLeaksFunc | compiler/compiler.py:1386-1594 | with the variables skipped that the function's body gives, the reports are those of the analysis and include those of every path |
| LeakEvents.PathReportsExactly | compiler/compiler.py:1452-1594 | along a path, read as the acquisitions, frees, hand-overs and uses of one variable: a leak is reported if and only if the path leaves with the variable acquired and since neither freed nor handed over unless after an earlier free, a double free or use after free if and only if it is touched so after an earlier free |
| LeakEvents.PrintedReports | compiler/compiler.py:1452-1594 | whatever some path's events call for is printed, and on bodies without a with that always exits nothing else but leaks is |
| LeakEvents.FaultIsReal | compiler/compiler.py:1467-1477 | a fault that is reported on a path is a real one if and only if the variable was not acquired anew since its last free before |
| LeakEvents.WithoutReuseAllIsReal | compiler/compiler.py:1452-1594 | on a path without an acquisition after a free the faults and the leak reported are the real ones |
| LeakEvents.ReusedIsReported | compiler/compiler.py:1452-1566 | two lists freed once each under one name are reported as a double free and a leak |
| LeakTracking.TagsExactly | compiler/compiler.py:1386-1450 | which functions free or take over their arguments and which give out owned values; and a variable is left alone if and only if it is bound to raw memory, or to what an allocator returns and then is returned, stored in a field, passed to a call that neither frees, consumes nor just borrows, or passed to none that frees or consumes |
| LeakExactness.ExactPerVariable | compiler/compiler.py:1452-1594 | following one variable's pair of bits over the branches reports exactly what some path reports about it |
| LeakExactness.RealOrSpurious | compiler/compiler.py:1567-1594 | some path has a report if and only if the merged analysis makes it and following its variable alone makes it too |
| LeakExactness.OnlyLeaksAreSpurious | compiler/compiler.py:1452-1573 | on branching bodies without a with statement that always exits, a double free or use after free is reported if and only if some path has it |
| LeakExactness.LeaksExactWithoutClash | compiler/compiler.py:1567-1594 | there too, a leak is reported if and only if some path has it, unless the variable is freed or handed over while held both live and freed |
| LeakExactness.SpuriousLeakHasRealError | compiler/compiler.py:1567-1594 | there too, a leak that no path has is about a variable that some path frees twice or uses after free |
| LeakExactness.FalseLeak | compiler/compiler.py:1386-1573 | a variable made by list_new, freed in one branch and again after it, is tracked and reported leaked, though no path leaks it |
| LeakExactness.AfterExitingWith | compiler/compiler.py:1582-1585 | after a with statement whose body always exits the analysis goes on with the state before it, while no path does |
| ColdInference.InferCold | compiler/compiler.py:1140-1167 | terminates with the least set closed under the rule, every added name justified by a body; the Python rule passes decorated definitions over, the native one does not |
| ColdInference.PyRuleExactly | compiler/compiler.py:17-43 | the Python rule accepts a body if and only if some statement with no return before it is terminal: a raise, a call of a cold name or abort, or an if with an else both of whose branches have such a statement |
| ColdInference.NativeRuleExactly | native/generated/native_analysis.c:40-86 | the native rule accepts a body if and only if its last statement is a raise, a plain call of a cold name or abort, or an if both of whose branches end in such a statement |
| ColdInference.OrderIndependent | compiler/compiler.py:1147-1157 | the result does not depend on the order of definitions |
| ColdInference.InferredAreColdExactly | compiler/compiler.py:17-43 | where functions not judged cold can complete, no inferred-cold function ever completes if and only if no inferred body has a way to its end or to a return past every plain call of a cold name |
| ColdInference.InferredColdIsCold | compiler/compiler.py:17-43 | returns at the top level only and no method call with the bare name of a cold function rule out such a way for every body that the rule accepts, so that no inferred-cold function completes, without assuming anything of other functions |
| ColdInference.NestedReturnIsMissed | compiler/compiler.py:26-43 | a return inside an if does not stop a body from being judged cold |
| ColdInference.NativeImpliesPython | native/generated/native_analysis.c:40-86 | without returns, what the native rule accepts the Python rule accepts |
| ColdInference.NativeWithinPythonExactly | native/generated/native_analysis.c:88-125 | the native set is within the Python one if and only if Python also infers the decorated or returning definitions that the native rule accepts |
| ColdInference.PythonWithinNativeExactly | native/generated/native_analysis.c:88-125 | the Python set is within the native one if and only if the native compiler also infers the definitions that the Python rule accepts and the native rule does not |
| ColdInference.TwinsAgreeExactly | native/generated/native_analysis.c:88-125 | both compilers infer the same functions if and only if each infers the definitions that only the other one's rule accepts |
| ColdInference.SkippedIsInferredNatively | compiler/compiler.py:1146-1153 | a decorated function that only raises is inferred by the native twin only |
| ColdInference.TwinsDiffer | native/generated/native_analysis.c:68-86 | in general neither rule implies the other |
| Topology.InterClusterWeight | compiler/topology.py:756-766 | the sum of the edges between two clusters |
| Topology.WeightOfEdge | compiler/topology.py:756-766 | an edge counts between two clusters with its weight if it joins them in either direction, else not at all |
| Topology.WeightAdds | compiler/topology.py:756-766 | the weight over two lists of edges is the sum of both |
| Topology.BestPair | compiler/topology.py:779-795 | the first, in cluster order, of the heaviest compatible pairs of positive weight, or none exactly when there is none |
| Topology.WeightAfterMove | compiler/topology.py:802-814 | moving a cluster's functions into another's gives the sum of both inner weights and the weight between |
| Topology.MergeKeepsInv | compiler/topology.py:797-816 | a merge keeps the partition, the categories and the recorded weights |
| Topology.BuildClusters | compiler/topology.py:724-823 | from one cluster a module, by merges of the first heaviest compatible pair of positive weight, one after the other; the result is a partition of all functions, no cluster mixes two non-pure categories, recorded weights are the inner weights, and no compatible pair of positive weight is left: the cap of 2n merges is never the reason to stop |
| Topology.ApplyPins | compiler/topology.py:829-864 | the partition is kept, every known pinned pair shares a cluster, nobody who shared one is parted, and functions share one only if all this makes them |
| Topology.PinKeepsWeightExactly | compiler/topology.py:851-859 | recorded weights stay right if and only if the moved cluster brings no weight |
| Topology.PinKeepsCategoryExactly | compiler/topology.py:851-859 | categories stay unmixed if and only if every moved function is pure or of the anchor's category |
| Topology.PinsForgetWeight | compiler/topology.py:851-859 | two modules whose pin leaves a wrong weight |
| Topology.PinsMixCategories | compiler/topology.py:851-859 | two modules whose pin mixes categories |
| EmissionOrder.Eliminate | compiler/compiler.py:2539-2551 | the worklist ends with the least set that holds the roots and is closed under calls |
| EmissionOrder.AppendDone | compiler/compiler.py:2649-2655 | appending a finished name keeps the search invariant: callees come first unless they can call back |
| EmissionOrder.Sorter.Dfs | compiler/compiler.py:2649-2655 | terminates on any graph and keeps the search invariant |
| EmissionOrder.Sorter.Sort | compiler/compiler.py:2633-2658 | every name once, callee before caller whenever the callee cannot reach the caller; a source in which callees come first is left as it is |
| EmissionOrder.RestrictionKeepsOrder | compiler/compiler.py:2608-2646 | dropping unreachable functions and ellipsis bodies with their calls first loses no other ordering constraint |
| EmissionOrder.EmitOrder | compiler/compiler.py:2521-2679 | elimination in a module with roots, ordering and emission: exactly the reached functions with a body, less those of another platform and main in a module, each once, callees first |
| DeferLowering.FunctionCompiler.CompileFunction | compiler/codegen_stmts.py:1060-1064 | the emitted code is the lowering function's |
| DeferLowering.FunctionCompiler.CompileStmt | compiler/codegen_stmts.py:1126-1133 | a defer goes on the compiler's stack, a return pastes the stack in reverse |
| DeferLowering.CleanupOrder | compiler/codegen_stmts.py:1060-1064 | cleanup is every deferred call once, the last deferred first |
| DeferLowering.ReturnCorrect | compiler/codegen_stmts.py:1727-1750 | a lowered return leaves the state after cleanup and gives back the value computed before it, except that a tuple without array fields is computed after it |
| DeferLowering.FunctionCorrect | compiler/codegen_stmts.py:1060-1064 | for every body the emitted code does what the body does with the stack that the compiler has at the exit reached |
| DeferLowering.LoweringAgreesExactly | compiler/codegen_stmts.py:1060-1133 | for every body and every run, defers nested or not: divergence agrees, the path is the same, and the outcome is that of a run-time stack if and only if at the exit reached the compiler's stack cleans up to the same state and the value given back is the one evaluated there |
| DeferLowering.TidyStacks | compiler/codegen_stmts.py:1126-1133 | where no loop has a defer, and no branch but an else branch whose sibling always returns, the compiler's stack is the run-time one at every exit |
| DeferLowering.TidyAgreesExactly | compiler/codegen_stmts.py:1719-1750 | in such a body the final state agrees always, and the outcome if and only if the run does not end in the return of a tuple without array fields whose elements cleanup changes |
| DeferShapes.SameEndExactly | compiler/codegen_stmts.py:1060-1133 | a body ends in the state of a run-time stack in all runs, whatever its conditions and deferred calls are, if and only if it is such a body |
| DeferLowering.LoweringPreservesMeaning | compiler/codegen_stmts.py:1060-1064 | in such a body with tuples that read nothing that cleanup writes, the emitted code returns the same values in the same final state as a run-time stack of deferred calls, on every path, and diverges when that does |
| DeferLowering.TupleAfterDefer | compiler/codegen_stmts.py:1727-1734 | for any deferred action and elements, the returned tuple is the elements after the action, the meaning is from before |
| DeferLowering.TupleReturnedAfterCleanup | compiler/codegen_stmts.py:1727-1734 | a tuple built in the return itself sees what cleanup wrote: 2 for 1 |
| DeferLowering.NestedDeferAlwaysRuns | compiler/codegen_stmts.py:1746-1750 | for any condition and action, a defer in a branch is performed at the end whether or not the branch was taken |
| CGrammar.ListReads | compiler/codegen_exprs.py:284-287 | operands joined by one logical operator read, at that level, only as the left-associated tree |
| CGrammar.InfixReads | compiler/codegen_exprs.py:262-265 | two atoms with an operator between read only as that operation, and only at its own level and below |
| ExprPrinter.PrintReads | compiler/codegen_exprs.py:240-287 | the text of every expression has exactly one reading under the C expression grammar |
| ExprPrinter.ReadIsMeant | compiler/codegen_exprs.py:359-367 | that reading is the tree that was printed if and only if every chained comparison is loose |
| ExprPrinter.PrintReadsBack | compiler/codegen_exprs.py:240-367 | the text reads back as the printed tree and no other if and only if no chained comparison is an operand of a unary, binary or comparison operator or a later value of an "and" |
| ExprPrinter.EqualTextsMeanTheSame | compiler/codegen_exprs.py:240-367 | expressions printed alike, chains loose, have the same C tree |
| ExprPrinter.NotOfAChain | compiler/codegen_exprs.py:278-279 | not (a < b < c) reads as (not a < b) and b < c |
| ExprMeaning.ArithAgreesExactly | compiler/codegen_exprs.py:1610-1620 | where Python's arithmetic gives an integer, the printed operator gives the same if and only if floor division and modulo divide exactly or equal signs, and what is shifted is not negative |
| ExprMeaning.ComparisonAgrees | compiler/codegen_exprs.py:1621-1625 | every printed comparison holds exactly when Python's does |
| ExprMeaning.FloorIsTruncated | compiler/codegen_exprs.py:1610-1620 | -7 // 2 and -7 % 2 differ from what is printed |
| ExprMeaning.MeantComputes | compiler/codegen_exprs.py:240-367 | where every operator evaluated is one that agrees, the printed tree has the value of the Python expression, or its truth where that is what is asked for |
| ExprMeaning.PrintedComputes | compiler/codegen_exprs.py:240-367 | if chains are loose too, the printed text computes the expression however it is read |
| ExprMeaning.BooleanAgreesExactly | compiler/codegen_exprs.py:284-287 | an and or or whose values agree has the value of Python's if and only if that is 0 or 1 |
| ExprMeaning.AndOfNumbers | compiler/codegen_exprs.py:284-287 | 2 and 3 is 3, printed it is 1 |
| StructLayout.AndNotRoundsDown | compiler/codegen_stmts.py:63-66 | clearing the low bits rounds down to a multiple of the power of two |
| StructLayout.PadToIsLeast | compiler/codegen_stmts.py:63 | padding goes to the least multiple of the alignment not below the offset |
| StructLayout.FieldInfo | compiler/codegen_stmts.py:41-51 | every known type, nested structs included, has a power-of-two alignment that divides its size |
| StructLayout.KnownSizes | compiler/codegen_stmts.py:41-51 | scalars are as large and as aligned as their width, pointers as eight bytes, and an unknown type has no layout |
| StructLayout.StructAlignSize | compiler/codegen_stmts.py:53-67 | the loop computes the layout, or nothing as soon as a field is unknown |
| StructLayout.FieldsFit | compiler/codegen_stmts.py:62-64 | each field is aligned, after the ones before it and inside the struct |
| StructLayout.FallingIsOptimal | compiler/codegen_stmts.py:307-313 | with falling alignments the size is the sum of the sizes rounded up to the largest alignment, and no permutation has a smaller one |
| StructLayout.BestOrder | compiler/codegen_stmts.py:310-313 | sorting by alignment and size, largest first, gives an order that no other order beats |
| StructLayout.SortedFalls | compiler/codegen_stmts.py:310-313 | in that order alignments fall, and sizes do where alignments are equal |
| StructLayout.SortedIsStable | compiler/codegen_stmts.py:310-313 | fields of equal alignment and size keep their order |
| StructLayout.Sparsity | compiler/codegen_stmts.py:301-330 | over the typed members, the warning is silent exactly when a layout is unknown or the given order is a best one; otherwise it names the sorted order, a best one, and its positive saving |
| StructAdvice.AdviceIsWholeWithoutUntyped | compiler/codegen_stmts.py:301-330 | when every member has a type, the sizes compared are those of the struct |
| StructAdvice.AdviceBehindExactly | compiler/codegen_stmts.py:301-330 | with a member of no type in front, the saving is the real one for all fields of a given largest alignment if and only if that alignment is 1, or the member's size is a multiple of it and its own alignment no larger |
| StructPlaces.AdviceAheadExactly | compiler/codegen_stmts.py:301-330 | the same condition is exact for a member of no type behind all fields |
| StructPlaces.AdviceAnywhereExactly | compiler/codegen_stmts.py:301-330 | wherever a member of no type may stand, the saving is the real one for all fields of a given largest alignment if and only if the member needs no alignment and its size is a multiple of that one |
| StructPlaces.AdviceAmongBlocks | compiler/codegen_stmts.py:301-330 | with any number of such members anywhere, the struct in either order is their sizes and the fields' layout, and following the advice saves what it promises |
| StructAdvice.AdviceCanHurt | compiler/codegen_stmts.py:301-330 | for a struct with a byte array at each end the warning promises two bytes, and following it adds two |
| ArenaBatching.PlanSlots | compiler/codegen_stmts.py:860-912 | slot offsets and total are those of one arena request after the other |
| ArenaBatching.SlotsAreSeparate | compiler/codegen_stmts.py:860-869 | slots are 8-aligned, disjoint and inside the buffer |
| ArenaBatching.Separately | runtime/nathra_rt.h:934-945 | what the calls as written return and leave |
| ArenaBatching.Batched | compiler/codegen_stmts.py:901-921 | one request gives every variable the same address, the same final offset and arena size, and reallocates in the same cases |
| IndexSpaces.UnrolledFor | compiler/codegen_stmts.py:2276-2311 | main and remainder loop together run the body with start, ..., stop - 1 once each in order, for all integers |
| IndexSpaces.RemainderStart | compiler/codegen_stmts.py:2303-2304 | the remainder starts where the main loop stopped, or not before stop when the range is empty, with division truncating |
| IndexSpaces.Split | compiler/compiler.py:3651-3675 | between 1 and n non-empty chunks that abut and concatenate to the range, all but the last of the least size of which n suffice, the last no larger |
| IndexSpaces.ParallelFor | runtime/nathra_rt.h:659-690 | one call for a single thread or no more indices than threads; otherwise such chunks for num_threads |
| IndexSpaces.CompiledParallel | compiler/compiler.py:3651-3682 | such chunks for num_threads, or for as many threads as there are indices if these are fewer; the statements after the loop run exactly when the range is not empty |

## Left out

- LoweringPreservesMeaning: its conditions are on the text of the body and sufficient only; `LoweringAgreesExactly` is
  exact, run by run.
- StructAlignSize: a struct named by a field is given in place; the name lookup, and structs that contain themselves
  by value, are not modelled.
- Backreferences and cyclic graphs: collect does not terminate on a pointer cycle, and load has no second pass
  although a comment at compiler/compiler.py:3143 announces one.
- Dangling pointers and pointers into the middle of another object: every stored pointer leads to a whole object of
  its type.
- Reading a table slot before it is filled (uninitialised memory in the original), an object count below 1 (which
  makes the original return what lies before the table) and negative string lengths in a graph file (which no writer
  produces) are failed loads here.
- Opaque and pointer-array fields, which the graph writer skips, and the doubling of the pointer set's and writer's
  buffers.
- Type tags are distinct: hashing of schemas is not modelled. File reading and writing is not either; an abort is a
  failed result.
- UTF-8 encoding of strings and the eight bytes of a float in the AST format: both are byte strings here. None as a
  dictionary key (the `**d` form), which the serializer cannot write, makes a tree not encodable.
- Mutexes and condition variables are atomic steps of the channel machine; memory ordering below them is not modelled,
  nor fairness of the scheduler. Freeing a channel that threads still use is not modelled.
- A task that itself submits to its pool, and the null task check of the worker.
- Strings, None and booleans as specialised constants beyond their numeric value, default arguments at specialised
  calls, keyword arguments, and variables of the callee that shadow a substituted name in nested scopes.
- Loops in the leak checker, whose result for a loop body is discarded. In choosing the variables to skip, list and
  dict literals count as allocations there and are calls here.
- Functions only called from error branches, cold-arm extraction, and method-name collisions in cold inference.
- Renumbering of clusters after empty ones are dropped, module sets, and the keep-alive override. Floating-point
  weights are reals.
- The instances that a generic function is emitted as, in its place in the order.
- The layout by weighted call graph that replaces the depth-first order when function reordering is on.
- Defers crossed by raise or try_unwrap in functions that return a Result: those exits skip the defer stack.
- Loop bodies that use the unrolled variable other than as a bare subscript; prefetching.
- Overflow of 64-bit index arithmetic in unrolled and parallel loops, factors and thread counts below 1 in compiled
  code.
- Lexing of printed expressions: the text is a sequence of tokens. The grammar has no casts, calls, subscripts,
  assignments or commas; power, operator overloading, safe mode and string comparison are not printed. Printed
  expressions are evaluated on integers without a width; a division that leaves a fraction and whatever C leaves
  undefined or to the implementation have no value.
- Bit fields, packed structs, unions and alignment attributes in the layout advice.
- Batched arena lists, and the choice between merging and batching when a variable qualifies for both.
- The own[T] checker, null analysis, hash map, SIMD, f-strings, type-name mapping, command line and build runner.
