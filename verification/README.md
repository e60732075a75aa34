# A Dafny model of pystack's core

pystack attaches to a running Python process, or opens a core file, and prints the Python stacks of all its
threads, interleaved with the native stacks when asked to. This project models the parts of it whose
correctness no finite set of tests can settle, and proves that they do what they are for.

| files | component |
|---|---|
| `FrameChain.dfy`, `FrameOwners.dfy`, `Slice.dfy`, `SliceExact.dfy`, `LastMode.dfy`, `Normalize.dfy`, `ThreadStatus.dfy`, `Formatter.dfy`, `Merge.dfy`, `Pipeline.dfy`, `Conservation.dfy`, `Report.dfy` | from remote frame chains to the printed report: shim and entry flags, grouping of threads by id, slicing one native stack among interpreters, the linked list of Python frames, the interleaving formatter, the report loop, and the theorems that join the stages |
| `Tracer.dfy` | the attach protocol, against a kernel in which threads that are not yet stopped keep spawning and exiting between any two system calls, and in which listings, attaches and waits may fail |
| `LruModel.dfy`, `LruRecency.dfy`, `LruCache.dfy`, `CachedMemory.dfy` | the cache of whole mappings, its order of use, its list and table, and cached reads against direct reads |
| `DebugOffsets.dfy`, `StructureReader.dfy` | validation and clamping of the offsets a process publishes about itself, and the structure reader they protect |
| `LineTable.dfy`, `FileNote.dfy`, `LongDigits.dfy` | three decoders: CPython location tables (PEP 657), the NT_FILE note, big-integer digits |
| `Repr.dfy`, `Truncation.dfy` | rendering a possibly cyclic heap of objects within a size budget, and where a rendering is cut |
| `CoreMaps.dfy` | merging the mapped-file table of a core file with its memory segments |
| `Basics.dfy`, `NativeFrames.dfy`, `Symbols.dfy`, `Frames.dfy`, `Mappings.dfy` | shared vocabulary: machine words, native frames and how their symbols are classified, Python frames, memory mappings |

Every loop written out in the modelled source is a method with a loop. It is proved against a function on
values, and the lemmas are about that function. Behaviour the C++ standard leaves undefined (the last element of an empty list, a
shift by 64, a read past a buffer) is an explicit outcome of the model, so that the lemmas can say when it
happens. System calls are functions of a state and a schedule: every interleaving, refusal and short read is
some schedule, and the theorems hold for all of them.

Several things that one might expect of the code are not always true. For each the code is modelled as it is,
a lemma shows an input on which the expectation fails, and another says exactly when it holds:

- overwriting a key of the cache breaks its account of bytes (`LruModel.OverwritingBreaks`,
  `LruModel.PutExactIff`, and over whole runs `LruModel.RunExactIff`); the only caller never overwrites;
- slicing drops the native frames of a group without entry frames (`Slice.SlicingCanLoseFrames`,
  `Slice.SlicingPreservesMeaning`), and Python frames of a group in which an unreadable caller has cut off an
  inner interpreter (`SliceExact.SlicingCanLoseAnEntry`, `SliceExact.SlicingPreservesIff`);
- in LAST mode the slices show native frames that one merge would not (`LastMode.SlicesShowAnInnerTail`,
  `LastMode.SlicingInLastModeIff`, `Pipeline.GroupPrintsAsOneLastStackIff`);
- where the counts of a group do not match, several of its threads can print the whole native stack
  (`Conservation.PrintedTwice`, `Conservation.PrintedOnceIff`);
- not every OS thread has a header: with native frames off and one interpreter, an id whose first thread has no
  readable frame has none (`Report.FramesWithoutHeader`, `Report.ReportShape`);
- success of the tracer does not always mean a stopped process: a fatal wait detaches everything and goes on
  (`Tracer.ProcessTracer.FatalWaitReleases`, `Tracer.ProcessTracer.Attach`);
- the tracer can give up although nothing fails and nothing is refused, over a thread id that is reused
  (`Tracer.ProcessTracer.ReusedIdGivesUp`); it gives up exactly if a listing shows a refused id again
  (`Tracer.ProcessTracer.Attach`);
- a range that wraps around the address space is copied from beyond its cached mapping
  (`CachedMemory.WrappingCopyRunsPast`, `CachedMemory.ProcessMemoryManager.CopyMemoryFromProcess`);
- short and column-less location entries report the end line of an earlier entry (`LineTable.StaleEndLine`,
  `LineTable.AnswerIsPepLocationIff`), and an entry without a location reports all of an earlier one;
- a scalar can be printed longer than its budget, because the `limitOutput` helper compares unsigned numbers and
  replaces a text only when its length equals the budget (`Repr.ScalarsExceedTheBudget`, `Repr.LimitOutputIff`,
  `Repr.RenderWithinBudgetIff`);
- four digits of a big integer can lead to an undefined shift (`LongDigits.TwoToTheNinety`,
  `LongDigits.FoldIsMagnitude`);
- three copied offsets are neither validated nor clamped: reading the interpreter id can abort
  (`DebugOffsets.InterpreterIdCanAbort`, `DebugOffsets.InterpreterIdAbortsIff`), and so can reading the GIL state
  (`StructureReader.GilReadCanAbort`, `StructureReader.GilReads`), whose size can even be negative, so that its
  first read fails or copies from beyond a mapping (`StructureReader.NegativeGilRunsPast`,
  `DebugOffsets.GilSizeNegativeIff`);
- a structure whose copy failed once is read from an unfilled buffer afterwards
  (`StructureReader.FailedCopyIsReadBack`, `StructureReader.CheckedFieldsReadFaithfully`).

`dafny verify dfyconfig.toml` checks everything.

## Model

| member | source | states |
|---|---|---|
| `Merge.RunsCoverTheChain` | src/pystack/traceback_formatter.py:129-137 | the runs that evaluation frames stand for partition the chain; there is one per entry frame, and one more if the outermost frame is no entry |
| `Merge.FailsIffTooFewRuns` | src/pystack/traceback_formatter.py:128-130 | in both modes the assertion fails if and only if there are more evaluation frames than runs |
| `Merge.MergedIsInterleaving` | src/pystack/traceback_formatter.py:122-156 | the walk's output equals a description by position: each evaluation frame replaced by the run of the same ordinal, ignored frames dropped, all others in place |
| `Merge.MergedLast` | src/pystack/traceback_formatter.py:147-156 | in LAST mode the output is the Python lines of the runs reached, then the shown native frames after the innermost evaluation frame |
| `Merge.MergeCompleteness` | src/pystack/traceback_formatter.py:122-156 | on equal counts the assertion cannot fail, the native lines are exactly the shown frames in order (in LAST mode those after the last evaluation frame), and every Python frame is printed once and in order if and only if the outermost one is an entry |
| `Merge.MergeSplit` | src/pystack/traceback_formatter.py:122-156 | merging two stacks side by side equals merging the joined stacks, if the first native part accounts for exactly the first chain |
| `FrameChain.ConstructorSetsFlags` | src/pystack/_pystack/pyframe.cpp:14-51 | on 3.12 and later a shim has no code, and a non-shim frame is an entry exactly when its caller's frame is a shim |
| `FrameChain.EntriesAreShims` | src/pystack/_pystack/pyframe.cpp:111-127 | on 3.12 and later every frame chain has as many entry frames as shims |
| `FrameChain.OldVersionsAllEntries` | src/pystack/_pystack/pyframe.cpp:122-127 | before 3.11 every reported frame is an entry and no frame is a shim |
| `FrameChain.KeptFrameFlags` | src/pystack/_pystack/pyframe.cpp:111-127 | a reported frame is never a shim, and is an entry exactly when it is called by a shim (3.12 and later), carries the flag (3.11), or always (earlier) |
| `FrameChain.OutermostIsOldestKept` | src/pystack/_pystack/thread_builder.cpp:27-53 | the outermost reported frame is an entry, or nothing is reported, if and only if the oldest frame that is reported is flagged as one |
| `FrameChain.ReadyChainIff` | src/pystack/_pystack/thread_builder.cpp:21-56 | for every version and chain: no shim is reported, and the formatter's condition on the outermost frame holds exactly when the oldest reported frame is called by a shim (3.12 and later) or carries the entry flag (3.11), and always before |
| `FrameChain.BuildFrameStack` | src/pystack/_pystack/thread_builder.cpp:21-56 | the reported stack is the walk without the frames that have no code or unreadable code |
| `FrameChain.KeptEntries` | src/pystack/_pystack/thread_builder.cpp:27-53 | the reported entry frames are the shims called from a reported frame, and no shim is reported |
| `FrameChain.CalledShimsBound` | src/pystack/_pystack/thread_builder.cpp:27-53 | dropping frames can only lose entries, and loses none exactly when each shim below the top has a reported callee |
| `FrameChain.ReportedEntries` | src/pystack/_pystack/thread_builder.cpp:27-53 | for any remote chain on 3.12 and later: reported entries equal all shims if and only if every shim has a reported callee |
| `FrameChain.HealthyChainsAreMergeable` | src/pystack/_pystack/thread_builder.cpp:21-56 | a chain that down to some frame starts in Python code, ends in a shim, has no adjacent shims and only readable code, and below has only frames without code, yields one entry per shim of the upper part, no shims, and an outermost entry |
| `FrameChain.SentinelChainsAreHealthy` | src/pystack/_pystack/pyframe.cpp:79-84 | chains of 3.14 with the code-less sentinel at the bottom are such chains, whether the sentinel counts as a shim or not |
| `FrameOwners.ReportedFrames` | src/pystack/_pystack/pyframe.cpp:14-127 | for every version and chain in terms of CPython's frame owners: exactly the frames before the first unreadable one that run readable code and are owned by neither the C stack nor the interpreter are reported, in order, each an entry exactly if its caller is such a marker (3.12 and later), its flag says so (3.11), or always |
| `FrameOwners.GeneratorsAreReported` | src/pystack/_pystack/pyframe.cpp:53-68 | a running generator and its caller are both reported, on 3.12 and on 3.14 |
| `Symbols.DefaultEvaluates` | src/pystack/_pystack/native_frame.cpp:15-23 | any symbol made from the default evaluation function is an evaluation frame from 3.6 on |
| `Symbols.ExEvaluates` | src/pystack/_pystack/native_frame.cpp:18-20 | any made from PyEval_EvalFrameEx is one before |
| `Symbols.TailCallsEvaluate` | src/pystack/_pystack/native_frame.cpp:24-31 | handlers of the tail-calling interpreter evaluate, all from 3.15 on and LLVM clones from 3.6 on, and are never shown |
| `Symbols.MachineryIsHidden` | src/pystack/types.py:47-66 | the interpreter's own functions and the call helpers on the list are never shown, whatever the version |
| `Symbols.EvaluationFunctions` | src/pystack/types.py:47-66 | the cold parts of either evaluation function evaluate on their side of 3.6 and are hidden on the other |
| `Symbols.VectorcallMachinery` | src/pystack/types.py:59-60 | a vectorcall helper is shown before 3.8 and hidden from then on |
| `Slice.EvalIndex` | src/pystack/_pystack/bindings.cpp:566-571 | the positions of the frames that the formatter, too, takes for evaluation frames |
| `Slice.SliceNativeStack` | src/pystack/_pystack/bindings.cpp:557-608 | the cursor loop gives every thread the slice between two evaluation frames, found from the entry counts of the threads before it |
| `Slice.SliceAt` | src/pystack/_pystack/bindings.cpp:586-607 | thread `j` gets the slice that begins after the evaluation frames of the threads before it, and everything else about it is unchanged |
| `Slice.SliceFromConserves` | src/pystack/_pystack/bindings.cpp:586-607 | with an evaluation frame to take, the slices join up to what is left of the native stack |
| `Slice.SlicePartition` | src/pystack/_pystack/bindings.cpp:566-607 | on matching counts every thread keeps all but its native frames and passes the mergeability test; the slices join up to the original stack exactly when there is an entry frame; slices after the first start at an evaluation frame |
| `Slice.SlicingPreservesMeaning` | src/pystack/_pystack/bindings.cpp:557-608 | printing each interpreter against its slice gives the lines of one merge of the whole stack with all chains in order, if and only if the group has an entry frame or the stack has nothing to show |
| `Slice.SlicingCanLoseFrames` | src/pystack/_pystack/bindings.cpp:592-595 | a group whose only native frame is printed by the whole merge and by no slice |
| `Slice.SlicingNeverFails` | src/pystack/traceback_formatter.py:128-130 | neither the merge of any slice nor that of the whole stack hits the assertion |
| `SliceExact.MergePrints` | src/pystack/traceback_formatter.py:129-137 | on matching counts a merge prints the whole chain if its outermost frame is an entry, and otherwise all but its last run |
| `SliceExact.PrintedPython` | src/pystack/_pystack/bindings.cpp:586-607 | the Python frames printed by the slices one after the other, and by the whole merge, for any group on matching counts |
| `SliceExact.SlicingPreservesIffEntries` | src/pystack/_pystack/bindings.cpp:557-608 | when the whole merge prints every frame, slicing preserves the output if and only if every chain's outermost frame is an entry, and there is an entry or nothing native to show |
| `SliceExact.SlicingPreservesIffOneRunner` | src/pystack/_pystack/bindings.cpp:557-608 | when it does not, slicing preserves the output if a single interpreter runs, or none does and nothing native is shown; and, if no two frames are alike, only then |
| `SliceExact.SlicingPreservesIff` | src/pystack/_pystack/bindings.cpp:557-608 | for every group on matching counts, equal frames allowed: slicing preserves the output whatever code its frames run, if and only if it meets the condition of whichever of the two cases it falls in, which only flags, counts and native frames decide |
| `SliceExact.CutOffChainKept` | src/pystack/_pystack/pyframe.cpp:41-49 | a remote chain with an unreadable caller is reported as an entry and, below it, a frame that is none |
| `SliceExact.SlicingCanLoseAnEntry` | src/pystack/_pystack/pyframe.cpp:41-49 | two interpreters read from remote chains, the inner one cut off by an unreadable caller, over a native stack that lacks the evaluation frame of the cut-off run: the slices lose an entry frame that the whole merge prints; with that evaluation frame the counts would not match |
| `LastMode.MergedInLastIs` | src/pystack/traceback_formatter.py:147-156 | on matching counts LAST mode prints the whole chain and then the shown native frames after the innermost evaluation frame |
| `LastMode.LastEachWithoutInnerTails` | src/pystack/_pystack/bindings.cpp:586-607 | slices without inner tails print all chains and then the tail of the whole stack |
| `LastMode.TailsLength` | src/pystack/_pystack/bindings.cpp:586-607 | the slices show at least as many native frames as the whole stack, and as many exactly when no slice but the last one running ends in a frame to show |
| `LastMode.SlicingInLastModeIff` | src/pystack/_pystack/bindings.cpp:557-608 | in LAST mode the slices print what one merge prints if and only if no slice but the last one running ends in a frame to show, or, without entries, the stack has no tail |
| `LastMode.SlicesShowAnInnerTail` | src/pystack/_pystack/bindings.cpp:586-607 | two interpreters with a native frame between their evaluation frames: the slices show it, the whole merge does not |
| `Normalize.AnchorLessIsDescending` | src/pystack/_pystack/bindings.cpp:550-553 | negation modulo 2^64 reverses the order of non-zero anchors, so the pair comparison means larger anchors first and zero last |
| `Normalize.TiedSort` | src/pystack/_pystack/bindings.cpp:541-555 | sorting keeps all threads of equal id and anchor, in input order |
| `Normalize.SortDescending` | src/pystack/_pystack/bindings.cpp:541-555 | anchors descend after sorting |
| `Normalize.GroupByTid` | src/pystack/_pystack/bindings.cpp:645-654 | the table of group indices yields one group per id, in first-seen order, each with its threads in input order |
| `Normalize.NormalizeThreads` | src/pystack/_pystack/bindings.cpp:610-672 | id by id in first-seen order, each id's threads, sorted and sliced where there are several |
| `Normalize.OrderedRegrouping` | src/pystack/_pystack/bindings.cpp:643-671 | the result has ids in first-seen order and together, anchors descending inside an id, and under every id and anchor the same threads in the same order as the input, native frames aside |
| `Normalize.FirstSeenInOrder` | src/pystack/_pystack/bindings.cpp:643-654 | ids in first-seen order come in the order of their first threads |
| `Normalize.RegroupingIsUnique` | src/pystack/_pystack/bindings.cpp:643-671 | those three facts determine the result: no other list satisfies them |
| `Formatter.BuildFrameChain` | src/pystack/_pystack/bindings.cpp:404-451 | the frames form an acyclic doubly linked list with mutually inverse links, whose `next` walk is the reverse of the vector |
| `Formatter.AllFrames` | src/pystack/types.py:120-125 | the walk terminates and visits every frame of the list once, in order |
| `Formatter.FirstFrame` | src/pystack/types.py:112-118 | the list node of the first frame that is not a shim, null if there is none |
| `Formatter.AreTheStacksMergeable` | src/pystack/traceback_formatter.py:69-77 | compares the number of evaluation frames with the number of entry frames of the whole list |
| `Formatter.FormatRun` | src/pystack/traceback_formatter.py:132-136 | prints exactly the run up to the next entry frame and stops there |
| `Formatter.FormatMergedStacks` | src/pystack/traceback_formatter.py:122-156 | the loop over the linked list prints what the merge on values gives, and dies on its assertion exactly when that fails |
| `Formatter.FormatPythonFrames` | src/pystack/traceback_formatter.py:112-115 | prints the Python frames from a position on, without the shims |
| `ThreadStatus.CollectingIff` | src/pystack/types.py:140-157 | a thread with native frames is reported collecting garbage exactly when some symbol contains "collect", whatever its flag and its hold of the GIL |
| `ThreadStatus.RemarksIff` | src/pystack/types.py:127-168 | remark by remark, exactly when it is made: terminated, holding, waiting for or dropping the GIL, collecting garbage with and without native frames |
| `ThreadStatus.StatusIsSaidOnce` | src/pystack/traceback_formatter.py:92-107 | the status stands in the line about the interpreter if there is one, and in the thread's own otherwise |
| `ThreadStatus.InterpretersDiffer` | src/pystack/traceback_formatter.py:100-107 | threads of different interpreters, or of none, have different interpreter lines |
| `ThreadStatus.ThreadsDiffer` | src/pystack/traceback_formatter.py:88-98 | threads of different ids have different header lines and different empty-stack remarks |
| `ThreadStatus.NamesAreSaid` | src/pystack/traceback_formatter.py:92-98 | so have threads of different names, or with and without one |
| `ThreadStatus.CommasSplit` | src/pystack/types.py:127-138 | the remarks of a status stand one comma apart |
| `Formatter.FormatThread` | src/pystack/traceback_formatter.py:80-119 | for each mode and each pair of header flags: the empty-stack remark, the header lines with name, status and interpreter, then the merge or the remark and the Python frames alone |
| `Pipeline.BodiesOfMergeable` | src/pystack/traceback_formatter.py:109-119 | threads that pass the test are all printed merged, and none fails |
| `Pipeline.RemoteGroups` | src/pystack/_pystack/thread_builder.cpp:21-56 | on every version, a group read from remote chains meets the conditions on chains of the group theorem if and only if its chains are ready |
| `Pipeline.RemoteEntries` | src/pystack/_pystack/thread_builder.cpp:27-53 | on 3.12 and later its entry frames are the shims called from reported frames |
| `Pipeline.OldGroups` | src/pystack/_pystack/pyframe.cpp:122-127 | before 3.11 it always meets them, and all its frames are entries |
| `Pipeline.HealthyGroups` | src/pystack/_pystack/thread_builder.cpp:21-56 | threads read from healthy chains, with or without sentinels, meet them, with as many entries as there are shims in the healthy parts |
| `Pipeline.GroupPrintsAsOneStack` | src/pystack/_pystack/bindings.cpp:656-669 | what the formatter prints for the regrouped and sliced interpreters of an OS thread, one after the other, is one merge of the whole native stack with all their frames, if and only if there is an entry frame or nothing native to show |
| `Pipeline.GroupPrintsAsOneLastStackIff` | src/pystack/_pystack/bindings.cpp:656-669 | the same in LAST mode, if and only if no slice but the last one running ends in a native frame to show |
| `Pipeline.ProcessPrintsOneStackPerThread` | src/pystack/_pystack/bindings.cpp:643-671 | the whole normalised list, from any input order, prints as one stack per OS thread in first-seen order, when the interpreters sharing a thread meet those conditions |
| `Pipeline.RemoteThreadsPrintOneStackEach` | src/pystack/_pystack/bindings.cpp:643-671 | for threads read from ready remote chains of any version, the whole report is one stack per OS thread as soon as the counts of interpreters sharing a thread agree |
| `Conservation.PythonFramesShownIff` | src/pystack/traceback_formatter.py:109-119 | for any list of threads, in any mode, whatever the counts: no assertion fails, and every Python frame is printed once and in order if and only if no thread that is merged starts with a frame that is no entry |
| `Conservation.ShimsAreNotShown` | src/pystack/traceback_formatter.py:112-115 | of frames printed without natives each is printed as often as it occurs, except the shims, which are not |
| `Conservation.EveryPythonFrameOnce` | src/pystack/_pystack/bindings.cpp:643-671 | the report of a process whose chains start with entries has every Python frame of every thread exactly once, in the same order in every mode |
| `Conservation.SharedStackShown` | src/pystack/_pystack/bindings.cpp:572-584 | the native frames of an OS thread are printed once if its stack is shared out, not at all if no thread has an entry to take it, and otherwise once for each thread that matches the whole stack alone |
| `Conservation.PrintedOnceIff` | src/pystack/_pystack/bindings.cpp:572-584 | they are printed exactly once if and only if there are none or that number is one |
| `Conservation.PrintedTwice` | src/pystack/_pystack/bindings.cpp:572-584 | two interpreters of one frame each over a stack with one evaluation frame: the stack is printed twice |
| `Report.PrintThreads` | src/pystack/traceback_formatter.py:16-30 | the loop prints each thread with the header flag of the first of its id, the interpreter flag if there are several interpreters, and blank lines between ids; a failed assertion ends it |
| `Report.ReportIsBlocks` | src/pystack/traceback_formatter.py:20-30 | a list in which threads of one id stand together is reported as one block for each id, with blank lines between |
| `Report.OneBlockPerThread` | src/pystack/_pystack/bindings.cpp:766-773 | whatever threads were read, the report is one block for each OS thread: those that run Python in first-seen order, then the others |
| `Report.ThreadsKeepTheirStatus` | src/pystack/_pystack/bindings.cpp:471-506 | what is said about the GIL, garbage collection, name and interpreter of a thread is what was read of it; of a thread without Python neither the GIL nor an interpreter |
| `Report.ReportShape` | src/pystack/traceback_formatter.py:16-30 | no assertion fails; the headers are those of the first thread of each OS thread, in order, one for each if and only if no first thread is without frames while native frames are off and there is one interpreter; blank lines are one fewer than OS threads; every thread has a line about its interpreter exactly if there are several; silent and refused threads have their remarks and no others have; and the frames are those of the normalised threads, then those of the threads without Python |
| `Report.RemoteReport` | src/pystack/traceback_formatter.py:16-30 | from remote memory to the report, for ready chains of any version and agreeing counts: a header for each OS thread, and as frames one stack for each, then the native frames of the threads without Python |
| `Report.FramesWithoutHeader` | src/pystack/traceback_formatter.py:87-98 | two terminated threads with id 0, the first without readable frames: the second one's frames stand under no header |
| `Tracer.ProcessTracer.GetProcessTids` | src/pystack/_pystack/process.cpp:137-150 | a listing shows every live thread once, in some order, and fails exactly when the directory cannot be opened |
| `Tracer.EventsKeepStopped` | src/pystack/_pystack/process.cpp:191-195 | whatever the other threads do, stopped threads stay |
| `Tracer.ProcessTracer.StopThread` | src/pystack/_pystack/process.cpp:182-203 | one thread tried, its whole effect: a refusal is remembered with its error and changes nothing else; otherwise the thread is remembered and waited for; after a fatal wait nothing is held; in an orderly process a thread that is not found or gets loose otherwise is gone for good |
| `Tracer.ProcessTracer.Round` | src/pystack/_pystack/process.cpp:161-204 | one pass over a listing gives up if and only if the listing shows a thread refused before, after releasing everything; otherwise it leaves every listed thread remembered or refused, and finds nothing new only if all live threads are remembered |
| `Tracer.ProcessTracer.Attach` | src/pystack/_pystack/process.cpp:152-207 | over every interleaving: the loop ends and tries no thread twice; a listing error is reported exactly if a listing failed, an attach error exactly if a refused thread is listed again, and then with that thread's own error and nothing left attached; every logged failure has its reason in the schedule; on success every live thread is remembered, every refused one gone, and the process is quiescent if and only if no live thread got loose, which, if no id is reused, takes a failing wait; and if moreover nothing fails and nothing is refused, the run ends in success over a quiescent process |
| `Tracer.ProcessTracer.FatalWaitReleases` | src/pystack/_pystack/process.cpp:195-202 | runs of the tracer on a process of one thread: all report success; the thread is left running exactly if its wait fails, other than with ECHILD for a thread that is not the main one |
| `Tracer.ProcessTracer.ReusedIdGivesUp` | src/pystack/_pystack/process.cpp:168-181 | a run that gives up with ESRCH although nothing fails and nothing is refused: the thread exits before the attach, and a new one gets its id |
| `Tracer.QuiescentForever` | src/pystack/_pystack/process.cpp:206 | once all live threads are stopped no run of events changes the set of threads |
| `Tracer.ProcessTracer.DetachFromProcess` | src/pystack/_pystack/process.cpp:209-216 | exactly the attached threads are released |
| `LruModel.KeptIsLongest` | src/pystack/_pystack/mem.cpp:136-140 | eviction stops as early as possible: one more entry kept would not fit |
| `LruModel.PutKeepsInv` | src/pystack/_pystack/mem.cpp:120-145 | keys stay distinct and the account within capacity for every put that returns, including overwriting ones |
| `LruModel.GetKeepsInv` | src/pystack/_pystack/mem.cpp:147-158 | reading keeps the invariant and the stored bytes |
| `LruModel.GetFinds` | src/pystack/_pystack/mem.cpp:147-158 | reading changes the order only and returns the stored bytes |
| `LruModel.PutExactIff` | src/pystack/_pystack/mem.cpp:131-144 | from an exact account, a put ends with an exact one and never asks an empty list for its last element if and only if it does not overwrite a non-empty entry it would store |
| `LruModel.OverwritingBreaks` | src/pystack/_pystack/mem.cpp:131-137 | a full-size entry put twice empties the list and then asks it for its last element |
| `LruModel.ApplyKeepsDrift` | src/pystack/_pystack/mem.cpp:120-158 | bytes once unaccounted for stay so: no call shrinks them |
| `LruModel.RunExactIff` | src/pystack/_pystack/mem.cpp:116-158 | a run from an exact account succeeds and ends exact if and only if every get finds its key and every put is too large to store or overwrites nothing, at its moment |
| `LruModel.GoodRunsStayExact` | src/pystack/_pystack/mem.cpp:116-158 | in particular over any run of puts of absent keys and gets of present ones nothing fails, keys stay distinct and the account exact and within capacity |
| `LruModel.FindsTheLastPut` | src/pystack/_pystack/mem.cpp:116-158 | over any run, what is found under a key is what was last put there |
| `LruRecency.EntriesInOrderOfUse` | src/pystack/_pystack/mem.cpp:116-158 | after any run of calls on an empty cache its entries stand in strictly descending order of last use, as the calls alone define it |
| `LruRecency.DropsTheLeastRecent` | src/pystack/_pystack/mem.cpp:136-140 | every key a call drops was used earlier than every key that stays |
| `LruRecency.PutDropsTail` | src/pystack/_pystack/mem.cpp:120-145 | a put drops the entries after some point and no others, and with one more entry kept the capacity would be exceeded |
| `LruCache.UnlinkKeepsStep` | src/pystack/_pystack/mem.cpp:132-139 | removing a key from list and table keeps every table entry pointing at its own node |
| `LruCache.LRUCache.constructor` | src/pystack/_pystack/mem.cpp:116-118 | an empty, valid cache |
| `LruCache.LRUCache.PutValue` | src/pystack/_pystack/mem.cpp:120-145 | list, table and account change together as the put on values says; the undefined `back()` is reached exactly when that has no result |
| `LruCache.LRUCache.DropKey` | src/pystack/_pystack/mem.cpp:131-134 | the key leaves list and table, the account keeps its size |
| `LruCache.LRUCache.MakeRoom` | src/pystack/_pystack/mem.cpp:136-140 | evicts exactly the shortest sufficient least recently used suffix, and runs into the empty list exactly when the unaccounted bytes alone leave no room |
| `LruCache.LRUCache.GetValue` | src/pystack/_pystack/mem.cpp:147-158 | returns the stored bytes and makes the entry the latest, or reports the missing key and changes nothing |
| `CachedMemory.DisjointStartsIdentify` | src/pystack/_pystack/mem.cpp:262 | in a list of disjoint mappings the start address identifies a mapping, so it can be the cache key |
| `CachedMemory.CachedIsMap` | src/pystack/_pystack/mem.cpp:267-280 | what the cache holds for a mapping is the mapping's memory |
| `CachedMemory.ProcessMemoryManager.constructor` | src/pystack/_pystack/mem.cpp:172-178 | starts with an empty cache over the given mappings |
| `CachedMemory.ProcessMemoryManager.ReadChunkThroughMemFile` | src/pystack/_pystack/mem.cpp:232-250 | reads the range, fails if a byte of it is unreadable or the offset is negative as a signed number, or is refused when the file cannot be opened |
| `CachedMemory.ProcessMemoryManager.ReadChunkDirect` | src/pystack/_pystack/mem.cpp:197-230 | however the kernel splits the transfer, empty pieces included, the pieces are the range's bytes; it fails exactly if a byte is unreadable; it is refused only with the error of a system call that failed, for a length negative as a signed number, or where the call is missing and the memory file cannot be opened |
| `CachedMemory.ProcessMemoryManager.ReadChunk` | src/pystack/_pystack/mem.cpp:187-195 | both routes read the same |
| `CachedMemory.ProcessMemoryManager.CacheWholeMap` | src/pystack/_pystack/mem.cpp:267-273 | the put is for an absent key and leaves the whole mapping cached, unless the mapping cannot be read as a whole or the kernel refuses |
| `CachedMemory.ProcessMemoryManager.ReadCached` | src/pystack/_pystack/mem.cpp:280 | copying out of a cached mapping is reading the range, if it lies inside |
| `CachedMemory.InsideMapping` | src/pystack/_pystack/mem.cpp:254-265 | a range whose first and last byte are in the mapping found lies inside it exactly when it does not wrap around the address space |
| `CachedMemory.OnlyHugeLengthsRunPast` | src/pystack/_pystack/mem.cpp:254-280 | the copy out of the cache can run past the mapping only for lengths that are negative as signed numbers |
| `CachedMemory.WrappingCopyRunsPast` | src/pystack/_pystack/mem.cpp:254-280 | a range that does so, from within a page and four bytes short of the address space long |
| `CachedMemory.ProcessMemoryManager.CopyMemoryFromProcess` | src/pystack/_pystack/mem.cpp:252-283 | from any cache state that earlier calls can leave and for any range, unless the kernel refuses: same bytes and same failures as a direct read, whether the mapping is cached, too big, unreadable in part, or unknown; except for a range that wraps around into its own readable mapping, which is copied from out of bounds; refused only for one of the reasons above, so never by a kernel that fails no call; without a system call if the mapping is cached; and with the mapping cached afterwards if it fits and can be read |
| `CachedMemory.ProcessMemoryManager.FillCache` | src/pystack/_pystack/mem.cpp:267-276 | the whole mapping is cached, or it cannot be read as a whole and the range is read by itself |
| `LineTable.ScanVarint` | src/pystack/_pystack/pycode.cpp:36-46 | the accumulating loop computes the varint at a position, or runs off the table |
| `LineTable.ScanSignedVarint` | src/pystack/_pystack/pycode.cpp:48-53 | the same for signed varints |
| `LineTable.UnmentionedFieldsStay` | src/pystack/_pystack/pycode.cpp:60-95 | an entry changes only the fields it mentions: none for code 15, no end line for 13, neither line below 10; its columns lie in the range of its code |
| `LineTable.ParseLinetable` | src/pystack/_pystack/pycode.cpp:29-102 | the loop is the table walk that the lemmas are about |
| `LineTable.VarintInverts` | src/pystack/_pystack/pycode.cpp:36-46 | every 32-bit value written as a varint is read back, anywhere in a table, with the pointer right after it |
| `LineTable.SignedVarintInverts` | src/pystack/_pystack/pycode.cpp:48-53 | every legal signed value is read back |
| `LineTable.VarintDefinedIff` | src/pystack/_pystack/pycode.cpp:36-46 | reading a varint is defined exactly if a byte ends it, the terminator included, before the chunks run out of a 32-bit word |
| `LineTable.EntryDefinedIff` | src/pystack/_pystack/pycode.cpp:60-95 | reading an entry is defined exactly if its bytes are there, and a short one's has its highest bit clear |
| `LineTable.EntryInverts` | src/pystack/_pystack/pycode.cpp:60-95 | every kind of entry decodes to its own step and ends at its own end |
| `LineTable.CoveringIsUnique` | src/pystack/_pystack/pycode.cpp:96-99 | the covering entry is the one whose range holds the address, and there is only one |
| `LineTable.DecodeInvertsEncode` | src/pystack/_pystack/pycode.cpp:29-102 | on any table encoded as PEP 657 says, the reader succeeds exactly below the total length, answers from the covering entry with the first line plus all deltas so far, and never stops at a zero byte inside an entry |
| `LineTable.AnswerIsPepLocationIff` | src/pystack/_pystack/pycode.cpp:61-94 | the answer is the location of PEP 657 if and only if the entry has one and either carries its end line or is on the end line still in force |
| `LineTable.StaleEndLine` | src/pystack/_pystack/pycode.cpp:88-94 | a table on which a short entry is answered with the end line of the entry before it |
| `LineTable.UninitialisedFieldsMatterIff` | src/pystack/_pystack/pycode.cpp:61-94 | fields of the caller's uninitialised record reach the answer exactly when no entry up to the covering one sets them |
| `FileNote.WordIsEncoded` | src/pystack/_pystack/corefile.cpp:206-211 | eight bytes read as a word if and only if they are that word in little-endian order |
| `FileNote.NameIsEncoded` | src/pystack/_pystack/corefile.cpp:319-330 | a NUL-free name with its terminator stands at a position exactly when the first zero byte from there ends it |
| `FileNote.ParseCoreFileNote` | src/pystack/_pystack/corefile.cpp:282-333 | the two-pointer loop is the parser the next lemmas are about; reads past the note are an outcome of their own |
| `FileNote.EntriesParsedIffEncoded` | src/pystack/_pystack/corefile.cpp:312-331 | the loop finds a list of entries if and only if their table and their names stand at its two pointers |
| `FileNote.ParseInvertsEncode` | src/pystack/_pystack/corefile.cpp:282-333 | every list of files in the Linux layout is returned exactly, field by field, offsets times page size modulo 2^64, without reading outside the note |
| `FileNote.RefusedIff` | src/pystack/_pystack/corefile.cpp:298-304 | a note is refused exactly if its header is there and the table it announces does not fit |
| `FileNote.ParsedIffEncoded` | src/pystack/_pystack/corefile.cpp:282-333 | the parser accepts a note if and only if it has that layout |
| `LongDigits.ReadLong` | src/pystack/_pystack/pytypes.cpp:202-216 | the loop folds the digits with both overflow checks and applies the sign |
| `LongDigits.FoldUnrolled` | src/pystack/_pystack/pytypes.cpp:202-212 | only the multiplication can overflow: the sum of the factors so far always fits |
| `LongDigits.FoldIsMagnitude` | src/pystack/_pystack/pytypes.cpp:202-212 | the shift is undefined exactly for four or more digits with a third digit below eight; otherwise the result is the magnitude, or an overflow if and only if it exceeds 2^63 - 1 |
| `LongDigits.TwoToTheNinety` | src/pystack/_pystack/pytypes.cpp:204 | two to the ninetieth reaches the undefined shift |
| `LongDigits.HeaderRoundTrip` | src/pystack/_pystack/pytypes.cpp:164-172 | sign and digit count are recovered from the header word of either layout |
| `LongDigits.EveryInteger` | src/pystack/_pystack/pytypes.cpp:148-217 | an integer comes back as itself exactly when its magnitude is below 2^63; others overflow, or from 2^90 on may reach the undefined shift; never is a wrong value returned |
| `Repr.FormatSequence` | src/pystack/_pystack/pytypes.cpp:46-67 | the loop renders the elements that fit and one ellipsis for the first that does not |
| `Repr.FormatDict` | src/pystack/_pystack/pytypes.cpp:447-477 | the same for keys and values of a resolved dict |
| `Repr.ObjectToString` | src/pystack/_pystack/pytypes.cpp:569-604 | rendering terminates on every heap, cyclic ones too, with the budget as its measure, and is the rendering the lemmas are about |
| `Repr.RenderedWithinBudget` | src/pystack/_pystack/pytypes.cpp:105-140 | strings, tuples, lists and resolved dicts stay within a budget above 5, however long the scalars in them are |
| `Repr.LimitOutputIff` | src/pystack/_pystack/pytypes.cpp:36-44 | a scalar's text is replaced only if its length equals the budget |
| `Repr.LimitOutputFitsIff` | src/pystack/_pystack/pytypes.cpp:36-44 | its result stays within the budget exactly when the text does |
| `Repr.RenderWithinBudgetIff` | src/pystack/_pystack/pytypes.cpp:569-604 | for every object and budget: the rendering stays within the budget exactly if a small budget has room for the ellipsis, or the object is a string or container, or its full text fits |
| `Repr.ScalarsExceedTheBudget` | src/pystack/_pystack/pytypes.cpp:569-604 | a number rendered longer than its budget |
| `Repr.FewElementsVisited` | src/pystack/_pystack/pytypes.cpp:46-67 | a sequence visits at most about half its budget in elements |
| `Repr.FewDictElementsVisited` | src/pystack/_pystack/pytypes.cpp:459-475 | a dict visits at most about a quarter of its budget in entries |
| `Repr.RenderIsLocal` | src/pystack/_pystack/pytypes.cpp:569-604 | rendering depends on no more levels of the heap than half the budget: heaps that agree to that depth render alike |
| `Repr.CompleteIfItFits` | src/pystack/_pystack/pytypes.cpp:46-67 | an object whose complete rendering leaves seven characters of the budget unused is rendered completely |
| `Truncation.ElementsCut` | src/pystack/_pystack/pytypes.cpp:52-66 | position by position: a sequence is cut at the first element after which fewer than five characters would remain; those before it are rendered with what is left by the ones before them, and one ellipsis stands for the rest |
| `Truncation.DictElementsCut` | src/pystack/_pystack/pytypes.cpp:459-475 | the same for the pairs of a dict |
| `Truncation.ContainerRendering` | src/pystack/_pystack/pytypes.cpp:105-140 | a tuple, list or dict is rendered as those elements between its brackets, which take two characters of the budget |
| `Truncation.CutIsUnique` | src/pystack/_pystack/pytypes.cpp:58-63 | there is only one place to cut |
| `Truncation.StringRendering` | src/pystack/_pystack/pytypes.cpp:569-604 | a string is rendered in full if it fits, otherwise as its head, filling the budget together with the ellipsis |
| `Truncation.ScalarRendering` | src/pystack/_pystack/pytypes.cpp:36-44 | everything else is rendered in full, but for a text through limitOutput that is exactly as long as the budget |
| `Truncation.CutList` | src/pystack/_pystack/pytypes.cpp:52-66 | a list of three hundreds with a budget of 17 is cut after two |
| `Truncation.UncutDict` | src/pystack/_pystack/pytypes.cpp:459-475 | with the same budget a dict of one pair of them is complete |
| `DebugOffsets.FieldInBoundsIff` | src/pystack/_pystack/process.cpp:1118-1131 | the unsigned bounds test accepts exactly the fields that end within the size, without wrap-around |
| `DebugOffsets.ValidatesIff` | src/pystack/_pystack/process.cpp:1097-1217 | validation accepts exactly if every checked field ends within its structure and the checked sizes are at most a megabyte |
| `DebugOffsets.PythonOffsets.ClampSizes` | src/pystack/_pystack/process.cpp:1219-1318 | every listed structure, and no other, gets the size its checked fields need |
| `DebugOffsets.PythonOffsets.ClampStruct` | src/pystack/_pystack/process.cpp:1225-1233 | one structure's size is reset and grown field by field; the others stay |
| `DebugOffsets.ClampedIsLeastCover` | src/pystack/_pystack/process.cpp:1225-1229 | for fields in bounds the clamped size covers them all, stays within the reported size, and is reached by a field's end |
| `DebugOffsets.AbortsIff` | src/pystack/_pystack/structure.h:82-86 | the abort test stops a read, if it comes to the test, exactly if the size is negative or the field ends beyond it |
| `DebugOffsets.ValidatedOffsetsNeverAbort` | src/pystack/_pystack/process.cpp:1097-1217 | if validation accepts, the clamped size is the least that covers the checked fields, no larger than the reported one, and no read of a checked field aborts |
| `DebugOffsets.InterpreterIdAbortsIff` | src/pystack/_pystack/process.cpp:1002 | after validation and clamping, the interpreter id fails the abort test if and only if it ends after every checked field |
| `DebugOffsets.InterpreterIdCanAbort` | src/pystack/_pystack/process.cpp:1002 | offsets that validate and still fail the abort test |
| `DebugOffsets.GilFieldAbortsIff` | src/pystack/_pystack/process.cpp:1074-1089 | a field of the GIL state passes the abort test if and only if it ends below 2^63 and so does the other one, wrapped at 2^64 |
| `DebugOffsets.GilStateReadableIff` | src/pystack/_pystack/process.cpp:1084-1089 | both fields pass the test if and only if both end below 2^63; then the computed size is the least that covers them |
| `DebugOffsets.PublishedGilOffset` | src/pystack/_pystack/process.cpp:1077-1082 | which published offsets lead to such an end |
| `DebugOffsets.GilStateCanAbort` | src/pystack/_pystack/process.cpp:1074-1089 | a lock flag published four bytes before the start ends at zero, so the size is that of the other field; the flag fails the test and the holder passes |
| `DebugOffsets.GilSizeNegativeIff` | src/pystack/_pystack/process.cpp:1084-1087 | the computed size is negative if and only if the end of a field, wrapped at 2^64, is at or above 2^63 |
| `DebugOffsets.GilStateCanBeNegative` | src/pystack/_pystack/process.cpp:1084-1087 | a lock flag published eight bytes before the start gives size -4 |
| `StructureReader.Structure.CopyFromRemote` | src/pystack/_pystack/structure.h:49-64 | copies at the first call only; a failed or refused copy throws once and leaves the buffer behind; it is refused only for a reason of the memory reader, and never by a kernel that fails no call unless the size is negative; with a negative size it is undefined or fails |
| `StructureReader.Structure.GetField` | src/pystack/_pystack/structure.h:74-90 | through cache and local copy, a field reads as the remote bytes at its own address; refusal, unreadable memory, leftovers, abort and undefined copies are told apart |
| `StructureReader.AnswersAt` | src/pystack/_pystack/structure.h:51-55 | every request after the first is answered from the buffer the first one left |
| `StructureReader.CheckedFieldsReadFaithfully` | src/pystack/_pystack/structure.h:74-90 | behind the gate, any series of requests for checked fields gives their remote bytes if the clamped structure is readable; if not, the first request throws and later ones see an unfilled buffer; none aborts |
| `StructureReader.ReadFieldsAreChecked` | src/pystack/_pystack/process.cpp:1134-1214 | every field that any reader asks for is among the checked ones, except the interpreter id |
| `StructureReader.OnlyTheIdAborts` | src/pystack/_pystack/structure.h:82-86 | behind the gate the interpreter id is the only field any reader asks for that can abort, exactly if it ends after every checked field |
| `StructureReader.FailedCopyIsReadBack` | src/pystack/_pystack/structure.h:51-63 | a field asked for twice after a failing copy: an error, then an unfilled buffer |
| `StructureReader.NegativeSizeNeverReads` | src/pystack/_pystack/structure.h:82-86 | a structure of negative size never yields a value: the first request is undefined or fails, later ones abort |
| `StructureReader.GilReads` | src/pystack/_pystack/pythread.cpp:329-333 | for any published offsets: with a negative size the first request is undefined or fails and later ones abort; otherwise, if the state is readable, a request gives the field's bytes exactly when it passes the test and aborts exactly when not; and if it is unreadable the first request fails |
| `StructureReader.GilReadCanAbort` | src/pystack/_pystack/pythread.cpp:329-333 | over readable memory, a first request for the lock flag that aborts while one for the holder is answered |
| `StructureReader.NegativeGilRunsPast` | src/pystack/_pystack/pythread.cpp:329-333 | a negative size in a cached page: the first request copies from beyond the page |
| `CoreMaps.SortByStart` | src/pystack/_pystack/maps_parser.cpp:95-97 | what the library sort promises: the same mappings by ascending start |
| `CoreMaps.FindMissing` | src/pystack/_pystack/maps_parser.cpp:78-88 | the mapped files without a segment of the same range |
| `CoreMaps.NameMissing` | src/pystack/_pystack/maps_parser.cpp:99-125 | the table of names has exactly the canonical paths shared by a missing file and a segment, each with the path of the last such segment |
| `CoreMaps.ParseCoreFileMaps` | src/pystack/_pystack/maps_parser.cpp:73-153 | the result is sorted by start and consists of the segments and the missing files, each with its own name rewritten and all else unchanged |
| `CoreMaps.MissingKeepsCounts` | src/pystack/_pystack/maps_parser.cpp:83-88 | a mapped file is kept, as often as it is listed, exactly when no segment has its range |
| `CoreMaps.NameIsLast` | src/pystack/_pystack/maps_parser.cpp:111-125 | among several segments of one file the last gives the name |
| `CoreMaps.RenamingKeepsTheFile` | src/pystack/_pystack/maps_parser.cpp:129-141 | a path is replaced only by one with the same canonical form, the empty path by none, and a second rewriting changes nothing |
| `CoreMaps.OnlyThePathChanges` | src/pystack/_pystack/maps_parser.cpp:127-150 | whatever becomes of its path, a mapping keeps its range, its offset and all else |
| `CoreMaps.SameNameIff` | src/pystack/_pystack/maps_parser.cpp:129-141 | two paths end as one string if and only if they were equal, or are the same file, which is missing from the segments and named by one |
| `CoreMaps.MissingFileTakesTheSegmentName` | src/pystack/_pystack/maps_parser.cpp:99-141 | a missing file and a segment with the same canonical path end with the same path, that of a segment |

## Left out

- ELF and DWARF work (`elf_common.cpp`, `unwinder.cpp`, the rest of `corefile.cpp`): calls into libelf and libdw; native stacks are inputs here.
- Interpreter-state scanning and the validity heuristics of `process.cpp`: heuristic reads of arbitrary memory.
- Tables of offsets per Python version, version detection by regular expression, parsing of `/proc/<pid>/maps`: data and text matching.
- Command line, colours, logging, source lines, argument and local-variable printing: a formatted frame is one opaque line.
- `Object` construction and class guessing: the heap of `Repr` says for each address what kind of object reading it gives.
- `getLocationInfo` and the line tables of Python 3.10 and earlier: the older loop adds byte deltas as plain `char`, whose sign depends on the platform.
- Lower-casing of native symbols is that of ASCII letters.
- `Tracer.ProcessTracer.Attach`: thread ids come from a finite range, and threads die only by exiting, not by a signal from outside; a wait that fails with ECHILD for a thread other than the main one is taken, as the source takes it, for a stop.
- `Tracer.ProcessTracer.GetProcessTids`: directory entries that change during a listing.
- `CachedMemory.ProcessMemoryManager.ReadChunkDirect`: a kernel that moves nothing for ever, on which the source would loop; any finite number of empty transfers is modelled.
- `CachedMemory.ProcessMemoryManager.CopyMemoryFromProcess`: memory is frozen and lies in user space, and the destination is a value, so writes into a partly filled buffer before a failure are not seen.
- `LruCache.LRUCache.PutValue`: the list is a sequence of nodes, so iterators are node references and list surgery is on that sequence, not on links.
- `LineTable.DecodeInvertsEncode`: lines stay in the range of a C `int`, and code lengths below 2^64.
- `LineTable.ParseLinetable`: malformed tables are modelled only up to the first undefined read or shift, after which the outcome is `Undefined`.
- `FileNote.ParseCoreFileNote`: 64-bit files on a little-endian host. For 32-bit files the source reads four bytes into uninitialised eight-byte words, so what it computes is not determined. A name without terminator is a read outside the note, where the source first copies and then reports an error.
- `LongDigits.ReadLong`: 30-bit digits of 64-bit builds, and at most 2^61 of them.
- `FrameChain.BuildFrameStack`: remote chains are finite; on a cyclic chain the constructors would not return. Locals and arguments are not resolved.
- `Repr.ObjectToString`: numbers arrive as text, and an object that cannot be read arrives with the text printed for it.
- `StructureReader.Structure.GetField`: the content of an unfilled buffer, and what a program does after an undefined copy, are not modelled; a structure of size zero is read only in the lower half of the address space.
- `Normalize.SortDescending`: the stable library sort is modelled by its result, an insertion sort on values.
- `SliceExact.SlicingPreservesIffOneRunner`: the only-if half needs distinct frames, as lost and printed lines of equal frames can coincide by accident; `SliceExact.SlicingPreservesIff` is exact without that.
- `Report.PrintThreads`: threads that run no Python have ids of their own, each listed once, and are there in ALL mode only.
- `CoreMaps.SortByStart`: stands for the library sort; the order of mappings with equal start is not relied on.
- `CoreMaps.ParseCoreFileMaps`: resolving a path is a fixed partial function, so a file system that changes in between is not modelled.
