# Verification of the simulator's hard parts

This project models eight components of a cycle-level RISC-V simulator and proves what they
are for, over all inputs and all runs.

- **The decoder generator** (`DecodeMasks`, `DecodeTree`, `DecodeOverlap`, `DecodeEmit`,
  `DecodeMeaning`, `DecodeFields`, `TopoSort`). Nested inclusive and exclusive pattern groups are
  compiled to switch and if statements. The emitted code is a small syntax tree with an evaluator; calls of
  the trans functions are attempts that an arbitrary predicate accepts or refuses. The main
  theorem is that the code does what trying the flat list would do, and that there is code
  exactly if no group has members that their common bits cannot tell apart.
- **The log pipeline** (`LogProtocol`, `LogDb`, `LogProgress`, `LogWait`). One producer and a pool of workers share a ring
  of four slices. A step is one atomic statement; a schedule is any sequence of steps.
  Compression is any function with an inverse. `LogWait` adds the mutex and the condition variable.
- **The pipelined CPU** (`PipelineSpec`, `PipelineProof`, `PipelineRedirect`, `PipelineStream`,
  `PipelineExamples`, `PipelineMemory`, `PipelineRetire`, `PipelineTimeout`, `PipelineBlock`,
  `PipelineProgress`, `PipelineFetch`, `PipelineCpu`). The architecture is an arbitrary translate, decode, retire and
  trap function; the predictor is the source's, over arbitrary direction and target predictions;
  caches, delays and interrupts are inputs. The main theorems: the exact cycle in which a run leaves
  the sequential machine, and what a program must do for that to happen, so that what any other
  program commits does not depend on timing. Others say what waits for what: memory instructions for the
  data cache, retirement for its turn, and when the simulator gives up. `FrontEnd` replaces the arbitrary instruction cache by
  the one modelled below, and `RiscvCpu` the arbitrary architecture by the simulator's.
- **The first-level caches and replacement** (`CacheSpec`, `CacheProof`, `CacheLines`, `CacheRequests`,
  `CacheDirty`, `Caches`, `Lru`). Both caches follow one protocol with abandoned refills.
- **Branch history** (`BranchHistory`, `GShare`). A speculative shift register with rollback and
  the predictor that reads it.
- **The privileged architecture** (`PageWalk`, `Privileged`, `TrapState`, `Interrupts`, `Mmu`). Sv39
  translation, trap entry and return, the choice of an interrupt, the cached MMU flags and the translation
  they give.
- **The UART** (`Fifo8`, `UartSpec`, `UartProof`, `UartRegisters`, `Serial`). A 16550A as a register
  machine over a ring buffer.
- **Wide-integer kernels** (`WideShift`, `WideExtra`, `WideArith`) of the floating-point library.

`BitOps` has the bitwise operations on numbers, proved bit by bit. Machine words are numbers
below a power of two with the wrap-around written out; `mstatus` is a bit vector, and the UART's
registers are records of their bits.

Where the source changes state in place there is a class whose methods do the same to its fields.
Each method is proved equal to a function on the object's value, and the properties are proved
about those functions over arbitrary runs.

## Where the code does not do what it might be thought to do

Each of these is a lemma: the exact condition under which the code is right, or a concrete input
for which it is not.

- `LogProtocol.CopiesFit`: a slice is handed over after the copy, so records must divide the slice
  size. The 34-byte instruction records do not.
- `LogWait.CallIsLostIff`: addData waits on its condition variable without asking whether a task is left to
  wake it. It sleeps for ever exactly if none is running when it is called with its slice not free, and
  `FifthCallIsLost` has a run that comes to this.
- `PipelineMemory.DroppedAnswerStays`: a trap drops an answered memory instruction but not its answer, which
  the next instruction of the same number takes for its own.
- `PipelineBlock.OffBlockAtTheTop`: the check of ID wraps around in the last block of the address space.
- `PipelineRedirect.SequentialIffNoStaleHandover`: a page fault found when a block is requested is
  delivered to ID later without a second look. It is wrong exactly if the pc can be fetched from by
  then. `PipelineExamples` has the two ways this comes about: a store maps the page meanwhile, and an
  instruction unmaps the page it reaches out of.
- `CacheProof.OrphanedBy`: a redirect of a refilled line not yet delivered leaves the cache
  waiting for ever.
- `CacheLines.BreaksIff`: an abandoned refill is stored under the tag of the request that came after
  it; a line is held twice exactly if another way has that tag.
- `CacheDirty.RedirectedWriteIsNotMarked`: a redirect between the callback of a write and its mark leaves the
  line clean.
- `CacheProof.FlushReachesAllSets`: the instruction cache counts a flush in 16 bits.
- `DecodeOverlap.RejectedIff`: the overlap check asks more than that patterns are disjoint; what it
  asks is stated exactly.
- `BranchHistory.NeverThrows`: a history of more than 64 bits cannot always be read as a number. The
  configuration (configs/params.py:34) has 64, where it always can; the 1024 of the header would not do.
- `Mmu.TranslationDiffersIff`: translation goes by the privilege level where the manual goes by the
  mode MPRV selects (`PageWalk.PermissionRule`), does not ask for canonical addresses, takes leaves with
  reserved bits, and reports a table in a device as a page fault.
- `Interrupts.EnablesIff`, `HighestNumberIsFirstIff`: the interrupt enables ignore delegation, and the
  highest number is taken where the manual has an order of its own.
- `Privileged.SretUndoesTrap`: SRET reads two bits of privilege where the trap wrote one.
- `UartProof.ResetInv`: reset leaves FCR alone.
- `UartRegisters.OverrunIffDropped`: a break while the FIFOs are off overwrites an unread byte unreported.
- `UartProof.RingEdgeIsForgotten`: a ring edge not yet read is lost when another input changes.

## Model

| member | source | states |
|---|---|---|
| DecodeMeaning.Generate | scripts/decodetree.py:1566-1575 | for well-formed patterns, any emitted decoder makes, for every word, exactly the attempts of the flat textual list up to the first accepted one, each with its own format's fields, and returns true exactly when one is accepted; there is no decoder exactly if some exclusive group of the mask-propagated tree has two or more members that no bit they all fix tells apart (or the file is empty and instructions have no bits) |
| DecodeMeaning.DecoderMeaning | scripts/decodetree.py:560-596 | the same for the emitted code of every tree that builds: evaluating the nested switch and if statements equals trying the flat list in order, whatever the trans functions accept and whatever the argument union held |
| DecodeMeaning.PatternCorrect | scripts/decodetree.py:560-596 | one leaf: format fields and pattern fields end up in the union whichever of the two orders the references between them force |
| DecodeMeaning.EmitCorrect | scripts/decodetree.py:690-702 | every group, inclusive or exclusive, entered with any already-tested mask below its own, runs like its flat list |
| DecodeMeaning.EmitIncCorrect | scripts/decodetree.py:690-702 | an inclusive group tries its members in order, and the bits not yet tested are enough of a test for each |
| DecodeMeaning.EmitTreeCorrect | scripts/decodetree.py:736-775 | a decode tree node, with its common format pulled forward or not, runs like the flat list of the members it holds |
| DecodeMeaning.LabelsDistinct | scripts/decodetree.py:750-768 | the case labels of a switch stay distinct after the contiguous-shift rewrite |
| DecodeMeaning.SwitchMiss | scripts/decodetree.py:736-775 | a word that selects no case matches no member of the group |
| DecodeMeaning.TreeBaseOfAll | scripts/decodetree.py:834-852 | a format propagated to a tree node is the format of every member below it |
| DecodeMeaning.GroupIsExclusive | scripts/decodetree.py:787-833 | once a group builds, a word matches at most one of its members |
| DecodeMeaning.BuildAll | scripts/decodetree.py:665-668 | build_tree over the whole pattern tree succeeds exactly if every exclusive group in it builds |
| DecodeTree.BuildTree | scripts/decodetree.py:787-826 | the bin-filling recursion computes the partition function, or the overlap error exactly where several members share no untested bit |
| DecodeTree.BinsPartition | scripts/decodetree.py:808-815 | the bins split the members by their bits under the mask: distinct keys, none empty, each with its key's members in order, none left out |
| DecodeTree.MaskGrows | scripts/decodetree.py:787-826 | the path mask strictly grows and the untested bits strictly shrink, so the recursion ends |
| DecodeTree.BuiltIsExclusive | scripts/decodetree.py:787-826 | if the tree builds, no word matches two members |
| DecodeTree.BuiltLeafMasks | scripts/decodetree.py:787-826 | the masks tested on the path to a leaf add up to exactly that member's fixed mask |
| DecodeOverlap.RejectedIff | scripts/decodetree.py:787-801 | a group is rejected as overlapping exactly if it has a set of at least two members such that every instruction bit they all fix has the same value in all of them |
| DecodeOverlap.BuildsIff | scripts/decodetree.py:787-831 | every tree of a mask-propagated pattern tree can be built exactly if no exclusive group in it, nested ones with their masks included, has such a set |
| DecodeTree.DisjointButRejected | scripts/decodetree.py:787-801 | such a set need not overlap: three pairwise disjoint patterns with no bit in common are rejected |
| DecodeMasks.PropMasks | scripts/decodetree.py:634-663 | every group gets as mask exactly the bits that all members fix alike, and the shared bits whenever that mask is not zero; the shape of the tree is kept |
| DecodeMasks.AgreeOn | scripts/decodetree.py:647-659 | the shrinking loop ends with exactly the start bits on which all members agree |
| DecodeMasks.AgreementIsGreatest | scripts/decodetree.py:634-663 | that mask is the greatest one inside every member's mask on which all members agree |
| DecodeMasks.MemberMatchesGroup | scripts/decodetree.py:634-663 | a word that matches a member matches its group, so the group test loses nothing |
| DecodeMasks.CountTrailingZeros | scripts/decodetree.py:229-235 | ctz returns the position of the lowest set bit and terminates |
| DecodeMasks.IsPow2Exact | scripts/decodetree.py:224-226 | is_pow2 holds exactly of zero and the powers of two |
| DecodeMasks.IsContiguous | scripts/decodetree.py:238-245 | is_contiguous returns the shift of a single run of ones, else -1 |
| DecodeMasks.ContiguousShiftExact | scripts/decodetree.py:238-245 | a shift is found exactly when the set bits form one run |
| DecodeFields.StrExtract | scripts/decodetree.py:314-325 | the loop over the subfields, last first, builds the nested deposit chain |
| DecodeFields.ChainValue | scripts/decodetree.py:304-325 | the chain equals the concatenation of the subfields, sign-extended by the leading one only |
| DecodeFields.ScatterThenConcat | inc/arch/riscv/trans_rv32.h:1767-1772 | scattering a value over disjoint subfields and concatenating them again returns it |
| DecodeFields.FieldRoundTrip | inc/arch/riscv/trans_rv32.h:1851-1855 | a value scattered into disjoint subfields is what the emitted expression extracts, sign-extended if the leading one is signed |
| TopoSort.StaticOrder | scripts/decodetree.py:97-129 | returns all nodes, keys and mere dependencies, once each with predecessors earlier, or the cycle error exactly when the graph has a cycle; it terminates |
| TopoSort.StuckMeansCycle | scripts/decodetree.py:116-129 | items that all wait for one another contain a cycle |
| TopoSort.OrderMeansNoCycle | scripts/decodetree.py:97-129 | a graph that has an order has no cycle |
| LogProtocol.EveryRunIsSafe | src/common/dbhandler.cpp:76-152 | after every interleaving of producer and workers the file decodes to a prefix of the records handed to addData, in order |
| LogProtocol.NextKeeps | src/common/dbhandler.cpp:76-152 | every atomic statement of the producer or a worker keeps the ring invariant (P >= C >= W, P - W at most 4, contents and state of each slot) |
| LogProtocol.NothingLostOnEntry | src/common/dbhandler.cpp:76-99 | what is in the log is what addData was given, in order, less the record of a call still waiting |
| LogProtocol.FileIsPrefix | src/common/dbhandler.cpp:123-152 | in every state of the invariant the file decodes to the first slices of the log |
| LogProtocol.DecodedParts | src/common/dbhandler.cpp:154-186 | frames of consecutive slices, the last one possibly partial, decode to the bytes they cover |
| LogProtocol.CopiesFit | src/common/dbhandler.cpp:87-95 | all copies stay inside their slice exactly when the record size divides the slice size: the threshold is tested after the copy |
| LogProtocol.RecordSizesOfTheSimulator | inc/common/dbhandler.h:15-18 | 24-byte branch records fit, 34-byte instruction records overrun a slice |
| LogDb.LogDB.ProducerStep | src/common/dbhandler.cpp:76-99 | the next statement of addData changes the object as the protocol step says and keeps the invariant |
| LogDb.LogDB.WorkerStep | src/common/dbhandler.cpp:101-152 | the next statement of a worker's task does so too |
| LogDb.LogDB.PoolWait | src/common/dbhandler.cpp:192-194 | running the workers in any order empties the pool and loses nothing |
| LogDb.LogDB.Close | src/common/dbhandler.cpp:154-186 | after close the file decodes to all bytes added, including the partial slice and a full ring whose oldest slice is compressed again |
| LogDb.CompressNext | src/common/dbhandler.cpp:167-175 | one round of the closing compression loop |
| LogDb.WriteNext | src/common/dbhandler.cpp:177-184 | one round of the closing writeback loop: the next part in order |
| LogDb.Session | src/common/dbhandler.cpp:76-198 | any schedule, then pool.wait and close: the file decodes to exactly the records handed to addData |
| LogProgress.WaitEnds | src/common/dbhandler.cpp:76-152 | from every reachable state in which a call waits: once the running tasks have ended and the producer has gone at most twice round its loop, the tasks ending each time, the slice is free, nothing has been added meanwhile, and the call goes on to copy its record |
| LogProgress.RoundWrites | src/common/dbhandler.cpp:78-85 | with the oldest slice compressed one round writes it back and frees the slice waited for |
| LogProgress.RoundCompresses | src/common/dbhandler.cpp:78-85 | with nothing compressed one round compresses the oldest slice |
| LogWait.CallIsLostIff | src/common/dbhandler.cpp:76-86 | with mutex and condition variable: a call of addData goes to a sleep nobody ends exactly if at its entry its slice is not free and no task is running, whatever the workers do before its test |
| LogWait.LostArises | src/common/dbhandler.cpp:76-86 | in every run a call comes to be lost only by its first test, in such a state; a call that has been woken never is |
| LogWait.LostOnlyAtFirst | src/common/dbhandler.cpp:76-152 | after every schedule a lost call has not been woken before, and one that has been woken sleeps only while a task is running |
| LogWait.SleepsForEverIff | src/common/dbhandler.cpp:106-149 | a sleeping call stays asleep under every schedule exactly if no task is running |
| LogWait.FifthCallIsLost | src/common/dbhandler.cpp:76-98 | it happens, for every slice size: after four records of one slice each, their tasks ending after the fourth call has returned, the fifth call sleeps for ever |
| PipelineRedirect.SequentialIffNoStaleHandover | src/cpu/pipelinecpu.cpp:320-337 | for every schedule of callbacks, delays, predictions and redirects, what has committed and what ID is about to commit is a run of the decode-then-update machine exactly if no cycle hands ID a fetch fault while the current pc can be fetched from |
| PipelineRedirect.StepOnTrack | src/cpu/pipelinecpu.cpp:76-369 | step by step: a run leaves the sequential machine in no other step than such a handover, and never comes back |
| PipelineRedirect.NextBlame | src/cpu/pipelinecpu.cpp:371-432 | every step keeps: ID waits only while an older instruction is going to redirect, that redirect goes to the current pc, and when one is coming nothing younger can commit before it |
| PipelineRedirect.Undisturbed | src/cpu/pipelinecpu.cpp:371-432 | an instruction that ID is about to commit is never dropped or changed by the stages behind ID |
| PipelineStream.PredictionSuits | src/pred/pipepredictor.cpp:4-48 | whatever direction predictor, target buffer and return stack say, `not taken` means the address after the instruction, direct jumps are taken to their target, and nothing but branches and jumps is taken |
| PipelineStream.EveryRunIsSequential | src/cpu/pipelinecpu.cpp:76-467 | for every schedule of cache answers, delays, branch predictions and redirects in which no block arrives while one is parked, the commits of a steady program are a run of the sequential machine. Steady asks of the program's own sequential runs only: a block that could not be fetched while the run went straight on to it still cannot when it gets there |
| PipelineStream.TimingIndependence | src/cpu/pipelinecpu.cpp:76-467 | any two such schedules of a steady program that see the same interrupts commit the same instructions with the same effects, as far as both have come |
| PipelineStream.GentleIsSteady | src/cpu/pipelinecpu.cpp:320-337 | a program is steady if in its sequential runs no instruction that ID does not redirect for makes a page fetchable or unmaps its own |
| PipelineStream.NextStream | src/cpu/pipelinecpu.cpp:39-51 | every step keeps the row of blocks in ID, behind it and in the request list consecutive from where the pc goes next, up to a redirect that is coming |
| PipelineStream.HandoverIsCurrent | src/cpu/pipelinecpu.cpp:320-337 | a fault handed to ID is then a fault at the current pc, also when the instruction before reached two bytes into the faulting block |
| PipelineStream.LeavingThePath | src/cpu/pipelinecpu.cpp:270-298 | an instruction that completes off the predicted path makes the younger ones wait or redirects to its target at once, exactly if it is no direct jump or push; after one of those fetching goes on as if nothing were wrong |
| PipelineStream.EveryDepartureIsSeen | src/cpu/pipelinecpu.cpp:270-298 | with the predictor there is, that exception cannot arise: direct jumps are never off the predicted path, and everything that is off it waits or redirects |
| PipelineExamples.StoresMustNotMap | src/cpu/pipelinecpu.cpp:320-337 | a run that commits a stale page fault because a store maps the page behind it: the architecture is regular and the program is not steady |
| PipelineExamples.PagesMustStay | src/cpu/pipelinecpu.cpp:320-337 | a run that commits a page fault in a mapped page, because the instruction before unmapped the page it started in and reached into its last block: again only steadiness is missing |
| PipelineExamples.TablesMayBeInMemory | src/cpu/pipelinecpu.cpp:320-337 | a steady program whose page tables are in memory: another store would map a page, and none is run |
| PipelineProof.SequentialIsUnique | src/cpu/pipelinecpu.cpp:259-318 | two sequential runs from one state agree step by step |
| PipelineProof.NextKeeps | src/cpu/pipelinecpu.cpp:39-51 | each cycle and each cache callback keeps: what ID will commit was decoded at the current pc with no update in between, or is a fetch fault, and only one found when its block was requested may be out of date |
| PipelineProof.PreIdReady | src/cpu/pipelinecpu.cpp:434-467 | decoding ahead leaves the environment at the current pc and state, or with a current page fault |
| PipelineProof.IdEvent | src/cpu/pipelinecpu.cpp:259-266 | what ID commits is current, or a fault found at fetch |
| PipelineProof.NothingCommitsBehindARedirect | src/cpu/pipelinecpu.cpp:259-318 | while an instruction waits for its redirect nothing younger commits, up to and including the cycle of the redirect |
| PipelineCpu.PipePredict | src/pred/pipepredictor.cpp:4-48 | the switch over the kind computes the prediction, and it suits the instruction |
| PipelineCpu.PipelineCPU.Exec | src/cpu/pipelinecpu.cpp:76-369 | exec changes the object as the composed stage functions say; what those do over whole runs, waiting for the data cache included, is in PipelineMemory, PipelineRetire and PipelineRedirect |
| PipelineCpu.PipelineCPU.PreId | src/cpu/pipelinecpu.cpp:434-467 | preId changes the object as its function says and returns whether the block is used up |
| PipelineCpu.PipelineCPU.ExcRedirect | src/cpu/pipelinecpu.cpp:409-432 | excRedirect empties every stage in front of WB and restarts fetching at the target |
| PipelineCpu.PipelineCPU.ICacheCallback | src/cpu/pipelinecpu.cpp:39-51 | the callback decodes the block delivered, or parks it when ID is busy |
| PipelineCpu.Simulate | src/cpu/pipelinecpu.cpp:76-467 | running the object over any schedule gives a linked trace ending in its state; it is on the sequential track exactly if no cycle hands ID a stale fault, and sequential whenever the program is steady and no block arrives while one is parked |
| PipelineStream.WaitsIffWrong | src/cpu/pipelinecpu.cpp:270-298 | an instruction that completes makes the younger ones wait exactly if direction, indirect target, return target or target-buffer entry said otherwise than dst1 and dst2; if they said right the pc goes where fetching went on, and but for a flush the fetch is left alone |
| PipelineStream.RedirectsIffWrong | src/cpu/pipelinecpu.cpp:164-190 | and EXE then redirects to the target exactly if they were wrong |
| PipelineMemory.MemoryWaits | src/cpu/pipelinecpu.cpp:99-123 | for every schedule and every choice of request numbers: the memory instructions that have gone on from MEM, and the answers not yet used, never outnumber the data cache's answers and the failed store-conditionals |
| PipelineMemory.MemoryIsAccepted | src/cpu/pipelinecpu.cpp:191-228 | those gone on, and those behind their start in EXE or MEM, never outnumber the requests accepted and the failed store-conditionals |
| PipelineMemory.NumbersInTurn | src/cpu/pipelinecpu.cpp:191-228 | requests are numbered 0, 1 and so on in turn |
| PipelineMemory.AnsweredGoesOn | src/cpu/pipelinecpu.cpp:99-123 | an answered instruction, and one that needs no answer, goes on to WB in the next cycle unless a trap drops it |
| PipelineMemory.DroppedAnswerStays | src/cpu/pipelinecpu.cpp:409-432 | a trap drops an answered instruction from MEM and leaves its answer in the map |
| PipelineFetch.BlocksAreAccepted | src/cpu/pipelinecpu.cpp:320-345 | for every schedule the blocks delivered and those outstanding never outnumber the cycles in which the instruction cache accepted one |
| PipelineFetch.AnswerLetsGo | src/cpu/pipelinecpu.cpp:53-56 | the data cache's answer to the instruction in MEM lets it go to WB in the next cycle |
| PipelineRetire.RetiresInOrder | src/cpu/pipelinecpu.cpp:80-258 | for every schedule what WB has counted are the first commits of the trace, and WB, MEM and EXE carry the following ones in order, none lost, doubled or overtaken, with the decoded form and target of its commit |
| PipelineRetire.LongOperationsTakeTheirTime | src/cpu/pipelinecpu.cpp:125-163 | a multiplication, division or floating-point operation is in EXE for one cycle and its delay under every schedule, neither less nor more |
| PipelineRetire.ShortOperationsPass | src/cpu/pipelinecpu.cpp:125-258 | everything else that EXE finishes goes on to a free MEM in its cycle |
| PipelineRetire.TickCounts | src/cpu/pipelinecpu.cpp:368 | the tick is the number of cycles |
| PipelineTimeout.GivesUpOnlyOnTimeout | src/cpu/pipelinecpu.cpp:76-83 | for every schedule: the simulator gives up in a cycle only if WB has retired nothing for 5000 cycles, ID has waited 5000 cycles for a redirect, or the instruction ID commits is not in its block; and a run that goes on has retired something within 5001 cycles |
| PipelineBlock.SteadyRunsGoOn | src/cpu/pipelinecpu.cpp:282-291 | the third reason does not arise in orderly runs of steady programs, unless a block reaches the top of the address space |
| PipelineBlock.OffBlockAtTheTop | src/cpu/pipelinecpu.cpp:286-291 | where the check can fail at all: its sum wraps around |
| PipelineProgress.FirstInstructionCommits | src/cpu/pipelinecpu.cpp:39-51 | nothing stands still on its own: a cycle requests the block of the start address, the next has it accepted, the callback decodes it, and the cycle after that commits it as decoded |
| PipelineProgress.FirstInstructionRetires | src/cpu/pipelinecpu.cpp:80-258 | three more cycles retire it |
| FrontEnd.CallbacksFindIdEmpty | src/cpu/pipelinecpu.cpp:39-51 | CPU and instruction cache together: in every schedule a callback finds a block outstanding and ID empty, so none is ever parked behind another instruction |
| FrontEnd.CallPays | src/cache/icache.cpp:100-111 | the cache calls back only when it owes an answer and owes none afterwards, and no step of its own makes it owe one |
| FrontEnd.JointKeeps | src/cpu/pipelinecpu.cpp:320-345 | every cycle, tick, refill and flush of the two keeps: an answer owed has its block outstanding and ID empty |
| FrontEnd.JointRunIsSequential | src/cpu/pipelinecpu.cpp:320-345 | with the cache as it is in place of arbitrary callbacks, for every schedule, size, delay, flush, replacement choice and branch prediction the commits of a steady program are a run of the sequential machine |
| FrontEnd.CachesDoNotShow | src/cache/icache.cpp:28-111 | two machines with different instruction caches, of any sizes and timings, that see the same interrupts commit the same instructions of a steady program with the same effects |
| RiscvCpu.RiscvIsRegular | src/arch/riscv/riscvarch.cpp:45-69 | the architecture made of the page table walk over memory and of updateEnv meets everything the pipeline asks of one: decoding never reports a fetch fault, sizes are 2 or 4, targets are where the instruction's kind says, and pages are fetchable as a whole or not |
| RiscvCpu.SimulatorIsSequential | src/cpu/pipelinecpu.cpp:76-467 | pipeline, instruction cache, predictor and RISC-V architecture together, page tables in memory, whatever single instructions compute: the commits of a steady program are a run of the sequential machine |
| RiscvCpu.UntranslatedIsSteady | src/arch/riscv/riscvarch.cpp:379-383 | a program whose fetches are never translated is steady |
| RiscvCpu.FetchFaultIsTaken | src/arch/riscv/riscvarch.cpp:71-78 | a fetch that cannot be translated becomes an instruction page fault: epc and tval are its address, the mode, mstatus bit by bit and the handler's address as TrapState says, and nothing else changes |
| RiscvCpu.InterruptIsTaken | src/arch/riscv/riscvarch.cpp:61-68 | an instruction decoded while an interrupt is recognized does not take place: the interrupt is taken and comes back to its address |
| RiscvCpu.ReadBytes | src/cache/memory.cpp:248-268 | a read succeeds exactly if no device is in the way, and its bytes are those in memory, the lowest first |
| RiscvCpu.EntryFields | inc/arch/riscv/archstate.h:77-94 | every field of a page table entry is read from its place in the word |
| WideShift.JamCompose | thirdparty/softfloat/inc/fpu/softfloat-macros.h:154-169 | two sticky shifts are one sticky shift by the sum, for all counts |
| WideShift.JamValue | thirdparty/softfloat/inc/fpu/softfloat-macros.h:154-169 | a sticky shift is the quotient with its lowest bit set if anything was lost |
| WideShift.Shift64RightJamming | thirdparty/softfloat/inc/fpu/softfloat-macros.h:154-169 | the three branches compute the sticky shift for every count |
| WideShift.Shift128RightJamming | thirdparty/softfloat/inc/fpu/softfloat-macros.h:260-290 | so do the branches for two words |
| WideShift.Shift64ExtraRightJamming | thirdparty/softfloat/inc/fpu/softfloat-macros.h:188-215 | the integer part is exact and the extra word compares with 2^63 as the lost fraction compares with one half, and is zero exactly if nothing was lost |
| WideExtra.Shift128ExtraRightJamming | thirdparty/softfloat/inc/fpu/softfloat-macros.h:311-362 | the same for three words, in every branch and for every count: the upper two words are the exact quotient, the third rounds like the fraction lost |
| WideExtra.ExtraShiftCorrect | thirdparty/softfloat/inc/fpu/softfloat-macros.h:311-362 | the words the branches compute have that meaning |
| WideArith.EstimateDiv128To64 | thirdparty/softfloat/inc/fpu/softfloat-macros.h:561-581 | for b >= 2^63 the estimate is at least the quotient and at most two more, all ones when b <= a0; at most two rounds of correction |
| WideArith.UpperHalf | thirdparty/softfloat/inc/fpu/softfloat-macros.h:561-577 | the first digit, corrected: the remainder is exact and the loop ends within two rounds |
| WideArith.LowerHalf | thirdparty/softfloat/inc/fpu/softfloat-macros.h:578-580 | the second digit turns an exact remainder into an estimate within two |
| WideArith.Add128 | thirdparty/softfloat/inc/fpu/softfloat-macros.h:438-446 | the sum modulo 2^128 |
| WideArith.Sub128 | thirdparty/softfloat/inc/fpu/softfloat-macros.h:472-480 | the difference modulo 2^128 |
| WideArith.Add192 | thirdparty/softfloat/inc/fpu/softfloat-macros.h:454-464 | the sum modulo 2^192 |
| WideArith.Mul64To128 | thirdparty/softfloat/inc/fpu/softfloat-macros.h:504-508 | the full product of two words |
| WideArith.Mul128By64To192 | thirdparty/softfloat/inc/fpu/softfloat-macros.h:517-527 | the full product of two words by one |
| WideArith.Mul128To256 | thirdparty/softfloat/inc/fpu/softfloat-macros.h:535-553 | the full product of two words by two, with no carry lost |
| CacheProof.EveryRunIsSafe | src/cache/icache.cpp:4-111 | in every run at most one parent request is out, an abandoned one never coexists with a miss being served, and callbacks are in order without repeats |
| CacheProof.NoStaleCallback | src/cache/icache.cpp:92-98 | after a redirect no request accepted before it is ever called back |
| CacheProof.NextKeeps | src/cache/dcache.cpp:4-111 | every lookup, tick, answer, flush and redirect keeps the protocol of both caches |
| CacheProof.OrphanedBy | src/cache/icache.cpp:92-98 | the cache comes to wait for an answer that will never come exactly by a redirect of a refilled line not yet delivered |
| CacheProof.OrphanedForever | src/cache/icache.cpp:59-71 | from then on no line is asked for again |
| CacheProof.FlushReachesAllSets | src/cache/icache.cpp:37-46 | a flush that has run to its end has emptied every set exactly when its counter can hold the number of sets |
| CacheLines.HitsResidentLines | src/cache/icache.cpp:100-111 | when redirects from outside a callback come only while no parent request is out, a request hits exactly when its line was filled and neither replaced nor flushed since; redirects from hit and refill callbacks are all allowed |
| CacheRequests.RequestsHitResidentLines | src/cache/dcache.cpp:99-111 | in the same runs a tick that takes a waiting request calls it back exactly if its line was filled and neither replaced nor flushed since; otherwise it calls nobody back and the request has missed |
| CacheRequests.MissedWaitsForItsLine | src/cache/dcache.cpp:4-15 | whatever comes, a request that missed is never called back before its own line has been filled |
| CacheRequests.CallStep | src/cache/dcache.cpp:4-111 | every callback is for a request whose line is held, or is being filled by the very answer |
| CacheRequests.MissAsks | src/cache/dcache.cpp:50-58 | the parent is asked for the line of the missed request as soon as it accepts and no abandoned answer is awaited |
| CacheRequests.AcceptedIsTaken | src/cache/dcache.cpp:22-29 | a request accepted is taken in the next tick, if no flush comes first |
| CacheRequests.RefusedWouldWait | src/cache/dcache.cpp:22-29 | and one refused changes nothing and would not have been |
| CacheRequests.SoonFree | src/cache/dcache.cpp:59-80 | after delivering a line or marking a write the cache takes requests again after one tick, after a read hit at once |
| CacheDirty.DirtyIsWritten | src/cache/dcache.cpp:4-72 | in runs without the redirects named, a valid way is dirty exactly if a write of its line was called back since it was filled, or by the filling |
| CacheDirty.RedirectedWriteIsNotMarked | src/cache/dcache.cpp:91-97 | a redirect between the callback of a write hit and its mark leaves the line clean |
| CacheLines.TagsStayUnique | src/cache/cache.cpp:29-36 | in the same runs no set holds two valid ways with one tag |
| CacheLines.FlushLeavesNewLines | src/cache/icache.cpp:86-90 | in the same runs, once a flush has finished every valid line was filled after it began |
| CacheLines.BreaksIff | src/cache/icache.cpp:4-16 | in every reachable state with unique tags, redirects or not, a step makes two valid ways of a set hold one tag exactly if it is an answer stored under a tag that another way of the set holds |
| CacheLines.RedirectBreaksTags | src/cache/icache.cpp:92-98 | that does happen: a redirect during a refill, a lookup of a line held, and the abandoned line lands under its tag |
| CacheLines.RefilledAndRedirected | src/cache/icache.cpp:92-98 | a run of five steps that orphans the cache |
| CacheSpec.SplitNamesLine | src/cache/cache.cpp:19-23 | set and tag together are the address without its offset |
| Caches.Match | src/cache/cache.cpp:29-36 | the loop over the ways finds the first valid one with the tag |
| Caches.ICache.Tick | src/cache/icache.cpp:37-84 | a tick changes the instruction cache as the protocol step says |
| Caches.ICache.Callback | src/cache/icache.cpp:4-16 | so does the answer of the parent, from whose callback the fetch may redirect |
| Caches.DCache.Tick | src/cache/dcache.cpp:31-83 | a tick of the data cache, with its write state and dirty bit, as the protocol step says; when that is a hit and when a line is dirty is in CacheRequests and CacheDirty |
| Caches.DCache.Callback | src/cache/dcache.cpp:4-15 | the parent's answer to the data cache |
| Lru.GetIsLeastRecent | src/cache/replace/lru.cpp:13-17 | without clears get returns the way whose last insert or get is oldest |
| Lru.GetIsOldest | src/cache/replace/lru.cpp:13-17 | with clears too: the most recently cleared way, else the least recently touched |
| Lru.InsertedIsSafe | src/cache/replace/lru.cpp:3-6 | an inserted way is returned by none of the next ways-1 gets, and by the one after |
| Lru.TouchKeeps | src/cache/replace/lru.cpp:3-6 | splicing keeps every node in the list once, in order of age, with the map pointing at it |
| Lru.ClearKeeps | src/cache/replace/lru.cpp:8-11 | so does splicing to the front |
| Lru.LRUReplace.Get | src/cache/replace/lru.cpp:13-17 | get on one set leaves the others alone |
| Lru.LRUReplace.constructor | src/cache/replace/lru.cpp:19-33 | setParams lists the ways of every set in order |
| PageWalk.TranslateAddr | src/arch/riscv/riscvarch.cpp:135-189 | the loop over the levels with its masks is the Sv39 walk on page numbers, with the fault of the access on every failing branch |
| PageWalk.TranslatedInPage | src/arch/riscv/riscvarch.cpp:181-188 | a translated address has, for a leaf of level l with page number ppn, the low 12+9l bits of the virtual address and above them ppn without its low 9l bits |
| PageWalk.SamePage | src/arch/riscv/riscvarch.cpp:135-189 | two addresses of one page get the same verdict, and on success the same frame with their own offsets |
| PageWalk.PermissionRule | src/arch/riscv/riscvarch.cpp:93-117 | the permission test by current privilege agrees with the one by effective mode on every entry exactly when the difference cannot matter |
| PageWalk.Splice | src/arch/riscv/riscvarch.cpp:187-188 | replacing the low bits of an aligned base adds the offset |
| Privileged.TrapsAreTransparent | src/arch/riscv/riscvarch.cpp:248-302 | well-bracketed traps and returns, nesting each level at most once, with mstatus bit 9 clear, restore privilege, both interrupt enables and the pc; the code in between may write every register but the return address and the mstatus bits its own return will read |
| Privileged.SretUndoesTrap | src/arch/riscv/riscvarch.cpp:270-288 | SRET restores the privilege a trap into S-mode saved exactly when mstatus bit 9 is clear |
| Privileged.MretUndoesTrap | src/arch/riscv/riscvarch.cpp:275-293 | MRET restores privilege and enable and leaves the S-mode stack alone |
| Privileged.TrapReports | src/arch/riscv/riscvarch.cpp:227-271 | a trap goes where it is delegated, reports pc, cause and value in that mode's registers and touches no other mode's, and enters the handler at its base or, for a vectored interrupt n, at its n-th word |
| TrapState.TrapState | src/arch/riscv/riscvarch.cpp:251-291 | a trap to S-mode leaves SIE clear, SPIE the old SIE, SPP the old level and every other bit of mstatus, one to M-mode the same for its bits; level, epc, cause and value are those of the mode, which is S exactly from U or S with the bit of the cause delegated; nothing else changes |
| TrapState.SretState | src/arch/riscv/riscvarch.cpp:292-296 | SRET: SIE is the old SPIE, SPIE set, SPP and MPRV clear, every other bit as before, the level as saved, the pc sepc, nothing else |
| TrapState.MretState | src/arch/riscv/riscvarch.cpp:297-302 | MRET likewise, MPRV cleared unless it returns to M-mode |
| TrapState.GivesUpOn | src/arch/riscv/riscvarch.cpp:251-361 | the exceptions the simulator gives up on are exactly all others |
| TrapState.LastWriteDecides | src/arch/riscv/riscvarch.cpp:303-307 | after the writes of an instruction each bit of a register has the value of the last write whose mask has it |
| TrapState.UndecidedStays | src/arch/riscv/riscvarch.cpp:303-307 | and a bit in no mask stays |
| TrapState.MstatusWrite | src/arch/riscv/riscvarch.cpp:303-307 | a write of mstatus sets the bits named and no others |
| TrapState.CompletedState | src/arch/riscv/riscvarch.cpp:303-323 | a completed instruction leaves its writes and x0 zero |
| Interrupts.RecognizedIs | src/arch/riscv/riscvarch.cpp:61-68 | the interrupt taken is the one of the highest number among the low 32 bits of mip and mie, if interrupts are enabled, and there is none exactly otherwise |
| Interrupts.HandlerIsNotInterrupted | src/arch/riscv/riscvarch.cpp:61-68 | whatever is pending, the handler a trap enters begins with its own instructions |
| Interrupts.EnablesIff | src/arch/riscv/riscvarch.cpp:61-64 | the enable agrees with the manual's for an interrupt exactly unless an S-mode program with SIE clear has one for M-mode, or M-mode with MIE set one that is delegated |
| Interrupts.HighestNumberIsFirstIff | src/arch/riscv/riscvarch.cpp:65-68 | of the standard interrupts the one taken has the manual's highest priority exactly unless 3 or 7 waits behind 9, 3 behind 7, or 1 or 3 behind 5 |
| Privileged.SameLevelIsNotRestored | src/arch/riscv/riscvarch.cpp:270-288 | a trap into S-mode inside an S-mode handler loses the first return address |
| Privileged.FlagsFollow | src/arch/riscv/riscvarch.cpp:379-383 | after every sequence of instructions and traps the cached MMU flags agree with satp, priv and mstatus |
| Mmu.CachedFlagsTranslate | src/arch/riscv/riscvarch.cpp:379-383 | after every sequence of instructions and traps, translation with the flags cached by updateEnv is the Sv39 walk or the identity that satp, the privilege level, MPRV and MPP call for at that moment |
| Mmu.TranslationDiffersIff | src/arch/riscv/riscvarch.cpp:93-189 | after every such sequence, for each access and page table: the simulator's translation differs from the manual's (canonical addresses, reserved bits, permissions in the MPRV mode, access faults) exactly if the access is translated and its walk ends in a device, or at a leaf otherwise in order that just one of the two admits |
| Mmu.DifferIff | src/arch/riscv/riscvarch.cpp:93-189 | the same for any environment whose flags agree with its registers |
| Mmu.AgreesWhereItMatters | src/arch/riscv/riscvarch.cpp:93-189 | hence they agree for canonical addresses, leaves without reserved bits, tables in memory and accesses whose mode has the rights of the current one |
| Mmu.HighAddressesPass | src/arch/riscv/riscvarch.cpp:135-153 | a fetch from 2^40, which is not canonical, goes through |
| Mmu.ReservedLeavesPass | src/arch/riscv/riscvarch.cpp:162-188 | so does one through a leaf with bits 61 to 63 set |
| Mmu.DeviceTablesFault | src/arch/riscv/riscvarch.cpp:153-156 | a table in a device is a page fault where the manual has an access fault |
| Mmu.SupervisorPagesPass | src/arch/riscv/riscvarch.cpp:93-117 | M-mode loading as a user by MPRV gets at a page that is not the user's |
| Privileged.RiscvArch.UpdateEnv | src/arch/riscv/riscvarch.cpp:205-377 | updateEnv takes the trap, return or completion the state calls for, gives the next pc, and leaves the flags agreeing; it gives up on unknown exceptions only; the state it leaves is pinned bit by bit in TrapState |
| UartProof.EveryRunReports | src/device/serial.cpp:134-162 | from reset with FCR clear, after every sequence of accesses IIR names the highest pending source, the line is raised exactly if there is one, the transmitter is idle, and with FIFOs on LSR.DR says whether the FIFO holds anything |
| UartRegisters.EveryReadReturns | src/device/serial.cpp:432-516 | from reset with FCR clear, after every sequence of accesses, what a read of each register but IIR returns is told from those accesses alone: the last LCR and SCR whole, five bits of MCR, four of IER, the divider bytes under DLAB; LSR with bits 5 and 6 set, bit 0 if the receive FIFO holds anything (without FIFOs, if a byte is unread), bit 1 if a byte found no room since LSR was read, bit 4 for a break; MSR from the modem lines and their changes, in loopback from MCR; register 0 the oldest byte received |
| UartRegisters.IirReturns | src/device/serial.cpp:134-162 | and IIR names the source of highest rank that the accesses call for, with the trigger levels 1, 4, 8 and 14; the line is raised exactly if there is one |
| UartRegisters.OverrunIffDropped | src/device/serial.cpp:563-585 | an arrival is reported as an overrun exactly if a byte is lost by it, but for a break while the FIFOs are off |
| UartRegisters.OverrunBitIsDropped | src/device/serial.cpp:484-491 | so bit 1 of LSR is set exactly if a byte was lost since LSR was last read, if no break came while the FIFOs were off |
| UartRegisters.BreakHidesLoss | src/device/serial.cpp:539-546 | a break with the FIFOs off takes the place of an unread byte and LSR does not say so |
| UartProof.HighestFirst | src/device/serial.cpp:134-162 | the cascade of tests picks the source of highest rank |
| UartProof.ResetInv | src/device/serial.cpp:587-623 | reset leaves the registers consistent exactly when FCR was clear |
| UartProof.NextKeeps | src/device/serial.cpp:288-516 | every register read and write, received byte, break, timeout and backend change keeps the invariant |
| UartProof.XmitKeeps | src/device/serial.cpp:188-238 | the transmit loop ends, sends everything loaded in order, and leaves the transmitter idle |
| UartProof.WriteThrSends | src/device/serial.cpp:288-314 | without loopback a byte written to register 0 is the byte sent |
| UartProof.LoopbackReceives | src/device/serial.cpp:216-220 | in loopback it is received instead |
| UartProof.ReceivedIsRead | src/device/serial.cpp:563-585 | up to sixteen bytes received with FIFOs on are read back in order without an overrun |
| UartProof.DrainTakesWhatFits | src/device/serial.cpp:698-717 | the input loop takes at most what fits, in order, without an overrun, and stops for want of room or of input |
| UartProof.DeltasRemember | src/device/serial.cpp:164-185 | since they were cleared, the CTS, DSR and DCD delta bits are set exactly if the input ever changed |
| UartProof.RingEdgeIsForgotten | src/device/serial.cpp:178-182 | the ring bit is set exactly if the latest change of any input was RI falling: an edge not yet read is lost by the next change |
| Serial.SerialState.IoportWrite | src/device/serial.cpp:288-430 | a register write changes registers, FIFOs and line as its function says |
| Serial.SerialState.IoportRead | src/device/serial.cpp:432-516 | a register read returns the value and has the side effects its function says; the values are told from the accesses in UartRegisters |
| Serial.SerialState.Xmit | src/device/serial.cpp:188-238 | the loop's assertions hold each time round |
| Serial.SerialState.CheckIo | src/device/serial.cpp:698-717 | the input loop over the bytes waiting |
| Serial.Session | src/device/serial.cpp:288-585 | the object after any sequence of accesses reports as above |
| Fifos.Fifo8.Push | src/device/fifo8.cpp:38-43 | push appends to the queue the ring stands for |
| Fifos.Fifo8.PushAll | src/device/fifo8.cpp:45-62 | so does copying in one or two pieces |
| Fifos.Fifo8.Pop | src/device/fifo8.cpp:64-73 | pop takes the first element |
| Fifos.Fifo8.PopBuf | src/device/fifo8.cpp:75-86 | the longest piece in one run, at most the number asked for, taken from the front |
| BranchHistory.LowBitsMatchIdeal | src/pred/history/ghr.cpp:7-21 | after any mix of speculation and rollbacks the low h bits are those of a machine that never mispredicts exactly when every outcome lost in between was not taken, and always while h outcomes are held |
| BranchHistory.NextHolds | src/pred/history/ghr.cpp:7-21 | each update keeps: the register holds the newest v outcomes, zero above, with v growing by one up to n and falling by k |
| BranchHistory.RollbackHolds | src/pred/history/ghr.cpp:10-15 | returning to a checkpoint k outcomes back, through a counter that wraps |
| BranchHistory.NeverThrows | src/pred/history/ghr.cpp:40-42 | reading the register as a number never throws exactly if it has at most 64 bits |
| GShare.HistoryMatchesIdeal | src/pred/bp/gshare.cpp:21-34 | where reading the registers does not throw, the history gshare hashes is the ideal one under the same condition; reading throws only where the ideal machine's register does too, and never with at most 64 bits |
| GShare.Recover | src/pred/history/ghr.cpp:7-38 | a checkpoint, any number of younger outcomes, and the redirect back to it: the older outcomes are in place again as far as the register still held them |
| GShare.CounterLearns | inc/common/common.h:164-177 | 2^bits equal outcomes make any counter predict that outcome, and no smaller number does |
| GShare.IndexInTable | src/pred/bp/gshare.cpp:21-34 | the index is inside a table of 2^k counters |
| GShare.SameCounterIff | src/pred/bp/gshare.cpp:24-26 | two lookups select the same counter exactly if at every bit of the index they differ in the pc where they differ in the history; bit i of the history goes with bit offset+i of the pc, which counts below the size of the table |
| GShare.GShareBP.Predict | src/pred/bp/gshare.cpp:21-34 | the prediction is the sign of the counter selected, and the record keeps what selected it |
| GShare.GShareBP.Update | src/pred/bp/gshare.cpp:36-50 | one counter is trained, saturating, and no other changes |
| GShare.GHR.Update | src/pred/history/ghr.cpp:7-21 | the register changes as the update function says |

## Left out

- DecodeTree.BuildTree: the bits accumulated along the path (outerbits) are not kept; they only reach comments in the emitted code.
- DecodeMasks.PropMasks: the file, line and undefmask fields and the comments made of the bits (str_match_bits) are not modelled; None stands for any error exit.
- Token parsing, variable-width decoding (build_size_tree), error texts and the other field kinds of decodetree.py.
- The bodies of the generated decoder and the CSR table.
- LogDb.LogDB.Close: the header and the metadata of the file are not modelled, nor whether a compressed frame fits its buffer.
- LogWait.CallIsLostIff: wake-ups come from the tasks alone; the spurious ones that the language allows, and that would rescue a lost call, are in LogProtocol but not here.
- LogProgress.WaitEnds: names one continuation; that every fair schedule gets there is not claimed.
- LogProtocol.EveryRunIsSafe: the memory is sequentially consistent and one statement is one step.
- PipelineSpec: instructions are values, so the reuse of ring entries while an old instruction is still in a later stage is not captured, nor is the capacity of the request rings; statistics and log records are left out.
- PipelineStream.EveryRunIsSequential: stated for steady programs; that this is needed in every schedule is not claimed, only that stale faults do commit without it (PipelineExamples). A decode has no side effects, interrupts may differ from one decode to the next, and an exit of the simulator ends the run.
- RiscvCpu.SimulatorIsSequential: the bodies of the instructions, the registers they name and their stores are arbitrary functions; nothing is said once the simulator gives up.
- FrontEnd.JointRunIsSequential: CPU cycles, cache ticks and refills come in any order; the data cache stays an input, and a flush of the instruction cache falls before the lookup of its cycle.
- The state of the predictors behind the pipeline (BTB, RAS, the loop from `update` to `predict`) is an oracle there; the base class's predict, which no configuration with this pipeline uses, is left out.
- CacheSpec: requests are values, and the parent never answers inside its own lookup; the identifiers that tie a request to a queue entry are replaced by numbers in order of acceptance. Tags are a sequence of rows, not separately allocated objects.
- CacheLines.HitsResidentLines: stated for runs whose outer redirects come only while no parent request is out; when one comes during a refill it can fail (RedirectBreaksTags), and the step that breaks uniqueness is named exactly (BreaksIff).
- That a request is answered at all: an abandoned refill can keep a cache from asking (OrphanedForever).
- Sizes that are not powers of two (line, set and table sizes).
- CacheDirty.DirtyIsWritten: stated for runs without redirects while a line is fetched or between a write and its mark; in those the mark can be missing (RedirectedWriteIsNotMarked) or the line under another tag (BreaksIff).
- PipelineProgress.FirstInstructionRetires: one instruction from an empty pipeline; a bound on the cycles of longer programs is not claimed. Memory and long operations are in PipelineMemory and PipelineRetire.
- PageWalk.TranslateAddr: entries are read as their bit fields; device accesses are the only reads that fail. The checks for canonical addresses and reserved leaf bits are absent in the code too (Mmu.TranslationDiffersIff).
- Privileged.RiscvArch.UpdateEnv: memory writes of completed instructions, the comparison with a reference simulator and the registers that play no part in traps are left out; interrupt numbers are below 31.
- Privileged: the CSR access functions.
- UartSpec: writes are single bytes; the wider write of the divider, the line parameters and the timing of timeouts are left out. The modem inputs are read from an uninitialised variable in the source and are arbitrary here.
- Serial.SerialState.CheckIo: a closed or failing connection aborts the simulator and is not modelled.
- WideArith.EstimateDiv128To64: stated for b at least 2^63, as its own comment requires.
- The square-root estimate, the left shifts, the unsticky right shift and the comparisons of the floating-point library.
- GShare.GShareBP.Predict: the bit masks of updateCounter are written as comparisons.
- Return-address stack, branch target buffer, memory models, devices other than the UART, statistics and configuration files.
