# Verification of the RISC-V simulators and the age-matrix dispatcher

A Dafny model of three parts of the repository, and proofs about them. `dafny verify dfyconfig.toml`
checks everything.

## What is modelled

**The out-of-order engine** (`sw/src/engine.c`, `rob.c`, `reg.c`, `unit.c`, `mem.c`): execution buffer, execution
units, common data bus, reorder buffer, register file and rename table. A cycle is commit, write-back, execute, issue
and dispatch, in that order.

- `Rob.dfy`, `RegFile.dfy`: the two components, as functions on their state and as classes over arrays.
- `Machine.dfy`: the five phases as functions on the state of the engine. `Engine.dfy`: the arrays updated in place by
  nested loops, each phase proved to compute the corresponding function.
- `InOrder.dfy`: the reference machine, decoded integer instructions one at a time (RISC-V Unprivileged ISA, sections
  2.1 and 2.4).
- `Invariant.dfy`: what ties a state to the program it has accepted. `CommitProof.dfy`, `WriteBackProof.dfy`,
  `IssueProof.dfy`, `DispatchProof.dfy`: every phase keeps it. `RoomProof.dfy`: when the execution buffer has room.
- `PhaseLaws.dfy`: what each phase does to every unit, lane, slot and entry, in terms of their fields alone.
- `Runs.dfy`, `Progress.dfy`, `RenameProof.dfy`, `Theorems.dfy`: whole runs.
- `Faults.dfy`, `ChainProof.dfy`, `LaneProof.dfy`, `StallProof.dfy`: programs on which a build goes wrong, for every size
  of machine, and what follows. `Cycles.dfy` has what they share. `Builds.dfy`: the sound builds are the only ones.

**The age-matrix dispatcher** (`hw/src/dispatcher.vhd`): `AgeMatrix.dfy` has the circuit and the list it should be,
`Dispatcher.dfy` its registers and processes.

**The debugger's breakpoints over the wrapping memory** (`sw/ELE749_projet1-develop/src/debugger.c`, `procState.c`;
`sw/src/mem.c` is the same memory with any size): `Memory.dfy`, `Breakpoints.dfy` and
`BreakpointLaws.dfy` (on values), `Debugger.dfy` (the linked list on the heap). EBREAK is that of the RISC-V Unprivileged ISA, section 2.8, C.EBREAK its compressed form.

## How to read the engine's theorems

The functions take a `Repairs` record with one flag for each line where the code leaves its intent. With all flags
false (`AS_WRITTEN`) they are the code as it stands; the flags change these lines and nothing else:

- `tagClear`, `reg.c:68-69`: a commit clears the dirty flag even when a younger instruction has renamed the register.
- `kToVk`, `engine.c:249`: an operand K found in the reorder buffer goes into `vj`.
- `capLanes`, `engine.c:392`: the loop runs to `nb_done`, not to the `nb_active_lanes` that lines 385-388 compute.

Two more points need no flag. `engine.c:262-278` has no case for a full execution buffer: the instruction is lost.
`engine.c:556-564` moves the program counter on when dispatch refused.

Each of the flagged points, and the full buffer, has a guard that reads only the state just before the phase
(`CommitGuard`, `OperandGuard`, `LanesSuffice`, `RoomGuard`). The invariant comes in three strengths (`Claim`), and each
survives exactly when the guards it depends on hold (`CommitExact`, `DispatchExact`):

- `Values`: registers, operands and results are those of program order. All four guards; a run that meets them in every
  cycle is `Clean`.
- `Places`: the work of every open slot is in exactly one place, and who waits for whom is right. Lanes and room: a run
  that meets these loses nothing (`Meets(Places, ...)`).
- `Tags`: that work is in at most one place, and dirty marks are right. Lanes only: every run that stays inside the
  lanes (`Steps(...).Some?`), of every build.

Every theorem is stated for every setting of the flags and every run of the kind it needs. Which builds need no luck:

- With `0 < exb_size` and `rob_size <= exb_size + 1` (`EnoughRoom`) no run of any program loses an instruction, and no
  other sizes have this property (`RoomExact`).
- With results capped, a lane for every unit, or a lane for every slot (`EnoughLanes`) no run leaves the lanes, and of
  the builds with room no other has this property (`LanesExact`, `TableLanesExact`).
- With both, and `tagClear` and `kToVk` unless there is but one slot (`SoundBuild`), every run of every program is clean
  (`SoundBuildIsClean`), and no other build has this property (`SoundBuildExact`, and `TableBuildExact` for unit.c with
  nothing more asked of the build).

The programs that show it need operations of certain latencies (`Latencies`), which unit.c has.

The shipped sizes, 8 and 64, are beyond the bound, and some program stops such an engine for good
(`ShippedConfigurationStalls`).

Programs (`Program`) consist of words the decoder can produce: an immediate form has no operation code above 7. The
programs on which a build goes wrong are such, and are built for whatever sizes the machine has. With the latencies of
unit.c they are made of additions, multiplications and an operation outside its tables; only a machine of three lanes
and too few entries gets a division, by whatever x2 holds.

The ALU is any total function of operation and operands, latencies are any function bounded by 19, and `junk` stands
for what an unset C variable holds; the theorems are for all of them. `Track` is bookkeeping for proofs: the accepted
program, how much of it is committed, where the work of each open slot is, and how much of all this is promised.

## Model

| member | source | states |
|---|---|---|
| Runs.Refinement | sw/src/engine.c:547-567 | After every cycle of every clean run from initialisation, the registers are what the in-order machine holds after the committed prefix of the accepted program, accepted minus committed is the number of open slots, and x0 is 0 |
| Runs.SoundBuildRefines | sw/src/engine.c:182-468 | On a sound build (room, lanes, and the operand and rename repairs unless there is one slot) the same holds for every input sequence whatever, with no condition on the run |
| Runs.SoundBuildIsClean | sw/src/engine.c:182-468 | Such a build meets every guard in every cycle of every run from any state satisfying the invariant |
| Runs.RunKeepsInv | sw/src/engine.c:547-567 | Each strength of the invariant (values; places and waiting; tags and renames) survives every run that meets the guards it depends on, and the accepted and committed programs grow by exactly what the run accepts and commits |
| Runs.CycleKeepsInv | sw/src/engine.c:547-567 | One cycle that meets the guards an invariant depends on keeps it, whatever is fetched and whatever unset variables hold |
| Runs.MeetsLess | sw/src/engine.c:547-567 | The guards of a stronger invariant are enough for a weaker one: a clean run loses nothing |
| Runs.NextTrackProgram | sw/src/engine.c:547-567 | A cycle extends the accepted program by the fetched instruction exactly when dispatch accepts it, and commits one instruction exactly when the head is done |
| Runs.ResultsInFlight | sw/src/engine.c:319-404 | On every clean run, every result in a unit, on a lane or done in the ring is the one program order gives the instruction owning that slot |
| Runs.InitialInv | sw/src/engine.c:515-544 | The state engine_init sets up, once no lane is valid, satisfies the invariant with an empty program |
| Runs.RunsWhatItFetched | sw/src/engine.c:556-564 | On every run of every build, the accepted program equals the fetched one if and only if at no point more fetched instructions are uncommitted than there are slots |
| Runs.ShortProgramsWhole | sw/src/engine.c:194-198 | On every run of every build, a program of no more instructions than there are free slots is accepted whole, at whatever pace it is fetched |
| Runs.CleanSteps | sw/src/engine.c:547-567 | A clean run is also a run in the sense that ignores guards, and accepts and commits the same |
| Runs.EnoughLanesSteps | sw/src/engine.c:384-404 | With results capped, a lane for every unit or a lane for every slot, no program ever leaves the lanes, whatever else the build gets wrong or loses |
| Runs.EnoughRoomSteps | sw/src/engine.c:262-278 | With rob_size at most exb_size + 1 every run that stays inside the lanes finds an entry for everything it accepts, wrong values or not |
| Runs.DoneCount | sw/src/engine.c:376-382 | In every state satisfying the invariant, finished units are no more than open slots |
| Builds.SoundBuildExact | sw/src/engine.c:182-468 | For any sizes, repairs and latencies, every run of every program meets every guard if and only if the build is sound: an entry and at most one slot more than entries; the cap, or a lane for every unit or every slot; both operand and rename repairs, or a single slot |
| Builds.TableBuildExact | sw/src/unit.c:33-65 | The same for the latencies of unit.c, with no condition on sizes and repairs |
| Builds.AsWrittenExact | sw/src/engine.c:547-567 | With those latencies the code as written meets every guard on every run of every program if and only if there is an entry and a single slot |
| Builds.UnsoundFails | sw/src/engine.c:182-468 | For every build that is not sound, a program that leads to a state in which the guard of the first missing condition fails: room at an accepted instruction, the rename at a commit, operand K at an accepted instruction, or the lanes at write-back |
| Builds.UncheckedExact | sw/src/reg.c:62-72 | A build that lacks only the tag check runs a program clean if and only if no instruction it commits, x0 apart, has its register written by one accepted before that commit |
| Builds.SkipsInstruction | sw/src/engine.c:556-564 | For every sound build there is a program with one instruction refused by a full ring, after which x4 is, however long one waits, not what running the fetched program in order gives |
| Builds.FullRing | sw/src/engine.c:194-195 | On every sound build, whatever its sizes, some program fills the ring and the next instruction is not accepted |
| Theorems.OperandsInFlight | sw/src/engine.c:206-258 | On every clean run, each ready operand of a busy entry is the value its instruction reads in program order, and each unready one names the slot of the youngest earlier writer of the register, whose work is still in the buffer or in a unit |
| Theorems.RenamesInFlight | sw/src/reg.c:62-95 | On every clean run, a register is dirty if and only if a live instruction writes it, and then its tag is the slot of the youngest such instruction |
| Theorems.ForwardingRedundant | sw/src/engine.c:447-466 | On every run of every build, the forwarding loop of commit with its early exits leaves the execution buffer as it is |
| Theorems.Conservation | sw/src/engine.c:182-468 | On every run of every build, what a busy entry, busy unit, valid lane or done ring entry holds is the work of an open slot, and no two hold the same; on every run that loses nothing each open slot's work is in one of them; with rob_size at most exb_size + 1 every run is such |
| Theorems.CommitsAgain | sw/src/engine.c:547-567 | From wherever a run that loses nothing leads with anything open, 23 * rob_size further cycles that lose nothing commit at least once, whatever is fetched meanwhile and whatever the values |
| Theorems.NothingStalls | sw/src/engine.c:547-567 | With room and lanes, the code as written included, no run leaves the lanes, any 23 * rob_size cycles with anything open commit at least once, and as many that fetch nothing empty the ring |
| Theorems.BoundedDrain | sw/src/engine.c:547-567 | After any clean run, 23 * rob_size cycles that fetch nothing empty the ring, and the registers are those of the whole accepted program run in order |
| Theorems.ConfigurationIndependence | sw/src/engine.c:291-436 | Two engines of any unit and lane counts, buffer sizes and latencies that start from the same registers, run clean and accept the same program hold the same registers after 23 * rob_size idle cycles each |
| Theorems.StrayLanesHarmless | sw/src/engine.c:162-178 | Lanes the allocator left make no difference as long as no valid one carries rob_size as its tag: the ring is not left, and the first cycle is the one from the state with no valid lane, which is a proper initial state |
| Theorems.StrayLanesExact | sw/src/rob.c:83-91 | The first write-back stays inside the ring if and only if no valid lane carries rob_size as its tag |
| Theorems.StrayTag | sw/src/engine.c:162-178 | On every ring of less than 256 slots there are lanes an allocator may leave with which it does not |
| Machine.TryDrainExact | sw/src/engine.c:364-366 | For any lanes and ring: the loop over rob_write as it stands stays inside the array if and only if none of its lanes carries the one tag that the test lets through, and then does what the model of write-back does |
| Theorems.ShippedLatencies | sw/src/unit.c:33-65 | The latency table satisfies the bound asked of a configuration |
| Progress.NoStarvation | sw/src/engine.c:291-335 | In every state with all open work in place and anything open, 23 * rob_size cycles that lose nothing commit at least once although issue picks by index and not by age |
| Progress.StalledCycleFalls | sw/src/engine.c:547-567 | A cycle that commits and loses nothing strictly lowers the total weight, free slots counted at 23, even when it accepts an instruction, whatever the values |
| Progress.IdleCycleFalls | sw/src/engine.c:547-567 | A cycle that fetches nothing strictly lowers the total weight of open slots while there is one |
| Progress.StalledRun | sw/src/engine.c:547-567 | A run with no commit is shorter than the weight it starts with |
| Progress.IdleRun | sw/src/engine.c:547-567 | An idle run as long as the work at its start ends with an empty ring |
| Progress.BackendFalls | sw/src/engine.c:291-436 | Write-back, execute and issue together never raise the weight and lower it unless the head is done or nothing is open |
| Progress.HeadReady | sw/src/engine.c:209-258 | The entry of the oldest open instruction waits for nothing |
| Progress.FirstDoneMoves | sw/src/engine.c:376-404 | When a unit has finished, one finished unit gets a lane, so some slot gets lighter |
| Progress.LaneDrains | sw/src/engine.c:364-374 | After one write-back the result of a valid lane is in the ring, in the slot the lane names, that slot is done, and its weight is less |
| Progress.HeadIssues | sw/src/engine.c:291-335 | With lanes and units idle and the head not done, the oldest instruction is ready in the buffer, and the ready entry of lowest index, not necessarily the oldest, is issued, so that its slot gets lighter |
| CommitProof.CommitKeepsInv | sw/src/engine.c:439-468 | A commit keeps the invariant, for values when guarded: the committed value is the one the in-order machine writes next |
| CommitProof.CommitExact | sw/src/engine.c:439-468 | A commit keeps the invariant of values if and only if its guard holds: the flag is tag-checked, or the head writes x0, or the register still awaits the committed slot; the weaker ones survive it always |
| CommitProof.CommitGuardMeaning | sw/src/reg.c:62-72 | For the code as written, the guard says that no younger instruction in flight writes the committed register |
| CommitProof.NobodyWaitsForHead | sw/src/engine.c:447-466 | While the head is done, no busy entry waits for its slot |
| CommitProof.CommitForwardRedundant | sw/src/engine.c:447-466 | In every state satisfying the invariant the forwarding loop of commit changes no entry |
| CommitProof.CommitAdvancesRegisters | sw/src/engine.c:443-445 | The register file after a commit is that of the in-order machine one instruction later, with or without repairs |
| WriteBackProof.WriteBackKeepsInv | sw/src/engine.c:359-436 | Lanes to ring, units to lanes and lanes to operands together keep the invariant, also when more units finish than there are lanes |
| WriteBackProof.DrainKeepsInv | sw/src/engine.c:364-374 | Any number of lanes emptied into the ring keeps the invariant |
| WriteBackProof.MoveKeepsInv | sw/src/engine.c:384-404 | Any number of finished units moved to free lanes keeps the invariant, operands then waiting for a lane |
| WriteBackProof.ForwardKeepsInv | sw/src/engine.c:406-433 | Afterwards no operand waits for a result that is on a lane: nobody misses its broadcast |
| WriteBackProof.ForwardedOperand | sw/src/engine.c:409-431 | A waiting operand takes the value of the first lane with its tag, which is the value program order gives it, and otherwise its producer is still in the buffer or a unit |
| PhaseLaws.WriteBackMoves | sw/src/engine.c:376-404 | A finished unit is freed if and only if fewer finished units come before it than there are lanes, and its result then is on the lane of that number; every other unit is unchanged, and every other lane empty; the loop stays inside the lanes if and only if it is capped or the finished units fit |
| PhaseLaws.WriteBackWastesNoLane | sw/src/engine.c:384-404 | A finished unit waits only when every lane is taken, and never while one of higher index is freed |
| PhaseLaws.WriteBackStores | sw/src/engine.c:364-374 | Each ring entry gets the result of the last valid lane with its tag and is done, or is as before when there is none; destinations, pointers and registers never change |
| PhaseLaws.WriteBackForwards | sw/src/engine.c:406-433 | Of a busy entry each operand that waits takes the result of the first valid lane with its tag; ready operands, operands without a lane and free entries are unchanged |
| PhaseLaws.ExecuteTicks | sw/src/engine.c:338-352 | A busy unit with cycles left has one less, everything else is as before |
| PhaseLaws.IssuePairs | sw/src/engine.c:291-335 | A ready entry issues if and only if fewer ready entries come before it than there are free units, into the free unit of the same rank, which starts on its operation, operands and slot; every other entry and unit is unchanged |
| PhaseLaws.IssueWastesNoUnit | sw/src/engine.c:291-335 | A ready entry stays only when every unit is busy, and never while one of higher index issues |
| PhaseLaws.CommitServesFirst | sw/src/engine.c:447-466 | On any state, reached or not, a commit serves the first operand that waits for its slot, J before K, and changes no other |
| PhaseLaws.DispatchPlaces | sw/src/engine.c:260-278 | An accepted instruction takes the free entry of lowest index and renames its register to its slot; no other entry, rename or value changes |
| PhaseLaws.EntryReads | sw/src/engine.c:206-258 | An operand of a new entry is the register when that is clean, else the result of the first valid lane with its tag, else what the ring has, ready or not; as written a K in the ring goes where J's value belongs and its own place stays unset |
| PhaseLaws.DispatchReads | sw/src/engine.c:194-278 | The entry is made with the slot open and the destination not yet renamed |
| IssueProof.ExecuteKeepsInv | sw/src/engine.c:338-352 | Counting down the units keeps the invariant |
| IssueProof.IssueManyKeepsInv | sw/src/engine.c:317-332 | Any pairing of distinct ready entries with distinct free units keeps the invariant, not only the first ones |
| IssueProof.IssueKeepsInv | sw/src/engine.c:291-335 | Issue as written keeps the invariant |
| IssueProof.WaitsForOlder | sw/src/engine.c:206-258 | A waiting entry waits for an older instruction whose work is in the buffer or in a unit, so waiting is acyclic |
| IssueProof.WaitingEnds | sw/src/engine.c:206-258 | Following producers from any busy entry ends at a busy unit or a ready entry |
| IssueProof.BusyBufferBusyUnit | sw/src/engine.c:291-335 | After issue, a busy entry means that some unit executes |
| DispatchProof.DispatchKeepsInv | sw/src/engine.c:182-284 | A guarded dispatch keeps the invariant: the new entry has the operands program order gives it, or the right tags; without the operand guard it keeps all but values, without an entry all but the work it loses |
| DispatchProof.DispatchExact | sw/src/engine.c:182-284 | For all contents of unset variables dispatch keeps the invariant, if and only if what that depends on holds: for places a free entry, for values also that operand K survives line 249 |
| DispatchProof.FoundOperand | sw/src/engine.c:209-223 | Register file, then lanes, then ring: what is found is the value in program order, and a tag otherwise is that of the youngest earlier writer |
| DispatchProof.LostInstruction | sw/src/engine.c:262-278 | With no entry free an accepted instruction leaves an open slot whose work is nowhere: no bookkeeping satisfies the invariant |
| StallProof.LostStalls | sw/src/engine.c:262-278 | After a lost instruction, whatever is fetched from then on, its slot never becomes done and at most what is ahead of it commits |
| StallProof.StuckForever | sw/src/engine.c:547-567 | A slot that is open, not done and held by no entry, unit or lane stays so on every run, and commits never pass it |
| ChainProof.ChainLoses | sw/src/engine.c:262-278 | For every build with no entry, or two slots more than entries, and any operation of at least three cycles: some program reaches an accepted instruction with no entry free |
| ChainProof.ChainStalls | sw/src/engine.c:262-278 | And with one more instruction the engine stops committing for good |
| ChainProof.ShippedConfigurationStalls | sw/src/main.c:23-31 | 8 entries, 64 slots, 2 units, 1 lane and the latencies of unit.c are such a case, in the code as written and with any repairs |
| ChainProof.RoomExact | sw/src/engine.c:262-278 | For every setting of the repairs and all sizes, given an operation of 3 cycles: no program that stays inside the lanes loses an instruction if and only if there is an entry and rob_size is at most exb_size + 1 |
| ChainProof.ChainFills | sw/src/engine.c:182-468 | A chain of instructions, each waiting for the one before, gets as long as asked on every machine, or fills the buffer |
| ChainProof.Turn | sw/src/engine.c:359-436 | When a link of the chain finishes, the next one issues at once, the finished one retires two cycles later, and a new one takes the freed entry and slot: the chain is as long as before |
| LaneProof.LanesExact | sw/src/engine.c:384-404 | The loop as written never leaves the lanes, whatever program is fetched and whatever the other repairs, if and only if there is a lane for every unit or for every slot; for any number of lanes, and any latencies of 3 cycles and more (one of them 4 less where all slots have to be in flight) |
| LaneProof.TableLanesExact | sw/src/unit.c:33-65 | The same for the latencies of unit.c |
| LaneProof.CrowdStacks | sw/src/engine.c:317-332 | From a fresh start, for any k with k entries, k units and k + 1 slots, some program brings k instructions of one operation into units with equally long to go, and nothing else is open |
| LaneProof.CrowdOverflow | sw/src/engine.c:384-404 | Hence more units and slots than lanes, and an entry more than lanes or a buffer that loses nothing, are enough for some program to leave the lanes |
| LaneProof.LanesOverflow | sw/src/engine.c:384-404 | Already with one entry, operations of falling latency, each fetched when the others have just as much left, finish together and overflow any number of lanes smaller than theirs, given the units and slots |
| DispatchProof.WrongEntry | sw/src/engine.c:249-251 | When the guard of line 249 fails, some content of an unset variable makes a ready operand differ from program order |
| DispatchProof.DispatchKeepsRename | sw/src/engine.c:260 | Renaming the destination keeps the rename table right for every register |
| RoomProof.RoomAfterIssue | sw/src/engine.c:262-278 | With rob_size at most exb_size + 1, an instruction the ring accepts finds a free entry |
| RoomProof.FullBufferCount | sw/src/engine.c:262-278 | A full buffer next to a busy unit means at least exb_size + 1 open slots |
| RenameProof.MarksOnEveryRun | sw/src/reg.c:62-95 | For every build, the code as written included, and every run, guarded or not: a dirty register awaits the slot of its youngest live writer, in the program extended by exactly what the run accepts, of which exactly what it commits is committed |
| RenameProof.MarksFromStart | sw/src/reg.c:62-95 | The same from initialisation, for the program the run accepts |
| RenameProof.StaleRead | sw/src/reg.c:68-69 | After a commit whose guard fails, an instruction dispatched in the same cycle that reads the register gets the committed value as a ready operand, where program order has the result of a younger writer |
| RenameProof.MarkLost | sw/src/reg.c:68-69 | Such a commit leaves the register clean although a younger live instruction writes it |
| Faults.OverwriteFails | sw/src/reg.c:62-72 | Without the tag check, on every machine with an entry, two slots and one-cycle additions and for any initial registers: x1 := 5; x1 := 7; x2 := x1 ends with 5 in x2, where program order gives 7; the guard of the first commit is the one that fails |
| Faults.StrayFails | sw/src/engine.c:249-251 | Without the repair of line 249, on every such machine: x1 := 5; x2 := x0 + x1 ends with 5 plus the content of an unset variable in x2, where program order gives 5; the guard of the second dispatch is the one that fails |
| ReorderBuffer.RetiresInIssueOrder | sw/src/rob.c:59-123 | For any mix of issues, writes and commits from empty, over any number of wraparounds: entries retire in the order of issue, each done and with the value last written to its slot since it was opened; issue_ptr is commit_ptr + cnt modulo the size; nothing is lost |
| ReorderBuffer.RunKeepsFifo | sw/src/rob.c:59-123 | From any point of a run on, retired entries followed by the open ones are the accepted ones in order, each with the value last written to it or not done |
| ReorderBuffer.IssueAppends | sw/src/rob.c:59-79 | An issue appends one entry to the queue, or changes nothing when the ring is full |
| ReorderBuffer.PopRemovesFirst | sw/src/rob.c:105-123 | A commit removes the oldest entry exactly when it is done |
| ReorderBuffer.PopDistance | sw/src/rob.c:105-123 | A commit closes one slot, and every slot that stays open moves one place up |
| ReorderBuffer.WriteTouchesOwnEntry | sw/src/rob.c:83-91 | A write changes its own entry of the queue, and none when the slot is not open |
| ReorderBuffer.LiveTagsDistinct | sw/src/rob.c:59-79 | Two open slots never have the same age |
| ReorderBuffer.TagsDistinctExact | sw/src/rob.c:59-79 | Slot numbers stay distinct in a uint8_t if and only if there are at most 256 of them |
| ReorderBuffer.Rob.constructor | sw/src/rob.c:32-47 | A new ring is empty and satisfies its invariant whatever the allocator left in it |
| ReorderBuffer.Rob.IssueSlot | sw/src/rob.c:59-79 | In place, the ring becomes the specified one; the caller gets the slot, or a refusal exactly when the ring is full |
| ReorderBuffer.Rob.WriteResult | sw/src/rob.c:83-91 | In place, the specified write; refused for an address past the ring, and reported as outside exactly for the address equal to the size, which the source lets through |
| ReorderBuffer.Rob.ReadResult | sw/src/rob.c:94-101 | The data is returned even when it is not done, the caller's variable stays as it was past the ring, and the address equal to the size is reported as outside |
| ReorderBuffer.Rob.Commit | sw/src/rob.c:105-123 | In place, the specified commit, with the retired entry and its slot |
| ReorderBuffer.Rob.IsFull | sw/src/rob.c:132-137 | Full exactly when every slot is open |
| RegisterFile.RegFile.constructor | sw/src/reg.c:11-30 | Nothing is dirty and x0 is 0; the other values are arbitrary |
| RegisterFile.RegFile.ReadValue | sw/src/reg.c:51-59 | The value, or the caller's variable untouched for a register that is not there |
| RegisterFile.RegFile.WriteValue | sw/src/reg.c:62-72 | Value and dirty flag change as specified, with or without the tag check; x0 and registers that are not there are refused |
| RegisterFile.RegFile.ReadTag | sw/src/reg.c:75-82 | The dirty flag, and the tag |
| RegisterFile.RegFile.WriteTag | sw/src/reg.c:85-95 | A rename sets tag and dirty flag of its register alone; x0 is refused |
| Unit.AluGetCycle | sw/src/unit.c:33-65 | 19 cycles exactly for divisions and remainders (0x00C to 0x00F), 4 exactly for multiplications (0x008 to 0x00B), 1 exactly for the eight base operations, SUB (0x200) and SRA (0x205), and otherwise 0 |
| EngineUnit.Engine.constructor | sw/src/engine.c:515-544 | The arrays engine_init allocates are a booted engine, lanes and values arbitrary |
| EngineUnit.Engine.RunCycle | sw/src/engine.c:547-567 | One call stays inside ring and lanes if and only if no lane carries rob_size as its tag and the results fit the lanes; then it updates all arrays in place to the specified next state, moves the program counter by 4 modulo 2^32 even when dispatch refused, and keeps each strength of the invariant whose guards hold |
| EngineUnit.Engine.RunProgram | sw/src/engine.c:547-567 | Any number of calls on a sound build, from engine_init with lanes as the allocator left them: the arrays are left if and only if some lane carries rob_size as its tag, in the first call; otherwise the registers are what the in-order machine holds after the committed part of what was accepted of the program memory from the program counter on |
| EngineUnit.Engine.CommitPhase | sw/src/engine.c:439-468 | The loops with their early exits compute the commit function, and touch neither units nor lanes |
| EngineUnit.Engine.ForwardCommitted | sw/src/engine.c:447-466 | Only the first waiting operand found is served |
| EngineUnit.Engine.WriteBackPhase | sw/src/engine.c:359-436 | The five loops compute the write-back function, or report that a write leaves the ring or the last loop the lanes, exactly when it does |
| EngineUnit.Engine.StoreLanes | sw/src/engine.c:364-374 | Valid lanes are written to the ring in order of index, later ones over earlier ones, and then none is valid; a write outside the ring is reported exactly when rob_write as it stands makes one |
| EngineUnit.Engine.MoveDone | sw/src/engine.c:392-404 | The first finished units fill the lanes of the same index and become free; reported when they are more than the lanes |
| EngineUnit.Engine.ForwardLanes | sw/src/engine.c:406-433 | Every waiting operand takes the first valid lane with its tag |
| EngineUnit.Engine.ExecutePhase | sw/src/engine.c:338-352 | Busy units with cycles left lose one |
| EngineUnit.Engine.IssuePhase | sw/src/engine.c:291-335 | The k-th ready entry goes to the k-th free unit, for as many pairs as there are |
| EngineUnit.Engine.DispatchPhase | sw/src/engine.c:182-284 | The slot, the operands, the rename and the entry, as specified; refused exactly for the zero word or a full ring |
| EngineUnit.Engine.FetchOperand | sw/src/engine.c:209-223 | Register file if clean, else the first valid lane with the tag, else the ring if done |
| AgeMatrix.ClockExact | hw/src/dispatcher.vhd:80-194 | One clock of the circuit is one step of the list if and only if a read finds a masked address held and a written address is not held unless it is the one read |
| AgeMatrix.ClockRefines | hw/src/dispatcher.vhd:80-194 | Under that guard the matrix after the clock represents the list after the step: read removes the first masked address, write appends, both together do both; the write column is one-hot at the length |
| AgeMatrix.ClockAnyway | hw/src/dispatcher.vhd:80-194 | What one clock does with the guard or without: a read that finds no masked address held removes nothing and still moves the write column, and a written address that is held gets a second age |
| AgeMatrix.ReadsOldest | hw/src/dispatcher.vhd:152-201 | The output is the first masked address of the list; with none masked it is the first of all, and 'X' only when empty |
| AgeMatrix.RunRefines | hw/src/dispatcher.vhd:80-194 | After any number of guarded clocks, resets included, the circuit represents the list |
| AgeMatrix.OldestFirst | hw/src/dispatcher.vhd:152-201 | On every guarded run the output is, among the held addresses the mask allows (or all of them if it allows none), the one whose last write came first; it is missing only when nothing is held |
| AgeMatrix.ListInWriteOrder | hw/src/dispatcher.vhd:99-149 | On every guarded run the list is in order of last writes, through removals from its middle |
| AgeMatrix.TakenInOrder | hw/src/dispatcher.vhd:152-201 | Of two addresses that stay held, the later written is never taken while the earlier is masked, whatever else comes and goes |
| AgeMatrix.StaysUnwritten | hw/src/dispatcher.vhd:99-149 | An address that is not taken stays, and its time of writing does not change |
| AgeMatrix.LeavesOnlyWhenRead | hw/src/dispatcher.vhd:80-194 | An address leaves only by a reset or by being shown on a read |
| AgeMatrix.ShiftEnable | hw/src/dispatcher.vhd:178-194 | The running or: on a read every column from the first masked one on shifts |
| AgeMatrix.ColMaskMeaning | hw/src/dispatcher.vhd:152-166 | A column is masked if and only if the address at that age is held and masked |
| AgeMatrix.OneHotDecode | hw/pkg/common/fnct.vhd:142-171 | An index exactly when one bit is set, and then that bit's |
| DispatcherUnit.Dispatcher.constructor | hw/src/dispatcher.vhd:80-149 | The reset registers represent the empty list |
| DispatcherUnit.Dispatcher.Clock | hw/src/dispatcher.vhd:54-205 | The processes compute the specified next registers from the old ones, and the output from the registers before the edge |
| DispatcherUnit.Dispatcher.NextAge | hw/src/dispatcher.vhd:99-127 | Every cell's next value |
| DispatcherUnit.Dispatcher.ShiftEncoder | hw/src/dispatcher.vhd:178-194 | The loop over the columns computes the running or |
| DispatcherUnit.Dispatcher.ColumnMask | hw/src/dispatcher.vhd:152-166 | The nested loops compute the masked or of every column |
| DispatcherUnit.Dispatcher.ShiftWriteColumn | hw/src/dispatcher.vhd:80-96 | Left on a write, right on a read, unchanged on both or neither |
| WrappingMemory.RoundTripExact | sw/src/mem.c:25-61 | Reading gives back what was written, for every content and data, if and only if the access is no longer than the memory and either does not pass 2^32, or the size divides 2^32, or the access is no longer than 2^32 modulo the size |
| WrappingMemory.InjectiveExact | sw/src/mem.c:25-61 | That is also exactly when no two bytes of the access meet |
| WrappingMemory.ReadBack | sw/src/mem.c:25-61 | Then the bytes come back and every byte outside the wrapped range is unchanged |
| WrappingMemory.WrapsAt32Bits | sw/src/mem.c:25-42 | The byte after address 0xFFFFFFFF is the first of the memory, and both are reduced to its size |
| WrappingMemory.StoredAt | sw/src/mem.c:25-42 | Of bytes that meet, the last one stays |
| WrappingMemory.HostOrderInvisible | sw/src/mem.c:31-61 | A value stored by a host of either byte order leaves the same memory, and a host of either order loads it back in its own order |
| WrappingMemory.Memory.Store | sw/ELE749_projet1-develop/src/procState.c:85-106 | The byte loops write the specified memory in place, for both host orders |
| WrappingMemory.Memory.Load | sw/ELE749_projet1-develop/src/procState.c:111-133 | The byte loops fill the caller's buffer with the bytes of the wrapped range and nothing past it |
| Breakpoints.OverlayFromStart | sw/ELE749_projet1-develop/src/debugger.c:204-449 | After any breaks on free bytes, deletes, enables and disables, memory is the original overlaid with EBREAK or C.EBREAK exactly on the enabled nodes, and every node saves the original instruction |
| Breakpoints.RunKeepsOverlay | sw/ELE749_projet1-develop/src/debugger.c:204-449 | The same from any such state |
| Breakpoints.DeleteAllUndoes | sw/ELE749_projet1-develop/src/debugger.c:334-347 | After any commands, the bulk ones included, deleting all restores the original memory and empties the list |
| Breakpoints.DeleteAllRestores | sw/ELE749_projet1-develop/src/debugger.c:334-347 | Whatever the flags and whatever lies on the covered bytes |
| Breakpoints.RunKeepsList | sw/ELE749_projet1-develop/src/debugger.c:204-449 | After any commands the nodes cover disjoint bytes, save original instructions, and no other byte has changed |
| Breakpoints.BreakExact | sw/ELE749_projet1-develop/src/debugger.c:608-656 | A break keeps those promises if and only if it is refused or its bytes are apart from those of every node |
| Breakpoints.OverlapExact | sw/ELE749_projet1-develop/src/debugger.c:608-656 | With any breakpoints set, any further break that is accepted: deleting all then restores the original memory if and only if, on every byte shared with an enabled breakpoint, the original had the very byte of its break |
| Breakpoints.OverlapRestores | sw/ELE749_projet1-develop/src/debugger.c:334-347 | With any list and any flags: if and only if what the new break saved was original |
| Breakpoints.BulkExact | sw/ELE749_projet1-develop/src/debugger.c:357-420 | Enabling or disabling all, which changes flags and no memory, keeps the overlay if and only if every node already has the flag or saves the break instruction itself |
| Breakpoints.BulkFails | sw/ELE749_projet1-develop/src/debugger.c:357-369 | After one break and "disable all" the node is disabled and memory still has the break, unless the instruction was that break |
| Breakpoints.DuplicateExact | sw/ELE749_projet1-develop/src/debugger.c:608-656 | Two breaks and two deletes at an address without breakpoint leave memory and list as they were if and only if the instruction there is not saved as zero, which looks like no breakpoint |
| Breakpoints.ZeroedMemoryKeepsBreak | sw/ELE749_projet1-develop/src/debugger.c:608-656 | On a zero half-word they leave a C.EBREAK in memory, whatever other breakpoints there are |
| Breakpoints.ApartExact | sw/ELE749_projet1-develop/src/debugger.c:204-223 | The test on two addresses around the memory means that no byte belongs to both nodes |
| Breakpoints.NewNodeSaves | sw/ELE749_projet1-develop/src/debugger.c:627-645 | A new node saves exactly the bytes that its patch covers, two or four |
| BreakpointLaws.BreakAdds | sw/ELE749_projet1-develop/src/debugger.c:608-656 | A break is accepted exactly at an even address of the 16 MB unless the first node there has a nonzero saved instruction; it appends an enabled node of length 4 exactly when the byte there ends in binary 11, else 2, with that many bytes saved, and memory then has 73 00 10 00 or 02 90 on those bytes and is otherwise unchanged |
| BreakpointLaws.DisableSwitches | sw/ELE749_projet1-develop/src/debugger.c:381-398 | After a disable the first node at the address is not enabled and memory is original on the bytes it covers; its place, address, saved instruction and length, every other node and every other byte are unchanged |
| BreakpointLaws.EnableSwitches | sw/ELE749_projet1-develop/src/debugger.c:432-449 | After an enable it is enabled and memory has the bytes of the break instruction there; the rest is unchanged |
| BreakpointLaws.SwitchOnRuns | sw/ELE749_projet1-develop/src/debugger.c:204-449 | Both, for every node after any breaks on free bytes, deletes, enables and disables from a fresh start |
| BreakpointLaws.DeleteRemoves | sw/ELE749_projet1-develop/src/debugger.c:297-327 | A delete takes the first node at the address out of the list, the others keep their order, and memory is original on its bytes and unchanged elsewhere |
| BreakpointLaws.AbsentUnchanged | sw/ELE749_projet1-develop/src/debugger.c:297-449 | Disable, enable and delete do nothing without a node at the address |
| BreakpointLaws.LookupGivesOriginal | sw/ELE749_projet1-develop/src/debugger.c:275-286 | The saved instruction looked up for an address with a node is the original one, byte for byte and of its length; without a node it is 0 |
| BreakpointLaws.LookupOnRuns | sw/ELE749_projet1-develop/src/debugger.c:275-286 | The same after any commands from a fresh start, the bulk ones included |
| DebuggerUnit.Debugger.BreakCmd | sw/ELE749_projet1-develop/src/debugger.c:608-656 | List and memory become the specified ones and the list stays acyclic; refused exactly for a bad address or a nonzero saved instruction |
| DebuggerUnit.Debugger.CreateNode | sw/ELE749_projet1-develop/src/debugger.c:204-223 | A fresh unlinked enabled node with the word in memory |
| DebuggerUnit.Debugger.Append | sw/ELE749_projet1-develop/src/debugger.c:253-266 | The node is last, and the others are as they were |
| DebuggerUnit.Debugger.SavedInstruction | sw/ELE749_projet1-develop/src/debugger.c:275-286 | The walk along the list finds the specified instruction: the first node's, or 0 |
| DebuggerUnit.Debugger.Remove | sw/ELE749_projet1-develop/src/debugger.c:297-327 | The first node at the address leaves the list and its instruction returns to memory; the pointer updates keep the rest in order |
| DebuggerUnit.Debugger.RemoveAll | sw/ELE749_projet1-develop/src/debugger.c:334-347 | Every saved instruction returns to memory in list order and the list is empty |
| DebuggerUnit.Debugger.Disable | sw/ELE749_projet1-develop/src/debugger.c:381-398 | The first node at the address is disabled and its instruction returns to memory, with the three return codes |
| DebuggerUnit.Debugger.Enable | sw/ELE749_projet1-develop/src/debugger.c:432-449 | The first node at the address is enabled and patched again, with the three return codes |
| DebuggerUnit.Debugger.FlagAll | sw/ELE749_projet1-develop/src/debugger.c:357-420 | Every flag is set, memory is not touched |

## Where code and intent differ

- The three flagged lines, the missing case for a full execution buffer and the refused dispatch are described above.
- `rob.c:84` and `rob.c:95` compare with `>`, so the address equal to the size passes the test and leaves the array. A
  stray lane can carry it into the first write-back (`StrayLanesExact`, `StrayTag`); nothing else can.
- `debugger.c:350-352` and `debugger.c:401-403` say that the bulk commands patch memory; the code changes flags only.
- `debugger.c:622` takes a saved zero for "no breakpoint" (`DuplicateExact`, `ZeroedMemoryKeepsBreak`).
- `debugger.c:377` says that 0 means "already enabled"; the code returns 0 when it is already disabled.
- The comment at `dispatcher.vhd:164` suspects the conversion from mask to age priority; under the guard it is right
  (`ReadsOldest`). With no held address masked the output is not invalid but the oldest address of all, and a read then
  moves the write column without removing anything, which is why the guard excludes it.

## Left out

- LaneProof.LanesExact: asks for more entries than lanes or a buffer that loses nothing; with fewer of both, how many results can meet depends on the latencies, and only `LanesOverflow` applies.
- LaneProof.TableLanesExact: has the same limit past three lanes.
- Builds.SoundBuildExact: `slow`, `quick` and one-cycle additions are what the programs need of the latencies; unit.c has them.
- EngineUnit.Engine.RunCycle: once a write or read leaves an array, nothing is said of what the source does next; the method reports it and stops.
- ReorderBuffer.Rob.WriteResult: the same for the address equal to the size.
- ReorderBuffer.Rob.ReadResult: the same.
- WrappingMemory.Memory.Store: asks for fewer than 2^32 bytes, past which the source's 32-bit loop counter never reaches its bound; the return value is not narrowed to `int`.
- WrappingMemory.Memory.Load: the same.
- The `dirty` field of entries, `buf_cnt`, `capabilities` and `nb_active_lanes` after write-back: nothing reads them.
- `alu_exec`: any total function stands for it; its undefined cases (division by zero, shifts of 32 and more) are not given values.
- Decoding and its bit fields: instructions arrive decoded, and program memory is a function from the program counter to them.
- Loads, stores, branches, jumps, LUI, AUIPC and SYSTEM, `lsu.c` and the BRU: dispatch accepts them but no unit gives them a meaning yet.
- `rob_flush`: nothing calls it.
- The main loop, loading a program, command-line parsing, printing and Unity tests.
- Allocation failure, `free` and null pointers, in all parts.
- Buffers that alias the memory they are copied to or from.
- `arbiter.vhd`, `bru.vhd`, `sys.vhd`, `core.vhd`, `decompress.vhd` and everything under `hw/archive`.
- Metavalues on the dispatcher's inputs, and matrix sizes that are not powers of two are allowed although the source has none.
- A big-endian host for the debugger: its saved words are patched two bytes at a time from a 32-bit variable, which only a little-endian host orders as meant.
- Stores of the program being debugged to the bytes of a breakpoint, and `step`, `continue` and the return to a saved instruction in the simulator loop.
- The RV32EC interpreter and disassembler.
