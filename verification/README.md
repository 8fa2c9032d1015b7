# Verification of the BPF verifier's models

This project models two parts of a tool that checks BPF bytecode, and proves properties of the models.

- **The abstract interpreter** (`src/kverify`). It explores a program depth first over abstract states: each register
  has a type, a tracked number (known bits and unknown bits) and signed and unsigned 64-bit ranges; the 512-byte stack
  frame has a written-byte map and spilled registers. It prunes states that an explored one subsumes and widens at loop
  heads. `Checker.CheckWithRelocs` is the exploration as a method over mutable register files, frames and explored
  lists; its contract equates its result and its visits with the exploration defined as a function of the program
  (`DepthFirst.Explore`), and says what a finished exploration establishes. Everything claimed about accepted programs
  starts from there: definite assignment, initialised stack reads, value coverage, null safety, where
  pointers point, where they are stored.
- **The executable semantics** (`fstar/obj`) with its plain, guard-skipping, schedule-driven and chunked executors, the
  one-pass stack-bounds checker, and the checker's mutable twin (`src/analysis/stack_bounds.rs`). The checker is proved
  sound for the executor, the executors are related to each other, and the twin is proved to decide the same as the
  checker. Basic-block cutting (`src/bpf/basic_block.rs`) is covered too.

## How it is organised

| files | content |
|---|---|
| `Words`, `Addition`, `LowHalves`, `Shifts`, `Addresses`, `Wrappers` | 64-bit patterns, their unsigned and signed readings, carries, low halves, shifts, offsets of addresses |
| `Tnums`, `TnumProofs`, `TnumTightness`, `ShiftTightness`, `TnumSubtraction`, `TnumWellFormed`, `SumSigns` | tracked numbers |
| `RegStates`, `RegStateProofs`, `WideningProofs` | register states: reduction, order, widening |
| `Instructions`, `HelperTable`, `ControlFlow`, `AbstractStates` | programs, branch targets, loop heads, frames |
| `Transfer` | the effect of each instruction, as functions |
| `VerifierObjects`, `InstructionChecks`, `Checker` | the mutable register file and frame, the checks, the exploration |
| `Certificates`, `Sanity`, `Exploration`, `DepthFirst` | the exploration as a function, its invariant, and what it establishes when it ends |
| `OperandChecks`, `MemoryChecks`, `CallChecks`, `BranchChecks` | exactly what single checks reject, and what passing instructions leave |
| `DefiniteAssignment`, `StackInitialisation`, `StackReads` | theorems about paths and runs of accepted programs: registers assigned, stack bytes written |
| `Machine`, `AluSoundness`, `OffsetForms`, `BranchSoundness`, `BranchExactness`, `ValueSoundness`, `ScalarPrograms` | concrete values (RFC 9669, sections 4.1 to 4.3) against the abstract ones |
| `NullRuns`, `NullClaims`, `NullSafety`, `KernelPointers` | null results of calls, in registers and in memory by address |
| `AddressClaims`, `PointerAddresses`, `SpilledPointers`, `PrivateFrames` | the addresses behind pointer types, in registers and spilled; accesses inside the frame, the context and regions; where pointers are stored; stores that stay out of the frame |
| `AcceptedPrograms`, `MixedWidening`, `SpilledNull`, `OverwrittenSlot`, `StoredNull`, `WalkingPointer`, `MovedPointer` | accepted programs at the limits of these theorems, with the visits the checker makes and runs that leave them |
| `ObjState`, `ObjHelpers`, `ObjSemantics`, `ObjArithmetic`, `ObjSafeExecutor`, `ObjPathExecutor` | the executable semantics, its arithmetic against RFC 9669, and its executors |
| `ObjStackBounds`, `ObjStackBoundsProofs`, `ObjStackBoundsExact`, `StackBoundsAnalysis` | the stack-bounds checker, its soundness, exactly what it decides, its mutable twin |
| `BasicBlocks` | leaders and blocks |

Words are `bv64` used only bit by bit; ranges are integers with the bounds of `u64` and `i64`, and the two are tied by
`Words.U`, `Words.S` and `Words.B`. Additions and negations of pointer offsets wrap as `i64` (`Words.WrapI64`), which is
what a release build does. Lemma bodies hide the definitions they do not need; that keeps each proof small.

## What was found

The code is modelled as it is. Where a property fails, the project states exactly when it holds, with an instance of
the failure. The programs named below are accepted: the exploration of each is followed round by round to a report
without errors.

- Subtraction of tracked numbers covers all differences exactly when its mask also covers the bits on which the
  largest and the smallest difference disagree (`SubExact`); 0 minus one unknown bit is an instance of the failure.
- The signed bounds of 64-bit arithmetic are read off the tracked number, which is right exactly when the operands fix
  the result's sign bit (`Alu64Exact`; for sums, when smallest and largest lie in the same half, `SumSignExact`); otherwise the state stands for no value at all, though the tracked number and
  the unsigned bounds stay right (`UnsignedSound`). All runs of `ClockProgram` leave the visited states
  (`AcceptedButUncovered`).
- 32-bit division, modulus and arithmetic right shift of known operands work on all 64 bits. They are right exactly when
  the low half of the quotient or remainder is that of the low halves, or the bits shifted in are copies of the low
  half's sign (`Alu32Exact`, with `Div32Wrong`, `Mod32Wrong` and `Arsh32Wrong`).
- A 32-bit register move keeps the lower bounds of its source. It is right for all states with given unsigned bounds
  exactly when the upper one is below 2^32 (`MoveExact`), or, when nothing is known of the signed value, also when the
  lower one is zero (`UnsignedMoveExact`, `Move32Wrong`).
- The decoder drops the offset of arithmetic instructions, so a sign-extending move is taken for a copy and a signed
  division or modulus for an unsigned one. Each form is right exactly under its condition, in 64 bits
  (`SignExtendingMoveExact`, `SignedDivisionExact`, `SignedModulusExact`) and in 32 (`SignExtendingMove32Exact`,
  `SignedDivision32Exact`, `SignedNumbers32Exact`); `AcceptedButExtended` and `SignedModulusWrong` are failures. The
  distance of a 32-bit unconditional jump is taken from the offset instead of the immediate (`LongJumpExact`,
  `AcceptedButElsewhere`).
- Signed 32-bit branch refinement is right exactly for a `umax` up to 0x7FFF_FFFF or above 0xFFFF_FFFF
  (`Signed32Exact`).
- The comment on `VerifierState::widen` (`src/kverify/state.rs:530-531`) promises an over-approximation of both
  operands; where types differ the code keeps the left operand. That over-approximates exactly when the left operand is
  no scalar with bounds, or the right one is a scalar or unset (`WidenExact`). A run of `Mixed` leaves its loop with the
  frame pointer in a register that all visits take for zero (`AcceptedButMixed`).
- For the same reason a pointer's offset is not what a loop head says: in `Walking` a frame pointer moves down without
  end while the checker sees one round (`AcceptedButWalking`). `ImpliesExact` says which pointer types carry another's
  claim; where every arriving state does, accesses stay inside their regions (`AccessesStayInside`), whose size is the
  one the reservation was given (`ReservedSizes`), except for offsets so close below 2^63 that the bounds check itself
  wraps (`FrameBoundsMean`, `RegionBoundsMean`).
- A pointer moved by a register of unknown value keeps its type with its offset reset to zero, since, as the comment at
  `src/kverify/check.rs:849-853` says, the offset cannot be tracked; but accesses through it then pass as if it had not
  moved. The type is right exactly when the number is known (`RegisterMoveExact`); `Moving` stores at any distance from
  the frame (`AcceptedButMoved`). A pointer moved in 32 bits is typed right exactly when its address fits 32 bits
  (`HalfMoveExact`).
- The count of bytes that a helper writes is truncated to eight bits: of a buffer of 256 bytes or more on the stack, only
  the first count as written, and a read of 264 bytes from the kernel leaves a kernel pointer in the first slot
  (`FilledFrame`). Whether the buffer fits what it lies in is not checked; only the types of the arguments decide
  (`CallAccepted`).
- A divisor is checked in all its 64 bits, also for 32-bit division, which uses the low half. That spares the division a
  zero exactly when no multiple of 2^32 lies within the bounds (`LowDivisorsExact`).
- Pruning compares frames by their written bytes, not by what is spilled. The claims of a state follow from those of
  another exactly when the pointer types in its registers and its spills are carried (`KeepsClaimsExact`). In `Spilling`
  one side of a null check stores the pointer through a copy of r10, the other the null as a number; the second is
  pruned against the first, and a run reloads the null and uses it (`AcceptedButNull`).
- A store clears the spill at its own offset only. `Overwriting` spills the context, cuts into it from both sides with
  the two halves of a null result, and uses what it reloads as the context (`AcceptedButOverwritten`); so the null
  theorem asks that stores cut into no spilled pointer, and the two cutting stores are the only visits that do
  (`CuttingIsUndisciplined`).
- What is loaded from the context or through a kernel pointer counts as a kernel pointer and is never checked: `Storing`
  puts a null result into the context and back and uses it, meeting every other condition of the null theorem
  (`AcceptedAsKernelPointer`). Programs that neither store unchecked or null results nor compute with them use no null
  as a kernel pointer either (`NoNullIsUsedAtAll`).
- An accepted program can run off its end (`AcceptedButOpenEnded`): exactly when its last instruction falls through and
  can be reached (`LeavingExact`).
- The comment at `fstar/obj/BPF.Exec.Safe.fst:58-60` says that without evidence the guarded executor behaves as the
  checked one. It does not: a map lookup leaves its value undefined, and 32-bit moves of negative constants differ with
  any evidence (`NoEvidenceDiffers`, `AgreesExactly`, `SimulatesExactly`). Given null evidence and no such move, the
  linking statement that the repository plans (`fstar/obj/BPF.Exec.Safe.fst:327-334`) holds without any bounds check
  (`LayeredSound`); with such a move it fails (`LayeredUnsound`).
- The executable semantics decides an equality jump with a non-zero immediate by whether the register is zero, so it
  departs from RFC 9669 for most numbers (`NonzeroEquality`), and its 32-bit modulus by zero keeps the upper half that
  its comment says is cleared (`Alu32IsStandard`).
- The stack-bounds scan does not follow forward unconditional jumps. Its marks are right when every such jump brings the
  marks found at its target, which is exactly when registers that fit at the jump fit at the target
  (`JumpAgreesExact`); `ForwardJumpMisleads` is a checked program where they do not.
- The scan starts afresh at each loop head with nothing but r10 known, and drops marks that differ between ways; accesses
  through such registers it lets pass. What it passes is exactly the programs in which every access lies in the frame
  whose base all ways derive alike (`CheckExact`).
- The mutable analyser restores the mark of r10 at joins, the pure checker does not: on `OverwritingProgram` their
  verdicts differ (`OverwriteDiffers`).
- Basic blocks are cut by instruction index while branches count raw slots: a jump's cut is its real target exactly when
  no wide load lies between (`CutExact`, `WideLoadShifts`).

## Model

| member | source | states |
|---|---|---|
| TnumProofs.AddSound | src/kverify/state.rs:111-122 | the wrapped sum of any members of two tracked numbers is a member of their sum |
| TnumProofs.AddTight | src/kverify/state.rs:111-122 | every bit the sum marks unknown is zero for some pair of members and one for another: the result is the tightest |
| TnumTightness.AddExact | src/kverify/state.rs:111-122 | a bit of the sum is unknown if and only if some members make it zero and some make it one |
| TnumTightness.AndExact | src/kverify/state.rs:47-56 | the same for conjunction |
| TnumTightness.OrExact | src/kverify/state.rs:59-66 | the same for disjunction |
| TnumTightness.XorExact | src/kverify/state.rs:69-76 | the same for exclusive or |
| ShiftTightness.LshExact | src/kverify/state.rs:79-87 | a bit of a number shifted left by less than 64 is unknown if and only if some member makes it zero and some makes it one |
| ShiftTightness.RshExact | src/kverify/state.rs:90-98 | the same for shifts to the right |
| ShiftTightness.Trunc32Exact | src/kverify/state.rs:125-130 | the same for truncation to 32 bits |
| TnumProofs.AddWellFormed | src/kverify/state.rs:101-122 | sums and differences have no bit both known to be one and unknown |
| TnumProofs.AndSound | src/kverify/state.rs:47-56 | the conjunction of members is a member of the conjunction |
| TnumProofs.OrSound | src/kverify/state.rs:59-66 | the disjunction of members is a member of the disjunction |
| TnumProofs.XorSound | src/kverify/state.rs:69-76 | the exclusive or of members is a member of the exclusive or |
| TnumProofs.LshSound | src/kverify/state.rs:79-87 | a member shifted left by less than 64 is a member of the shifted number |
| TnumProofs.RshSound | src/kverify/state.rs:90-98 | a member shifted right by less than 64 is a member of the shifted number |
| TnumProofs.Trunc32Sound | src/kverify/state.rs:125-130 | the low half of a member is a member of the truncated number |
| TnumSubtraction.SubExact | src/kverify/state.rs:101-108 | subtraction covers every difference of members if and only if the largest and the smallest difference agree on the result's known bits |
| TnumSubtraction.SubKnownSound | src/kverify/state.rs:101-108 | subtraction of a fully known number covers every difference |
| TnumSubtraction.SubMissesMinusOne | src/kverify/state.rs:101-108 | zero minus one unknown bit leaves out minus one |
| RegStates.RefineBounds | src/kverify/state.rs:360-393 | the five tightening steps in sequence compute the function the reduction theorems are about |
| RegStateProofs.RefineExact | src/kverify/state.rs:360-393 | on a state that stands for some value, reduction keeps exactly the same values |
| RegStateProofs.RefineTwiceReduces | src/kverify/state.rs:360-393 | on such a state a third reduction changes nothing that two have not, and after two all bounds agree with one another and with the tracked number |
| RegStateProofs.ReducedAgrees | src/kverify/state.rs:360-393 | reduction leaves such a state as it is if and only if its bounds agree: the unsigned ones lie within the tracked number, equal ones settle everything, and signed and unsigned ranges lie within each other wherever the signs allow it |
| WideningProofs.SubstateSound | src/kverify/state.rs:474-494 | a substate stands for no value the other state does not |
| WideningProofs.SubstateMeans | src/kverify/state.rs:474-494 | one state is a substate of another if and only if the types are equal and, of numbers, ranges and tracked number lie within |
| WideningProofs.SubstateReflexive | src/kverify/state.rs:474-494 | every state is a substate of itself |
| WideningProofs.SubstateTransitive | src/kverify/state.rs:474-494 | the substate relation is transitive |
| WideningProofs.WidenSound | src/kverify/state.rs:431-470 | widening two scalars contains the values of both |
| WideningProofs.WidenExact | src/kverify/state.rs:431-470 | for registers of any two types, widening admits every value that either admits if and only if it does not keep a scalar with bounds where a pointer arrives |
| WideningProofs.WidenIsLeastUpperBound | src/kverify/state.rs:431-494 | on reduced, non-empty scalars widening is the least upper bound of the substate order, and is reduced again |
| WideningProofs.ChainSettles | src/kverify/state.rs:431-470 | any chain of such widenings changes a register's tracked number at most 64 times |
| ControlFlow.BuildPcMap | src/kverify/check.rs:85-95 | the two tables are mutually inverse between instruction numbers and the raw slots instructions start at |
| ControlFlow.RawPcIncreases | src/kverify/check.rs:85-95 | raw slots increase strictly, by two behind a wide load |
| ControlFlow.ResolveBranchTarget | src/kverify/check.rs:99-111 | returns t exactly when the raw slot of t is the raw slot of the branch plus one plus the offset |
| ControlFlow.SecondSlotIsNoTarget | src/kverify/check.rs:99-111 | an offset into the second slot of a wide load resolves to nothing |
| ControlFlow.FindBackEdgeTargets | src/kverify/check.rs:58-79 | computes exactly the targets of jumps at or after them |
| ControlFlow.CycleHasLoopHead | src/kverify/check.rs:58-79 | every cycle of control-flow edges goes through such a target |
| ControlFlow.LeavingExact | src/kverify/check.rs:165-175 | some path from the first instruction leaves the program if and only if the last instruction falls through and some path reaches it |
| ControlFlow.StaysInside | src/kverify/check.rs:165-175 | no path leaves a program whose last instruction does not fall through |
| VerifierObjects.VerifierState.Entry | src/kverify/state.rs:505-510 | at entry r1 is the context, r10 the frame pointer, and nothing else is readable |
| VerifierObjects.VerifierState.Set | src/kverify/state.rs:520-528 | one register changes, all others keep their state |
| VerifierObjects.VerifierState.RefineAllWithId | src/kverify/check.rs:1509-1525 | all and only the registers carrying the identifier learn what it is |
| VerifierObjects.VerifierState.ClobberCallerSaved | src/kverify/check.rs:685-688 | r1 to r5 become unreadable, the others keep their state |
| VerifierObjects.StackState.MarkWritten | src/kverify/state.rs:605-611 | exactly the bytes of the access that lie in the frame become written |
| VerifierObjects.StackState.CheckReadable | src/kverify/state.rs:614-618 | true exactly when every byte of the access lies in the frame and is written |
| VerifierObjects.StackState.Spill | src/kverify/state.rs:628-631 | eight bytes become written and the register is remembered at the offset |
| VerifierObjects.StackState.ClearSpill | src/kverify/state.rs:639-641 | only the spill at the offset is forgotten |
| VerifierObjects.StackState.RefineSpillsWithId | src/kverify/check.rs:1492-1504 | all and only the spills carrying the identifier learn what it is |
| VerifierObjects.StackIsSubstate | src/kverify/state.rs:651-658 | true exactly when every byte written in the second frame is written in the first |
| VerifierObjects.WidenStack | src/kverify/state.rs:663-679 | a byte stays written if it is written in both frames; spills of the first frame are widened by those of the second |
| MemoryChecks.WidenedFrameIsLeast | src/kverify/state.rs:663-679 | the bytes that widening leaves written are the least upper bound of both frames in the order of pruning |
| InstructionChecks.CheckAlu | src/kverify/check.rs:693-1025 | the new state of the destination or the error, and nothing else changed; what that state means is stated by the rows on arithmetic, moves and pointers below (`AluStep`, `KnownMoveHolds`, `PointerArithmetic`, `DivisionRejected`, `ShiftRejected`) |
| InstructionChecks.CheckArgs | src/kverify/check.rs:536-608 | the first argument register that is unreadable or of the wrong type decides the error |
| InstructionChecks.CheckCall | src/kverify/check.rs:515-691 | result in r0 with a fresh identifier for nullable pointers, helper writes recorded, r1 to r5 clobbered; on error nothing changes; see `CallAccepted`, `ReturnedValues` and `FilledFrame` for what these are |
| InstructionChecks.CheckLoad | src/kverify/check.rs:1027-1216 | the loaded state by base type, or the error, and nothing else changed; see `LoadAccepted` and `LoadedPointers` for which loads pass and what they bring |
| InstructionChecks.CheckStore | src/kverify/check.rs:1218-1412 | the frame after the store by base type, or the error with the frame unchanged; see `StoreAccepted`, `StoredBytes` and `SpillThenLoad` |
| InstructionChecks.RefineScalar64 | src/kverify/check.rs:1528-1655 | both sides of a 64-bit comparison change in the destination only |
| InstructionChecks.RefineScalar32 | src/kverify/check.rs:1668-1860 | both sides of a 32-bit comparison change in the destination only |
| InstructionChecks.RefineBranchStates | src/kverify/check.rs:1420-1489 | null checks settle every register and spill with the identifier, scalar comparisons narrow the destination |
| MemoryChecks.LoadAccepted | src/kverify/check.rs:1041-1200 | away from the limit a load passes if and only if its bytes lie in the frame and are written, in the 4096 bytes of the context or in the region, or its base is a kernel or data pointer |
| MemoryChecks.StoreAccepted | src/kverify/check.rs:1231-1400 | away from the limit a store passes if and only if its bytes lie in what its base points into and it puts no frame or context pointer where others can read it |
| MemoryChecks.LoadedPointers | src/kverify/check.rs:1066-1200 | a load brings a pointer only whole: the one spilled there, or a kernel pointer from the context or kernel memory; anything else is a number of which nothing is known |
| MemoryChecks.StoredBytes | src/kverify/state.rs:605-631 | after a store exactly the bytes of the frame that it covers are written besides those that were |
| MemoryChecks.SpillThenLoad | src/kverify/check.rs:1280-1295 | a pointer stored in a slot comes back from it unchanged, anything else as a number of which nothing is known |
| MemoryChecks.WideLoads | src/kverify/check.rs:336-361 | a wide load leaves exactly its constant; a relocated map address is a number that may be anything and passes as a map, a data symbol a pointer to global memory, a field a kernel pointer |
| CallChecks.CallAccepted | src/bpf/helpers.rs:67-157 | a call passes if and only if its helper is known and its arguments have the types that helper takes, so what helpers write to is the frame, a map value or a ring-buffer entry; the length of a buffer plays no part |
| CallChecks.ReturnedValues | src/kverify/check.rs:610-657 | a lookup returns an unchecked pointer to 65536 bytes, a reservation one to the bytes asked for, each with the fresh identifier; the current task is a kernel pointer, all else a number of which nothing is known |
| BranchChecks.ComparisonExact | src/kverify/check.rs:1420-1489 | on a side that a state can express, the register compared with a known number stands for exactly its values that go this way, and all else is as before |
| BranchChecks.NothingLearned | src/kverify/check.rs:1436-1446 | a comparison with an unknown number, or of anything but a number or an unchecked pointer, changes nothing |
| BranchChecks.NullCheckSettles | src/kverify/check.rs:1446-1476 | comparing an unchecked pointer with zero settles, on both sides, every register and spilled copy with its identifier and nothing else |
| Checker.Process | src/kverify/check.rs:218-407 | one instruction on the mutable state does what the instruction's outcome says: error, exit, one successor, or a deferred and a direct one; see `ReturnedKinds` for which exits pass |
| Checker.Remember | src/kverify/check.rs:204-216 | at a loop head with a remembered state that state is widened by the arriving one, replaced and current; otherwise the arriving state stays current and is remembered while there are fewer than 32 |
| Checker.FindDominating | src/kverify/check.rs:189-202 | finds a remembered state that subsumes the arriving one, if there is any |
| Checker.RemoveRepeated | src/kverify/check.rs:414-419 | keeps the first occurrence of each pair of position and kind |
| Exploration.FirstOccurrencesExact | src/kverify/check.rs:414-419 | removing repetitions loses no error, invents none, keeps none twice, and empties no list that was not empty |
| Checker.RunRounds | src/kverify/check.rs:165-408 | the mutable main loop ends where the exploration, as a function of the program, ends, with the same visits, count and errors |
| Checker.CheckWithRelocs | src/kverify/check.rs:127-425 | visits, count and report are those of the exploration as a function; every visit is justified by earlier ones, and unless the limit was hit the visits are complete; the program passes if and only if the limit was not hit, no visit failed and an exit was visited; then the visits are a certificate |
| DepthFirst.ExplorationIsSound | src/kverify/check.rs:165-408 | wherever the exploration of a non-empty program ends, every visit is justified by earlier ones, and unless the limit was hit the visits are complete: entry and every successor of a visit is past the end, subsumed by a visit or widened into one |
| DepthFirst.PassedMeans | src/kverify/check.rs:410-424 | nothing is reported if and only if at most a million states were visited, no visit failed and an exit was visited |
| DepthFirst.StraightIsAccepted | src/kverify/check.rs:165-408 | a program that runs straight through to an exit without errors is accepted with exactly those visits |
| DepthFirst.ReportedErrors | src/kverify/check.rs:410-424 | an error is reported if and only if some visit failed with it or it closes the run |
| Exploration.Processed | src/kverify/check.rs:165-408 | processing an arriving state keeps the exploration's invariant: nothing that has to be visited is lost |
| Exploration.Popped | src/kverify/check.rs:166-175 | going on with the last deferred branch keeps it too |
| Exploration.Pruned | src/kverify/check.rs:189-202 | a pruned state is covered |
| Exploration.GroundedInvariant | src/kverify/check.rs:165-216 | what holds of the entry state, passes to successors and survives widening holds of every visit |
| Sanity.StepOk | src/kverify/check.rs:218-407 | one step keeps tracked numbers well-formed, identifiers of regions below the counter, unresolved pointers at the start of their regions, and only pointers spilled |
| DefiniteAssignment.ReadsAreAssigned | src/kverify/check.rs:457-475 | along every control-flow path of an accepted program, any number of times round loops, each instruction is known, its target and helper exist, and every register it reads was assigned and not clobbered by a call since |
| DefiniteAssignment.PathIsVisited | src/kverify/state.rs:431-494 | at the end of every path stands a visit whose readable registers were all assigned on the path |
| DefiniteAssignment.AssignsExactly | src/kverify/check.rs:685-688 | the states a visit passes control to hold a value in exactly the registers its instruction assigns and those that held one and are not clobbered |
| DefiniteAssignment.HeldReadsPass | src/kverify/check.rs:457-475 | no visit is rejected for an unset register if its instruction reads only registers that hold a value |
| Machine.RunIsPath | src/kverify/check.rs:58-79 | the positions of a run form a control-flow path, if 32-bit unconditional jumps go along edges |
| Machine.LongJumpExact | src/bpf/instruction.rs:294-298 | a 32-bit unconditional jump goes along an edge of the control-flow graph the checker uses if and only if its immediate resolves to nothing, equals the offset, or is zero |
| DefiniteAssignment.RunReadsAreAssigned | src/kverify/check.rs:457-475 | in every run of an accepted program with such jumps only, every register read was assigned on the way |
| StackInitialisation.LoadsAreStored | src/kverify/check.rs:1042-1070 | for accepted programs that access memory through r10 only: on every path each byte loaded lies in the frame and was stored earlier on that path, by a store or by a helper into a buffer on the stack that some visit at its call gives it; each byte stored lies in the frame |
| StackInitialisation.FilledFrame | src/kverify/check.rs:659-683 | after a helper has filled a buffer of known length on the stack, a byte is written if and only if it was before or lies in the buffer, all of whose bytes count if there are fewer than 256 (255 and less, then the length less 256, none from 512 on); of the spills only the one at the start of the buffer changes, to a kernel pointer after a read of 8 or 264 bytes from the kernel |
| StackInitialisation.NewBytes | src/kverify/check.rs:659-683 | a byte written after a call and not before lies in the buffer that r1 points to and r2 says the length of |
| StackReads.LoadsAreWritten | src/kverify/check.rs:1042-1070 | in every run of an accepted program whose pointers and numbers hold, every byte loaded through a frame pointer, wherever that came from, lies in the frame and was written earlier in the run: by a store to that address, or by a helper to the buffer at r1 with the length in r2 |
| StackReads.RunHasWritten | src/kverify/state.rs:589-618 | at every point of such a run, every byte of the frame that some visit takes for written the run has written |
| StackReads.LoopFreeKeepsWritten | src/kverify/state.rs:651-658 | in loop-free programs pruning keeps what this needs |
| StackInitialisation.TouchedBytes | src/kverify/state.rs:595-618 | the array bytes a memory access touches are exactly those at its frame offsets |
| StackInitialisation.BoundsMean | src/kverify/state.rs:621-625 | the bounds check passes exactly for accesses inside the frame |
| NullSafety.NoNullIsUsed | src/kverify/check.rs:1446-1476 | whatever nullable calls return, under the stated discipline, and if no visit has a pointer spilled or the run's stores do not reach the frame from elsewhere, no register that an accepted program uses as a pointer, to access memory or as a helper's argument, derives from a null result, whatever registers it was stored and reloaded through, unless the checker takes it for a kernel pointer |
| KernelPointers.NoNullIsUsedAtAll | src/kverify/check.rs:1446-1476 | if moreover no visit stores an unchecked or null result or computes with one, kernel pointers derive from none either |
| KernelPointers.LoopFreeIsClean | src/kverify/check.rs:189-213 | for loop-free programs without spilled pointers these conditions on the visits are enough |
| NullSafety.RunIsTracked | src/kverify/check.rs:618-657 | at every point of every such run, every spilled pointer but kernel pointers lies whole in the slot at its address, registers and slots that share an unresolved identifier hold the result of one call, frame pointers hold the frame's address plus their offset, and resolved pointers derive from no null result |
| NullSafety.ImmediateProgramsAreDisciplined | src/kverify/check.rs:1446-1476 | loop-free programs that add, subtract and compare with immediates, and whose visits store no known or unresolved pointer in the frame and move no frame pointer in 32 bits, meet the discipline of that theorem; they may store numbers, nulls and kernel pointers |
| NullSafety.LoopFreeKeepsClaims | src/kverify/check.rs:189-213 | in loop-free programs no visit of which has a pointer spilled, every arriving state carries the claims of some visit |
| NullSafety.NothingIsSpilled | src/kverify/check.rs:1262-1295 | if no visit stores such a pointer in the frame, no visit has one spilled |
| NullClaims.KeepsClaimsExact | src/kverify/state.rs:651-658 | what one state claims of null results follows from what another claims if and only if its pointer types, in registers and spills, are carried by the other |
| NullClaims.PruningKeeps | src/kverify/state.rs:474-494 | a subsuming state keeps the claims of the state pruned if and only if wherever it has a pointer spilled the other has one of the same type |
| NullClaims.WideningKeeps | src/kverify/state.rs:431-470 | a widened state keeps the claims of the arriving one if and only if each pointer of the stored state is met by one of the same type or by an unset register |
| SpilledNull.AcceptedButNull | src/kverify/state.rs:651-658 | an accepted program, with the visits the checker makes, and a run of it that accesses memory through a null result stored and reloaded through a copy of r10 |
| SpilledNull.PruningLostClaims | src/kverify/state.rs:651-658 | every visit to that program is disciplined; only the claims of the state pruned at the reload are not kept |
| OverwrittenSlot.AcceptedButOverwritten | src/kverify/state.rs:633-641 | an accepted program, with the visits the checker makes, and a run of it that uses as the context what the halves of a null result make of its slot |
| OverwrittenSlot.NullIsRead | src/kverify/state.rs:633-641 | in a memory of bytes, whatever it held, the two stores of a null leave a null at the offset of the spill |
| OverwrittenSlot.CuttingIsUndisciplined | src/kverify/state.rs:633-641 | of that program's visits exactly the two cutting stores break the discipline, and all claims are kept |
| StoredNull.AcceptedAsKernelPointer | src/kverify/check.rs:1099-1155 | an accepted program that meets the whole discipline, and a run of it that uses, as a kernel pointer, a null result put into the context and loaded back |
| SpilledPointers.RunHoldsExactly | src/kverify/check.rs:1027-1412 | if pointers move by immediates, or by registers whose number is known and represented, stores go through frame, context and region pointers while a pointer is spilled, and arriving states carry the pointer types of a visit in registers and spills: at every point of every run, registers and the slots of spills hold the addresses that some visit there states; besides, the numbers are those of the run, or (for moves by immediates) what is known to be a pointer derives from no null |
| SpilledPointers.SubsumedExactly | src/kverify/state.rs:474-494 | a subsuming state with the same pointer types spilled carries all these types |
| PrivateFrames.AccessesStayExact | src/kverify/check.rs:1027-1412 | every access of such a run through a frame, context or region pointer goes where its type says and stays inside its bounds, away from the limit |
| PrivateFrames.StoredPointersStay | src/kverify/check.rs:1231-1261 | wherever such a run stores what the visit there types as a frame or context pointer, the bytes written lie in the frame or in a region that some call returned |
| PrivateFrames.StoredKinds | src/kverify/check.rs:1231-1261 | in all accepted programs, no visit stores a frame or context pointer but through a frame pointer or into a map value or ring-buffer entry |
| PrivateFrames.ExitsWithoutPointer | src/kverify/check.rs:493-504 | such a run comes to its exit at a visit whose r0 is set and is no frame, context, map-value, ring-buffer, kernel or data pointer |
| PrivateFrames.ReturnedKinds | src/kverify/check.rs:478-504 | an exit passes if and only if r0 is a number, a null, or the unchecked result of a call |
| PrivateFrames.FrameIsReachedByType | src/kverify/check.rs:1262-1345 | a store of such a run that reaches the frame is made at a visit whose base is a frame pointer |
| PrivateFrames.FrameStaysPrivate | src/kverify/check.rs:1262-1345 | if pointers move only by immediates, no store of such a run reaches the frame but through a value that derives from the frame pointer |
| PointerAddresses.RunHoldsAddresses | src/kverify/check.rs:810-934 | if pointers move by immediates, or by registers whose number is known and represented, in either order of an addition, and are not reloaded: at every point of every run, each register typed as a frame, context, map-value or ring-buffer pointer holds the frame's end, the context, or the address some call returned, plus its offset; the numbers are those of the run too if they are followed |
| PointerAddresses.AccessesStayInside | src/kverify/check.rs:1027-1412 | every access of such a run through a register so typed lies in the 512 bytes of the frame, the 4096 bytes of the context, or the region some call returned, unless its offset is near the limit of 64-bit integers |
| PointerAddresses.ReservedSizes | src/kverify/check.rs:636-646 | where values are represented and the visits to a reservation know the size asked for, the size of its region is the low half of the number in r2 at the call; a lookup's is 65536 |
| AddressClaims.ImpliesExact | src/kverify/state.rs:474-494 | one type's claim about an address follows from another's if and only if both name the same region, size and offset and a checked pointer comes from a checked one |
| AddressClaims.KnownMoveHolds | src/kverify/check.rs:814-934 | a pointer plus or minus a known number, or a known number plus a pointer, is accepted, and the type of the result holds the address of the result |
| AddressClaims.RegisterMoveExact | src/kverify/check.rs:849-934 | the type given to a pointer moved by a register is right, for every address and number allowed, if and only if the number is known |
| AddressClaims.HalfMoveExact | src/kverify/check.rs:814-900 | the type that a 32-bit addition or subtraction of an immediate gives a pointer is right if and only if the resulting address fits 32 bits |
| MovedPointer.AcceptedButMoved | src/kverify/check.rs:849-875 | an accepted program, with the visits the checker makes, and for every number a run that stores that far from the frame pointer while every visit there claims the address eight bytes below it |
| PointerAddresses.LoopFreeKeepsAddresses | src/kverify/check.rs:189-213 | in loop-free programs pruning keeps those claims |
| AddressClaims.FrameBoundsMean | src/kverify/state.rs:621-625 | for every 64-bit offset, the check passes away from the limit exactly when the access lies in the frame |
| AddressClaims.RegionBoundsMean | src/kverify/check.rs:1080-1082 | the same for regions of a given size |
| WalkingPointer.AcceptedButWalking | src/kverify/state.rs:431-470 | an accepted loop, and for every n a run whose store in round n is 8n bytes below the frame pointer, modulo 2^64, where every visit claims 8 |
| AluSoundness.FromTrackedExact | src/kverify/check.rs:1010-1021 | bounds read off a tracked number contain all its members if and only if the sign bit is known |
| AluSoundness.NothingElse | src/kverify/check.rs:1010-1021 | the state built from a tracked number contains no value that is not a member |
| OperandChecks.KnownOperandsFold | src/kverify/check.rs:936-1000 | any guarded operation on known operands gives the known RFC 9669 result and nothing else |
| OperandChecks.MovesExactly | src/kverify/check.rs:711-741 | a move of an immediate leaves exactly that number, a 64-bit move of a register a copy, a 32-bit one a number and never a pointer |
| OperandChecks.DivisionRejected | src/kverify/check.rs:762-780 | a division is rejected for its divisor if and only if the immediate is zero or some word within the unsigned bounds of the register is |
| OperandChecks.ShiftRejected | src/kverify/check.rs:783-808 | a shift is rejected for its distance if and only if the immediate, or some word within the unsigned bounds of the register, is not less than the width |
| OperandChecks.LowDivisorsExact | src/kverify/check.rs:762-780 | the divisors that pass have low halves that are not zero, for all words within given bounds, if and only if no multiple of 2^32 lies within the bounds |
| OperandChecks.NumbersPassChecks | src/kverify/check.rs:762-808 | where values are represented, no run divides by a number that is zero or shifts by one that is not less than the width |
| OperandChecks.PointerArithmetic | src/kverify/check.rs:811-900 | a pointer takes part in no arithmetic but adding or subtracting a number and subtracting a pointer, which leaves a number of which nothing is known |
| OperandChecks.ArithmeticAccepted | src/kverify/check.rs:693-1025 | arithmetic passes if and only if it is a move, or arithmetic of numbers whose divisor or distance cannot be out of range as far as its bounds say, or an addition or subtraction that pointers take part in |
| AluSoundness.Alu64Exact | src/kverify/check.rs:936-1024 | a 64-bit scalar operation contains the RFC 9669 result of all operands if and only if the operands, by a test on their own bits and bounds, fix the sign bit of the result, and for subtraction the extremes are covered |
| SumSigns.SumSignExact | src/kverify/state.rs:111-122 | the sign bit of a sum of tracked numbers is known if and only if the smallest and the largest sum lie in the same half of the numbers |
| SumSigns.DifferenceSignExact | src/kverify/state.rs:101-108 | that of a difference if and only if the masks leave it out and the difference of the smallest values has the same sign as that plus both masks |
| AluSoundness.UnsignedSound | src/kverify/check.rs:936-1024 | whatever is known of the sign, tracked number and unsigned bounds of the 64-bit result contain the RFC 9669 result |
| AluSoundness.Alu32Exact | src/kverify/check.rs:936-1024 | a 32-bit scalar operation contains the RFC 9669 result of all operands if and only if a condition on the operands holds: none for add, multiply, and, or, xor and left shift; covered extremes for subtract; no known one shifted in for logical right shift; for known operands, quotients or remainders that agree with those of the low halves, and sign copies shifted in |
| AluSoundness.Alu32Sound | src/kverify/check.rs:936-1024 | under its condition every 32-bit scalar operation contains the RFC 9669 result |
| AluSoundness.MoveSound | src/kverify/check.rs:729-737 | a 32-bit register move contains the low half when the source is a 32-bit number or its bounds say nothing |
| AluSoundness.MoveExact | src/kverify/check.rs:729-737 | the move covers every value of every state with given unsigned bounds if and only if the upper bound is below 2^32 |
| AluSoundness.UnsignedMoveExact | src/kverify/check.rs:729-737 | among states that know nothing of the signed value, if and only if moreover the lower bound may be zero |
| AluSoundness.Move32Wrong | src/kverify/check.rs:729-737 | between 5 and 2^32 the move leaves out the result of 2^32 |
| AluSoundness.Div32Wrong | src/kverify/check.rs:982-988 | dividing 2^32 by 2 in 32 bits is computed wrongly |
| AluSoundness.Mod32Wrong | src/kverify/check.rs:989-995 | so is the remainder of 2^32 by 3 |
| AluSoundness.Arsh32Wrong | src/kverify/check.rs:967-974 | and 2^32 shifted right arithmetically by one |
| AluSoundness.SignExtendedShifts | src/kverify/check.rs:967-974 | arithmetic right shifts of sign-extended 32-bit numbers are right by every distance |
| AluSoundness.UnknownProductIsEmpty | src/kverify/check.rs:975-981 | a 64-bit product with an unknown factor yields a state with no value |
| BranchSoundness.Refine64Sound | src/kverify/check.rs:1528-1655 | for every operator a value stays in the state of the side it takes |
| BranchSoundness.Refine32Sound | src/kverify/check.rs:1668-1860 | the same for 32-bit comparisons: always for unsigned, equality and bit tests, for signed ones under the condition on the upper bound |
| BranchSoundness.Signed32Exact | src/kverify/check.rs:1740-1801 | signed 32-bit refinement is sound for all states with a given upper bound if and only if that bound is at most 0x7FFF_FFFF or above 0xFFFF_FFFF |
| BranchExactness.Refine64Exact | src/kverify/check.rs:1528-1655 | on every side that says something a state can express, the refined state contains exactly the values of the state for which the comparison comes out that way, provided there are any |
| BranchExactness.OtherSidesUnchanged | src/kverify/check.rs:1535-1541 | on the sides that say "different" or "some of several bits" the state is kept as it is |
| BranchExactness.Refine32Exact | src/kverify/check.rs:1668-1860 | the same exactness for 32-bit comparisons of states within 32 bits, within 31 for signed ones |
| ValueSoundness.RunIsRepresented | src/kverify/check.rs:165-408 | if the exploration meets the two side conditions, then at every instruction of every concrete run, of any length, some visit there contains the values of all scalar registers; runs follow RFC 9669 with sign-extending moves, signed division and long jumps included |
| ValueSoundness.AluStep | src/kverify/check.rs:693-1025 | a scalar result of a safe visit contains the concrete result |
| ValueSoundness.BranchStep | src/kverify/check.rs:1420-1489 | the side of a safe branch that a run takes contains its values |
| ValueSoundness.CoverRepresents | src/kverify/state.rs:431-494 | pruning, and widening where it over-approximates, keep the values of an arriving state contained |
| OffsetForms.SignExtendingMoveExact | src/kverify/check.rs:720-741 | copying the source's state covers a sign-extending move for all states with given signed bounds if and only if the bounds fit the width moved |
| OffsetForms.SignExtendingMove32Exact | src/kverify/check.rs:728-740 | the 32-bit form, taken for a plain 32-bit move, is right for all states with given unsigned bounds if and only if the bounds hold only sign extensions of the width moved |
| OffsetForms.SignedDivisionExact | src/kverify/check.rs:982-988 | for known operands the quotient computed is the signed one if and only if the dividend is not negative and the divisor positive or larger in size, or else the divisor is one or equals the dividend |
| OffsetForms.SignedModulusExact | src/kverify/check.rs:989-995 | for known operands the remainder computed is the signed one if and only if the dividend is not negative and the divisor positive or larger in size, or else the two are equal, or the divisor is positive and divides both the dividend and 2^64 |
| OffsetForms.SignedDivision32Exact | src/kverify/check.rs:982-995 | in 32 bits quotient or remainder of known operands are right if and only if those of all 64 bits agree, in the low half, with the signed ones of the low halves |
| OffsetForms.SignedNumbers32Exact | src/kverify/check.rs:982-995 | for operands within 32 bits the same conditions on the signed low halves as in 64 bits, with 2^32 for 2^64 |
| OffsetForms.SignedModulusWrong | src/kverify/check.rs:989-995 | minus one modulo two is computed wrongly |
| ScalarPrograms.AcceptedScalarProgram | src/kverify/check.rs:165-408 | for programs of plain moves, exact arithmetic, jumps and scalar helper calls that never touch r1 or r10, acceptance alone gives that containment for every run |
| AcceptedPrograms.AcceptedButUncovered | src/kverify/check.rs:1010-1020 | an accepted program, with the visits the checker makes, no run of which is contained at its exit |
| AcceptedPrograms.AcceptedButExtended | src/kverify/check.rs:728-740 | an accepted program with a sign-extending move, all of whose runs return a value that no visit contains |
| AcceptedPrograms.AcceptedButElsewhere | src/bpf/instruction.rs:294-298 | an accepted program all of whose runs go to an instruction never visited |
| MixedWidening.AcceptedButMixed | src/kverify/state.rs:530-531 | an accepted loop and a run that leaves it with the frame pointer in a register every visit there takes for zero, and returns it |
| AcceptedPrograms.AcceptedButOpenEnded | src/kverify/check.rs:165-175 | an accepted program, with the visits the checker makes, and a path past its last instruction |
| AcceptedPrograms.SmallestScalarProgram | src/kverify/check.rs:165-408 | an accepted program that meets every condition of the value theorem for scalar programs |
| ObjState.StoreThenLoad | fstar/obj/BPF.State.fst:209-215 | a load at the offset and width of the last store returns the value stored; a failed store means a failing load |
| ObjState.StoreKeepsOthers | fstar/obj/BPF.State.fst:115-124 | a store changes no load at another offset or width |
| ObjState.RingStoreThenRead | fstar/obj/BPF.State.fst:160-186 | what is stored in a ring-buffer entry is read back at its offset and width |
| ObjState.RingStoreKeepsOthers | fstar/obj/BPF.State.fst:160-186 | a store into an entry changes no read of another entry, offset or width, and no other memory |
| ObjSemantics.RingRoundTrip | fstar/obj/BPF.Semantics.fst:196-300 | a number stored through a ring-buffer pointer is loaded through any register that holds it |
| ObjSemantics.LookupThenLoad | fstar/obj/BPF.Helpers.fst:118-140 | a lookup returns a new pointer in r0, to a value that reads as zero, and leaves the other registers |
| ObjSemantics.BufferIsFilled | fstar/obj/BPF.Helpers.fst:100-125 | a helper that reads into a buffer on the stack leaves a zero in the slot at r1 and all other slots as they were |
| ObjArithmetic.Alu64IsStandard | fstar/obj/BPF.Semantics.fst:70-92 | 64-bit arithmetic gives the RFC 9669 result for every operation and all operands, the arithmetic shift by its fill mask included |
| ObjArithmetic.Alu32IsStandard | fstar/obj/BPF.Semantics.fst:95-120 | 32-bit arithmetic gives the RFC 9669 result except exactly for a modulus by zero of a destination with a non-zero upper half |
| ObjArithmetic.AluInsnsAreStandard | fstar/obj/BPF.Semantics.fst:196-260 | on numbers an arithmetic instruction puts the RFC 9669 result into its register and does nothing else |
| ObjArithmetic.Jump64IsStandard | fstar/obj/BPF.Semantics.fst:123-138 | 64-bit comparisons are those of RFC 9669 |
| ObjArithmetic.Jump32IsStandard | fstar/obj/BPF.Semantics.fst:140-155 | 32-bit comparisons are those of RFC 9669 |
| ObjArithmetic.JumpsAreStandard | fstar/obj/BPF.Semantics.fst:300-362 | a jump that compares numbers goes to its target if the comparison of RFC 9669 holds and to the next instruction otherwise, equality with a non-zero immediate excepted |
| ObjArithmetic.NonzeroEquality | fstar/obj/BPF.Semantics.fst:329-339 | a jump on equality or inequality of a number and a non-zero immediate agrees with RFC 9669 if and only if the number is zero or equals the immediate, or the offset is zero |
| ObjSemantics.MoreFuel | fstar/obj/BPF.Semantics.fst:403-415 | a result found is unchanged by more fuel |
| ObjSemantics.ChunksCompose | fstar/obj/BPF.Semantics.fst:382-394 | m + n steps are m steps followed by n |
| ObjSemantics.ProgramIsChunk | fstar/obj/BPF.Semantics.fst:382-415 | a program returns a state if and only if a chunk of one step less stops in it at the exit instruction |
| ObjSafeExecutor.SimulatesExactly | fstar/obj/BPF.Exec.Safe.fst:78-268 | the guarded step does what the checked step does without error, on all states, if and only if the instruction is no negative 32-bit move and a lookup has null evidence |
| ObjSafeExecutor.AgreesExactly | fstar/obj/BPF.Exec.Safe.fst:58-268 | the two steps agree on all states if and only if moreover no bounds check is skipped |
| ObjSafeExecutor.NoEvidenceDiffers | fstar/obj/BPF.Exec.Safe.fst:58-61 | without evidence the guarded executor differs from the checked one on a map lookup |
| ObjSafeExecutor.ProgramSimulates | fstar/obj/BPF.Exec.Safe.fst:278-290 | for any start and fuel, a result of the checked executor is the result of the guarded one, under that condition on the program |
| ObjSafeExecutor.LayeredSound | fstar/obj/BPF.Exec.Safe.fst:301-338 | a specification proved of the guarded executor holds of the checked one |
| ObjSafeExecutor.LayeredUnsound | fstar/obj/BPF.Exec.Safe.fst:140-143 | with a negative 32-bit move it need not, even with full evidence |
| ObjPathExecutor.NonNullSchedule | fstar/obj/BPF.Exec.Path.fst:123-136 | a schedule without nulls, of any length, gives the plain executor's result |
| ObjPathExecutor.UnusedChoices | fstar/obj/BPF.Exec.Path.fst:46-136 | choices beyond the fuel are never consulted |
| ObjPathExecutor.PathSound | fstar/obj/BPF.Exec.Path.fst:141-251 | a specification holds along such a schedule if and only if it holds of the plain executor |
| ObjStackBounds.CheckIsScan | fstar/obj/BPF.Check.StackBounds.fst:170-177 | the whole check succeeds exactly when the scan reaches the end |
| ObjStackBoundsProofs.MarksAreTrue | fstar/obj/BPF.Check.StackBounds.fst:68-218 | in every state a checked program reaches, what the scan marks as a frame or context pointer with an offset is that pointer, through joins, branches and loops, and forward jumps that bring the marks of their targets |
| ObjStackBoundsProofs.JumpAgreesExact | fstar/obj/BPF.Check.StackBounds.fst:156 | a forward unconditional jump brings the marks of its target if and only if all registers that fit at the jump fit there |
| ObjStackBoundsProofs.FitsExact | fstar/obj/BPF.Check.StackBounds.fst:54-62 | registers that fit one state of the scan always fit another if and only if the other marks no more |
| ObjStackBoundsProofs.StepFits | fstar/obj/BPF.Check.StackBounds.fst:97-167 | running an instruction and transferring it keep registers and marks together |
| ObjStackBoundsExact.StepMarksAll | fstar/obj/BPF.Check.StackBounds.fst:97-167 | if the frame and context pointers in the registers are marked, those that any instruction but a call leaves there are marked after its transfer |
| ObjStackBoundsExact.MarksExact | fstar/obj/BPF.Check.StackBounds.fst:68-218 | for every program: the scan marks a register as the frame pointer or the context plus a distance if and only if all ways to the instruction, from the entry and from loop heads where only r10 is known, derive it so by copies and constants |
| ObjStackBoundsExact.CheckExact | fstar/obj/BPF.Check.StackBounds.fst:170-177 | the check passes a program if and only if every access lies in the frame whose base all ways derive from the frame pointer by the same distance |
| ObjStackBoundsExact.StraightMarks | fstar/obj/BPF.Check.StackBounds.fst:97-167 | for programs without branches and calls the marks are exactly the frame and context pointers that a run holds |
| ObjStackBoundsExact.StraightCheckExact | fstar/obj/BPF.Check.StackBounds.fst:170-177 | where a run comes to every instruction of such a program, the check passes it if and only if every access of the run through a frame pointer lies in the 512 bytes below it |
| ObjStackBoundsProofs.AccessesInFrame | fstar/obj/BPF.Check.StackBounds.fst:87-94 | every access through a marked frame pointer really goes through it and stays inside the 512-byte frame |
| ObjStackBoundsProofs.GuardsAreRedundant | fstar/obj/BPF.Exec.Safe.fst:278-290 | for checked programs whose memory accesses all go through marked registers, the guard-skipping executor equals the checked one, results and errors alike, for any fuel |
| ObjStackBoundsProofs.ForwardJumpMisleads | fstar/obj/BPF.Check.StackBounds.fst:156 | a checked program with a forward unconditional jump reaches a state whose mark is wrong and then fails |
| StackBoundsAnalysis.Tracker.Join | src/analysis/stack_bounds.rs:76-91 | registers that differ become unknown, r10 is restored |
| StackBoundsAnalysis.Tracker.Transfer | src/analysis/stack_bounds.rs:220-283 | the verdict on the access, and after success the registers and the recorded forward target; `AnalysisExact` says what they amount to |
| StackBoundsAnalysis.Analyse | src/analysis/stack_bounds.rs:167-211 | the verdict, the failing position and the recorded steps; for comparable programs the verdict of the pure checker, which `AnalysisExact` characterises |
| StackBoundsAnalysis.ScansMatch | src/analysis/stack_bounds.rs:167-283 | at every position analyser and pure checker have the same registers and the same forward targets |
| StackBoundsAnalysis.AnalyserRefinesChecker | src/analysis/stack_bounds.rs:167-211 | the analyser passes a program that never writes r10 if and only if the pure checker does |
| StackBoundsAnalysis.AnalysisExact | src/analysis/stack_bounds.rs:167-283 | the analyser passes a program that never writes r10 if and only if every access lies in the frame whose base all ways derive from the frame pointer by the same distance |
| StackBoundsAnalysis.OverwriteDiffers | src/analysis/stack_bounds.rs:76-91 | a program that overwrites r10, joins and stores through it is rejected by the analyser and passed by the pure checker |
| BasicBlocks.FindBasicBlocks | src/bpf/basic_block.rs:19-63 | the blocks are non-empty, contiguous and cover the program; a position starts a block if and only if it is 0, a jump target, or follows a conditional jump |
| BasicBlocks.BlocksAreBasic | src/bpf/basic_block.rs:27-46 | conditional jumps come only last in a block, and no jump enters a block behind its start |
| BasicBlocks.BlockOf | src/bpf/basic_block.rs:48-62 | every instruction lies in exactly one block |
| BasicBlocks.CutExact | src/bpf/basic_block.rs:27-46 | the position a jump makes a leader is its real target, and its real target the position, if and only if no wide load lies between jump and position |
| BasicBlocks.LeadersAreTargets | src/bpf/basic_block.rs:27-46 | for an instruction and a position without wide loads between, the instruction makes the position a leader exactly when it really jumps there or is conditional and comes just before |
| BasicBlocks.WideLoadShifts | src/bpf/basic_block.rs:30 | behind a wide load the cut is in the wrong place |

## Left out

- Error payloads, source locations, register provenance (`written_at`) and display text: they do not affect verdicts. An error is its position and kind.
- ELF and BTF parsing: relocations are a parameter that maps instructions to what the relocation puts into the register.
- Panics of debug builds on overflow in pointer-offset arithmetic: offsets wrap, as in a release build.
- `usize` limits: program lengths, visit counts and identifiers are unbounded; the analyser's `i32` positions and `i64` offsets are unbounded as well.
- Memory contents, helper results and relocated addresses in concrete runs of the abstract interpreter's theorems: they are arbitrary.
- Scalars derived from pointers: the value theorem makes no claim about registers of pointer type.
- AluSoundness.MoveSound: one condition for all tracked numbers; the exact ones (`MoveExact`, `UnsignedMoveExact`) are over all states with given bounds.
- ValueSoundness.RunIsRepresented: signed division and modulus, and 32-bit sign-extending moves, selected by the offset field are outside its condition; the exact conditions for single instructions are in `OffsetForms`.
- NullSafety.NoNullIsUsed: pointers moved by registers, spilled pointers that a store cuts into, and helpers that write memory while a pointer is spilled are outside its condition; numbers put together from parts of stored values, or copied by a helper, derive from no call, but the checker takes no such number for a pointer it knows; that the context and global data lie apart from the frame is a hypothesis on the run where pointers are spilled.
- PointerAddresses.RunHoldsAddresses: pointers reloaded from memory, the context pointer included, are outside its condition, and inside that of `SpilledPointers.RunHoldsExactly`; pointers moved by unknown numbers or in 32 bits are outside both (`RegisterMoveExact`, `HalfMoveExact`), and so are kernel and data pointers, whose types carry no region.
- SpilledPointers.RunHoldsExactly: that the context and the regions that calls return lie apart from the frame is a hypothesis on the run; where pointers move by registers it does not say what they derive from, since a number may derive from a pointer.
- StackReads.LoadsAreWritten: says nothing of stack bytes that helpers read, which the checker does not look at, nor of loads through registers that are not typed as frame pointers.
- ObjStackBoundsProofs.MarksAreTrue: assumes that r10 is not overwritten and no branch goes before the start.
- Overlapping stack accesses of different widths: the executable semantics keeps slots, not bytes, and so does the model.
- The AST front end, the templates and proof scripts, `src/analysis/dataflow.rs`, and the type- and null-safety scans of the executable semantics.
