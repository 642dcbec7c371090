# Kore stage0, verified

A Dafny model of the parts of the `stage0` Kore compiler that carry real theorems, with proofs. Each
pass, analysis and table below is written in the form the compiler gives it (objects with fields
that methods update, loops, recursion), specified by functions of its inputs, and the properties
are proved about those functions for every input.

`dafny verify dfyconfig.toml` checks the whole project.

## What is proved

**Optimiser and validators.** `Hir` and `HirSemantics` give function bodies a meaning: a store of
locals with addresses into them, 128-bit arithmetic that traps as the compiler's constants do
(truncating division, overflow, zero divisor), and a trace of calls and drops answered by an
environment; a call sees, and may overwrite, the locals whose address has been taken. Dead-block
removal changes no run at all. Constant folding changes no run at all, and
folds exactly what does not trap. Dead-store elimination takes out exactly the stores of a block that its
text does not need, and keeps every returning run under a condition
that can be read off the body, and six small programs show what goes wrong outside it. Liveness
ends in the least solution of its equations, and never when blocks that share an id disagree. The pass
manager's pipeline refines its input for any number of rounds; its rounds would end without the cap, an
early exit leaves a fixpoint, and which stores are gone after how many rounds is read off the body, so
that the cap leaves a fixpoint exactly when no store would go in a fourth round. Both validators accept
exactly what they should, and every pass keeps an accepted body accepted.

**Modules.** The cycle check and Kahn's algorithm, over the same multigraph and in any hash order,
agree with each other and with acyclicity when every edge joins registered modules; two graphs show
how they part company otherwise.

**Patterns.** Arms to decision tree, tree to blocks, blocks to runs: the first arm that the value of the
scrutinee matches, in source order, is reached when no arm that is tested for stands before a reachable
condition, and on labels exactly then. What a literal or a variant matches is said on values (`Matching`),
without the compiler's labels.

**Layout.** Every shape that a type is converted to has the scalars of the type at the octets of the type
(`ShapeForms`). Computed sizes and alignments never fall below those of the LLVM shapes that are built,
and are equal on tight types. The slot of an error union is large enough exactly below 2^32 octets;
the slot of a union has room for all payloads of no larger computed size exactly when computed and allocated
size of the payload it is shaped after agree, and a concrete module shows it too small otherwise. Conversion ends
exactly when no definition it gets to reaches itself, pointers included.

**Move checking.** Sound for every choice of arms when nothing a deferred expression mentions is given
away behind it; exact on bodies without jumps and shadowing. With deferred expressions in any place both
hold of the body in which these are written where they run. What is owned is read off the written types.
Which borrows escape is a matter of scoping: the reports are those of the program text, in order.

**Parsing.** Every method of the expression, statement, pattern and type parser terminates on every
token stream, moves forward only and stops at the end of file; and printing an expression made of
literals, names, arrays, prefix operators, suffixes (dereference, propagation, fields, indices, calls) and
binary operators with the parentheses it needs, then parsing, gives the expression back. So does printing
a type, a statement made of such parts (a binding, an assignment, a deferred or a plain expression), a
block of these, unless a match is its last statement, a guard, and branches and loops, exactly when no condition
or subject in them starts like something else. Where parentheses are needed is said by tiers of operators, given
as sets, from the comma up to multiplication.

**Diagnostics and the error buffer.** Nothing that is emitted is lost or miscounted: for every code and
place the entries account for the emissions, and only errors beyond the limit are swallowed. The fixed
buffer always holds well-formed UTF-8 and is flagged exactly when something did not fit, and what it
holds is a beginning of the text exactly when nothing lands after the first cut.

## Where the code and its comments part

- A condition arm returns at once and forgets the labelled arms collected before it
  (`stage0/src/middleend/lower/pattern.rs:138-171`), although arms are described as ordered.
- Numerals may be written with a radix and underscores (`docs/spec/03-types.md:21-22`), and their text reaches the
  branch as it is written (`stage0/src/frontend/lexer/lexer_impl.rs:208-240`); as patterns only plain decimals
  are tested for, and strings not at all (`stage0/src/middleend/lower/pattern.rs:194-200`,
  `Matching.NumeralsAndStringsPassedOver`). `Ok` and `Err` are taken for the first and second variant of any
  union (`Matching.OkMustComeFirst`).
- The slot of a union is meant to hold its largest variant (`stage0/src/backend/llvm/ty.rs:220-255`);
  it is sized by the shape of the variant whose *computed* size is largest, which can be smaller than
  the shape of another (`LayoutSlots.SlotTooSmall`; exactly when: `LayoutSlots.SlotIsRightIff`).
- The type cache is filled only when a type has been converted (`stage0/src/backend/llvm/ty.rs:20-34`), so it
  does not stop conversion from following pointers in a circle: a struct that points to itself, which has a
  size, is never converted (`ConversionEnds.LinkedNode`; exactly when: `ConversionEnds.ConversionEndsIff`).
- `defer` runs when its scope ends (`docs/spec/05-memory.md:89-99`), but the move checker visits the
  deferred expression where it is written (`MoveSoundness.DeferredUseMissed`); no use is missed when nothing
  it mentions is given away behind it (`MoveSoundness.MoveCheckIsSound`), and `UndeferredRuns.UndeferredCheckIsExact`
  says which bodies misuse a binding.
- Folding `Not` yields 0 or 1, while the code generator emits a bitwise complement of 32 bits
  (`Emission.UnaryFoldingVersusEmission`); comparisons are folded on 128 bits and emitted on 32
  (`Emission.ComparisonFoldsRightlyIff`).
- The pass manager promises a fixpoint but stops after three rounds (`PassLimits.CapLeavesDeadStores`); three
  are enough exactly when no store goes in a fourth (`StoreRounds.RunDefaultPipeline`, `StoreRounds.RoundsIff`).
- A block takes a match `? e is { .. }` as a statement and goes straight on to another one, so a match may not be
  the last (`stage0/src/frontend/parser/expr.rs:345-413`): the closing brace is then taken for the start of a
  statement (`Parser.ParsePrintedBlock`).
- A loop is described with a condition behind its mark (`stage0/src/frontend/parser/expr.rs:470-503`,
  `docs/spec/07-examples.md:106`); one that starts with a name has the name taken for a tag and a second mark
  asked for (`PrintingArms.ComparisonOfName`, `Parser.ParsePrintedLoop`). The arms of `? { condition => body }`
  are read as patterns: a condition is taken for one exactly when it starts neither with a literal nor with a
  name that no operator mark follows (`Parser.ParsePrintedBranch`).
- The move checker walks the body of a loop once, and not at all into literals with parts
  (`stage0/src/frontend/escape/checker.rs:120-148`): what a second round or such a literal uses after a move is
  missed (`MoveSoundness.SecondRoundMissed`, `MoveSoundness.LiteralUseMissed`).
- Truncation of the error buffer is not the end of what is written: a later push that is short enough still
  lands (`FixedBuf.GapAfterTruncation`; never exactly when: `FixedBuf.HeldIsBeginningIff`).

## Model

| member | source | states |
|---|---|---|
| Diag.DiagSink.Emit | stage0/src/diag/sink.rs:38-63 | one emission is logged; the new counters and store are those of counting it, then merging it into the first entry of equal code and place, throttling it, or appending it; the log keeps explaining the whole state, and what is one place is said by `SameKeyIsSameReport` |
| Diag.DiagSink.StoredErrors | stage0/src/diag/sink.rs:65-70 | the number of stored errors, whatever the occurrences |
| Diag.DiagSink.Finish | stage0/src/diag/sink.rs:91-94 | what is handed out is ordered by file and offset, has the stored entries as a multiset, and keeps the order of emission at every place |
| Diag.EmissionsAreConserved | stage0/src/diag/sink.rs:38-63 | over any sequence of emissions, stored occurrences plus suppressed equals the number of emissions |
| Diag.GateCountsEverything | stage0/src/diag/sink.rs:34-43 | the error and warning counters equal the errors and warnings emitted, however they were merged or throttled |
| Diag.StoreIsBounded | stage0/src/diag/sink.rs:45-63 | stored keys stay pairwise distinct, stored errors never exceed the limit, and something is suppressed only when the limit is used up |
| Diag.SameKeyIsSameReport | stage0/src/diag/diagnostic.rs:139-141 | two diagnostics are merged iff their codes agree and they are at one place: neither has any, or file and starting offset agree, a whole file starting at 0 |
| Diag.ReportsAreKept | stage0/src/diag/sink.rs:38-63 | for every log, code and place: what the entries for it count and what the limit has swallowed of it make up the emissions of that code at that place, no more and no fewer |
| Diag.OneEntryEach | stage0/src/diag/sink.rs:45-62 | no two entries are for one code at one place |
| Diag.OccurrencesCount | stage0/src/diag/sink.rs:45-52 | so each entry counts the emissions of its code at its place, less those swallowed before it was stored |
| Diag.UnlimitedKeepsAll | stage0/src/diag/sink.rs:38-63 | without a limit every emission has its entry, and an entry counts exactly the emissions of its code at its place |
| Diag.StoredErrorIsWhole | stage0/src/diag/sink.rs:54-62 | of an error that is stored nothing was swallowed, whatever the limit |
| Diag.OnlyErrorsAreDropped | stage0/src/diag/sink.rs:54-60 | only an error is ever swallowed, and only while exactly as many are stored as the limit allows |
| Diag.StableSortSorts | stage0/src/diag/sink.rs:89-94 | sorting by place is a permutation, sorted and stable |
| Diag.SortedIsOrdered | stage0/src/diag/sink.rs:91-94 | of two reports handed out the first is in an earlier file, or no later in the same one; those without a place come last |
| HirSemantics.EndedRunsStay | stage0/src/middleend/hir/mod.rs:168-187 | a run that has returned, trapped or got stuck within some number of blocks has the same outcome whatever further blocks it is allowed |
| HirSemantics.BlockJumpsToSuccessor | stage0/src/middleend/hir/mod.rs:168-187 | a block that jumps goes to one of its successors |
| Emission.TruncDivIsUnique | stage0/src/middleend/pass/const_fold.rs:63-74 | quotient and remainder are the truncating ones: the only pair with the sign of the dividend and a remainder below the divisor |
| CfgGraph.ComputeReachable | stage0/src/middleend/pass/dead_code.rs:33-55 | the worklist ends, even with dangling targets, in exactly the ids a path from the entry reaches |
| DeadCode.RunOnBody | stage0/src/middleend/pass/dead_code.rs:19-29 | the body becomes the one without unreachable blocks; a change is reported iff the body is a different one |
| DeadCode.KeepsExactlyTheReachable | stage0/src/middleend/pass/dead_code.rs:19-29 | a block survives iff a path from the entry reaches its id |
| DeadCode.RemoveDeadIdempotent | stage0/src/middleend/pass/dead_code.rs:19-29 | a second run of the pass changes nothing |
| DeadCode.RemoveDeadPreservesRuns | stage0/src/middleend/pass/dead_code.rs:19-55 | for every environment, store and number of blocks the run is the same before and after, traps and dangling jumps included |
| DeadCode.RemoveDeadRefines | stage0/src/middleend/pass/dead_code.rs:19-55 | every returning run stays, with its value and trace |
| ConstFold.RunOnBody | stage0/src/middleend/pass/const_fold.rs:18-33 | every foldable right-hand side is replaced in place and nothing else changes; a change is reported iff the body is a different one |
| ConstFold.BinaryFoldedIffNoTrap | stage0/src/middleend/pass/const_fold.rs:50-87 | two constants are folded iff evaluating the operator on them does not trap, and then to the value it has |
| ConstFold.UnaryFoldedIffNoTrap | stage0/src/middleend/pass/const_fold.rs:90-103 | the same for unary operators: only negating the least number is left alone |
| ConstFold.FoldsExactlyWhatItCan | stage0/src/middleend/pass/const_fold.rs:18-103 | every statement of every body: an operator of the pass on two integer constants, or on one, that does not trap becomes its value, and nothing else is touched |
| ConstFold.FoldPreservesRuns | stage0/src/middleend/pass/const_fold.rs:18-47 | folding leaves every run as it is, whether it returns, traps or goes on |
| ConstFold.FoldRefines | stage0/src/middleend/pass/const_fold.rs:18-47 | every returning run stays, with its value and trace |
| Emission.FoldingCommutesWithEmission | stage0/src/backend/llvm/rvalue.rs:125-130 | folding and then emitting a 32-bit constant equals 32-bit machine arithmetic on the emitted operands: for sums, differences and products of any size, for quotients, remainders and comparisons of constants that fit, wherever the machine defines a result |
| Emission.UnaryFoldingVersusEmission | stage0/src/backend/llvm/rvalue.rs:479-520 | for negation and complement folding and emission always agree; for `Not` iff the low 32 bits of the operand are all ones |
| Emission.ComparisonFoldsRightlyIff | stage0/src/backend/llvm/rvalue.rs:444-449 | for any two constants, a folded equality agrees with the machine's iff they are equal or differ by no multiple of 2^32; a folded ordering iff their higher parts are equal, or their low words are ordered as those are |
| Liveness.ComputeGenKill | stage0/src/middleend/pass/dead_store.rs:145-178 | the forward loop collects exactly the uses before a definition, plus the terminator's uses, and the plain definitions |
| Liveness.CollectedIsText | stage0/src/middleend/pass/dead_store.rs:145-219 | what it collects is the text of the block: a local is used iff an assignment mentions it, also where its address is taken or a slice made of it, before anything is stored there; defined iff something is |
| Liveness.TerminatorMentions | stage0/src/middleend/pass/dead_store.rs:229-239 | a terminator uses a local iff it returns it or switches on it |
| Liveness.Sweep | stage0/src/middleend/pass/dead_store.rs:104-132 | one sweep over the blocks, whatever their ids, leaves the swept sets and reports a change iff something was rewritten; sets below liveness and growing stay so, no change means every equation holds, a change uses up some of a finite slack |
| Liveness.ComputeLiveness | stage0/src/middleend/pass/dead_store.rs:88-136 | with unique ids the loop ends; a local is live at a block iff some path from it reaches a block that uses it with no block before that kills it, and live-out is that one edge later |
| Liveness.FixpointIsLiveness | stage0/src/middleend/pass/dead_store.rs:99-133 | any sets that are below liveness, grow with it and solve the equations are liveness: the least solution |
| Liveness.DuplicateIdsNeverSettle | stage0/src/middleend/pass/dead_store.rs:99-133 | on any body: if the equation of some block disagrees with the least joint solution, or two blocks of one id have different locals live behind them, every sweep reports a change however many came before, so the loop never ends; shared ids may keep it going even when all agree |
| Liveness.AgreementIsNotEnough | stage0/src/middleend/pass/dead_store.rs:99-133 | a body with a shared id on which, from the empty sets, every sweep reports a change and comes back to them |
| Liveness.OverwritingAgrees | stage0/src/middleend/pass/dead_store.rs:99-133 | although all of its blocks agree in both respects |
| Liveness.ReturningBlockDisagrees | stage0/src/middleend/pass/dead_store.rs:104-132 | for instance when a returning block shares its id with one that uses more |
| Liveness.UniqueIdsAgree | stage0/src/middleend/pass/dead_store.rs:99-133 | with unique ids every block agrees in both |
| DeadStore.RunOnBody | stage0/src/middleend/pass/dead_store.rs:19-78 | every block becomes the one without the stores that are dead behind them; a change is reported iff the body is a different one |
| DeadStore.KeptExactlyWhenNeeded | stage0/src/middleend/pass/dead_store.rs:39-67 | a plain store stays in its block iff the local is mentioned further on by a plain assignment before it is stored to again, or is never stored to again and live at the end; everything else stays in place |
| DeadStore.EliminateRefines | stage0/src/middleend/pass/dead_store.rs:19-79 | with unique ids, on bodies that neither dereference nor take an address and whose reads outside the collected uses never see a removed local, every returning run stays, with value and trace, from every store |
| DeadStore.CheckableIsSafe | stage0/src/middleend/pass/dead_store.rs:39-67 | the condition follows from one that is read off the body: locals read by calls, drops and projections are never plainly assigned |
| DeadStore.BareBodyIsCheckable | stage0/src/middleend/pass/dead_store.rs:215-226 | bodies of plain locals, without references and drops, whose calls take constants, meet it |
| DeadStoreLimits.CallArgumentLost | stage0/src/middleend/pass/dead_store.rs:58-61 | a store read only by a call argument is removed, and the call sees the old value |
| DeadStoreLimits.DroppedValueLost | stage0/src/middleend/pass/dead_store.rs:58-61 | a store read only by a drop is removed, and the old value is dropped |
| DeadStoreLimits.FieldReadLost | stage0/src/middleend/pass/dead_store.rs:215-219 | a store read only through a field is removed, and the old field is returned |
| DeadStoreLimits.AliasedStoreLost | stage0/src/middleend/pass/dead_store.rs:43-56 | a store read back through a pointer is removed, and the old value is loaded |
| DeadStoreLimits.SharedStoreLost | stage0/src/middleend/pass/dead_store.rs:43-61 | a store to a local between taking a slice of it and a call with the slice is removed, and the callee sees the old value |
| DeadStoreLimits.PointedStoreLost | stage0/src/middleend/pass/dead_store.rs:43-61 | the same through a pointer kept in a field, which no collected use mentions |
| PassManager.PassManager.RunRound | stage0/src/middleend/pass/mod.rs:53-59 | one round applies every pass in order, and says it changed something iff some pass did |
| PassManager.PassManager.RunOnBody | stage0/src/middleend/pass/mod.rs:51-66 | stopping early or at the cap, the body is what the full number of rounds would have made of it |
| PassManager.DefaultPipeline | stage0/src/middleend/pass/mod.rs:76-85 | dead code, constants, dead stores, in this order, with a cap of three rounds |
| PassManager.PipelineRefines | stage0/src/middleend/pass/mod.rs:51-66 | any number of rounds of any list of these passes keeps every returning run of a checkable body, which stays checkable with unique ids |
| PassManager.ApplyShrinks | stage0/src/middleend/pass/mod.rs:51-66 | a pass that changes anything strictly lessens blocks plus statements plus operators |
| PassManager.RoundsReachFixpoint | stage0/src/middleend/pass/mod.rs:29-34 | without the cap the rounds end, after at most that many, in a body every pass leaves alone |
| PassManager.EarlyExitIsFixpoint | stage0/src/middleend/pass/mod.rs:61-64 | a round changes nothing iff every single pass leaves the body alone |
| PassLimits.CapLeavesDeadStores | stage0/src/middleend/pass/mod.rs:29-34 | a chain of dead stores loses exactly one link a round, so three rounds leave dead stores in any longer chain |
| PassRounds.PipelineIsElimination | stage0/src/middleend/pass/mod.rs:51-85 | `k` rounds of the default pipeline are one removal of dead blocks, one folding and `k` eliminations of dead stores: the first two passes have nothing to do after the first round |
| StoreRounds.GoneAfter | stage0/src/middleend/pass/dead_store.rs:19-79 | after `k` eliminations exactly the stores that go within `k` rounds are missing: those whose target, along paths without another store to it, is read by stores that go within `k - 1` rounds only; what goes within `k - 1` neither reads nor stores |
| StoreRounds.RoundsIff | stage0/src/middleend/pass/mod.rs:29-34 | on any body with unique ids, `k` rounds of the default pipeline end in a fixpoint of all its passes iff every store that goes within `k + 1` rounds goes within `k` |
| StoreRounds.ReaderGoesBefore | stage0/src/middleend/pass/dead_store.rs:39-67 | a store that goes in a later round than the first is read by one that goes in the round before |
| StoreRounds.RoundsSuffice | stage0/src/middleend/pass/mod.rs:29-34 | so `k` rounds are enough where no chain of different stores that go, each read by the one before it, has more than `k` links; stores that stay do not count |
| StoreRounds.RunDefaultPipeline | stage0/src/middleend/pass/mod.rs:51-85 | the default pipeline with its cap of three leaves the body without the stores that go within three rounds, which is a fixpoint of all passes iff none goes in a fourth |
| PassRounds.OneBlockRoundsIff | stage0/src/middleend/pass/mod.rs:29-34 | on a body of one block `k` rounds end in a fixpoint iff the longest chain of stores read only by stores that go has at most `k` links |
| ValidateCfg.Validate | stage0/src/middleend/validate/cfg.rs:14-73 | true iff the entry exists, ids are unique and all targets exist; the diagnostics are exactly those of the five checks, in order |
| ValidateCfg.ReportsAre | stage0/src/middleend/validate/cfg.rs:14-159 | what is reported, one by one: error 9001 alone without an entry; otherwise 9002 iff ids repeat, 9003 at the blocks with a target that does not exist, warning 9004 at those no path from the entry reaches, 9005 at the reached ones from which no return is, if there is one, and nothing else |
| ValidateCfg.ComputePredecessors | stage0/src/middleend/validate/cfg.rs:162-172 | a block is recorded before another iff it may jump there |
| ValidateCfg.ComputeCanReach | stage0/src/middleend/validate/cfg.rs:175-194 | the backward worklist ends in exactly the blocks from which edges lead to a returning block |
| ValidateCfg.ValidateReturns | stage0/src/middleend/validate/cfg.rs:118-159 | warns about exactly the reachable blocks that neither reach a return nor end unreachably, when there is a return at all |
| ValidateCfg.AcceptedNeverMissesBlock | stage0/src/middleend/validate/cfg.rs:17-55 | no run of an accepted body, however long, looks for a block that is not there |
| ValidateCfg.CanReturnMeansReachesReturn | stage0/src/middleend/validate/cfg.rs:137-141 | backward reachability is forward reachability of a returning block |
| ValidateCfg.StrandedNeverReturns | stage0/src/middleend/validate/cfg.rs:140-154 | a run that gets to a warned block never returns |
| ValidateLocals.LocalValidator.Validate | stage0/src/middleend/validate/local.rs:33-50 | the verdict stays true iff every local mentioned anywhere is declared, and then nothing is emitted; otherwise one error for each mention that is not, in order, and then the warnings of the second walk |
| ValidateLocals.LocalValidator.CheckBlockUse | stage0/src/middleend/validate/local.rs:195-256 | the second walk, depth first from the entry, ends and warns of each use of a local neither declared nor stored to on the way taken to its block |
| ValidateLocals.QuietBlock | stage0/src/middleend/validate/local.rs:195-320 | a block draws no warning iff each local it uses is defined before it, or stored into, by an assignment or as the result of a call, further up in it |
| ValidateLocals.EarlyUsesOnlyAfterErrors | stage0/src/middleend/validate/local.rs:183-192 | since every declared local counts as defined from the start, that walk says nothing about an accepted body |
| EarlyUseWalk.WalkVisitsReachable | stage0/src/middleend/validate/local.rs:195-256 | the walk gets to every block a path from the entry reaches |
| EarlyUseWalk.UndeclaredUseWarned | stage0/src/middleend/validate/local.rs:263-272 | a use in a reachable block of a local that is neither declared nor stored to anywhere draws a warning |
| ValidateLocals.NoDiagsIffWithin | stage0/src/middleend/validate/local.rs:53-152 | silence iff every statement and terminator mentions declared locals only, inside every projection |
| PassesKeepValid.PassKeepsCfgAccepted | stage0/src/middleend/validate/cfg.rs:14-73 | each of the three passes keeps a body the graph validator accepts accepted |
| PassesKeepValid.PassKeepsLocalsAccepted | stage0/src/middleend/validate/local.rs:33-50 | no pass introduces an undeclared local |
| PassesKeepValid.PipelineKeepsAccepted | stage0/src/middleend/pass/mod.rs:51-66 | nor does any number of rounds: both validators still accept |
| PassesKeepValid.NoUnreachableAfterDeadCode | stage0/src/middleend/validate/cfg.rs:57-67 | after dead-block removal no unreachable-block warning is drawn |
| ModuleRegistry.ModuleRegistry.RegisterModule | stage0/src/frontend/resolve/module.rs:79-109 | a known path keeps its id and changes nothing; a new path gets an id no module has, and no edges; the tables stay consistent |
| ModuleRegistry.ModuleRegistry.AddDependency | stage0/src/frontend/resolve/module.rs:132-137 | one more edge, repeated ones included; the graph stays closed iff both ends are registered |
| ModuleRegistry.ModuleRegistry.LinkImports | stage0/src/main.rs:333-344 | every module's edges grow by exactly its imports that name a registered module, so a closed graph stays closed |
| ModuleRegistry.ResolvesNamed | stage0/src/main.rs:333-344 | an edge is added to a module iff some import names it; an import of an unknown name adds none |
| ModuleRegistry.ModuleRegistry.DfsCycleCheck | stage0/src/frontend/resolve/module.rs:169-206 | success explores the module without leaving anything in progress; failure lists a cycle climbing towards the module; the depth is bounded by the modules not in progress |
| ModuleRegistry.FailureClimbs | stage0/src/frontend/resolve/module.rs:187-199 | a failure of a dependency, passed up one level, is a failure of the dependent: first the cycle backwards, then the path that led to it |
| ModuleRegistry.ModuleRegistry.CheckCycles | stage0/src/frontend/resolve/module.rs:153-166 | succeeds iff no cycle is reachable from a registered module, in any hash order; otherwise some beginning of the list read backwards is a cycle through its first entry |
| ModuleRegistry.ReportShowsCycle | stage0/src/frontend/resolve/module.rs:149-177 | a list with such a beginning starts with a module that depends on itself |
| ModuleRegistry.ModuleRegistry.InDegrees | stage0/src/frontend/resolve/module.rs:214-223 | every occurrence in a dependency list is counted, repeated edges and unregistered targets included |
| ModuleRegistry.ModuleRegistry.TopologicalSort | stage0/src/frontend/resolve/module.rs:213-258 | succeeds iff as many nodes drain as modules are registered; an order lists every module once, after all it depends on; on closed graphs success means acyclic |
| ModuleRegistry.ClosedEmitsAllIffAcyclic | stage0/src/frontend/resolve/module.rs:250-257 | on closed graphs draining everything and having no cycle are the same |
| DependencyGraph.SupportedHasCycle | stage0/src/frontend/resolve/module.rs:232-257 | a finite set whose members all have a dependent inside it contains a cycle, one that leads to any given member |
| DependencyGraph.OrderedHasNoCycle | stage0/src/frontend/resolve/module.rs:208-213 | what can be listed with dependents first lies on no cycle |
| ModuleRegistry.ModuleRegistry.OrderModules | stage0/src/main.rs:351-368 | after a cycle check that passes, sorting succeeds, so the error for a failed sort is never emitted |
| ModuleRegistry.UnregisteredTargetRefused | stage0/src/frontend/resolve/module.rs:250-257 | an acyclic graph with an unregistered target whose order is refused |
| ModuleRegistry.UnregisteredTargetHidesCycle | stage0/src/frontend/resolve/module.rs:250-257 | a cyclic graph with an unregistered target for which an order is returned |
| Decimal.ParseCanonical | stage0/src/middleend/lower/pattern.rs:194-200 | the canonical digits of a 64-bit number parse back to it, with or without a plus sign, and with a minus sign not at all |
| Pattern.FindInUnionsExact | stage0/src/middleend/lower/pattern.rs:203-220 | a variant is found iff some union declares it, at its position in one that does |
| Pattern.VariantIndexIgnoresOrder | stage0/src/middleend/lower/pattern.rs:211-219 | when the unions that declare a name agree on its position, the order of the union table does not matter |
| Lowering.LoweringContext.FindVariant | stage0/src/middleend/lower/pattern.rs:203-220 | the nested search returns the index in the first union that declares the name; `Ok` and `Err` are 0 and 1 whatever is declared |
| Lowering.LoweringContext.CompilePatterns | stage0/src/middleend/lower/pattern.rs:93-191 | the loop over the arms builds the compiled tree: cases in order, a catch-all ends it, a lowered condition becomes a guard over the rest |
| Pattern.CompiledTreeFollowsLabels | stage0/src/middleend/lower/pattern.rs:93-191 | unless a labelled arm is dropped, the tree selects the first arm whose label is the key, for every key and every outcome of guards |
| Pattern.FirstMatchPreservedIff | stage0/src/middleend/lower/pattern.rs:138-171 | for distinct arm blocks that holds for all scrutinees and guards iff no labelled arm stands before a condition with no catch-all up to it |
| Lowering.LoweringContext.StartBlock | stage0/src/middleend/lower/mod.rs:133-150 | a block with a fresh id, no statements and an unreachable terminator is appended and becomes current |
| Lowering.LoweringContext.SetTerminator | stage0/src/middleend/lower/pattern.rs:62-68 | the search by id finds the placeholder and nothing else is touched |
| Lowering.LoweringContext.Materialize | stage0/src/middleend/lower/pattern.rs:39-88 | the blocks of the tree are appended under consecutive fresh ids, every earlier block stays as it was, and the entry and the current block are the right ones |
| Lowering.LayOutNumbered | stage0/src/middleend/lower/pattern.rs:45-60 | the appended blocks carry consecutive ids, in the order in which they were started |
| Lowering.FreshBlocksArePresent | stage0/src/middleend/lower/mod.rs:133-150 | appending them keeps ids unique, so old and new blocks are found by id |
| Lowering.BlocksFollowTree | stage0/src/middleend/lower/pattern.rs:39-88 | entering the blocks of a tree leads, in at most one step for each block, to the block the tree selects, with store and trace unchanged |
| Lowering.BranchFollowsLabels | stage0/src/middleend/lower/pattern.rs:39-191 | both steps together: running from the entry is running from the block of the first arm whose label is the key of the operand switched on |
| Matching.PlainDenotes | stage0/src/frontend/lexer/lexer_impl.rs:208-240 | a numeral of digits alone stands for what it does in decimal; other forms have a radix prefix or underscores |
| Matching.LabelIsMeant | stage0/src/middleend/lower/pattern.rs:194-220 | an arm of the type of the value is labelled iff it is a boolean, a plain decimal numeral below 2^64 or a variant, and then the label is the key of exactly the values that the arm matches: true and false, the number, the variant declared in that place with `Ok` first and `Err` second |
| Matching.CompiledTreeSelectsFirstMatch | stage0/src/middleend/lower/pattern.rs:93-191 | unless an arm that is tested for stands before a condition, the tree selects, for every value and every outcome of guards, the first arm that matches the value, or the fallback or unreachable block when none does |
| Matching.BranchReachesFirstMatch | stage0/src/middleend/lower/pattern.rs:39-191 | both steps together, for values: running from the entry of the branch is running from the block of the first arm that the value of the scrutinee matches, or from where control goes when none does |
| Matching.ScrutineeIsStored | stage0/src/middleend/lower/control.rs:43-96 | the statements in front of a branch leave, in the operand that is switched on, the value, or the tag of a union, and change no trace |
| Matching.UntestableArmIsPassedOver | stage0/src/middleend/lower/pattern.rs:111-114 | a literal arm that cannot be tested for is passed over, also by the values it stands for |
| Matching.NumeralsAndStringsPassedOver | stage0/src/middleend/lower/pattern.rs:194-200 | such are numerals with a radix prefix or underscores and all strings: 42 is not matched by `0x2A`, 1000 not by `1_000`, no string by itself |
| Matching.OkMustComeFirst | stage0/src/middleend/lower/pattern.rs:203-209 | a union that declares `Ok` as its second variant has that arm entered by values of its first |
| CodegenTypes.CodegenContext.HirTypeSize | stage0/src/backend/llvm/ty.rs:45-114 | the recursion with its loops over fields and variants computes the specified size, or the first error, overflow included |
| CodegenTypes.CodegenContext.HirTypeAlign | stage0/src/backend/llvm/ty.rs:117-159 | the same for alignments |
| Layout.SizeCoversShape | stage0/src/backend/llvm/ty.rs:36-44 | the computed size of a convertible type is at least what LLVM allocates for its shape, the computed alignment at least the shape's; both are equal on tight types |
| Layout.FieldsCover | stage0/src/backend/llvm/ty.rs:67-75 | field by field, computed offsets never fall behind those LLVM gives the converted fields |
| Layout.UnionFits | stage0/src/backend/llvm/ty.rs:89-100 | a union's computed size covers its pair of discriminant and slot, and equals it when the largest payload is aligned at least as strictly as the others |
| Layout.AlignIsStandard | stage0/src/backend/llvm/ty.rs:117-159 | a type that has a size has an alignment, and it is 1, 2, 4 or 8 |
| Layout.UndefinedFails | stage0/src/backend/llvm/ty.rs:57-87 | without a module, or with an id it does not have, sizes, alignments and conversions of structs and unions fail, each with its own error |
| TypeConversion.AnySizeCoversAnyShape | stage0/src/backend/llvm/ty.rs:45-162 | whatever depths size and shape were computed with, the size covers the shape |
| LayoutSlots.ErrUnionSlotHoldsBothIff | stage0/src/backend/llvm/ty.rs:300-308 | the slot, its length cut to 32 bits, has room for both computed sizes iff both are below 2^32 |
| LayoutSlots.ErrUnionSlotHoldsPayloads | stage0/src/backend/llvm/ty.rs:293-314 | then it has room for what LLVM allocates for either payload |
| LayoutSlots.SlotHoldsIff | stage0/src/backend/llvm/ty.rs:229-255 | a payload fits the slot iff LLVM allocates no more for it than for the selected payload, the first of largest computed size |
| LayoutSlots.RoomForAllIff | stage0/src/backend/llvm/ty.rs:243-251 | the shape of a type of less than 2^32 octets has room for every type that is computed to be no larger iff LLVM allocates for it as much as is computed |
| LayoutSlots.SlotIsRightIff | stage0/src/backend/llvm/ty.rs:229-255 | so choosing the slot by computed size is right, whatever variants of at most that size there are, iff computed and allocated size of the selected payload agree |
| LayoutSlots.TightSelectionHoldsEveryPayload | stage0/src/backend/llvm/ty.rs:229-255 | so it is enough that the selected payload is tight, or that none is selected |
| LayoutSlots.TightHasNoSlack | stage0/src/backend/llvm/ty.rs:36-44 | they agree on tight types |
| LayoutSlots.SlotTooSmall | stage0/src/backend/llvm/ty.rs:243-251 | a module whose union reserves 24 octets for a payload of 28 |
| ConversionEnds.SizeEnds | stage0/src/backend/llvm/ty.rs:45-159 | sizes and alignments are computed to the end when no type contains itself by value |
| ConversionEnds.EndsIff | stage0/src/backend/llvm/ty.rs:45-316 | sizing, alignment and conversion end, at some depth, iff no computation they get to calls for itself |
| ConversionEnds.ConversionEndsIff | stage0/src/backend/llvm/ty.rs:162-316 | so conversion of a type ends iff no definition it gets to reaches itself: through fields, pointees, parameters and results, and those payloads of a union that are larger than all before them |
| ConversionEnds.SelfCallNeverEnds | stage0/src/backend/llvm/ty.rs:21-34 | what calls for itself is too deep at every depth |
| ConversionEnds.PointerCircleNeverConverts | stage0/src/backend/llvm/ty.rs:21-34 | structs that begin with pointers to one another, around a circle of any length, are never converted, at any depth: the cache is filled too late |
| ConversionEnds.LinkedNode | stage0/src/backend/llvm/ty.rs:21-34 | a struct of one pointer to itself has a size of 8 all the same |
| ConversionEnds.UnselectedPointerConverts | stage0/src/backend/llvm/ty.rs:229-255 | a union that points to itself converts when an earlier payload is as large as the pointer |
| TypeConversion.ConvertStable | stage0/src/backend/llvm/ty.rs:162-316 | more depth never changes an answer of the conversion |
| ShapeForms.ConversionKeepsForm | stage0/src/backend/llvm/ty.rs:162-316 | every conversion that succeeds is of the form of its type: the same scalars at the same octets, an address at 0 and a length at 8 for text and slices, a tag before the largest payload, fields in order, elements one behind the other |
| ShapeForms.FormIsAllocated | stage0/src/backend/llvm/ty.rs:36-44 | and the form takes the octets, and has the alignment, that LLVM allocates the shape with |
| ShapeForms.PartsByIndex | stage0/src/backend/llvm/rvalue.rs:211-245 | the parts that generated code takes out by index are there: address and length, the tag, and field `i` in part `i` |
| CodegenTypes.CodegenContext.ConvertType | stage0/src/backend/llvm/ty.rs:21-34 | the cache only grows, holds only what conversion without it comes to, and never changes an answer or makes one fail |
| CodegenTypes.CodegenContext.ConvertTypeUncached | stage0/src/backend/llvm/ty.rs:162-316 | every form is converted as without a cache |
| CodegenTypes.AnswerIsConversion | stage0/src/backend/llvm/ty.rs:21-34 | where the conversion without a cache ends, the answer with it is the same |
| Escape.EscapeContext.FindBinding | stage0/src/frontend/escape/context.rs:94-115 | the backward search over scopes finds the last binding of a name among all in scope, or that there is none |
| Escape.EscapeContext.MarkAsMoved | stage0/src/frontend/escape/context.rs:118-124 | only the innermost binding of the name changes, and only if it is an own one |
| Escape.EscapeContext.SnapshotMoves | stage0/src/frontend/escape/context.rs:127-137 | the states of all own bindings, outermost first |
| Escape.EscapeContext.RestoreSnapshot | stage0/src/frontend/escape/context.rs:140-146 | each entry in turn resets the innermost binding of its name |
| MoveCheck.EscapeChecker.Walk | stage0/src/frontend/escape/checker.rs:54-150 | walking an expression changes bindings and log as the specification says and leaves the shape of the scope stack as it was |
| MoveCheck.EscapeChecker.WalkStmt | stage0/src/frontend/escape/checker.rs:152-196 | the same for statements, which may add to the innermost scope only |
| MoveCheck.EscapeChecker.WalkBranch | stage0/src/frontend/escape/checker.rs:120-145 | every arm starts from the restored states; afterwards whatever any arm moved is marked |
| MoveCheck.EscapeChecker.CheckModule | stage0/src/frontend/escape/checker.rs:26-46 | every function is checked in a context of its own, and the reports come one function after the other; which they are is said by `MoveCheckIsExact`, `EscapesAreLexical` and `NothingOwnNothingMoved` |
| MoveGrowth.RestoredAt | stage0/src/frontend/escape/context.rs:140-146 | restoring a snapshot puts every visible own binding back and leaves hidden ones alone, shadowing included |
| MoveGrowth.JoinAt | stage0/src/frontend/escape/checker.rs:135-144 | after the join a binding counts as moved iff it did before, or it is a visible own one moved in some snapshot |
| MoveGrowth.CheckLevel | stage0/src/frontend/escape/checker.rs:54-150 | no check forgets a move, a binding in scope or a report |
| MoveSoundness.SoundExpr | stage0/src/frontend/escape/checker.rs:54-150 | whatever run is taken through an expression, the checker counts as moved all that is moved and has reported every use after a move: of the expression as it is written, if nothing a deferred expression mentions is given away behind it in its block, and in any case of the expression with deferred ones moved behind what is left of their blocks |
| MoveSoundness.MoveCheckIsSound | stage0/src/frontend/escape/checker.rs:35-46 | if no use after a move is reported for a function, no choice of arms makes one; jumps, failing propagations, shadowing, and deferred expressions under that proviso included |
| MoveSoundness.UndeferredCheckIsSound | stage0/src/frontend/escape/checker.rs:193-193 | without the proviso, if none is reported for the function with its deferred expressions moved to where they run |
| MoveSoundness.DeferredUseMissed | stage0/src/frontend/escape/checker.rs:193-193 | a deferred use that runs after a move and is not reported |
| MoveSoundness.LoopIsOneRound | stage0/src/frontend/escape/checker.rs:120-123 | a loop is checked as its subject and one round of its body |
| MoveSoundness.SecondRoundMissed | stage0/src/frontend/escape/checker.rs:120-123 | so a loop that gives away an own binding draws no report, although its body written twice does |
| MoveSoundness.LiteralUseMissed | stage0/src/frontend/escape/checker.rs:147-148 | nor does a use after a move inside an array literal, which every run makes |
| MoveFraming.RunsFrame | stage0/src/frontend/escape/checker.rs:54-196 | a run changes no binding in scope whose name it does not give away |
| MoveFraming.CarryRun | stage0/src/frontend/escape/checker.rs:54-196 | a run can be repeated from where at least as much is moved among the names it mentions, and then makes the same misuses |
| MoveExactness.MoveCheckIsExact | stage0/src/frontend/escape/checker.rs:35-46 | on bodies without jumps, deferred expressions and shadowing, a use after a move is reported iff some choice of arms makes one |
| MoveExactness.ModuleCheckIsExact | stage0/src/frontend/escape/checker.rs:26-32 | and so for a module, with one sink for all its functions |
| EscapeScopes.EscapesAreLexical | stage0/src/frontend/escape/checker.rs:26-246 | for every module, loops and deferred expressions included: the reports that a borrow escapes are, in order, those of its text; a name is returned, or stored into a field, whose innermost binding is a `let` with a borrow type, never a parameter, an arm's name or a `let` of another type; what has been moved plays no part |
| EscapeScopes.NothingOwnNothingMoved | stage0/src/frontend/escape/checker.rs:249-255 | a function in which no parameter and no `let` has an own type is never reported to use what was moved, whatever it does |
| UndeferredRuns.UndeferredCheckIsExact | stage0/src/frontend/escape/checker.rs:193-193 | on bodies without jumps and shadowing, with deferred expressions: some run makes a use after a move iff one is reported for the body with these moved behind what is left of their blocks, in reverse order |
| Tokens.OperatorReadsBack | stage0/src/frontend/parser/expr.rs:25-34 | the token of an operator is recognised as that operator, in its tier |
| Tokens.PowersFollowTiers | stage0/src/frontend/parser/expr.rs:25-42 | the numbers put the operators into the nine tiers of the language, given as sets from the comma up to multiplication: a token is an operator iff it is in one, it is read at a minimal power iff its tier is, and one more than its power is the next tier |
| Printing.SpineFolds | stage0/src/frontend/parser/expr.rs:20-50 | a tree is its leftmost operand at a level, folded with operators each no tighter than the one before |
| Printing.SpinePrints | stage0/src/frontend/parser/expr.rs:20-50 | and prints as that operand followed by those operators with their right operands |
| Printing.ChainPrints | stage0/src/frontend/parser/expr.rs:161-239 | an operand with its suffixes prints as that operand at prefix level, then suffix by suffix, which is the order the postfix loop reads them in |
| Printing.PrefixBeforeSuffix | stage0/src/frontend/parser/expr.rs:109-147 | a prefix operator, a name and a field without parentheses are the field of the prefixed name, never the prefix of the field |
| Printing.ParenthesesExactlyWhenNeeded | stage0/src/frontend/parser/expr.rs:668-680 | two operators in a row without parentheses are the left grouping iff the second is in the tier of the first or in a looser one, the right grouping otherwise |
| Parser.Parser.Bump | stage0/src/frontend/parser/parser_impl.rs:64-71 | moves to the next token that is not a comment, and stays at the end of file |
| Parser.Parser.PeekAhead | stage0/src/frontend/parser/parser_impl.rs:45-57 | the kind that many tokens ahead, comments apart; the end of file beyond |
| Parser.Parser.ExpectPunct | stage0/src/frontend/parser/parser_impl.rs:93-99 | consumes the mark, or reports error 2001 there and stays |
| Parser.Parser.RecoverToItem | stage0/src/frontend/parser/parser_impl.rs:123-130 | stops at the first `::` ahead, or at the end |
| Parser.Parser.ParseExprBp | stage0/src/frontend/parser/expr.rs:17-53 | terminates and moves forward on every stream; where the tokens ahead print a tree from the tier on that this power admits, returns that tree, stops at its end and reports nothing |
| Parser.Parser.ParsePrefix | stage0/src/frontend/parser/expr.rs:56-158 | the same for the forms an expression starts with: atoms, prefix operators with their operand, array literals and trees in parentheses |
| Parser.Parser.ParseRet | stage0/src/frontend/parser/expr.rs:683-700 | without a value iff `}`, `;` or the end comes next, and then nothing more is read; where a tree above the comma is printed, that is the value |
| Parser.Parser.ParsePostfix | stage0/src/frontend/parser/expr.rs:161-239 | terminates and moves forward; where the suffixes of a tree are printed ahead, reads all of them and no more; a token that starts no postfix form leaves operand, cursor and reports alone |
| Parser.Parser.ParseOnePostfix | stage0/src/frontend/parser/expr.rs:164-236 | which form each suffix makes of its operand; a capital letter behind the dot leaves the dot for a variant |
| Parser.Parser.ParseList | stage0/src/frontend/parser/expr.rs:307-327 | terminates on every stream; where a list is printed ahead, reads those items up to the closing mark and reports nothing |
| Parser.NextSuffix | stage0/src/frontend/parser/expr.rs:161-239 | a postfix token is ahead exactly while a suffix is left to be read |
| Parser.NextItem | stage0/src/frontend/parser/expr.rs:307-327 | the closing mark is ahead exactly when every item has been read, since no printed tree starts with it |
| Parser.Parser.ParseBlock | stage0/src/frontend/parser/expr.rs:330-417 | terminates and moves forward even where the opening brace is missing or statements read nothing; where a block of such statements is printed ahead, returns them, stops behind its brace and reports nothing, unless the last one is a match `? e is { }`: then there is one statement too many |
| Parser.ParsePrintedBlock | stage0/src/frontend/parser/expr.rs:340-413 | printing a block of bindings, assignments, deferred and plain expressions and matches, each closed off from the next, and parsing it gives its statements back iff the last one is not a match |
| Printing.SeparationMatters | stage0/src/frontend/parser/expr.rs:340-413 | statements that are not closed off from one another print the tokens of other ones |
| Parser.Parser.ParseGuards | stage0/src/frontend/parser/expr.rs:345-405 | guards that are collected have been read, so the block goes on from further ahead; matches in between become statements of their own, and all that come next in a printed block are read |
| Parser.Parser.ParseStmt | stage0/src/frontend/parser/stmt.rs:13-99 | terminates and moves forward in every form of statement; where the tokens ahead print a binding, an assignment, a deferred or a plain expression, returns that statement, stops at its end and reports nothing |
| Parser.Parser.ParseLet | stage0/src/frontend/parser/stmt.rs:13-99 | a name before `:` or `:=` starts an immutable binding of that name, with its type and value read back |
| Parser.MarkedBinds | stage0/src/frontend/parser/stmt.rs:62-91 | a name marked `~` before `:=` becomes a mutable binding of that name |
| Parser.StmtStart | stage0/src/frontend/parser/stmt.rs:13-99 | `defer` comes first iff the statement is deferred; a binding starts with a name and `:` or `:=`, and no other printed statement does, so none is taken for another |
| Printing.FirstTokens | stage0/src/frontend/parser/stmt.rs:13-99 | a printed tree never begins with `defer`, a brace, a closing mark or a branch, and a name at its start is never followed by `:` or `:=`, so two tokens tell it from a binding |
| Parser.Parser.ParsePattern | stage0/src/frontend/parser/expr.rs:580-661 | terminates and moves forward in every form of pattern; its first tokens decide the form; a printed pattern is read back iff it is no condition that starts with a literal, or with a name that no operator mark follows |
| Parser.Parser.ParseBindings | stage0/src/frontend/parser/expr.rs:591-608 | where names with commas between them are printed up to the closing mark, those are the bindings of the variant |
| Parser.Parser.ParseArm | stage0/src/frontend/parser/expr.rs:538-561 | pattern, arrow, body; without an arrow behind the pattern the body is empty, nothing more is read and error 2001 is reported there; a printed arm is read back iff its pattern is |
| Parser.Parser.ParseArmBody | stage0/src/frontend/parser/expr.rs:566-576 | `ret`, `stop` and `skip` make these forms, `jmp` and `break` nothing; a printed tree is read back |
| Parser.Parser.ParseArms | stage0/src/frontend/parser/expr.rs:516-535 | terminates, since an arm that reads nothing ends the list; printed arms are read back, up to the brace and without a report, iff all their patterns are |
| Parser.Parser.ParseBranch | stage0/src/frontend/parser/expr.rs:420-468 | terminates and moves forward; a printed guard is read back, and a printed branch with arms iff all its patterns are |
| Parser.Parser.ParseLoop | stage0/src/frontend/parser/expr.rs:471-513 | terminates and moves forward; the tag is the name behind the mark, if that is one; a printed loop is read back iff its subject is not taken for a tag and its block does not end in a match |
| PrintingArms.CallIsTakenForBinding | stage0/src/frontend/parser/expr.rs:638-653 | a call as the condition of an arm is not read back: its callee is taken for a binding |
| PrintingArms.ComparisonOfName | stage0/src/frontend/parser/expr.rs:474-488 | a comparison that starts with a name is read as the condition of an arm, but as the subject of a loop its name is taken for the tag |
| Parser.Parser.ParseType | stage0/src/frontend/parser/decl.rs:239-294 | terminates and moves forward on every stream; where the tokens ahead print a type, returns that type, stops at its end and reports nothing |
| Parser.TypeShape | stage0/src/frontend/parser/decl.rs:239-294 | the first tokens of a printed type decide its form, and its parts are printed right behind them |
| Parser.ParsePrinted | stage0/src/frontend/parser/expr.rs:12-53 | for every tree of those forms, printing it and parsing gives the same tree back, consumes all of its tokens and reports nothing |
| Parser.ParseTwoOperators | stage0/src/frontend/parser/expr.rs:17-53 | for all operators and operands: `x p y q z` reads as the left grouping iff `q` is in the tier of `p` or in a looser one, and else as the right one |
| Parser.ParsePrintedGuard | stage0/src/frontend/parser/expr.rs:424-437 | printing `? condition => body` and parsing it gives both back, consumes all tokens and reports nothing |
| Parser.ParsePrintedBranch | stage0/src/frontend/parser/expr.rs:420-468 | printing `? { arms }` or `? e is { arms }` and parsing it gives it back iff every condition among the patterns starts like one, and then without a report |
| Parser.ParsePrintedLoop | stage0/src/frontend/parser/expr.rs:471-513 | printing a loop, with or without tag and subject, and parsing it gives it back iff it has a tag or its subject does not start with a name, and its block does not end in a match |
| Utf8.DecodeEncoded | stage0/src/ice.rs:62-65 | decoding the UTF-8 form of a text gives the text, for every text |
| Utf8.EncodeDecoded | stage0/src/ice.rs:62-65 | what decodes is the UTF-8 form of the result: no other form is accepted |
| Utf8.FittingIsLastBoundary | stage0/src/ice.rs:31-36 | the longest run of whole characters that fits ends at the last character boundary within the room |
| FixedBuf.FixedBuf.PushStr | stage0/src/ice.rs:28-44 | appends the most characters that fit, keeps what was there, and sets the flag iff that was not all |
| FixedBuf.FormatU32 | stage0/src/ice.rs:47-60 | the scratch array of ten suffices, and holds the canonical digits, which read back as the number |
| FixedBuf.FixedBuf.PushU32 | stage0/src/ice.rs:47-60 | appends those digits as far as they fit |
| FixedBuf.FixedBuf.AsStr | stage0/src/ice.rs:62-65 | the octets are always well formed, and decode to what was appended |
| FixedBuf.PushAll | stage0/src/ice.rs:19-60 | any sequence of pushes leaves exactly the specified text and flag |
| FixedBuf.TruncatedIffTooLong | stage0/src/ice.rs:15-16 | the flag is set iff the whole text does not fit, iff something was lost |
| FixedBuf.HeldIsBeginningIff | stage0/src/ice.rs:28-44 | for any sequence of pushes, the text held is a beginning of the text wanted iff, once a push was cut, each later one is empty or starts with a character too wide for the room left |
| FixedBuf.GapAfterTruncation | stage0/src/ice.rs:28-44 | which can fail: a later, shorter push still lands |

## Left out

- Diagnostics: message texts, child notes and rendering; counters are unbounded, not 32 bits wide.
- HIR: floats and strings are labels; bit operations and shifts are answered by the environment; a call reaches those locals of the caller whose address has been taken anywhere before, whether or not it is handed the address.
- Validation: the definition and use maps that `local.rs:155-180` collects are read by nothing and are left out; message texts.
- The passes and both validators are not called by the driver; they are modelled as written.
- DeadStore.EliminateRefines: asks for no dereference, no address-taking and no read of a plainly assigned local outside the collected uses, because outside that fragment the pass changes results (module `DeadStoreLimits`); one direction only, because removing a dead trapping division is allowed.
- Modules: syntax trees and export tables inside a module record; file discovery and path resolution.
- Lowering: everything but decision trees and their blocks; the operand of a lowered condition and the blocks of the arms are given; the bits of a float numeral are not given, and such an arm labels no case, as in the source; `compile_variant_pattern` has no caller.
- Pattern bindings: they are ignored by the compiled tree, as in the source.
- Layout: building LLVM values; the depth parameter stands for the call stack; arithmetic overflow counts as an error, as in builds that check it.
- Layout.SizeCoversShape: integer and float widths are the documented ones (8 to 64, 32 and 64); the frontend produces no others.
- MoveSoundness.MoveCheckIsSound: excludes loops (the checker walks a body once), literals with parts and condition arms (it skips their expressions); of deferred expressions it asks that nothing they mention is given away behind them, without which it is false (`DeferredUseMissed`) and `UndeferredCheckIsSound` takes its place.
- Borrow escapes (E5002, E5003): what is reported is specified by scoping (`EscapesAreLexical`); no claim is made that a borrow which is not reported stays where it is.
- Parsing: node spans are those of the first token, where a later phase needs one; top-level declarations, the lexer, and recursion depth, which is bounded by the tokens that are left but not otherwise.
- Parser.Parser.ParseStmt: the round trip covers bindings, assignments, deferred and plain expressions without branches, loops, blocks, jumps, variant values and the prefix `*`, and blocks of those and of matches without arms. Branches and loops have round trips of their own, with such trees and blocks in them, not inside other expressions; jumps, variant values and the prefix `*` are built as in the source, and specified by their form, progress and termination.
- FixedBuf: the fixed texts of the report and writing them to standard error.
- Tables that would only add easy members: keywords, error codes, visitors, printers, bench scripts; the type checker and the resolver, wide tables with few invariants.
