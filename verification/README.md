# Verified model of Plan Auditor's deterministic core

A plan is a list of steps with dependencies, declared outputs, requirement coverage and checks. Plan Auditor seals it,
plans it, audits it and keeps evidence of what it did. This project models the parts of it that decide something without
looking outside, and proves what they promise.

| file | what it models |
|---|---|
| `Sequences.dfy`, `Text.dfy`, `Plans.dfy` | sequences and orders, numerals, trimming and string order, the plan document |
| `Planning.dfy`, `Search.dfy` | the STRIPS contract, the greedy solver, the bounded breadth-first solver with pruning and duplicate detection |
| `Pddl.dfy` | the exported PDDL `:strips` problem and the meaning of its plans |
| `PlanGraph.dfy` | prerequisite graph, Kahn's order, transitive closure, output links |
| `Compiler.dfy`, `Formalize.dfy`, `Witness.dfy` | the compiler from plans to contracts, the contract parser, installation and recompilation, semantic alignment, a worked example |
| `Evidence.dfy`, `Tail.dfy` | the chained evidence log with rotation and checkpoint, every durable state of an append, the windowed tail reader, archive names |
| `Audit.dfy`, `Alignment.dfy` | the audit engine, the separate proof checker over its log, the host's request, and the end-to-end statement |
| `Trees.dfy`, `Snapshot.dfy` | a tree with links that paths are followed through, snapshots and restore over it |
| `Locking.dfy` | the registry write lock as interleaved steps of any number of processes |
| `Agents.dfy`, `Registry.dfy`, `Quiescence.dfy` | agent records and exclusive ownership, the registry files and operations, the final-audit freeze over every interleaving |
| `Sealing.dfy` | the plan contract and its hash, and the check that a later plan only strengthens a sealed one |

Code that changes things in place is a class with methods (`EvidenceLog`, `Workspace`, `Auditor`, `MultiAgentRegistry`)
or a method with loops, each proved against a specification; protocols of several processes are step relations; the
rest is functions.

## Assumptions

- SHA-256 is a constructor (`Digest`, `Sha`), hence injective and never `GENESIS`; canonical JSON is equality of values.
  In the compiler the two hashes and the cleaning of output names are parameters, and `InjectiveOutputs` says that an
  output fact determines its step and name; `DigestSeparatesOutputs` derives it from an injective digest (the program
  keeps twelve hexadecimal digits).
- A record's HMAC is the key it was made with. A check run is an oracle that sees the check, the workspace and a clock,
  and may change the workspace. Time is an integer that never runs backwards.
- Writing one record, replacing one file and removing one entry are single steps; so is the re-read and removal of a
  dead owner's lock. A path is the sequence of its names.

## What the proofs found

- The compiler trims declared output names but not the references to them. A reference with surrounding white space can
  pass link validation and compile, yet the compiled contract never parses. `CompiledParses` gives the exact condition.
- Records whose checkpoints were lost are made good by the next completed append if there was no checkpoint yet, by the
  next rotation if the checkpoint counted no record, and after a single loss if it counted one; two losses over a
  checkpoint that counts a record break the chain for good (`InterruptionsExactly`). So does one lost right after a
  rotation stopped before its own checkpoint; `AttemptsExactly` and `RepairableExactly` cover every sequence of appends
  that stop anywhere.
- The doubling window counts blank lines as line breaks: a last line followed by blank lines is cut exactly when it does
  not fit into the first window with them (`BlankLinesExactly`). Archive names sort by age exactly below 10^8 archives
  (`ListingIsCreationOrderExactly`).
- A restore follows a link that has replaced a directory above an explicit root, and overwrites what lies behind it
  (`FollowedLink`). `RestoreExplicit` says when: if the links above recorded roots lead out of the scope, exactly if
  there is one.
- A restore checks recorded link targets in the changed workspace, and refuses to undo some changes that no snapshot
  would refuse (`EscapingTarget`); `RestoreUndoes` gives the exact condition.
- A walk skips a link with a skipped name only while it leads to a directory, so a full restore can leave such a link
  where the next walk sees it (`LeftoverSkipLink`); `RestoreUndoes` gives the exact condition.
- An agent that outlived its timeout and beats again can share files with the agent that claimed them meanwhile
  (`LateHeartbeatOverlaps`); `OverlapExactly` says when an operation creates an overlap.
- A freeze file cut short by a crash blocks mutations and audits until someone removes it (`CrashInBeginBlocksForever`).
- Three functions fail on plans that the schema refuses: `validate_plan` rejects null tools, an empty step list and a
  repeated step id (scripts/audit_check.py:487-494, 524-527, 541-543), and only plans that pass it are sealed. Taken
  alone, sealing a plan with null tools gives a seal that fails its own check (`FreshSealConsistentExactly`), the
  strengthening check sees only the last step of a repeated id (`DistinctIdsExactly`), and auditing a plan without steps
  succeeds although no proof of it is valid (`AuditThenProve`). For schema-valid plans see `SchemaValidSeal`.

## Model

| member | source | states |
|---|---|---|
| Planning.Candidates | supervisor/formal_planning.py:388-392 | lists exactly the steps that are not done, whose dependencies are done and whose preconditions hold, by ascending id |
| Planning.MonotonicFacts | supervisor/formal_planning.py:356-357 | without delete effects the facts after any order are the initial facts plus everything the executed steps add |
| Planning.DeadEnd | supervisor/formal_planning.py:393-400 | if nothing applies after a greedy prefix although steps are left, then no order of any kind executes every step |
| Planning.EveryPrefixExtends | supervisor/formal_planning.py:378-414 | in a solvable delete-free contract every executable prefix extends to a full solution |
| Planning.MonotonicSolve | supervisor/formal_planning.py:378-414 | PASS returns a solution, on delete-free contracts the lexicographically least of all; REJECT there means that no solution exists |
| Search.PruningIsSound | supervisor/formal_planning.py:417-437 | the dead-state test never fires on a state that some solution passes through |
| Search.PruningExactly | supervisor/formal_planning.py:417-437 | the dead-state test fires exactly when a goal is false that no step left adds, or a step left needs a false fact that no other step left adds |
| Search.Expand | supervisor/formal_planning.py:468-478 | queues exactly the unseen successors, by ascending step id, and every successor's state is seen afterwards |
| Search.TrackedAfterExpansion | supervisor/formal_planning.py:468-478 | merging on (facts, done) loses no solution: its next state is queued, reached by an order no worse than the solution's |
| Search.FirstFoundIsLeast | supervisor/formal_planning.py:461-464 | the first complete goal state taken from the queue carries the lexicographically least solution |
| Search.LiveStatesCounted | supervisor/formal_planning.py:453-478 | once the queue is empty, what was taken off it are the states reachable without passing through a hopeless one, each exactly once |
| Search.HopelessStart | supervisor/formal_planning.py:426-436 | a contract that is hopeless from the start has no solution and one live state |
| Search.SearchSolve | supervisor/formal_planning.py:440-489 | PASS returns the least solution; REJECT means there is none, and exactly the live states were looked at; UNKNOWN means more than `max_states` live states; a contract that is hopeless from the start is rejected after one state; it always terminates |
| Search.StateSpaceIsFinite | supervisor/formal_planning.py:451-460 | more than n reachable states implies more than n pairs of a fact set and a step set, so a large enough bound always decides |
| Search.BothSolvers | supervisor/formal_planning.py:378-489 | on a delete-free contract both solvers give the same verdict and the same order unless the bound is hit, and it is hit only if there are more live states than it |
| Search.Solve | supervisor/formal_planning.py:541-553 | whichever solver the contract selects, PASS is the least solution, REJECT is unsolvability and the verdict on every contract hopeless from the start, UNKNOWN only with delete effects and too many live states |
| Pddl.FactMapping | supervisor/formal_planning.py:556-562 | every fact of the contract gets a name and no two facts share one |
| Pddl.Simulates | supervisor/formal_planning.py:572-632 | running any step sequence in the exported problem succeeds exactly when the order is executable, and then reaches the encoding of the contract's state |
| Pddl.ExportPreservesMeaning | supervisor/formal_planning.py:572-632 | a sequence of any length is a valid plan of the exported problem if and only if it is a solution of the contract |
| Pddl.ExportWellFormed | supervisor/formal_planning.py:572-632 | every atom used in the problem is a declared predicate |
| PlanGraph.Release | scripts/plan_graph.py:98-101 | lowers the count of exactly the dependents of the placed step and adds exactly those that reach zero |
| PlanGraph.TopologicalOrder | scripts/plan_graph.py:79-105 | returns the order that is least by list position among all orders with every dependency earlier; it fails if and only if the graph has a cycle |
| PlanGraph.TopologicalMeansAcyclic | scripts/plan_graph.py:79-105 | a graph with a topological order has no cycle |
| PlanGraph.StuckMeansCycle | scripts/plan_graph.py:102-104 | when no step is ready and some are unplaced, there is a cycle that runs through unplaced steps only |
| PlanGraph.CloseStep | scripts/plan_graph.py:108-118 | from complete closures of the parents, one union pass gives exactly the steps reachable from this one |
| PlanGraph.GraphMeans | scripts/plan_graph.py:24-76 | the graph is accepted exactly when ids are positive and distinct, only a single step leaves its list out, and every listed dependency is the id of another step, listed once |
| PlanGraph.TransitiveDependencies | scripts/plan_graph.py:108-118 | one pass over the order computes for every step exactly the set reachable along dependency edges |
| PlanGraph.ReferenceErrors | scripts/plan_graph.py:205-220 | reports exactly the references to an unknown step, to a step that is not an ancestor, or to an output its step does not offer, where a step with refused outputs offers none |
| PlanGraph.FaultlessExactly | scripts/plan_graph.py:170-221 | no fault of any kind exists if and only if the links are valid: acyclic accepted graph, well-formed outputs, every edge backed by a reference, every reference to a declared output of an ancestor |
| PlanGraph.LinksMean | scripts/plan_graph.py:121-221 | links are valid exactly when these graph rules hold, there is no cycle, outputs are named, distinct and checked, references are well-formed and distinct, every dependency is backed by a reference, and every reference is to an output that an ancestor declares |
| PlanGraph.ValidateOutputLinks | scripts/plan_graph.py:170-221 | reports exactly the faults, hence nothing if and only if the plan keeps the rules for its graph, outputs, references and links |
| Compiler.CompileContract | supervisor/formal_compiler.py:215-331 | compiles exactly the plans that keep the rules for requirements, graph, outputs, references and coverage; the contract starts with the source marker, has for each step in order the action that needs its required outputs and adds its completion, its outputs and the requirements it satisfies, and its goals are exactly the facts that actions add |
| Compiler.CompiledContents | supervisor/formal_compiler.py:215-331 | what a compiled contract contains, action by action, and that its goals are exactly what its actions add |
| Compiler.CompilesExactly | supervisor/formal_compiler.py:120-331 | a plan compiles exactly when it keeps the rules: nothing else makes compilation raise |
| Compiler.ParsesExactly | supervisor/formal_planning.py:174-289 | a contract parses exactly when its lists are well-formed, it has one action for each step, no action adds what it deletes, and every precondition, deletion and goal is initial or added by some action |
| Compiler.StepFactsDiffer | supervisor/formal_compiler.py:105-107 | completion facts of different steps differ |
| Compiler.RefHasSource | supervisor/formal_compiler.py:109-116 | a valid reference has a producing action in the compiled contract if and only if its name is trimmed |
| Compiler.CompiledParses | supervisor/formal_planning.py:174-289 | a compiled contract of a linked plan parses without error if and only if it is within the size limits and all references are trimmed |
| Compiler.UntrimmedReferenceRejected | supervisor/formal_compiler.py:270-272 | the reference " a" of step 1 links and compiles, but the parser rejects the contract |
| Witness.UntrimmedPlanRejected | supervisor/formal_compiler.py:270-272 | a concrete two-step plan, naming its output " a" on both sides, links and compiles but its contract is rejected |
| Witness.TrimmedPlanParses | supervisor/formal_planning.py:174-289 | the same plan with the name "a" links, compiles, and parses exactly when within the limits |
| Witness.DigestSeparatesOutputs | supervisor/formal_compiler.py:109-116 | cleaned names without a colon and an injective digest are enough for output facts to determine step and name |
| Compiler.PreconditionsHold | supervisor/formal_compiler.py:270-272 | in any order respecting the dependencies, every step's compiled preconditions hold when its turn comes |
| Compiler.SolutionsAreTopologicalOrders | supervisor/formal_compiler.py:215-331 | the solutions of the compiled contract are exactly the topological orders of the plan |
| Compiler.CompileAndPlan | supervisor/formal_compiler.py:215-331 | for every accepted, linked plan within limits the solver passes with the least-id topological order, which is the plan graph's own order when ids ascend |
| Formalize.StripGeneratedChecks | supervisor/formal_compiler.py:384-416 | removes exactly the anchor and semantic checks and returns the anchor, or refuses a manual or repeated anchor |
| Formalize.FilterChecks | supervisor/formal_compiler.py:384-416 | keeps exactly the checks that are neither a formal anchor nor a call of the formalizer, as often as they occur |
| Formalize.CompilationDependsOnSources | supervisor/formal_compiler.py:131-164 | plans that differ only in titles, generated checks, required tools, and in writing an empty dependency list or leaving it out (in a one-step plan, or when both leave some out) compile to the same contract |
| Formalize.ProjectionExactly | supervisor/formal_compiler.py:133-190 | the source projection forgets exactly titles, generated checks, required tools, and whether an empty dependency list is written |
| Formalize.StripUndoesInstall | supervisor/formal_compiler.py:384-470 | installing into a stripped plan leaves one anchor, and stripping the result gives back the plan and the anchor's step |
| Formalize.CompilePlan | supervisor/formal_compiler.py:419-470 | compiles exactly the plans with at most one anchor, a marked one, that keep the compile rules and have the requested step; a requested step becomes the anchor, else the old anchor stays, else it is the least step without dependencies or the first step; the result carries the compiled contract there and nowhere else, and the checks the author wrote |
| Formalize.PlanCompiledContents | supervisor/formal_compiler.py:419-470 | the compiled plan is the author's plan with one anchor, where the rules put it |
| Formalize.PlanCompilesExactly | supervisor/formal_compiler.py:419-470 | a plan can be compiled exactly when it keeps the rules |
| Formalize.FormalCheckSays | supervisor/formal_planning.py:128-160 | the installed check names the contract's hash and asks for Fast Downward exactly as the options say |
| Formalize.GeneratedExactly | supervisor/formal_compiler.py:334-366 | a fingerprinted contract validates if and only if it equals the recompilation |
| Formalize.RecompilationIsStable | supervisor/formal_compiler.py:419-470 | the compiled plan validates against its own contract, and compiling it again with the same options returns the same plan |
| Formalize.RequirementErrors | supervisor/formal_semantics.py:229-271 | reports exactly the faults of one requirement: over-long fact, not a goal, true initially, no producer, a non-covering producer, no covering producer |
| Formalize.SilentExactly | supervisor/formal_semantics.py:121-289 | a contract has no semantic fault if and only if it is aligned with the plan |
| Formalize.AlignedMeans | supervisor/formal_semantics.py:121-289 | alignment means: a marked contract is the recompiled one, every action has an effect, and every binding requirement is a goal that is not true at the start and is added by actions of covering steps only |
| Formalize.AnalyzeSemantics | supervisor/formal_semantics.py:121-289 | nothing without an anchor, one error for several anchors, otherwise exactly the semantic faults of the anchored contract |
| Formalize.CompiledPlanAligned | supervisor/formal_semantics.py:121-289 | whatever the compiler installs is aligned, so the semantic analysis reports no error |
| Evidence.AppendKeepsHealth | scripts/audit_check.py:1249-1279 | an append to a healthy store, with or without rotation, leaves everything verifying and adds exactly the entry, after the anchor if the log rotated |
| Evidence.EveryRunVerifies | scripts/audit_check.py:1091-1159 | after every uninterrupted run the chain verifies, archives are anchored, the incremental head is the full-scan head, and the entries are the requests in order (archives in order of creation, which their names follow below 10^8 rotations) |
| Evidence.CrashStates | scripts/audit_check.py:1091-1159 | every durable intermediate state of an append or rotation is healthy, one record ahead of its checkpoint, or just moved to the archive |
| Evidence.NextAppendRepairs | scripts/audit_check.py:1091-1159 | after an interruption at any such state with a usable checkpoint, the next append verifies again and keeps every durable record in place |
| Evidence.RepairedExactly | scripts/audit_check.py:1107-1118 | after one append interrupted before its checkpoint, the next append makes the log verify again if and only if the checkpoint counts a record, is absent, or the append rotates |
| Evidence.TruncationNeverHeals | scripts/audit_check.py:1096-1118 | a log cut below its checkpoint fails verification and still fails after any number of further appends and rotations |
| Evidence.ForeignAppendBreaks | scripts/audit_check.py:1332-1376 | an append under any other key, or without one, makes the log fail for this key, whatever is appended afterwards |
| Evidence.CheckpointBindsHistory | scripts/audit_check.py:1084-1089 | two stores that verify with the same checkpoint hold the same history, archives included: nothing can be changed, dropped, added or moved while the checkpoint stays |
| Evidence.NextIsNew | scripts/audit_check.py:1249-1273 | a new archive gets a number above all there are |
| Evidence.InterruptionsExactly | scripts/audit_check.py:1091-1159 | for any number n >= 1 of records whose checkpoints were lost and any run of appends after them, the log verifies if and only if the run is not empty and: there was no checkpoint; or it counted no record and some append rotates; or it counted a record and n is 1 |
| Evidence.MiscountUntilRotation | scripts/audit_check.py:1107-1113 | a checkpoint that counts too few records stays that short along every run until an append rotates, and from then on the log is healthy |
| Evidence.CountedInterruptions | scripts/audit_check.py:1111-1118 | after two or more lost checkpoints over one that counts a record, the next record links wrongly and the chain is broken |
| Evidence.AttemptsExactly | scripts/audit_check.py:1091-1279 | for any sequence of appends, each stopped at any of its durable states, rotations included: whether the log then verifies is decided by a seven-state table of how far each append got |
| Evidence.RepairableExactly | scripts/audit_check.py:1091-1279 | after any such sequence further appends can make the log verify again if and only if the table has not reached its lost states, and then a single completed append that rotates does it |
| Evidence.StoppedKeepsRecords | scripts/audit_check.py:1091-1279 | an append stopped anywhere leaves every record that was durable before it in its place |
| Evidence.EvidenceLog.WriteRecord | scripts/audit_check.py:1091-1159 | the stored files become the specified state: record linked to the checkpoint's or the real tail, head updated incrementally or by a full scan |
| Evidence.EvidenceLog.MaybeRotate | scripts/audit_check.py:1249-1273 | a full non-empty log is anchored, moved under the next number and its head rewritten; otherwise nothing changes |
| Evidence.EvidenceLog.Append | scripts/audit_check.py:1276-1279 | rotation then record, and a healthy log stays healthy |
| Evidence.VerifyLines | supervisor/evidence.py:92-157 | accepts exactly the lines that chain from the given hash with matching digests and keys, and otherwise counts the lines before the first bad one |
| Evidence.VerifyArchives | supervisor/evidence.py:160-260 | anchored exactly when every archive chains from the last tail before it and stores that tail; without empty archives this is the chain across files |
| Tail.ReadTail | scripts/audit_check.py:930-966 | the doubling loop returns what the first large enough window shows |
| Tail.TailIsLastLine | scripts/audit_check.py:930-966 | on every log the writer produces, of any line lengths, the windowed reader returns exactly the last line |
| Tail.TailHashAgrees | scripts/audit_check.py:930-966 | with any decoder of written lines, the hash read through the window is the hash of the last record |
| Tail.BlankLinesExactly | scripts/audit_check.py:945-957 | for any earlier content, any last line and k blank lines after it, the reader returns the line if and only if k is 0 or the line with its k + 1 line breaks fits into the first window; a full read always returns it |
| Tail.NamesFollowRotations | scripts/audit_check.py:1249-1273 | below 10^8 a smaller rotation number gives a smaller archive name, whatever the time stamps |
| Tail.RotationsCount | scripts/audit_check.py:1249-1273 | each rotation takes one more than the largest number that can be read back from the earlier names |
| Tail.ListingIsCreationOrderExactly | scripts/audit_check.py:969-991 | sorting the archive names lists the archives in order of creation if and only if there are fewer than 10^8 of them |
| Tail.NinthDigitBreaksTheOrder | scripts/audit_check.py:980-991 | rotation 100000000 sorts before rotation 99999999 |
| Audit.Auditor.RunCheckList | scripts/audit_check.py:1856-1869 | runs every check in order, each in the workspace the previous one left, and succeeds exactly when all pass |
| Audit.Auditor.CheckRequired | scripts/audit_check.py:1877-1907 | re-runs the source's checks of every required output and passes exactly when all of them do |
| Audit.Auditor.CheckOutputs | scripts/audit_check.py:2002-2005 | runs the checks of every declared output in order and passes exactly when all of them do |
| Audit.Auditor.AuditStep | scripts/audit_check.py:1942-2038 | appends one record that is the specified result of gate, checks, outputs and workspace comparison, after an archive anchor if the log rotates |
| Audit.Auditor.AuditLoop | scripts/audit_check.py:1942-2038 | visits the steps in order and stops with a guard record when the workspace changed between steps |
| Audit.Auditor.Append | scripts/audit_check.py:1276-1279 | the record becomes the last one, with at most an archive anchor before it |
| Audit.VerifiedStepVouches | scripts/audit_check.py:1960-2038 | a round that ends verified had every dependency verified before it in this audit, left the workspace as it was, and leaves a record that the proof checker accepts |
| Audit.VouchesMeans | supervisor/orchestrator.py:108-164 | a record vouches for a step exactly when it is a verified record of it with its dependencies and a passed result for each of its checks, each check of its outputs and each check of the outputs it requires |
| Audit.OutcomeIsAuditRun | scripts/audit_check.py:1910-2080 | every audit writes one step record after the other in topological order, all of them unless a guard record stops it, then one marker, which is verified if and only if the workspace is unchanged and the records before it are vouching records of all steps and nothing else |
| Audit.AuditSucceedsExactly | scripts/audit_check.py:1936-2080 | an audit succeeds exactly when its checks, run in order, all pass and each group of them leaves the workspace as it was |
| Audit.AuditVerdicts | scripts/audit_check.py:1936-2080 | if every declared check passes whenever it runs and leaves the workspace alone the audit succeeds; if one declared check never passes it fails |
| Audit.Auditor.AuditSteps | scripts/audit_check.py:1910-2080 | nothing at all for an invalid plan; otherwise one audit run, among which rotation may put its anchors, ending in the marker whose verdict is returned; that verdict is true exactly when the declared checks, run in order, all pass and leave the workspace alone |
| Audit.ScanRecords | supervisor/orchestrator.py:167-237 | the streaming loop with its bounded queue computes the scan of the whole log |
| Audit.ScanReadsOwn | supervisor/orchestrator.py:167-237 | the scan of a log depends only on the audit records of that plan in it |
| Audit.FreshFullAuditProof | supervisor/orchestrator.py:167-237 | valid exactly when the last marker of the plan is verified, for this contract, workspace and order, and the credited records vouch for every step |
| Audit.PassingAuditProves | supervisor/orchestrator.py:167-237 | after a passing audit, whatever other records stand before, between and after its own, the proof is valid if and only if the plan has steps |
| Audit.FailingAuditRefutes | supervisor/orchestrator.py:167-237 | after a failing audit, among any other records, no proof is valid, for any workspace and order |
| Audit.AuditThenProve | supervisor/orchestrator.py:167-237 | auditing and then proving the same non-empty plan agree |
| Audit.ProofCreditsOneRun | supervisor/orchestrator.py:108-237 | over any log in which the audits of that plan do not overlap, with anchors, other modes and other plans anywhere between, a valid proof credits exactly the step records of the plan's last audit: same contract, workspace, order and run as its verified marker |
| Alignment.CollectAll | supervisor/request_contract.py:467-497 | collects exactly the steps that cover the requirement in plans that state it unchanged, and exactly the normalised checks of those steps |
| Alignment.AlignItem | supervisor/request_contract.py:431-517 | reports exactly the errors of one requirement, and maps it exactly when some plan states it unchanged |
| Alignment.SilentExactly | supervisor/request_contract.py:411-518 | a requirement has no error if and only if it is stated unchanged and, when binding, covered with all its acceptance checks executed |
| Alignment.AlignedMeans | supervisor/request_contract.py:411-518 | a requirement is aligned exactly when it has an id, some plan states it word for word, and, if it must or should be met, a step of such a plan covers it and each acceptance check is a check of a covering step |
| Alignment.MissingOrModified | supervisor/request_contract.py:411-518 | an unstated requirement is reported as missing when no plan has its id and as modified when one has |
| Alignment.AnalyzeRequestAlignment | supervisor/request_contract.py:411-518 | valid if and only if the request is aligned; errors and mapping are exactly those of its requirements |
| Alignment.CreditedStepPassed | supervisor/orchestrator.py:119-237 | with a valid proof every check of every step is a passed result in a verified record of the plan's last audit run |
| Alignment.EndToEnd | supervisor/request_contract.py:411-518 | if the request is aligned and every plan has a valid proof, each acceptance check of each must/should requirement passed in the credited record of a step covering that requirement |
| Trees.LocatePlain | scripts/audit_check.py:1465-1480 | a path without a link above it names its own place |
| Trees.RealWhereResolved | scripts/audit_check.py:1465-1496 | wherever following a path succeeds, the resolution that the confinement checks use leads to the same place |
| Trees.MakeDirsGrows | scripts/audit_check.py:1715-1722 | making directories, also through links, only adds directories and leaves the path leading to one |
| Trees.MadeDirsWerePlain | scripts/audit_check.py:1715-1722 | without a link on the way it succeeds only if everything on the way is a directory, and creates exactly the missing ones |
| Snapshot.WalkIsClosed | scripts/audit_check.py:1521-1549 | a snapshot of a well-formed tree contains the directories above everything it contains |
| Snapshot.LinklessWalk | scripts/audit_check.py:1521-1549 | without links the walk lists exactly what lies in no directory of a skipped name, and refuses exactly a file of such a name at the top |
| Snapshot.Workspace.RemoveStale | scripts/audit_check.py:1651-1700 | deleting deepest first removes exactly the entries in scope that the snapshot lacks, with what lies below them, and touches nothing outside the scope |
| Snapshot.Workspace.ShapeEntries | scripts/audit_check.py:1710-1715 | without links above the entries, afterwards every entry is a directory or free for its type and nothing else is lost; with links, all that changed lies at or below a touched place |
| Snapshot.Workspace.WriteEntries | scripts/audit_check.py:1717-1740 | without links above the entries, afterwards every file and link is as recorded; with a link that leads out of the scope, the write has touched a place outside |
| Snapshot.Workspace.ChmodDirs | scripts/audit_check.py:1742-1745 | the same for the recorded modes of directories, which are set last |
| Snapshot.Workspace.Restore | scripts/audit_check.py:1651-1763 | a restore that returns normally has the recorded kind, content and target at every entry's place and nothing at recorded absences; without links above the entries every entry is exactly as recorded where it is named and everything else is kept; an entry behind a link out of the scope makes it touch a place outside; it changes nothing if the manifest is malformed, a recorded link would lead out of the changed workspace, or the workspace cannot be walked, and otherwise returns normally for every manifest that contains its entries' ancestors and records no absence |
| Snapshot.RestoredWalk | scripts/audit_check.py:1521-1549 | the walk of the restored tree equals the walk of the snapshotted tree if and only if every link with a skipped name that no skipped directory hides is recorded exactly when it does not lead to a directory |
| Snapshot.Workspace.RestoreUndoes | scripts/audit_check.py:1574-1763 | with full scope it returns normally if and only if the changed workspace can be walked and no recorded link, followed there, leads out of the workspace; otherwise nothing is changed. The result is then exactly the recorded tree plus what the walk skipped, whatever else happened since; the walks agree if and only if the links with skipped names do |
| Snapshot.ExactResult | scripts/audit_check.py:1651-1763 | the guarantees entry by entry determine the restored tree completely |
| Snapshot.WithoutSkipLinks | scripts/audit_check.py:1521-1549 | if links with skipped names lie inside skipped directories only, before and after the change, the restore undoes the change |
| Snapshot.MetadataStays | scripts/audit_check.py:1521-1549 | a full restore changes nothing below .git, .plan-auditor and the cache directories at the top |
| Snapshot.EscapingTarget | scripts/audit_check.py:1483-1496 | concrete run: a/b became a link to c, and the recorded link a/b/l to ../../x, harmless when the snapshot was taken, makes the restore refuse |
| Snapshot.LeftoverSkipLink | scripts/audit_check.py:1530-1549 | concrete trees: a link named __pycache__ to a new directory survives the restore, and the next walk sees it |
| Snapshot.ExplicitFrame | scripts/audit_check.py:1651-1763 | what a restore without links above the entries keeps makes everything outside the roots stay as it was, apart from new directories above an entry |
| Snapshot.Workspace.RestoreExplicit | scripts/audit_check.py:1574-1763 | it records exactly what was there below the roots. Without a link above a root it returns normally exactly when no entry lies below a recorded link or below a file outside the roots, no recorded link leads out, the workspace can be walked, and no absent root is hidden from the walk; then the roots hold exactly what was recorded and the leftovers the walk skips, and outside there is the frame. If the links above recorded roots lead out of the scope: nothing outside is unlinked, written or given a mode if and only if there is no such link |
| Snapshot.RootsDecide | scripts/audit_check.py:1521-1593 | an explicit snapshot records everything from a root down, so links above the recorded roots are the only links above entries |
| Snapshot.InsideTheRoots | scripts/audit_check.py:1706-1763 | after a restore without links above the entries a path inside the roots exists exactly if it was recorded, or was there before and every unrecorded path in the scope that leads to it is skipped by the walk |
| Snapshot.AbsenceExactly | scripts/audit_check.py:1760-1762 | an absent root is absent after the restore exactly if it is no such leftover |
| Snapshot.ExplicitAccepted | scripts/audit_check.py:1660-1688 | the manifest of an explicit snapshot is acceptable exactly if no entry lies below a recorded file or link |
| Snapshot.WritesOutside | scripts/audit_check.py:1718-1759 | if an entry's place lies outside the scope and holds something else, a restore that verifies has changed it |
| Snapshot.TouchedByWrite | scripts/audit_check.py:1718-1740 | writing an entry whose parent leads out of the scope touches a place outside, if nothing outside was touched before |
| Snapshot.FollowedLink | scripts/audit_check.py:1718-1740 | concrete run: d became a link to e, and restoring the root d/x returns normally with e/x overwritten |
| Locking.StepKeepsInvariant | supervisor/lock_hardening.py:41-151 | every step of every process, including death and reuse of process and inode numbers, keeps the lock invariant |
| Locking.StepFollowsProtocol | supervisor/lock_hardening.py:84-151 | a living process only moves along the protocol, a dead one does not move, and only creating, writing, evicting or releasing changes the lock file |
| Locking.MutualExclusion | supervisor/lock_hardening.py:84-151 | in every state of every interleaving at most one live process holds the lock |
| Locking.LiveOwnerNeverEvicted | supervisor/lock_hardening.py:41-68 | while a live process holds the lock no step of another changes it, even before the payload is written |
| Locking.ReleaseFindsOwnToken | supervisor/lock_hardening.py:133-151 | a holder's release check always finds its own token |
| Locking.ReleaseFreesLock | supervisor/lock_hardening.py:133-151 | once a process has released, there is no lock file and nobody holds the lock |
| Locking.DeadOwnerLockIsCleared | supervisor/lock_hardening.py:41-68 | a written lock of a dead process can be removed by any waiting process in three steps |
| Locking.FullCycle | supervisor/lock_hardening.py:84-151 | from a free lock a new process can start, take the lock and give it back |
| Agents.ReplayIsKeyed | supervisor/agents.py:196-207 | a replayed agent map files every agent under its own non-empty id |
| Agents.OperationsExactly | supervisor/agents_hardening.py:243-379 | an operation fails exactly when it is neither a registration nor a departure and its agent is unknown; otherwise who joins is active now, who leaves is gone, the others change what they ask for, and nobody else is touched |
| Agents.ConflictsExactly | supervisor/agents_hardening.py:179-199 | the conflict check finds something exactly when another active agent heard of within its timeout owns one of the files |
| Agents.ReleasesInAnyOrder | supervisor/agents_hardening.py:335-350 | the result of releasing a list of agents does not depend on its order |
| Agents.StaleOwnershipCleared | supervisor/agents_hardening.py:335-350 | after a release no agent is expired, the released ones own nothing and are not live, all others are as before |
| Agents.OverlapExactly | supervisor/agents_hardening.py:179-199 | writing one live agent keeps live owners' files disjoint if and only if the conflict check finds nothing |
| Agents.CarefulKeepsTidy | supervisor/agents_hardening.py:243-379 | an operation that gains files only by a strict claim, from an agent within its timeout, keeps ownership exclusive |
| Agents.OwnershipStaysExclusive | supervisor/agents_hardening.py:243-379 | along every run of such operations, releases and waiting, no two live agents own a common file |
| Agents.LateHeartbeatOverlaps | supervisor/agents_hardening.py:275-288 | for every timeout there is a run, careful but for its last step, where a late heartbeat makes two live agents own the same file |
| Registry.ReadingReplays | supervisor/agents.py:270-389 | the line-by-line reader ends with the agents that replaying all records gives |
| Registry.ReadingValid | supervisor/agents.py:314-344 | the reader sees no tampering in the lines if and only if they are a proper v2 chain or all valid old records |
| Registry.AcceptedExactly | supervisor/agents.py:270-389 | log and checkpoint are accepted if and only if they are a valid v2 registry or a valid old one, and read as old exactly in the second case |
| Registry.CheckpointMismatchRefused | supervisor/agents.py:346-389 | an append stopped before its checkpoint and a log shorter than its checkpoint are both refused |
| Registry.MigrationPreserves | supervisor/agents.py:391-435 | re-chaining keeps the records and yields a valid chain |
| Registry.MultiAgentRegistry.Refresh | supervisor/agents.py:270-389 | memory becomes the replay of the log, and is marked tampered exactly when the files are not acceptable |
| Registry.MultiAgentRegistry.Migrate | supervisor/agents.py:411-435 | a valid old log becomes a valid v2 registry with the same records |
| Registry.MultiAgentRegistry.VerifyLocked | supervisor/agents_hardening.py:120-133 | succeeds exactly on acceptable files, migrating old ones and changing nothing else |
| Registry.MultiAgentRegistry.AppendLocked | supervisor/agents_hardening.py:144-176 | extends the chain by one sealed record and leaves log, checkpoint and memory in agreement |
| Registry.MultiAgentRegistry.Admit | supervisor/agents_hardening.py:96-117 | admits exactly on intact files with no freeze, or one whose process is known and dead; refuses under any other freeze, changing nothing, or on unacceptable files, marking them; intact files stay intact |
| Registry.MultiAgentRegistry.Register | supervisor/agents_hardening.py:243-253 | admitted exactly without an active freeze on intact files, then appends exactly the join record; a refusal changes nothing, or only reads, migrates and drops a stale freeze |
| Registry.MultiAgentRegistry.Unregister | supervisor/agents_hardening.py:255-266 | appends the leave record of a known agent and nothing for an unknown one |
| Registry.MultiAgentRegistry.Heartbeat | supervisor/agents_hardening.py:275-288 | fails for an unknown agent without appending and with log, checkpoint and memory in agreement; otherwise appends exactly the refreshed record |
| Registry.MultiAgentRegistry.UpdateOwnership | supervisor/agents_hardening.py:290-303 | fails for an unknown agent without appending and with log, checkpoint and memory in agreement; otherwise appends exactly the new ownership |
| Registry.MultiAgentRegistry.ClaimFiles | supervisor/agents_hardening.py:360-379 | reports exactly the files held by other live agents; a strict claim is granted exactly when no other agent heard of within its timeout owns a requested file, and only a grant appends |
| Registry.MultiAgentRegistry.ReleaseStaleOwnership | supervisor/agents_hardening.py:335-350 | appends one stale record for each agent that is active but was not heard of for its whole timeout, and no other, even under a freeze, and returns exactly those that lost files |
| Registry.MultiAgentRegistry.BeginAudit | supervisor/audit_session.py:80-116 | creates the freeze exactly when none is active, the files are intact, and every agent has left, was released, or was not heard of for its whole timeout |
| Registry.MultiAgentRegistry.EndAudit | supervisor/audit_session.py:125-136 | removes the freeze exactly when it is this session's own |
| Quiescence.FrozenStep | supervisor/agents_hardening.py:96-117 | no single step that is not the freeze's own release changes a held freeze, appends anything but stale records, revives an agent or begins a session |
| Quiescence.FrozenUntilReleased | supervisor/agents_hardening.py:96-117 | as long as a freeze holds and is not released by its own session, the quiescent state persists along any run |
| Quiescence.FinalAuditIsQuiescent | supervisor/audit_session.py:80-140 | over every interleaving, from creation of the freeze until its living auditor ends it, only stale records appear, every agent has left, was released or is past its timeout, and no second session begins |
| Quiescence.HeardAgentBlocksAudit | supervisor/audit_session.py:71-107 | after an admitted registration, heartbeat or ownership change, whatever happens in between, no session begins before that agent's timeout unless it unregisters |
| Quiescence.CrashInBeginBlocksForever | supervisor/audit_session.py:108-116 | if the process dies before the freeze is written, the malformed freeze is never removed and nothing but stale records is appended |
| Quiescence.DeadAuditorReleases | supervisor/agents_hardening.py:96-112 | the freeze of a dead auditor affects no operation and no new session |
| Quiescence.RunMovesAgents | supervisor/agents_hardening.py:243-379 | every run of the protocol from an empty log, with sessions, freezes and deaths, is to the agents a run of their operations, releases and waiting |
| Quiescence.RunStaysExclusive | supervisor/agents_hardening.py:243-379 | along every run of the protocol from an empty log whose admitted operations are careful, no two live agents own a common file |
| Quiescence.Act | supervisor/agents_hardening.py:243-379 | every operation of the registry object, and every session event, is a step of the protocol on its records and freeze, and keeps log, checkpoint and memory in agreement |
| Quiescence.RunAll | supervisor/agents_hardening.py:243-379 | every sequence of actions on one registry is a run of the protocol whose events are those of the enabled actions, one each and in order; after it the log replays to the agents in memory with sequence number, tail and checkpoint matching, and from an empty log, if the admitted operations were careful, no two live agents in memory own a common file |
| Sealing.ContractPlan | scripts/contract.py:127-156 | writes out the effective dependencies of every step of a valid graph and leaves the rest of the contract as it is |
| Sealing.ContractIdempotent | scripts/contract.py:127-156 | contracting a contract changes nothing |
| Sealing.FreshSealConsistentExactly | supervisor/sealing.py:347-358 | a fresh seal passes its own hash and count check if and only if the plan does not write its tools as null |
| Sealing.HashBindsContract | supervisor/sealing.py:347-358 | two consistent seals with the same hash have the same contract and count |
| Sealing.EveryCheckCounts | supervisor/sealing.py:112-120 | one check more, of any step or of any output, is one sealed criterion more |
| Sealing.MultisetContains | supervisor/sealing.py:150-158 | the removal loop decides multiset inclusion |
| Sealing.SameMultisetExactly | supervisor/sealing.py:161-162 | equal length and inclusion is equality of multisets |
| Sealing.CheckStep | supervisor/sealing.py:201-251 | reports exactly the faults and the gains of one step |
| Sealing.CheckMonotonic | supervisor/sealing.py:173-278 | reports exactly the violations and the improvements there are |
| Sealing.PassesExactly | supervisor/sealing.py:173-278 | a plan passes if and only if it strengthens the other: same scope, and every check, dependency and required output kept with its multiplicity |
| Sealing.TrafficExactly | supervisor/sealing.py:281-293 | the traffic scope is violated exactly when the block appears or goes, a host is allowed by only one of the plans up to case and spacing, or the rest of it changes |
| Sealing.NoGainWithoutChange | supervisor/sealing.py:173-278 | an unchanged plan reports no improvement |
| Sealing.StrengtheningComposes | supervisor/sealing.py:173-278 | passing is transitive |
| Sealing.StrengtheningReflexive | supervisor/sealing.py:173-278 | every plan passes against itself |
| Sealing.OwnSealPasses | supervisor/sealing.py:100-140 | every plan passes against its own seal, and the seal's plan against it |
| Sealing.ChainPasses | supervisor/sealing.py:173-278 | in any chain of plans, each accepted against the seal of the one before, every later plan passes against every earlier one |
| Sealing.ChainKeepsEverything | supervisor/sealing.py:194-251 | if the first plan has distinct step ids, the last has the same steps and still every original check, dependency, required output and output check |
| Sealing.RepeatedIdHidesLoss | supervisor/sealing.py:194-195 | in any plan, a step followed by another with the same id can be replaced by any step of that id and the check still passes |
| Sealing.DistinctIdsExactly | supervisor/sealing.py:194-251 | every change the check accepts loses nothing, step by step, if and only if the step ids are distinct |
| Sealing.SchemaValidSeal | supervisor/sealing.py:100-140 | a schema-valid plan has a self-consistent seal, passes against it, and whatever passes against it has lost nothing |

## Left out

- Subprocesses, timeouts, output capture and check isolation: the oracle stands for them.
- The `run` mode of `audit_steps` (selected steps, attempt limits, persisted step status): only audit mode is modelled.
- Fast Downward and its logs; the PDDL text layout: domain and problem are structures, predicate names are the program's.
- Malformed JSON and wrong types inside plans, requests, contracts and records: values are typed. Requirements are
  objects with a lower-case priority; requirements given as plain strings or found in the description text are not part.
- A `depends_on` that is present but null counts as omitted.
- Steps keep no status of their own: what the audit writes into the plan's `status` fields is the record it appends.
- Key files, HMAC set-up and the first signed checkpoint of an empty registry; the registry is modelled without a key.
- Unsigned records inside a signed log, archives that start at GENESIS, old snapshot formats and old seal formats.
- Evidence.EveryRunVerifies: takes archives in order of creation; below 10^8 rotations that is the order of their names.
- White space other than ASCII and U+0085/U+00A0 when trimming, and lower-casing of letters other than A to Z.
- Links with absolute targets and targets that leave the workspace and come back; circular links, which the program's
  resolution gives up on differently from one Python version to the next, and chains of more than 40 links; permissions
  that block a write; file times; a path that passes through a missing directory and back.
- Snapshot.Workspace.RestoreExplicit: for links above a root that lead into or through the scope or in a circle, it does
  not say whether a place outside is touched; the restore may then change the link's own way.
- Snapshot.Workspace.Restore: among paths of equal depth the order of deletion and rebuilding is left open.
- Registry.MultiAgentRegistry.ReleaseStaleOwnership: the order of the stale records is left open; it takes the ids in
  string order where the program follows its dictionary.
- Agent fields that no operation reads (plan, process, retries, workspace root), per-agent lock files and the
  workspace fingerprint comparison at the end of an audit session.
- Quiescence.FinalAuditIsQuiescent: takes reading and removing the freeze at the end of a session as one step.
- `Compiler.CompileContract` and the validators: error texts, their order and repetitions, and warnings.
- Requirement, lifecycle, gate, policy and traffic code: single decisions over small tables.
