# Policy decision service: a Dafny model

The service answers, for each session request of a mobile subscriber, whether it is allowed, at which quality of
service and with how much quota. Operators write rules in YAML. A compiler turns them into rows of bit masks, a
control plane publishes the compiled table as an immutable snapshot, and worker threads evaluate requests against it
while it is being replaced. This project models the parts of that path that are hard to get right and proves what they
promise, for every input, every run and every reachable state.

`dafny verify dfyconfig.toml` checks the whole project.

## The results

**Snapshot publication (`Rcu`, `RcuNecessity`, `RcuProgress`, `RcuRegistry`, `RcuDeployment`).** Readers, their store
buffers and one reloading writer are a state machine over atomic steps: epoch load, slot store, fence, pointer load,
leave; exchange, epoch bump, slot-by-slot scan, free, park, give up. In every run no guard ever holds a freed snapshot,
a reader whose slot has been scanned holds the current snapshot whatever epoch its slot shows, and every snapshot is
exactly one of current, being retired, parked or freed. Safety holds **if and only if** the reader fence is there and
no two readers share a slot: a run that breaks it is constructed for each missing condition. The grace period waits for
nothing else: the writer can end it by itself if and only if every slot still to scan is quiescent or at the new epoch,
and on exclusive slots it gives up only on a reader that entered before the bump, and some continuation of every run
frees what is retired.
The deployed domain is one machine in which threads register, read, unregister and register again, without limit, while
the writer publishes and scans. The control plane reads three slots by index without registering, so the deployment is
safe in every run **if and only if** there are at most `worker_threads + 1` reader threads. With the HTTP front there
are `2 * worker_threads`, so it is safe if and only if `worker_threads` is at most 1.

**Hot reload (`ControlPlane`).** Over every run of successful and failed reloads, plan lists only grow, so a plan id
keeps its meaning, a refused reload leaves the live snapshot alone, and the counters add up. Versions increase until
the 32-bit counter wraps, and the exact condition is given.

**Rule compiler and engine (`Features`, `Rules`, `RuleMeaning`, `RuleCompiler`, `RuleEncoding`, `RuleOrder`,
`RuleAcceptance`, `PolicySemantics`, `CompilerObject`, `Engine`, `PolicyPath`, `ShadowLint`, `ShadowExact`,
`UsageThreshold`).** Source rules have a direct meaning over atoms of the request, the record and the clock. If
compilation reports no error, the cross product of rows, the interned bits, the stable sort and the first-match scan
together return the action of the applicable source rule with the least (priority, file position), or the default; one
method runs the compiler object and the engine and promises that of its reply, field by field. A file is accepted if
and only if what is written in it meets conditions stated without the compiler. Where one `when` asks for a bit both
set and clear the code lets "set" win; this agrees with the conjunction as written, on every assignment, if and only if
no bit is asked for both ways. Rows flagged by the shadow lint can all be deleted at once without changing any
decision, and a rule whose rows are all flagged decides no request; the lint is exact, flagging a row if and only if
another rule's earlier row makes it useless.

**Histogram (`Ranks`, `HdrBuckets`, `HdrHistogram`).** The bucket arithmetic is monotone and partitions the values with
the promised relative error; every accepted value has a counter if and only if `highest` is below 2^62. The recorded
object refines the list of samples: a percentile query is answered by counts of samples, merging is concatenation and
`record_n` is repetition.

**Open addressing (`ProbeTable`, `SubscriberStore`, `FlatSet`).** For every hash function the store agrees with a map
and the set with a set, through growth; probes end; the load ceiling holds after every insertion; a store built for `n`
subscribers never grows during the first `n`.

**io_uring worker (`IoUring`, `IoUringReplies`), load generator (`LoadGen`).** Buffer ownership, queue bounds, every
counter and the order of replies over every schedule of completions. Over every run of the load generator requests are
conserved, each carries its exact due time, and what is sent depends on clocks and send results alone.

**YAML (`YamlText`, `YamlGrammar`, `YamlParser`, `YamlLines`, `YamlTokens`, `YamlReadable`, `YamlFlow`, `YamlBlock`,
`YamlDocument`, `YamlErrors`, `YamlComments`, `YamlValues`, `YamlImage`, `YamlRefusals`).** The parser, which rewrites
the line under its cursor, ends on every text and computes a grammar given as functions. Printing any tree, each
collection in block or flow form and each scalar bare or quoted, and parsing the text gives the tree back. Every scalar
whatever can stand behind a key or a dash. Only keys, and scalars inside flow collections, are restricted, because the
scans that look for their end know quotes but not escapes: the exact condition is given for each place. From these
conditions follows exactly which values the parser can return at all, and each of those is printed and read back.
For every text, comments behind a blank and outside quotes and carriage returns at the ends of lines change nothing; a
flow collection cut short anywhere, or followed by anything but blanks, is refused.

**SHA-256 streaming and the golden corpus (`Sha256`, `Golden`).** However a message is cut into `update` calls the
chaining value is that of the padded message; a golden file loads back as the cases it was printed from.

## Where the code and its documentation differ

The model follows the code.

- Ties in priority keep file order (`src/rules.cpp:756`); a comment at `include/policy/rules.hpp:191` says id order.
  `RuleOrder.SortedByIdIff` says when the two agree, `RuleOrder.TieOutOfIdOrder` is a table on which they do not.
- A bit required both set and clear in one `when` compiles to "set" (`src/rules.cpp:383-388`, `414-420`).
  `PolicySemantics.SetWinsOverWritten` is a rule and the requests on which this differs from what is written.
- The control plane leaves room for one reader thread beyond its workers; `src/http_front.cpp:301` registers as many
  again, which is too many from two workers on (`RcuDeployment.ThreadLimit`, `RcuDeployment.BothFrontsLimit`).
- The version counter has 32 bits, so versions do not increase forever (`ControlPlane.VersionOrder`).
- The histogram's bucket loop stops at 2^62: of the values up to a larger `highest`, those from 2^62 on have no counter
  (`HdrHistogram.CountedBelowCeiling`, `HdrHistogram.ValueWithoutCounter`). The loop does not end at all when the
  sub-bucket count shifted by the unit magnitude reaches 2^63 (`HdrHistogram.LoopEndsIff`).
- The fallback form of the usage threshold is not exact (`UsageThreshold.WhereTheFallbackDiffers`).
- `include/policy/yaml.hpp` says that tabs and several documents are refused. A tab is refused only after a content
  line (`src/yaml.cpp:100-103` returns before the error is looked at; `YamlErrors.TabRefusedIff`). A document marker is a
  blank line (`src/yaml.cpp:145`; `YamlErrors.MarkersAreBlankLines`), so two mappings are read as one.
- The same header documents `\"` in double quotes. The scans for comments, keys and flow scalars do not know escapes, so
  an escaped quote ends the quoted part for them (`YamlReadable.EscapedQuoteCutsScalar`). A scalar with a line break can
  be read as a key or in a flow collection only if they get over it (`YamlReadable.KeyReadableIff`,
  `YamlReadable.FlowReadableIff`); as a value of a block every scalar can be read (`YamlImage.EveryScalarReads`).

## Model

| member | source | states |
|---|---|---|
| `RcuProtocol.InvariantHolds` | include/policy/rcu.hpp:121-184 | the conjunction of conservation, epoch, slot, staleness and safety invariants holds after every run of any number of readers and one writer |
| `RcuProtocol.GuardsNeverDangle` | include/policy/rcu.hpp:121-184 | with fenced readers on exclusive slots, no guard holds a freed snapshot, timeouts and parked snapshots included |
| `RcuProtocol.ScannedReadersHoldCurrent` | include/policy/rcu.hpp:149-164 | a reader whose slot the scan has passed holds the current snapshot even if its slot shows an older epoch |
| `RcuProtocol.SnapshotsConserved` | include/policy/rcu.hpp:91-94 | every snapshot handed over is in exactly one of current, retiring, parked, freed; none is freed twice |
| `RcuProtocol.SuccessfulSwapLeavesOnlyCurrent` | include/policy/rcu.hpp:169-184 | right after a swap that returns true, of all snapshots handed over only the current one is not freed |
| `RcuProtocol.StepMovesSnapshots` | include/policy/rcu.hpp:140-184 | each step leaves the number of places a snapshot is in unchanged, except that an exchange brings in one new snapshot |
| `RcuProtocol.SafetyPreserved` | include/policy/rcu.hpp:121-129 | every step from a state of the invariant leaves no guard on a freed snapshot |
| `RcuNecessity.UnfencedReadDangles` | include/policy/rcu.hpp:124-127 | without the reader's fence a constructed run leaves a guard on a freed snapshot |
| `RcuNecessity.SharedSlotDangles` | include/policy/rcu.hpp:99-109 | two readers on one slot: a constructed run leaves a guard on a freed snapshot |
| `RcuNecessity.SafetyCondition` | include/policy/rcu.hpp:121-184 | all runs are safe if and only if no slot is shared and the readers, if there are any, are fenced |
| `RcuNecessity.PassedSlotCanShowStaleEpoch` | include/policy/rcu.hpp:149-164 | a scanned slot can show an epoch below the target, so the epoch alone is not the invariant |
| `RcuProgress.WriterEndsAloneIff` | include/policy/rcu.hpp:149-184 | in every reachable scanning state the writer alone can end the grace period if and only if each slot still to scan shows 0 or an epoch not below the current one; then the retired and all parked snapshots are freed |
| `RcuProgress.GivesUpIffHeldUp` | include/policy/rcu.hpp:155-160 | a swap can give up if and only if the slot it is at shows an epoch from 1 to below the current one |
| `RcuProgress.GivesUpOnOldReader` | include/policy/rcu.hpp:149-160 | on exclusive slots that epoch was loaded by the slot's reader before the bump, and the reader is still inside with it or has its next store on the way |
| `RcuProgress.GracePeriodCanEnd` | include/policy/rcu.hpp:169-184 | from every reachable scanning state some continuation frees the retired snapshot and everything parked |
| `RcuRegistry.StepKeepsInvariant` | include/policy/rcu.hpp:101-115 | every compare-and-swap, release and call keeps slots owned by one thread each, claimed slots a prefix, claims within calls, and at most threads - i threads at or beyond slot i |
| `RcuRegistry.OwnedBelowThreads` | include/policy/rcu.hpp:101-115 | however often threads register, a slot owned is below the number of threads |
| `RcuDeployment.OwnedSlotsAreDistinctAndLow` | include/policy/rcu.hpp:101-115 | in every run of the deployment threads own distinct slots, below the number of calls |
| `RcuDeployment.BusyReadersAreApart` | src/control_plane.cpp:57 | with at most workers + 1 threads, or calls so far, readers inside `read()`, under a guard or with stores on the way are on slots of their own |
| `RcuDeployment.InvariantHolds` | include/policy/rcu.hpp:101-184 | registration, reading, releasing and re-registering during scans keep the reclamation invariant |
| `RcuDeployment.FewThreadsAreSafe` | src/control_plane.cpp:57 | with at most workers + 1 threads, or calls, no guard holds a freed snapshot, however often threads unregister and register again during a scan |
| `RcuDeployment.OneMoreRegistrationIsUnsafe` | src/http_front.cpp:301 | a run of the deployment with workers + 2 calls that leaves a guard on a freed snapshot |
| `RcuDeployment.ThreadLimit` | src/control_plane.cpp:57 | the deployment is safe in every run, of any number of registrations, if and only if it has at most workers + 1 reader threads |
| `RcuDeployment.BothFrontsLimit` | src/http_front.cpp:301 | with the datagram and the HTTP workers it is safe in every run if and only if there is at most one worker |
| `RcuDeployment.RegistrationLimit` | src/control_plane.cpp:201 | all runs with at most m registration calls are safe if and only if m or the number of threads is at most workers + 1 |
| `ControlPlane.RunsStayConsistent` | src/control_plane.cpp:181-245 | after any run attempts = successes + failures, the current version is the live snapshot's, and the published plan lists form a prefix chain |
| `ControlPlane.PlanIdsAreStable` | src/control_plane.cpp:200-216 | a plan id names the same plan in every later published snapshot |
| `ControlPlane.FailedReloadKeepsLive` | src/control_plane.cpp:190-214 | a refused or failed reload leaves the live snapshot and the history as they were |
| `ControlPlane.PublishedIff` | src/control_plane.cpp:190-230 | a file that compiles goes live under the next version if and only if nothing is live or it keeps every plan at its position |
| `ControlPlane.VersionsIncrease` | src/control_plane.cpp:186 | published versions strictly increase as long as the 32-bit counter has not wrapped |
| `ControlPlane.VersionOrder` | src/control_plane.cpp:186 | of two snapshots less than 2^32 compilations apart the later has the larger version if and only if the counter did not wrap between them |
| `ControlPlane.VersionWraps` | include/policy/control_plane.hpp:103 | a run in which a later snapshot has the smaller version |
| `ControlPlane.SteadyPublishesAll` | src/control_plane.cpp:66-85 | n accepted compilations of one plan list publish n snapshots in order, the last of them live |
| `ControlPlane.CompilationsCounted` | src/control_plane.cpp:186 | the counter advances once per compilation, published or not |
| `ControlPlane.Plane.InitializeRules` | src/control_plane.cpp:66-85 | first compilation: version taken, snapshot live and counters one, or nothing published |
| `ControlPlane.Plane.ReloadRules` | src/control_plane.cpp:181-245 | the object's state after a reload is the run model's next state |
| `ControlPlane.Plane.PlansKept` | src/control_plane.cpp:203-214 | the loop accepts exactly the lists of which the old one is a prefix |
| `Features.LayoutIsOneToOne` | include/policy/rules.hpp:58-99 | no two atoms share a bit of the feature word |
| `Features.BitsAreStable` | src/rules.cpp:539-569 | interning more thresholds and windows never moves a bit |
| `Features.WindowsComplement` | include/policy/rules.hpp:176-184 | a window holds its start and not its end, and is the complement of the window with its ends exchanged |
| `Features.WindowLasts` | include/policy/rules.hpp:176-184 | a window holds (end - start) mod 1440 minutes of the day |
| `Features.ReportedUsageWins` | src/engine.cpp:128-143 | with reported usage the record's counter decides no flag and no threshold; without it the request's does not |
| `Features.ExhaustedWhen` | src/engine.cpp:128-143 | a metered quota is exhausted exactly when the usage that counts has reached it |
| `Features.FlagsExclude` | src/engine.cpp:74-126 | home and roaming exclude each other, a partner is roaming, a blocked device is known, and what an unknown subscriber is |
| `Features.FlagsTurn` | src/engine.cpp:122-151 | record or plan allows tethering, the period expires at its reset time, and 0 means no device, no reset, no quota |
| `Features.StatusBitFollowsCode` | src/engine.cpp:105-117 | the status bit is that of the status code; any other code, or no record, is unknown |
| `Features.GbrValues` | src/engine.cpp:11-34 | exactly the thirteen listed 5QI values are guaranteed-bit-rate |
| `RuleMeaning.ConjunctionCondition` | src/rules.cpp:383-420 | "set wins" and the conjunction as written agree on every assignment if and only if no atom is required both set and clear |
| `RuleMeaning.WhenMeaning` | src/rules.cpp:433-535 | without such a conflict, "set wins" on the clauses of a `when` holds exactly when every condition holds |
| `RuleMeaning.ClauseMeaning` | src/rules.cpp:392-420 | one condition's clause means the condition; an empty any-of list constrains nothing |
| `RuleEncoding.MatchDecidesChoice` | src/engine.cpp:161-167 | `(f & mask) == value` on a feature word decides the choice the row spells |
| `RuleEncoding.ExpandEncodes` | src/rules.cpp:392-410 | the cross product of rows and alternatives spells the product of the choices, in order |
| `RuleEncoding.WhenEncodes` | src/rules.cpp:433-535 | the rows compiled from a `when` spell its choices under the tables after interning |
| `RuleEncoding.RulesEncode` | src/rules.cpp:301-362 | after a successful compilation every source rule has a faithful group of rows under the final tables |
| `RuleEncoding.IdsAreDistinct` | src/rules.cpp:301-362 | accepted rules have non-zero, pairwise different ids |
| `RuleAcceptance.WhenAccepted` | src/rules.cpp:392-569 | a `when` compiles if and only if its conditions are well formed and name known networks, the product of its list lengths is at most 64, and its thresholds and windows find room |
| `RuleAcceptance.FileAccepted` | src/rules.cpp:301-362 | a file compiles if and only if every rule is well written, ids differ, and there are at most 8 different thresholds, 8 different windows and 4096 rows |
| `RuleOrder.OrderIsStable` | src/rules.cpp:753-759 | the sorted table holds every position once, ascending by (priority, file position) |
| `RuleOrder.SortedByIdIff` | include/policy/rules.hpp:191 | the sorted table is ascending by (priority, id) if and only if rows of equal priority are written in id order |
| `RuleOrder.TieOutOfIdOrder` | src/rules.cpp:753-759 | two rows of one priority with ids 2 and 1 are not sorted by id |
| `PolicySemantics.PlanTestIsScope` | src/engine.cpp:67-72 | the plan-mask test is membership in the rule's plan list; an empty list is every plan |
| `PolicySemantics.GroupDecidesRule` | src/rules.cpp:433-535 | a source rule applies if and only if one of its rows matches |
| `PolicySemantics.CompiledPolicyIsCorrect` | src/engine.cpp:153-225 | the first hit in the sorted table is the applicable source rule with least (priority, file position); no hit means none applies |
| `PolicySemantics.DecidingRuleIsUnique` | src/rules.cpp:753-759 | at most one source rule decides a request |
| `PolicySemantics.AppliesAsWritten` | src/rules.cpp:433-535 | without opposite polarity on one bit a rule applies exactly when its plan list and every condition hold as written |
| `PolicySemantics.SetWinsOverWritten` | src/rules.cpp:383-420 | a rule that asks for LTE and not LTE applies to every LTE request although its second condition fails |
| `CompilerObject.AddBitToAll` | src/rules.cpp:383-388 | the in-place loop sets the bit in every row's mask, and in its value when wanted |
| `CompilerObject.AddAlternatives` | src/rules.cpp:392-410 | the nested loops build the cross product, or refuse above the expansion limit |
| `CompilerObject.ForbidAll` | src/rules.cpp:414-420 | the loops put forbidden bits into every mask and leave the values |
| `CompilerObject.Compiler.LoadNames` | src/rules.cpp:165-185 | a name list is accepted exactly when it has no duplicates and fits its limit |
| `CompilerObject.Compiler.InternUsageThreshold` | src/rules.cpp:539-554 | the bit of an equal threshold, a new one, or an error when the table is full |
| `CompilerObject.Compiler.InternTimeWindow` | src/rules.cpp:556-569 | the bit of an equal window, a new one, or an error when the table is full |
| `CompilerObject.Compiler.ResolveDnns` | src/rules.cpp:433-535 | DNN names become the bits of their positions; an unknown name is an error |
| `CompilerObject.Compiler.CompileOne` | src/rules.cpp:433-535 | one condition transforms rows and tables as specified, or counts an error |
| `CompilerObject.Compiler.CompileConditions` | src/rules.cpp:433-535 | all conditions of a `when`, stopping at the first that fails |
| `CompilerObject.Compiler.ResolvePlanMask` | src/rules.cpp:364-380 | the mask of the named plans, or errors for unknown ones |
| `CompilerObject.Compiler.LoadRule` | src/rules.cpp:301-362 | one rule appended as its group of rows, or an error and no rows |
| `CompilerObject.Compiler.LoadRules` | src/rules.cpp:301-362 | no error was counted if and only if the specification accepts the whole list, and then tables and rows are its |
| `CompilerObject.Compiler.Compile` | src/rules.cpp:98-137 | the compiled, sorted table for a source file, or failure |
| `Engine.BuildFeatures` | src/engine.cpp:74-151 | every bit of the word is the truth of its atom for this request, record and clock |
| `Engine.FeatureWordIsUnique` | src/engine.cpp:74-151 | at most one word has that property |
| `Engine.UnknownSubscriber` | src/engine.cpp:74-151 | which atoms are false without a record |
| `Engine.FindRow` | src/engine.cpp:161-167 | the scan stops at the first matching row, or past the end |
| `Engine.Decide` | src/engine.cpp:169-225 | the reply is filled from the action, inheriting plan fields where asked, and zeroed for a denial |
| `Engine.Evaluate` | src/engine.cpp:153-225 | the decision is that of the first matching row, filled from the plan |
| `Engine.DecisionIsTheSourceRules` | src/engine.cpp:153-225 | end to end: the decision is filled from the deciding source rule, or from the default when none applies |
| `Engine.FillAnswers` | src/engine.cpp:169-225 | every reply, denials included: verdict, redirect, id and reason of the rule (0 and 12 on a miss), its flags and bit 5 for reported usage, each field from rule or plan, an inherited grant that makes up the plan's quota with the usage |
| `Engine.OneAnswer` | src/engine.cpp:169-225 | these facts leave one reply |
| `PolicyPath.CompileAndEvaluate` | src/engine.cpp:153-225 | the engine on the table the compiler object left behind: a reply for exactly the acceptable files, with the deciding source rule's id, verdict and fields, or the default's if none applies |
| `ShadowLint.CoveringRowMatches` | src/rules.cpp:761-777 | a row covers another only if it matches whenever the other does |
| `ShadowLint.CoversIff` | src/rules.cpp:761-777 | the lint's test holds of rows of two rules if and only if one matches on every word and plan where the other does |
| `ShadowExact.FlaggedIff` | src/rules.cpp:761-777 | in every compiled table a row is flagged if and only if an earlier row of another rule matches wherever it does |
| `ShadowLint.FlaggedNeverFires` | src/rules.cpp:761-777 | a flagged row is never the first hit |
| `ShadowLint.ShadowedIdNeverHit` | src/rules.cpp:761-777 | the row hit never has an id all of whose rows are flagged |
| `ShadowLint.ShadowedRuleNeverDecides` | src/rules.cpp:761-777 | a source rule all of whose rows are flagged decides no request |
| `ShadowLint.DeletingFlaggedRowsChangesNothing` | src/rules.cpp:761-777 | deleting all flagged rows at once leaves the first match of every word and plan unchanged |
| `ShadowLint.ShadowOf` | src/rules.cpp:761-777 | the inner loop finds the first earlier covering row, if any |
| `ShadowLint.FindShadowed` | src/rules.cpp:761-777 | every covered row gets a warning with its first covering row, and no other row does |
| `UsageThreshold.WideIsExact` | src/engine.cpp:45-51 | the wide form is usage / quota >= permille / 1000 for all 64-bit values |
| `UsageThreshold.WhereTheFallbackDiffers` | src/engine.cpp:53-62 | if the threshold in bytes is below 2^64, the fallback differs if and only if usage is the rounded-down threshold and 1000 does not divide the product; else if and only if usage is at least the wrapped threshold |
| `UsageThreshold.ThresholdBitsAreNested` | src/engine.cpp:134-143 | a set threshold bit implies the bits of all smaller thresholds |
| `UsageThreshold.ExhaustedCrossesThresholds` | src/engine.cpp:134-143 | an exhausted quota sets every threshold bit up to 1000 |
| `Ranks.RankBounds` | include/policy/hdr_histogram.hpp:154-171 | the r-th smallest sample has fewer than r samples below it and at least r at or below it |
| `HdrBuckets.IndexInBounds` | include/policy/hdr_histogram.hpp:302-307 | a value has a counter if and only if it lies below 2^(unit + half magnitude + buckets) |
| `HdrBuckets.IndexMonotone` | include/policy/hdr_histogram.hpp:291-307 | the counter index is monotone in the value |
| `HdrBuckets.ValueOfIndex` | include/policy/hdr_histogram.hpp:309-317 | the value computed from an index is the lowest equivalent value |
| `HdrBuckets.WithinRange` | include/policy/hdr_histogram.hpp:258-277 | a value lies in its equivalence range |
| `HdrBuckets.RangesPartition` | include/policy/hdr_histogram.hpp:258-277 | a value lies in the range of another if and only if both have the same counter |
| `HdrBuckets.RelativeError` | include/policy/hdr_histogram.hpp:37-71 | 10^figures times the error is at most the value outside the first bucket, and below the unit inside it |
| `HdrBuckets.RelativeErrorAtUnitResolution` | include/policy/hdr_histogram.hpp:37-71 | with unit resolution the relative bound holds for every value |
| `HdrHistogram.LoopEndsIff` | include/policy/hdr_histogram.hpp:59-67 | with signed 64-bit shifts the bucket loop ends, for any `highest` >= 0, if and only if the shifted sub-bucket count is below 2^63 |
| `HdrHistogram.BucketCount` | include/policy/hdr_histogram.hpp:59-68 | the loop's bucket count is that of the exponent at which it ends |
| `HdrHistogram.LoopReach` | include/policy/hdr_histogram.hpp:59-68 | the loop passes `highest` when that is below 2^62 and otherwise ends at 2^62 |
| `HdrHistogram.CountedBelowCeiling` | include/policy/hdr_histogram.hpp:37-71 | of the values up to `highest`, exactly those below 2^62 have a counter |
| `HdrHistogram.AllCountedIff` | include/policy/hdr_histogram.hpp:37-71 | every accepted value has a counter if and only if `highest` is below 2^62 |
| `HdrHistogram.ValueWithoutCounter` | include/policy/hdr_histogram.hpp:87-88 | lowest 1, highest 2^62, 3 figures: the index of 2^62 is past the counters |
| `HdrHistogram.UnitOfLowest` | include/policy/hdr_histogram.hpp:48 | the unit is the largest power of two up to `lowest` |
| `HdrHistogram.Configure` | include/policy/hdr_histogram.hpp:37-71 | the parameters are the derived ones, and all values up to `highest` have a counter if and only if it is below 2^62 |
| `HdrHistogram.ManyIsRepeated` | include/policy/hdr_histogram.hpp:96-104 | recording n copies is recording the value n times, overflow and negative counts included |
| `HdrHistogram.MergeIsConcatenation` | include/policy/hdr_histogram.hpp:118-137 | merging two histograms is recording one stream after the other |
| `HdrHistogram.StreamCounts` | include/policy/hdr_histogram.hpp:72-106 | every value recorded is counted once: negative, or a sample that is the value or `highest` and counts as overflow if it was larger |
| `HdrHistogram.Histogram.constructor` | include/policy/hdr_histogram.hpp:37-71 | from lowest, highest and figures: holds nothing, and is usable if and only if `highest` is below 2^62 |
| `HdrHistogram.Histogram.Record` | include/policy/hdr_histogram.hpp:78-92 | the value joins the samples, clamped and counted above the range, only counted below zero |
| `HdrHistogram.Histogram.RecordN` | include/policy/hdr_histogram.hpp:96-104 | the meaning afterwards is that of n single recordings |
| `HdrHistogram.Histogram.Reset` | include/policy/hdr_histogram.hpp:106-113 | back to nothing |
| `HdrHistogram.Histogram.Add` | include/policy/hdr_histogram.hpp:118-137 | same layout: samples, extremes and counts of both; otherwise refused and unchanged |
| `HdrHistogram.Histogram.ValueAtPercentile` | include/policy/hdr_histogram.hpp:154-171 | at least q of a hundred samples are at most the value, and fewer lie below its bucket unless that is the least sample's; it is the top of the bucket of the sample at that rank |
| `ProbeTable.ScanIsDistance` | src/subscriber_store.cpp:100-118 | a stored key's probe stops at its own slot, at its distance from home |
| `ProbeTable.MaskedDifference` | src/subscriber_store.cpp:100-118 | unsigned `(i - home) & mask` is that distance, wrap-around included |
| `ProbeTable.InsertKeepsTable` | src/subscriber_store.cpp:71-80 | writing a key where its probe stops keeps every key reachable |
| `ProbeTable.Probe` | src/subscriber_store.cpp:34-43 | the loop ends at the key's slot or at a free one |
| `SubscriberStore.NextPow2` | src/subscriber_store.cpp:14-18 | a power of two at or above both 8 and the argument, and below twice the argument unless it is 8 |
| `SubscriberStore.SlotsFor` | src/subscriber_store.cpp:20-25 | enough slots that n subscribers stay within the load factor |
| `SubscriberStore.Store.constructor` | src/subscriber_store.cpp:27-32 | an empty store with room for the expected subscribers |
| `SubscriberStore.Store.Find` | include/policy/subscriber_store.hpp:122-131 | lookup agrees with the map and inspects exactly the probe of the key |
| `SubscriberStore.Store.Upsert` | src/subscriber_store.cpp:56-81 | the map gets the record; the table doubles exactly when the load ceiling asks for it |
| `SubscriberStore.Store.Provision` | src/subscriber_store.cpp:27-32 | a store built for n never grows during its first n distinct inserts |
| `SubscriberStore.Store.Grow` | src/subscriber_store.cpp:45-54 | twice the slots, the same map, and no further growth inside |
| `SubscriberStore.Store.FindMutable` | src/subscriber_store.cpp:34-43 | the slot of a stored IMSI, or none |
| `SubscriberStore.Store.AddUsage` | src/subscriber_store.cpp:83-90 | usage advances modulo 2^64 for a known IMSI, nothing happens for others |
| `SubscriberStore.Store.ResetPeriod` | src/subscriber_store.cpp:92-98 | usage zero and the new reset time for a known IMSI |
| `SubscriberStore.UsageAddsUp` | src/subscriber_store.cpp:83-90 | after any calls a subscriber's usage is the start value plus what it was charged, modulo 2^64, and all else is as it was |
| `SubscriberStore.NewPeriodChanges` | src/subscriber_store.cpp:92-98 | a new period zeroes one usage and sets one reset time, nothing else |
| `SubscriberStore.Store.ProbeLength` | src/subscriber_store.cpp:100-118 | the length derived from a record's position is the length of its lookup |
| `SubscriberStore.Store.ProbeStats` | src/subscriber_store.cpp:100-118 | the longest lookup and the sum of all lookup lengths over the table |
| `FlatSet.FlatSet64.Contains` | include/policy/flat_set.hpp:42-51 | membership, for every hash function |
| `FlatSet.FlatSet64.Insert` | include/policy/flat_set.hpp:69-81 | adds the key unless zero or present |
| `FlatSet.FlatSet64.Rebuild` | include/policy/flat_set.hpp:26-39 | the set of the non-zero keys of the list |
| `IoUring.EveryRunIsSound` | src/server_iouring.cpp:203-303 | after every schedule each slot is in exactly one place, replies add up, buffers in flight are intact |
| `IoUring.SubmissionQueueNeverFull` | src/server_iouring.cpp:150-185 | at most 3 * batch operations are queued, below the queue size |
| `IoUring.NoBufferInFlightIsOverwritten` | src/server_iouring.cpp:266-286 | a reply is written only into a slot that is nowhere in flight |
| `IoUring.StepStaysSound` | src/server_iouring.cpp:218-292 | every submission, completion and reaping keeps soundness |
| `IoUringReplies.RepliesInOrder` | src/server_iouring.cpp:218-292 | over every run what was submitted, then what is queued, are the replies to the reaped requests, each once and in order |
| `IoUringReplies.EveryRunIsCounted` | src/server_iouring.cpp:218-292 | every counter is the number of outcomes it is named after; a reply without a slot is a failed send |
| `IoUringReplies.NoSlotMeansAllInFlight` | src/server_iouring.cpp:266-286 | no slot is free exactly when all of them carry replies |
| `IoUring.Worker.constructor` | src/server_iouring.cpp:163-185 | the start state: all send slots free, all receives queued |
| `IoUring.Worker.Arm` | src/server_iouring.cpp:173-181 | queues the receive unless the queue is full |
| `IoUring.Worker.Reply` | src/server_iouring.cpp:266-286 | the reply goes into the top free slot and is queued, or is counted as failed |
| `IoUring.Worker.Handle` | src/server_iouring.cpp:218-292 | one completion transforms the worker as the machine's reap step |
| `IoUring.Worker.Round` | src/server_iouring.cpp:203-303 | a round of completions keeps soundness and is the sequence of reap steps |
| `LoadGen.DueClosedForm` | bench/loadgen.cpp:501 | k additions of the interval are start + k * interval |
| `LoadGen.Sender.IssueOne` | bench/loadgen.cpp:463-479 | a send puts the request with its due time into its slot and moves the schedule on by one interval; a failed send leaves schedule and table as they were |
| `LoadGen.BurstIs` | bench/loadgen.cpp:534-571 | the burst of an iteration: all its requests are due and sent, the next one is not due or fails, or there are 256 |
| `LoadGen.SendsWhatIsDue` | bench/loadgen.cpp:534-571 | if no send fails and no burst is cut short, exactly the requests due by the last clock value have been sent |
| `LoadGen.ReachedWhen` | bench/loadgen.cpp:534-571 | request k is due when k intervals have passed |
| `LoadGen.RepliesDoNotMatter` | bench/loadgen.cpp:482-647 | how many requests are sent is a matter of clocks and send results alone |
| `LoadGen.ReadsAddUp` | bench/loadgen.cpp:588-607 | each reply read settles, is garbage or is stale, and each that settles takes one live request out |
| `LoadGen.LiveUntilAnswered` | bench/loadgen.cpp:588-607 | a request stays live until a reply to its slot with its scheduled time is read |
| `LoadGen.SettledOnce` | bench/loadgen.cpp:588-607 | of two replies to one slot at most one settles |
| `LoadGen.LiveUntilLate` | bench/loadgen.cpp:764-788 | in the tail any reply to the slot ends a request |
| `LoadGen.WrittenOffWhen` | bench/loadgen.cpp:639-646 | a request is written off once more than the timeout has passed since it was sent |
| `LoadGen.Sender.SendDue` | bench/loadgen.cpp:534-571 | the books after the burst of this iteration, with an error if it ended at a failed send; without one nothing due is left or 256 were sent |
| `LoadGen.Sender.Accept` | bench/loadgen.cpp:588-607 | a reply settles its live slot or is counted as bad or stale |
| `LoadGen.Sender.DrainReplies` | bench/loadgen.cpp:588-607 | the first `limit` replies are read, each as `Accept` says |
| `LoadGen.Sender.Sweep` | bench/loadgen.cpp:639-646 | exactly the live slots past the timeout are written off |
| `LoadGen.Sender.RunIteration` | bench/loadgen.cpp:508-647 | burst, replies and sweep, and sent = received + lost + live; without a send error nothing due is left or 256 were sent |
| `LoadGen.Sender.RunOpenLoop` | bench/loadgen.cpp:482-647 | at the end sent = received + lost, the number sent is that of the clocks and send results, the other books are those of the run, and request k carries floor(start + k * interval) |
| `LoadGen.Sender.DrainTail` | bench/loadgen.cpp:764-788 | late replies are counted as the tail's rule says, and no request is left unaccounted |
| `LoadGen.Sender.CountLive` | bench/loadgen.cpp:791-797 | counts the live slots |
| `YamlText.StripComment` | src/yaml.cpp:34-45 | what is left is the line up to the first unquoted `#` that starts it or follows a blank |
| `YamlComments.CommentIsDropped` | src/yaml.cpp:34-45 | a comment behind a blank changes nothing about any line without an open quote, except for a tab behind nothing but spaces |
| `YamlComments.OtherHashStays` | src/yaml.cpp:34-45 | a `#` inside quotes or behind a non-blank stays in the content |
| `YamlComments.CommentLineIsEmpty` | src/yaml.cpp:34-45 | a line of spaces and a comment is no content |
| `YamlComments.CommentsChangeNothing` | src/yaml.cpp:128-152 | for every text, such comments behind any of its lines leave the parse result as it was |
| `YamlComments.ReturnsChangeNothing` | src/yaml.cpp:128-152 | for every text, carriage returns at the ends of its lines leave the parse result as it was |
| `YamlText.KeySplit` | src/yaml.cpp:209-222 | the colon that ends a key, outside quotes and brackets |
| `YamlText.ReadFlowScalar` | src/yaml.cpp:311-322 | the text up to the first structural character outside quotes |
| `YamlText.ReadScalar` | src/yaml.cpp:48-81 | unquotes single and double quoted scalars |
| `YamlParser.SplitLines` | src/yaml.cpp:128-152 | the content lines with indentation and number, up to the first tab used for indentation |
| `YamlParser.Parser.ParseBlock` | src/yaml.cpp:155-159 | ends on every input; node, remaining lines and error are those of the grammar; earlier lines are untouched |
| `YamlParser.Parser.ParseSeq` | src/yaml.cpp:165-204 | the same for a sequence, whose items shrink the remaining lines or the line under the cursor |
| `YamlParser.Parser.ParseItem` | src/yaml.cpp:171-201 | one item, rewriting `- key: value` in place two columns further in |
| `YamlParser.Parser.ParseMap` | src/yaml.cpp:224-271 | the same for a mapping, which reads a line or leaves all lines as they were |
| `YamlParser.Parser.ParseField` | src/yaml.cpp:226-269 | one field, or the end of the mapping with its error |
| `YamlParser.Parser.ParseValue` | src/yaml.cpp:251-268 | value on the line, block below, sequence at the key's indent, or null |
| `YamlParser.Parser.ParseScalar` | src/yaml.cpp:273-289 | null spellings, refused markers, or the unquoted scalar |
| `YamlParser.Parser.ParseFlowValue` | src/yaml.cpp:300-309 | ends on every input with the grammar's node, position and error |
| `YamlParser.Parser.ParseFlowSeq` | src/yaml.cpp:324-339 | the same for a flow sequence |
| `YamlParser.Parser.ParseFlowMap` | src/yaml.cpp:341-362 | the same for a flow mapping |
| `YamlParser.Parser.ParseInline` | src/yaml.cpp:292-298 | a flow collection must fill its line |
| `YamlParser.Parser.RecordError` | src/yaml.cpp:121-126 | the first error is kept |
| `YamlParser.Parser.Run` | src/yaml.cpp:98-118 | empty document, first error, lines left over, or the root |
| `YamlParser.ParseText` | src/yaml.cpp:369-372 | the whole parser is the function `Parse`, on every text |
| `YamlGrammar.SeqItems` | src/yaml.cpp:165-204 | what is left is the same lines, fewer, or as many with a shorter first line, and an earlier error is kept |
| `YamlGrammar.MapFields` | src/yaml.cpp:224-271 | a mapping that reads nothing changes nothing, and an earlier error is kept |
| `YamlTokens.WrittenIsToken` | src/yaml.cpp:48-81 | every scalar, written bare or quoted, stands behind a key or a dash; a writable one is passed over by the scan for flow scalars or for keys |
| `YamlReadable.KeyReadableIff` | src/yaml.cpp:209-250 | some line has the scalar as its key if and only if it is not empty and has no line break or, over its content, the key scan ends inside double quotes and outside brackets |
| `YamlReadable.FlowReadableIff` | src/yaml.cpp:300-322 | some flow text has the scalar in it if and only if it has no line break or the flow scan gets over its content, meets no structural character outside quotes and ends inside double quotes |
| `YamlReadable.EscapedQuoteCutsScalar` | src/yaml.cpp:311-322 | the flow scalar `"a\",b"` is cut at its comma although it unquotes to one scalar |
| `YamlReadable.QuotesAndLineBreak` | src/yaml.cpp:48-81 | one double quote and a line break can be neither key nor flow scalar, two double quotes and a line break can be both |
| `YamlReadable.BracketsAndCommas` | src/yaml.cpp:209-222 | with a line break, an open bracket between quotes bars a key and not a flow scalar, a comma a flow scalar and not a key |
| `YamlTokens.TokenIsScalar` | src/yaml.cpp:273-289 | such a text is never read as null and never refused |
| `YamlFlow.FlowRoundTrip` | src/yaml.cpp:292-362 | parsing the flow form of any tree gives the tree |
| `YamlFlow.FlowReads` | src/yaml.cpp:300-362 | the same anywhere in a line, up to exactly where the text ends |
| `YamlRefusals.NothingBehindFlow` | src/yaml.cpp:292-298 | behind a flow collection anything but blanks is refused |
| `YamlRefusals.CutFlowIsRefused` | src/yaml.cpp:324-362 | every proper prefix of a flow collection is refused |
| `YamlRefusals.ValueStable` | src/yaml.cpp:300-362 | what a flow value is read as does not depend on the text behind it |
| `YamlRefusals.ScalarKinds` | src/yaml.cpp:273-289 | the five null spellings, the two refused block markers, the three refused anchor and tag markers, and everything else |
| `YamlRefusals.EscapesRead` | src/yaml.cpp:48-81 | the four escapes with a meaning; any other character stands for itself |
| `YamlRefusals.OneField` | src/yaml.cpp:224-271 | any text behind a key is read as its value or refused at its line |
| `YamlRefusals.LineWithoutKeyIsRefused` | src/yaml.cpp:224-250 | a mapping followed at its indent by a line without a key, or with an empty one, is refused for that |
| `YamlBlock.ItemsRoundTrip` | src/yaml.cpp:165-204 | lines that show the items of a tree, then anything that ends a sequence, are read as the tree and leave the rest |
| `YamlBlock.FieldsRoundTrip` | src/yaml.cpp:224-271 | the same for the fields of a mapping |
| `YamlBlock.MapBehindDash` | src/yaml.cpp:191-198 | the rewritten line and those below it show the mapping |
| `YamlDocument.DocumentRoundTrip` | src/yaml.cpp:369-372 | parsing the printed text of any block tree, each collection inline or not and each scalar as any text that fits its place, succeeds and denotes the tree |
| `YamlDocument.LinesRoundTrip` | src/yaml.cpp:98-118 | the same from lines, all of which are used |
| `YamlValues.ValueRoundTrip` | src/yaml.cpp:369-372 | parsing the printed text of any value that fits a document gives that value |
| `YamlValues.KeysDecide` | src/yaml.cpp:224-271 | any value whose keys are writable fits, whatever its scalars |
| `YamlImage.EveryScalarReads` | src/yaml.cpp:98-118 | for every scalar, `k: ` or `- ` and its double-quoted form parse as exactly that scalar under the key or as the item |
| `YamlImage.ParsedFits` | src/yaml.cpp:369-372 | whatever text is parsed without error, the value fits a document |
| `YamlImage.ParserImage` | src/yaml.cpp:369-372 | some text parses as a value if and only if the value fits a document |
| `YamlImage.PrintedAgain` | src/yaml.cpp:369-372 | printing what was parsed and parsing again gives the same value |
| `YamlLines.JoinOfRawLines` | src/yaml.cpp:128-152 | a text is its raw lines joined by line breaks |
| `YamlLines.TextReads` | src/yaml.cpp:128-152 | what a text is split into depends only on what its raw lines are read as, up to the first tab |
| `YamlLines.SameReadings` | src/yaml.cpp:128-152 | texts whose lines are read alike are parsed alike |
| `YamlErrors.ErrorsNameALine` | src/yaml.cpp:98-126 | an error names a line the parser was given, or the tab that ended the reading |
| `YamlErrors.ErrorLineIsInText` | include/policy/yaml.hpp:1-21 | whatever the text, a reported error names one of its lines |
| `YamlErrors.TabRefusedIff` | src/yaml.cpp:98-118 | for every text with a tab used for indentation, the first one is refused if and only if a content line stands before it; otherwise the text is read as empty |
| `YamlErrors.TabPassesUnseen` | src/yaml.cpp:100-103 | any text that starts with a tab is read as an empty document |
| `YamlErrors.MarkersAreBlankLines` | src/yaml.cpp:145-147 | every text is parsed as the text with its marker lines emptied, so it is refused if and only if that is |
| `YamlErrors.MarkerIsABlankLine` | src/yaml.cpp:145-147 | `---` or `...` between any lines is parsed as an empty line there |
| `YamlErrors.DocumentsMerge` | src/yaml.cpp:145-147 | an instance: two mappings separated by a marker are read as one with the fields of both |
| `Sha256.Hasher.constructor` | include/policy/sha256.hpp:15-35 | nothing fed, the initial chaining value |
| `Sha256.Hasher.Update` | include/policy/sha256.hpp:21-35 | the message grows by the data; the chaining value covers its full blocks |
| `Sha256.Hasher.Finish` | include/policy/sha256.hpp:39-51 | padding loop and length field: the chaining value is that of the padded message |
| `Sha256.HashPieces` | include/policy/sha256.hpp:21-66 | however the message is cut into pieces, the digest is that of the whole |
| `Sha256.LengthField` | include/policy/sha256.hpp:45-47 | the shifts produce the 64-bit big-endian length |
| `Sha256.BitCount` | include/policy/sha256.hpp:39-47 | the wrapped counter fills the length field with the right bytes for messages of any length |
| `Golden.NumberRoundTrip` | src/golden.cpp:18-20 | a printed 64-bit number reads back as itself |
| `Golden.SplitLine` | src/golden.cpp:68-79 | the cursor loop is the split at commas |
| `Golden.SplitOfJoin` | src/golden.cpp:68-79 | splitting undoes joining for fields without commas |
| `Golden.RowIsNotTruncated` | src/golden.cpp:26-38 | no in-range case exceeds the 512-byte buffer |
| `Golden.RowRoundTrip` | src/golden.cpp:26-38 | parsing a printed row recovers every pinned field |
| `Golden.ColumnsFollowHeader` | src/golden.cpp:11-38 | every column holds the field its name in the header stands for |
| `Golden.SplitCount` | src/golden.cpp:68-79 | one field more than there are commas, and never more than the limit |
| `Golden.ReadRow` | src/golden.cpp:68-112 | a row is accepted if and only if it has at least 21 commas, fields after the 22nd being dropped; otherwise its field count is reported |
| `Golden.LoadGolden` | src/golden.cpp:40-119 | the result describes the file: its cases in order, or the first thing wrong with it |
| `Golden.FileRoundTrip` | src/golden.cpp:40-119 | loading a generated file gives exactly its cases, numbered from line 2 |
| `Golden.DiffDecisions` | src/golden.cpp:121-149 | the report is empty if and only if all twelve fields agree |

## Left out

- The full C++ memory model: readers have FIFO store buffers drained by the fence or a later flush; the writer is sequentially consistent.
- Rcu is a machine over atomic steps, not an object with methods: the steps of different threads interleave, which a sequential method could not show.
- A thread unregisters only outside its guards, and its compare-and-swaps drain its store buffer; both are assumptions of the deployment machine.
- HdrHistogram.Configure: a lowest value and figures for which the bucket loop does not end are excluded, because the constructor then never returns; `HdrHistogram.LoopEndsIff` states exactly which those are.
- The epoch is unbounded; grace-period timeouts and clocks are arbitrary choices of the run.
- Parsing of a rule's action, the dispatch on key strings, warnings and error texts: the compiler starts from typed conditions and an optional action.
- `load_redirects`, the roaming and blocklist loaders and CSV loading of subscribers are not modelled.
- Floating point: load factor, percentile and send interval are exact numbers; `mean`, `stddev` and the CSV rendering of percentiles are not modelled.
- The hash functions and the SHA-256 compression function are arbitrary functions; the hexadecimal rendering of the digest is not modelled.
- The liburing interface: queued operations may complete in any order and with any result; sockets, polling and timing are not modelled.
- LoadGen.Sender covers the UDP path only; the latency histograms and the HTTP path are not modelled.
- YAML error messages are an enumeration, not texts; the typed accessors for numbers, sizes and times are not modelled.
- HTTP fronts, admin endpoints, configuration, logging and thread pinning are I/O around the modelled path.
- Golden.LoadGolden takes the file as its lines; opening it and the wording of its errors are not modelled.
