# Models and proofs for the feature-flag service, the janitor's rule engine and the AI gateway's loops

Three parts of the repository are modelled here, each where its code is hardest, and their properties are proved for
every input, every run and every reachable state. `dafny verify dfyconfig.toml` checks the whole project.

## The feature-flag service

The service keeps flags, segments and rules in Postgres, loads them into snapshots, serves evaluations from the current
snapshot, and streams snapshots and change events to clients that evaluate locally.

- `FlagModel`, `FlagSemantics`, `FlagEngine`, `FlagMeaning`: the engine. Evaluation is specified by one reading of a
  rule against an oracle for other flags; the engine's oracle carries the stack that cuts dependency cycles, the plain
  semantics' oracle is the meaning itself. The engine is modelled as it runs, with a stack object pushed and popped.
- `FlagDecisions`: what evaluation decides, told of flags, contexts and answers alone: every operator, segments, splits
  and error codes.
- `FlagRollout`, `FlagValidation`, `ChangeSet`: percentage splits in 32-bit arithmetic, what validation accepts, and
  what a config change is reported to touch.
- `FlagTables`, `FlagWrites`, `FlagViews`, `FlagLoad`, `FlagStore`: the database as tables of rows with owners and ids,
  the writing statements with their cascades and the weight check, the load that joins seven separate reads, and
  `apply_config` from validation to commit. Rows come back in insertion order.
- `ConfigDiff`, `ConfigApply`: the diff and the three ordered passes, and why they converge.
- `FlagCluster`, `ClusterSafety`, `SnapshotManager`: the protocol. Commits, every single read of every load, apply
  sessions with the locked version row, bootstraps through the cache, reloads, swaps, broadcasts with a bounded queue of
  64 and the client streams are steps of one state machine; the theorems hold over all its runs.
- `BootFreshness`, `ClusterProgress`: how fresh a bootstrapped replica is, and that no run comes to a dead end: from
  every reachable state a configuration can still be applied, loaded and sent.
- `FlagDelivery`: the parts put together, from an applied configuration to what a client computes from it.
- `Wire`, `LocalMode`, `ConfigDocs`: conversions to the wire and back, local against remote evaluation, and the
  documents `ffctl` exports and reads.

Results about the code that a reader may not expect:

- The migrations start the store at version 1, and the version grows with every writing statement, not once for a whole
  batch as the comments at `apply_config` say (`platform-services/feature-flags/migrations/0001_init.sql:50-69`). The
  model follows the migrations: an apply that writes raises the version by at least one. A replica whose bootstrap
  fails serves an empty snapshot at version 0.
- Declaring an empty constraint group, or one variant key twice, makes every later plan report the same update again,
  applied or not (`ConfigApply.LaterPlansRepeat`, `ConfigApply.ApplyingAgainRepeats`); an empty group changes no
  evaluation.
- `changed_flag_keys` does not report a flag whose prerequisite changed (`ChangeSet.DependentsAreNotReported`), so a
  client must follow prerequisites itself.
- The split check adds weights in 32 bits, which wraps in a release build, so an overflowing split can be accepted
  (`FlagRollout.OverflowingSplitIsAccepted`); the tables' limit of 100 on a weight refuses it when it is written.
- Numbers cross the wire as doubles and the integer resolvers accept integer literals only, so an integer flag written
  through the API always resolves to a type mismatch (`LocalMode.WireNormalNeverAnswersInteger`). This takes the tables to
  return the JSON they were given; see below.
- Archived flags are not exported, so applying an export deletes them (`ConfigDocs.ArchivedIsPlannedForDeletion`).
- With cyclic prerequisites there may be no stack-free meaning at all (`FlagMeaning.CyclicSnapshotHasNoMeaning`); the
  engine still resolves every well-formed flag to one of its own variants.

## The janitor's rule engine

- `ExprSyntax`, `ExprParser`, `ExprPrinter`, `ExprLexer`, `ExprRoundTrip`: the condition language. The tokenizer and
  the parser are modelled with their cursors and loops; the grammar is an independent definition of what they accept.
- `ExprMeaning`, `ExprText`: what evaluation gives, comparison by comparison and connective by connective, and what may
  be written besides the canonical text.
- `Matchers`, `Rules`, `CheckExpansion`, `RuleLoading`: conditions, named checks and their expansion.
- `LeafConditions`: what leaves and the expressions over them say.
- `RuleOrder`: the stable sort by priority and the queue over the dependency counts.
- `RuleMatching`, `RuleRuns`, `RuleLoops`, `RuleFixpoint`, `RuleEngine`: matching through the memo, the explain and the
  run loop with the actions they perform, which rules a run executes, and preparing a file for it.

The memo of leaf verdicts is keyed by the leaf alone while a `feature_flag` leaf also reads the rule's name. The
agreement of the two loops therefore assumes that no memoised leaf looks at the name; `RuleMatching.MemoServesIffNameBlind`
and `RuleRuns.SerialGroupBreaksThePrediction` show what happens otherwise, and without serial groups no such assumption
is needed. Leaves under an expression bypass the memo and may look at the name.

## The AI gateway's loops

- `SseFraming`: the buffer that cuts a byte stream into whole server-sent-event frames.
- `Registry`, `Failover`: the routing table and the loop that retries and fails over. A model listed twice by one
  provider puts that provider on the route twice, and each place counts as a candidate of its own. A request that cannot
  be put in some candidate's dialect ends the loop with an error even when an earlier candidate left a retryable
  response (`Failover.RetryableResponseIsLost`); `Failover.FailoverReturnsFirstGoodAnswer` says exactly when.
- `FailoverStatus`: the failover loop in status numbers and milliseconds.
- `Gateway`: the routing table in the configuration's terms, and the two together.

## How the models are built

Code that changes state is modelled by methods over classes and arrays, each proved against a specification function or
predicate; the properties are proved of the specification. Code made of expressions is modelled by functions. Foreign
code enters as parameters: regular expressions and SHA-256 (`Primitives`), leaf verdicts (`World`), which characters
beyond ASCII are alphanumeric (`unicode`), the stream conversion (`Transform`), the upstreams (`Upstreams`), which API
keys are set (`hasKey`), and the order in which a hash map is walked. Doubles are read as reals. JSON objects are lists
of fields in key order. A `jsonb` column is taken to return the JSON it was given; Postgres keeps numbers as decimals and
prints them its own way, so a whole double large enough to be printed without a fraction may come back as an integer
literal, which this model does not show. A member whose source is a set or map walked in no particular order makes no
promise about order.

## Model

| member | source | states |
|---|---|---|
| `ClusterSafety.NoLostUpdate` | platform-services/feature-flags/src/store/mod.rs:630-713 | In every interleaving, whenever an apply commits, the diff it applies is the diff of the very state it is applied to, a request that expected a version is committed on that version only, the commit is appended on top of that state, and with distinct keys the committed tables are the declared configuration; although the planned snapshot came from seven separate reads |
| `ClusterSafety.ApplyCommitsOnlyUndisturbed` | platform-services/feature-flags/src/store/mod.rs:641-663 | Between the step in which an apply reads the version and the step in which it commits, nobody committed anything; so an apply whose store moved while it was loading, planning or waiting for the lock never writes |
| `ClusterSafety.LabelledLatestIsTheStore` | platform-services/feature-flags/src/store/mod.rs:86-216 | A complete load whose label is still the store's version reads exactly the store's state, flag by flag and segment by segment |
| `ClusterSafety.ServedAndCachedLabelsAreLowerBounds` | platform-services/feature-flags/src/snapshot.rs:38-69 | Over every run, each of the seven reads behind a served or cached snapshot saw a commit no older than the snapshot's label; a served label equal to the store's version means the served snapshot is the store |
| `BootFreshness.BootedReplicaIsFresh` | platform-services/feature-flags/src/snapshot.rs:56-69 | Over every run: once a bootstrap has read the store's version, the first snapshot its replica ever serves, from the cache or from its own load, is of that version or later, or else it is the empty snapshot of a failed bootstrap |
| `BootFreshness.HitServesTheVersionChecked` | platform-services/feature-flags/src/snapshot.rs:57-63 | On a cache hit that first snapshot is the cached one, and its version is exactly the one checked |
| `BootFreshness.StepKeepsBooted` | platform-services/feature-flags/src/snapshot.rs:56-69 | Each single step keeps what a bootstrap knows at or past the version it read |
| `BootFreshness.ReloadCachesWhatItSwapsIn` | platform-services/feature-flags/src/snapshot.rs:143-148 | What a reload caches is the very snapshot it then swaps in, newer than the one served |
| `BootFreshness.BootCachesWhatItServes` | platform-services/feature-flags/src/snapshot.rs:64-68 | What a bootstrap that missed caches is the very snapshot it then serves |
| `ClusterSafety.RunsKeepInv` | platform-services/feature-flags/src/snapshot.rs:37-157 | Every state of every run satisfies the invariant that ties labels, reads, sessions, locks, reload jobs, the cache and the receivers to the history of commits |
| `ClusterSafety.StepKeepsInv` | platform-services/feature-flags/src/store/mod.rs:630-713 | Each single step of the store, the bootstraps, the reloads and the streams keeps that invariant |
| `ClusterSafety.ReloadsAdvance` | platform-services/feature-flags/src/snapshot.rs:133-155 | Published versions strictly increase on every replica, and the served version is never behind the version at which any completed reload began |
| `ClusterSafety.CompletedReloadIsFresh` | platform-services/feature-flags/src/snapshot.rs:129-155 | Read-your-writes: when a reload that began at store version w completes, by skipping or by sending, its replica serves w or later |
| `ClusterProgress.ReplicaCanCatchUp` | platform-services/feature-flags/src/snapshot.rs:129-155 | No dead end: from every reachable state, whatever a replica is busy with, it can finish and reload up to the store's version, with nothing left to send |
| `ClusterProgress.ReplicaCanBoot` | platform-services/feature-flags/src/snapshot.rs:38-69 | A replica that is not there yet can be booted to serve what the store holds |
| `ClusterProgress.ReplicaCanBootFromCache` | platform-services/feature-flags/src/snapshot.rs:57-63 | While the cache holds the store's version, without reading a table |
| `ClusterProgress.CacheCanExpire` | platform-services/feature-flags/src/snapshot.rs:60-61 | The cache can lose its entry at any time, and nothing else with it |
| `ClusterProgress.ConfigCanBeApplied` | platform-services/feature-flags/src/store/mod.rs:630-713 | From every reachable state every declared configuration with distinct keys and storable weights can be applied by a request that expects the store's version or none, whoever holds the lock now; the store then holds what is declared |
| `ClusterProgress.ClientCanSettle` | platform-services/feature-flags/src/grpc/evaluation.rs:211-275 | Every client of an idle replica can be sent its head and all that is queued |
| `ClusterProgress.ConfigCanReachClient` | platform-services/feature-flags/src/snapshot.rs:129-155 | From every state of every run, a declared configuration can still be brought to a connected snapshot client: applied, reloaded by the client's replica and sent whole |
| `ClusterSafety.LagIsAnnounced` | platform-services/feature-flags/src/grpc/evaluation.rs:235-275 | An event client more than 64 updates behind is sent one resync and goes on with the last 64; any other is sent the very next update |
| `ClusterSafety.SentStaysSent` | platform-services/feature-flags/src/grpc/evaluation.rs:211-275 | No step takes back what a client was sent, or its place in the queue |
| `ClusterSafety.StoreStartsAtOne` | platform-services/feature-flags/migrations/0001_init.sql:50-69 | Every run's history begins with the empty tables at version 1, so no store version is that of the empty snapshot a failed bootstrap serves |
| `ClusterSafety.VersionsNeverGoBack` | platform-services/feature-flags/src/snapshot.rs:133-155 | No step takes the store or a replica to an older version, and what was published stays published |
| `ClusterSafety.DrainedClientIsUpToDate` | platform-services/feature-flags/src/grpc/evaluation.rs:211-231 | Snapshot streams: the versions a client is sent never decrease, and once the head is read, the queue is drained and no reload is between swap and send, the last message is the very snapshot served, lag or no lag |
| `ClusterSafety.DrainedEventClientWasTold` | platform-services/feature-flags/src/grpc/evaluation.rs:235-275 | Event streams: the changes told strictly increase, each names the version of a swap and exactly the flags that swap touched, and a drained client has been told the served version |
| `ClusterSafety.ReplicaEvaluatesAsDeclared` | platform-services/feature-flags/src/snapshot.rs:71-77 | A replica at the store's version answers every evaluation as the configuration last applied there declares it |
| `FlagDelivery.AppliedConfigReachesClients` | platform-services/feature-flags/src/grpc/evaluation.rs:211-231 | End to end: after an apply of a wire-normal configuration with distinct keys commits, and as long as nothing else does, a caught-up snapshot client that rebuilds the last response it was sent evaluates every flag in every context as the applied configuration declares it |
| `FlagDelivery.KeptAnswersAreCurrent` | platform-services/feature-flags/src/grpc/evaluation.rs:235-275 | End to end: an event client that lost nothing and is drained may keep an answer computed when it was ready, if no change it was told of names a flag the answer could depend on; the served snapshot gives the same answer |
| `FlagDelivery.ReconciledIsNormal` | platform-services/feature-flags/src/store/mod.rs:86-216 | What the store holds of a wire-normal configuration is wire-normal |
| `SnapshotManager.Manager.Reload` | platform-services/feature-flags/src/snapshot.rs:133-155 | A load that is not newer changes nothing; a newer one is cached if there is a cache, becomes current, and is announced by one update carrying its version and exactly the reported flags |
| `SnapshotManager.SelectiveInvalidationIsSound` | platform-services/feature-flags/src/snapshot.rs:199-229 | Across any number of updates, an answer stays right as long as no update reported a flag it could reach, and what it can reach does not grow |
| `ChangeSet.ChangedFlagKeys` | platform-services/feature-flags/src/snapshot.rs:199-229 | The loops return, once each and in ascending order, exactly the flags added, removed or modified, and the flags of the new snapshot with a rule naming a segment that changed |
| `ChangeSet.UnreportedFlagsAreUnchanged` | platform-services/feature-flags/src/snapshot.rs:199-229 | If nothing reachable from a flag through prerequisites is reported, the flag evaluates the same in both snapshots, for every context and every starting stack |
| `ChangeSet.DependentsAreNotReported` | platform-services/feature-flags/src/snapshot.rs:199-229 | Why reachability is needed: a concrete pair of snapshots where a flag changes its answer and is not reported, because only its prerequisite changed |
| `FlagEngine.EvaluateFlag` | crates/feature-flag/feature-flag-engine/src/engine/mod.rs:41-43 | Evaluation from an empty stack gives the specified outcome |
| `FlagEngine.EvaluateInner` | crates/feature-flag/feature-flag-engine/src/engine/mod.rs:45-73 | For every snapshot, cyclic or not, it terminates (on the flags not on the stack), leaves the stack as it was, and gives the specified outcome for that stack |
| `FlagEngine.RunRules` | crates/feature-flag/feature-flag-engine/src/engine/mod.rs:75-98 | The rule loop serves the first matching rule that has a split or a variant, otherwise the default, with the stack restored |
| `FlagEngine.RunRule` | crates/feature-flag/feature-flag-engine/src/engine/mod.rs:100-116 | A rule matches exactly when its segment is present and matches and every constraint group does |
| `FlagEngine.RunGroup` | crates/feature-flag/feature-flag-engine/src/engine/mod.rs:118-134 | A group matches exactly when it is empty or some constraint matches, prerequisites evaluated under the current stack |
| `FlagEngine.PickDistribution` | crates/feature-flag/feature-flag-engine/src/engine/mod.rs:232-246 | The running-total loop, in 32-bit arithmetic, serves the entry the bucket falls in |
| `FlagMeaning.EvaluationIsLocal` | crates/feature-flag/feature-flag-engine/src/engine/mod.rs:45-134 | Evaluation depends on nothing but the definitions of the flags in reach (their segments included) and which of those are on the stack |
| `FlagMeaning.EvaluateIsAMeaning` | crates/feature-flag/feature-flag-engine/src/engine/mod.rs:45-134 | On a snapshot whose prerequisites are acyclic the engine's answers satisfy the stack-free recursive semantics |
| `FlagMeaning.MeaningIsEvaluate` | crates/feature-flag/feature-flag-engine/src/engine/mod.rs:45-134 | Whatever satisfies the stack-free semantics agrees with the engine at every flag from which no cycle is reachable, so there the meaning is unique |
| `FlagMeaning.CyclicSnapshotHasNoMeaning` | crates/feature-flag/feature-flag-engine/src/engine/mod.rs:51-56 | Acyclicity is needed: on a concrete two-flag cycle nothing satisfies the stack-free semantics |
| `FlagMeaning.RulesServeOwnVariant` | crates/feature-flag/feature-flag-engine/src/engine/mod.rs:75-98 | With references to its own variants only, a flag's rules always resolve to one of its variants |
| `FlagMeaning.ValidFlagsAlwaysResolve` | crates/feature-flag/feature-flag-engine/src/engine/mod.rs:38-73 | A present flag whose default, targets and splits name its own variants resolves to one of its own variants for every context, cyclic prerequisites included |
| `FlagMeaning.OperatorLaws` | crates/feature-flag/feature-flag-engine/src/engine/mod.rs:168-215 | How the attribute operators relate: complements, membership as equality with some value, the order of the comparisons, prefixes and suffixes as substrings, and when a comparison can hold at all |
| `FlagDecisions.NumberOperatorsServe` | crates/feature-flag/feature-flag-engine/src/engine/mod.rs:182-185 | Told of the flag alone: with one rule of one constraint and numbers m in the context and n in the constraint, the rule's variant is served as a targeting match exactly when m > n, m >= n, m < n or m <= n for the four operators, and the default variant as default otherwise |
| `FlagDecisions.NumberOperatorsNeedNumbers` | crates/feature-flag/feature-flag-engine/src/engine/mod.rs:203-212 | A number operator serves the default whenever either side is missing or no number |
| `FlagDecisions.StringOperatorsServe` | crates/feature-flag/feature-flag-engine/src/engine/mod.rs:178-181 | Contains serves exactly when the constraint's text stands somewhere in the attribute, StartsWith and EndsWith exactly when it stands at that end, Regex exactly when the foreign matcher says so of the attribute and the pattern |
| `FlagDecisions.StringOperatorsNeedStrings` | crates/feature-flag/feature-flag-engine/src/engine/mod.rs:192-201 | A string operator serves the default whenever either side is missing or no string |
| `FlagDecisions.EqualityOperatorsServe` | crates/feature-flag/feature-flag-engine/src/engine/mod.rs:173-177 | Exists, Eq, Neq, In and NotIn serve exactly as the attribute's presence, equality with the first value, or membership among the values says |
| `FlagDecisions.PrerequisiteServes` | crates/feature-flag/feature-flag-engine/src/engine/mod.rs:128-132 | A prerequisite serves exactly when the other flag resolves, under the stack, to a variant listed among the values |
| `FlagDecisions.GroupsServe` | crates/feature-flag/feature-flag-engine/src/engine/mod.rs:109-124 | A rule with several groups serves exactly when every group is empty or holds a constraint that would serve alone |
| `FlagDecisions.MissingSegmentBlocks` | crates/feature-flag/feature-flag-engine/src/engine/mod.rs:101-108 | A rule naming a segment that is not there never serves |
| `FlagDecisions.SegmentNeedsAll` | crates/feature-flag/feature-flag-engine/src/engine/mod.rs:155-166 | One segment constraint that fails is enough to block the rule |
| `FlagDecisions.SegmentOfOneIsItsConstraint` | crates/feature-flag/feature-flag-engine/src/engine/mod.rs:100-114 | A segment of one constraint decides as that constraint does in the rule itself; a prerequisite in a segment never matches |
| `FlagDecisions.SplitServes` | crates/feature-flag/feature-flag-engine/src/engine/mod.rs:232-261 | A split of weights totalling 100 serves the entry in whose interval the digest of flag key, salt and targeting key modulo 100 falls, the salt left out when empty |
| `FlagDecisions.InactiveFlagsServeTheDefault` | crates/feature-flag/feature-flag-engine/src/engine/mod.rs:63-65 | An archived or disabled flag serves its default variant as disabled, whatever its rules |
| `FlagDecisions.ErrorsAre` | crates/feature-flag/feature-flag-engine/src/engine/mod.rs:51-61 | A missing flag is not found; a cycle and any other failure of a present flag is a parse error |
| `FlagDecisions.UnknownVariantIsAnError` | crates/feature-flag/feature-flag-engine/src/engine/mod.rs:136-147 | A variant that is not there is a parse error |
| `FlagRollout.SplitIsExactIff` | crates/feature-flag/feature-flag-engine/src/engine/mod.rs:232-246 | Each entry of a non-empty split is served exactly as many of the 100 buckets as its weight says, if and only if the weights truly sum to 100 |
| `FlagRollout.FallbackNeverUsed` | crates/feature-flag/feature-flag-engine/src/engine/mod.rs:232-246 | When they do, every bucket lies in the interval of the entry picked, so the last entry is never picked for want of another |
| `FlagRollout.RaisingWeightsKeepsEarlierEntries` | crates/feature-flag/feature-flag-engine/src/engine/mod.rs:232-246 | Raising every running total never moves a bucket to a later entry |
| `FlagRollout.RampUpIsMonotone` | crates/feature-flag/feature-flag-engine/src/engine/mod.rs:232-246 | In a two-entry split, raising the first weight never moves a bucket out of the first entry |
| `FlagRollout.EveryBucketIsServedOnce` | crates/feature-flag/feature-flag-engine/src/engine/mod.rs:232-246 | The counts of the entries add up to the number of buckets, whatever the weights |
| `FlagRollout.WrappedTotalIsSumModulo` | platform-services/feature-flags/src/store/mod.rs:1042-1052 | The validated total is the true sum modulo 2^32 |
| `FlagRollout.AcceptedSplitIsExactIffNoOverflow` | platform-services/feature-flags/src/store/mod.rs:1042-1057 | A split that validation accepts is honoured exactly, if and only if its sum did not overflow 32 bits |
| `FlagRollout.OverflowingSplitIsAccepted` | platform-services/feature-flags/src/store/mod.rs:1042-1057 | A concrete overflowing split that validation accepts and whose first entry takes every bucket |
| `FlagValidation.ValidateDesired` | platform-services/feature-flags/src/store/mod.rs:857-872 | Accepts exactly when every flag's default exists, every value fits the flag's type, every target exists and every split totals 100 in 32 bits; an error names a fault some flag really has |
| `FlagValidation.ValidateFlag` | platform-services/feature-flags/src/store/mod.rs:858-870 | The same for one flag |
| `FlagValidation.AcceptedKinds` | platform-services/feature-flags/src/store/mod.rs:1009-1026 | The JSON values each type takes, told of acceptance: bools, strings, integers and whole doubles, all numbers, objects, and nothing else |
| `FlagValidation.AcceptedFlagsResolveInType` | platform-services/feature-flags/src/store/mod.rs:857-872 | A present flag that validation accepted resolves for every context, to one of its own variants and to a value of its declared type, cyclic prerequisites included |
| `ConfigDiff.DiffConfig` | platform-services/feature-flags/src/store/mod.rs:876-944 | The loops produce, in this order: for each declared segment that differs a create with its name or an update with the fields; a delete for each live segment not declared; the same for flags. Each prune comes once, in the order of the map |
| `ConfigDiff.VariantsEqualMeaning` | platform-services/feature-flags/src/store/mod.rs:947-958 | Comparing the variant lists after a stable sort by key holds exactly when both give every key the same values in the same order |
| `ConfigDiff.DistinctEqualIffLookupsAgree` | platform-services/feature-flags/src/store/mod.rs:947-958 | When no key repeats, it holds exactly when every lookup agrees |
| `ConfigDiff.FlagDiffEmptyIffEqual` | platform-services/feature-flags/src/store/mod.rs:969-990 | No field is reported exactly when the flags agree in every field, up to rule rank and variant order |
| `ConfigDiff.FlagFieldsAre` | platform-services/feature-flags/src/store/mod.rs:969-990 | Each field is named exactly when it differs, the variants as lists of values per key, the rules one by one with rank aside |
| `ConfigDiff.SegmentFieldsAre` | platform-services/feature-flags/src/store/mod.rs:996-1005 | A segment's name and constraints are named exactly when they differ, and nothing else is |
| `ConfigDiff.FlagChangesAre` | platform-services/feature-flags/src/store/mod.rs:907-941 | A flag is created exactly when it is declared and not live, with its type, state and default as details; updated exactly when it is both and differs, with the fields; deleted exactly when it is live and not declared |
| `ConfigDiff.SegmentChangesAre` | platform-services/feature-flags/src/store/mod.rs:879-905 | The same for segments |
| `ConfigDiff.DiffEmptyIffAgrees` | platform-services/feature-flags/src/store/mod.rs:876-944 | The diff is empty exactly when live and declared configuration agree |
| `FlagWrites.GroupsRoundTrip` | platform-services/feature-flags/src/store/mod.rs:786-804 | Constraint groups written as rows and read back are the groups written, without the empty ones |
| `FlagWrites.InsertedRulesRead` | platform-services/feature-flags/src/store/mod.rs:760-807 | Rules written one by one under fresh ids read back in their stored form, in order |
| `FlagViews.ReplacedRulesRead` | platform-services/feature-flags/src/store/mod.rs:760-807 | After a flag's rules are replaced, reading the flag gives the stored form of the new rules, in rank order |
| `FlagViews.ReplaceRulesFrame` | platform-services/feature-flags/src/store/mod.rs:760-807 | and every other flag reads as before |
| `FlagViews.UpsertFlagView` | platform-services/feature-flags/src/store/mod.rs:718-758 | An upsert replaces what is read under its key, keeping the positions of variants that stay, and nothing else |
| `FlagViews.UpsertFlagOk` | platform-services/feature-flags/src/store/mod.rs:718-758 | An upsert keeps keys and ids unique, every child row owned, and every segment as it was |
| `FlagViews.UpsertSegmentView` | platform-services/feature-flags/src/store/mod.rs:811-841 | A segment upsert makes its key read as the segment given, and changes no other |
| `FlagViews.DeleteFlagView` | platform-services/feature-flags/src/store/mod.rs:682-687 | Deleting a flag, with every cascade, removes what is read under its key and nothing else |
| `FlagViews.DeleteSegmentView` | platform-services/feature-flags/src/store/mod.rs:689-695 | The same for a segment |
| `FlagStore.Transaction.UpsertFlagTx` | platform-services/feature-flags/src/store/mod.rs:718-758 | The statements leave the specified tables; they fail exactly when a split weight is over the column's limit of 100; the version trigger fires |
| `FlagStore.Transaction.UpsertSegmentTx` | platform-services/feature-flags/src/store/mod.rs:811-841 | The statements leave the specified tables, and the version trigger fires |
| `FlagStore.Transaction.ReplaceRulesTx` | platform-services/feature-flags/src/store/mod.rs:760-807 | As above for one flag's rule set |
| `FlagStore.Transaction.InsertRuleTx` | platform-services/feature-flags/src/store/mod.rs:760-807 | As above for one rule with its split and groups |
| `FlagStore.Transaction.InsertConstraintsTx` | platform-services/feature-flags/src/store/mod.rs:786-804 | The nested loops append the rows of the groups, each under its group index |
| `FlagStore.Transaction.ApplyAll` | platform-services/feature-flags/src/store/mod.rs:667-696 | The three ordered passes leave the specified tables, fail exactly when some written flag breaks the weight check, and fire the version trigger when there is any change |
| `FlagStore.Store.ApplyConfig` | platform-services/feature-flags/src/store/mod.rs:630-713 | Invalid configurations, dry runs and empty diffs write nothing; a moved version aborts with no write; otherwise the tables become the passes' result for a diff taken against the version that is locked, the version grows, and the version reported is the one read after the commit |
| `ConfigApply.ApplyConverges` | platform-services/feature-flags/src/store/mod.rs:667-696 | With distinct keys, the passes applied to the state the diff was taken against leave exactly the declared configuration: every declared key, no other, each reading as declared |
| `ConfigApply.StoredDiffIsLostFields` | platform-services/feature-flags/src/store/mod.rs:718-807 | A flag just written differs from its declaration in its variants exactly when the declaration repeats a variant key, in its rules exactly when it has an empty constraint group, and in nothing else, whatever was there before |
| `ConfigApply.StoredDiffEmptyIffRepresentable` | platform-services/feature-flags/src/store/mod.rs:718-807 | So it shows no difference exactly when the declaration has neither |
| `ConfigApply.StoredStateIsRepresentable` | platform-services/feature-flags/src/store/mod.rs:86-216 | Whatever the tables hold has neither |
| `ConfigApply.ReconciledAgreesIff` | platform-services/feature-flags/src/store/mod.rs:876-944 | A reconciled state agrees with its declarations exactly when each of them is free of both |
| `ConfigApply.SecondPlanEmptyIff` | platform-services/feature-flags/src/store/mod.rs:630-652 | Planning again after an apply finds nothing exactly when no declared flag repeats a variant key or has an empty constraint group |
| `ConfigApply.LaterPlansRepeat` | platform-services/feature-flags/src/store/mod.rs:630-652 | Every plan after an apply holds exactly one update for each other declared flag, of its variants, its rules or both, as fixed by the declaration alone |
| `ConfigApply.ApplyingAgainRepeats` | platform-services/feature-flags/src/store/mod.rs:630-713 | Applying that plan leads to the same plan once more |
| `ConfigApply.EmptyGroupDoesNotConverge` | platform-services/feature-flags/src/store/mod.rs:630-713 | A concrete flag with an empty constraint group, applied to an empty store, for which the next plan is again an update of its rules |
| `ConfigApply.ReconciledEvaluatesAsDeclared` | platform-services/feature-flags/src/store/mod.rs:147-158 | Even then no evaluation differs: with distinct variant keys, the reconciled state evaluates every flag, context and stack as the declarations do, dropped empty groups included |
| `ConfigApply.MatchIgnoresEmptyGroups` | crates/feature-flag/feature-flag-engine/src/engine/mod.rs:118-126 | Only non-empty groups can block a rule |
| `FlagLoad.LoadSnapshot` | platform-services/feature-flags/src/store/mod.rs:86-216 | The maps filled from the rows of the seven reads are the snapshot the rows spell; rows of owners that were not read are dropped |
| `FlagDelivery.LoadsCanBeAssembled` | platform-services/feature-flags/src/store/mod.rs:86-216 | Whatever commits its reads straddle, a complete load of the state machine meets what those loops need |
| `FlagLoad.CollectByOwner` | platform-services/feature-flags/src/store/mod.rs:124-138 | Grouping rows by owner gives each owner its rows in table order |
| `FlagLoad.GatherGroups` | platform-services/feature-flags/src/store/mod.rs:140-162 | Constraint rows keyed by group index come out as the groups in index order |
| `FlagLoad.AttachVariants` | platform-services/feature-flags/src/store/mod.rs:111-122 | Each flag read gets its variant rows, in order |
| `FlagLoad.AttachRules` | platform-services/feature-flags/src/store/mod.rs:164-189 | Each flag read gets its rules in rank order, each rule its split and groups |
| `FlagLoad.OrderByRankRows` | platform-services/feature-flags/src/store/mod.rs:164-168 | Sorting the whole rule table by rank and taking one flag's rows is sorting that flag's rows |
| `Wire.JsonRoundTrip` | crates/feature-flag/feature-flag-engine/src/convert/mod.rs:18-50 | A JSON value survives the wire exactly when it holds no integer literal: numbers become doubles |
| `Wire.PbRoundTrip` | crates/feature-flag/feature-flag-engine/src/convert/mod.rs:18-66 | A wire value survives JSON exactly when every kind in it is set and every number finite |
| `Wire.FlagRoundTrip` | crates/feature-flag/feature-flag-engine/src/convert/mod.rs:112-124 | A flag that goes out and comes back is its normal form; no conversion fails |
| `Wire.FlagNormalIff` | crates/feature-flag/feature-flag-engine/src/convert/mod.rs:112-262 | A flag is unchanged exactly when its values hold no integer literal and no optional key is the empty string |
| `Wire.SegmentNormalIff` | crates/feature-flag/feature-flag-engine/src/convert/mod.rs:169-242 | A segment is unchanged exactly when its constraint values hold no integer literal |
| `Wire.FlagFromPbNormal` | crates/feature-flag/feature-flag-engine/src/convert/mod.rs:244-262 | Whatever flag arrives over the wire is normal, so what the write API stores survives being sent again |
| `Wire.SegmentFromPbNormal` | crates/feature-flag/feature-flag-engine/src/convert/mod.rs:232-242 | The same for a segment |
| `Wire.FlagConvertsIff` | crates/feature-flag/feature-flag-engine/src/convert/mod.rs:190-262 | A flag converts exactly when its type and every operator in its rules is specified |
| `Wire.ResponseConvertsIff` | crates/feature-flag/feature-flag-engine/src/convert/mod.rs:264-282 | A response builds a snapshot exactly when every flag and segment in it is so specified |
| `Wire.UnsaidIsNull` | crates/feature-flag/feature-flag-engine/src/convert/mod.rs:18-36 | A variant without a value, a value of no kind and a number that is not finite are read as null |
| `Wire.ConvertConstraints` | crates/feature-flag/feature-flag-engine/src/convert/mod.rs:190-200 | The loop converts in order and stops at the first unspecified operator |
| `Wire.RenderSnapshot` | platform-services/feature-flags/src/grpc/evaluation.rs:70-76 | The response lists every flag and segment exactly once, in some order, under the snapshot's version |
| `Wire.BuildSnapshot` | crates/feature-flag/feature-flag-engine/src/convert/mod.rs:264-282 | The loops rebuild the snapshot the response spells, or fail with its first conversion error |
| `Wire.SnapshotRoundTrip` | crates/feature-flag/feature-flag-engine/src/convert/mod.rs:264-282 | A snapshot keyed by its flags' and segments' own keys, sent in any order, is rebuilt as its normal form |
| `Wire.SnapshotSurvivesIff` | crates/feature-flag/feature-flag-engine/src/convert/mod.rs:264-282 | A snapshot crosses the wire unchanged exactly when it is so keyed and everything in it is normal |
| `LocalMode.LocalEvaluator.Apply` | crates/feature-flag/feature-flag-client/src/local.rs:47-52 | A response that converts replaces the snapshot; one that does not is ignored |
| `LocalMode.ContextRoundTrip` | crates/feature-flag/feature-flag-engine/src/convert/mod.rs:68-84 | A context sent with a request, every attribute as its wire value, is the context evaluated, exactly when no attribute holds an integer literal |
| `LocalMode.AttributesArrive` | crates/feature-flag/feature-flag-client/src/context.rs:24-55 | Strings, bools and numbers set by a caller are the strings, bools and numbers evaluation reads under that key; no attributes are none |
| `LocalMode.LocalEvaluator.Resolve` | crates/feature-flag/feature-flag-client/src/local.rs:88-108 | Client-side resolution gives the specified value, variant, reason and error code; for the request that carries a wire-normal context, those for that very context |
| `LocalMode.ResolveRemotely` | platform-services/feature-flags/src/grpc/evaluation.rs:50-68 | Server-side resolution as the client unpacks it gives the same specified answer, likewise for the request that carries a wire-normal context |
| `LocalMode.AnswerCodes` | crates/feature-flag/feature-flag-engine/src/convert/mod.rs:99-110 | In both modes a missing flag gives the caller's fallback with FLAG_NOT_FOUND, a present flag that does not resolve gives it with PARSE_ERROR, and a value of another type gives it with TYPE_MISMATCH |
| `LocalMode.ExtractionIsTyped` | crates/feature-flag/feature-flag-client/src/local.rs:62-86 | An integer resolution takes exactly the integer literals of 64 signed bits, a bool resolution exactly the bools |
| `LocalMode.LocalAgreesWithRemote` | crates/feature-flag/feature-flag-client/src/local.rs:88-108 | For a well-keyed, wire-normal snapshot received in any order, both modes give the same value, variant, reason and error code for every flag, context and type |
| `LocalMode.IntegerLiteralsDisagree` | crates/feature-flag/feature-flag-client/src/local.rs:70-72 | Normality is needed: a concrete snapshot with an integer literal resolves to 7 remotely and to a type mismatch locally |
| `LocalMode.WireNormalNeverAnswersInteger` | platform-services/feature-flags/src/grpc/evaluation.rs:120-135 | On a wire-normal snapshot an integer resolution never succeeds, on either side |
| `ConfigDocs.GroupsSurviveDocument` | platform-services/feature-flags/src/bin/ffctl.rs:538-576 | A rule written as a document, in the flat form when every group has one constraint or in the grouped form otherwise, reads back with the same groups, at its position's rank |
| `ConfigDocs.GroupsComeBeforeFlatConstraints` | platform-services/feature-flags/src/bin/ffctl.rs:538-576 | A document that gives both groups and flat constraints is read by its groups; without groups each flat constraint is a group of its own |
| `ConfigDocs.DocumentReadsIff` | platform-services/feature-flags/src/bin/ffctl.rs:511-512 | A flag document is read exactly when it names a value type |
| `ConfigDocs.ExportChain` | platform-services/feature-flags/src/bin/ffctl.rs:511-654 | Exporting a flag, reading it back and sending it never fails, and gives its normal form with variants in key order and ranks renumbered |
| `ConfigDocs.SegmentExportChain` | platform-services/feature-flags/src/bin/ffctl.rs:586-670 | The same for a segment |
| `ConfigDocs.ExportThenPlanFlag` | platform-services/feature-flags/src/bin/ffctl.rs:511-654 | The flag that comes back plans as no change exactly when the live one is not archived, repeats no variant key and is wire-normal |
| `ConfigDocs.ExportThenPlanIsEmptyIff` | platform-services/feature-flags/src/bin/ffctl.rs:497-509 | The plan of an export of the whole live state is empty exactly when every live flag is so and every live segment is wire-normal |
| `ConfigDocs.ArchivedIsPlannedForDeletion` | platform-services/feature-flags/src/bin/ffctl.rs:438-445 | An archived flag is not exported, so the plan of the export deletes it |
| `ExprLexer.Tokenize` | platform-services/janitor-bot/src/rules/expr.rs:72-199 | The character loop gives exactly the specified tokens, or the error of the first bad character |
| `ExprLexer.NextToken` | platform-services/janitor-bot/src/rules/expr.rs:76-194 | One turn of the loop: the token at the cursor and where the next turn starts |
| `ExprLexer.ParseExpression` | platform-services/janitor-bot/src/rules/expr.rs:297-311 | Text to tree, or the first error of the tokenizer or the parser |
| `ExprParser.RunParser` | platform-services/janitor-bot/src/rules/expr.rs:201-311 | The cursor-moving parser gives the tree or error of the specification; the empty list is true, and tokens left over are an error |
| `ExprParser.Parser.RunOr` | platform-services/janitor-bot/src/rules/expr.rs:225-235 | The loop over \|\| ends where the specification does, with its tree or error |
| `ExprParser.Parser.RunAnd` | platform-services/janitor-bot/src/rules/expr.rs:237-247 | The same for && |
| `ExprParser.Parser.RunComparison` | platform-services/janitor-bot/src/rules/expr.rs:249-264 | At most one comparison: a second operator is left for the caller |
| `ExprParser.Parser.RunUnary` | platform-services/janitor-bot/src/rules/expr.rs:266-274 | Any number of ! before an atom |
| `ExprParser.Parser.RunAtom` | platform-services/janitor-bot/src/rules/expr.rs:276-294 | A parenthesis, a literal or a name, and otherwise an error; the cursor moves on even then |
| `ExprParser.ParserAcceptsTheGrammar` | platform-services/janitor-bot/src/rules/expr.rs:225-311 | A non-empty token list is accepted exactly when the or/and/non-associative-comparison/unary/atom grammar derives it, with the derived tree |
| `ExprParser.GrammarIsUnambiguous` | platform-services/janitor-bot/src/rules/expr.rs:225-294 | The grammar derives at most one tree from a token list |
| `ExprPrinter.PrintParses` | platform-services/janitor-bot/src/rules/expr.rs:225-311 | The tokens of the canonical printer, which adds parentheses only where precedence or left associativity need them, parse back to the expression |
| `ExprPrinter.PrintIsShortest` | platform-services/janitor-bot/src/rules/expr.rs:225-311 | No token list that parses to the expression is shorter than the printed one |
| `ExprRoundTrip.RenderLexes` | platform-services/janitor-bot/src/rules/expr.rs:72-199 | The tokenizer undoes the rendering of any legal token list |
| `ExprRoundTrip.DigitsReadBack` | platform-services/janitor-bot/src/rules/expr.rs:169-175 | A number read from its decimal digits is that number |
| `ExprText.BlanksAreSkipped` | platform-services/janitor-bot/src/rules/expr.rs:75-79 | Blanks, tabs and line ends between tokens mean nothing |
| `ExprText.AsciiNamesAreNames` | platform-services/janitor-bot/src/rules/expr.rs:177-193 | ASCII letters, digits and underscores, no digit first, are one name |
| `ExprText.DecimalsAreRead` | platform-services/janitor-bot/src/rules/expr.rs:151-175 | A number with one dot is its digits' number with the point moved |
| `ExprText.NegativeDecimalsAreRead` | platform-services/janitor-bot/src/rules/expr.rs:151-175 | With a minus in front it is the negative of that number |
| `ExprRoundTrip.ExpressionRoundTrip` | platform-services/janitor-bot/src/rules/expr.rs:297-311 | Printing and parsing again gives back every expression without float literals whose names are identifiers, whose integers fit 64 bits and whose strings lack a kind of quote |
| `ExprRoundTrip.FloatFreeIsParsedIffLegal` | platform-services/janitor-bot/src/rules/expr.rs:72-311 | Those are all: a float-free expression is what some text means exactly when it is of that kind |
| `ExprSyntax.CmpFlips` | platform-services/janitor-bot/src/rules/expr.rs:313-371 | Swapping the sides and flipping the operator changes no verdict |
| `ExprSyntax.CmpIsAnOrder` | platform-services/janitor-bot/src/rules/expr.rs:313-358 | Over numbers of both kinds and strings, the six operators are one order: complements and unions as usual |
| `ExprMeaning.NumbersCompare` | platform-services/janitor-bot/src/rules/expr.rs:313-341 | Integers and doubles in any mixture compare as the numbers they are, for each of the six operators |
| `ExprMeaning.IntegersCompare` | platform-services/janitor-bot/src/rules/expr.rs:315-322 | So two integer literals a and b give a == b, a != b, a < b, a <= b, a > b or a >= b |
| `ExprMeaning.StringsCompare` | platform-services/janitor-bot/src/rules/expr.rs:342-349 | Strings compare by their first difference, a shorter one first |
| `ExprMeaning.OthersCompare` | platform-services/janitor-bot/src/rules/expr.rs:351-357 | Bools are equal or not and have no order; values of different kinds give an error naming both |
| `ExprMeaning.ComparisonErrors` | platform-services/janitor-bot/src/rules/expr.rs:402-406 | The left operand's error comes out before the right one's |
| `ExprMeaning.NotTable` | platform-services/janitor-bot/src/rules/expr.rs:380-383 | Negation turns a bool round and passes on an error, or that its operand is no bool |
| `ExprMeaning.AndTable` | platform-services/janitor-bot/src/rules/expr.rs:384-392 | A false left side decides alone; after a true one the right side decides; which error comes out |
| `ExprMeaning.OrTable` | platform-services/janitor-bot/src/rules/expr.rs:393-401 | A true left side decides alone; after a false one the right side decides; which error comes out |
| `ExprMeaning.ConnectivesArePropositional` | platform-services/janitor-bot/src/rules/expr.rs:373-408 | Over subexpressions that are bools, an expression of connectives says what its propositional reading says |
| `ExprSyntax.EvalReadsReferencedVars` | platform-services/janitor-bot/src/rules/expr.rs:373-426 | Evaluation depends on no variable but those reported as referenced |
| `CheckExpansion.ResolveInMatcher` | platform-services/janitor-bot/src/rules/mod.rs:35-71 | Terminates (on the bound names not being followed, then the matcher), gives the specified expansion or error, and on success leaves the visiting set as it was |
| `CheckExpansion.ResolveMembers` | platform-services/janitor-bot/src/rules/mod.rs:59-63 | The loop over a combinator's members, stopping at the first error |
| `CheckExpansion.ExpandsIffPathsClean` | platform-services/janitor-bot/src/rules/mod.rs:41-57 | Expansion succeeds exactly when on every reference path all names are bound and none comes twice |
| `CheckExpansion.GlobalNamesReadTheFile` | platform-services/janitor-bot/src/rules/mod.rs:44-57 | `global.k` expands to the expansion of the file's check k, or is unknown, whatever checks the rule has of its own |
| `CheckExpansion.OtherNamesReadTheRule` | platform-services/janitor-bot/src/rules/mod.rs:44-57 | Any other name expands to the expansion of the rule's own check of that name, or is unknown |
| `CheckExpansion.ErrorsAreReal` | platform-services/janitor-bot/src/rules/mod.rs:44-53 | An error comes with a reference path that ends in an unbound name, or in a name already on it |
| `CheckExpansion.ExpandKeepsMeaning` | platform-services/janitor-bot/src/rules/mod.rs:35-71 | The expansion holds no reference and says what the condition says under every honest reading of the names |
| `CheckExpansion.ExpansionHasAReading` | platform-services/janitor-bot/src/rules/mod.rs:35-71 | Whenever expansion succeeds there is an honest reading of the reachable names |
| `RuleLoading.ResolveChecks` | platform-services/janitor-bot/src/rules/mod.rs:832-847 | Succeeds exactly when every condition and gate of every rule can be followed to the end; then each rule comes back with them expanded and nothing else changed; otherwise the first such rule is named |
| `RuleLoading.ResolveRule` | platform-services/janitor-bot/src/rules/mod.rs:835-844 | The same for one rule, with one visiting set for its condition and its gates |
| `RuleLoading.LoadedNamesAre` | platform-services/janitor-bot/src/rules/mod.rs:832-847 | In a loaded rule, a condition `global.k` has become the file's check k and any other name the rule's own check of that name |
| `RuleLoading.LoadedRuleMeansTheSame` | platform-services/janitor-bot/src/rules/matchers/types.rs:246-259 | A loaded rule has no reference left, so the panics of matching and of collecting resources are unreachable, and each condition says what it said with its checks in place |
| `RuleOrder.TopoSort` | platform-services/janitor-bot/src/rules/mod.rs:879-920 | The result is the prioritised rules in a dependency order of their graph |
| `RuleOrder.CountDependencies` | platform-services/janitor-bot/src/rules/mod.rs:892-902 | Each rule's degree counts its known dependencies with repetitions, and each rule's list holds its dependents in order, as often as they name it |
| `RuleOrder.Drain` | platform-services/janitor-bot/src/rules/mod.rs:904-913 | The queue loop ends with a dependency order: distinct, complete, dependencies first, first ready first out; no degree goes below zero |
| `RuleOrder.Release` | platform-services/janitor-bot/src/rules/mod.rs:907-912 | Dealing with one rule's dependents keeps degrees equal to what is still missing and the queue in order of readiness |
| `RuleOrder.TakeInOrder` | platform-services/janitor-bot/src/rules/mod.rs:915-919 | Every slot is still full when its rule is taken |
| `RuleOrder.ByPriorityIsStable` | platform-services/janitor-bot/src/rules/mod.rs:880 | The first sort keeps every rule, puts higher priorities first and leaves equal ones in file order |
| `RuleOrder.TopoOrderIsUnique` | platform-services/janitor-bot/src/rules/mod.rs:904-913 | The graph determines the order completely |
| `RuleOrder.OrderedIffNoCycle` | platform-services/janitor-bot/src/rules/mod.rs:904-913 | The order holds each rule that is neither on a dependency cycle nor downstream of one exactly once, and no other |
| `RuleOrder.SortKeepsTheAcyclic` | platform-services/janitor-bot/src/rules/mod.rs:879-920 | The same said of the sorted rule list |
| `RuleOrder.IndependentRulesKeepPriorityOrder` | platform-services/janitor-bot/src/rules/mod.rs:904-913 | With no known dependencies the order is the priority order |
| `RuleMatching.Matches` | platform-services/janitor-bot/src/rules/matchers/mod.rs:54-144 | The early-return loops give the specified verdict and leave the memo as specified |
| `LeafConditions.AttemptsCompare` | platform-services/janitor-bot/src/rules/matchers/mod.rs:86-106 | A written comparison of a workflow's run attempt with an integer, such as `value < 3`, holds exactly when the numbers compare so; an event without an attempt counts as 0 |
| `LeafConditions.WrittenExpressionIsEvaluated` | platform-services/janitor-bot/src/rules/matchers/mod.rs:86-106 | A legal float-free expression over a leaf holds exactly when it evaluates to true with `value` bound to what the leaf says |
| `LeafConditions.FaultyExpressionsNeverHold` | platform-services/janitor-bot/src/rules/matchers/mod.rs:93-106 | An expression that does not parse or does not evaluate never holds |
| `LeafConditions.LeavesSay` | platform-services/janitor-bot/src/rules/matchers/mod.rs:187-200 | A bare leaf says whether there is an attempt, whether the flag is on for the asking rule, or what is read |
| `RuleMatching.MemoisedIsHolds` | platform-services/janitor-bot/src/rules/matchers/mod.rs:54-144 | When no memoised leaf looks at the rule's name, matching through any honest memo gives the memo-free verdict and keeps the memo honest |
| `RuleMatching.MemoServesIffNameBlind` | platform-services/janitor-bot/src/rules/matchers/mod.rs:111-141 | The memo, keyed by the leaf alone, serves every rule its own verdict exactly for leaves that do not look at the rule's name |
| `RuleLoops.ExplainRules` | platform-services/janitor-bot/src/rules/mod.rs:479-535 | The explain loop's log is the specified one |
| `RuleLoops.RunRules` | platform-services/janitor-bot/src/rules/mod.rs:566-645 | The run loop's log is the specified one, and the actions performed are exactly those it says ran outside dry runs, in its order |
| `RuleLoops.RunActionGroup` | platform-services/janitor-bot/src/rules/mod.rs:692-746 | A closed gate, or under a lock a rule or gate that no longer holds, skips the group; otherwise all its actions run |
| `RuleLoops.DispatchActions` | platform-services/janitor-bot/src/rules/mod.rs:749-797 | Every action of the group is logged as run, and performed unless the rule is a dry run |
| `RuleLoops.ExplainActions` | platform-services/janitor-bot/src/rules/mod.rs:808-830 | Every action is logged as run exactly when its group's gate is open |
| `RuleRuns.ExplainPredictsRun` | platform-services/janitor-bot/src/rules/mod.rs:479-645 | When no memoised leaf looks at the rule's name, explanation and run log the same rules in the same order with the same marks on every action, dry runs and serial groups included, and both are the memo-free log |
| `RuleRuns.ExplainPredictsRunWithoutSerial` | platform-services/janitor-bot/src/rules/mod.rs:479-645 | Without serial groups they agree whatever the leaves look at |
| `RuleRuns.SerialGroupBreaksThePrediction` | platform-services/janitor-bot/src/rules/mod.rs:711-743 | With a serial group and a leaf that looks at the rule's name they can differ: a concrete pair of rules |
| `RuleFixpoint.ExecutedIsLeastFixpoint` | platform-services/janitor-bot/src/rules/mod.rs:566-649 | With unique names and name-blind leaves, the executed rules are the least set closed under: enabled, matching, some action runs, every dependency executed; over the rules as written |
| `RuleFixpoint.PrioritiesDoNotMatter` | platform-services/janitor-bot/src/rules/mod.rs:566-649 | Writing the same rules in another order or with other priorities executes the same names |
| `RuleFixpoint.DroppedRulesNeverExecute` | platform-services/janitor-bot/src/rules/mod.rs:879-920 | A rule the sort drops would never have been executed |
| `RuleEngine.FromRules` | platform-services/janitor-bot/src/rules/mod.rs:178-182 | Succeeds exactly when every condition of the file can be followed to the end; what comes out is the file's rules expanded, then sorted, with no reference left to panic on |
| `RuleEngine.PreparedRunIsLeastFixpoint` | platform-services/janitor-bot/src/rules/mod.rs:178-182 | From the file to the run: the executed rules are the least closed set over the file's rules with their conditions expanded |
| `SseFraming.SseTranslator.Push` | platform-services/ai-gateway/src/providers/translate/streaming.rs:34-44 | A push passes through, or gives the transform everything up to the last LF LF and keeps the rest |
| `SseFraming.SseTranslator.Finish` | platform-services/ai-gateway/src/providers/translate/streaming.rs:46-52 | What is left is transformed once, if there is anything |
| `SseFraming.TakeCompleteFrames` | platform-services/ai-gateway/src/providers/translate/streaming.rs:67-74 | The search from the end cuts at the last LF LF, or reports that there is none |
| `SseFraming.Forward` | platform-services/ai-gateway/src/providers/translate/streaming.rs:34-52 | A whole stream through the translator gives the specified output; a passthrough gives the stream |
| `SseFraming.PushesKeepFraming` | platform-services/ai-gateway/src/providers/translate/streaming.rs:34-44 | After any pushes: each input of the transform ends in LF LF, nothing pending holds an LF LF, and inputs and pending together are the bytes fed |
| `SseFraming.PushesEndInEmptyLines` | platform-services/ai-gateway/src/providers/translate/streaming.rs:67-74 | In bytes: each input of the transform from a push ends in 10, 10, and nothing pending holds two 10s in a row |
| `SseFraming.InputsAreTheStream` | platform-services/ai-gateway/src/providers/translate/streaming.rs:34-52 | After the finish the inputs concatenate to the whole stream |
| `SseFraming.TranslatedIsWhole` | platform-services/ai-gateway/src/providers/translate/streaming.rs:34-52 | For a transform that composes at LF LF, output and state are those of one application to the whole stream |
| `SseFraming.ChunksDoNotMatter` | platform-services/ai-gateway/src/providers/translate/streaming.rs:34-52 | So two ways of chunking one stream give the same output and state |
| `SseFraming.CutsDependOnChunks` | platform-services/ai-gateway/src/providers/translate/streaming.rs:67-74 | Where it is cut can differ: three line feeds in one chunk or in two |
| `Failover.Failover` | platform-services/ai-gateway/src/routes/proxy.rs:232-292 | The loop's result, attempts and total sleep are the specified ones |
| `Failover.TryCandidate` | platform-services/ai-gateway/src/routes/proxy.rs:234-280 | One candidate's turn ends with a good answer, or leaves the loop at the next candidate |
| `Failover.AttemptsAreExact` | platform-services/ai-gateway/src/routes/proxy.rs:232-280 | An attempt is made exactly when no earlier candidate answers, every candidate so far could be addressed, and neither a good answer nor too long a Retry-After came before it at its own candidate; in order, three at most each |
| `Failover.FailoverReturnsFirstGoodAnswer` | platform-services/ai-gateway/src/routes/proxy.rs:232-292 | A good answer (its statuses are spelt out in the rows of FailoverStatus), if an attempt brings one, is returned and nothing is tried after it; otherwise the last retryable response is returned exactly when there is one and the turn never comes to a candidate the request cannot be put to; if it does, that candidate's error is returned |
| `FailoverStatus.FailureIsReturnedLast` | platform-services/ai-gateway/src/routes/proxy.rs:232-292 | In status numbers: when every candidate can be addressed, an error, a 429 or a 500 to 599 is returned only if every candidate was asked and every attempt made brought such a status or a transport error |
| `FailoverStatus.OtherStatusIsReturned` | platform-services/ai-gateway/src/routes/proxy.rs:273-276 | An attempt that brings any other status is the last one made and the one returned |
| `FailoverStatus.FirstIsTried` | platform-services/ai-gateway/src/routes/proxy.rs:236-258 | The first candidate is asked exactly when the request can be put to it |
| `FailoverStatus.RetriesAreExact` | platform-services/ai-gateway/src/routes/proxy.rs:240-282 | A candidate is asked again, twice at most, exactly when the attempt before brought a 429, a 500 to 599 or a transport error, and no 429 told it to wait longer than 2000 milliseconds |
| `FailoverStatus.NextIsTried` | platform-services/ai-gateway/src/routes/proxy.rs:236-283 | The next candidate is asked exactly when it can be addressed and every attempt at the one before brought such an outcome |
| `FailoverStatus.WaitsAre` | platform-services/ai-gateway/src/routes/proxy.rs:241-246 | A retry waits for what a 429 told it, or else 100 and then 200 milliseconds |
| `Failover.AbandonedIffUnaddressable` | platform-services/ai-gateway/src/routes/proxy.rs:232-233 | The loop is abandoned exactly when some candidate cannot be addressed and every candidate before it can be and does not answer |
| `Failover.RetryableResponseIsLost` | platform-services/ai-gateway/src/routes/proxy.rs:232-233 | A concrete case: the first candidate answers 503 three times, the second cannot be addressed, and its error is returned instead of the response |
| `Failover.FailoverReturnsLastError` | platform-services/ai-gateway/src/routes/proxy.rs:282-292 | When every candidate in turn can be addressed and every attempt fails in transport the last error is returned; with no candidate, that there is no provider |
| `Failover.FourSecondsPerCandidate` | platform-services/ai-gateway/src/routes/proxy.rs:237-243 | No candidate is asked more than three times or waited for more than four seconds in all |
| `Failover.FourSecondsCanBeNeeded` | platform-services/ai-gateway/src/routes/proxy.rs:262-270 | The bound is met |
| `Registry.FromConfig` | platform-services/ai-gateway/src/providers/registry.rs:28-84 | The loops over the configuration map, walked in any order, build the specified registry |
| `Registry.RegistryIgnoresTheWalk` | platform-services/ai-gateway/src/providers/registry.rs:59-84 | The registry does not depend on the order in which the configuration map is walked |
| `Registry.SortNamesSorts` | platform-services/ai-gateway/src/providers/registry.rs:59-77 | Sorting by priority and then name orders the names and keeps each as often as it was pushed |
| `Registry.FailoverOrderIsUnique` | platform-services/ai-gateway/src/providers/registry.rs:59-77 | A collection of names has one failover order |
| `Registry.CandidatesAreExact` | platform-services/ai-gateway/src/providers/registry.rs:90-107 | The candidates come in failover order, and are exactly the enabled providers that list the model, or, when no enabled one does, the enabled fallbacks |
| `Gateway.RequestsFollowPriority` | platform-services/ai-gateway/src/routes/proxy.rs:170-292 | The two together: requests go only to enabled providers for the model, in order of priority and then name whatever the map order, at most three to each candidate and never back to an earlier one |
| `Gateway.CandidatesInPlainTerms` | platform-services/ai-gateway/src/providers/registry.rs:60-107 | Told of the configuration alone: the candidates are exactly the providers with a key that list the model for the kind asked, or without any the fallback providers with a key, the smaller priority first and then the smaller name |

## Left out

- Network, SQL text, gRPC and HTTP handlers, tracing, metrics, environment loading and the command lines of the tools: plumbing over libraries.
- The administrative writes other than `apply_config` (creating, updating and archiving a flag, single variants, single segments): the protocol knows them as commits of well-formed tables; their own contracts would repeat those of the modelled writers.
- The audit log of changes and its listing: it is written and never read back by the modelled code.
- FlagStore.Transaction.UpsertFlagTx: does not say by how much the version grows, only that it does.
- ClusterSafety.DrainedEventClientWasTold: a ready or resync event carries the version served when it is sent, so it can be ahead of items still queued; only the changes told are promised to increase.
- ConfigApply.ReconciledEvaluatesAsDeclared: assumes distinct variant keys, since of a repeated key the tables keep the last value and the engine serves the first.
- LocalMode.LocalAgreesWithRemote: assumes a wire-normal, well-keyed snapshot; `Wire.SnapshotSurvivesIff` says that is exactly when the snapshot survives, and `LocalMode.IntegerLiteralsDisagree` shows the need.
- `resolve_all` in both modes, jitter and reconnection of the client stream, and the periodic reconcile loop: loops over the modelled resolution and reload.
- The text of YAML documents, and the names of operators and value types in them and in the tables: tables of names that map one to one.
- ConfigApply.StoredDiffEmptyIffRepresentable: takes a `jsonb` column to return the JSON it was given; a number Postgres prints in another form would show as a difference.
- LocalMode.WireNormalNeverAnswersInteger: assumes that snapshots are wire-normal, as they are when `jsonb` returns the JSON it was given.
- Rounding of doubles, not-a-number in comparisons, and float literals in printed expressions: no clean contract over reals.
- RuleLoops.RunRules: assumes a world and a clock that stand still during one run, so it does not show an action's effect on later conditions; the locks that keep runs apart are not modelled.
- RuleFixpoint.ExecutedIsLeastFixpoint: assumes unique rule names, since dependencies and the executed set go by name.
- The cache of fetched resources and its prefetching: in a world that stands still it is invisible.
- Event kinds, templates, label colours, the individual leaf matchers and actions: read from the world or irrelevant to the order of rules.
- SseFraming.TranslatedIsWhole: assumes that the conversion may stop at any LF LF and go on; the conversion itself is foreign code. Carriage returns are not frame ends, as in the source.
- Failover.Failover: a provider's answers are fixed per attempt; parsing of `Retry-After` (section 10.2.3 of RFC 9110), reading the body and translating the response back are not modelled.
- The registry's list of models, virtual keys, budgets, the response cache and usage accounting: external stores or presentation.
- The remaining services of the repository (kanidm and Postgres controllers, git and forge clients, the dashboard): effects over external systems.
