# Fortuna: proofs about startup migrations, runtime evidence and dashboard graphs

This project models the parts of Fortuna whose correctness spans several steps or runs, and proves what they
keep:

- **Cluster identity** (`KeySwap`, `Ownership`, `SbomIdentity`, `AgentIdentity`). At every startup Core moves
  its tables from "a Pod UID is globally unique" to "{cluster, Pod UID} is the identity". Statements are steps
  that can be refused or cut off, and other sessions write between them.
- **Migration ledger and administrator bootstrap** (`MigrationLedger`, `AdminBootstrap`), over any series of
  restarts, crashes and releases.
- **Runtime coverage** (`RuntimeCoverage`, `ProducerManifest`): the report and manifest validators, the SQL
  contract under three-valued logic, and the receipt backfill.
- **Network buckets** (`NetworkBuckets`): the normalise, bucket, dedupe and index pipeline.
- **Policies** (`PolicyCel`, `PolicyRepair`): the shipped CEL expressions under a small evaluator, and the
  transaction that repoints instances.
- **Dashboard graphs** (`LodClustering`, `FocusSearch`, `CurveOffsets`, `FlowGraph`).

`Sql`, `Schema`, `Text` and `Tally` hold what the modules share: NULL as `None`, three-valued logic, table and
index names, string functions, and an insertion-ordered map of totals. `dafny verify dfyconfig.toml` checks
everything.

How faults are modelled: a class that runs statements takes a function from the statement's number to its
fate. A fault ends the run, so "however the method returns" means "after every statement, whatever crashes".
Where other sessions matter (`KeySwap`), a second function gives the rows they try to write before each
statement; a write takes effect only if the keys then in force admit it. `Ownership` takes the keys and
triggers in force as a parameter, since they differ between a first startup and a later one.

## What the proofs say about the code that its comments do not

- The key swap stops every startup when two insights without a CVE id, at least one of them NULL, agree on the
  rest of a key: the legacy keys admit both, NULLs being distinct, and turning NULL into '' then violates
  them. Its exact condition is `Normalizable` (`NormalizesIff`, `NullCveStopsStartup`); an undisturbed run
  completes exactly when that holds, every row that must be owned is, the columns exist and the primary keys
  carry the names it drops (`EnsureClusterQualifiedPodUniqueness`).
- The ownership foundation can refuse to start on data it has no rule for. An UPDATE is refused exactly when a
  row it would assign is obstructed (`RefusedIffBlocked`). Three obstructions exist: a legacy SBOM that
  becomes unambiguous after the owner trigger is installed (`BackfillNeedsNothingToDo`,
  `LateOwnerStopsStartup`), an unowned association whose SBOM is not of that Pod and cluster
  (`UnownedLinkBlocks`), and an unowned row whose owned twin already holds the composite key. For risk scores
  the quarantine removes the last one (`RiskIsNeverRefused`, `OthersDecide`); insights have no quarantine
  (`InsightCollisionBlocks`).
- Startup never compares stored SBOM content links with digests: an old mislink passes every check and stays,
  though no new one can appear (`OldMislinkPassesStartup`, `NoNewMislink`, `LinksHoldIffTheyHeld`).
- Migration 115 normalises before it deletes duplicates, so with its index in force it fails exactly when two
  rows have one normalised signature and bucket (`Migrate`, `SpellingStopsRerun`). It creates the index with
  `IF NOT EXISTS`, so after an interrupted concurrent build it reports success over an invalid index; the
  index is valid exactly when none was left invalid (`Migrate`). `ensureIndex` does not have this gap
  (`EnsureIndex`).
- The SQL contract and identity checks are looser than the Go validator, by exactly the rules in
  `BeyondContract` and, for rows, non-NULL columns and non-negative counters (`AcceptedIffContractAndMore`,
  `StoredReportsExactly`). Three families of rows in the gap are `NullProducerMeetsContract`,
  `BlankReasonMeetsContract` and `NegativeCountersMeetContract`.
- With another default password configured, the shipped constant counts as an operator password and does
  replace a stored one (`BuiltInReplacesIff`).
- The ledger is positional: it keeps its meaning across a release exactly when recorded positions keep their
  migrations (`LedgerSurvivesIff`, `InsertionBreaksLedger`).
- Flow aggregation keys flows by lower-case protocol but destinations by spelling, so the first spelling takes
  a flow's whole weight (`FirstSpellingTakesAll`, `SecondSpellingIsLost`). Destinations are credited what
  their rows weigh exactly when rows of one flow are spelt alike (`CreditedIffSpeltAlike`); pods always are.

## Model

| member | source | states |
|---|---|---|
| KeySwap.Database.EnsureClusterQualifiedPodUniqueness | core/migrations/cluster_qualified_pod_uniqueness.go:91-170 | However the run ends, every target still has a legacy key, exact composite index, guard or composite primary key in force, rows keep composite identity whatever other sessions wrote, and the catalog is bound for the same end state; success is that end state; a run that nothing disturbs succeeds exactly when the columns exist, the primary keys carry the names it drops, no two insights become one when NULL CVE ids become '', every table that must be owned is, and no key column is NULL |
| KeySwap.NormalizesIff | core/migrations/cluster_qualified_pod_uniqueness.go:96-103 | The UPDATE of insights is admitted exactly when, under no key in force with cve_id, two rows without a CVE id, one of them NULL, agree on the other columns |
| KeySwap.NullCveStopsStartup | core/migrations/cluster_qualified_pod_uniqueness.go:96-103 | Owned insights that the legacy keys admit and that stop startup: two NULLs, or a NULL beside '' |
| KeySwap.Database.NormalizeInsights | core/migrations/cluster_qualified_pod_uniqueness.go:96-103 | It succeeds exactly under that condition on the rows its statement sees, and then they are normalised |
| KeySwap.Database.RunUntilComplete | core/migrations/cluster_qualified_pod_uniqueness.go:87-170 | Any number of killed runs followed by a completed one leaves the one catalog an uninterrupted run leaves |
| KeySwap.SwappedIsUnique | core/migrations/cluster_qualified_pod_uniqueness.go:247-277 | The end-state conditions determine the catalog |
| KeySwap.GuardedKeepsIdentity | core/migrations/cluster_qualified_pod_uniqueness.go:87-90 | While the catalog is guarded, rows admitted by the keys in force satisfy every composite identity, NULLs being distinct |
| KeySwap.NarrowerIsStricter | core/migrations/cluster_qualified_pod_uniqueness.go:26-85 | A UID-only key implies the composite key |
| KeySwap.Database.EnsureIndex | core/migrations/cluster_resource_identity_foundation.go:190-231 | An exact index is kept, anything else of that name is replaced, no other catalog entry changes, and the build cannot fail on data that another key already makes unique |
| KeySwap.TargetIndexReplaced | core/migrations/cluster_qualified_pod_uniqueness.go:105-117 | Replacing a target's index at any stage leaves all targets guarded and the end state unchanged |
| KeySwap.GuardReplaced | core/migrations/cluster_qualified_pod_uniqueness.go:119-131 | The same for a primary-key guard, including its removal once the key is composite |
| KeySwap.LegacyDropped | core/migrations/cluster_qualified_pod_uniqueness.go:134-145 | Once every replacement exists, legacy keys may go in any order and at any pace |
| KeySwap.Database.EnsureCompositePrimaryKey | core/migrations/cluster_qualified_pod_uniqueness.go:196-222 | Only this table's key changes, its final form is fixed throughout, and the guard makes the add succeed on owned rows |
| KeySwap.KeyReplaced | core/migrations/cluster_qualified_pod_uniqueness.go:147-155 | With the guard in place, dropping and adding the key keeps every target guarded |
| KeySwap.ShippedIsWellFormed | core/migrations/cluster_qualified_pod_uniqueness.go:26-85 | The shipped names never collide, so one target cannot disturb another; nor do those for agents |
| KeySwap.Database.EnsureAgentCompositeIdentity | core/migrations/agent_composite_identity.go:11-32 | The same safety and end state for agents, with both legacy keys dropped in one transaction |
| KeySwap.LegacyIsGuarded | core/migrations/cluster_qualified_pod_uniqueness.go:26-85 | A database with only the legacy keys is a state the swap may start from |
| KeySwap.AgentsAreGuarded | core/migrations/agent_composite_identity.go:18-29 | The same for the agents table |
| AgentIdentity.OwnershipIsFrozen | core/migrations/agent_composite_identity.go:31-43 | Over any writes, with ids never reused, identities stay unique, a row still there has the owner it had, an unassigned legacy row stays unassigned, and a row not there before is fully owned |
| AgentIdentity.InsertAdmittedIff | core/migrations/agent_composite_identity.go:18-33 | A new agent is admitted exactly when it is fully owned and its identity is free |
| Ownership.BackfillRow | core/migrations/cluster_resource_identity_foundation.go:103-140 | Owned rows and other columns never change; an eligible unowned row gets c exactly when the pods table maps its UID to {c}; repeating changes nothing; validation's verdict is unmoved |
| Ownership.MinOwnerIsAnOwner | core/migrations/cluster_resource_identity_foundation.go:111-119 | The MIN aggregate is the least of the owners, and NULL exactly when there are none |
| Ownership.RecordedExactly | core/migrations/risk_score_ownership_quarantine.go:30-36 | Exactly the colliding rows are added, with their full row and the proposed cluster, and no earlier evidence is replaced |
| Ownership.QuarantinedIffWouldMeet | core/migrations/risk_score_ownership_quarantine.go:30-36 | A score is quarantined exactly when it is an unowned Pod score with one owner, and assigning everything unambiguous would give another row its type, UID and cluster |
| Ownership.ScoreIsAssignedIff | core/migrations/cluster_resource_identity_foundation.go:105-134 | An unowned Pod score with sole owner c gets c exactly when no other row shares its type and UID while owned by c or by nobody; otherwise it is quarantined |
| Ownership.StartupKeepsDistinct | core/migrations/risk_score_ownership_quarantine.go:8-37 | Owned risk scores distinct by type, UID and cluster stay so through quarantine and backfill |
| Ownership.StartupIsIdempotent | core/migrations/risk_score_ownership_quarantine.go:20-37 | A rerun against the same pods changes neither rows nor evidence |
| Ownership.HistoryIsSound | core/migrations/risk_score_ownership_quarantine.go:8-37 | Over any history of completed and cut-short startups with changing pods, admitted inserts and upserts, owned scores stay distinct and each quarantined row stays unowned and equal to its first evidence |
| Ownership.UpsertIsSound | core/pkg/risk/unified_scorer.go:151-192 | The scorer's upsert moves no row between keys, touches no quarantined row, refuses an unowned identity, and otherwise leaves its columns under its key |
| Ownership.InsertTakesEffect | core/migrations/risk_score_ownership_quarantine.go:8-10 | A new id is inserted unless an owned row has its type, UID and cluster |
| Ownership.ValidationUnmoved | core/migrations/cluster_resource_identity_foundation.go:142-170 | Validation after the backfill fails exactly when it would have failed before |
| Ownership.InconsistentMeans | core/migrations/cluster_resource_identity_foundation.go:144-159 | An owned row fails validation exactly when pods does not list its cluster among the owners of its UID |
| Ownership.IsPodMeans | core/migrations/cluster_resource_identity_foundation.go:39-41 | The Pod condition holds of the word in any letter case and of nothing else |
| Ownership.RefusedIffBlocked | core/migrations/cluster_resource_identity_foundation.go:109-138 | An UPDATE is refused by the triggers and keys in force exactly when a row it would assign is a frozen SBOM, names an SBOM of another owner, or collides with another row; otherwise the keys still hold |
| Ownership.RowByRowIsTheSame | core/migrations/cluster_resource_identity_foundation.go:109-138 | Checking keys row by row and at the end of the statement agree |
| Ownership.RiskIsNeverRefused | core/migrations/risk_score_ownership_quarantine.go:8-37 | After the quarantine nothing obstructs the UPDATE of risk scores, whatever the triggers |
| Ownership.OthersDecide | core/migrations/cluster_resource_identity_foundation.go:105-140 | So the other targets alone decide whether startup succeeds |
| Ownership.UnownedLinkBlocks | core/migrations/sbom_content_identity.go:102-135 | An unowned CVE match of an unowned SBOM passes validation and blocks the backfill |
| Ownership.InsightCollisionBlocks | core/migrations/cluster_qualified_pod_uniqueness.go:60-69 | An owned and an unowned insight of one Pod pass validation and block the backfill |
| Ownership.RerunIsClear | core/migrations/cluster_resource_identity_foundation.go:103-140 | After the UPDATEs the same pods are never obstructed and assign nothing more |
| Ownership.Store.UpdateAll | core/migrations/cluster_resource_identity_foundation.go:109-139 | It stops at the first interrupted or obstructed UPDATE with the earlier ones done, and the keys hold |
| Ownership.Store.EnsureFoundation | core/migrations/cluster_resource_identity_foundation.go:49-69 | A cut-short run stops between two UPDATEs; an uninterrupted one records the quarantine and succeeds exactly when, given that quarantine, no row it would assign is obstructed and every owned row agreed with pods beforehand |
| Ownership.TargetsAreSeparate | core/migrations/cluster_resource_identity_foundation.go:19-42 | The shipped list names each table once, and SBOMs after the tables that name them |
| SbomIdentity.OwnershipIsSafe | core/migrations/sbom_content_identity.go:80-136 | From an accepted state, with ids never reused, no admitted writes make an association name an SBOM of another cluster, Pod or (scans, CVE matches) container |
| SbomIdentity.NoNewMislink | core/migrations/sbom_content_identity.go:70-100 | A link to content of another digest can only be one present at the start, unchanged |
| SbomIdentity.OldMislinkPassesStartup | core/migrations/sbom_content_identity.go:44-136 | A state with such a link passes the duplicate and association checks of startup |
| SbomIdentity.LinksHoldIffTheyHeld | core/migrations/sbom_content_identity.go:70-100 | Links match digests in every reachable state exactly when they did at the start |
| SbomIdentity.SbomWriteAdmittedIff | core/migrations/sbom_content_identity.go:80-100 | A new SBOM is admitted exactly when fully owned, an update exactly when owner and digest stay, and content only of the row's digest; a soft delete always |
| SbomIdentity.AssociationAdmittedIff | core/migrations/sbom_content_identity.go:102-113 | An association is admitted exactly when it names no SBOM, or a live owned one of its Pod and container |
| SbomIdentity.OwnersAreFrozen | core/migrations/sbom_content_identity.go:80-100 | Over any writes an SBOM keeps its owner and digest, and one that was not there is fully owned |
| SbomIdentity.ContentIsWriteOnce | core/migrations/sbom_content_identity.go:70-79 | Content is added under a free id and never changed |
| SbomIdentity.PairAccepted | core/migrations/sbom_content_identity.go:44-50 | Which two SBOMs the duplicate check refuses |
| SbomIdentity.AssociationAccepted | core/migrations/sbom_content_identity.go:114-128 | Which association the consistency check refuses |
| SbomIdentity.BackfillNeedsNothingToDo | core/migrations/sbom_content_identity.go:88-100 | Under the owner trigger, the ownership backfill of sboms succeeds exactly when it selects no row |
| SbomIdentity.LateOwnerStopsStartup | core/migrations/sbom_content_identity.go:88-100 | A state that startup accepts, and a pods table that stops the next startup |
| SbomIdentity.FoundationMeetsTrigger | core/migrations/sbom_content_identity.go:80-100 | The refusal in the ownership foundation is the one this trigger raises |
| SbomIdentity.FoundationMeetsLinks | core/migrations/sbom_content_identity.go:102-113 | The same for the association trigger, on every table it is installed on |
| SbomIdentity.ContentStore.Attach | core/pkg/sbomcontent/content.go:19-74 | On success only this row changes, gaining a link to the content with its own hash and payload, new only if the hash is; it fails only on a fault or on other content with its hash, changing nothing |
| SbomIdentity.ContentStore.BackfillContent | core/migrations/sbom_content_identity.go:138-155 | It terminates; the rows linked are a prefix of the pending ones in id order, each once, the rest are what is still pending, and success leaves no owned active row unlinked; without faults and hash collisions it succeeds |
| SbomIdentity.PendingIdsLink | core/migrations/sbom_content_identity.go:142-153 | Linking the first pending row removes it and only it from the shrinking page filter |
| SbomIdentity.RestartFinishes | core/migrations/sbom_content_identity.go:138-155 | Stopping anywhere and restarting attaches the same ids in the same order |
| LodClustering.ReachabilitySurvives | dashboard/components/AttackPathGraph.tsx:277-349 | A walk over known nodes has an image walk between the images of its ends |
| LodClustering.MergedLinksExactly | dashboard/components/AttackPathGraph.tsx:330-346 | A link is emitted for a key exactly when a kept raw link maps to it, with the union of the path ids of all of them |
| LodClustering.MergedLinksNoRepeat | dashboard/components/AttackPathGraph.tsx:331-346 | No key is emitted twice |
| LodClustering.MergeIsUnion | dashboard/components/AttackPathGraph.tsx:91-102 | Merging two arrays is the union of the ids they stand for |
| LodClustering.PreservedExactly | dashboard/components/AttackPathGraph.tsx:295-326 | Start, end and attack-step nodes survive as they are, nothing else does, and with the folded counts they make up the node total |
| LodClustering.CountsExactly | dashboard/components/AttackPathGraph.tsx:295-304 | Each type's count is the number of nodes folded into it |
| LodClustering.ClusterOnMemberPaths | dashboard/components/AttackPathGraph.tsx:306-323 | A super-node is on exactly the paths its members are on |
| LodClustering.SuperNode | dashboard/components/AttackPathGraph.tsx:306-323 | Each emitted super-node carries the path ids of exactly the nodes folded under its type |
| LodClustering.CriticalMeans | dashboard/components/AttackPathGraph.tsx:295-299 | A node is critical exactly when it is a start, an end, or an attack step in any letter case, with a hyphen or not |
| LodClustering.FoldKindMeans | dashboard/components/AttackPathGraph.tsx:296 | A missing type is unknown; otherwise only case and hyphens are evened out |
| LodClustering.KnownIsEmitted | dashboard/components/AttackPathGraph.tsx:325-336 | Every known node's image is an emitted node |
| LodClustering.UnknownIsNotEmitted | dashboard/components/AttackPathGraph.tsx:333-336 | An unknown endpoint is never emitted, so its links are dropped |
| LodClustering.ClusterForLod | dashboard/components/AttackPathGraph.tsx:282-349 | The loops compute that quotient above 200 nodes and the identity below |
| FocusSearch.Component | dashboard/components/AttackPathGraph.tsx:923-947 | The queue search terminates with exactly the nodes connected to the focus, ignoring direction |
| FocusSearch.FocusEdges | dashboard/components/AttackPathGraph.tsx:949-969 | The edge pass adds no node and selects exactly the usable links touching the component |
| CurveOffsets.AssignCurveOffsets | dashboard/components/AttackPathGraph.tsx:142-160 | The two counting passes give each link the offset of its rank within its group |
| CurveOffsets.OffsetsSpread | dashboard/components/AttackPathGraph.tsx:150-158 | Parallel links are at least 20 apart |
| CurveOffsets.OffsetsBalance | dashboard/components/AttackPathGraph.tsx:150-158 | Each group's offsets sum to zero, however the groups interleave |
| CurveOffsets.LoneIsStraight | dashboard/components/AttackPathGraph.tsx:156 | A lone link is straight |
| FlowGraph.WeightIsConserved | dashboard/components/NetworkTopologyGraph.tsx:133-171 | Rows, flows, pods and destinations have one total, and each pod weighs what its rows weigh |
| FlowGraph.FirstSpellingTakesAll | dashboard/components/NetworkTopologyGraph.tsx:138-171 | For every pod and destination: the credit is the weight of all rows of its flow when it is the first spelling, and nothing otherwise |
| FlowGraph.CreditedIffSpeltAlike | dashboard/components/NetworkTopologyGraph.tsx:133-171 | Every destination is credited, pod by pod, what its rows weigh exactly when rows of one flow spell it alike |
| FlowGraph.AlikeDestinationsAreConserved | dashboard/components/NetworkTopologyGraph.tsx:133-171 | Then each destination weighs what its rows weigh |
| FlowGraph.SecondSpellingIsLost | dashboard/components/NetworkTopologyGraph.tsx:138-144 | Two rows of one flow for which it fails |
| FlowGraph.TopKeepsHeaviest | dashboard/components/NetworkTopologyGraph.tsx:174-176 | Selection splits the entries, keeps at most the budget, and drops nothing heavier than what it keeps |
| FlowGraph.BusiestAreShown | dashboard/components/NetworkTopologyGraph.tsx:174-215 | Every shown node carries its full weight and weighs at least as much as every pod or destination not shown |
| FlowGraph.OneRow | dashboard/components/NetworkTopologyGraph.tsx:133-150 | What a single connection contributes, and which ones contribute nothing |
| FlowGraph.NodesShown | dashboard/components/NetworkTopologyGraph.tsx:174-217 | Of pods and of destinations, half of the budget but at least one, or all there are, are shown, none twice; entities counts them all |
| FlowGraph.LinksShown | dashboard/components/NetworkTopologyGraph.tsx:218-225 | Links are flows between shown nodes, each once with the weight of all its rows: all of them, or 320 that no other outweighs |
| FlowGraph.GraphIsBounded | dashboard/components/NetworkTopologyGraph.tsx:174-225 | At most max(2, maxNodes) nodes and 320 links, and every link joins two emitted nodes |
| FlowGraph.BuildGraph | dashboard/components/NetworkTopologyGraph.tsx:123-226 | The loops compute the specified graph |
| NetworkBuckets.PreparedRow | core/migrations/115_add_pod_network_bucket_5m.go:29-65 | Every row gets a time and a bucket; a new bucket is the aligned five-minute window containing the time |
| NetworkBuckets.PreparedSignature | core/migrations/115_add_pod_network_bucket_5m.go:47-65 | Of the signature only NULLs and the spelling of the protocol change |
| NetworkBuckets.DedupedExactly | core/migrations/115_add_pod_network_bucket_5m.go:67-82 | Each signature and bucket survives exactly once, as the row with the greatest (time, id) |
| NetworkBuckets.ResultIsIndexable | core/migrations/115_add_pod_network_bucket_5m.go:84-101 | Neither NOT NULL nor the unique index can fail on the result |
| NetworkBuckets.UniqueMeans | core/migrations/115_add_pod_network_bucket_5m.go:92-98 | What the unique index forbids: eleven columns equal in SQL, NULL being equal to nothing |
| NetworkBuckets.UpdatesMeetIndex | core/migrations/115_add_pod_network_bucket_5m.go:29-65 | An index in force admits every update exactly when no two rows have one normalised signature and bucket |
| NetworkBuckets.SpellingStopsRerun | core/migrations/115_add_pod_network_bucket_5m.go:60-65 | Two rows, spelt tcp and TCP, that the index admits and that stop a rerun |
| NetworkBuckets.RerunChangesNothing | core/migrations/115_add_pod_network_bucket_5m.go:29-82 | A later run leaves the result of a completed one as it is, and no update can meet the index |
| NetworkBuckets.Connections.Migrate | core/migrations/115_add_pod_network_bucket_5m.go:19-126 | Without the index the run cannot fail on its data, with it exactly when normalisation makes two rows one; success leaves one row per signature and bucket, and an index that is valid exactly when none was left invalid |
| RuntimeCoverage.ContractMeaning | core/migrations/runtime_coverage.go:22-48 | Which rows the query counts, read back from three-valued logic |
| RuntimeCoverage.AcceptedReportsMeetContract | api/collection/runtime.go:40-86 | Every accepted report, stored for an owner and without a continuity start when failed, meets the SQL contract and identity checks |
| RuntimeCoverage.ValidateMeaning | api/collection/runtime.go:40-86 | The sequence of rules accepts exactly the reports that meet one condition |
| RuntimeCoverage.FirstBrokenRule | api/collection/runtime.go:40-86 | The rule reported is the first that is broken |
| RuntimeCoverage.AcceptedIffContractAndMore | api/collection/runtime.go:40-86 | A report is accepted exactly when its row passes both SQL checks and the report meets the named rules SQL does not have |
| RuntimeCoverage.StoredReportsExactly | core/migrations/runtime_coverage.go:22-48 | A row comes from an accepted report exactly when it passes both checks, is complete, and meets those rules |
| RuntimeCoverage.NullProducerMeetsContract | core/migrations/runtime_coverage.go:36-38 | Clearing the producer keeps a row inside the contract but not inside the identity check |
| RuntimeCoverage.BlankReasonMeetsContract | core/migrations/runtime_coverage.go:35 | A failed row with a tab as reason passes both checks and comes from no report |
| RuntimeCoverage.NegativeCountersMeetContract | core/migrations/runtime_coverage.go:33-34 | So does a row with equal negative counters |
| RuntimeCoverage.BackfillMeetsContract | core/migrations/runtime_coverage.go:110-157 | What the backfill writes passes the stricter check, and existing receipts stay in place |
| RuntimeCoverage.BackfillIsComplete | core/migrations/runtime_coverage.go:128-157 | Every row with complete evidence has its receipt, and identities stay unique |
| RuntimeCoverage.BackfillWrites | core/migrations/runtime_coverage.go:132-155 | A written receipt has the identity, window, verdict, counters and reason of an owned and complete coverage row |
| RuntimeCoverage.OneCoverage | core/migrations/runtime_coverage.go:70-81 | The checks and the backfill on one row, column by column |
| RuntimeCoverage.OneReceipt | core/migrations/runtime_coverage.go:110-121 | The checks on one receipt |
| RuntimeCoverage.PairClashes | core/migrations/runtime_coverage.go:82-124 | Which two rows a unique index build refuses |
| RuntimeCoverage.StartupIsStable | core/migrations/runtime_coverage.go:84-157 | After a passing startup the next one passes, its unique index builds included, and adds nothing |
| RuntimeCoverage.DuplicateProducerStopsStartup | core/migrations/runtime_coverage.go:82-86 | Two rows of one producer pass every row check and stop startup |
| RuntimeCoverage.History.EnsureRuntimeCoverage | core/migrations/runtime_coverage.go:70-157 | It acts exactly when all checks pass and then leaves that stable state |
| ProducerManifest.Validate | api/collection/runtime_lifecycle.go:50-83 | Acceptance is the header rules and the producer rules |
| ProducerManifest.AcceptedIsTheRegistry | api/collection/runtime_lifecycle.go:61-82 | An accepted manifest declares each registered producer exactly once with its source |
| ProducerManifest.CompleteIffDistinct | api/collection/runtime_lifecycle.go:61-71 | At the registry's length, not repeating and being complete are the same |
| ProducerManifest.AcceptanceIgnoresOrder | api/collection/runtime_lifecycle.go:61-82 | Acceptance is invariant under permutation |
| ProducerManifest.SortDeclarations | api/collection/runtime_lifecycle.go:94-96 | The in-place sort orders by producer id and permutes |
| ProducerManifest.RuntimeProducerDeclarations | agent/cmd/main.go:416-441 | For every configuration the Agent's declarations are sorted, meet the producer rules, are enabled exactly when the configuration runs that producer, and are never authoritative |
| ProducerManifest.EnabledIffRuns | agent/cmd/main.go:416-438 | Which declarations are enabled: any eBPF mode but connect and all means exec |
| MigrationLedger.Ledger.RunMigrations | core/migrations/migrations.go:374-428 | The ledger only grows, positions strictly increase, a recorded version reruns only when the ledger query failed; up to where the run ends, a version runs, is recorded and is counted exactly as its step says, and why it ended is stated |
| MigrationLedger.SecondRunsNothing | core/migrations/migrations.go:374-416 | After a completed startup with a working ledger and no failure, the next startup of that release runs nothing |
| MigrationLedger.Ledger.RunHistory | core/migrations/migrations.go:173-193 | Each startup continues from the ledger the one before left; when releases only append, every recorded version names a migration that ran |
| MigrationLedger.LedgerSurvivesIff | core/migrations/migrations.go:374-381 | A release change keeps the ledger's meaning exactly when recorded positions keep their migrations |
| MigrationLedger.InsertionBreaksLedger | core/migrations/migrations.go:374-381 | Inserting a migration breaks it |
| AdminBootstrap.Store.CreateDefaultAdmin | core/migrations/migrations.go:760-832 | Only the named account changes; when it succeeds; a missing one is created with the configured credential; a stored hash changes exactly when it does not match and the credential is not flagged; what each flag becomes |
| AdminBootstrap.HashKeptIff | core/migrations/migrations.go:1125-1145 | A restart leaves a different stored password alone exactly when the configured one is blank, declared a bootstrap credential, or the default |
| AdminBootstrap.BlankPasswordTouchesNothing | core/migrations/migrations.go:1137-1140 | Without a configured password no series of restarts touches an existing account's password |
| AdminBootstrap.FirstStart | core/migrations/migrations.go:1125-1151 | What a first start with nothing configured creates |
| AdminBootstrap.NamedStart | core/migrations/migrations.go:1125-1151 | What a first start with a configured account creates |
| AdminBootstrap.Rotation | core/migrations/migrations.go:802-815 | A worked rotation |
| AdminBootstrap.TruthyWords | core/migrations/migrations.go:1136-1148 | Which flag values count as set |
| AdminBootstrap.TakenNameOrEmailStops | core/migrations/migrations.go:780-793 | A soft-deleted name or a taken email stops creation |
| AdminBootstrap.FreeNameIsCreated | core/migrations/migrations.go:780-793 | A free name and email are used |
| AdminBootstrap.BootstrapIsIdempotent | core/migrations/migrations.go:797-831 | A second restart in the same environment changes nothing |
| AdminBootstrap.StoredIsChosen | core/migrations/migrations.go:797-806 | Over any restarts, under any usernames, and password changes, each account's stored password is the last one chosen for it: a flagged credential never replaces one it does not match |
| AdminBootstrap.OthersAreUntouched | core/migrations/migrations.go:768-769 | An account no event names stays exactly as it was, present or absent |
| AdminBootstrap.BuiltInReplacesIff | core/migrations/migrations.go:1125-1151 | Exactly when the shipped constant escapes the flag and replaces a stored password |
| PolicyCel.NoPrivilegedDecides | core/migrations/096_policy_engine_baseline_bootstrap.go:11-17 | The corrected expression is true exactly when no app, init or ephemeral container is privileged |
| PolicyCel.LogicMeans | core/migrations/096_policy_engine_baseline_bootstrap.go:15-16 | The logical operators are symmetric, and a false (true) operand decides |
| PolicyCel.NoHostNamespacesDecides | core/migrations/096_policy_engine_baseline_bootstrap.go:16 | The corrected expression is true exactly when no host namespace is shared |
| PolicyCel.LegacyPrivilegedDecides | core/migrations/151_repair_baseline_pod_policy_cel.go:14 | The legacy expression looks at app containers only |
| PolicyCel.CorrectedAgainstLegacy | core/migrations/151_repair_baseline_pod_policy_cel.go:13-16 | Neither errs; host namespaces are exact negations; the privileged policy implies the negated legacy one and equals it with only app containers |
| PolicyCel.LegacyNeverDecides | core/migrations/096_policy_engine_baseline_bootstrap.go:13-14 | Under the evaluator's binding the legacy expressions always err |
| PolicyRepair.RepairSettles | core/migrations/151_repair_baseline_pod_policy_cel.go:18-88 | A successful repair leaves no instance on the broken version with the corrected one live and the broken one retired, or, for an edited template, all its rows untouched |
| PolicyRepair.RepairOneSettles | core/migrations/151_repair_baseline_pod_policy_cel.go:30-86 | One target's work changes only its own rows and keeps versions and names unique |
| PolicyRepair.InstancesMoved | core/migrations/151_repair_baseline_pod_policy_cel.go:65-79 | An instance changes in nothing but its version and, for the unscoped baseline, its scope |
| PolicyRepair.TemplatesMoved | core/migrations/151_repair_baseline_pod_policy_cel.go:42-84 | The broken template is retired, other rows stay, and an added row is its copy with the corrected version, expression and no cache |
| PolicyRepair.UserEditedMeans | core/migrations/151_repair_baseline_pod_policy_cel.go:31-40 | A live 1.0.0 counts as edited when it is not a system template, not created by system, or has another expression |
| PolicyRepair.ShippedAreDistinct | core/migrations/151_repair_baseline_pod_policy_cel.go:23-28 | The two shipped targets have different templates |
| PolicyRepair.RepairFailsIff | core/migrations/151_repair_baseline_pod_policy_cel.go:30-63 | The repair fails exactly when some target, on the store as found, is not user-edited and its corrected version is live with another expression, or not live with nothing to copy or its key taken |
| PolicyRepair.RepairIsIdempotent | core/migrations/151_repair_baseline_pod_policy_cel.go:22-88 | A second run changes nothing |
| PolicyRepair.Policies.RepairBaselinePolicies | core/migrations/151_repair_baseline_pod_policy_cel.go:29-88 | The transaction commits that repair, exactly when no target fails, or changes nothing |

## Left out

- KeySwap.Database.EnsureClusterQualifiedPodUniqueness: the SQLite branches, and the text form of column lists (`normalizeIndexColumns`); columns are sequences of names. A partial unique index does not count as a key in force, so other sessions may write rows it would refuse.
- Ownership.Store.EnsureFoundation: the ADD COLUMN loop, the non-unique lookup indexes between backfill and validation, and other sessions between its statements.
- SbomIdentity.OwnershipIsSafe: rewriting a primary key; ids are stable and never reused.
- SbomIdentity.ContentStore.BackfillContent: other sessions during the backfill, and the partial index on active owners.
- FocusSearch.Component: the branch for a focused node that has path ids.
- FlowGraph.BuildGraph: labels and metadata; the skip for a destination without metadata, which every counted destination has.
- LodClustering.ClusterForLod: super-node labels, and link keys as text; keys are tuples.
- NetworkBuckets.Connections.Migrate: the three non-unique indexes, and storage rounding of timestamps.
- RuntimeCoverage.AcceptedReportsMeetContract: producer state and source-health tables, and storage of counters above the signed 64-bit range.
- ProducerManifest.RuntimeProducerDeclarations: the manifest header the Agent adds around the declarations.
- MigrationLedger.Ledger.RunMigrations: the migrations themselves and the text of tolerated errors; an execution has an outcome.
- AdminBootstrap.Store.CreateDefaultAdmin: bcrypt and the policy rules; a hash checks only its own password, and the policy is a predicate. Creation and removal of other users.
- PolicyCel.NoPrivilegedDecides: parsing, and `exists` over map keys; expressions are given as trees.
- PolicyRepair.Policies.RepairBaselinePolicies: timestamps of updated rows.
- Strings: white space and letter case are ASCII.
- The versioned vulnerability catalog, seed data and plain ADD COLUMN or CREATE TABLE migrations.
- React components, D3 layout, routing and process wiring.
