# MuninnDB in Dafny

A model of the parts of MuninnDB whose correctness is not visible in any single function, and
proofs about them.

- **Dream pass, phase 2** (`Separation`, `Tokens`, `Similarity`, `Dedup`, `DedupRuns`, `DedupThinning`,
  `DedupDeferral`, `DedupWorker`): greedy clustering of near-duplicate engrams, election of a
  survivor, the guard on numbers, dates and negations, the per-run cap, archiving, and the survivor's
  tags and access count. The vault is a map from id to engram; archive, metadata and tag writes may
  fail.
- **Dream pass, phase 5** (`Transitive`, `TransitiveRuns`, `TransitiveDryRun`, `TransitiveFixpoint`,
  `TransitiveWeights`): inference of A→C while reading the graph it writes, over any number of runs, why it
  settles, and the weight each new edge gets.
- **Generic cognitive worker** (`Worker`, `WorkerTiming`, `WorkerPressure`, `WorkerLoop`): a timed
  transition system with a clock, a ticker, a bounded channel and a drain, and the object that refines it.
- **Learning** (`Hebbian`, `HebbianOrder`, `HebbianLearning`, `HebbianWorker`, `HebbianWeights`, `Ltp`,
  `Confidence`, `Contradiction`):
  order-free aggregation, multiplicative growth, partial commits, long-term potentiation, Bayesian
  confidence, and penalties that fire once.
- **Decay schedule** (`DecaySchedule`): an indexed binary heap that refines a map from id to time.
- **Auth store** (`AuthKeys`, `AuthStore`, `AuthBatches`, `AuthListing`, `AuthNames`, `AuthScopes`,
  `AuthCluster`, `AuthRuns`, `AuthConfigs`): byte keys, range scans and scopes; a keyspace that refines a
  map of API keys and a map of vault configs; the replication log and the leader gate.
- **Env file** (`EnvFile`, `EnvFileLaws`, `EnvFileRoundTrip`): the upsert against the loader.
- **Command suggestion** (`EditDistance`): the two-row table against all edit scripts.

Imperative code is modelled by classes and methods with loops, each proved against a specification
function; the laws are lemmas about those functions, over all inputs and all runs. `Common` holds
shared types. `dafny verify dfyconfig.toml` checks everything.

Where a property fails, the code is kept and the exact condition is proved:

- dedup detects a changed tag list by its length, which is sound iff the survivor's list has no
  repeated tag (`TagListConditionIsExact`); otherwise a run can lose a tag (`RunLosesTag`);
- a transitive dry run counts paths, so it predicts the real run iff no missing pair is reached
  along two links or the cap is met (`TransitiveDryRuns.DryRunPredicts`, `DiamondCountsTwice`), and a
  node is linked to itself iff two strong edges lead out of it and back (`SelfLoopIff`,
  `InfersSelfLoop`);
- adaptive "tightening" lengthens a flush interval that is below 500 ms (`AdaptedWaitBounds`), and a
  worker held up at the head of its loop for a whole threshold goes idle on a pending batch when
  that threshold is within the interval (`PendingMeansActiveIff`);
- an LTP threshold of 2^32 or more is truncated (`ThresholdMustFit`);
- splitting a Hebbian batch is exact iff the signal threshold does not come between the halves
  (`SplitIsExact`, `QuietFlushesDiffer`), and reordering it is exact iff a pair's events agree on its
  vault and LTP configuration (`OrderFreeIff`);
- the per-run cap of dedup only defers merges if every cluster elects its seed (`CapOnlyDefers`);
  where one does not, a duplicate can stay live for ever (`DeferralLosesMerge`), although the comment at
  `internal/consolidation/dedup.go:181-185` says that the next run finishes the merge;
- a vault name lists keys of other vaults in some store iff it is a plain name, a NUL and fewer than
  eight bytes (`ListingIsSafeIff`);
- `GenerateAPIKey` does not validate its vault name; listings stay exact iff it is a plain name
  (`MintingIsExact`), and revoking cleans up iff it is neither empty nor a glob (`MintThenRevoke`);
- `GenerateScopedAPIKey` passes both the gate and the log, although `internal/auth/cluster.go:66`
  says every mutating method asks the gate (`ScopedBreaksAgreement`, `ScopedNeverReachesFollowers`,
  `GateStops`);
- a scope without the bare star can still cover every vault: scopes of n entries all leave some valid
  vault uncovered iff n is below 38 (`NarrowIff`, `EveryHeadCovers`);
- renaming a vault config to its own name deletes it (`RenameMovesIff`);
- `levenshtein` counts bytes when one operand is empty (`LevenshteinIsDistance`).

The comment at `internal/consolidation/dedup.go:14` says that the higher-confidence engram is kept;
the code, and the model, elect by relevance times confidence.

## Model

| member | source | states |
|---|---|---|
| `Separation.EqualStringSet` | internal/consolidation/dedup_separation.go:151-161 | a length test and a one-sided membership loop decide set equality |
| `Separation.DivergesOnLoadBearingToken` | internal/consolidation/dedup_separation.go:69-83 | two engrams diverge iff their signatures (numbers, dates, negations) differ |
| `Separation.GroupingIsUnique` | internal/consolidation/dedup_separation.go:98-112 | two US-grouped numbers with the same digits are the same text, so stripping commas is injective on grouped numbers |
| `Separation.NormalizeNumberMerges` | internal/consolidation/dedup_separation.go:98-112 | normalization identifies two different tokens iff one is the thousands grouping of the other |
| `Tokens.TextIsBoth` | internal/consolidation/dedup_separation.go:85-88 | the compared text is concept, a space and content, capitals made small, position by position |
| `Tokens.AllClasses` | internal/consolidation/dedup_separation.go:33-149 | the three character classes, spelled out: digits, lower-case letters and digits, and word characters |
| `Tokens.FieldsAreRuns` | internal/consolidation/dedup_separation.go:144-149 | a word is a field of a text iff it is a slice of lower-case letters and digits with no such character on either side |
| `Tokens.YearsAreSlices` | internal/consolidation/dedup_separation.go:40-41 | the year tokens are exactly the slices 19dd and 20dd with no word character on either side |
| `Tokens.YearsApart` | internal/consolidation/dedup_separation.go:40-41 | two different year slices do not overlap |
| `Tokens.NumberLengthIsNumber` | internal/consolidation/dedup_separation.go:34-39 | at a digit, the number token is the longest match: digits and commas, then a point and digits if a digit follows it |
| `Tokens.NumbersAreSpans` | internal/consolidation/dedup_separation.go:90-96 | the number tokens are slices in order, each starting at a digit and as long as it can be, none overlaps another and every digit of the text lies in one |
| `Tokens.GroupedIff` | internal/consolidation/dedup_separation.go:42-44 | a number is grouped iff it is one to three digits and then one or more groups of a comma and three digits |
| `Tokens.PlainRunIsNumber` | internal/consolidation/dedup_separation.go:90-96 | a run of digits bounded by neither digit, comma nor point is in the number set |
| `Tokens.NumberIsInText` | internal/consolidation/dedup_separation.go:90-112 | every number in the set is the normal form of a number token of the text |
| `Tokens.DigitRunDiverges` | internal/consolidation/dedup_separation.go:69-83 | two texts of which one holds a bounded digit run whose digits are no number of the other diverge |
| `Tokens.NegationsAreFields` | internal/consolidation/dedup_separation.go:134-142 | a negation is in the set iff it is one of the 23 markers and a field of the text |
| `Tokens.NegationDiverges` | internal/consolidation/dedup_separation.go:69-83 | two texts of which exactly one has a given negation marker as a field diverge |
| `Tokens.DatesAreYearsAndMonths` | internal/consolidation/dedup_separation.go:114-132 | a date is in the set iff it is a year of the text or the first three letters of a month name that is a field of it |
| `Similarity.Accumulate` | internal/consolidation/dedup.go:277-289 | the loop computes dot product and both squared lengths, and dot² ≤ len(a)²·len(b)² |
| `Similarity.MeetsThreshold` | internal/consolidation/dedup.go:277-299 | decides, without a square root, whether the cosine meets a positive threshold; unequal, empty and zero vectors meet none |
| `Similarity.CauchySchwarz` | internal/consolidation/dedup.go:277-299 | for vectors of any dimension the quotient lies in [-1, 1] |
| `Similarity.DotSymmetric` | internal/consolidation/dedup.go:282-289 | the dot product is symmetric |
| `Similarity.MeetsSymmetric` | internal/consolidation/dedup.go:277-299 | the threshold test is symmetric |
| `Similarity.MeetsIsCosine` | internal/consolidation/dedup.go:277-299 | for s the product of two positive lengths, the test holds iff dot / s is at least the threshold |
| `Similarity.NothingMeetsAboveOne` | internal/consolidation/dedup.go:17-20 | a threshold above 1 merges nothing |
| `Similarity.IdenticalMeets` | internal/consolidation/dedup.go:277-299 | a vector meets a copy of itself at threshold t iff it is non-zero and t ≤ 1 |
| `Dedup.AbsorbableMembers` | internal/consolidation/dedup.go:158-170 | the absorbable list is exactly the other members with the survivor's signature |
| `Dedup.Trimmed` | internal/consolidation/dedup.go:188-193 | the trimmed list is a prefix of length min(members, remaining budget), the budget never negative |
| `Dedup.MergedTagsEffect` | internal/consolidation/dedup.go:200-212 | merged tags are duplicate-free and are the union of the survivor's and the absorbed members' tags |
| `Dedup.ArchiveAllEffect` | internal/consolidation/dedup.go:221-233 | archiving changes the state of exactly the members whose call succeeds, and nothing else |
| `Dedup.ArchiveCountIds` | internal/consolidation/dedup.go:221-233 | the archived count is the number of distinct members whose call succeeds |
| `Dedup.PersistEffect` | internal/consolidation/dedup.go:243-269 | the survivor's write changes only its access count and tags; what each is, under each kind of write failure |
| `Dedup.SurvivorWritten` | internal/consolidation/dedup.go:214-269 | on duplicate-free tags: the survivor gains exactly the absorbed tags and merges, unless that write fails; the tag list is written iff a tag is new, and each failing write counts one error |
| `Dedup.SeparatedAreOthers` | internal/consolidation/dedup.go:158-170 | the separated count is the number of members whose signature differs from the survivor's |
| `Dedup.StepMerges` | internal/consolidation/dedup.go:124-270 | one cluster: members archived with the survivor's signature, everyone else untouched, and the report counts them exactly |
| `Dedup.StepReports` | internal/consolidation/dedup.go:124-270 | what one cluster adds to the report: separated members, dry run or not, and one error for each failing write of a survivor that absorbed anything |
| `DedupRuns.ClustersSeparate` | internal/consolidation/dedup.go:94-119 | no engram is in two clusters or twice in one |
| `DedupRuns.IdenticalEmbeddingJoins` | internal/consolidation/dedup.go:94-113 | an unclaimed copy of a non-zero seed embedding always joins the seed's cluster when the threshold is at most 1 |
| `DedupRuns.ElectNone` | internal/consolidation/dedup.go:135-148 | a cluster has no representative iff no score exceeds -1 |
| `DedupRuns.ElectIsFirstMaximum` | internal/consolidation/dedup.go:135-144 | the representative is the first member of highest relevance times confidence |
| `DedupRuns.ElectsAboveMinusOne` | internal/consolidation/dedup.go:135-148 | no representative iff no product of relevance and confidence exceeds -1 |
| `DedupRuns.ElectsHighestProduct` | internal/consolidation/dedup.go:135-144 | the representative has the highest product of relevance and confidence, strictly higher than every earlier member |
| `DedupRuns.RunAdvances` | internal/consolidation/dedup.go:16-274 | one run, any failures: live signatures unchanged, live and archived counts move by the merged count; with tag writes succeeding no tag is lost on duplicate-free lists; with metadata writes succeeding access counts and merges balance modulo 2^32, and exactly when no live counter has fewer units left than there are live engrams |
| `DedupRuns.RunsKeepSignatures` | internal/consolidation/dedup.go:124-270 | over any number of runs with any settings and failures the set of signatures of live engrams never changes |
| `DedupRuns.RunsKeepTags` | internal/consolidation/dedup.go:198-269 | over any number of runs, any settings, whose tag writes succeed, on duplicate-free tag lists, no live tag is lost |
| `DedupRuns.RunsConserveAccess` | internal/consolidation/dedup.go:214-269 | over any number of runs, any settings, whose metadata writes succeed, total access count minus archived engrams is constant modulo 2^32; exactly constant when every live counter can take one more for each live engram |
| `DedupRuns.CandidatesIff` | internal/consolidation/dedup.go:46-80 | the candidates are exactly the engrams that are neither archived (0x06) nor soft-deleted (0x7F) and have an embedding |
| `DedupRuns.RunThreshold` | internal/consolidation/dedup.go:17-20 | a run clusters at the configured threshold if that is positive and else at 0.95 |
| `DedupRuns.RunsTouch` | internal/consolidation/dedup.go:46-270 | over any number of runs with any settings and failures only tags, access counts and the state, to archived, ever change; an engram retired before or without an embedding is never touched |
| `DedupRuns.TagListConditionIsExact` | internal/consolidation/dedup.go:243 | change detection by length is sound for every list of absorbed members iff the survivor's tag list is duplicate-free |
| `DedupRuns.LosesTags` | internal/consolidation/dedup.go:243-261 | a survivor that repeats a tag has a twin, with another id and the same text and embedding, that it absorbs without noticing its tags |
| `DedupRuns.RunLosesTag` | internal/consolidation/dedup.go:198-269 | for every such survivor that can be merged at all, a run over the vault of the two, without any fault, loses a live tag |
| `DedupRuns.MergedCount` | internal/consolidation/dedup.go:130-196 | the cluster loop never passes the cap; without archive failures it merges exactly min(cap, absorbable) |
| `DedupRuns.RunMergedCount` | internal/consolidation/dedup.go:130-196 | the same for a whole run, dry or not |
| `DedupRuns.DryRunPredicts` | internal/consolidation/dedup.go:222-250 | a dry run changes nothing and reports the count of the real run without archive failures |
| `DedupRuns.SettledIsFixpoint` | internal/consolidation/dedup.go:124-270 | a vault with nothing absorbable is unchanged by every further run, whatever fails |
| `DedupRuns.RunsProgress` | internal/consolidation/dedup.go:50-70 | with positive caps and no archive failures, at one threshold, each run retires an engram or the vault has settled |
| `DedupRuns.RunsReachFixpoint` | internal/consolidation/dedup.go:172-193 | as many such runs as there are live engrams reach a state no further run at that threshold changes, whatever its cap and faults; whether it is the state an uncapped run reaches is decided by CapOnlyDefers and DeferralLosesMerge |
| `DedupThinning.ThinClusters` | internal/consolidation/dedup.go:94-119 | retiring members that are no seeds takes them out of their clusters and changes no cluster otherwise |
| `DedupThinning.ThinElect` | internal/consolidation/dedup.go:135-144 | a thinned cluster that elected its seed elects it again |
| `DedupThinning.ThinDoomed` | internal/consolidation/dedup.go:158-170 | what an uncapped run would retire from the thinned clusters is what it would have retired before, less what is gone |
| `DedupDeferral.StepAllThins` | internal/consolidation/dedup.go:188-233 | a run without archive failures retires absorbable members only, all of them if the cap allows, and changes nothing else but tags and access counts |
| `DedupDeferral.RunsKeepFate` | internal/consolidation/dedup.go:172-193 | when every cluster elects its seed, capped runs never change which engrams will be left |
| `DedupDeferral.CapOnlyDefers` | internal/consolidation/dedup.go:172-193 | then as many capped runs as there are live engrams leave the same engrams live as one uncapped run: the cap only defers |
| `DedupDeferral.DeferralLosesMerge` | internal/consolidation/dedup.go:172-193 | otherwise not: a seed similar to two engrams that are not similar to each other, one of them elected, leaves under a cap of one a duplicate live for ever that a cap of two retires |
| `DedupDeferral.BridgeEmbeddings` | internal/consolidation/dedup.go:277-299 | such embeddings in the plane, at the default threshold |
| `DedupWorker.ScanAllEngramIds` | internal/consolidation/dedup.go:302-341 | paging until a short page returns every live id, in order; it fails iff a page it reads fails |
| `DedupWorker.ScanKeepsCandidates` | internal/consolidation/dedup.go:46-80 | skipping retired engrams in the scan loses no candidate |
| `DedupWorker.ClaimSimilar` | internal/consolidation/dedup.go:99-113 | the inner loop claims exactly the unclaimed similar engrams and leaves exactly the dissimilar ones |
| `DedupWorker.BuildClusters` | internal/consolidation/dedup.go:91-119 | the pairwise loops with a visited map compute the greedy clusters |
| `DedupWorker.ElectRepresentative` | internal/consolidation/dedup.go:135-144 | the election loop computes the elected member |
| `DedupWorker.Partition` | internal/consolidation/dedup.go:158-170 | the guard loop computes the absorbable members and the separated count |
| `DedupWorker.CollectTags` | internal/consolidation/dedup.go:200-208 | the inner tag loop adds each new tag once |
| `DedupWorker.MergeTags` | internal/consolidation/dedup.go:200-212 | the tag loops compute the merged tags |
| `DedupWorker.ConsolidationWorker.constructor` | internal/consolidation/dedup.go:16-20 | a fresh worker has an empty report |
| `DedupWorker.ConsolidationWorker.ArchiveMembers` | internal/consolidation/dedup.go:221-233 | archives member by member, skipping failures; a dry run counts without writing |
| `DedupWorker.ConsolidationWorker.PersistSurvivor` | internal/consolidation/dedup.go:243-269 | writes metadata when anything changed, tags when the length changed, one error per failure |
| `DedupWorker.ConsolidationWorker.TrimToBudget` | internal/consolidation/dedup.go:188-193 | trims to the remaining budget |
| `DedupWorker.ConsolidationWorker.ProcessCluster` | internal/consolidation/dedup.go:124-270 | one turn of the cluster loop is the cluster step of the specification |
| `DedupWorker.ConsolidationWorker.ProcessClusters` | internal/consolidation/dedup.go:124-270 | the cluster loop with its break at the cap is the fold of cluster steps |
| `DedupWorker.ConsolidationWorker.RunPhase2Dedup` | internal/consolidation/dedup.go:16-274 | the whole phase is the run of the specification, cluster count included; when the scan or the fetch fails it reports nothing and changes nothing |
| `Transitive.TransitiveWorker.constructor` | internal/consolidation/transitive.go:20 | a fresh worker has inferred nothing |
| `Transitive.TransitiveWorker.InferThrough` | internal/consolidation/transitive.go:84-136 | the innermost loop consumes its candidates in order; stopping means every later candidate is skipped too |
| `Transitive.TransitiveWorker.InferFrom` | internal/consolidation/transitive.go:66-137 | the middle loop, likewise |
| `Transitive.TransitiveWorker.RunPhase5` | internal/consolidation/transitive.go:62-141 | the triple loop with its jump out is the in-order effect of the candidate list |
| `TransitiveRuns.InferCounts` | internal/consolidation/transitive.go:84-136 | without store errors exactly min(cap, distinct new pairs) edges appear; below the cap every candidate pair is linked |
| `TransitiveDryRuns.DryRunCountsPaths` | internal/consolidation/transitive.go:128-135 | a dry run writes nothing and counts paths, not pairs |
| `TransitiveDryRuns.PathsVersusPairs` | internal/consolidation/transitive.go:105-135 | paths and pairs agree iff no missing pair is reached twice |
| `TransitiveDryRuns.DryRunPredicts` | internal/consolidation/transitive.go:105-135 | for every iteration order, the dry count equals the real one iff no missing pair of the snapshot is reached along two links, or the cap is met; else it is larger |
| `TransitiveDryRuns.SnapshotOnce` | internal/consolidation/transitive.go:62-103 | the candidate list repeats no missing pair iff the snapshot has no two links for one |
| `TransitiveDryRuns.DiamondCountsTwice` | internal/consolidation/transitive.go:105-135 | on a diamond of four strong edges the dry run reports two inferences and the real run makes one |
| `TransitiveRuns.NewPairsAreEligible` | internal/consolidation/transitive.go:65-114 | the pairs a run can create are exactly those joined by two listed strong edges and not linked |
| `TransitiveRuns.RunCreatesEligible` | internal/consolidation/transitive.go:62-141 | one run without store errors creates exactly min(cap, eligible pairs), for every map iteration order |
| `TransitiveRuns.SeedsAreShort` | internal/consolidation/transitive.go:44-76 | an edge strong enough to seed is an original or weighs at most 0.8 and joins a path of exactly two originals |
| `TransitiveRuns.SecondHandIsWeak` | internal/consolidation/transitive.go:21-45 | what a link through an edge that is not an original infers weighs at most 0.64 and is not strong |
| `TransitiveRuns.RunsKeepEdges` | internal/consolidation/transitive.go:105-114 | no later run changes an edge |
| `TransitiveRuns.SecondHandNeverSeeds` | internal/consolidation/transitive.go:21-45 | so an edge inferred from an inferred edge is weak after every number of later runs: it never seeds another |
| `TransitiveRuns.CandidateIsDerived` | internal/consolidation/transitive.go:70-126 | every inferred edge summarises two originals at weight ≤ 0.8, or three or four at weight ≤ 0.64 |
| `TransitiveRuns.RunGrows` | internal/consolidation/transitive.go:20-145 | one run leaves every existing edge untouched and adds only derived ones |
| `TransitiveRuns.RunsGrow` | internal/consolidation/transitive.go:20-145 | the same over any number of runs with any errors, caps and orders |
| `TransitiveRuns.PathConcat` | internal/consolidation/transitive.go:90-103 | paths of original edges concatenate, which bounds what an inferred edge summarises |
| `TransitiveRuns.InfersSelfLoop` | internal/consolidation/transitive.go:103-114 | two opposite strong edges make a run with a cap of at least 1 write an edge from a node to itself |
| `TransitiveFixpoints.AddedIsCandidate` | internal/consolidation/transitive.go:105-135 | every edge a run leaves was there before or is one of its candidates, with that candidate's weight |
| `TransitiveFixpoints.InferAddsEdges` | internal/consolidation/transitive.go:122-135 | the number of edges grows by the number of inferences |
| `TransitiveFixpoints.SelfLoopIff` | internal/consolidation/transitive.go:103-114 | a run short of its cap and without errors links a node to itself iff its snapshot leads out of the node and back along two strong edges |
| `TransitiveFixpoints.SettledIsFixpoint` | internal/consolidation/transitive.go:105-114 | a graph whose strong edges in a row are all linked is unchanged by every run, whatever it lists, fails or caps |
| `TransitiveFixpoints.CompleteLinks` | internal/consolidation/transitive.go:62-138 | after a run that sees everything and does not meet its cap, edges that were strong in a row are linked |
| `TransitiveFixpoints.SecondRunAddsWeak` | internal/consolidation/transitive.go:21-45 | what a second such run adds is weak |
| `TransitiveFixpoints.TwoRunsSettle` | internal/consolidation/transitive.go:20-145 | two such runs settle any graph: no further run changes anything |
| `TransitiveFixpoints.CappedRunProgresses` | internal/consolidation/transitive.go:116-120 | a run with room for one edge adds an edge, or the graph had settled |
| `TransitiveFixpoints.GrownWithinNodes` | internal/consolidation/transitive.go:82-103 | inference never leaves the nodes of the original edges |
| `TransitiveFixpoints.CappedRunsProgress` | internal/consolidation/transitive.go:116-120 | over capped runs: settled, or an edge more for every run |
| `TransitiveFixpoints.CappedRunsSettle` | internal/consolidation/transitive.go:116-120 | as many capped runs as there are node pairs not yet linked reach a graph no further run changes |
| `TransitiveWeights.FirstCandidateWins` | internal/consolidation/transitive.go:100-133 | an edge a run adds carries the weight of its pair's first candidate, and that is its peak; existing edges keep theirs |
| `TransitiveWeights.NewEdgeWeight` | internal/consolidation/transitive.go:122-133 | whatever the order, cap and errors, a new edge weighs 0.8 times the product of the two edges of the first link listed for its pair, and that is its peak |
| `TransitiveWeights.NewEdgeHasLink` | internal/consolidation/transitive.go:64-133 | every new edge has such a link, of two stored edges that each weigh or have weighed 0.7 |
| `TransitiveWeights.SingleLinkWeight` | internal/consolidation/transitive.go:122-133 | with a single link the new weight is exactly that product |
| `TransitiveWeights.OrderDoesNotWeigh` | internal/consolidation/transitive.go:64-133 | two runs over one snapshot that both add a pair give it the same edge, whatever their order, cap and errors |
| `TransitiveWeights.StrongIff` | internal/consolidation/transitive.go:67-101 | an edge is strong iff its weight or its peak is at least 0.7, for any record |
| `TransitiveWeights.StrongInARowIsLinked` | internal/consolidation/transitive.go:64-112 | two listed edges in a row that each weigh or have weighed 0.7 are linked by every run short of its cap and without errors |
| `TransitiveWeights.OnlyPositiveEdgesExist` | internal/consolidation/transitive.go:102-133 | a candidate overwrites a stored pair without a positive weight and never one with it |
| `Workers.StepConserves` | internal/cognitive/worker.go:149-315 | every step keeps: flushed, then pending, then channel are the accepted items in order; dropped counts the rest; batches stay within batchSize |
| `Workers.RunConserves` | internal/cognitive/worker.go:149-315 | the same for every interleaving of submits, receives, ticks and cancellation |
| `Workers.StartConserves` | internal/cognitive/worker.go:91-104 | it holds at the start |
| `Workers.ShutdownFlushesAll` | internal/cognitive/worker.go:226-247 | at the end of the drain everything accepted has been handed to process |
| `WorkerTiming.EnterOnTime` | internal/cognitive/worker.go:198-224 | while a batch is pending the activity update changes neither state nor ticker |
| `WorkerTiming.AdaptedWaitBounds` | internal/cognitive/worker.go:286-311 | the adapted interval stays within the larger of the base and 500 ms; under pressure it grows iff it was below 500 ms |
| `WorkerTiming.StepOnTime` | internal/cognitive/worker.go:198-312 | every step keeps the timing invariant |
| `WorkerTiming.RunOnTime` | internal/cognitive/worker.go:198-312 | so does every run, however often items arrive |
| `WorkerTiming.StartOnTime` | internal/cognitive/worker.go:180-182 | it holds at the start |
| `WorkerTiming.BoundedFlush` | internal/cognitive/worker.go:256-312 | every flushed item waited at most the interval in force, every pending one at most the current interval, and pending means Active |
| `WorkerTiming.PendingMeansActiveIff` | internal/cognitive/worker.go:199-224 | a pending batch means Active in every run iff both thresholds exceed the longest flush interval, adaptive or not |
| `WorkerTiming.GoesIdlePending` | internal/cognitive/worker.go:199-224 | otherwise a concrete run goes idle on a pending batch: it is held up at the head of its loop for a whole threshold |
| `WorkerTiming.FullChannelLengthens` | internal/cognitive/worker.go:286-299 | an adaptive worker with a shorter base interval reaches the 500 ms interval at a tick that finds its channel full |
| `WorkerTiming.DebounceStarves` | internal/cognitive/worker.go:257-275 | under the former reset-on-every-item rule the oldest item's wait grows with the number of items, nothing being flushed |
| `WorkerPressure.EnterClassifies` | internal/cognitive/worker.go:198-224 | the time without an item decides between Active, Idle and Dormant, and a change of state restarts the ticker at the interval of the new one |
| `WorkerPressure.StepTicks` | internal/cognitive/worker.go:196-312 | every step keeps the ticker at the flush interval while active, at the idle poll while idle and at the dormant poll while dormant; only a tick changes the flush interval |
| `WorkerPressure.RunTicks` | internal/cognitive/worker.go:196-312 | the same over every run |
| `WorkerPressure.StartTicks` | internal/cognitive/worker.go:177-212 | and at the start; a worker that has seen no item is dormant from its first turn |
| `WorkerPressure.SubmitWakes` | internal/cognitive/worker.go:149-174 | an accepted item and any non-empty batch, even one dropped whole, make the next turn active; a rejected item does not |
| `WorkerPressure.CancelledShutsDown` | internal/cognitive/worker.go:226-246 | wherever a run has got to, a cancelled worker can drain and stop, and has then handed everything it accepted to process |
| `WorkerPressure.TickAdapts` | internal/cognitive/worker.go:281-312 | one tick under pressure halves the interval, to 500 ms at least, and strictly if it was longer; a slack one doubles it up to the base; any other, or one while not active, keeps it |
| `WorkerPressure.PressureTightens` | internal/cognitive/worker.go:284-299 | over any run whose active ticks all find the channel more than three quarters full, n of them leave the interval halved n times, but 500 ms at least |
| `WorkerPressure.PressureReachesMinimum` | internal/cognitive/worker.go:284-299 | such a run ends at 500 ms iff the interval was less than 2^n times 500 ms and a nanosecond |
| `WorkerPressure.SlackRelaxes` | internal/cognitive/worker.go:300-311 | over any run whose active ticks all find it less than a tenth full, n of them double a shortened interval n times, up to the base |
| `WorkerPressure.SlackReachesBase` | internal/cognitive/worker.go:300-311 | such a run ends at the base iff 2^n times the interval reaches it |
| `WorkerPressure.ShrBelow` | internal/cognitive/worker.go:284-311 | halving n times goes below a bound iff the interval is below the bound doubled n times |
| `WorkerPressure.FullChannelTightens` | internal/cognitive/worker.go:281-299 | for every n a run from the start exists that keeps the channel full over n ticks and leaves the base interval halved n times |
| `WorkerLoops.GenericWorker.constructor` | internal/cognitive/worker.go:91-104 | a new worker is the start state |
| `WorkerLoops.GenericWorker.Offer` | internal/cognitive/worker.go:150-157 | the non-blocking send accepts iff the channel has room |
| `WorkerLoops.GenericWorker.SubmitItem` | internal/cognitive/worker.go:149-158 | Submit is the submit step |
| `WorkerLoops.GenericWorker.SubmitItems` | internal/cognitive/worker.go:162-174 | SubmitBatch is the batch submit step |
| `WorkerLoops.GenericWorker.Reset` | internal/cognitive/worker.go:212 | a ticker reset sets due time and period |
| `WorkerLoops.GenericWorker.UpdateActivity` | internal/cognitive/worker.go:199-224 | the head of the loop is the activity step |
| `WorkerLoops.GenericWorker.FlushBatch` | internal/cognitive/worker.go:184-196 | the flush closure is the flush step |
| `WorkerLoops.GenericWorker.Wake` | internal/cognitive/worker.go:273-275 | only a transition into Active resets the ticker |
| `WorkerLoops.GenericWorker.TakeItem` | internal/cognitive/worker.go:276 | one item moves from channel to batch |
| `WorkerLoops.GenericWorker.OnItem` | internal/cognitive/worker.go:256-279 | the item branch is the receive step |
| `WorkerLoops.GenericWorker.Adapt` | internal/cognitive/worker.go:286-311 | the adaptive branch is the adapt step |
| `WorkerLoops.GenericWorker.OnTick` | internal/cognitive/worker.go:281-312 | the tick branch is the tick step |
| `WorkerLoops.GenericWorker.Shutdown` | internal/cognitive/worker.go:230-247 | the undisturbed drain takes everything, then flushes once |
| `WorkerLoops.GenericWorker.Finish` | internal/cognitive/worker.go:241-247 | the final flush is the end-of-drain step |
| `WorkerLoops.GenericWorker.Serve` | internal/cognitive/worker.go:226-313 | whichever event comes next, serving it is one step of the transition system |
| `WorkerLoops.GenericWorker.Run` | internal/cognitive/worker.go:177-315 | the whole loop, under any feasible interleaving, is the run of the transition system |
| `Hebbian.CanonicalPairSymmetric` | internal/cognitive/hebbian.go:79-88 | a pair has one key whichever engram comes first |
| `Hebbian.ComputeCanonicalPair` | internal/cognitive/hebbian.go:79-88 | the byte loop computes the canonical pair |
| `Hebbian.ComputeContribution` | internal/cognitive/hebbian.go:238-243 | one pair of engrams gives its key, its signal product and its time |
| `Hebbian.AddContribution` | internal/cognitive/hebbian.go:244-255 | the record is created or updated: count, signal, latest time, first LTP configuration |
| `Hebbian.AggregateWithEach` | internal/cognitive/hebbian.go:237-256 | the innermost loop adds one contribution per later engram |
| `Hebbian.AggregateEvent` | internal/cognitive/hebbian.go:236-257 | the middle loop adds every pair of the event once |
| `Hebbian.AggregateBatch` | internal/cognitive/hebbian.go:233-258 | the three loops aggregate the whole batch |
| `Hebbian.AggregateSummarises` | internal/cognitive/hebbian.go:244-255 | a pair's record is the sum of counts, the sum of signals and the latest time of its contributions |
| `Hebbian.PairsPermutation` | internal/cognitive/hebbian.go:236-257 | reordering the engrams of an event changes no pair's summary |
| `Hebbian.BatchPermutation` | internal/cognitive/hebbian.go:225-258 | reordering events, and engrams within each, changes no pair's summary |
| `Hebbian.AggregationIsOrderFree` | internal/cognitive/hebbian.go:225-258 | nor its whole record, for a pair confined to one vault and one LTP configuration |
| `HebbianOrder.OrderFreeIff` | internal/cognitive/hebbian.go:225-258 | a pair has the same record for every order of the batch iff its events agree on the vault and, where set, on the LTP configuration |
| `HebbianOrder.OrderMatters` | internal/cognitive/hebbian.go:250-254 | otherwise a stated reordering changes the record |
| `HebbianOrder.TwoConfigurationsMatter` | internal/cognitive/hebbian.go:250-254 | an input: one pair in two events with different LTP configurations |
| `Hebbian.OwnedAggregate` | internal/cognitive/hebbian.go:235-258 | that record in terms of the batch alone |
| `Hebbian.BatchOwner` | internal/cognitive/hebbian.go:250-254 | the record's vault and LTP configuration |
| `Hebbian.BatchRecorded` | internal/cognitive/hebbian.go:235-258 | a pair is recorded iff some event holds it, with exactly the batch summary |
| `HebbianLearning.NewWeightBounds` | internal/cognitive/hebbian.go:317-324 | a new weight lies in (0, 1] and is not below the weight read, if that was at most 1 |
| `HebbianLearning.NewWeightTwice` | internal/cognitive/hebbian.go:317-324 | two capped growth steps are one, cold start included |
| `HebbianLearning.LearnTwice` | internal/cognitive/hebbian.go:281-372 | learning two audible summaries in turn is learning their sum: weight, count and stamp, whatever the store's clock reads |
| `HebbianLearning.LearnTwiceIff` | internal/cognitive/hebbian.go:354-372 | for any times and two clock readings, weight and count never depend on the split, and the stamp does not iff a stated comparison holds |
| `HebbianLearning.SplitIsExact` | internal/cognitive/hebbian.go:281-372 | splitting changes nothing iff both halves pass epsilon, one is empty, or together they stay below it, for three independent clock readings |
| `HebbianLearning.BatchMayBeSplit` | internal/cognitive/hebbian.go:225-258 | batches A then B leave a pair as A ++ B does, for three independent clock readings, when the pair's own events carry usable times |
| `HebbianLearning.ClocksDoNotMatter` | internal/cognitive/hebbian.go:354-363 | with usable event times the store's clock is never read |
| `HebbianLearning.QuietHalvesLearnTogether` | internal/cognitive/hebbian.go:282-289 | two events just below epsilon teach nothing one at a time and something together |
| `HebbianWeights.NewWeightIsPower` | internal/cognitive/hebbian.go:316-324 | the new weight is the smaller of 1 and the weight read, or 0.01 for none, times the base to the power of the signal; below 1 it grows strictly |
| `HebbianWeights.OneCoActivation` | internal/cognitive/hebbian.go:316-324 | at the rate 0.01 one co-activation takes 0.5 to 0.505 and a missing edge to 0.0101 |
| `HebbianWeights.PairContributes` | internal/cognitive/hebbian.go:235-258 | a pair that two engrams of an event make up, and no other two, gets the product of their scores, once, at the event's time |
| `HebbianWeights.PairsNothing` | internal/cognitive/hebbian.go:235-258 | a pair that no two engrams of the event make up gets nothing |
| `HebbianWeights.EventTeachesPairs` | internal/cognitive/hebbian.go:235-258 | in a batch of one event without repeated engrams every two of them give their pair the product of their scores |
| `HebbianWorkers.PlanUpdates` | internal/cognitive/hebbian.go:281-383 | the update loop plans exactly one update per audible readable pair, in any order, reports exactly the unreadable ones, and leaves the LTP state after one call per planned tracked pair |
| `HebbianWorkers.HebbianWorker.constructor` | internal/cognitive/hebbian.go:145-178 | a new worker has counted and fired nothing |
| `HebbianWorkers.HebbianWorker.FireCallbacks` | internal/cognitive/hebbian.go:418-424 | fires the callbacks whose update persisted, in order |
| `HebbianWorkers.HebbianWorker.ProcessBatch` | internal/cognitive/hebbian.go:212-446 | one flush: plan, commit, callbacks and returned error, for every store response; the LTP state stays the replay of the calls of all flushes, to which this one adds its own |
| `HebbianWorkers.FiredIsPersisted` | internal/cognitive/hebbian.go:418-424 | a callback fires iff its update persisted |
| `HebbianWorkers.AnnouncedIffPersisted` | internal/cognitive/hebbian.go:374-424 | a notifying worker announces update i iff it landed |
| `HebbianWorkers.PlanTouchesOnlyItsEdges` | internal/cognitive/hebbian.go:392-416 | each persisted update changes its own edge once; all other edges are untouched |
| `HebbianWorkers.UnreadableIsUntouched` | internal/cognitive/hebbian.go:291-315 | an unreadable pair is never written, so never re-seeded |
| `HebbianWorkers.WrittenWeights` | internal/cognitive/hebbian.go:317-352 | written weights lie in (0, 1], are not below the weight read, and reach the floor when potentiated after the flush |
| `HebbianWorkers.TrackIsCall` | internal/cognitive/hebbian.go:341-352 | tracking the pair of one more update is one more call |
| `HebbianWorkers.FloorHoldsForever` | internal/cognitive/hebbian.go:345-352 | a pair once potentiated is never again written below its floor, whatever the flushes in between |
| `HebbianWorkers.FlushCounts` | internal/cognitive/hebbian.go:326-346 | a flush adds a planned tracked pair's batch count to its counter once, capped, and touches no other counter |
| `HebbianWorkers.WorkerCountDecides` | internal/cognitive/hebbian.go:341-347 | after every flush of a worker with one threshold, potentiated iff counted to it |
| `HebbianWorkers.ErrorMeansAPairFailed` | internal/cognitive/hebbian.go:385-445 | the error is non-nil iff some audible pair did not learn, or a skip report named no update |
| `HebbianWorkers.FlushLearns` | internal/cognitive/hebbian.go:281-372 | without LTP and faults a flush is the learning function on every recorded pair |
| `HebbianWorkers.FlushLearnsSummary` | internal/cognitive/hebbian.go:212-446 | and on every pair of one vault, in terms of the batch summary |
| `HebbianWorkers.FlushesMayBeSplit` | internal/cognitive/hebbian.go:225-231 | flushing A and then B leaves a pair's edge as flushing A ++ B, whatever order the pairs are visited in and whatever the three clocks read |
| `HebbianWorkers.QuietFlushesDiffer` | internal/cognitive/hebbian.go:281-289 | two flushes of a quiet event leave the edge alone, one flush of both does not |
| `HebbianWeights.StoredEdge` | internal/cognitive/hebbian.go:316-408 | a persisted update stores the weight min(1, start·base^signal), lifted to the floor of a tracked and potentiated pair, the count capped at 2^32-1 and the later stamp; one that does not persist stores nothing |
| `HebbianWeights.FlushStrengthens` | internal/cognitive/hebbian.go:316-408 | a persisted update of an edge below 1 strictly strengthens it |
| `HebbianWeights.CallbackTellsStore` | internal/cognitive/hebbian.go:371-424 | a callback fires iff its update persisted; it carries the weight read, or 0.01, and the weight now stored |
| `HebbianWeights.FiringTogetherWires` | internal/cognitive/hebbian.go:235-408 | after a flush of one event without LTP and faults, the edge of any two of its engrams weighs min(1, start·base^(product of their scores)) |
| `LtpCounters.AddSaturates` | internal/cognitive/hebbian_ltp.go:71-75 | the wrap-around test makes the 32-bit addition saturating |
| `LtpCounters.AcceptedIff` | internal/cognitive/hebbian_ltp.go:57-86 | a pair is counted iff the threshold is positive and it is known or one of the first 10000; a call that is not counted changes nothing |
| `LtpCounters.LtpState.constructor` | internal/cognitive/hebbian_ltp.go:48-53 | a new state is empty |
| `LtpCounters.LtpState.Add` | internal/cognitive/hebbian_ltp.go:57-86 | addCount is the counting step |
| `LtpCounters.LtpState.IsPotentiated` | internal/cognitive/hebbian_ltp.go:89-95 | the lookup answers membership |
| `LtpCounters.CountsAreSums` | internal/cognitive/hebbian_ltp.go:57-86 | over any calls: at most 10000 pairs, counts are capped sums of accepted deltas, potentiated pairs are tracked and announced exactly once |
| `LtpCounters.PotentiationPersists` | internal/cognitive/hebbian_ltp.go:57-86 | no further calls lose a potentiated or tracked pair |
| `LtpCounters.CountDecides` | internal/cognitive/hebbian_ltp.go:78-84 | for a fixed threshold in 1..2^32-1, potentiated iff the count reached it |
| `LtpCounters.ThresholdMustFit` | internal/cognitive/hebbian_ltp.go:81 | that holds in every run iff the threshold fits in 32 bits, because of the truncating conversion |
| `Confidence.UpdateRange` | internal/cognitive/confidence.go:36-60 | all reals map into [0.025, 0.975] |
| `Confidence.UpdateMonotone` | internal/cognitive/confidence.go:36-60 | monotone in prior and evidence for all reals, across the clamped denominator |
| `Confidence.OddsMultiply` | internal/cognitive/confidence.go:49-59 | undoing the smoothing, posterior odds are prior odds times the odds of the evidence, unless the denominator was lifted to 1e-9 |
| `Confidence.EvidenceExtremes` | internal/cognitive/confidence.go:36-60 | evidence 0.5 gives 0.95·p + 0.025; a prior of zero gives 0.025 whatever the evidence; a prior of one gives 0.975 for evidence from 1e-9 |
| `Confidence.ContradictionLowersIff` | internal/cognitive/confidence.go:36-60 | evidence 0.1 lowers a confidence in [0, 1] iff a stated quadratic is positive there |
| `Confidence.ContradictionLowers` | internal/cognitive/confidence.go:36-60 | in particular on [0.03, 1] |
| `Confidence.RepetitionLowers` | internal/cognitive/contradict.go:117-125 | each repetition strictly lowers the confidence while it is at least 0.03 |
| `Confidence.PenaltyCompounds` | internal/cognitive/contradict.go:117-119 | four or more repetitions take any confidence below 0.071 |
| `Confidence.FoldRange` | internal/cognitive/confidence.go:121-124 | any non-empty fold of evidence ends in [0.025, 0.975] |
| `Confidence.GroupUpdates` | internal/cognitive/confidence.go:101-113 | grouping keeps each engram's evidence in submission order under the vault of its first update |
| `Confidence.FoldEvidence` | internal/cognitive/confidence.go:121-124 | the loop folds the update over the evidence |
| `Confidence.SettleWrites` | internal/cognitive/confidence.go:115-135 | a posterior at least 0.001 away from the stored confidence is written, a closer one is not, and no other engram is touched |
| `Confidence.ProcessBatch` | internal/cognitive/confidence.go:94-137 | what a batch leaves for an engram depends on its own evidence alone, whatever order the groups are visited in; a failed read or write leaves it alone |
| `Contradiction.SetContra` | internal/cognitive/contradict.go:22-27 | sets both orientations inside the matrix and nothing else |
| `Contradiction.BuildMatrix` | internal/cognitive/contradict.go:12-20 | the initialised matrix is the symmetric contradiction relation |
| `Contradiction.LookupSeverity` | internal/cognitive/contradict.go:30-38 | severity is symmetric, positive iff the types contradict, and zero for equal types |
| `Contradiction.ContradictWorker.constructor` | internal/cognitive/contradict.go:80-87 | a new worker has sent no penalty |
| `Contradiction.ContradictWorker.FlagContradiction` | internal/cognitive/contradict.go:43-45 | the assumed store: writes the marker and reports newness truthfully, or fails with the marker written or not |
| `Contradiction.ContradictWorker.CheckPair` | internal/cognitive/contradict.go:102-137 | one pair of associations is one observation iff their types contradict |
| `Contradiction.ContradictWorker.CheckItem` | internal/cognitive/contradict.go:99-139 | an item is its observations in order |
| `Contradiction.ContradictWorker.ProcessBatch` | internal/cognitive/contradict.go:97-142 | a batch is the observations of its items in order |
| `Contradiction.BatchReports` | internal/cognitive/contradict.go:97-105 | a batch reports a pair iff two associations of one item have types 1 and 2 or 8 and 9 and lead to it |
| `Contradiction.ObservedMarkers` | internal/cognitive/contradict.go:105-136 | whatever calls fail: a pair is marked iff it was or some call for it left its marker, and penalised iff the first call to leave it succeeds and notifies |
| `Contradiction.BatchFlags` | internal/cognitive/contradict.go:97-115 | without faults the markers after a batch are those before it and exactly the pairs that clash in it |
| `Contradiction.PenalisedOnce` | internal/cognitive/contradict.go:105-136 | penalties sent are distinct, flagged and not known beforehand, whichever flag calls fail |
| `Contradiction.ReobservationIsFree` | internal/cognitive/contradict.go:117-128 | the same over any number of batches: no contradiction is penalised twice |
| `Contradiction.PenaltiesAreNewFlags` | internal/cognitive/contradict.go:126-136 | with callbacks wired and no failing call leaving a marker, exactly the newly flagged pairs are penalised |
| `DecaySchedules.DecaySchedule.constructor` | internal/cognitive/decay.go:120-125 | a new schedule is the empty map |
| `DecaySchedules.SchedEntry.constructor` | internal/cognitive/decay.go:132 | an entry holds its id and time |
| `DecaySchedules.DecaySchedule.Swap` | internal/cognitive/decay.go:93-97 | swaps two entries and their stored positions |
| `DecaySchedules.DecaySchedule.Up` | internal/cognitive/decay.go:133 | sifting up restores heap order, keeping entries, positions and index |
| `DecaySchedules.DecaySchedule.LesserChild` | internal/cognitive/decay.go:92 | the chosen child is no later than its sibling |
| `DecaySchedules.DecaySchedule.Down` | internal/cognitive/decay.go:130 | sifting down restores heap order below, or reports that it did not move |
| `DecaySchedules.DecaySchedule.Fix` | internal/cognitive/decay.go:130 | restores heap order after one time changed either way |
| `DecaySchedules.DecaySchedule.Append` | internal/cognitive/decay.go:98-102 | appends an entry at its position |
| `DecaySchedules.DecaySchedule.Move` | internal/cognitive/decay.go:128-130 | rescheduling is a map update |
| `DecaySchedules.DecaySchedule.Insert` | internal/cognitive/decay.go:131-135 | scheduling a new id is a map update |
| `DecaySchedules.DecaySchedule.Schedule` | internal/cognitive/decay.go:127-141 | Schedule is a map update that keeps heap order, positions and index |
| `DecaySchedules.DecaySchedule.Next` | internal/cognitive/decay.go:143-148 | Next is a least time of the map, absent iff it is empty |
| `DecaySchedules.DecaySchedule.RootTime` | internal/cognitive/decay.go:147 | the root carries a least time of the map |
| `DecaySchedules.DecaySchedule.PopDue` | internal/cognitive/decay.go:150-157 | PopDue removes exactly one id of least time, or answers the zero id on an empty schedule |
| `DecaySchedules.DecaySchedule.Drain` | internal/cognitive/decay.go:150-157 | popping until empty answers a drain of the map: a least id each time |
| `DecaySchedules.DecaySchedule.PopRoot` | internal/cognitive/decay.go:154-155 | removes the root from heap and index |
| `DecaySchedules.DecaySchedule.SinkRoot` | internal/cognitive/decay.go:154 | swaps the root last and re-sifts the rest |
| `DecaySchedules.DecaySchedule.RemoveLast` | internal/cognitive/decay.go:103-111 | removes the last entry from heap and index |
| `DecaySchedules.UpStep` | internal/cognitive/decay.go:88-97 | one exchange upwards moves the only violation to the parent |
| `DecaySchedules.DownStep` | internal/cognitive/decay.go:88-97 | one exchange downwards moves the only violation to the child |
| `DecaySchedules.RootIsLeast` | internal/cognitive/decay.go:88-92 | in a heap the root is least |
| `DecaySchedules.DrainIsSorted` | internal/cognitive/decay.go:150-157 | so draining yields each scheduled id once, in nondecreasing time |
| `AuthKeys.EncodeVaultIndexKey` | internal/auth/keys.go:61-68 | the buffer filled in place is prefix, vault, NUL, id |
| `AuthKeys.VaultIndexKeyInjective` | internal/auth/keys.go:61-68 | an index key determines its vault and id |
| `AuthKeys.StorageKeyInjective` | internal/auth/keys.go:53-58 | a storage key determines its hash |
| `AuthKeys.GlobIndexKeyInjective` | internal/auth/keys.go:24-29 | a glob index key determines its id |
| `AuthKeys.ScanIsPrefix` | internal/auth/keys_store.go:204-213 | the range from a prefix to the prefix with its last byte incremented holds exactly the keys under it |
| `AuthKeys.VaultScanIsExact` | internal/auth/keys.go:61-77 | for NUL-free names the scan of a vault holds an index entry iff it is that vault's |
| `AuthKeys.NulReachesAcross` | internal/auth/keys.go:61-77 | a vault name with a NUL can reach into another vault's entries |
| `AuthKeys.ScopeMatchIsCover` | internal/auth/scope.go:58-74 | the early-return loop answers whether some entry covers the vault |
| `AuthKeys.ResolveGrantsOnlyScope` | internal/auth/scope.go:89-104 | resolution grants only covered vaults, and an explicit request iff it is covered |
| `AuthKeys.ValidEntriesAreIndexable` | internal/auth/scope.go:19-53 | the literals of a validated scope can be indexed |
| `AuthScopes.ValidScopeMeans` | internal/auth/scope.go:20-53 | a scope is valid iff it is not empty and every entry is 1 to 64 lower-case letters, digits, hyphens and underscores, or that and one star, or the bare star where that is allowed |
| `AuthScopes.CoveredMeans` | internal/auth/scope.go:58-75 | without the bare star a valid scope covers a vault iff it names it, or names a non-empty prefix of it with a star |
| `AuthScopes.CoveredIsStarted` | internal/auth/scope.go:58-75 | then every covered vault starts with the first byte of some entry |
| `AuthScopes.EveryHeadCovers` | internal/auth/scope.go:14-75 | 38 or more entries, one glob for each byte a name may start with, form a valid scope without the bare star that covers every valid vault |
| `AuthScopes.NarrowIff` | internal/auth/scope.go:14-75 | so valid scopes of n entries without the bare star all leave some valid vault uncovered iff n is below 38 |
| `AuthScopes.MintRecordsIff` | internal/auth/keys_store.go:25-90 | a mint is recorded iff its mode is one of four, or for a scope one of three, and a scope is valid |
| `AuthScopes.StoredVaultIsDefault` | internal/auth/keys_store.go:95-120 | the single vault stored with a scoped key is the one its scope resolves to without a request |
| `AuthScopes.RunBounded` | internal/auth/keys_store.go:74-90 | unless a caller allows it, no run mints a key whose scope holds the bare star |
| `AuthStore.VaultKeyInIndex` | internal/auth/keys_store.go:131-145 | a vault entry is a key's own iff it bears its id and one of its literals |
| `AuthStore.GlobKeyInIndex` | internal/auth/keys_store.go:146-152 | a glob entry is a key's own iff it bears its id and the key has a glob |
| `AuthStore.IndexKeysApart` | internal/auth/keys.go:24-77 | keys with different ids share no index entry |
| `AuthStore.InsertRepresents` | internal/auth/keys_store.go:123-153 | writing a fresh key with all its entries adds exactly that record to the represented map |
| `AuthStore.RemoveRepresents` | internal/auth/keys_store.go:298-321 | deleting a key with all its entries removes exactly that record |
| `AuthBatches.LiteralOpsPut` | internal/auth/keys_store.go:129-145 | skipping repeated literals still writes every literal entry |
| `AuthBatches.UnindexOpsDelete` | internal/auth/keys_store.go:308-315 | the revocation loop deletes every literal entry |
| `AuthBatches.ScopedOpsInsert` | internal/auth/keys_store.go:123-152 | the scoped batch is exactly the insertion of the key |
| `AuthBatches.GenerateOpsInsert` | internal/auth/keys_store.go:57-67 | so is the single-vault batch, for a non-empty vault that is no glob |
| `AuthBatches.RevokeOpsRemove` | internal/auth/keys_store.go:304-320 | the revocation batch is exactly the removal of the key |
| `AuthBatches.FindHashTruth` | internal/auth/keys_store.go:276-285 | the index lookup finds a key iff it is live and answers to the vault, and then finds that key |
| `AuthBatches.RevokeRepresents` | internal/auth/keys_store.go:267-322 | revocation succeeds iff a live key with that id answers to the vault; the store then holds the others |
| `AuthBatches.RevokeIsExact` | internal/auth/keys_store.go:258-322 | it deletes the record and all its entries and nothing else, and no entry leads there afterwards |
| `AuthListing.ScansAreExact` | internal/auth/keys_store.go:187-256 | the two scans reach exactly the live keys whose scope covers the vault iff no live key strays into the vault's range without covering it; always for a NUL-free name |
| `AuthNames.ListingIsSafeIff` | internal/auth/keys_store.go:204-213 | listing a vault is exact in every store iff its name is not a plain name, a NUL and fewer than eight bytes |
| `AuthNames.StrayKeyStrays` | internal/auth/keys.go:61-77 | for such a name, a key minted for its beginning whose id starts like the rest is listed without covering it |
| `AuthListing.ScansReach` | internal/auth/keys_store.go:187-256 | for every vault name, what the scans reach: the live keys that cover it or stray into its range |
| `AuthListing.NulFreeNeverStrays` | internal/auth/keys.go:61-77 | only a name with a NUL has strays |
| `AuthListing.ListingIsExact` | internal/auth/keys_store.go:184-256 | any listing holds exactly the keys reached, each once: for a NUL-free name the live keys whose scope covers it |
| `AuthListing.ListingIsOrdered` | internal/auth/keys_store.go:204-254 | first the keys that name the vault, by id, then the other keys that cover it, by id |
| `AuthListing.MintedIsReachable` | internal/auth/keys_store.go:57-68 | a minted key is reached under the NUL-free prefix of whatever vault name was given |
| `AuthListing.MintedGlobIsMissed` | internal/auth/keys_store.go:57-68 | a single-vault key minted for a glob is not listed for a longer name it covers |
| `AuthListing.MintingIsExact` | internal/auth/keys_store.go:21-71 | minting for an unvalidated vault name keeps all listings exact iff the name is non-empty, NUL-free and does not end in a star |
| `AuthNames.MintThenRevoke` | internal/auth/keys_store.go:267-322 | minting for any name and revoking under it succeeds; it restores the keyspace iff the name is neither empty nor a glob, and otherwise leaves the index entry behind |
| `AuthCluster.Store.constructor` | internal/auth/cluster.go:49-64 | a fresh store has logged nothing |
| `AuthCluster.Store.Replicate` | internal/auth/cluster.go:111-120 | a failed append leaves the log as it was |
| `AuthCluster.Store.Put` | internal/auth/cluster.go:77-83 | commit, then log one set |
| `AuthCluster.Store.Del` | internal/auth/cluster.go:86-92 | commit, then log one delete |
| `AuthCluster.Store.Commit` | internal/auth/cluster.go:96-106 | commit a batch, then log it unless empty |
| `AuthCluster.Store.GenerateAPIKey` | internal/auth/keys_store.go:21-71 | gate, mode check and batch are the generate step, with its outcome |
| `AuthCluster.Store.ScopedBatch` | internal/auth/keys_store.go:123-152 | the loop with its seen set builds the scoped batch |
| `AuthCluster.Store.GenerateScopedAPIKey` | internal/auth/keys_store.go:81-155 | mode and scope checks, then a commit past the gate and the log |
| `AuthCluster.Store.RevocationBatch` | internal/auth/keys_store.go:298-320 | the loop builds the revocation batch |
| `AuthCluster.Store.RevokeAPIKey` | internal/auth/keys_store.go:267-322 | the revoke step, with not-found for a bad id, a missing entry or a missing record |
| `AuthCluster.Store.SetVaultConfig` | internal/auth/vault_config.go:73-82 | the set-config step |
| `AuthCluster.Store.RenameVaultConfig` | internal/auth/vault_config.go:86-118 | the rename step; a missing or corrupt config is a no-op |
| `AuthCluster.Store.DeleteVaultConfig` | internal/auth/vault_config.go:122-127 | the delete step |
| `AuthCluster.Store.ListAPIKeys` | internal/auth/keys_store.go:187-256 | the two scans with their seen set, in byte order: reachable keys only, no id twice, none missing |
| `AuthCluster.Least` | internal/auth/keys_store.go:217 | the iterator visits keys in byte order |
| `AuthRuns.StepAgreesIff` | internal/auth/cluster.go:75-120 | one step keeps a replica in agreement iff its write was logged, not committed, or changed nothing |
| `AuthRuns.ReplicaAgreement` | internal/auth/cluster.go:67-120 | replaying the log gives the leader's keyspace after every run of logged writes |
| `AuthRuns.ScopedBreaksAgreement` | internal/auth/keys_store.go:153 | minting a scoped key under a new hash keeps agreement iff it does not commit |
| `AuthRuns.ScopedNeverReachesFollowers` | internal/auth/keys_store.go:153 | such a key is absent from every follower, however the run goes on |
| `AuthRuns.GateStops` | internal/auth/cluster.go:66-73 | a refusing gate leaves every step but the scoped mint without effect, and that one it does not affect at all |
| `AuthRuns.FollowerUnchanged` | internal/auth/cluster.go:53-73 | gated methods leave a follower unchanged over any run |
| `AuthRuns.RenameMovesIff` | internal/auth/vault_config.go:107-118 | renaming moves an existing config, all else untouched, iff the names differ; to the same name it deletes the config |
| `AuthConfigs.StepHolds` | internal/auth/vault_config.go:73-127 | one call does to the stored configs what it does to a map from name to config: set, move, delete, or nothing |
| `AuthConfigs.RunHolds` | internal/auth/vault_config.go:73-127 | over every run of key and config operations the stored configs are those of the map |
| `AuthConfigs.ReadAfterRun` | internal/auth/vault_config.go:30-50 | after any run reading a config gives the map's, and the locked default or an error for a name the map lacks |
| `AuthConfigs.OpenIsAsked` | internal/auth/vault_config.go:19-29 | a vault is public after a run from none only if some call of the run set a public config |
| `AuthConfigs.StaysLocked` | internal/auth/vault_config.go:19-50 | fail-closed: without such a call no vault reads as public, whatever is renamed, deleted, minted or revoked |
| `AuthRuns.EmptyRepresents` | internal/auth/keys_store.go:187-256 | the empty keyspace holds no keys: where every run may start |
| `AuthRuns.StepRepresents` | internal/auth/keys_store.go:21-322 | every step of the keyspace is a step of the plain map of records |
| `AuthRuns.RunRepresents` | internal/auth/keys_store.go:21-322 | and so is every run |
| `AuthRuns.ListAfterRun` | internal/auth/keys_store.go:184-256 | after any run listing a vault gives exactly the live keys whose scope covers it, each once; for a name with a NUL also the strays |
| `AuthRuns.ListOnFollower` | internal/auth/cluster.go:31-51 | and so does listing it on a follower that replayed the log |
| `EnvFile.TightIsTrimmed` | cmd/muninn/envfile.go:314-344 | trimming is the identity iff the text neither starts nor ends with space |
| `EnvFile.ReplaceLoop` | cmd/muninn/envfile.go:224-243 | the in-place line loop computes the replacement and whether a line matched |
| `EnvFile.UpsertVars` | cmd/muninn/envfile.go:220-254 | the pair loop, the missing list and the final newline compute the upserted text |
| `EnvFile.LoadEnv` | cmd/muninn/envfile.go:312-362 | the shell's variables stay; each other key gets its first active line |
| `EnvFileLaws.FreshLine` | cmd/muninn/envfile.go:227-230 | a written line loads its pair and matches its key only |
| `EnvFileLaws.SupersededLine` | cmd/muninn/envfile.go:237-239 | a commented-out line loads nothing and matches no key again |
| `EnvFileLaws.ActiveMatches` | cmd/muninn/envfile.go:169-193 | whatever the loader or the active matcher accepts, the upsert's matcher finds |
| `EnvFileLaws.ReplaceKeepsOthers` | cmd/muninn/envfile.go:225-240 | replacing one key's lines changes no other key's loaded value |
| `EnvFileLaws.ReplaceSets` | cmd/muninn/envfile.go:225-240 | a found key loads its new value afterwards |
| `EnvFileLaws.ReplaceSettles` | cmd/muninn/envfile.go:225-240 | its first matching line carries the value and no later one is active |
| `EnvFileLaws.ReplaceOther` | cmd/muninn/envfile.go:222-244 | later keys neither unsettle it nor create or remove matches |
| `EnvFileLaws.SettledIsFixpoint` | cmd/muninn/envfile.go:225-240 | replacing a settled key changes nothing |
| `EnvFileRoundTrip.UpsertTextLines` | cmd/muninn/envfile.go:246-254 | joining, trimming newlines and appending is the upsert on lines |
| `EnvFileRoundTrip.UpsertedValueLoads` | cmd/muninn/envfile.go:204-254 | loading the upserted text yields each new value |
| `EnvFileRoundTrip.UpsertPreservesOthers` | cmd/muninn/envfile.go:204-254 | every other key loads what it loaded before |
| `EnvFileRoundTrip.UpsertIsIdempotent` | cmd/muninn/envfile.go:204-254 | a second upsert of the same pairs is the identity on the text |
| `EnvFileRoundTrip.ValueSurvivesIffValid` | cmd/muninn/envfile.go:344-350 | a single-line value survives the loader iff it is trimmed and not quoted |
| `EnvFileRoundTrip.QuotedValueLoads` | cmd/muninn/envfile.go:313-351 | a value in a pair of single or double quotes loads without them, also after "export"; with a NUL it loads nothing |
| `EnvFileRoundTrip.LoadedKeys` | cmd/muninn/envfile.go:331-343 | whatever a line holds, only a MUNINN key without blanks is loaded, and nothing with a NUL |
| `EditDistance.DistanceSymmetric` | cmd/muninn/repl.go:367-393 | the distance is symmetric |
| `EditDistance.EqualLast` | cmd/muninn/repl.go:384-385 | equal last characters may take the diagonal without a minimum |
| `EditDistance.OneEdit` | cmd/muninn/repl.go:367-393 | one edit lowers the distance by at most one |
| `EditDistance.NoShorterScript` | cmd/muninn/repl.go:367-393 | no insert/delete/substitute script is shorter than the distance |
| `EditDistance.ShortestScript` | cmd/muninn/repl.go:367-393 | some script is exactly that long |
| `EditDistance.DistanceIsOptimal` | cmd/muninn/repl.go:367-393 | the recurrence is the least length over all scripts |
| `EditDistance.TriangleInequality` | cmd/muninn/repl.go:367-393 | the triangle inequality |
| `EditDistance.EditMovesByOne` | cmd/muninn/repl.go:367-393 | one edit moves the distance to any text by at most one, up or down |
| `EditDistance.NextRow` | cmd/muninn/repl.go:381-390 | one row of the table from the previous one |
| `EditDistance.ComputeLevenshtein` | cmd/muninn/repl.go:368-393 | what the two-row table returns, early returns in bytes included |
| `EditDistance.Utf8LengthIsEncoded` | cmd/muninn/repl.go:369-374 | a character counts as many bytes as its UTF-8 encoding, which decodes to it |
| `EditDistance.ByteLengthIsEncoded` | cmd/muninn/repl.go:369-374 | and a text as many as its encoding |
| `EditDistance.LevenshteinIsDistance` | cmd/muninn/repl.go:368-393 | it is the distance iff no empty operand meets a non-ASCII one |
| `EditDistance.NonAsciiCounterexample` | cmd/muninn/repl.go:369-374 | an input where it is not |
| `EditDistance.Suggest` | cmd/muninn/repl.go:352-365 | the best-so-far loop returns the first nearest command within 2, or nothing |
| `EditDistance.KnownCommandDistance` | cmd/muninn/repl.go:344-365 | for the known commands the computed value is always the distance |
| `EditDistance.SuggestCommand` | cmd/muninn/repl.go:352-365 | the suggestion's first word is at minimal edit distance, at most 2; "" iff none is that near |

## Left out

Assumptions of the model:

- Float rounding, NaN and infinities: weights, confidences and similarities are reals. The cosine
  test compares squares, so no square root is needed.
- Hebbian signals: scores are naturals (a fixed-point scale) and one unit of signal multiplies a weight by a base b > 1,
  in place of the exponential of logarithms; the epsilon becomes a natural.
- Similarity.MeetsThreshold: assumes a positive threshold, which is all the phase ever uses.
- HebbianLearning.BatchMayBeSplit: the pair's events carry a time in the stored 32-bit range; an event without one is
  stamped by the store's clock, and HebbianLearning.LearnTwiceIff says exactly when that shows.
- HebbianWorkers.FlushesMayBeSplit: covers the same events.
- HebbianLearning.SplitIsExact: covers the same events, for a counter that does not saturate; a saturated counter hides
  the difference in counts.
- Hebbian store: an update adds to the stored count, which saturates at 2^32-1, and never moves the stored stamp back;
  it applies to exactly the pairs it does not report as skipped.
- Case folding: lower-casing is ASCII only; a text is a sequence of characters, so invalid UTF-8 does not arise.
- DedupDeferral.CapOnlyDefers: states when the cap only defers, not that it never does otherwise; a cluster whose
  survivor is not its seed may still come out right, depending on which members are similar to each other.
- DedupWorker.MergeTags: merged tags are listed in order of first occurrence; the source's map iteration gives them in
  some order.
- Dedup: an engram comes with its embedding; one whose embedding cannot be loaded has none. Other metadata the
  survivor's write copies back is not modelled.
- Transitive: the scan and the listing succeed; the store lists any subset of the stored edges (its top 100 per node is
  one), and a run sees no other writer. That runs settle is proved for runs that are shown every edge, so for nodes with
  at most 100 outgoing ones; `UpdateAssocWeight` on a missing edge stores the weight and raises the peak to it.
- Worker: a submit is atomic, `process` takes no time, a due tick is served before time advances, and during the drain no
  time passes. The statistics are left out.
- WorkerLoops.GenericWorker.OnItem: leaves out the closed-channel branch; nothing in the repository closes the channel.
- WorkerLoops.GenericWorker.Run: the same.
- Contradiction.PenaltiesAreNewFlags: assumes a store that marks unordered pairs and reports truthfully whether one is
  new. The repository's own store looks the marker up by the lower engram of the pair alone
  (`internal/storage/association.go:1621`), so a second contradiction whose lower engram is already marked is never
  reported new and not penalised; no contradiction is penalised twice there either.
- DecaySchedule: the trigger channel is left out, and a new entry is indexed before it is sifted instead of after.
- AuthBatches.RevokeRepresents: covers stores whose keys were minted for plain names or validated scopes; what other
  names leave behind is in AuthNames.MintThenRevoke.
- AuthBatches.RevokeIsExact: the same.
- AuthRuns.RunRepresents: covers runs that mint single-vault keys for plain names, which AuthListing.MintingIsExact shows
  to be needed.
- AuthRuns.ListAfterRun: the same.
- AuthRuns.ListOnFollower: the same.
- AuthRuns.StepRepresents: the same.
- Auth: the database is a map from byte strings to typed values, so JSON never fails; a hash is a parameter, distinct
  from those in use with a distinct first half; an id that does not decode is one of the wrong length. An index entry
  holds a hash or leads nowhere. Commit failures are all-or-nothing.
- AuthCluster.Store.ListAPIKeys: iterator errors are left out.
- Env file: reading, symlink, size, permission and atomic-write handling, and the scanner's line-length limit.

Not modelled:

- Token validation, expiry, capabilities, admin users, sessions, middleware and `ListVaultConfigs`.
- Plasticity and recall modes: independent clamps and defaults.
- The forgetting curve and stability formulas, and the decay worker, which is no longer started.
- The other consolidation phases, audit, backup, briefs, migrations, the activation engine and the storage engine.
- Logging, including the suppression set for repeated Hebbian read faults.
- The command line, HTTP, MCP, SDKs, benchmarks and the web interface.
