# CoreTex validator and client: a verified model

This project models the parts of the CoreTex repository that decide, persist or transform
something, and proves what they are for.

- **Admission** (`AdmissionGain`, `AdmissionLaw`, `AdmissionCompleteness`, `AdmissionMeaning`,
  `AdmissionLineage`, `ResourceLaw`, `ResourceMeaning`): the Q/R/E rule that accepts a candidate
  vector against its parent and the genesis floor, over the vectors' own numbers. Each accepted
  vector becomes the next artifact's stored parent, so a lineage is a transition system. Its runs
  are characterised exactly, shown finite with an explicit bound, and shown to keep the genesis
  guarantees and to amortise every dip.
- **Transitions** (`TransitionReplay`, `FrontierTransition`, `TransitionLineage`, `ByteLength`,
  `Descriptor`, `Words`, `AbiTail`): replay of a content-addressed edit and how it compares with
  the frontier law it mirrors, whole replayed histories, the length field that states its own
  document's length, and the two wire formats.
- **Client state** (`EvalBacklog`, `ArtifactBinding`, `BacklogDrain`, `TrustedStaging`, `SyncChain`,
  `ReplayMeaning`, `SyncRuns`, `SyncSafety`, `SyncProgress`, `SyncRefusals`, `SyncCorpus`,
  `SyncKeys`, `SyncSchedule`, `SyncExamples`, `SyncMeaning`, `SyncPass`): the score-replay backlog,
  the staged commit, the registry's chain and its replay, and every sequence of completed, aborted,
  crashed, scoring-skipped and read-only passes: what they keep, what stops them for good, and
  which schedules never stop.
- **Historical corpora** (`CorpusCache`, `CorpusWalk`, `CorpusResolver`, `CorpusDrain`): the LRU
  cache, the walk over the signed delta chain, and a whole drain's resolver.
- **Scoring** (`JobQueue`, `LengthBuckets`, `PaddingCost`): the bounded FIFO, and length
  bucketing with its padding optimum.
- **Algorithmic cores** (`SyscallFilter`, `Keccak*`): the filter generator against a small
  interpreter, and Keccak-256 from padding to digest, against FIPS 202 written out over bits
  (`KeccakStandard`).

`Outcomes`, `Names`, `Arith`, `Sums`, `Limits` and `Decimals` are shared helpers. Code the
source writes as expressions is a function here; its loops, classes and in-place updates are
methods and classes proved against those functions.

`dafny verify dfyconfig.toml` checks the whole project.

## What the proofs found

Where the code and its own comments, or the obvious reading of it, part ways, the model follows
the code and a lemma pins the difference down.

- A block is refused when a hard gate fails while the vectors still earn a class: the recomputed
  class is not reset, and a reject may not state one (`DerivedVerifiedIff`, `VerifiedExistsIff`).
- The `byte_length` search tries 20 digit counts, so at a constant part of 10^20 - 21 bytes it
  accepts a document with two fitting lengths (`BlindSpot`, `FinalizedUniqueIff`). That is a bound
  on the search, not an input anyone could receive: the document has 10^20 bytes.
- The ABI tail decoder accepts any aligned offset behind the head, so stray words in between are
  ignored; the encoding is canonical only at offset 288 (`CanonicalIff`).
- The comment on the staged commit puts the first-use key pin last. The code stages it first
  (src/client-sync-cli.ts:1572) and the state file last; the safety proof rests on the latter.
- The replay counts every epoch's transitions from 0 in each window (src/replay/coretex-registry.ts:249).
  So a pass that completes between two advances of one epoch is the last to get anywhere while the
  snapshot is kept: every later one that comes to the second advance ends in `OUT_OF_ORDER`
  (`ReplaysIff`, `CaughtForGood`, `SplitEpochRun`).
- A completed pass records the corpus its epoch's delta leads to, and the next one has to start from
  it. So in an epoch whose delta changes the corpus a second pass is refused at any head, and
  deleting the snapshot does not help, because the state file keeps the corpus; nor can such an
  epoch be skipped (`SecondPassRefused`, `LossPassIff`, `RotationsOnce`, `RotatedRun`).
- The replay holds the last sealed root of a window against the root at the window's end. A new
  client or one that lost its snapshot, syncing after an epoch was sealed and the next one moved the
  root, ends in `FINAL_ROOT_MISMATCH`, and losing files does not help (`LossRecovers`,
  `LateClientStuck`).
- The last seal's pins are held against the synced epoch's unless the sealed epoch has an advance in
  the window. A client whose cursor lies between the last advance of an epoch and its seal is
  therefore refused at a new epoch with other pins (`SealPinsIff`, `SealPinsRefuse`, `SealPinsRun`).
- Together these leave the schedules of `ScheduleIff`. One pass per epoch, after its last advance and
  its seal and before the next epoch's first advance, always works (`EpochByEpochOk`).
- An artifact is bound to the last advance of the window with the entry's parent root, which on a
  cycle of roots is another one: then an honest scoring pass stops (`HonestBindsIff`,
  `CycleRefused`). docs/V5-RIG-VALIDATOR.md:373-377 calls such cycles legal for the rig lane's
  registry; that they are on this lane too is inferred from its having the same kind of rule.
- A crash between the substrate snapshot's rename and the state file's makes every later pass
  stop until the snapshot is deleted, exactly when the pass had moved the root
  (`CrashRefusedIff`, `CrashForGood`, `CrashRun`).
- The replay of a transition artifact says that it mirrors `apply_transition`
  (python/coretex_validator/dispatch.py:1777). It does for pins and epochs, but it accepts a moved
  release under an unchanged composition and a release replaced by itself (`ReplayAgreesIff`,
  `CompositionMayStay`, `ReleaseMayStay`).
- The start of a corpus walk is compared with the advance's epoch, not with the epoch the pinned
  corpus belongs to. When an entry pins an older corpus than its epoch has by now, a nearer cached
  corpus can hide it from a walk the launch base would have completed (`ResolvesIff`,
  `MissMeansLagging`, `LaggingPin`). A cached corpus is also returned before the bundle check.
- A scorer queue configured with no waiting room refuses everything, idle or not
  (`IdleRefusalIff`, `NoRoomRefusesAll`).
- The legacy scoring loop fails at a batch size of 0 and drops every score below it, where the
  bucketed path uses 1 (`PathsAgreeIff`).
- Sorted bucketing is a padding optimum only for full batches or a single one (`OptimalIff`).

## Model

| member | source | states |
|---|---|---|
| AdmissionGain.ComputeEfficiencyGain | python/coretex_validator/eval_artifact.py:2108-2120 | the loop over the axes computes the efficiency gain; its zero-parent branch is never entered when an axis fell |
| AdmissionGain.EfficiencyGainIsGreatestDrop | python/coretex_validator/eval_artifact.py:2108-2120 | the gain lies in 1..1,000,000, is at least every axis's relative drop in ppm, and is one of them unless it is the floor of 1 |
| AdmissionLaw.VerifiedIsDerived | python/coretex_validator/eval_artifact.py:1971-2123 | a partition block that passes is the block derived from its vectors, the floor and the gate map, field by field; what the derived fields are is VerifiedMeans |
| AdmissionLaw.VerifiedUnique | python/coretex_validator/eval_artifact.py:1971-2123 | for fixed vectors, floor and gates at most one combination of admit, class, gain and lists passes |
| AdmissionMeaning.VerifiedMeans | python/coretex_validator/eval_artifact.py:1971-2123 | a passing block in numbers, over its own fields: which bounds, trade and gain make it quality or efficiency; a quality accept states min(1,000,000, after - before), an efficiency accept the greatest relative fall of the three resources in ppm, at least 1 |
| AdmissionMeaning.VerifiedLists | python/coretex_validator/eval_artifact.py:2022-2066 | the three lists name exactly the objectives below the parent's, the resources above the cap, and the composite and objectives that miss genesis by more than 2,500,000 micro |
| AdmissionMeaning.AdmittedIff | python/coretex_validator/eval_artifact.py:2028-2104 | in the accepting direction too: with all gates held a candidate has an admitting block if and only if it is within bounds, its dips are paid twice, and it raises the composite ppm, or keeps it with no resource up and some down |
| AdmissionMeaning.ArtifactMeans | python/coretex_validator/eval_artifact.py:2124-2143 | an artifact admits when both partitions do; the projection then carries the confirm partition's class and gain, and is empty otherwise |
| AdmissionMeaning.ArtifactScore | python/coretex_validator/eval_artifact.py:2105-2143 | and the score it projects is that gain in numbers |
| AdmissionCompleteness.WantGainInRange | python/coretex_validator/eval_artifact.py:2105-2124 | every earned gain fits the schema's 1..1,000,000 |
| AdmissionCompleteness.DerivedVerifiedIff | python/coretex_validator/eval_artifact.py:1663-1690 | the derived block passes if and only if all hard gates hold or no class is earned |
| AdmissionCompleteness.VerifiedExistsIff | python/coretex_validator/eval_artifact.py:1971-2123 | exactly which vectors and gate maps have any passing block: well-formed vectors, suite block and caps carried, and no failed gate beside an earned class |
| AdmissionCompleteness.EarnedClassWithFailedGateRefused | python/coretex_validator/eval_artifact.py:2093-2104 | a concrete pair of vectors earns the quality class while one gate fails, and no block whatever passes |
| AdmissionLineage.ArtifactUnique | python/coretex_validator/eval_artifact.py:2124-2143 | over both partitions the vectors and gates settle the artifact's whole decision |
| AdmissionLineage.LineageRuns | python/coretex_validator/eval_artifact.py:1265-1280 | chaining accepted artifacts through the witness makes each partition's stored vectors a run of the admission law |
| AdmissionLineage.RunsAreLineages | python/coretex_validator/eval_artifact.py:1541-1597 | conversely, any two runs of one length are the partitions of a lineage of passing artifacts: the transition system has exactly these runs |
| AdmissionLineage.AdvanceDescends | python/coretex_validator/eval_artifact.py:2080-2104 | an accept raises composite ppm, or keeps it and lowers the sum of the three resource axes; an efficiency accept has composite gain exactly 0 |
| AdmissionLineage.RunDescends | python/coretex_validator/eval_artifact.py:2080-2104 | the same strict descent between any two vectors of a run, however far apart |
| AdmissionLineage.RunNeverRepeats | python/coretex_validator/eval_artifact.py:1265-1280 | no vector ever returns in a run |
| AdmissionLineage.RankDrops | python/coretex_validator/eval_artifact.py:2080-2104 | the descent lowers one natural number bounded by the uint32 maximum and the sealed cap |
| AdmissionLineage.LineageFinite | python/coretex_validator/eval_artifact.py:1971-2123 | every lineage from a genesis within its caps is finite with an explicit bound, and never repeats a stored vector in either partition |
| AdmissionLineage.AdvanceKeepsGenesis | python/coretex_validator/eval_artifact.py:1990-2073 | one accept leaves each objective within the tolerance of genesis, composite ppm at or above it, each resource within C, the envelope equal to C and the suite block carried |
| AdmissionLineage.RunKeepsComposite | python/coretex_validator/eval_artifact.py:2080-2085 | along a run composite ppm never falls and composite micro never ends more than 99 below an earlier value |
| AdmissionLineage.RunSafe | python/coretex_validator/eval_artifact.py:1990-2073 | both safety statements for every position and pair of positions of a run |
| AdmissionLineage.RunAmortises | python/coretex_validator/eval_artifact.py:2035-2045 | over a whole run gains are at least twice the dips, and the objective sum rises by at least all points ever lost |
| AdmissionLineage.LineageKeepsGenesis | python/coretex_validator/eval_artifact.py:1990-2073 | every artifact of a lineage keeps the genesis guarantees in both partitions |
| AdmissionLineage.LineageKeepsComposite | python/coretex_validator/eval_artifact.py:1995-2002 | between any two stored states of a lineage quality holds in both partitions |
| AdmissionLineage.LineageKeepsObjectiveSum | python/coretex_validator/eval_artifact.py:2035-2045 | the objective sums of a lineage never end below genesis |
| ResourceLaw.ValidateLaw | python/coretex_validator/eval_artifact.py:606-648 | the scan with its running total and set of seen ids accepts exactly the laws with the pinned format, branch, normalizer and overflow policy, ranged ceilings and scale, non-empty texts, distinct ids, ranged weights and a weight sum of 1,000,000 |
| ResourceLaw.EvaluateSide | python/coretex_validator/eval_artifact.py:754-760 | the accumulating loop over the axes computes the specified ppm or the first axis's refusal; what they are is SidePpmIs and SideRefused |
| ResourceLaw.Evaluate | python/coretex_validator/eval_artifact.py:698-769 | the four ppm values, or the refusal of the first failing step: the law, the canonical cap in both vectors, the composites, the incumbent's axes before the candidate's, the utility ceiling; a resource side never exceeds its own ceiling |
| ResourceLaw.RawTotalMonotone | python/coretex_validator/eval_artifact.py:754-760 | the sum of floors is monotone in every axis |
| ResourceLaw.RawTotalWithinCap | python/coretex_validator/eval_artifact.py:631-647 | every side within C sums to at most the weight total, and a side exactly at C to exactly that |
| ResourceLaw.RawTotalPrecision | python/coretex_validator/eval_artifact.py:754-760 | the floors lose less than one ppm per axis against the exact weighted sum over the reals |
| ResourceLaw.LawReadingsSound | python/coretex_validator/eval_artifact.py:606-675 | under a validated law every reading has a positive cap and the weights total 1,000,000 |
| ResourceLaw.SidePpmMeaning | python/coretex_validator/eval_artifact.py:723-769 | all promises about one side together: range, value at C, monotonicity, and precision below the ceiling |
| ResourceMeaning.SidePpmIs | python/coretex_validator/eval_artifact.py:653-696 | over the side's own counters and the cap's own entries: accepted if and only if every axis has a counter in range and a positive entry, and then the sum of the floors of weight times counter over entry, saturated |
| ResourceMeaning.SideRefused | python/coretex_validator/eval_artifact.py:653-696 | and refused for the first axis that is not so, with the reason of its first failing check |
| ResourceMeaning.RefusalMeans | python/coretex_validator/eval_artifact.py:740-769 | the evaluation refuses for composites out of range, then the incumbent's axes, then the candidate's, then a utility over its ceiling, and for nothing else |
| ResourceMeaning.SidePpmPromises | python/coretex_validator/eval_artifact.py:723-769 | counters equal to the cap's entries give 1,000,000 or the lower ceiling, counters within them never more; the ppm never falls when no counter does; below the ceiling it is less than one ppm per axis short of the exact sum over the reals |
| ByteLength.FixedPointIffSolves | python/coretex_validator/dispatch.py:1461-1489 | the numbers that state their own document's length are exactly C + d for the digit counts d that fit |
| ByteLength.TwoSolutions | python/coretex_validator/dispatch.py:1461-1489 | two digit counts fit only when adjacent and C is 10^d - 1 - d |
| ByteLength.SolutionCount | python/coretex_validator/dispatch.py:1461-1489 | every document has at least one fitting length and at most two, adjacent, and two exactly on a boundary |
| ByteLength.SearchIsDecisive | python/coretex_validator/dispatch.py:1461-1489 | the search over 20 digit counts finds exactly one length if and only if C is covered and not a boundary the search sees |
| ByteLength.Finalize | python/coretex_validator/dispatch.py:1461-1489 | the loop that rewrites the field and collects fits refuses exactly those documents, and what it returns differs only in the field and passes the served-length check |
| ByteLength.BlindSpot | python/coretex_validator/dispatch.py:1461-1489 | at C = 10^20 - 21 two lengths fit but the search tries only one of them, so an ambiguous document is accepted |
| ByteLength.FinalizedUniqueIff | python/coretex_validator/dispatch.py:1876-1878 | a finalized document has a unique length if and only if it is not at that blind spot |
| TransitionReplay.ClosureAcceptedIff | python/coretex_validator/dispatch.py:1571-1631 | the closure check accepts exactly when the declaration names known ids and contains every direct and fan-out profile: containment, not equality |
| TransitionReplay.ApplyMoves | python/coretex_validator/dispatch.py:1759-1766 | the loop over the moves, in any order of the dictionary, succeeds exactly when every expected prior release matches the parent and then gives the order-free map |
| TransitionReplay.Replay | python/coretex_validator/dispatch.py:1686-1825 | the whole replay, with every refusal in the code's order, does not depend on the order of the moves |
| TransitionReplay.ReplayExact | python/coretex_validator/dispatch.py:1686-1825 | with an injective root, replay accepts exactly the edges an order-free definition allows, and returns exactly the artifact's resulting manifest |
| TransitionReplay.ReplayFrame | python/coretex_validator/dispatch.py:1759-1799 | an accepted edit changes only epoch, parent link, composition, moved profiles and epoch-authorised pins; the pins are the resolved ones if there are any and else the parent's, and change only across a strict epoch increase |
| TransitionReplay.DeclarationUnique | python/coretex_validator/dispatch.py:1307-1345 | the strictly sorted declaration of a set is the only accepted list of its members |
| TransitionReplay.NoSilentFanOut | python/coretex_validator/dispatch.py:1588-1631 | a changed shared component has a known entry, and every profile that references it is declared |
| FrontierTransition.ReplayAgreesIff | python/coretex_validator/frontier.py:514-640 | on artifacts with one move, replay accepts and the move changes release and composition if and only if the frontier law reproduces the claimed root and the artifact passes its own checks; what both accept is the same manifest |
| FrontierTransition.CompositionMayStay | python/coretex_validator/frontier.py:568-574 | replay accepts a moved release under an unchanged composition, which the frontier law refuses |
| FrontierTransition.ReleaseMayStay | python/coretex_validator/frontier.py:421-425 | and a release replaced by itself, which the frontier law refuses as well |
| TransitionLineage.HistoryStep | python/coretex_validator/dispatch.py:1740-1825 | one step of a history of replayed artifacts, in terms of the two manifests |
| TransitionLineage.EpochsNonDecreasing | python/coretex_validator/dispatch.py:1778-1783 | over any replayed history epochs never fall |
| TransitionLineage.PinsConstantWithinEpoch | python/coretex_validator/dispatch.py:1771-1799 | between any two manifests of the same epoch the law pins are the same |
| TransitionLineage.ReleaseKept | python/coretex_validator/dispatch.py:1759-1766 | a profile no edge of a stretch moves keeps its release over the stretch |
| TransitionLineage.ReleaseChain | python/coretex_validator/dispatch.py:1759-1766 | each profile's releases form one unbroken chain: every expected prior is the previous mover's new release, the first one the genesis release |
| TransitionLineage.HeadDeterminesHistory | python/coretex_validator/dispatch.py:1800-1825 | with an injective root, histories that end in one manifest agree backwards as far as the shorter reaches |
| TransitionLineage.HistoryIsStated | python/coretex_validator/dispatch.py:1800-1825 | the states of a history are the manifests the artifacts state |
| Words.FromToBig | python/coretex_validator/dispatch.py:220-232 | a number written in w bytes reads back |
| Words.ToFromBig | python/coretex_validator/dispatch.py:220-232 | any bytes are the written form of the number they read as |
| Words.FromBigStep | python/coretex_validator/dispatch.py:220-232 | a byte in front adds itself times 256 to the power of what follows: the first byte is the most significant |
| Words.FromBigIsSum | python/coretex_validator/dispatch.py:220-232 | the number is the sum of the bytes, each times its power of 256 |
| Words.LastByte | python/coretex_validator/dispatch.py:220-232 | behind leading zeros a word reads as its last byte |
| Descriptor.EncodeAcceptsIff | python/coretex_validator/dispatch.py:880-917 | the encoder accepts exactly the 32-byte roots with a non-zero artifact address |
| Descriptor.DecodeEncode | python/coretex_validator/dispatch.py:880-1016 | decoding what the encoder emits returns the three roots and the version |
| Descriptor.EncodeDecode | python/coretex_validator/dispatch.py:918-1016 | bytes any decoding accepts are the encoder's bytes for the decoded roots: one spelling |
| Descriptor.DecodeRefusesFirst | python/coretex_validator/dispatch.py:918-1016 | the refusal code is the first failing check of the stated order, and acceptance means that none fails and the expected roots match |
| Descriptor.EncodeMeans | python/coretex_validator/dispatch.py:880-917 | the emitted 97 bytes: version byte 33, then artifact, parent and new root |
| Descriptor.DecodeMeans | python/coretex_validator/dispatch.py:918-1016 | exactly which bytes decode under which expectations, and to which slices |
| AbiTail.TailAcceptedIff | python/coretex_validator/dispatch.py:248-271 | a payload is read from the tail if and only if all data from an aligned in-range offset on is its canonical padding |
| AbiTail.AdvanceRoundTrip | python/coretex_validator/abi.py:72-75 | padding and encoding an advance, then decoding, returns it |
| AbiTail.GapIgnored | python/coretex_validator/dispatch.py:2009-2027 | any aligned gap between head and tail decodes to the same advance |
| AbiTail.AcceptedIsEncoding | python/coretex_validator/dispatch.py:2009-2027 | accepted data is the encoding of the decoded advance with some gap, and nothing else |
| AbiTail.CanonicalIff | python/coretex_validator/dispatch.py:248-271 | accepted data is the canonical encoding if and only if its offset word is 288 |
| AbiTail.StrayWordAccepted | python/coretex_validator/dispatch.py:248-271 | a concrete stray word between head and tail that the decoder accepts |
| AbiTail.DecodeMeans | python/coretex_validator/dispatch.py:2009-2027 | which data is accepted and as what, byte by byte: six roots, credits and version as sums over the bytes 192 to 255, version below 65,536, and at the aligned offset in the bytes 256 to 287 a length, that many bytes and fewer than 32 zeros to the end |
| EvalBacklog.KeyInjective | src/client-sync-cli.ts:817-819 | two advances share a backlog key only if they share epoch and hash |
| Decimals.DecimalPlace | src/client-sync-cli.ts:817-819 | the epoch's digits in a key are its decimal digits, most significant first and without leading zeros |
| EvalBacklog.MergeMeaning | src/client-sync-cli.ts:828-850 | what merging does to one advance: latest reason and pins, first block, last snapshot named, and nothing else changes |
| EvalBacklog.MergeKeeps | src/client-sync-cli.ts:821-850 | nothing is dropped by a merge and no snapshot reference is lost |
| EvalBacklog.ListingUnique | src/client-sync-cli.ts:851-853 | the order by block, and by key as the collation orders keys, leaves one listing of a backlog |
| EvalBacklog.KeyOrder | src/client-sync-cli.ts:851-853 | of two keys the first differing place decides, where the colon comes before everything and all else goes by code |
| EvalBacklog.UpsertEvalBacklog | src/client-sync-cli.ts:828-854 | the two loops over a Map and the sort give the one ordered listing of the merged backlog, in which blocks never fall and keys rise within a block |
| EvalBacklog.ByKeyOfListing | src/client-sync-cli.ts:828-833 | reading a listing back into a Map gives the entries it lists |
| EvalBacklog.RemoveListing | src/client-sync-cli.ts:856-862 | removal takes out one advance and keeps the rest in order |
| BacklogDrain.VisitAll | src/client-sync-cli.ts:2157-2252 | the loop over a copy of the backlog, removing and re-sorting as it goes, throws exactly when some entry has a secret that does not open its commitment, or a revealed one has the wrong corpus or, with scorer and parent state at hand, an unbound artifact or a failing score; otherwise it ends in a pointwise image of the backlog |
| BacklogDrain.Prescan | src/client-sync-cli.ts:1920-1931 | the early-exit scan decides whether anything is drainable |
| BacklogDrain.DrainPass | src/client-sync-cli.ts:1916-2258 | prescan and loop together, in the same terms: when the pass throws, and entry by entry which leave, which are marked as lacking a scorer and which stay as they were, independent of the visiting order |
| BacklogDrain.AbortsMeans | src/client-sync-cli.ts:1920-2239 | a failing score or an unbound artifact always stops a pass that scores; an unrevealed secret, a missing parent state or a missing scorer never does |
| BacklogDrain.DrainedMeans | src/client-sync-cli.ts:2160-2252 | exactly the entries whose score reproduces on a bound artifact leave; revealed ones without a scorer are marked; all others stay |
| BacklogDrain.LeavesOnlyByPassing | src/client-sync-cli.ts:2160-2239 | an entry leaves only when revealed, resolved, with its parent state, a bound artifact and a passing score; one that stays keeps everything but its reason |
| BacklogDrain.EmptiedIff | src/client-sync-cli.ts:2259-2264 | a pass empties the backlog if and only if every entry passes |
| ArtifactBinding.ParentByRoot | src/client-sync-cli.ts:1887-1888 | the Map of window records answers a parent root with the last record that starts from it |
| ArtifactBinding.HonestBindsIff | src/client-sync-cli.ts:2215-2226 | an entry's own artifact is taken for it if and only if the last advance of the window with its parent root, if there is one, has its epoch, patch, corpus, core version and miner |
| ArtifactBinding.BindsIff | src/client-sync-cli.ts:2215-2229 | exactly what binds: the entry's hash and corpus, and the epoch and pins of the window's last advance with its parent root, or the entry's own if there is none |
| ArtifactBinding.BoundMeans | src/client-sync-cli.ts:678-760 | whatever binds has the entry's parent root, and is the entry's own artifact or has the epoch and pins of an advance of the window |
| ArtifactBinding.SoleParentBinds | src/client-sync-cli.ts:1887-1888 | an advance whose parent root does not come again later in the window binds its own artifact |
| TrustedStaging.OldUntilRenamed | src/client-sync-cli.ts:340-361 | a file no rename has reached yet is wholly old |
| TrustedStaging.NewOnceRenamed | src/client-sync-cli.ts:340-361 | a file a rename has reached is wholly what was staged for it last |
| TrustedStaging.WholeOldOrNew | src/client-sync-cli.ts:340-361 | after any number of renames every file is one or the other |
| TrustedStaging.TrustedStateStaging.Stage | src/client-sync-cli.ts:348-355 | staging writes a sibling file and changes no destination |
| TrustedStaging.TrustedStateStaging.Commit | src/client-sync-cli.ts:357-361 | the rename loop commits every write in stage order; the states before, between and after its renames are the partial commits, one after the other |
| TrustedStaging.TrustedStateStaging.Dispose | src/client-sync-cli.ts:363-369 | disposal removes every staged file and changes no destination |
| TrustedStaging.TrustedStateStaging.GcEvalParentSnapshots | src/client-sync-cli.ts:920-945 | collection removes exactly the snapshots that no live reference names and whose removal does not fail |
| TrustedStaging.TrustedStateStaging.CommitTrustedStateAndMaybeGc | src/client-sync-cli.ts:947-964 | with a version mismatch nothing is written or removed; otherwise the whole commit and then the collection |
| SyncChain.WindowExact | src/client-sync-cli.ts:1708-1726 | every advance in the block window is fetched |
| SyncChain.SliceReplaysIff | src/replay/coretex-registry.ts:246-309 | replaying a stretch of the chain from the root before it gives the root after it if and only if every advance carries its epoch's pins and its patch leads to its root, and no epoch enters the stretch half-way, which is refused as out of order |
| SyncChain.ChainSorted | src/replay/coretex-registry.ts:240-241 | the order by epoch and transition index is the registry's order of advances, so sorting the window's logs changes nothing |
| SyncChain.IndicesIff | src/replay/coretex-registry.ts:248-255 | the replay's indices, counted from 0 in every epoch, fit a stretch of the chain if and only if none of its epochs began before it |
| SyncChain.FreshIff | src/replay/coretex-registry.ts:248-255 | and that holds exactly when its first advance is the first of its epoch |
| SyncChain.SettledWhenLast | src/replay/coretex-registry.ts:310-317 | the last seal of a window is the root at its end when no advance of a later epoch follows |
| SyncChain.OwnPins | src/client-sync-cli.ts:1726-1756 | every advance is held against the pins of its own epoch |
| SyncChain.SealPinsIff | src/replay/coretex-registry.ts:335-353 | the last seal is held against its own epoch's pins if and only if that epoch has an advance in the window or the pins of the synced one |
| SyncChain.WindowReplaysIff | src/replay/coretex-registry.ts:216-353 | a window that starts right after its parent's block replays, and then to the registry's root at the head, if and only if its advances are genuine, no epoch enters it half-way, its last seal if any is of an epoch with an advance in it or with the synced epoch's pins, and that seal is the root at its end; and with which code the other windows are refused |
| ReplayMeaning.ReplayedMeans | src/replay/coretex-registry.ts:216-353 | for any window and any starting root, whether or not they are the chain's: the replay is accepted if and only if every advance is the next of its epoch, starts from the root the one before it left, carries its epoch's pins and moves by its own patch, and the last seal has the root at the end and pins it is held against |
| ReplayMeaning.RefusedMeans | src/replay/coretex-registry.ts:248-353 | and a refusal names the first advance that does not follow and the first of its checks that fails, or else the first field in which the seal differs |
| SyncSafety.PendingCovers | src/client-sync-cli.ts:1630-1656 | default windows leave no gap: every advance up to the new cursor was covered before or is pending |
| SyncSafety.SnapshotsStayTrue | src/client-sync-cli.ts:1876-1882 | any partial commit, with or without collection, leaves every parent snapshot holding the state it is named after |
| SyncSafety.CommittedStateOk | src/client-sync-cli.ts:2259-2323 | after a pass that ran to its end, with any part of the collection done, the new state file is right about root, corpus, counts, backlog, snapshots, coverage and verification |
| SyncSafety.CountsCarry | src/client-sync-cli.ts:1782-1803 | counting on from the saved tally, or from none beside a fresh start, gives the registry's transition count of every epoch at the new cursor |
| SyncSafety.CrashedStateOk | src/client-sync-cli.ts:2304-2323 | after a crash between any two renames the old state file still is |
| SyncSafety.StepKeepsSound | src/client-sync-cli.ts:1916-2323 | every event keeps the invariant: completed, aborted, crashed, scoring-skipped and read-only passes, and the loss of the substrate snapshot or of the whole directory |
| SyncSafety.NoReplayLost | src/client-sync-cli.ts:1860-1882 | after any sequence of such events from a new client, every accepted advance at or below the committed cursor has passed its replay or is in the backlog with its own pins and its true parent snapshot on disk |
| SyncSafety.ClaimsAreTrue | src/client-sync-cli.ts:2259-2297 | the recorded root and the recorded transition count of every epoch are the registry's at the cursor, the recorded corpus is that of the recorded epoch, the backlog holds accepted advances only, and a verified-through block means that everything up to it has passed |
| SyncMeaning.LiveRootMeans | src/client-sync-cli.ts:1289-1291 | the root a pass is held against is the one left by the last advance of the epoch or an earlier one up to the block |
| SyncMeaning.TransitionCountMeans | src/client-sync-cli.ts:1289-1291 | and the count is the number of the epoch's advances up to the block |
| SyncMeaning.WindowEntry | src/client-sync-cli.ts:1860-1882 | the entry of an advance in the window: its epoch, hash and pins, waiting for the secret, with its own snapshot, under the block it was first seen at |
| SyncMeaning.OlderEntry | src/client-sync-cli.ts:1860-1882 | every other entry is the saved one, unchanged |
| SyncMeaning.CommitMeans | src/client-sync-cli.ts:2259-2304 | the fields a completed pass writes, among them the verified-through block, which moves to the cursor exactly when a scoring pass leaves nothing owed |
| SyncMeaning.AbortedMeans | src/client-sync-cli.ts:1545-2239 | what stops a pass, in terms of key, corpus roots, replay and each entry's secret, scorer, parent state, binding and score |
| SyncMeaning.SettledIff | src/client-sync-cli.ts:2160-2239 | an owed entry leaves a scoring pass that goes through if and only if its secret is revealed, it has a scorer, and its parent state comes from an advance of the window or from its own snapshot with the pinned root |
| SyncProgress.ReplaysIff | src/client-sync-cli.ts:1692-1803 | with a matching snapshot and a head at or above the cursor, replay is accepted if and only if the window replays, as WindowReplaysIff says, and the synced epoch's root is the root; below the cursor, if and only if root and transition count are still those of the cursor |
| SyncProgress.CrashRefusedIff | src/client-sync-cli.ts:1695-1700 | after a crash between the substrate's rename and the state file's the next pass refuses the snapshot if and only if the pass had moved the root |
| SyncProgress.RefusedStays | src/client-sync-cli.ts:1695-1700 | while the snapshot is refused no sequence of passes changes anything |
| SyncProgress.LossRecovers | src/client-sync-cli.ts:1630-1704 | deleting the snapshot keeps the invariant, and replay is then accepted if and only if the whole chain up to the head replays as one window to the synced epoch's root |
| SyncProgress.LossPassIff | src/client-sync-cli.ts:1309-1321 | and the pass after it, if nothing outside the model stops it, goes through if and only if the chain replays that way, the key is the pinned one and the epoch's delta leads from the corpus of the last completed pass to the epoch's |
| SyncProgress.DirectoryLossPassIff | src/client-sync-cli.ts:1309-1321 | with the whole directory gone, if and only if the chain replays that way and the delta leads from the launch corpus to the epoch's |
| SyncProgress.LossReopens | src/client-sync-cli.ts:1876-1882 | the overlapping window puts every advance back, verified ones included, so verified and backlog are no partition |
| SyncProgress.ParentAlwaysReady | src/client-sync-cli.ts:1883-1897 | no owed entry lacks its parent state, whichever window it was first seen in |
| SyncProgress.ScorablePassIff | src/client-sync-cli.ts:1558-2239 | with every secret out and every artifact honest and reproducing, a pass goes through if and only if its key is the pinned one, its delta continues the local corpus, it replays, and no entry's parent root was left again in the window by a different advance; it then leaves nothing pending |
| SyncProgress.ScorablePassClears | src/client-sync-cli.ts:2157-2264 | one undisturbed pass of that kind clears the whole backlog and records its cursor as verified |
| SyncRefusals.CaughtRefuses | src/replay/coretex-registry.ts:248-255 | with the cursor between two advances of one epoch and a snapshot on disk, no pass gets to the second of them |
| SyncRefusals.CaughtStays | src/replay/coretex-registry.ts:248-255 | nor does any sequence of completed, aborted, crashed or read-only passes, while the snapshot is kept |
| SyncRefusals.CaughtForGood | src/replay/coretex-registry.ts:248-255 | any pass that completes with its head between the two leads there: from then on the cursor stays below the second advance and every pass with a head from it on is refused |
| SyncRefusals.SealPinsRefuse | src/replay/coretex-registry.ts:311-313 | with the cursor between the last advance of an epoch and its seal, no pass of an epoch with other pins gets past that seal while it is the last one |
| SyncRefusals.CrashForGood | src/client-sync-cli.ts:1695-1700 | a pass that moves the root and crashes between the substrate's rename and the state file's is the last one to get anywhere |
| SyncExamples.SplitEpochRun | src/replay/coretex-registry.ts:248-255 | a reachable run: a new client syncs two advances of epoch 1 at head 10, between their blocks, and is refused at every head from 11 on, whatever passes it makes in between; with the snapshot deleted any such head goes through |
| SyncExamples.SealPinsRun | src/replay/coretex-registry.ts:311-313 | a reachable run: a new client passes epoch 1 at head 11, with the seal in block 12 and other pins for epoch 2; no pass of epoch 2 goes through at any head from 12 on, though its delta continues the corpus, while a pass of epoch 1 at head 12 does |
| SyncExamples.CrashRun | src/client-sync-cli.ts:2304-2323 | a reachable run: a new client completes one pass, the second moves the root and crashes between the two renames, and no pass after that goes through or changes anything |
| SyncExamples.RotatedRun | src/client-sync-cli.ts:1614 | a reachable run: where epoch 1's delta changes the corpus, a new client passes epoch 1 once and never again, with the snapshot or without it, until the whole directory is gone |
| SyncExamples.LateClientStuck | src/replay/coretex-registry.ts:310-317 | with epoch 1 sealed in block 12 and an advance of epoch 2 in block 13, no run of passes with heads from 13 on, and no loss of snapshot or directory, gives a new client a state file |
| SyncExamples.TimelyClientGoesOn | src/replay/coretex-registry.ts:310-317 | while a client whose cursor is 12 replays block 13 |
| SyncExamples.CycleRefused | src/client-sync-cli.ts:1887-1888 | where the root goes from P to A, back to P and on to B in one window, the replay is accepted and a scoring pass with nothing but honest artifacts is not |
| SyncExamples.CycleStuck | src/client-sync-cli.ts:2215-2226 | no run of such passes gives a new client a state file |
| SyncCorpus.SecondPassRefused | src/client-sync-cli.ts:287-294 | after a completed pass of an epoch whose delta changes the corpus, a second pass of it is refused at any head |
| SyncCorpus.RotatedForGood | src/client-sync-cli.ts:287-294 | and stays refused over every sequence of passes of that epoch and losses of the snapshot |
| SyncCorpus.CompletedFollow | src/client-sync-cli.ts:2289-2297 | over every run without an override or loss of the directory, each completed pass's delta leads on from the corpus of the completed pass before it |
| SyncCorpus.OncePerRotation | src/client-sync-cli.ts:1309-1321 | on linear deltas at most one pass completes in an epoch that changes the corpus |
| SyncCorpus.RotationsOnce | src/client-sync-cli.ts:1309-1321 | over every such run each epoch that changes the corpus, between two in which passes completed, sees exactly one completed pass: none twice, none skipped |
| SyncKeys.PinKept | src/client-sync-cli.ts:302-310 | a pinned signing key survives every event but the loss of the directory |
| SyncKeys.PinSet | src/client-sync-cli.ts:1569-1572 | a key is pinned only by a pass that goes through, and is the one that pass was served |
| SyncKeys.KeyForGood | src/client-sync-cli.ts:302-310 | over every run that keeps the directory the pinned key stays, and every pass served another one is refused |
| SyncSchedule.ScheduleIff | src/client-sync-cli.ts:1545-2323 | over every run of regular passes, with scoring or without, a client completes all of them if and only if their epochs and heads form a schedule: a condition on the chain alone, stop by stop |
| SyncSchedule.EpochByEpochOk | src/client-sync-cli.ts:1545-2323 | syncing every epoch once, after its last advance and before the next epoch's first or any other seal, is such a schedule wherever advances are genuine and deltas are published in line |
| SyncPass.ReplayFromLogs | src/replay/coretex-registry.ts:216-323 | the replay loop with its expected index per epoch, pins, parents and patches, and the final checks of the last seal's pins and root, computes the specified replay with its first refusal code |
| SyncPass.CountWindow | src/client-sync-cli.ts:1782-1792 | the counting loop adds to each epoch's tally the window's advances of that epoch |
| SyncPass.StageWindow | src/client-sync-cli.ts:1876-1881 | each advance of the window gives its entry and, unless read-only, its staged snapshot, in order |
| SyncPass.RunSync | src/client-sync-cli.ts:1545-2323 | the imperative pass refines the transition system: an aborted or read-only pass leaves every destination unchanged, any other is a completed step |
| CorpusCache.HeldIff | src/client-sync-cli.ts:1215-1221 | a key is among the newest n exactly when it was used and fewer than n other keys were used since |
| CorpusCache.RunFills | src/client-sync-cli.ts:1215-1221 | after a run of at least n different keys, whatever came before, exactly its last n are held |
| CorpusCache.MaterializedCorpusCache.Get | src/client-sync-cli.ts:1226-1231 | a hit returns the corpus last stored and refreshes its recency; a miss changes nothing |
| CorpusCache.MaterializedCorpusCache.Set | src/client-sync-cli.ts:1233-1242 | the cache holds exactly its most recently used distinct keys up to the limit, with their last stored corpora; the one just stored is among them unless nothing is held |
| CorpusWalk.AutoResolveCorpusByRoot | src/client-sync-cli.ts:1079-1128 | the walk succeeds exactly when some fold of at most maxDeltas published, signed, applying deltas has the target root, and stops at the first; every reported intermediate is a fold, and a walk that misses reports as many as the bound or the chain allows |
| CorpusWalk.SuccessIsSignedRun | src/client-sync-cli.ts:1060-1078 | every success is an unbroken run of consecutive, published, signed, chaining deltas, and the result itself has the target root |
| CorpusWalk.FoldSplit | src/client-sync-cli.ts:1093-1125 | folding on from an intermediate corpus is folding from the base |
| CorpusWalk.ChooseAutoResolveWalkStart | src/client-sync-cli.ts:1173-1193 | the first corpus with the greatest epoch not above the bound, with its next epoch and distance; none exactly when there is none or one sits at the bound |
| CorpusResolver.FoldChain | src/client-sync-cli.ts:2104-2109 | on a linear chain the fold from any epoch follows the chain and stops at its end |
| CorpusResolver.ResolvesIff | src/client-sync-cli.ts:2065-2115 | on a linear chain with distinct roots an uncached target resolves if and only if no corpus at hand lies beyond the target's own epoch within the bound, and then to the chain's corpus |
| CorpusResolver.CacheMakesNoDifference | src/client-sync-cli.ts:2065-2115 | when an entry pins the newest corpus published for its epoch, resolution always succeeds with the fold of all deltas from the launch base, whatever is cached or evicted |
| CorpusResolver.MissMeansLagging | src/client-sync-cli.ts:1159-1193 | on a linear chain a miss means that the delta after the target's own epoch is published, for an epoch not above the entry's |
| CorpusResolver.AnswersAreTrue | src/client-sync-cli.ts:1109-1119 | whatever a resolution returns has the target root |
| CorpusDrain.AutoResolver.Candidates | src/client-sync-cli.ts:2081-2098 | the scan offers the base, the loaded corpus if its epoch is known, and every cached corpus of known epoch within the bound, and evicts nothing |
| CorpusDrain.AutoResolver.RecordAll | src/client-sync-cli.ts:2055-2059 | every intermediate of a walk is stored, in order, and its epoch noted |
| CorpusDrain.AutoResolver.AutoResolveCorpusForEntry | src/client-sync-cli.ts:2065-2115 | the resolver's answer, the walk it makes and the cache uses it adds, as functions of what was at hand before it; a corpus returned is in the cache afterwards; on any linear chain the epochs it learns, also from failed walks, are true |
| CorpusDrain.AutoResolver.ResolveEntries | src/client-sync-cli.ts:2157-2200 | a whole drain of entries that pin the newest corpus of their epochs resolves each of them to the chain's corpus, through every walk and eviction on the way |
| CorpusDrain.AutoResolver.ResolveFirst | src/client-sync-cli.ts:2050-2115 | a drain's first resolution leaves in the cache exactly the last corpora up to the target, as many as it has room for |
| CorpusDrain.ResolveLagging | src/client-sync-cli.ts:2020-2115 | a fresh resolver that has resolved epoch t's corpus, and then meets an entry of that epoch or a later one that pins a corpus evicted on the way, leaves it pending, though the launch base reaches it |
| CorpusDrain.LaggingPin | src/client-sync-cli.ts:1213 | that run with the source's room for four corpora, on a chain of seven epochs |
| LengthBuckets.Order | scripts/reranker_runner.py:218-239 | all prompts, each once, shorter before longer and equal ones in their own order |
| LengthBuckets.ChunkAt | scripts/reranker_runner.py:236-239 | bucket k is the run of the order from place k times w on, w long or up to the end |
| LengthBuckets.BucketsCover | scripts/reranker_runner.py:218-239 | the buckets name every prompt and nothing else |
| LengthBuckets.OneBucket | scripts/reranker_runner.py:218-239 | every prompt lies in exactly one bucket, and there in one place |
| LengthBuckets.ScoreLegacy | scripts/reranker_runner.py:352-357 | the arrival-order loop, with its failure at batch size 0 and its empty result below 0 |
| LengthBuckets.Scatter | scripts/reranker_runner.py:371-375 | one bucket's scores are written to its prompts' places and nowhere else |
| LengthBuckets.ScoreBuckets | scripts/reranker_runner.py:369-375 | bucketing then scattering gives every prompt its own score |
| LengthBuckets.ScoreBucketed | scripts/reranker_runner.py:358-375 | the default path equals scoring prompt by prompt |
| LengthBuckets.PathsAgreeIff | scripts/reranker_runner.py:350-375 | the two paths agree if and only if there is nothing to score or the batch size is positive |
| PaddingCost.TallBatchesAtLeast | scripts/reranker_runner.py:224-228 | a length needs a batch for every w prompts that reach it, however they are arranged |
| PaddingCost.SortedTallRuns | scripts/reranker_runner.py:238-239 | full sorted runs use no more batches than that |
| PaddingCost.SortedIsOptimal | scripts/reranker_runner.py:236-239 | when the prompts fill their batches, sorted bucketing has the least padded tokens of all arrangements |
| PaddingCost.RaggedNotOptimal | scripts/reranker_runner.py:236-239 | with a ragged last batch there are lengths for which an arrangement beats it |
| PaddingCost.OptimalIff | scripts/reranker_runner.py:236-239 | it is optimal for all lengths if and only if the prompts fill their batches or fit in one |
| JobQueue.ScorerJobQueue.constructor | src/scorer-server-cli.ts:674-680 | options below their minimum are raised to no waiting room and one slot |
| JobQueue.ScorerJobQueue.Drain | src/scorer-server-cli.ts:682-692 | the loop starts waiting jobs in order, as many as slots are free |
| JobQueue.ScorerJobQueue.Enqueue | src/scorer-server-cli.ts:695-709 | a submission is refused exactly when the waiting room is full, and otherwise taken last |
| JobQueue.ScorerJobQueue.Complete | src/scorer-server-cli.ts:686-691 | a completion frees its slot and drains |
| JobQueue.SubmitKeepsInv | src/scorer-server-cli.ts:695-709 | submissions keep the limits, and nothing waits beside a free slot |
| JobQueue.FinishKeepsInv | src/scorer-server-cli.ts:686-691 | so do completions, each lowering what is outstanding by one |
| JobQueue.RunSafe | src/scorer-server-cli.ts:669-716 | over every run the invariant holds, jobs accepted are exactly those submitted in time and in order, and starts and completions only grow |
| JobQueue.NeverStuck | src/scorer-server-cli.ts:682-692 | while anything is outstanding some job runs |
| JobQueue.CompletionsDrain | src/scorer-server-cli.ts:686-691 | as many completions as jobs outstanding finish every accepted job, each exactly once |
| JobQueue.IdleRefusalIff | src/scorer-server-cli.ts:695-703 | a submission is refused beside a free slot only with a waiting room of zero |
| JobQueue.NoRoomRefusesAll | src/scorer-server-cli.ts:674-703 | and such a queue refuses everything it ever gets |
| SyscallFilter.ProgramOfPacked | python/coretex_validator/benchmark_replay.py:378-379 | the packed bytes read back as the instructions |
| SyscallFilter.FamiliesSearched | python/coretex_validator/benchmark_replay.py:389-392 | from the comparison for family i on, the program decides membership in the rest of the list |
| SyscallFilter.FilterMeetsPolicy | python/coretex_validator/benchmark_replay.py:386-392 | interpreted, the program returns the error action exactly when the architecture differs or the call is socket with a listed first argument, and allow otherwise |
| SyscallFilter.PolicyMeans | python/coretex_validator/benchmark_replay.py:386-392 | the two answers are 0x00050001, on another architecture or a socket call with a listed family, and 0x7fff0000 |
| SyscallFilter.FilterWellFormed | python/coretex_validator/benchmark_replay.py:386-392 | no jump leaves the program |
| SyscallFilter.Build | python/coretex_validator/benchmark_replay.py:378-392 | the byte-appending loop succeeds exactly when every field fits its packing; the bytes are then these records, field by field and in numbers, low bytes first, and the program they make computes the policy |
| KeccakLanes.RolMoves | python/coretex_validator/keccak256.py:51-53 | the two shifts joined and masked are a rotation |
| KeccakOffsets.OffsetsAreTriangular | python/coretex_validator/keccak256.py:36-42 | the rotation table has the offsets of section 3.2.2 of FIPS 202 |
| KeccakConstants.ConstantsAreStandard | python/coretex_validator/keccak256.py:25-33 | every round constant is the one the shift register of section 3.2.5 of FIPS 202 gives |
| KeccakF.PiBijective | python/coretex_validator/keccak256.py:65-68 | rho with pi sends each of the 25 lanes to exactly one place |
| KeccakF.XorColumns | python/coretex_validator/keccak256.py:61-63 | the theta loop in place |
| KeccakF.RhoPiScatter | python/coretex_validator/keccak256.py:65-68 | the scatter loop fills every place with the rotated lane the gather equation names |
| KeccakF.ChiBack | python/coretex_validator/keccak256.py:70-72 | the chi loop writes the chi equation of the scattered lanes |
| KeccakF.PermuteInPlace | python/coretex_validator/keccak256.py:56-75 | 24 rounds in one array equal the composed step mappings |
| KeccakInjective.SpreadInjective | python/coretex_validator/keccak256.py:59-60 | the effect of theta on column parities can be undone: six squarings lead round the 64-bit lane |
| KeccakInjective.ThetaInjective | python/coretex_validator/keccak256.py:59-63 | theta loses nothing |
| KeccakInjective.ChiInjective | python/coretex_validator/keccak256.py:70-72 | chi loses nothing |
| KeccakInjective.PermuteInjective | python/coretex_validator/keccak256.py:56-75 | the permutation as coded, with its table and constants, takes different states to different states |
| KeccakRefines.ThetaIs | python/coretex_validator/keccak256.py:58-63 | theta as coded is theta of FIPS 202 on every bit |
| KeccakRefines.RhoPiIs | python/coretex_validator/keccak256.py:65-68 | the scatter is rho with the offsets of table 2 followed by pi |
| KeccakRefines.ChiIs | python/coretex_validator/keccak256.py:70-72 | chi as coded is chi |
| KeccakRefines.ConstantMatches | python/coretex_validator/keccak256.py:25-33 | each round constant has the shift register's outputs at the bits 2^j - 1 and zeros elsewhere |
| KeccakRefines.PermuteIs | python/coretex_validator/keccak256.py:56-75 | the 24 rounds as coded are Keccak-f[1600] of FIPS 202, bit for bit |
| KeccakPadding.Pad | python/coretex_validator/keccak256.py:84-89 | the growing buffer gives the closed form of the padding, whose bits are the message's, a one, fewer than 1088 zeros and a one, up to a multiple of 1088 |
| KeccakPadding.UnpadPad | python/coretex_validator/keccak256.py:84-89 | the message can be read back off its padding |
| KeccakPadding.PaddingInjective | python/coretex_validator/keccak256.py:84-89 | the padding is injective over all byte strings |
| KeccakPadding.PaddedLeast | python/coretex_validator/keccak256.py:84-89 | it keeps the message as a prefix and ends at the least multiple of 136 above its length |
| KeccakSponge.AbsorbBlock | python/coretex_validator/keccak256.py:93-96 | the lane loop adds the block to the first 17 lanes, column by column |
| KeccakSponge.AbsorbAll | python/coretex_validator/keccak256.py:92-97 | the block loop is the fold of absorption and permutation |
| KeccakSponge.Squeeze | python/coretex_validator/keccak256.py:99-107 | the squeeze loop stops after the fourth lane with the state's first 32 bytes; its second permutation is never reached |
| KeccakSponge.BlockMatters | python/coretex_validator/keccak256.py:92-97 | from one state different blocks lead to different states |
| KeccakSponge.DifferentEndsDiffer | python/coretex_validator/keccak256.py:84-97 | messages of equally many blocks that differ only in the last one never reach one state |
| KeccakDigest.AbsorbedIs | python/coretex_validator/keccak256.py:93-96 | adding a block to the lanes is adding its bits and 512 zeros to the 1600-bit state |
| KeccakDigest.SqueezedIs | python/coretex_validator/keccak256.py:99-107 | the digest bytes are the first 256 bits of the state |
| KeccakDigest.DigestIs | python/coretex_validator/keccak256.py:78-107 | the digest of any bytes is what the sponge of FIPS 202, section 4, with pad10*1, rate 1088 and Keccak-f[1600] gives for their bits |
| KeccakDigest.Keccak256 | python/coretex_validator/keccak256.py:78-107 | the whole function in one array computes that digest, 32 bytes of it |

## Left out

- Signature schemes, SHA-256, Merkle trees and canonical JSON: content addresses are an abstract
  injective `root`, signatures an abstract predicate.
- HTTP, RPC, downloads, subprocesses, environment bootstrap, progress output and command lines.
- Model inference and floating point: the scorer is an opaque function of one prompt.
- The remaining field-by-field validators and pin-equality checks: one branch settles each. In a
  sync pass they are the flag `checkFails`: the bundle version, the rotation manifest's own fields,
  the secret commitment of the synced epoch and manually supplied artifacts.
- The eval report's measurement projection and the receipt arithmetic around the admission law.
- Lower-casing of hashes and roots: names are taken as already normalised.
- The choice between loaded, operator-supplied and auto-resolved contexts: an entry that pins the
  loaded corpus never reaches the resolver, which is why the resolver's theorems exclude it.
- Launch-recovery pins, `--from-block` and `--parent-state`: only default contiguous windows.
- Chain reorganisations below the confirmation depth; the registry's own rules (advances chain,
  epochs and blocks never fall, indices count each epoch from 0, one advance per epoch and report
  hash, nothing of an epoch after its seal, a seal states its epoch's pins and the root its epoch
  ended with, an epoch's live root is the one its last advance left) are assumptions on the chain.
- One signed corpus delta per epoch. `--previous-corpus-root` and a re-run of setup, which writes the
  launch corpus into the state file, are the pass's `override`.
- Patches are abstract: the lane's `apply` names states by their roots, and `pins.patchHash` stands
  for the semantic patch hash that artifacts are bound by.
- Parsing of the state file and of snapshot bytes: file contents are records and packed roots.
- EvalBacklog.UpsertEvalBacklog: takes `localeCompare` on keys of digits, a colon and lower-case hex in the root collation, where the colon comes before the digits; a host locale with rules of its own for these letters is not modelled.
- BacklogDrain.DrainPass: takes an entry's secret, context and score as facts of the pass; the resolver behind the context is modelled in `CorpusDrain`, and the binding of its artifact is computed from the window in `SyncRuns`.
- BacklogDrain.VisitAll: takes the same facts as given, entry by entry.
- BacklogDrain.EmptiedIff: takes the same facts as given, entry by entry.
- ResourceLaw.Evaluate: compares the two vectors' suite block and caps with the canonical ones; the vectors' own schema checks are left out.
- SyncPass.RunSync: lets the unspecified mandatory checks fail in one place, after the drain; wherever they fail nothing has been renamed.
- CorpusDrain.AutoResolver.AutoResolveCorpusForEntry: records a walk's intermediates after the walk instead of during it; nothing reads them in between.
- CorpusResolver.ResolvesIff: takes the published deltas to be exactly the chain's, and roots to be injective.
- FrontierTransition.ReplayAgreesIff: leaves out the transition document's byte bound, which fixed-width roots never reach, and a pin that is an empty string.
- JobQueue.ScorerJobQueue.Enqueue: does not model the promise handed to the caller or options that are not numbers.
- KeccakDigest.Keccak256: works on bytes and lanes as bit sequences, least significant first; Python's integer operators are given their bit meaning.
- SyscallFilter.Build: does not model installing the filter; the interpreter has the four instructions the generator emits.
- Archive building and checking, and small selectors such as policy lookup or thread defaults, would only add easy members.
