# Blackhole Guard: a verified model

The modelled system diagnoses silent packet loss on multi-hop paths. It finds the smallest set of faulty elements that
explains the failed probes, fences authority over bad paths in two durable phases, and survives restarts through a
journal and a snapshot. This project models its five hard parts in Dafny and proves what each is for.

**Localization** (`Words` to `Publication`). A budgeted exact minimum hitting-set solver. The imperative layer works on
64-bit words and objects as the source does; `Words` proves that the word operators act as set operators, and every
method is proved equal to a function on sets of positions. About those functions: the memoised oracle is exact within
its budget, the enumerator lists the minima in order, a proven answer is the lexicographically first minimum hitting
set, infeasibility is reported exactly when nothing hits, the answer does not depend on how the failure sets were
written down (reordered, repeated, or with supersets added), the exhaustive reference agrees, and the verifier is sound
and (up to 18 candidates) complete. `Chains` bounds the nodes of one oracle search; `Uniqueness` says exactly when the
status and the node count mean what the documentation says. `Budgets` computes, from the number of candidates and the
greedy answer, a node budget that guarantees a proof.

**Durable store** (`Bytes`, `Records`, `Journal`, `Domain`, `Store`, `StoreRuns`, `Totals`, `Restart`, `LiveStore`,
`Openings`). Journal bytes are real bytes with their checksums. `Store.Meaning` says what a history of records stands
for; live commits and replay are both proved to follow it. `StoreRuns` is a machine of commits, checkpoints, crashes at
any byte and openings. Over every run an opening refuses or rebuilds exactly the durable history, and when it refuses is
said exactly. The kept lineage and the fence table of a history are told from its records alone; `Totals` follows the one
counter on which replay and the live store part. `Restart` and `LiveStore` add the opening itself: greater epochs, one
interruption and one revocation for each open fence, none left open. `Openings` makes a whole opening a run of the
machine: crashed and read back, every fence it found open is ended for good.

**Fences and engine** (`Fences`, `Engine`, `Accounts`, `Agreement`, `EngineRuns`, `Examples`). The registry's accounting,
and the two-phase protocol of evaluation and restoration. In every reachable state the open fences share one generation
vector, at most one exists for a subject, each is open in the durable table as well, and a decision that did not become
durable leaves no fence behind it in memory. `Accounts` says over every run which calls leave an attempt unaccounted for,
and `Agreement` which calls leave a fence open in the durable table that memory has ended. `EngineRuns` puts the engine on
the store that crashes: what it has open in memory is what a recovery reads back as open, and what the next opening
fences. `Examples` gives concrete runs that meet these hypotheses, and one that does not.

**Frames and checksum** (`Crc`, `Frames`). The table-driven CRC-32C equals the bit-serial division register of RFC 4960,
appendix B; the in-place frame decoder equals a parser of the whole stream, however the bytes are cut.

**Evidence ledger** (`Ledger`). Conservation identities over every run, and acceptances that climb strictly, so that one
sequence number of one source is accepted at most five times.

Where the code does less than its documentation, the model follows the code:

- The documentation calls `Resolved` a unique minimum. The code also reports it when enumeration was cut after one
  solution (`ResolvedNotUnique` is an input). A complete enumeration, or a caller who asks for two and spends no budget,
  gets it exactly for the only minimum (`ResolvedWhenComplete`, `ResolvedForCaller`, and with a budget computed
  beforehand `EnoughProves`); asked for one, it is always reported (`ResolvedAtOne`). The reference's uniqueness flag is
  wrong for the same bound (`ReferenceFlag`).
- Above 18 candidates the verifier compares a mask of candidates with a mask of sets. It therefore refuses correct
  answers, and accepts exactly those that name the first candidates (`VerifierLargeExact`, `OneFailureVerdict`,
  `PublishedLarge`); and it does not fold the size check into its verdict (`VerifierSoundLarge`, `LongAnswerAccepted`).
- The reported node count leaves out the oracle nodes spent during enumeration (`NodeCountShort` is an input). Of a
  proven answer it is the whole count exactly when one element suffices (`NodeCountExact`). So "the budget was spent" is
  said of the counters themselves (`BudgetSpent` in `LocalizeIndeterminate`).
- A crash between the replacement of the snapshot and the truncation of the journal makes every later opening refuse
  exactly when the journal holds a record (`RecoverHalfDone`, `RefusedForever`; `HalfDoneReached` is a run); the branch
  that would skip records already in the snapshot is never reached.
- Bounds are enforced when reading, not when writing. `CrashSafety` says exactly which states an opening refuses. A
  record that passes the byte bound is appended (`BytesOvershot` is a run). A fence record that finds the table full is
  durable before it is noticed, and replay refuses it from then on (`FullTableRefuses`; `FullTableReached` is a run).
- Replay counts an intent record whose fence is already in the table once more than the live store (`TotalsAgree`,
  `TotalsOverRuns`).
- A fence that ends in memory can stay open in the durable table: when the record of its end, or of its decision, is not
  taken, and whenever it lapses on an acknowledgement or an effect report. `OpenFencesAgree` says exactly when the fences
  open in the table are those open in memory.
- The frame decoder refuses a chunk that overfills its buffer even when it holds whole frames (`TwoInOneChunk`,
  `TwoFramesRefused`); `ChunkingExact` says what arrives however the bytes are cut.
- After an opening the live policy version can be stale (`PolicyVersion` says exactly when, `StaleVersion` gives the way).
- The first accounting identity of the registry fails for requests that are not well formed, for lifetimes out of range
  and for staged intents that are not recorded (`AttemptsAccounted` by the guards, `FailingAsks` with two requests).
  `ClosedExact` and `EngineClosedExact` say over every run when both identities hold.
- A minted identity that collides with that of an open fence overwrites its durable record; the engine's invariant is
  kept exactly by the evaluations that mint no such identity (`EvaluateExact`, `RunExact`; `Collision` is an input).

## Model

| member | source | states |
|---|---|---|
| `Words.BitsAnd` | src/localize/localizer.cpp:208 | Masking two words intersects the sets of positions they hold. |
| `Words.BitsWithout` | src/localize/localizer.cpp:155 | Clearing one word's bits from another removes exactly its positions. |
| `Words.BitsWithBit` | src/localize/localizer.cpp:97 | Setting bit i adds exactly position i, for every i below 64. |
| `Words.BitsZero` | src/localize/localizer.cpp:140 | A word is zero exactly when it holds no position, so the zero test is the empty-set test. |
| `Words.BitsInjective` | src/localize/localizer.cpp:170-177 | Distinct words stand for distinct sets, so a memo keyed by words is a memo keyed by sets. |
| `Orders.SortUniqueSpec` | src/localize/localizer.cpp:50-51 | Sorting and removing repeats gives the ascending list of the same elements. |
| `Problem.Validate` | src/localize/localizer.cpp:265-323 | Validation accepts exactly the well-formed inputs, and names the two capacity refusals exactly. |
| `Problem.CandidateCount` | src/localize/localizer.cpp:279-283 | For an ascending healthy list in range, the difference that validation bounds is the true number of candidates. |
| `Problem.EmptyTraceInfeasible` | src/localize/localizer.cpp:52-58 | A failure set with no live element cannot be hit by any candidates. |
| `Reduction.SortRaw` | src/localize/localizer.cpp:67-74 | The order used by the reduction is by size and then contents, and keeps every entry. |
| `Reduction.KeepMinimal` | src/localize/localizer.cpp:76-88 | One pass keeps exactly the inclusion-minimal live sets, each once, by size and then lexicographically. |
| `Reduction.ElementsToMask` | src/localize/localizer.cpp:117-126 | The mask of a list holds exactly the positions of those of its elements that are candidates. |
| `Reduction.BuildMasks` | src/localize/localizer.cpp:103-113 | Set words and cover words are the two readings of one membership relation, and the full mask holds every kept set. |
| `Reduction.Reduce` | src/localize/localizer.cpp:33-115 | The reduced system: all live candidates, the minimal sets with the failure sets they came from, the masks, and the first empty set. |
| `Reduction.KeptPreserveHitting` | src/localize/localizer.cpp:65-88 | Candidates hit every failure set exactly when they hit every kept one. |
| `Reduction.KeptCanonical` | src/localize/localizer.cpp:65-88 | Two lists of failure sets that refine each other keep the same sets in the same order. |
| `Reduction.ReductionCanonical` | src/localize/localizer.cpp:33-115 | Two inputs with the same candidates and budgets whose failure sets refine each other have the same candidates, sets, covers and full mask. |
| `Reduction.Permuted` | src/localize/localizer.cpp:65-74 | Failure sets in another order, as a multiset the same, are the same problem. |
| `Reduction.SupersetAdded` | src/localize/localizer.cpp:76-88 | Adding a superset of a failure set that stays is the same problem. |
| `Reduction.Repeated` | src/localize/localizer.cpp:76-88 | Repeating a failure set is the same problem. |
| `Reduction.EnlargingMatters` | src/localize/localizer.cpp:76-88 | Enlarging a failure set in place is not: an input where another element then explains the failures. |
| `Oracle.QueryExact` | src/localize/localizer.cpp:128-164 | Every answer is true: yes means a cover exists, no without exhaustion means none does; all remembered answers stay true, and at most budget + 1 nodes are counted. |
| `Oracle.BranchExact` | src/localize/localizer.cpp:152-160 | Trying the candidates of one unmet set finds a cover or shows that none of them starts one. |
| `Oracle.FeasibilityOracle.Covers` | src/localize/localizer.cpp:138-164 | The object with its counter, sticky exhaustion and word-keyed memo computes the mathematical search. |
| `Chains.ChainFits` | src/localize/localizer.cpp:138-164 | When no candidate lies in two sets, refuting one element fewer than there are sets counts at most one node and one for each candidate. |
| `Chains.OptimumLone` | src/localize/localizer.cpp:128-164 | When a minimum has as many elements as there are sets, no candidate lies in two of them. |
| `Solutions.SolveSound` | src/localize/localizer.cpp:186-221 | Everything the unbounded enumeration lists is an ascending selection that meets the whole mask within the size. |
| `Solutions.SolveSorted` | src/localize/localizer.cpp:186-187 | The list is in strict lexicographic order, hence without repeats. |
| `Solutions.SolveComplete` | src/localize/localizer.cpp:203-220 | Every selection as small as any is listed. |
| `Solutions.SolveExact` | src/localize/localizer.cpp:186-187 | At the optimal size the list is exactly the selections of that size that meet everything. |
| `Enumerator.RunExact` | src/localize/localizer.cpp:194-221 | From any sound state the run visits a prefix of the list in order, and all of it unless one of its three bounds was met. |
| `Enumerator.FromTheStart` | src/localize/localizer.cpp:380-386 | Started on the full mask, an uncut run has visited every listed solution. |
| `Enumerator.SolutionEnumerator.Enumerate` | src/localize/localizer.cpp:194-221 | The object, which keeps only the first solution and a count, performs the mathematical run and restores its path. |
| `Bounds.DisjointLowerBound` | src/localize/localizer.cpp:244-261 | The packing count, computed with one word of used elements. |
| `Bounds.BoundBelow` | src/localize/localizer.cpp:241-243 | The packing count is at most the size of anything that meets every set. |
| `Bounds.BoundPositive` | src/localize/localizer.cpp:353-354 | With a set to meet the bound is positive. |
| `Bounds.GreedyDistinct` | src/localize/localizer.cpp:413-426 | Greedy choices are distinct, and each meets something not met before. |
| `Bounds.GreedyCovers` | src/localize/localizer.cpp:413-426 | Whenever a cover exists, greedy ends with one. |
| `Bounds.Pigeonhole` | src/localize/localizer.cpp:416-422 | Members that each meet at most n constraints together meet at most n times their number. |
| `Bounds.GreedyContracts` | src/localize/localizer.cpp:413-426 | When k candidates suffice, one round leaves at most (k - 1) / k of what remained. |
| `Bounds.GreedyRounds` | src/localize/localizer.cpp:413-426 | After j rounds at most ((k - 1) / k)^j of the constraints remain. |
| `Bridge.CoverIsHitting` | src/localize/localizer.cpp:90-113 | Positions cover the full mask exactly when their elements are a hitting set of the original input. |
| `Bridge.MinimaExact` | src/localize/localizer.cpp:380-406 | At the optimum the listed solutions name all minimum hitting sets, each once, in lexicographic order. |
| `Bridge.FirstIsCanonical` | src/localize/localizer.cpp:402 | The first of all minima is the canonical answer. |
| `Localizer.SizeSearchExact` | src/localize/localizer.cpp:356-365 | Iterative deepening from a refuted size finds the optimum, refutes every size it may ask, or runs out of budget. |
| `Localizer.StartBelow` | src/localize/localizer.cpp:353-354 | No hitting set is smaller than the starting size, and the starting size is within the search's range. |
| `Localizer.SearchedExact` | src/localize/localizer.cpp:352-375 | For a valid input no size found means that the budget ran out. |
| `Localizer.EnumeratedExact` | src/localize/localizer.cpp:380-386 | The enumeration after the size search visits the first minima, all of them unless it was cut. |
| `Localizer.GreedyHits` | src/localize/localizer.cpp:409-429 | The fallback list is an ascending hitting set without repeats. |
| `Localizer.Bracket` | src/localize/localizer.cpp:244-261 | Packing bound, minimum size and greedy size come in this order. |
| `Localizer.LocalizeOptimal` | src/localize/localizer.cpp:325-407 | A claimed optimum is the lexicographically first minimum hitting set of the original input, of the reported size, even when enumeration was cut; the count is exact unless cut, and never too large. |
| `Localizer.LocalizeInfeasible` | src/localize/localizer.cpp:335-341 | Infeasibility is reported exactly when no hitting set exists, with an empty set as its witness. |
| `Localizer.LocalizeUnique` | src/localize/localizer.cpp:387-390 | When uniqueness is claimed with optimality, every minimum is the reported one; Uniqueness says exactly when the status means the same. |
| `Uniqueness.ResolvedWhenComplete` | src/localize/localizer.cpp:387-403 | Of a proven answer whose enumeration was not cut, resolved is said exactly when there is no other minimum. |
| `Uniqueness.ResolvedAtOne` | src/localize/localizer.cpp:387-403 | Asked for one solution, a proven answer is resolved and not flagged unique, however many minima there are. |
| `Uniqueness.ResolvedForCaller` | src/localize/localizer.cpp:377-403 | A caller who asks for at least two solutions and whose budgets are not spent gets a proof, resolved exactly for the only minimum. |
| `Budgets.EnoughUnspent` | src/localize/localizer.cpp:138-164 | A node budget of at least `Enough`, computed from the number of candidates and the size of the greedy answer, is never spent. |
| `Budgets.EnoughProves` | src/localize/localizer.cpp:352-403 | With that budget the answer is proven; asked for two solutions or more it is resolved exactly for the only minimum. |
| `Uniqueness.ResolvedNotUnique` | src/localize/localizer.cpp:403 | One failure set of two elements, asked for one solution: resolved and proven, with two minima. |
| `Uniqueness.ReferenceFlag` | src/localize/localizer.cpp:493-501 | The reference flags uniqueness exactly when there is one minimum or it was asked for one solution only. |
| `Uniqueness.NodeCountExact` | src/localize/localizer.cpp:377-386 | The reported node count is never too large; of a proven answer it is the whole count exactly when one element suffices. |
| `Uniqueness.NodeCountShort` | src/localize/localizer.cpp:377-386 | Two failure sets of one element each: a proven answer that leaves oracle nodes out of its count. |
| `Localizer.LocalizeAmbiguous` | src/localize/localizer.cpp:403 | An ambiguous result has a second minimum besides the reported one. |
| `Localizer.LocalizeIndeterminate` | src/localize/localizer.cpp:368-400 | Without a proof the result says so, still hits everything, and one of the budgets was spent. |
| `Localizer.AnswerCanonical` | src/localize/localizer.cpp:325-407 | The whole result, node counts included, does not depend on how the failure sets were written down, except for the index of the infeasibility witness. |
| `Localizer.Localize` | src/localize/localizer.cpp:325-407 | The solver, with its objects and loops, returns the specified answer of a correct reduction, and refuses exactly the invalid inputs. |
| `Localizer.GreedyLocalization` | src/localize/localizer.cpp:409-429 | The greedy loop on words returns the specified greedy list. |
| `Reference.StepsNext` | src/localize/localizer.cpp:481-491 | Nothing lies between a combination and its successor. |
| `Reference.FirstCombination` | src/localize/localizer.cpp:464-465 | The starting index array precedes every other combination of its size. |
| `Reference.LastCombination` | src/localize/localizer.cpp:482-491 | When every index is at its ceiling, no combination comes later. |
| `Reference.Advance` | src/localize/localizer.cpp:481-491 | The in-place successor moves the array to the next combination, or leaves it and reports the last. |
| `Reference.TryOfSize` | src/localize/localizer.cpp:463-492 | One size: the covering combinations in order, all of them unless the solution bound was met. |
| `Reference.FoundArePrefix` | src/localize/localizer.cpp:474-480 | At the optimum the combinations found are the first of the exact solver's own list, as many as the bound allows. |
| `Reference.ReferenceLocalize` | src/localize/localizer.cpp:431-512 | The reference result in terms of the problem alone; for valid inputs within the candidate limit its final exit is unreachable. |
| `Verifier.CheckShape` | src/localize/localizer.cpp:550-566 | The element loop accepts exactly ascending lists of candidates. |
| `Verifier.CheckHits` | src/localize/localizer.cpp:568-582 | The covering loop says exactly whether every failure set is hit. |
| `Verifier.CheckCertificate` | src/localize/localizer.cpp:519-534 | A certificate passes exactly when it names a failure set without live candidates. |
| `Verifier.VerifyLocalization` | src/localize/localizer.cpp:514-629 | The report, field by field, of a re-derived reduction and the reference result. |
| `Verifier.VerifierSoundInfeasible` | src/localize/localizer.cpp:519-544 | An accepted infeasibility certificate means that no hitting set exists. |
| `Verifier.VerifierSoundCover` | src/localize/localizer.cpp:568-585 | An accepted list is an ascending hitting set, with or without a claim of optimality. |
| `Verifier.VerifierSoundSmall` | src/localize/localizer.cpp:588-608 | Up to 18 candidates an accepted claim of optimality is the canonical answer. |
| `Verifier.VerifierSoundLarge` | src/localize/localizer.cpp:583-585 | Above 18 candidates an accepted claim is a true minimum of its size exactly when the separate size check agrees. |
| `Verifier.VerifierComplete` | src/localize/localizer.cpp:514-629 | Up to 18 candidates every result of the solver is accepted. |
| `Verifier.AnswerAgrees` | src/localize/localizer.cpp:589-602 | A proven answer and the reference result have the same size, the same list and the same verdict on ambiguity. |
| `Verifier.CoveringTestExact` | src/localize/localizer.cpp:611-612 | Above 18 candidates a minimum passes the covering test exactly when it is the first candidates, as many as there are kept sets. |
| `Verifier.VerifierLargeExact` | src/localize/localizer.cpp:609-625 | Above 18 candidates a proven answer is accepted exactly when it is the first candidates, as many as there are kept sets. |
| `Verifier.OwnOracleFits` | src/localize/localizer.cpp:613-622 | When the minimum has as many elements as there are kept sets, the checking oracle refutes the smaller size within 65 nodes, so its budget never decides. |
| `Verifier.OneFailureVerdict` | src/localize/localizer.cpp:609-625 | One failed element among more than 18: its right answer is accepted only for element 0. |
| `Verifier.LongAnswerAccepted` | src/localize/localizer.cpp:583-585 | A list that is not a minimum is accepted when the reported size alone is right. |
| `Probes.BuildInput` | src/localize/localizer.cpp:631-673 | Building succeeds exactly for well-formed probes within the bounds, and then derives their constraint system. |
| `Probes.ProbesAreConstraints` | src/localize/localizer.cpp:648-668 | Faulty hops explain every probe exactly when they hit the derived constraint system. |
| `Probes.LocalizationExplains` | src/localize/localizer.cpp:631-673 | A proven localization of the derived input is a smallest set of faulty hops that explains the probes. |
| `Probes.InfeasibleExplains` | src/localize/localizer.cpp:335-341 | Infeasibility is reported exactly when no set of hops explains the probes. |
| `Publication.PublishedHonest` | src/service/engine.cpp:273-291 | A published proof is the canonical answer, and up to 18 candidates validation withholds nothing. |
| `Publication.PublishedLarge` | src/service/engine.cpp:279-290 | Above 18 candidates a proof is published exactly when it names the first candidates, as many as there are kept sets. |
| `Publication.PublishedExplains` | src/service/engine.cpp:267-291 | From probes to publication: a published proof is a smallest set of faulty hops that explains every probe. |
| `Crc.StepsXor` | include/blackhole/core/hash.hpp:21-23 | The bit step is linear over exclusive or. |
| `Crc.TableStep` | src/core/hash.cpp:7-11 | One table look-up does the work of the eight bits of a byte in the bit-serial register. |
| `Crc.MakeTable` | include/blackhole/core/hash.hpp:13-28 | Every table slot holds the eight-fold bit step of its index. |
| `Crc.TableCrc` | src/core/hash.cpp:5-13 | The table-driven loop computes the bit-serial CRC-32C of RFC 4960, appendix B, for every byte string and seed. |
| `Crc.CrcChains` | src/protocol/frame.cpp:34-39 | A checksum used as the seed continues over the concatenation. |
| `Frames.IntegrityIsChecksum` | src/protocol/frame.cpp:34-39 | The integrity field is the checksum of the sixteen header bytes and the payload together. |
| `Frames.ParseEncode` | src/protocol/frame.cpp:43-108 | Decoding an encoded zero-flag frame within the bound gives it back and leaves what follows. |
| `Frames.EncodeParse` | src/protocol/frame.cpp:75-108 | A decoded frame is sendable, and encoding it gives exactly the bytes it was decoded from. |
| `Frames.DrainAppend` | src/protocol/frame.cpp:59-108 | Draining in two goes yields what draining the concatenation yields, failures included. |
| `Frames.EncodeDrained` | src/protocol/frame.cpp:75-108 | What was decoded, encoded again, with what is left, is exactly what was read. |
| `Frames.DrainEncoded` | src/protocol/frame.cpp:43-108 | Any sequence of sendable frames is decoded completely with nothing left over. |
| `Frames.ChunkingIrrelevant` | src/protocol/frame.cpp:59-108 | Without overfilling, frames, failure and pending bytes depend only on the concatenated bytes. |
| `Frames.ChunkingsAgree` | src/protocol/frame.cpp:59-108 | Two ways of cutting the same bytes deliver the same frames and the same latched failure. |
| `Frames.FramesArrive` | src/protocol/frame.cpp:59-114 | Sendable frames cut anywhere arrive whole, and the connection stays clean, exactly when no chunk overfills the buffer. |
| `Frames.FittingSplits` | src/protocol/frame.cpp:59-73 | A connection takes the chunks that fit and is closed, with what it had, by the first that does not. |
| `Frames.ChunkingExact` | src/protocol/frame.cpp:59-108 | However the bytes are cut, the frames are those of the bytes before the first chunk that overfills, and the failure is theirs or the overflow. |
| `Frames.TwoInOneChunk` | src/protocol/frame.cpp:62-66 | Two whole frames in one chunk are delivered exactly when their payloads and one header are within the payload bound. |
| `Frames.TwoFramesRefused` | src/protocol/frame.cpp:62-66 | Two frames that arrive apart and are refused together. |
| `Frames.SingleBytesFit` | src/protocol/frame.cpp:62-66 | Bytes that come one at a time never overfill the buffer. |
| `Frames.FrameDecoder.Feed` | src/protocol/frame.cpp:59-73 | The buffer array then holds the pending bytes and the chunk, or the decoder latches the overflow and keeps its bytes. |
| `Frames.FrameDecoder.Next` | src/protocol/frame.cpp:75-108 | One parsing step in place: the frame is produced and the buffer shifted to exactly the unread bytes. |
| `Frames.FrameDecoder.Finish` | src/protocol/frame.cpp:110-114 | Finishing is clean exactly when nothing is pending and nothing failed. |
| `Frames.FrameDecoder.TakeAll` | src/protocol/frame.cpp:75-108 | Taking frames until there is none yields what the stream function drains, and leaves what it leaves. |
| `Frames.FrameDecoder.FeedAndDrain` | src/protocol/frame.cpp:59-108 | A whole turn of the object equals the stream function's turn. |
| `Bytes.GetPut` | src/persist/record.cpp:16-40 | A number that fits is read back from its little-endian bytes. |
| `Bytes.PutGet` | src/persist/record.cpp:16-40 | Bytes are the little-endian form of the number read from them. |
| `Records.HeaderAccepted` | src/persist/record.cpp:71-90 | The header of a representable record passes every check but, perhaps, the payload bound, and gives back its fields. |
| `Records.StoredEncodes` | src/persist/record.cpp:44-90 | Bytes that pass the header and checksum tests are the encoding of the record read from them. |
| `Records.IsValidPrefix` | src/persist/record.cpp:92-122 | The byte loop accepts exactly the prefixes that agree in magic, version and, once present, the payload bound. |
| `Records.PrefixAccepted` | src/persist/record.cpp:92-122 | A cut record is recognised exactly when what is known of its length respects the bound. |
| `Records.PrefixStart` | src/persist/record.cpp:124-129 | No non-empty cut of a record is taken for a zeroed tail. |
| `Journal.LookEncoded` | src/persist/journal.cpp:148-217 | A whole record at the front is visited, unless its payload is over the read bound. |
| `Journal.LookTorn` | src/persist/journal.cpp:128-188 | Any non-empty strict prefix of a record is a torn tail, unless it already shows a payload over the bound. |
| `Journal.LookOutOfOrder` | src/persist/journal.cpp:169-173 | A record with another number than the expected one is refused. |
| `LiveStore.LiveStore.Replay` | src/persist/journal.cpp:105-222 | The loop over positions, expected numbers and report fields, which replays each record behind the snapshot as it reads it, computes the scan function. |
| `Journal.ScanWritten` | src/persist/journal.cpp:122-222 | Consecutive records and a cut of the next: an accepted scan has visited exactly the records, with their total length as valid bytes and a torn tail exactly when the cut is non-empty; it is accepted exactly when every record is taken, their number and payloads are within the bounds, and the cut shows no payload over the bound. |
| `Journal.ScanInvertsWriting` | src/persist/journal.cpp:122-222 | Within the bounds scanning inverts writing, and scanning again after truncation at the valid bytes is clean. |
| `Journal.ScanReads` | src/persist/journal.cpp:122-222 | Conversely, an accepted scan of any bytes has read the encodings of consecutive records within the payload bound and nothing else before the tail. |
| `Journal.JournalWithin` | src/persist/journal.cpp:214 | The valid bytes never pass the end of the file. |
| `Store.LiveSteps` | src/persist/store.cpp:532-627 | A live commit changes the state as its record means, keeps the lineage bound, and fails exactly when a new fence finds the table full. |
| `Store.ApplySteps` | src/persist/store.cpp:369-506 | Replay takes any record that its writer could hold exactly when it is acceptable, and then does what the record means. |
| `Store.TotalsAgree` | src/persist/store.cpp:452 | Replay raises the total of fences issued for each intent record that finds room; the live store agrees exactly when the record names a new fence. |
| `Store.PushedRecords` | src/persist/store.cpp:508-515 | The bounded lineage keeps the newest entries and counts each drop. |
| `Store.LineageExact` | src/persist/store.cpp:508-515 | Over any history the kept lineage is the newest part of everything told, seen counts all of it, and seen is kept plus dropped. |
| `Store.FenceTableExact` | src/persist/store.cpp:441-463 | Over any history the fence table holds the first fences named, as many as fit, in the order of their first records, each as the last record written for its id has it. |
| `Store.CountsExact` | src/persist/store.cpp:424-490 | Over any history the decisions and interruptions counted are the records of those types. |
| `StoreRuns.RecoverWritten` | src/persist/store.cpp:187-262 | Snapshot, records behind it and any cut of the next record: recovered exactly with the tail cut off, or refused; recovered exactly within the bounds and when every record is one replay takes. |
| `StoreRuns.RecoverExact` | src/persist/store.cpp:187-262 | From any state of a run outside the half-done checkpoint, opening refuses or rebuilds the durable history; it rebuilds it exactly when bytes, records and payloads are within the read bounds and every fence record since the snapshot found room. |
| `StoreRuns.AcceptedIsRoomy` | src/persist/store.cpp:441-450 | Of a history the store wrote, replay refuses nothing but a fence record that found the table full. |
| `StoreRuns.RecoverHalfDone` | src/persist/store.cpp:645-650 | After a crash between snapshot replacement and journal truncation opening recovers exactly when the journal held no record, and then the whole history. |
| `StoreRuns.AckGood` | src/persist/store.cpp:517-530 | An acknowledged append adds its record's meaning to the live state and to what the files hold. |
| `StoreRuns.TruncateGood` | src/persist/store.cpp:647-665 | The second half of a checkpoint leaves files that stand for the same history. |
| `StoreRuns.CrashGood` | src/persist/store.cpp:517-530 | A crash after any number of bytes of the record in flight leaves files that stand for the durable history. |
| `StoreRuns.OpenGood` | src/persist/store.cpp:187-315 | An opening, refused, cut short or completed, keeps files, history and live state in agreement. |
| `StoreRuns.RunGood` | src/persist/store.cpp:187-665 | Agreement of files, history and live state holds in every state of every run. |
| `StoreRuns.CrashSafety` | src/persist/store.cpp:187-262 | After any run, an opening refuses or rebuilds exactly the acknowledged records and at most the one fully written record in flight; which of the two is decided exactly by bounds, room and a half-done checkpoint. |
| `StoreRuns.ReplayIsLive` | src/persist/store.cpp:369-515 | At every quiet moment of a run, the files read back are the live state (epoch, counters, fingerprint, fence table, lineage and last number), exactly when they are within the bounds and every fence record found room; the total of fences issued is TotalsOverRuns. |
| `StoreRuns.NothingLost` | src/persist/store.cpp:517-530 | The durable history only grows, through any further events. |
| `StoreRuns.HalfDoneRefuses` | src/persist/store.cpp:241 | In every run, a process that finds the half-done state refuses to open exactly when the journal had records it did not get to drop. |
| `StoreRuns.RefusedForever` | src/persist/store.cpp:187-262 | An opening that refuses changes no file, so no further event gets past it. |
| `StoreRuns.HalfDoneReached` | src/persist/store.cpp:635-650 | One opening and a checkpoint cut in half is a run after which every opening is refused. |
| `StoreRuns.FullTableRefuses` | src/persist/store.cpp:569-583 | From any open state of a run with a full table: a new fence is committed durably, and after the next crash every opening is refused. |
| `StoreRuns.FullTableReached` | src/persist/store.cpp:569-583 | The run from nothing that gets there with a table of one. |
| `StoreRuns.BytesOvershot` | src/persist/store.cpp:520 | The byte bound is asked before a record is appended: a run whose one record passes it, after which every opening is refused. |
| `Totals.TotalsOverRuns` | src/persist/store.cpp:452 | At every quiet moment of a run the files count as many fences as the process, and one more for each intent record committed for a known fence since the opening or the last snapshot. |
| `Totals.TotalRecovered` | src/persist/store.cpp:452 | After any run, what an opening reads back counts the snapshot's fences and the intent records behind it that found room. |
| `Restart.OnePairEach` | src/persist/store.cpp:330-363 | An opening commits exactly one interruption and one revocation for each fence it finds open, in table order, and nothing else for the others. |
| `Restart.SettlesFrom` | src/persist/store.cpp:332-362 | From any slot on, the loop's records turn every remaining open fence into one fenced by the restart, and touch no other. |
| `Restart.RestartFencesAll` | src/persist/store.cpp:330-363 | After the records an opening writes for a table no fence is open, the interruptions grew by the number that were, and this table would be fenced no more; OpeningFencesForGood says the same of what is read back. |
| `Restart.MeaningUnique` | src/persist/store.cpp:441-450 | The fence table of any history has one entry for each fence. |
| `Restart.BootsRise` | src/persist/store.cpp:378-381 | In any proper history each boot record's epoch is above all earlier ones, and the last is current. |
| `Restart.EpochsRise` | src/persist/store.cpp:264-315 | Over any chain of process lives, however each ends, every boot has a greater epoch than every earlier boot. |
| `Restart.OpeningIsNew` | src/persist/store.cpp:264-315 | An opening's epoch is above every durable boot so far. |
| `LiveStore.LiveStore.AppendCommit` | src/persist/store.cpp:517-530 | A record is appended under the next number exactly when its payload fits its writer, the store is open and the journal is below its byte bound; otherwise nothing changes. |
| `LiveStore.LiveStore.CommitPolicy` | src/persist/store.cpp:532-542 | The object commits one policy record as LiveSteps and CommitIsRun describe, and is unchanged when refused, for an encoding over its writer's capacity first of all. |
| `LiveStore.LiveStore.CommitDecision` | src/persist/store.cpp:544-567 | The object commits one decision record with its lineage line as LiveSteps and CommitIsRun describe, and is unchanged when refused, for an encoding over its writer's capacity first of all. |
| `LiveStore.LiveStore.CommitFenceState` | src/persist/store.cpp:569-599 | The object commits one fence record as LiveSteps describes: refused if its encoding is over the writer's capacity, found by its id or added, and a full table noticed only after the append. |
| `LiveStore.LiveStore.CommitInterruption` | src/persist/store.cpp:601-627 | The object commits one interruption as LiveSteps and CommitIsRun describe, and is unchanged when refused, for an encoding over its writer's capacity first of all. |
| `LiveStore.LiveStore.Checkpoint` | src/persist/store.cpp:629-665 | A snapshot over its bound is refused with nothing changed; else the snapshot is the live state under the last number, and the journal starts again with a checkpoint record. |
| `LiveStore.LiveStore.ApplyRecord` | src/persist/store.cpp:369-506 | The switch over record types performs the replay step, refusals included; Replay calls it for each record. |
| `LiveStore.LiveStore.PushLineage` | src/persist/store.cpp:508-515 | The entry goes in, the oldest out when the table is full, with exact counts. |
| `LiveStore.LiveStore.ReadBack` | src/persist/store.cpp:202-258 | Reading snapshot and journal back gives what recovery specifies, with the torn tail cut off and no fence twice in the table. |
| `LiveStore.CommitIsRun` | src/persist/store.cpp:517-530 | One commit of the object is one record begun and acknowledged in the machine of crashes, so every run theorem is about the object. |
| `LiveStore.CheckpointIsRun` | src/persist/store.cpp:635-665 | A checkpoint of the object is the machine's replacement, truncation and one more acknowledged record. |
| `LiveStore.BootIsRun` | src/persist/store.cpp:187-315 | An opening of the object up to its boot record is the machine's opening, acknowledged. |
| `LiveStore.LiveStore.FencePrior` | src/persist/store.cpp:330-363 | The loop that marks, interrupts and revokes open fences appends exactly the specified records, or a prefix of them when the journal fills up. |
| `LiveStore.LiveStore.Open` | src/persist/store.cpp:187-367 | A completed opening has appended exactly its boot, policy and fence records to the recovered journal, and its state is what they make of it. |
| `LiveStore.MarkingHarmless` | src/persist/store.cpp:338-355 | Marking a fence in the table before committing its records changes nothing in the outcome. |
| `LiveStore.OpeningSettles` | src/persist/store.cpp:264-367 | After a completed opening the epoch is one higher, no fence is open, each that was has an interruption, and the records mean the same state. |
| `Openings.OpeningIsRun` | src/persist/store.cpp:187-367 | A completed opening, with its policy and fence records, is a run of the machine, so that every run theorem is about it. |
| `Openings.SettledReadBack` | src/persist/store.cpp:330-363 | The records of a completed opening behind any history, crashed in whatever way and read back: every fence it found open is ended, and the next opening writes no record for any. |
| `Openings.OpeningFencesForGood` | src/persist/store.cpp:187-367 | Open, crash, open, on any store a run left down: read back exactly within the bounds and with room, and then no fence the first opening found is open or fenced again. |
| `LiveStore.PolicyVersion` | src/persist/store.cpp:262 | Live and replayed policy version agree exactly when the policy was committed again or the restored version is the configured one. |
| `LiveStore.StaleVersion` | src/persist/store.cpp:384 | A life cut between its boot record and its policy record leaves a restored fingerprint with another policy's version. |
| `Fences.IssueKeeps` | src/authority/authority.cpp:17-89 | Issuing keeps order, capacity, at most one open fence for a subject and generations, and the identity of issued fences. |
| `Fences.StageKeeps` | src/authority/authority.cpp:91-148 | Staging changes no record. |
| `Fences.CommitStagedKeeps` | src/authority/authority.cpp:150-168 | Recording a staged intent keeps the same invariants. |
| `Fences.AcknowledgeKeeps` | src/authority/authority.cpp:170-201 | Acknowledging, or expiring instead, keeps the same invariants. |
| `Fences.ReportEffectKeeps` | src/authority/authority.cpp:203-234 | Reporting an effect, or expiring instead, keeps the same invariants. |
| `Fences.RevokeKeeps` | src/authority/authority.cpp:236-250 | Revoking keeps the same invariants. |
| `Fences.RevalidateEach` | src/authority/authority.cpp:252-275 | Revalidation judges every record by itself. |
| `Fences.RevalidateCounts` | src/authority/authority.cpp:252-275 | Every record that stops being open is counted once, as expired or revoked, and reported once. |
| `Fences.RevalidateIds` | src/authority/authority.cpp:252-275 | The reported ids are those of the open records that expired or lost their generations, in id order. |
| `Fences.RevalidateKeeps` | src/authority/authority.cpp:252-275 | Afterwards every open fence is under the current generations. |
| `Fences.FenceAllKeeps` | src/authority/authority.cpp:277-291 | Fencing everything leaves no record open and counts each once. |
| `Fences.AttemptsAccounted` | src/authority/authority.cpp:17-168 | Issuing leaves an attempt unaccounted for exactly when the request is not well formed, or vacant with a lifetime out of range; staging also when it stages; recording closes one exactly when the intent is valid, new and vacant. |
| `Fences.StagedThenRecorded` | src/authority/authority.cpp:91-168 | Staged and recorded at once, an attempt stays open exactly when it was refused uncounted or its id was taken. |
| `Fences.FailingAsks` | include/blackhole/authority/authority.hpp:172-175 | Two requests after which the accounts do not close: for no subject, and at the end of time. |
| `Fences.TakeAllKeeps` | src/authority/authority.cpp:17-291 | Over every run of registry operations the invariants hold and the gap is the sum of what each operation left open or closed. |
| `Fences.ClosedExact` | include/blackhole/authority/authority.hpp:172-175 | Both accounting identities hold after a run exactly when that sum is zero. |
| `Fences.FenceRegistry.DoIssue` | src/authority/authority.cpp:17-89 | The issuing method performs the specified step, and returns the id of a record that exists. |
| `Fences.FenceRegistry.DoStage` | src/authority/authority.cpp:91-148 | The object mints the intent or names the first reason against it, changing counters only: the step StageKeeps is about. |
| `Fences.FenceRegistry.DoCommitStaged` | src/authority/authority.cpp:150-168 | The object records a staged intent in id order, once the three refusals are ruled out: the step CommitStagedKeeps is about. |
| `Fences.FenceRegistry.DoAcknowledge` | src/authority/authority.cpp:170-201 | The object moves one record on, expires it, or refuses: the step AcknowledgeKeeps is about. |
| `Fences.FenceRegistry.DoReportEffect` | src/authority/authority.cpp:203-234 | The object records an effect, expires the record, or refuses: the step ReportEffectKeeps is about. |
| `Fences.FenceRegistry.DoRevoke` | src/authority/authority.cpp:236-250 | The object ends exactly the named open record: the step RevokeKeeps is about. |
| `Fences.FenceRegistry.DoRevalidate` | src/authority/authority.cpp:252-275 | The in-place loop ends the records RevalidateEach and RevalidateIds describe, and collects their ids. |
| `Fences.FenceRegistry.DoFenceAll` | src/authority/authority.cpp:277-291 | The in-place loop leaves what FenceAllKeeps describes, and collects the ids of the records it ended. |
| `Fences.FenceRegistry.OpenFor` | src/authority/authority.cpp:298-303 | The first open record of a subject, if there is one. |
| `Engine.RevalidationKeeps` | src/service/engine.cpp:68-86 | Revalidation brings every open fence under the current generations, in memory and durably, whatever commits fail. |
| `Engine.IssuanceKeeps` | src/service/engine.cpp:187-238 | Issuance that mints no id of an open fence yields an intent of the call's own subject, generations, boot and incarnation, open in memory and in the durable table, minted or found; or it leaves none open for the subject. |
| `Engine.ConcludedKeeps` | src/service/engine.cpp:244-257 | A decision that does not become durable carries no intent, and no fence is open in memory by it. |
| `Engine.EvaluateKeeps` | src/service/engine.cpp:126-258 | An evaluation keeps the invariant under its own generations; an intent it returns is durably open; a failed decision record leaves no new open fence, and none for an authorized subject. |
| `Engine.EvaluateExact` | src/service/engine.cpp:126-258 | An evaluation keeps the invariant exactly when it mints no id that a fence open in memory has. |
| `Engine.CollisionBreaks` | src/service/engine.cpp:195-222 | When it does, the durable record of that fence is overwritten while memory still has it open, and no intent is returned. |
| `Engine.RestoreKeeps` | src/service/engine.cpp:393-493 | A restoration opens no fence; authorized, it leaves none open for its subject; without a durable revocation memory is unchanged. |
| `Engine.AcknowledgeFenceKeeps` | src/service/engine.cpp:338-363 | Acknowledging keeps the invariant even when its durable record fails. |
| `Engine.ReportEffectKeeps` | src/service/engine.cpp:365-391 | Reporting an effect keeps the invariant even when its durable record fails. |
| `Engine.EnrichKeeps` | src/service/engine.cpp:321-330 | Recording an enriched decision keeps the invariant and the decision accounts. |
| `Engine.CheckpointKeeps` | src/service/engine.cpp:495-500 | A checkpoint keeps the invariant and the whole durable state. |
| `Engine.EveryRun` | src/service/engine.cpp:126-493 | In every reachable state open fences share the last generations, boot and incarnation, are at most one for a subject and durably open, and all counters balance. |
| `Engine.RunExact` | src/service/engine.cpp:126-493 | The invariant holds in every state of a run exactly when no evaluation along it mints the id of a fence open in memory. |
| `Agreement.DoAgrees` | src/service/engine.cpp:68-493 | Where the fences open in the durable table are those open in memory, one call keeps it so exactly unless it strands a fence: a record of an end not taken, an intent that does not land, a decision record not taken, or a lapse. |
| `Agreement.OpenFencesAgree` | src/service/engine.cpp:68-493 | From an opening that left no fence open, table and memory agree in every state of a run exactly when no call strands a fence. |
| `Examples.Collision` | src/service/engine.cpp:195-222 | Two evaluations of two subjects that mint one identity: the invariant holds after the first and not after the second. |
| `Accounts.IssuanceMoves` | src/service/engine.cpp:187-238 | Two-phase issuance leaves its attempt unaccounted for exactly when the subject is vacant and the intent does not become a record: lifetime, journal bound, fence table, or identity. |
| `Accounts.EngineClosedExact` | include/blackhole/authority/authority.hpp:172-175 | After any run of the engine the fence accounts fall short by exactly the number of such calls, and both identities hold exactly when there was none. |
| `EngineRuns.RunFollows` | src/service/engine.cpp:126-500 | Every run of the engine is, on disk, a run of the store that crashes. |
| `EngineRuns.MemoryIsRecovered` | src/service/engine.cpp:126-500 | After any run of the engine, on a store any run left open, reading the files back succeeds exactly within the bounds and with room; then it gives the live state, every fence open in memory is open in it, and the next opening fences it. |
| `Examples.FenceRun` | src/service/engine.cpp:126-258 | A store, an opening and an evaluation that meet all the hypotheses of MemoryIsRecovered and leave a fence open in memory. |
| `Examples.FenceRead` | src/persist/store.cpp:187-262 | The files of that evaluation are read back with the fence open, and the next opening fences it. |
| `Engine.Engine.RevalidateFences` | src/service/engine.cpp:68-86 | On the registry and store objects: memory first, then one durable record for each ended fence; the step RevalidationKeeps is about. |
| `Engine.Engine.RecordDecision` | src/service/engine.cpp:114-124 | On the objects: one decision record attempt, counted as committed or failed. |
| `Engine.Engine.IssueIntent` | src/service/engine.cpp:187-238 | On the objects: stage, durable record, then memory; the step IssuanceKeeps is about. |
| `Engine.Engine.DoEvaluate` | src/service/engine.cpp:126-258 | On the objects: the evaluation EvaluateKeeps is about, decision and new state alike. |
| `Engine.Engine.DoRestore` | src/service/engine.cpp:393-493 | On the objects: the restoration RestoreKeeps is about, decision and new state alike. |
| `Engine.Engine.DoAcknowledgeFence` | src/service/engine.cpp:338-363 | On the objects: the step AcknowledgeFenceKeeps is about. |
| `Engine.Engine.DoReportEffect` | src/service/engine.cpp:365-391 | On the objects: the step ReportEffectKeeps is about. |
| `Engine.Engine.DoEnrich` | src/service/engine.cpp:321-330 | On the objects: one more decision record attempt, counted as an enrichment. |
| `Engine.Engine.DoCheckpoint` | src/service/engine.cpp:495-500 | On the objects: the number reported is the last one before the checkpoint; the step CheckpointKeeps is about. |
| `Ledger.AdmitCloses` | src/evidence/ledger.cpp:18-122 | Seen is admitted plus rejected, admitted is retained plus dropped, retained is the sum over all scopes, every cursor's observed is accepted plus rejected, and all tables stay within their bounds. |
| `Ledger.RunCloses` | src/evidence/ledger.cpp:18-122 | The same over every run from the empty ledger. |
| `Ledger.AdmitMoves` | src/evidence/ledger.cpp:54-121 | An admission moves the cursor of its own scope and source and no other. |
| `Ledger.MovedClimbs` | src/evidence/ledger.cpp:69-93 | After the first, an acceptance moves a cursor strictly up in rollovers and number; a rejection leaves its place alone; rollovers stay bounded. |
| `Ledger.AcceptancesClimb` | src/evidence/ledger.cpp:69-93 | Over any run the places of a source's acceptances climb strictly, and the cursor is at the last of them. |
| `Ledger.OncePerRollover` | src/evidence/ledger.cpp:78-92 | In a climbing run one number comes at most once between two rollovers. |
| `Ledger.AtMostFive` | src/evidence/ledger.cpp:78-92 | One sequence number of one source and scope is accepted at most five times, however often it is replayed. |
| `Ledger.EvidenceLedger.FindVictim` | src/evidence/ledger.cpp:98-106 | The one-pass search finds the first of the oldest observations. |
| `Ledger.EvidenceLedger.Judged` | src/evidence/ledger.cpp:69-93 | The step-by-step verdict on an observation and the cursor's move are the specified ones: what MovedClimbs is about. |
| `Ledger.EvidenceLedger.Sequence` | src/evidence/ledger.cpp:54-121 | Cursor, retention and counters are updated step by step to the specified state. |
| `Ledger.EvidenceLedger.DoAdmit` | src/evidence/ledger.cpp:18-122 | The object admits or refuses in the source's order: the step AdmitCloses and AdmitMoves are about. |
| `Ledger.EvidenceLedger.Reset` | src/evidence/ledger.cpp:9-16 | Resetting gives the empty ledger. |

## Left out

- Threads, locks and the server loop: each engine method is one atomic step; the localization call between the two locked halves is a pure function.
- File system calls, fsync and rename: a file is a byte sequence, the snapshot an atomically replaced register, and a crash keeps any prefix of the record in flight.
- I/O errors other than a crash, and files changed by anyone else, so the all-zero preallocated tail (which the scan recognises) never arises in a run.
- The snapshot file's own framing and checksums: a snapshot is a value with a size, bounded when written and when read.
- The field-by-field payload codecs: a payload codec is any pair of functions that reads back what fits its writer (`Lawful`); values outside a field's width count as payloads that do not fit.
- Identity hashes and nonces: fresh ids are inputs, and the hypotheses say where they must be fresh.
- The classifier, corroboration and the restoration gate: their verdicts are inputs of the engine's calls.
- Reasons lists, provenance and statistics text carried along with decisions.
- Engine.submit, fence_state, lineage, open and close: the ledger, registry and store members they call are modelled.
- Fixed-width wrap-around of counters, times and epochs, except in words, checksums and record numbers.
- Store.close and reopening one store object; an opening starts from a blank object, and an opening that failed is not resumed.
- A configuration that changes between lives: one configuration holds over a run.
- Engine.EvaluateKeeps: an id that is minted must not be that of a fence open in memory; without that the invariant is lost (EvaluateExact).
- Engine.IssuanceKeeps: the same condition on the one issuance (CollisionBreaks says what happens otherwise).
- Engine.EveryRun: the same condition along the run (RunExact shows that the invariant holds all along exactly then).
- EngineRuns.MemoryIsRecovered: the same condition, and record numbers that do not run out.
- Reduction.Reduce: requires at most 64 candidates and 64 failure sets; beyond them the source shifts past the width of its words, which C++ leaves undefined.
- Localizer.GreedyLocalization: requires the same.
- Frames.ChunkingIrrelevant: requires that no chunk overfills the buffer; ChunkingExact covers all chunks.
- Frames.ChunkingsAgree: requires the same of both cuts.
- Verifier.VerifyLocalization: inputs of more than 64 sets or candidates, or with an unsorted healthy list, are not covered; there the source shifts past the word's width or searches an unsorted list, which C++ leaves undefined.
- Ledger.AdmitCloses: requires a positive retention bound, as policy validation does; with zero the source would erase from an empty list.
