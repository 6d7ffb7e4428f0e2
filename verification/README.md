# Evidence receipts, verified

The repository checks evidence receipts offline: a receipt claims something about a hash-committed log of signed
statements, and carries the material a verifier needs to decide the claim without asking anyone. This project models
the parts of that verifier whose correctness is not visible from any one function, and proves what they are for.

- **Trees and proofs.** `Merkle` is the tree of section 2.1 of RFC 6962: the split point, the root, and the fact that
  a root fixes its leaves. `Inclusion` is the audit path of section 2.1.1 of RFC 6962 and the loop of section 2.1.3.2
  of RFC 9162 that checks one. `RangeProof` says what an authenticated range proof is and proves it sound and complete
  for every tree and range; `RangeVerify` is generation and verification as they run, with the single-entry
  cross-check, and `RangeVerdict` which proofs are refused unread, and why; `RangeSize` bounds the proof; `RangeCodec`
  is its byte format, and `RangeLayout` says where every octet of it is.
- **Committed leaf sets and the closure.** `Envelopes` is the log entry every other part reads. `CommittedTree` opens a
  leaf list against a root and a count, and sorts one for commitment. `Closure` reads edges and seeds out of log entries
  and opened leaf lists. `AffectedSet` is the worklist search, reachability, and what the closure does and does not
  depend on; `ClosureMeaning` says the result as a least set closed under what the entries state. `Propagation` is the
  `propagation-complete` claim, and puts all of the above together end to end; `PropagationMeaning` says exactly which
  claims are accepted, member by member, and `PropagationLaws` ties them to the governance state that decides which
  entries count.
- **Governance.** `Statements` is the envelope check, `KeyState` the producer keys in force at an index, `Governance`
  the induction over two merged streams of governance statements, `GovernanceWalk` that induction as a loop.
  `GovernanceLaws`, `GovernanceAgreement` and `GovernanceVersions` say what every walk keeps; `GovernanceMeaning` what an
  accepted chain is, from its genesis on, and `GovernanceComplete` that nothing it carries is lost and nothing is added.
  `EntrySweep` is the sweep over enumerated entries under the state the walk ends with, and how far walk and sweep agree.
- **Findings.** `Findings` is the machine that records outcomes, carries past gaps, blocks what rests on them, and
  reduces to a report; its straight part lays out every phase and every `pass` of one receipt in order, with the outcome
  of each check left open, and its claim material embeds receipts to any depth. `FindingsRun` is that machine as an
  object with mutable fields. `FindingsLaws`, `FindingsReport`, `FindingsComplete`, `FindingsRest` and `FindingsGaps`
  hold for every run, whatever the checks find. `FindingsMeaning` says each operation without naming it;
  `FindingsVerified`, `FindingsRefused`, `FindingsEnded` and `FindingsEmbedded` say exactly when a receipt is verified,
  which refusal decides, what a run that was ended reports, and what is reported of an embedded receipt.
- **Two parsers.** `MediaType` and `MediaTypeNormal` are the descriptor media type; `Duration` the restricted duration
  grammar. Both readers are proved to accept exactly their grammar, written down separately. `MediaTypeMeaning` and
  `DurationMeaning` say what each yields of the characters alone. `Scanning` cuts strings into runs.

`Basics` and `Sorting` hold the shared datatypes, the 64-bit integers with their saturating operations, and the stable
sort.

## How the model is made

Hashes are values of an opaque type combined by an uninterpreted function. No theorem assumes that function injective
unless its `requires` says `CollisionFree`, `Collisionless` or `Ideal`; soundness is also proved without the
assumption, by exhibiting a collision from any forgery (`ForgeryCollision`, `FoldCollision`, `SpanCollision`). Roots,
identifiers and digests are strings. JSON documents start as typed records: a member that is missing is an `Option`, a
list of independent shape checks is one flag (`wellFormed`, `commonFieldsOk`), and members nothing here reads are kept
as one `rest` member so that equality of envelopes is equality of all their bytes. Signature verification, the id of a
public key, and the proof of a rotation are parameters. Timestamps are integers. Strings whose alphabet is US-ASCII are
compared by character. Integer widths are explicit where the source's arithmetic depends on them.

The errors of one check that share a class are merged where nothing downstream tells them apart. The order in which
checks run is the source's.

## Where the code and its comments part

- `encode` says that a proof over a tree of 64-bit size never carries more than 64 hashes (src/range_proof.rs:323-325).
  It can carry 126, and `RangeSize.LargestProof` is a range that takes them. `RangeSize.SixtyFourHashesIff` gives the exact tree sizes for which 64 is right, and
  `RangeSize.GeneratedProofSize` the bound that holds, which is all the conversion to 32 bits needs.
- `check_ahl_version` says that a statement without an `ahl_version` member is invalid (src/receipt.rs:1618-1624). The
  walk acts only on a foreign revision and drops the other error, so a chain hop or an enumerated `key` statement
  without the member is inducted (src/receipt.rs:4058, 4123), and the sweep over enumerated entries reads one the same
  way (src/receipt.rs:5635-5641). `GovernanceVersions.MissingVersionIsInducted` is such a
  chain, `GovernanceVersions.StopsExactlyAt` and `GovernanceVersions.MissingVersionIsTaken` say exactly what the code
  does.
- `check_envelope` says that its result does not depend on the order the producer chose (src/lib.rs:398-401). It does
  where one signature fails to verify and another cannot be read. `Statements.OrderIrrelevantIff` is the exact
  condition, and `Statements.OrderCanMatter` an envelope in two orders.

- `intersects_ray` says that it decides whether a valid time meets the ray from an instant on (src/bitemporal.rs:78-83).
  An interval may be written with its end before its beginning, and such a one, which holds at no instant, is decided by
  its end alone. `Closure.CoversIff` is exactly what the code decides.

A later correction of a record, under no narrower a scope, covers what an earlier one seeded or reached unless it goes
back to a record the earlier one seeded: `AffectedSet.LaterCorrectionCoversIff` is the exact condition, and
`AffectedSet.RevertingCorrectionUncovers` three corrections of which the last does not cover the second.

## Model

| member | source | states |
|---|---|---|
| Merkle.RootFixesLeaves | src/lib.rs:1029-1032 | Under a collision-free hash, two leaf lists of one length with one root are the same list. |
| Merkle.SpanRootLocal | src/range_proof.rs:164-209 | The root over a span depends only on the leaves of that span, wherever it sits: what lets a subtree be rebuilt from carried leaves alone. |
| Merkle.SpanCollision | src/range_proof.rs:164-209 | Two different spans with one root exhibit a concrete collision of the node hash, with no assumption on it. |
| Merkle.RootSplits | src/range_proof.rs:164-209 | The root of no leaves is the empty root, of one leaf the leaf, and of more the node over the roots of the first 2 to the e leaves and of the rest, where 2 to the e is the greatest power below their number. |
| Inclusion.VerifiesIffFolds | src/range_proof.rs:255-289 | The shift-register loop of section 2.1.3.2 of RFC 9162 accepts a path exactly when the path has one hash per level of the index and folds to the root along the sides the tree shape gives. |
| Inclusion.AuditPathFolds | src/range_proof.rs:255-289 | The audit path of section 2.1.1 of RFC 6962 has the length of the side list and folds from its leaf to the root, for every tree and index. |
| Inclusion.FoldCollision | src/range_proof.rs:255-289 | A path of the right length that reaches the root from another leaf, or is not the audit path, exhibits a collision. |
| Inclusion.IncludedIffAuditPath | src/range_proof.rs:255-289 | Under a collision-free hash, inclusion is accepted for exactly the tree's own leaf with its own audit path. |
| RangeProof.PlanIsSound | src/range_proof.rs:78-94 | The decomposition classifies every subtree rightly: what it skips lies wholly outside the range, what it rebuilds wholly inside, and the parts tile the tree at the RFC 6962 split points. |
| RangeProof.HonestProofAccepted | src/range_proof.rs:154-161 | Completeness: for every non-empty sub-range of every tree, the generated proof with the range's leaves verifies against the tree's root. |
| RangeProof.ForgeryCollision | src/range_proof.rs:223-289 | Soundness without assumption: an accepted proof that differs from the honest one, or carries other leaves, exhibits a collision. |
| RangeProof.AcceptedIffHonest | src/range_proof.rs:223-289 | Under a collision-free hash, a proof is accepted against a tree of its declared size if and only if the range is non-empty and inside the tree, the leaves are the tree's, and the proof is the generated one. |
| RangeVerify.WalkOutside | src/range_proof.rs:98-125 | The recursive walk appends exactly the maximal outside subtrees with their depths, left to right, and no saturating addition or subtraction saturates, the depth counter included. |
| RangeVerify.Generate | src/range_proof.rs:148-161 | Generation yields the honest proof for exactly the non-empty sub-ranges, and the two errors for the others. |
| RangeVerify.Recompute | src/range_proof.rs:164-209 | The cursor-driven recursion returns the rebuilt root and the advanced cursor, or the error for a proof or a leaf set too short. |
| RangeVerify.SortedLabelsAreSiblings | src/range_proof.rs:276-277 | For a width-one range the walk meets one sibling for each depth, so the sort by depth gives the siblings leaf to root whatever order it keeps among equals. |
| RangeVerify.RebuiltIsFold | src/range_proof.rs:255-289 | For a width-one range the rebuilt root is the fold of the carried hashes, read as an audit path, over the leaf. |
| RangeVerify.CrossCheckAgrees | src/range_proof.rs:253-289 | A width-one proof that rebuilds the root always passes the inclusion cross-check: the two constructions cannot drift apart. |
| RangeVerify.PathOfSingleEntry | src/range_proof.rs:255-277 | The loop that labels nodes by depth and sorts them yields the sorted labels of the plan, with no node left unlabelled. |
| RangeVerify.Verify | src/range_proof.rs:223-289 | Verification as it runs, cross-check included, returns the verdict that completeness and soundness are proved about. |
| RangeVerdict.RefusedAs | src/range_proof.rs:223-243 | Which error verification ends with depends on shape alone: an empty tree, a range that is empty or leaves it, a wrong number of leaves, too few hashes or hashes left over, each exactly where it says so; a yes or no exactly where the number of hashes is the one generation carries. No leaf set is ever found short while hashing. |
| RangeVerdict.NoOnlyForTheRoot | src/range_proof.rs:240-246 | A proof that can be read rebuilds one root, whatever it is compared with, and is refused against every other. |
| RangeSize.BoundIsReached | src/range_proof.rs:98-125 | In every tree of 2 to the e leaves, the two leaves astride the middle need 2(e - 1) hashes: the bound is tight. |
| RangeSize.LargestProof | src/range_proof.rs:323-325 | The two middle leaves of the largest tree of 64-bit size take 126 hashes. |
| RangeSize.SixtyFourHashesIff | src/range_proof.rs:323-325 | Every range of a tree needs at most 64 hashes if and only if the tree has at most 2 to the 33 leaves. |
| RangeSize.GeneratedProofSize | src/range_proof.rs:323-325 | A generated proof has at most 2 times (ceiling of log2 of N, less one) hashes, one at most for a tree of one level, and never more than 126: the 32-bit count never overflows. |
| RangeCodec.Encode | src/range_proof.rs:317-331 | The buffer built field by field is the magic, three 64-bit and one 32-bit big-endian integers, and the hashes. |
| RangeCodec.DecodeOfEncoding | src/range_proof.rs:317-378 | Decoding an encoding gives the proof back, for every proof whose hash count fits the field. |
| RangeCodec.EncodingOfDecode | src/range_proof.rs:336-378 | Any octets that decode are exactly what encoding the result writes: there is one spelling for each proof. |
| RangeCodec.DecodeIffEncoding | src/range_proof.rs:336-378 | Both directions in one: octets decode to a proof if and only if they are its encoding and its count fits. |
| RangeLayout.DecodeIffLaidOut | src/range_proof.rs:312-378 | Octets decode to a proof if and only if they are laid out as the format says: the magic, the tree size at 6, the bounds at 14 and 22, the count at 30, each most significant octet first, and hash k at 34 + 32k. |
| RangeLayout.LaidOutIff | src/range_proof.rs:312-331 | Every proof is encoded to the octets so laid out, the count at its largest value where it does not fit. |
| RangeLayout.RefusedAs | src/range_proof.rs:336-368 | Octets are refused as truncated exactly where there are fewer than 34, then for another magic, then for a count that disagrees with what follows. |
| CommittedTree.CanonicalForm | src/tree.rs:96-110 | A commitment is canonical if and only if it is one of the two family names, a colon, and 64 lowercase hex digits. |
| CommittedTree.CommitmentAlphabet | src/tree.rs:96-110 | The families are `sha256` and `hmac-sha256`, and the digits `0` to `9` and `a` to `f`. |
| CommittedTree.Open | src/tree.rs:46-79 | The loop over leaves returns the first defect in leaf order, then the root mismatch, and otherwise the leaf set. |
| CommittedTree.OpensIff | src/tree.rs:46-79 | A leaf list opens if and only if it has the declared count, every record is canonical, records ascend strictly, and the list has the root. |
| CommittedTree.BeforeIff | src/tree.rs:61-63 | One record comes before another if and only if it is a proper beginning of it, or has the lesser byte at the first place they differ. |
| CommittedTree.OpenErrors | src/tree.rs:46-79 | Where the count is right, opening fails with the error of the first leaf that has no canonical record or does not ascend from the one before it, and where there is no such leaf, for the root it computes. |
| CommittedTree.OpeningIsUnique | src/tree.rs:46-79 | Root and count fix the leaf list: two lists that open against them are equal. |
| CommittedTree.RootFixesLeafList | src/tree.rs:68-77 | One root over two lists of one length makes them equal leaf by leaf. |
| CommittedTree.TreeRootSplits | src/tree.rs:68-77 | The root of a leaf list, by its leaves: the empty root, a leaf's hash, or a node over the first 2 to the e leaves and the rest. |
| CommittedTree.RecordSorted | src/lib.rs:1175-1189 | Sorting for commitment succeeds exactly for canonical, pairwise distinct records, permutes its input into strict order, and reports a duplicate only where every record is canonical. |
| CommittedTree.SortedOrderIsTheOnlyOne | src/lib.rs:1175-1189 | Its output opens against its own root and count, and no other order of the same leaves opens against any root. |
| CommittedTree.CommittableIff | src/lib.rs:1175-1189 | Some order of the leaves opens if and only if the records are canonical and distinct: sorting succeeds exactly when it can. |
| Closure.WiderIff | src/bitemporal.rs:86-133 | One scope covers whatever another covers if and only if it is retroactive, or neither is and it starts no later. |
| Closure.CoversIff | src/bitemporal.rs:78-133 | A scope covers a valid time if and only if it is retroactive, or the valid time holds at some instant from the scope's beginning on; an inverted interval holds at none, and is covered by its end. |
| Closure.Edges | src/closure.rs:154-184 | The nested loops collect the edges of the first entries of the log, or the first error in entry order. |
| Closure.EdgesOfLeaf | src/closure.rs:167-180 | One output leaf contributes an edge from each of its resolved inputs, in order, or the first error. |
| Closure.LogEdgesAre | src/closure.rs:97-180 | Without the loops, from the members of the entries: an edge is read off a prefix if and only if its entry is there, is a derivation at the edge's time, and states the edge's output, by dataset and record and inline or committed, as made from inputs that name the edge's input, listed or committed. |
| Closure.LogEdgesReadIff | src/closure.rs:97-180 | The edges of a prefix can be read if and only if every derivation in it has a time, outputs and inputs that are there, or commitments that open, with a dataset and a record in each. |
| Closure.TriggerSeeds | src/closure.rs:197-233 | The seeds are the trigger's record and, for a correction, every replacement an earlier correction of that record anchored other than its own. |
| Closure.SeedsAre | src/closure.rs:190-233 | There are seeds if and only if the entry is a retraction or correction that names a record; they are that record and, for a correction, the replacements other than its own of earlier corrections of it. |
| AffectedSet.ReachedIsClosed | src/closure.rs:263-285 | Seeds and reached records together are closed under in-scope edges. |
| AffectedSet.ClosedHoldsReached | src/closure.rs:263-285 | They are within every set that holds the seeds and is closed: the least such set. |
| AffectedSet.IndexConsumers | src/closure.rs:263-269 | The consumer index maps each record to the outputs of the in-scope edges out of it, and to nothing else. |
| AffectedSet.Search | src/closure.rs:270-285 | The worklist search ends, on any graph and with cycles, and returns exactly the records reachable by one or more in-scope edges, seeds excluded. |
| AffectedSet.ComputeAffectedSet | src/closure.rs:250-286 | The whole computation returns the closure defined by reachability, or the error its reading of seeds, scope or edges raises. |
| ClosureMeaning.AffectedSetIsLeast | src/closure.rs:250-286 | What is computed, said of the entries: seeds and affected records together are the least set that holds the seeds and that no derivation in scope, among the entries, leads out of; the two are disjoint. |
| ClosureMeaning.AffectedSetReadIff | src/closure.rs:250-286 | It is computed if and only if the trigger names a record and has a scope, and every derivation among the entries can be read. |
| ClosureMeaning.ConsumersOfTheTriggerAreAffected | src/closure.rs:250-286 | What a derivation in scope makes from inputs that list the trigger's dataset and record is affected, unless it is itself a seed. |
| AffectedSet.MaterialIsIrrelevant | src/closure.rs:97-180 | Any two tree materials for which the computation succeeds on one log give the same closure. |
| AffectedSet.LongerPrefixGrows | src/closure.rs:250-286 | A longer prefix has the same seeds and affects no fewer records, and success on it implies success on the shorter one. |
| AffectedSet.ClosureGrows | src/closure.rs:250-286 | More edges, a wider scope or more seeds never lose a record from seeds and affected together. |
| AffectedSet.AdditionsIrrelevantIff | src/closure.rs:250-286 | Added edges leave the affected set as it was if and only if no in-scope one leads out of the seeds and affected records together. |
| AffectedSet.SeedsSupersededIff | src/closure.rs:197-233 | Of two corrections of one record, the later seeds all the earlier seeds if and only if its own replacement is absent, is the record, or is not among them. |
| AffectedSet.LaterCorrectionCoversIff | src/closure.rs:197-286 | Under no narrower a scope and no shorter a prefix, a later correction covers every record an earlier one seeded or reached if and only if its own replacement is absent, is the record, was no seed of the earlier one, or is itself reached from the later one's seeds. |
| AffectedSet.RevertingCorrectionUncovers | src/closure.rs:197-233 | Of corrections of one record to y, to z and back to y, the last does not cover the second: y is seeded by the second and neither seeded nor reached by the last. |
| Propagation.LogLeafDeterminesEntry | src/lib.rs:1005-1016 | Under either profile the log-leaf bytes fix the whole envelope. |
| Propagation.DecodeEnumeration | src/receipt.rs:5449-5525 | Enumeration material decodes exactly when its entries are in index order without a hole, its proof is for the declared range and tree size, and the proof verifies. |
| Propagation.EnumerationIsTheLog | src/receipt.rs:5449-5525 | Accepted enumeration material is that slice of the committed log: complete and in order. |
| Propagation.EnumeratesIff | src/receipt.rs:5449-5525 | Against the root of a log, enumeration material is accepted if and only if it is the honest material for its range: the log's own entries with their own indexes, payloads in each, and the generated proof. |
| Propagation.UnreadAddNoEdge | src/receipt.rs:7857-7905 | The edges over a prefix are exactly those its readable derivations state: void and set-aside entries contribute none. |
| Propagation.UnreadSeedNothing | src/receipt.rs:7857-7905 | The seeds are the trigger's record and the other replacements of readable earlier corrections: void and set-aside entries contribute none. |
| Propagation.DispositionsUnique | src/receipt.rs:7880-7967 | Whatever leaf list opens the anchored affected root is the one the verifier read. |
| Propagation.VerifyPropagationComplete | src/receipt.rs:7752-7967 | The check passes if and only if each of its conditions holds: the bound prefix with its sweep under the governance state, the opened dispositions, the bound trigger, and last the closure equal to the dispositions. |
| Propagation.RecordsOfAre | src/receipt.rs:7952-7956 | What is compared with the closure is the dataset and record of every leaf, and nothing is where some leaf lacks one of the two. |
| PropagationMeaning.AcceptedIff | src/receipt.rs:7752-7967 | Over a log the anchoring checkpoint commits, a claim is accepted if and only if it is of its kind with an enumerated currency and work left, carries the declared checkpoint in every member both state, authentic where that can be checked, the log's own prefix, an embedded receipt of the log's own trigger, and dispositions that open and are the closure. |
| Propagation.PropagationComplete | src/receipt.rs:7809-7967 | End to end: if the claim is accepted under a root committing a log, the declared checkpoint's root is the root of exactly its prefix of that log; every leaf of whatever list opens the anchored root bears a dataset and a record; and a pair is borne by some leaf if and only if it is no seed of the trigger and is in every set that holds the seeds and that no readable entry of the prefix in scope leads out of. Readable is what neither the governance state excludes nor another check of the run recorded. |
| PropagationLaws.OwnRecordIsExcluded | src/receipt.rs:6134-6147 | Whatever the receipt's own walk and its own sweep over enumerated currency recorded, the governance state excludes anyway. |
| PropagationLaws.PropagationBySignatures | src/receipt.rs:7809-7967 | So, where nothing else was recorded, what the leaves bear is the closure over exactly the entries that the walk took in, or that verify under the completed keys at their own index and are of this revision. |
| PropagationLaws.CapabilityDoesNotDecide | src/receipt.rs:6274-6282 | Where the state is established for the anchoring checkpoint, which is the only place this claim is settled, a verifier with the adaptor profile accepts exactly what one without it does and whose declared checkpoint, which only the first can check, is authentic. |
| Propagation.HonestMaterialDecidedByClosure | src/receipt.rs:7809-7967 | Conversely, honest material for a log is refused only where the dispositions are not the closure. |
| Statements.CheckEnvelope | src/lib.rs:425-455 | The loop returns the outcome of the sweep: the first bad or unreadable entry, else the first unresolved key, else verified. |
| Statements.VerifiedIff | src/lib.rs:425-455 | An envelope verifies if and only if it has signatures, and every one names a key of the map under which it verifies over the payload. |
| Statements.CheckMeaning | src/lib.rs:395-455 | Over readable signatures, an envelope verifies exactly when there is one and all resolve and verify, and a bad one outranks a missing key wherever either stands. |
| Statements.OrderIrrelevantIff | src/lib.rs:398-401 | The verdict is the same for every order of the signatures if and only if none is bad or none is unreadable. |
| Statements.OrderCanMatter | src/lib.rs:425-455 | A bad signature beside an entry without one: bad first is invalid, the other way round is an error. |
| KeyState.ProducerKeysAt | src/receipt.rs:2408-2437 | The loop over snapshot and events computes the keys in force at an index, each with the index it is bound to. |
| KeyState.LookupIsMachine | src/receipt.rs:2393-2437 | At every index the lookup is the fold over governance statements in entry order: manifests below the index replace the set, key events up to it add or retire. |
| KeyState.BoundToLastInstaller | src/receipt.rs:2420-2436 | A key in force is bound to the last statement in force that touched it, and that statement installed this value. |
| KeyState.KeysInForceIff | src/receipt.rs:2393-2437 | A key is in force at an index with a value and an index if and only if the last statement in force that touches it is an event adding it so, or a manifest that declares it, with the value it declares last; a retiring event leaves it out of force. |
| KeyState.LaterChangesNothing | src/receipt.rs:2393-2437 | Appending manifests at or after an index and events after it changes neither the keys nor the snapshot manifest there. |
| GovernanceWalk.WalkMerged | src/receipt.rs:3998-4273 | The two-cursor loop ends where the iteration-by-iteration walk ends, with its manifests, events, cursors and void entries, or with its error. |
| GovernanceWalk.ChainVersionIndex | src/receipt.rs:3809-3818 | The loop builds the first-wins index of version ids and the set of carried indexes, or fails at a missing payload. |
| GovernanceWalk.ReadChain | src/receipt.rs:3821-4310 | The whole induction, base case and closing checks included, yields the governance state the laws below are about. |
| GovernanceMeaning.GenesisAcceptedIff | src/receipt.rs:3836-3960 | The base case holds if and only if the chain starts, at index 0, with a supported and well-formed manifest without predecessor whose entry id is the one the receipt declares, and ascends with a payload in every element. |
| GovernanceMeaning.AcceptedGenesis | src/receipt.rs:3888-3925 | So for every accepted chain; that manifest is the first in force, and no anchor mismatch is recorded if and only if policy anchors its entry id and, where it holds key ids, exactly those it declares. |
| GovernanceMeaning.StatementsTakenAs | src/receipt.rs:4015-4240 | Every later statement of the state is signed in full under the keys of those before it, is of this revision, and is a key change under its own key's id that names the manifest before it, or a manifest that names that one as its predecessor. |
| GovernanceComplete.NothingIsLost | src/receipt.rs:3991-4273 | On an accepted chain every statement carried below the point the walk stopped at is settled: a chain element is in the state or repeats an earlier id and is kept as a duplicate; a `key` statement is in the state, repeats an earlier id, or fails under the statements before it and is void for that reason. |
| GovernanceComplete.NothingIsAdded | src/receipt.rs:3991-4273 | And the state holds no statement the receipt does not carry, at its index, nor an index walked for none. |
| GovernanceAgreement.FirstWins | src/receipt.rs:3800-3818 | In an ascending chain a version id is governed from the smallest index that bears it. |
| GovernanceLaws.InductionIsSafe | src/receipt.rs:3991-4273 | Every accepted walk's manifests and key events come from one trail, the genesis first, in which each later statement verified under the keys of the statements before it alone, has a greater index, and a statement id no earlier one has. |
| GovernanceLaws.SafeAtEveryPosition | src/receipt.rs:3991-4273 | The same said position by position, with the form each statement had to have: predecessor, schema, key id, named manifest, revision. |
| GovernanceLaws.FinalStateAtOwnIndex | src/receipt.rs:4042-4070 | At a statement's own index the finished state is the one it verified under, with a key statement's own effect added and nothing else. |
| GovernanceLaws.AcceptedStreamsAscend | src/receipt.rs:3630-3639 | On a walk that did not stop, the two streams merged ascend strictly: no index is out of order or claimed by both. |
| GovernanceAgreement.RotationProofsAreOneToOne | src/receipt.rs:4181-4298 | On an accepted walk that did not stop, the rotation proofs name, in order, exactly the manifests whose log or witness key set differs from their predecessor's, each verified under the outgoing manifest, and the member is absent if and only if there is none. |
| GovernanceMeaning.RotationIndexesAre | src/receipt.rs:4181-4200 | The indexes at which a proof is due are those of the manifests whose log keys or whose witness keys differ from those of the manifest before. |
| GovernanceAgreement.CapabilityAgreement | src/receipt.rs:4213-4230 | A verifier with the adaptor profile and one without that both accept a chain hold the same state, or the second stopped at an index, its manifests and key events are exactly the first's below that index, and so are the indexes it walked. |
| GovernanceAgreement.EstablishedStateAgrees | src/receipt.rs:2300-2316 | Then keys, snapshot manifest and active version agree wherever the lesser one calls its state established. |
| GovernanceAgreement.EstablishedCheckpointAgrees | src/receipt.rs:2360-2366 | And so does the manifest active for any checkpoint size it calls established. |
| GovernanceMeaning.ActiveForIs | src/receipt.rs:2360-2366 | The manifest active for a checkpoint is the last one below its size, and there is none if and only if none is below it. |
| GovernanceMeaning.EstablishedIff | src/receipt.rs:2300-2316 | A state is established for a checkpoint if and only if it is at every index below its size; where the walk stopped, that is at every index before the stop and at no other. |
| GovernanceAgreement.VoidIsAsIfAbsent | src/receipt.rs:4028-4044 | An enumerated statement that does not verify at its turn leaves the rest of an accepted walk as if it were not in the stream, statement ids included. |
| GovernanceLaws.StopKeepsTrail | src/receipt.rs:4058-4063 | A statement the walk stops at, foreign revision or rotation, has no effect, and the stop is at its index. |
| EntrySweep.EnumeratedKeysAre | src/receipt.rs:6552-6560 | The second stream of the walk is exactly the `key` statements among the enumerated entries, each at its own index. |
| EntrySweep.VerifyEnumeratedEnvelopes | src/receipt.rs:5567-5650 | The loop over enumerated entries records as void or sets aside what the sweep does, or ends with the first entry that fails outright. |
| EntrySweep.SweepEndsIff | src/receipt.rs:5587-5647 | It comes to its end if and only if every entry is exempt, or has signatures that can be checked and, where they verify and the revision is this one, well-formed common fields. |
| EntrySweep.SweepMeaning | src/receipt.rs:5575-5645 | What it leaves recorded is exactly the entries of the range, neither walked nor verified before, that do not verify under the completed keys at their own index, or that verify and declare a foreign revision. |
| EntrySweep.WalkVoidsAreExcluded | src/receipt.rs:4028-4044 | A `key` statement the walk recorded as void under the keys so far fails under the completed keys too: the sweep over the same entries excludes it. |
| EntrySweep.SweepsAgree | src/receipt.rs:2300-2316 | Over entries below the index a lesser verifier stopped at, its sweep and that of one with the profile are the same. |
| GovernanceVersions.StopsExactlyAt | src/receipt.rs:4015-4230 | When exactly an iteration stops the walk: a verifying first copy of a foreign revision, or a well-formed rotation without a profile. |
| GovernanceVersions.MissingVersionIsTaken | src/receipt.rs:4058-4126 | A statement without the version member is treated exactly as one of this revision. |
| GovernanceVersions.MissingVersionIsInducted | src/receipt.rs:4118-4126 | A concrete accepted chain whose second manifest has no version member. |
| FindingsRun.Run.Note | src/receipt.rs:1876-1902 | Recording keeps one finding per assertion and path and the dominating outcome. |
| FindingsMeaning.RecordIs | src/receipt.rs:1876-1902 | Recording touches nothing but the one finding for the assertion at the path, which becomes the new one where there was none or a less severe one, and else stays. |
| FindingsRun.Run.Settle | src/receipt.rs:1941-1959 | A pass is recorded verified, or unverifiable and blocked in turn where something it rests on is blocked. |
| FindingsRun.Run.CarryPast | src/receipt.rs:2019-2052 | A rejection is handed back or recorded as a cause, deferred and blocked, and which of the two. |
| FindingsMeaning.AboutIs | src/receipt.rs:1916-1925 | A rejection is about the running phase, or outside one about what it names; a spent budget is always about the limits; and only a defect is invalid. |
| FindingsMeaning.HandedBackIff | src/receipt.rs:2019-2052 | A rejection ends the run if and only if it is an unsupported version, a spent budget, or a defect other than of the content binding of an embedded receipt. |
| FindingsMeaning.CarriedPastAs | src/receipt.rs:2019-2052 | Any other is recorded as a cause under what it is about, blocks that and nothing else, and is kept for the single value. |
| FindingsRun.Run.SettleBinding | src/receipt.rs:2060-2069 | The content binding is settled, and a stopped rotation is reported as resting on governance. |
| FindingsRun.Run.RunNested | src/receipt.rs:5846-6311 | One receipt in the order of phases and passes, blocks and phase restored only on success. |
| FindingsRun.Run.RunEmbedded | src/receipt.rs:7155-7191 | An embedded receipt at its own path: served from the cache by digest, or run and cached; the path is popped only on success. |
| FindingsRun.Run.ToReport | src/receipt.rs:2084-2142 | The fatal rejection is recorded where the run stopped, unreached assertions are filled in for a gap, and the findings sorted and reduced. |
| FindingsLaws.NestedKeeps | src/receipt.rs:1870-2069 | Whatever a receipt's checks find, to any depth of embedding: no finding that counts is invalid while the run goes on; a counting finding short of verified means a cause and a deferred rejection that count; a rejection that ends the run counts. |
| FindingsVerified.VerifiedIff | src/receipt.rs:5846-6311 | A receipt is verified if and only if its version is read, it is not too large, and no check over it, or over any receipt embedded in it, finds anything, the content binding of embedded receipts apart. |
| FindingsVerified.InvalidIff | src/receipt.rs:2084-2142 | It is invalid if and only if a defect ended its run. |
| FindingsRefused.FirstRefusalDecides | src/receipt.rs:5846-6098 | Of the ten checks that refuse a receipt outright, the first to do so, where nothing else was found before it, ends the run, reported under the assertion the source puts it under. |
| FindingsEnded.EndedReportIs | src/receipt.rs:2084-2142 | The findings of a run that a rejection ended are, one by one, those it had, the rejection's own as a cause where it is about, and, for a gap and only then, one resting on that for each required assertion of the receipt that has none. |
| FindingsEnded.UnreadRootReport | src/receipt.rs:5814-5840 | A receipt whose version is not read, or that is too large, is refused for just that: the single value is that rejection, and every other finding rests on it. |
| FindingsEmbedded.EmbeddedIsReported | src/receipt.rs:7155-7191 | An embedded receipt has at its slot a finding for every assertion it requires, made by its run or served from the cache, and none served is better than what the first run of it found. |
| FindingsEmbedded.RunFillsCache | src/receipt.rs:7155-7191 | What a run of an embedded receipt leaves in the cache covers every assertion it requires. |
| FindingsReport.ReduceMeans | src/receipt.rs:2201-2208 | The reduction is invalid exactly where some counting finding is, and verified exactly where all are. |
| FindingsReport.EntryPointsAgree | src/receipt.rs:5742-5812 | The single value is the verdict if and only if the report's result is verified, with that verdict in the report, and otherwise its rejection's class is the result. |
| FindingsReport.EveryResultHasACause | src/receipt.rs:538-569 | Every result short of verified is led by a counting finding of that outcome that rests on nothing: the last fallback of `dominating` is never taken. |
| FindingsMeaning.LeadIsFirst | src/receipt.rs:538-569 | What leads a report is its first defect that counts, and where there is none its first gap that rests on nothing. |
| FindingsMeaning.DeferredLeadIsFirst | src/receipt.rs:2153-2195 | The single value carries a rejection that counts, and no other that counts comes before it by path and order of the algorithm. |
| FindingsComplete.ReportIsComplete | src/receipt.rs:2084-2142 | A report has at most one finding for an assertion and path, and, unless it is invalid, one for every assertion the receipt requires. |
| FindingsComplete.ReportIsOrdered | src/receipt.rs:2101-2103 | The findings ascend strictly by receipt path and then by the order of the algorithm. |
| FindingsMeaning.PathBeforeIff | src/receipt.rs:2101-2103 | One receipt path is before another if and only if it is a beginning of it, or has the lesser member where they first differ. |
| FindingsGaps.GapsReachWhatRestsOnThem | src/receipt.rs:1776-1836 | By name, on a run that came to its end: governance short of verified leaves checkpoint, witnesses and envelope short; the profile leaves checkpoint and witnesses short; and for a claim that depends on authority, governance or the envelope leaves the claim material short. |
| FindingsGaps.WitnessesRestOnCheckpoint | src/receipt.rs:1776-1836 | The checkpoint short of verified leaves the witnesses short, where no gap is carried past while claim material authenticates a checkpoint. |
| FindingsGaps.ConsistencyRestsOnUnevaluated | src/receipt.rs:6233-6251 | Where the cross-field rules over the witnesses were left unevaluated, witnesses short of verified leave the cross-field finding short; so does the checkpoint, under the same condition. |
| FindingsMeaning.FindingsRestByName | src/receipt.rs:1820-1836 | And no finding of the receipt's own is reported as resting on anything but what, by name, it may rest on. |
| FindingsGaps.GapsReachNothingElse | src/receipt.rs:1776-1836 | On such a run versions, limits, structure and paths each have a finding, and it is verified, whatever else was short. |
| FindingsRest.PassMirrors | src/receipt.rs:1941-1959 | A pass keeps the blocked list equal to the receipt's own findings short of verified. |
| MediaType.ParseMediaType | src/descriptor.rs:158-195 | The loop over the rest of the input reads the parameters the grammar reader reads, with the error of the first rule broken. |
| MediaType.ParseOfText | src/descriptor.rs:145-195 | Every text of the production, with any whitespace around the semicolons, parses to what it means. |
| MediaType.TextOfParse | src/descriptor.rs:145-195 | Every text that parses is one of the production, with that meaning. |
| MediaTypeMeaning.TcharIffVisible | src/descriptor.rs:106-127 | Token characters are the visible ones of US-ASCII less the 17 delimiters. |
| MediaTypeNormal.ValidateMediaType | src/descriptor.rs:214-241 | Sorting lowercased names and lowering `charset` values while writing gives the normal form, or refuses a repeated name. |
| MediaTypeMeaning.NormalizeIff | src/descriptor.rs:199-241 | Character by character: one text is the normal form of another if and only if both parse, it holds no space or tab, its type, subtype, names and `charset` values are the other's with the 26 upper-case letters made lower, other values the other's own, and its names ascend strictly by byte. |
| MediaTypeNormal.OutputParsesToCanonical | src/descriptor.rs:199-241 | The output parses again, to exactly the lowercased tokens in strictly ascending order of name. |
| MediaTypeNormal.NormalizeIsIdempotent | src/descriptor.rs:199-241 | Normalizing again changes nothing. |
| MediaTypeNormal.SpellingDoesNotMatter | src/descriptor.rs:199-241 | Declarations that differ in parameter order, whitespace, or the case of type, subtype, names and `charset` values normalize alike, refusals included. |
| MediaTypeNormal.SameNormalFormIff | src/descriptor.rs:199-241 | Two media types have one normal form if and only if they differ in no other way. |
| MediaTypeNormal.RefusedForRepeatIff | src/descriptor.rs:221-228 | A text that parses is refused if and only if two of its parameter names agree up to case. |
| Duration.DurationNanos | src/receipt.rs:2792-2885 | The reader returns the exact value or the rule broken, and every product and sum it checks against 128 bits is proved to fit. |
| Duration.AcceptedIff | src/receipt.rs:2792-2885 | A text is accepted if and only if it is `P[nD][T[nH][nM][n[.f]S]]` with a component, something after `T`, numbers of 64 bits and at most nine fractional digits, and then for the exact nanoseconds. |
| DurationMeaning.AcceptedAs | src/receipt.rs:2792-2885 | A text is accepted if and only if it is `P`, days before `D`, and after a `T` hours before `H`, minutes before `M` and seconds before `S`, each there or not, and then for (((days * 24 + hours) * 60 + minutes) * 60 + seconds) seconds and the fraction, in nanoseconds. |
| DurationMeaning.DigitAppended | src/receipt.rs:2798-2806 | A digit appended makes a number tenfold and adds the digit. |
| Duration.ReadOfText | src/receipt.rs:2806-2885 | Every text of the grammar is read as what it spells. |
| Duration.TextOfRead | src/receipt.rs:2806-2885 | Every text that is read spells what it is read as. |
| Duration.ValueNeeds128Bits | src/receipt.rs:2808-2880 | No value of the grammar needs more than 128 bits. |
| Duration.FractionFits | src/receipt.rs:2853-2868 | Scaling a fraction of k digits gives its nine-digit padding, less than a second. |

## Left out

- Ed25519, SHA-256, HMAC, base64, hex and JCS (RFC 8785): uninterpreted functions, injective only where a theorem says so.
- JSON shape checks, `log_object`, `datasets_object` and the other member-by-member schema tests: one flag each.
- RFC 3339 parsing and the calendar of ATL checkpoints: instants are integers.
- Adaptor-profile resolution, checkpoint and cosignature verification, content binding, the competing-trigger rule and rendering: outcomes the machines are given.
- Which rejection names which rule, and all error text: rejections carry their class and the assertion they name.
- The work and decoded-size budgets: their exhaustion is one of the rejections a check may raise.
- Informative items: which indexes are void and why is kept, the list a report shows of them is not.
- The descriptor digest, dataset ids and canonicalization identifiers: short independent rules.
- The test-vector generator, the fuzz harness and the fixed data.
- RangeCodec.Encode: octets only, the base64 wrapping is not modelled.
- Propagation.VerifyPropagationComplete: the trigger's embedded receipt and the checkpoint signature enter as their outcomes, and so do the indexes an embedded receipt recorded.
- PropagationLaws.PropagationBySignatures: for runs in which only the receipt's own checks recorded an index; `PropagationComplete` holds for all, with what else was recorded taken out of the closure as the source does.
- GovernanceWalk.ReadChain: the budget spent on each signature is not counted, so a walk here never ends for want of it.
- FindingsRun.Run.RunEmbedded: findings served from the cache are recorded at the slot's own path, as the source does, so nothing is claimed about the sub-paths they had.
- FindingsReport.EntryPointsAgree: agreement is in class; the rejection returned and the leading finding may name different assertions where an embedded receipt was cut short or served from the cache.
- FindingsGaps.GapsReachWhatRestsOnThem: for runs that came to their end; a run cut short is covered by `ReportIsComplete` and `EveryResultHasACause`.
- FindingsGaps.ConsistencyRestsOnUnevaluated: of the checkpoint, under the condition of `FindingsGaps.WitnessesRestOnCheckpoint`.
- FindingsGaps.WitnessesRestOnCheckpoint: not for material that carries a gap past while it authenticates a second checkpoint; there the source settles the witnesses first (src/receipt.rs:5385, 7791-7801).
- FindingsRefused.FirstRefusalDecides: for receipts of which nothing else was found before; the others are covered by `FindingsVerified.VerifiedIff` and `FindingsReport.EveryResultHasACause`.
- MediaTypeNormal.RefusedForRepeatIff: which of several repeated names the error carries is not modelled.
- Duration.DurationNanos: the source's overflow errors have no counterpart, since the arithmetic is proved to fit.
