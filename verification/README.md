# Overlay services: verified model

A Dafny model of the parts of the overlay services that carry its hard guarantees, with proofs. It covers four
components.

**BASM Merkle and TAC verification** (`merkle`, `proof_levels`, `basm_proof`, `proof_soundness`, `proof_union`,
`proof_merge`, `proof_merge_soundness`, `anchors`, `chain`). BRC-136 roots, the sparse proof walk, merging of proofs, topic
block anchors and cumulative TAC chains. SHA256d is an arbitrary function from byte strings to hashes: where a result
would need collision resistance, it says that the claim holds or that two distinct preimages with one hash are exhibited.

**The durable operation, payload and admission protocol in MongoDB** (`snapshot`, `operation`, `operation_calls`,
`payload`, `payload_runs`, `transaction`, `admission`, `admission_plan`, `admission_runs`, `admission_replay`, `recovery_lease`). A document
store whose rows carry versions; single-document updates are atomic, and a transaction reads a snapshot (possibly an old
one), buffers its writes and commits only if no row it wrote was written since. This store is an assumption about MongoDB
(`Snapshot.CommitAt` says what a commit does to each row), not a result about the repository. Runs are arbitrary
interleavings of the steps of any number of callers. Callers may crash, act on rows they read long ago, and lose any
reply. The calls on operations and the body of an admission are methods; others may act before each database step of a
call, the statements inside a transaction and its commit included, so that commits can meet conflicts.

**GASP graph ordering** (`gasp_graph`). The iterate-until-no-progress topological sort under any map order, and the
hydrator that it feeds.

**Binary codecs and canonical encodings** (`wire_reader`, `anchor_codec`, `raw_transaction`, `bump`, `gasp_wire`, `text`,
`storage_uint`, `tokens`, `framing`, `admission_identity`). Parsers and printers with inverses, decimal storage integers, and the
length-framed byte streams that identities are digests of.

Conventions. A Go string is a Dafny string with one character per byte, or a sequence of bytes where bytes are written.
UTF-8 validity (section 4 of RFC 3629), the digest and the transaction library are parameters, so every result holds for
any of them. A slice or pointer that may be nil is an `Option`. Time is a nondecreasing number.

Results that differ from what a reader of the code may expect:

- The preflight bounds `remaining/41`, `remaining/9` and `remaining/2`, and the bound on the tree height, never refuse a
  valid encoding: each preflight accepts exactly the serializations of well-formed values.
- GASP varints have no shortest form, so a node and a node response have several accepted encodings
  (`GaspWire.NodesHaveTwoEncodings`). Accepted bytes are what the serializer writes exactly when every varint is shortest,
  no key or outpoint is repeated and, for responses, flags are 0 or 1 and the count is that of the entries
  (`GaspWire.NodeEncodingIsShortest`, `GaspWire.ResponseEncodingIsShortest`).
- The GASP decoders add lengths and offsets as 64-bit ints, and a sum that wraps passes the check for too short data. While
  the true sum is below 2^63 the check is exact; beyond, the outcome depends on the sum modulo 2^64, and a call may panic or
  read a response with 2^63 entries as empty (`GaspWire.ReadByteFieldOutcome`, `GaspWire.NodeResponseOutcome`,
  `GaspWire.OutputListOutcome`, `GaspWire.CountsCanWrap`).
- A node with more than 2^32-1 inputs is written but refused when read (`GaspWire.NodeRoundTrip` says exactly when). The
  messages that end with an output list accept any bytes behind it (`GaspWire.InitialMessagesRoundTrip`), unlike nodes and
  node responses.
- A graph with a cycle can be reported with another error when a node off every cycle cannot be hydrated; when every node
  that can be emitted hydrates, the cycle error is returned exactly on a cycle (`GaspGraph.ComputeOrderedBeefs`).
- `AppendToGraph` leaves the new node in the graph when it reports a missing spender (`GaspGraph.GraphContext.AppendToGraph`).
- A committed release need not remove a reference: when the release finds none in its snapshot it writes nothing, and a
  reference that another transaction pinned meanwhile remains. `PayloadRuns.CommittedRelease` says exactly when it is gone,
  and `PayloadRuns.ReleaseCanFindNothing` has such a run.
- A call that meets an aborted operation on the last token answers pending with the old attempt
  (`OperationCalls.Database.ExecuteOperation`).
- A row that an outbox event is inserted into cannot be a duplicate once validation has passed
  (`AdmissionPlan.WriteOutbox`), and a spend that validation accepts can still be evicted by the same decision.

## Model

| member | source | states |
|---|---|---|
| Merkle.WidthIsCeiling | pkg/core/basm/hash.go:125-140 | the loop arithmetic width/2 + width%2 makes the width of a level the ceiling of n / 2^level, for every n |
| Merkle.HashMerkleLayer | pkg/core/basm/hash.go:125-140 | the in-place layer loop computes the layer of parents, an odd last node paired with itself |
| Merkle.HashMerkleRoot | pkg/core/basm/hash.go:108-123 | replacing layers until one hash is left gives the root of the leaves |
| Merkle.Root | pkg/core/basm/hash.go:80-106 | root with the zero hash for no leaves, and the two refusals by the leaf limit |
| Merkle.RootIsTopLayer | pkg/core/basm/hash.go:108-123 | the root is the single node of the layer at tree height, so the loop and the level-wise tree agree |
| Merkle.RootCommitsToLeaves | pkg/core/basm/hash.go:108-162 | two lists of one length with one root are equal, or a pair collision in their trees is exhibited |
| Merkle.PairBytesInOrder | pkg/core/basm/hash.go:154-160 | a parent hashes the left hash before the right one |
| BasmProof.ProofDepthIsLeast | pkg/core/engine/basm-read-proof.go:52-58 | the bit-length depth is the least d with 2^d >= n for n > 1, and one level for a single leaf |
| BasmProof.LegalProofAncestor | pkg/core/engine/basm-read-proof.go:247-255 | the binary search over shifted sorted offsets finds exactly the offsets above some base leaf |
| BasmProof.IndexProofNode | pkg/core/engine/basm-read-proof.go:212-245 | what one supplied node adds to its level and to the base offsets, and exactly when it is refused |
| BasmProof.IndexProofNodes | pkg/core/engine/basm-read-proof.go:188-210 | indexing succeeds exactly for paths whose nodes are in range, unique, well formed and above a base leaf |
| BasmProof.DeriveProofLevel | pkg/core/engine/basm-read-proof.go:283-303 | parents are derived for every known pair, in any map order, unless a supplied parent differs |
| BasmProof.DeriveProofParents | pkg/core/engine/basm-read-proof.go:271-281 | the level-by-level derivation computes the closure of the supplied nodes under hashing |
| BasmProof.ConnectedProofBase | pkg/core/engine/basm-read-proof.go:323-330 | the walk from a base leaf meets its sibling at every level or a duplicate at an odd edge |
| BasmProof.ValidateBASMProof | pkg/core/engine/basm-read-proof.go:163-186 | the whole check accepts exactly the paths of the declarative acceptance condition, none of another block height or with too many levels |
| ProofSoundness.ProofIsSound | pkg/core/engine/basm-read-proof.go:163-330 | an accepted path is true of every leaf list with the header's count and root: the leaf at the position, every supplied node requested or not, and duplicates only at odd edges; or a collision |
| ProofSoundness.ProofIsComplete | pkg/core/engine/basm-read-proof.go:163-330 | for every n from 1 to 2^53-1 and position below n, the sibling path is accepted against the root of the leaves |
| ProofUnion.UnionIsValid | pkg/core/engine/basm-read-proof.go:109-118 | the level-wise union of two valid sparse trees that agree is valid |
| ProofMerge.MergeIgnoresOrder | pkg/core/engine/basm-read-proof.go:60-133 | merging the same proofs in any order gives the same places, hashes, duplicates and requested leaves |
| ProofMerge.MergeProofNode | pkg/core/engine/basm-read-proof.go:120-133 | one element is merged, kept or refused, and a leaf stays marked as requested once any proof marks it |
| ProofMerge.MergeProofLevels | pkg/core/engine/basm-read-proof.go:109-118 | merging a proof into the levels succeeds exactly when it agrees with all merged before |
| ProofMerge.MergeRequestedProofs | pkg/core/engine/basm-read-proof.go:60-107 | success means every proof was served and accepted, the result is their union and the bytes read stay within the limit; a failure is the first request that is refused or conflicts, with its error |
| ProofMergeSoundness.AcceptedProofsDoNotConflict | pkg/core/engine/basm-read-proof.go:109-133 | proofs accepted against one header never conflict when merged, or a collision is exhibited |
| ProofMergeSoundness.MergedProofIsAccepted | pkg/core/engine/basm-read-proof.go:60-147 | the merged proof is accepted for every requested txid and position, or a collision is exhibited |
| Anchors.EntriesAreInBlock | pkg/core/basm/values.go:116-149 | comparing neighbouring indices and remembering txids decides that indices rise, fit the block and no txid repeats |
| Anchors.AdmittedLeaves | pkg/core/basm/values.go:116-149 | the loop returns the txids in order exactly when the list is well formed |
| Anchors.ValidateAdmittedList | pkg/core/basm/values.go:86-114 | accepted exactly within the limits, with the root of the admitted txids; each refusal has its error |
| Anchors.ValidateAnchorList | pkg/core/basm/values.go:151-169 | accepted exactly when anchor, count, list and root agree; the error is that of the first disagreement |
| Anchors.AnchorCommitsToList | pkg/core/basm/values.go:151-169 | equal-length lists accepted under one root have the same txids in order, or a collision |
| Anchors.ValidateRange | pkg/core/basm/values.go:171-180 | a range is accepted exactly when it is ordered and fits, its count is inclusive, and only an ordered range over a limit is too large |
| Anchors.ValidAnchorIsWellFormed | pkg/core/basm/values.go:29-71 | an anchor is valid exactly with positive limits, a bounded UTF-8 topic, a bounded count and the zero root for nothing; which error each failure has |
| TopicChain.EqualTipsHaveOneHistory | pkg/core/basm/chain.go:37-64 | chains with one genesis and equal tips have the same block hash and root at every height, or a collision |
| TopicChain.EqualTipsHaveOneAdmission | pkg/core/basm/chain.go:37-64 | equal tips even fix the admitted txids of each height, or a collision |
| TopicChain.AppendsTheNextAnchor | pkg/core/basm/chain.go:37-64 | an anchor is appended exactly when it is well formed, of the topic and next in height, and the tip is then the hash of the old one, the block hash and the root |
| TopicChain.ValidateAnchorRange | pkg/core/engine/basm-read-service.go:94-113 | a stored range is accepted exactly when every anchor has its height, topic and form, agrees with the canonical header in height, block hash and count, and the TACs chain; a failure is the first anchor's first failing comparison |
| TopicChain.RangeExtendsChain | pkg/core/engine/basm-read-service.go:94-113 | an accepted range whose first TAC steps from a chain extends it exactly as appending each anchor does |
| WireReader.ParseCompactSizeInverts | pkg/core/basm/wire.go:385-396 | every 64-bit value is read back from its encoding, whatever follows |
| WireReader.CompactSizeInverts | pkg/core/basm/wire.go:349-383 | a value that is read has only that one encoding, at all four widths |
| WireReader.BoundedWireReader.Bytes | pkg/core/basm/wire.go:339-347 | reads exactly the bytes asked for or refuses; no read passes the end |
| WireReader.BoundedWireReader.CompactSizeField | pkg/core/basm/wire.go:349-383 | the reading method refines the canonical parser |
| AnchorCodec.DecodeAnchorBinary | pkg/core/basm/wire.go:37-89 | the reading method refines the decoder, error kinds included |
| AnchorCodec.DecodeEncode | pkg/core/basm/wire.go:14-89 | decoding recovers every anchor valid under the limits |
| AnchorCodec.EncodeDecode | pkg/core/basm/wire.go:14-89 | accepted bytes are the encoding of the anchor they decode to, so no anchor has two |
| Bytes.LittleEndianByte | pkg/core/basm/wire.go:16-35 | byte k of an encoded integer counts multiples of 256^k |
| RawTransaction.PreflightRawTransaction | pkg/core/basm/wire.go:241-321 | accepts exactly the serializations of transactions with at least one input and output and shortest CompactSizes |
| RawTransaction.TooManyInputs | pkg/core/basm/wire.go:266-270 | a count over remaining/41 belongs to no valid encoding |
| RawTransaction.TooManyOutputs | pkg/core/basm/wire.go:297-299 | a count over remaining/9 belongs to no valid encoding |
| RawTransaction.SerializeIsInjective | pkg/core/basm/wire.go:241-321 | the bytes of a transaction determine it |
| RawTransaction.SkipRawTransactionInputs | pkg/core/basm/wire.go:258-290 | skipping version and inputs leaves the reader exactly where parsing them does |
| RawTransaction.SkipRawTransactionOutputs | pkg/core/basm/wire.go:292-309 | the same for outputs |
| Bump.PreflightMerklePath | pkg/core/basm/wire.go:139-154 | accepts exactly the serializations of BUMPs with 1 to 64 levels, distinct in-range offsets, duplicates at odd offsets only and a leaf hash |
| Bump.PreflightMerkleLevel | pkg/core/basm/wire.go:175-201 | the loop with its set of seen offsets refines the level grammar |
| Bump.PreflightMerkleItem | pkg/core/basm/wire.go:203-239 | one item is accepted exactly when the grammar accepts it among the offsets seen |
| Bump.TooManyItems | pkg/core/basm/wire.go:180-185 | a count over remaining/2 belongs to no valid encoding |
| Bump.TooManyLevels | pkg/core/basm/wire.go:168-171 | a tree height over the remaining bytes belongs to no valid encoding |
| Bump.PositionsAreOfLeaves | pkg/core/basm/wire.go:234-239 | an offset is in range at a level exactly when its first leaf has a 64-bit position |
| Bump.SerializeIsInjective | pkg/core/basm/wire.go:139-239 | the bytes of a BUMP determine it |
| GaspWire.ReadUvarintInverts | pkg/core/gasp/wire.go:383-403 | every 64-bit length is read back through the ten-byte overflow rules |
| GaspWire.PaddedVarintIsAccepted | pkg/core/gasp/wire.go:388-392 | a concrete second encoding of zero is accepted |
| GaspWire.ShortestVarint | pkg/core/gasp/wire.go:383-403 | of all accepted encodings of a number, the one written is the one byte long or not ending in a zero byte |
| GaspWire.PastEndOfProduct | pkg/core/gasp/wire.go:358-360 | the wrapped sum of offset and size is past the end exactly when the true sum modulo 2^64 is and is below 2^63 |
| GaspWire.ReadByteFieldOutcome | pkg/core/gasp/wire.go:388-403 | fields that fit are read, others are too short exactly while offset and length add up below 2^63 |
| GaspWire.SerializeNode | pkg/core/gasp/wire.go:196-233 | writes the node's bytes with the input keys in some order that visits each once |
| GaspWire.DeserializeNode | pkg/core/gasp/wire.go:235-294 | the offset-based decoder refines the grammar, error kinds included |
| GaspWire.DeserializeNodeInputs | pkg/core/gasp/wire.go:296-320 | the counted loop reads exactly the keys and maps each to itself |
| GaspWire.NodeRoundTrip | pkg/core/gasp/wire.go:186-320 | for every order of the input map, decoding recovers the node up to normalisation exactly when at most 2^32-1 inputs were written |
| GaspWire.NodeEncodingIsShortest | pkg/core/gasp/wire.go:186-320 | accepted bytes are some node written in some order exactly when their varints are shortest and no key is repeated |
| GaspWire.NodesHaveTwoEncodings | pkg/core/gasp/wire.go:296-309 | for every node without inputs, two different byte strings that decode to it |
| GaspWire.SerializeNodeResponse | pkg/core/gasp/wire.go:322-341 | writes every requested outpoint once, in some order |
| GaspWire.DeserializeNodeResponse | pkg/core/gasp/wire.go:343-379 | the counted loop refines the grammar, wrapped counts and panics included, a repeated outpoint keeping its last flag |
| GaspWire.NodeResponseOutcome | pkg/core/gasp/wire.go:350-378 | the outcome of every count: exact while offset + 37 * count is below 2^63, and what wrapping makes of it beyond |
| GaspWire.CountsCanWrap | pkg/core/gasp/wire.go:358-378 | a count that wraps past the check into a panic, and a count of 2^63 that is read as no entries |
| GaspWire.NodeResponseRoundTrip | pkg/core/gasp/wire.go:322-379 | for every order, decoding recovers the response, a nil entry as a false flag |
| GaspWire.ResponseEncodingIsShortest | pkg/core/gasp/wire.go:322-379 | accepted bytes are some response written in some order exactly when count, flags and outpoints are canonical |
| GaspWire.AppendOutputList | pkg/core/gasp/wire.go:405-413 | the appending loop writes the list behind what is there |
| GaspWire.ReadOutputList | pkg/core/gasp/wire.go:415-439 | the array-filling loop refines the list grammar, wrapped counts and panics included |
| GaspWire.OutputListRoundTrip | pkg/core/gasp/wire.go:405-439 | a list is read back whatever follows it, scores as 64-bit patterns |
| GaspWire.OutputListOutcome | pkg/core/gasp/wire.go:415-425 | the outcome of every count: exact while offset + 44 * count is below 2^63, and what wrapping makes of it beyond |
| GaspWire.SerializeInitialResponse | pkg/core/gasp/wire.go:75-86 | writes the version, the bits of since and the list |
| GaspWire.DeserializeInitialResponse | pkg/core/gasp/wire.go:88-105 | the decoder refines the grammar, error kinds included |
| GaspWire.InitialMessagesRoundTrip | pkg/core/gasp/wire.go:75-131 | responses and replies are recovered, and bytes behind the list are never looked at |
| StorageUint.ParsesExactlyCanonicalText | pkg/core/engine/admission_storage.go:366-382 | a text parses to n exactly when it is the decimal text of n below 2^64 |
| StorageUint.ParseStorageOutputIndex | pkg/core/engine/admission_storage.go:384-394 | accepted exactly for texts that parse below 2^32 |
| StorageUint.OutputIndexIsSmall | pkg/core/engine/admission_storage.go:384-394 | the index n is returned exactly for its decimal text and n below 2^32; larger 64-bit numbers have an error of their own |
| StorageUint.DecodeEncode | pkg/storage/mongodb/encoding.go:14-40 | decoding inverts encoding on canonical text |
| StorageUint.EncodeDecode | pkg/storage/mongodb/encoding.go:14-40 | encoding inverts decoding on accepted fixed-width text |
| StorageUint.EncodingKeepsOrder | pkg/storage/mongodb/encoding.go:14-23 | byte-wise order of encodings is numeric order over 0 to 2^64-1 |
| StorageUint.NextTokenCounts | pkg/storage/mongodb/payload.go:115-125 | a token's successor exists exactly below the last, is one more and larger byte-wise, and is the number that rows count with |
| StorageUint.SchemaUint64 | pkg/storage/mongodb/schema.go:475-485 | the generated alternatives match exactly the texts that decode |
| Text.RisingIsUnique | pkg/core/engine/admission_storage.go:416-427 | a set of keys has one strictly sorted list |
| Text.SortBySorts | pkg/core/engine/admission_storage.go:416-419 | sorting by a key orders and permutes |
| Framing.FrameDecodes | pkg/core/engine/admission_submit.go:384-387 | a length-framed field can be read off the front of a stream in one way only |
| Framing.StreamIsInjective | pkg/storage/mongodb/encoding.go:42-49 | no two lists of fields have one stream |
| Framing.TupleStream | pkg/storage/mongodb/encoding.go:42-49 | the loop of tupleID writes the stream of its fields |
| AdmissionIdentity.AdmissionSemanticDigest | pkg/core/engine/admission_storage.go:406-446 | the bytes hashed, or the first failing check; neighbours after sorting show every repeated topic |
| AdmissionIdentity.DigestIsOfWellFormed | pkg/core/engine/admission_storage.go:406-446 | a digest is given exactly for hashes of 64 lower-case hex digits, the two modes, distinct topics and non-empty UTF-8 fields |
| AdmissionIdentity.SemanticStreamIdentifies | pkg/core/engine/admission_storage.go:406-446 | accepted identities hash the same bytes exactly when scope, txid, mode, context and the topic policies agree |
| AdmissionIdentity.AdmissionOperationID | pkg/core/engine/admission_submit.go:344-379 | deduplicating and sorting loops write the stream of the mode, txid and topic set |
| AdmissionIdentity.OperationStreamIdentifies | pkg/core/engine/admission_submit.go:344-379 | two operation ids hash the same bytes exactly when mode, txid and set of topics agree |
| AdmissionIdentity.StreamsAreSeparate | pkg/core/engine/admission_submit.go:358-387 | no operation id hashes the bytes of a semantic digest |
| Transaction.CommitTransactionAttempt | pkg/storage/mongodb/transaction.go:106-135 | commits stay within budget; committed, retried and pending exactly as the first reply and the budget decide |
| Transaction.RunTransaction | pkg/storage/mongodb/transaction.go:27-104 | committed is due exactly when the last commit was acknowledged, pending exactly when it is in doubt, and aborted only after a stop that is named; a body is rerun only after a proven abort; which bodies were applied; attempts stay within both budgets |
| Operation.StepKeepsInv | pkg/storage/mongodb/operation.go:101-205 | what every step of claimers, bodies, fences and tombstones keeps |
| Operation.OperationsAdvance | pkg/storage/mongodb/operation.go:145-205 | over every run a row keeps its digest, a committed row never changes and tokens never fall |
| Operation.OneDurableBody | pkg/storage/mongodb/operation.go:50-128 | at most one body per operation is ever durable, and its receipt and attempt are the committed row's |
| Operation.CommittedAnswersAgree | pkg/storage/mongodb/operation.go:207-234 | every committed answer, now or later, carries the receipt of the durable body |
| Operation.AbortedIsFinal | pkg/storage/mongodb/operation.go:179-205 | once an attempt is left aborted, no body of it is durable in any later state, delayed initial claims included |
| Operation.ReclaimsRaiseTokens | pkg/storage/mongodb/operation.go:145-173 | the attempt changes exactly when the token rises strictly |
| Operation.StaleAttemptFencesNothing | pkg/storage/mongodb/operation.go:179-186 | a caller that holds an earlier attempt's row fences nothing |
| Operation.LeasedClaimIsItsHolders | pkg/storage/mongodb/operation.go:335-344 | while its lease runs, a claim is changed only by its own body or its holder's fence |
| Operation.BodiesAreApart | pkg/storage/mongodb/operation.go:80-128 | a body begins on the row and snapshot it names, and no other step touches its transaction |
| OperationCalls.OnceAbortedIsNeverDurable | pkg/storage/mongodb/operation.go:270-276 | in every sound state an attempt once aborted has no durable body |
| OperationCalls.OnceAbortedStays | pkg/storage/mongodb/operation.go:270-276 | nothing that happens later takes an abort back |
| OperationCalls.Database.ClaimOperation | pkg/storage/mongodb/operation.go:145-173 | a claim is a fresh row or the next token of an aborted one with the same digest; otherwise the row found instead, or an error that names the attempt left pending or the aborted one without a next token; undisturbed, a claimable operation is claimed |
| OperationCalls.Database.RunBody | pkg/storage/mongodb/operation.go:80-128 | with others writing between begin, guard, save and commit, an acknowledged commit means that the receipt is durable and fits the key; undisturbed it commits exactly when the lease runs and the receipt is the operation's |
| OperationCalls.Database.FenceAbortedOperation | pkg/storage/mongodb/operation.go:179-205 | whatever it answers after losing the race is true of the row that won; undisturbed it leaves the attempt aborted |
| OperationCalls.Database.ExecuteOperation | pkg/storage/mongodb/operation.go:46-78 | every answer is true, and due: a row of another digest or a committed one is answered for under any interference, and an undisturbed call claims, runs and commits, is fenced, or answers exactly as the row it starts from demands |
| OperationCalls.Database.ReconcileOperation | pkg/storage/mongodb/operation.go:270-354 | an aborted answer is for an attempt without durable body now and later, the caller's own if it gave one; an undisturbed call answers as the row demands and fences exactly what has expired |
| Payload.StepKeepsInv | pkg/storage/mongodb/payload.go:202-354 | what every step of reserving, publishing, pinning, releasing, collecting and recycling keeps |
| Payload.CommitIsRetained | pkg/storage/mongodb/payload.go:439-484 | a commit cannot skew pins and claims: who wrote the payload row still sees all its references |
| Payload.ReferencesAreRetained | pkg/storage/mongodb/payload.go:300-354 | in every state of every run an existing reference is to a ready payload of its length |
| Payload.GenerationsAdvance | pkg/storage/mongodb/payload.go:216-276 | a payload row never goes away, keeps its length, and token and generation only advance |
| Payload.ClaimedGenerationStaysDead | pkg/storage/mongodb/payload.go:459-500 | what a committed claim lets a collector remove is never live or referenced later under that token |
| Payload.LeasedPayloadIsNotClaimed | pkg/storage/mongodb/payload.go:466-473 | no step takes a live payload before its lease expires, delayed commits included |
| PayloadRuns.CommittedPinRefers | pkg/storage/mongodb/payload.go:300-325 | a committed transaction that pinned a reference and did not release it leaves the reference, of its length, to a ready payload |
| PayloadRuns.ReferenceStays | pkg/storage/mongodb/payload.go:300-379 | in every run a reference stays, its payload row unchanged, until a transaction that released it commits |
| PayloadRuns.PinRetains | pkg/storage/mongodb/payload.go:300-379 | from the commit of a pin to the commit of a release, the reference is there and its payload ready under one token |
| PayloadRuns.ReferenceWasPinned | pkg/storage/mongodb/payload.go:300-325 | a reference is there only because a pin of it committed |
| PayloadRuns.CommittedRelease | pkg/storage/mongodb/payload.go:346-379 | a committed release leaves no reference exactly when it found it, its transaction had written it, or nobody has it |
| PayloadRuns.ReleaseCanFindNothing | pkg/storage/mongodb/payload.go:354-366 | a run in which a release commits and the reference remains, pinned by another after the snapshot |
| PayloadRuns.ActionsApply | pkg/storage/mongodb/payload.go:202-284 | when each reservation, publication, pin, release, claim and deletion applies, and the payload row that each leaves |
| PayloadRuns.ClaimTakes | pkg/storage/mongodb/payload.go:459-484 | a claim writes the payload as deleting, for the collector and under the next token, and nothing else |
| PayloadRuns.SessionsAreApart | pkg/storage/mongodb/payload.go:290-379 | transactions begin on the snapshot they name, are apart, and end with their commit or abort |
| Admission.Session.WriteSpends | pkg/storage/mongodb/admission.go:621-630 | the loop goes through exactly when every output is there, unspent, of the expected version and named once |
| Admission.Session.WriteEvictions | pkg/storage/mongodb/admission.go:631-639 | goes through exactly when every eviction is there and named once, and removes them |
| Admission.Session.WriteOutputs | pkg/storage/mongodb/admission.go:640-644 | goes through exactly when every output is absent and named once, and inserts them unspent |
| Admission.Session.ApplyHistoryUpdate | pkg/storage/mongodb/admission.go:770-839 | goes through exactly on the expected fence with an unexpired lease on that fence, and moves both |
| Admission.Session.WriteDecisionEffects | pkg/storage/mongodb/admission.go:620-657 | the statements go through exactly when every conditional write matches, and then have exactly the declared effect on every row |
| AdmissionPlan.PlanDecisionsMatch | pkg/storage/mongodb/admission.go:207-222 | counting, distinctness and membership decide that the decisions cover the identity's topics, each once |
| AdmissionPlan.PlanIdentityTopics | pkg/storage/mongodb/admission.go:196-205 | the loop with its set of seen topics returns them exactly when none is repeated |
| AdmissionPlan.PlanOutboxValid | pkg/storage/mongodb/admission.go:224-243 | the loop with its set of seen events accepts exactly the well-formed outboxes |
| AdmissionPlan.PlanShapeValid | pkg/storage/mongodb/admission.go:191-307 | a plan's shape is accepted exactly when topics, payloads, spenders, outputs, updates and events fit together |
| AdmissionPlan.ValidateDecisionState | pkg/storage/mongodb/admission.go:402-548 | the checks pass exactly when fence, reads, spends, evictions, outputs, applied row and handoff lease are found, row by row; a rejection has the code of the first that is not |
| AdmissionPlan.ValidMeansFound | pkg/storage/mongodb/admission.go:424-548 | what validation finds, row by row: versions of reads and spends, the fence, the lease with its token and expiry |
| AdmissionPlan.AdmissibleMeansFits | pkg/storage/mongodb/admission.go:191-307 | a plan is admissible exactly when it says and finds all that is listed, and names no output twice |
| AdmissionPlan.EffectMeansRows | pkg/storage/mongodb/admission.go:620-839 | an accepted plan leaves exactly the listed rows, field by field |
| AdmissionPlan.WriteDecisions | pkg/storage/mongodb/admission.go:550-578 | decisions on different topics do not disturb one another: all go through exactly when each matches the snapshot |
| AdmissionPlan.WriteOutbox | pkg/storage/mongodb/admission.go:560-576 | inserts every event; none can meet a duplicate after validation |
| AdmissionPlan.ApplyAdmission | pkg/storage/mongodb/admission.go:353-382 | the body accepts exactly the plans whose snapshot has every row they expect, and then leaves the spent, inserted, applied, fence, lease and outbox rows as declared and every other row as it was |
| AdmissionRuns.StepKeepsInv | pkg/storage/mongodb/admission.go:353-657 | what every step of concurrent admissions keeps |
| AdmissionRuns.BodiesAreApart | pkg/storage/mongodb/admission.go:353-382 | a body begins on the snapshot it names, and no other step touches it |
| AdmissionRuns.DecidedRow | pkg/storage/mongodb/admission.go:620-657 | at commit nobody has written a touched row since the snapshot, so every row of the topic becomes what the decision makes of the current row |
| AdmissionRuns.AppliedOnce | pkg/storage/mongodb/admission.go:729-768 | over every run a transaction is applied to a topic at most once |
| AdmissionRuns.InsertedOnce | pkg/storage/mongodb/admission.go:659-704 | an outpoint is inserted into a topic at most once, even after eviction |
| AdmissionRuns.SpentOnce | pkg/storage/mongodb/admission.go:516-523 | an output of a topic is spent at most once |
| AdmissionRuns.OutputsAreApplied | pkg/storage/mongodb/admission.go:273-298 | the transaction of every output and every spender has an applied row in the topic |
| AdmissionRuns.OnlyAdmissiblePlansCommit | pkg/storage/mongodb/admission.go:402-422 | every committed plan found, in some state the database had, every read version, fence, spend, output and lease it expected |
| AdmissionRuns.WritesStillMatch | pkg/storage/mongodb/admission.go:620-657 | the conditional writes of a plan hold not only of its snapshot but of the rows just before its commit |
| AdmissionReplay.CommitIsSerial | pkg/storage/mongodb/admission.go:353-382 | a commit does to every row of the current state what its plan does when it runs alone on it |
| AdmissionReplay.CommittedRows | pkg/storage/mongodb/admission.go:550-657 | over every run, a commit leaves the declared rows over the current ones, not only over its snapshot |
| AdmissionReplay.AdmitUndisturbed | pkg/storage/mongodb/admission.go:353-382 | an admission that meets nobody commits exactly when the current state has all that its plan expects, and a refused one changes nothing |
| AdmissionReplay.StepReplays | pkg/storage/mongodb/admission.go:353-382 | beginning, checking, writing, rejecting and aborting change no row; any other step does what one event does |
| AdmissionReplay.RowsAreReplayed | pkg/storage/mongodb/admission.go:353-382 | over every run the rows are those of the committed plans and foreign writes applied one after another |
| AdmissionReplay.RejectedPlanChangesNothing | pkg/storage/mongodb/admission.go:353-382 | two runs with the same commits and foreign writes have the same rows, whatever plans were rejected or aborted in either |
| AdmissionReplay.RowsAreAccountedFor | pkg/storage/mongodb/admission.go:550-657 | every row of every reachable state goes back to a decision or event of a committed plan, every spender to a committed spend, and every generation to an update or the first fence |
| AdmissionRuns.FencesAdvance | pkg/storage/mongodb/admission.go:770-804 | over every run a fence keeps its epoch and its generation never falls |
| AdmissionRuns.UpdateMovesFenceAndLease | pkg/storage/mongodb/admission.go:770-839 | a committed update raises the generation strictly and moves exactly the handoff lease, on the old fence and unexpired both when its body checked and when it wrote, with it |
| AdmissionRuns.BodyBegan | pkg/storage/mongodb/admission.go:353-382 | every open body began at a step of the run, and its begin time is the time of that step |
| AdmissionRuns.ExpiredLeaseNeverHandsOff | pkg/storage/mongodb/admission.go:525-548 | a lease that had expired when a body began is handed off by no commit of that body |
| AdmissionRuns.StaleLeaseNeverAuthorises | pkg/storage/mongodb/admission.go:525-548 | a lease on an older generation authorises no later update |
| RecoveryLease.CurrentLeaseIsTheStoredOne | pkg/core/engine/recovery_contract.go:16-57 | a lease is current exactly when it equals the expected one text for text and its stored expiry sorts after the stored time |
| GaspGraph.GraphContext.AppendToGraph | pkg/core/engine/gasp-storage.go:282-331 | when each error is due over the inputs and the old graph, which node is added, that all others stay, and that only a missing spender fails after adding |
| GaspGraph.DifferentBytesCollide | pkg/core/engine/gasp-storage.go:304-314 | nodes of one txid with different bytes exhibit a collision of the transaction hash |
| GaspGraph.StuckHasCycle | pkg/core/engine/gasp-storage.go:551-553 | finitely many transactions that all wait for one another contain a cycle |
| GaspGraph.OrderedHasNoCycle | pkg/core/engine/gasp-storage.go:525-556 | dependencies that can be fully ordered have no cycle |
| GaspGraph.ComputeDeps | pkg/core/engine/gasp-storage.go:510-523 | the loops collect exactly the in-graph inputs, self edges left out |
| GaspGraph.Hydrator | pkg/core/engine/gasp-storage.go:564-594 | the recursion ends, bounded by emission position, and hydrates exactly the nodes that can be hydrated |
| GaspGraph.ComputeOrderedBeefs | pkg/core/engine/gasp-storage.go:496-556 | for any map order: on success every transaction once and after its in-graph inputs; an error other than the cycle error is about a node that can be emitted but not hydrated; without such a node the cycle error is returned exactly on a cycle |

## Left out

- SHA-256, the SDK's parsing of transactions, BUMPs and BEEF, SPV and script evaluation: foreign code, here parameters or absent. `ParseBoundedMerklePath` and `RawTransactionID` are modelled up to their preflight.
- The encoding of a merged proof and the size of its response, raw transaction collection, block reads and the rechecking of headers.
- Merged path elements share pointers in the source; the model merges values, so aliasing between a proof and the merged levels is not captured.
- Addressable size: `int` has 64 bits, so the capacity check of `EncodeAnchorBinary` cannot fail and is absent.
- ProofMerge.MergeIgnoresOrder: tells flags apart as set or not set; whether an unset flag is nil or false follows the first request.
- Initial requests and node requests of GASP, which have fixed widths only.
- Hex and base encodings of digests, and SHA-256 over the framed streams: the members return the bytes that are hashed. `sort.Slice` and `sort.Strings` are stood for by one correct sort; with distinct keys every correct sort agrees.
- The formats of texts and hashes inside a plan (`validText`, `validHash`), the bound on STEAK JSON, script ranges (whose 64-bit sum may wrap) and the decimal text of its numbers, which `StorageUint` covers; numbers in plans, fences, leases and tokens are naturals.
- A duplicate edge inside a transaction: the model follows the source's branch, which goes on; a server that aborts the transaction on the duplicate key only makes the plan fail.
- Payload rows, operation rows and admission rows are three stores here. A source transaction that spans them can only meet more conflicts than its part in one of them, so what holds of every run of the parts holds of the whole.
- Operation and payload rows are values changed by step functions, not objects updated in place; a step is one server-side update, and interleaving is between steps.
- OperationCalls.Database.RunBody: runs one transaction, whose body only saves its receipt; the retries around it are those of `Transaction.RunTransaction`.
- GridFS and inline payload bytes, payload digests and the reading of pinned copies: only metadata rows and references are modelled.
- Legacy storage writes (marking spent, inserting and deleting outputs and applied transactions) and test seeds, which bypass admission; leases and read versions may be written by anybody in any way.
- Read-only predicates (a fence that a plan checks without advancing it, read versions) are true of the snapshot only, as snapshot isolation promises no more.
- Reads of operation rows that fail: the reply to any write may be lost, but a read succeeds.
- Attempt ids are fresh when minted; a repeated id makes the claim fail here.
- Context cancellation, timeouts, sessions and logging; a timeout is a reply like any other.
- Transaction.RunTransaction: error values are not modelled, only the outcome and the numbers of bodies and commits.
- GaspGraph.ComputeOrderedBeefs: asks for a graph without a transaction that spends from itself and without two byte strings of one txid, which need a hash fixpoint or collision; there the source's hydrator does not return. BEEF bytes are stood for by the hydrated transaction.
- Parent and child links of graph nodes, graph anchors and submission.
- Cursor evidence, outbox dispatch, lookup, advertisement and HTTP code.
