# Shell chain reference core, verified

A Dafny model of the reference blockchain core in Rust: the SSZ wire codec, SSZ merkleization and
container roots, the in-memory state accumulator with its witnesses, block execution, the staged block
import, mempool admission, the signature registry, and the local reference runtime that joins them.

How the model is set up:

- SHA-256 is a parameter `sha` about which nothing is assumed. Roots are computed as a `Digest`: the root
  together with every byte string that was hashed on the way. Binding theorems say that equal roots mean
  equal objects, or else two different strings, one hashed for each object, have the same hash
  (`CollisionBetween`). The pair is always one the two computations really hashed; a collision merely
  existing somewhere would say nothing. A sharper notion is a clash: at the same place of the two trees,
  different pairs of children have the same hash. Every clash is such a collision, and no tree clashes
  with itself, which makes exact statements possible.
- Services and dispatchers receive the list of calls made so far, so a theorem about all services covers
  ones that keep state and answer differently over time. In the runtime, dispatcher, resolver and state
  view share one log that runs through all admissions and the import.
- Loops and mutable objects of the source are methods and classes, each proved equal to a function; the
  theorems are about those functions. Straight-line expressions are functions.
- Decoders, merkleization and every check are total functions here, so no input makes them index out of range.
- Error contexts that are text in the source are enumerated constructors here.
- Merkleization is modelled as it runs with its debug assertions off. `Merkle.SurplusIgnored` shows what
  it then does past its limit, and `RootBinding.BindingExact` that a root binds its envelope exactly when
  the envelope is within the declared limits.
- Where the documentation and the code differ, the code is followed: the reference revalidator re-admits the
  admission transaction of the same payload root and disregards the policy argument, and block, body and
  sidecar roots are stored fields that are compared, never recomputed.

Files follow the crates: `Bytes`, `Transactions`, `Codec`, `CodecBijection`, `CodecWire`, `Merkle`, `HashTreeRoot`,
`RootBinding`, `StateKeys` (primitives); `State`, `Accumulator`, `Commitments` (state, and the roots of outputs and
fixtures); `Execution`; `Fees`, `Admission` (mempool); `Registry` (crypto); `Import` (consensus); `Runtime`,
`RuntimeExact` (command line). `dafny verify dfyconfig.toml` checks everything.

## Model

| member | source | states |
|---|---|---|
| CodecBijection.EnvelopeRoundTrip | crates/shell-primitives/src/codec.rs:246-298 | encoding succeeds exactly when every offset written fits in u32, and decoding the result gives the envelope back |
| CodecBijection.EnvelopeCanonical | crates/shell-primitives/src/codec.rs:272-298 | every accepted byte string is exactly what the encoder writes for the decoded envelope |
| CodecBijection.AcceptedIsImage | crates/shell-primitives/src/codec.rs:246-298 | a byte string is accepted iff it encodes some envelope, and that envelope is unique |
| CodecBijection.NoSecondEncoding | crates/shell-primitives/src/codec.rs:272-298 | no envelope has two accepted encodings |
| CodecBijection.PayloadRoundTrip | crates/shell-primitives/src/codec.rs:48-129 | both payload kinds decode back from their wire bytes, each field at its documented offset |
| CodecBijection.PayloadCanonical | crates/shell-primitives/src/codec.rs:110-129 | accepted payload bytes are the encoding of the decoded payload |
| CodecBijection.BasicCanonical | crates/shell-primitives/src/codec.rs:354-386 | an accepted basic payload is a basic one and re-encodes to the same bytes |
| CodecBijection.CreateCanonical | crates/shell-primitives/src/codec.rs:388-418 | an accepted creation is a creation and re-encodes to the same bytes |
| CodecBijection.AuthorizationRoundTrip | crates/shell-primitives/src/codec.rs:132-164 | an authorization decodes back from its encoding |
| CodecBijection.AuthorizationCanonical | crates/shell-primitives/src/codec.rs:142-164 | accepted authorization bytes re-encode to themselves |
| CodecBijection.ListRoundTrip | crates/shell-primitives/src/codec.rs:166-243 | an authorization list of any length whose offsets fit decodes back |
| CodecBijection.ListCanonical | crates/shell-primitives/src/codec.rs:201-243 | accepted list bytes re-encode to themselves: table, order and contiguity are forced |
| CodecWire.PayloadWire | crates/shell-primitives/src/codec.rs:48-59 | the tag is byte 0 of a payload, 0 for basic and 1 for creation, and the inner bytes follow |
| CodecWire.InnerWire | crates/shell-primitives/src/codec.rs:76-108 | every field of both payload kinds at its byte offset, integers little-endian, the variable part last |
| CodecWire.AuthorizationWire | crates/shell-primitives/src/codec.rs:132-140 | every field of an authorization at its byte offset |
| CodecWire.ListWire | crates/shell-primitives/src/codec.rs:166-199 | table entry i holds the position of authorization i, which stands there and nothing after the last; fails iff a position exceeds u32 |
| CodecWire.EnvelopeWire | crates/shell-primitives/src/codec.rs:246-270 | both offsets, payload and list at their places; list errors come before the envelope's own |
| CodecWire.PayloadDecodes | crates/shell-primitives/src/codec.rs:110-129 | each rejection of a payload by the bytes that cause it, an unknown tag named |
| CodecWire.AuthorizationDecodes | crates/shell-primitives/src/codec.rs:142-164 | each rejection of an authorization by the bytes that cause it |
| CodecWire.ListDecodes | crates/shell-primitives/src/codec.rs:201-243 | each rejection of a list by its cause: first offset, an offset out of range, or the first bad element |
| CodecWire.EnvelopeDecodes | crates/shell-primitives/src/codec.rs:272-298 | each rejection of an envelope by its cause, payload before authorizations |
| Codec.EncodeAuthorizationListLoop | crates/shell-primitives/src/codec.rs:166-199 | the two encoder loops produce offset table and body, or fail exactly when an offset exceeds u32 |
| Codec.WriteOffsets | crates/shell-primitives/src/codec.rs:173-192 | the first loop writes the running offsets and collects the encoded elements, failing at the first offset over u32 |
| Codec.DecodeAuthorizationListLoop | crates/shell-primitives/src/codec.rs:201-243 | the list decoder equals its specification on every byte string, errors and their order included |
| Codec.CollectOffsets | crates/shell-primitives/src/codec.rs:218-228 | the first decoder loop reads every offset within the variable section, or reports the first bad one |
| Codec.CollectElements | crates/shell-primitives/src/codec.rs:230-242 | the second decoder loop decodes the bytes between consecutive offsets |
| Merkle.MerkleizeCorrect | crates/shell-primitives/src/ssz.rs:13-55 | sparse merkleization equals level-by-level hashing of left then right child over the chunks padded or cut to the limit, and zero_hash the all-zero tree |
| Merkle.ExplicitPadding | crates/shell-primitives/src/ssz.rs:36-55 | writing padding chunks explicitly changes neither the root nor the set of hash inputs |
| Merkle.MerkleizeBinding | crates/shell-primitives/src/ssz.rs:36-55 | equal roots without a collision mean equal chunks up to zero padding |
| Merkle.FittedBinding | crates/shell-primitives/src/ssz.rs:36-55 | for chunk lists of any length, equal roots without a clash mean the same leaves up to the limit |
| Merkle.SurplusIgnored | crates/shell-primitives/src/ssz.rs:36-55 | past the limit, guarded only by debug assertions, surplus chunks do not reach the root |
| Merkle.ZeroHashLoop | crates/shell-primitives/src/ssz.rs:24-30 | the zero-subtree loop computes the root of the all-zero tree |
| HashTreeRoot.PackBytesLoop | crates/shell-primitives/src/ssz.rs:58-72 | the packing loop cuts the bytes into 32-byte chunks, the last zero-padded |
| HashTreeRoot.PackBytesAt | crates/shell-primitives/src/ssz.rs:58-72 | byte j of chunk i is input byte 32i+j, or zero past the end |
| HashTreeRoot.ByteListRootIsDense | crates/shell-primitives/src/ssz.rs:121-127 | a byte list root hashes the dense tree of depth 15 over its chunks, then its length as eight little-endian bytes |
| HashTreeRoot.PayloadRootSpelledOut | crates/shell-primitives/src/ssz.rs:130-154 | both payload roots written out node by node, with the tag mixed in |
| HashTreeRoot.PairRootsSpelledOut | crates/shell-primitives/src/ssz.rs:217-249 | envelope and signing roots hash one concatenation: payload then authorizations, object then padded domain |
| HashTreeRoot.AuthorizationListRootIsDense | crates/shell-primitives/src/ssz.rs:157-170 | the list root hashes the dense tree of depth 13 over the element roots, each written out, then the count |
| HashTreeRoot.ExplicitZeroLeaves | crates/shell-primitives/src/ssz.rs:112-163 | the zero leaves of fees, creations and authorizations are what padding would supply |
| RootBinding.ByteListExact | crates/shell-primitives/src/ssz.rs:121-127 | equal byte list roots without a clash iff lengths agree and bytes agree up to the limit |
| RootBinding.PayloadExact | crates/shell-primitives/src/ssz.rs:199-215 | equal payload roots without a clash iff variant and all fields agree, the data up to its limit |
| RootBinding.AuthorizationListExact | crates/shell-primitives/src/ssz.rs:157-170 | equal list roots without a clash iff the counts and the first 8192 entries agree |
| RootBinding.EnvelopeExact | crates/shell-primitives/src/ssz.rs:217-227 | for any two envelopes a machine can hold, equal roots without a clash iff they agree in everything up to the limits |
| RootBinding.BindingExact | crates/shell-primitives/src/ssz.rs:36-38 | an envelope's root binds it iff it is within the declared limits, for every hash |
| RootBinding.EnvelopeClashLogged | crates/shell-primitives/src/ssz.rs:217-227 | a clash of two envelope trees is a collision between strings hashed for the two |
| RootBinding.ByteListBinding | crates/shell-primitives/src/ssz.rs:121-127 | equal byte list roots without a collision mean equal lists |
| RootBinding.PayloadBinding | crates/shell-primitives/src/ssz.rs:199-215 | equal payload roots without a collision mean equal payloads, across both variants |
| RootBinding.AuthorizationListBinding | crates/shell-primitives/src/ssz.rs:157-170 | equal list roots without a collision mean equal authorizations in order |
| RootBinding.EnvelopeBinding | crates/shell-primitives/src/ssz.rs:217-227 | an envelope within the limits shares its root with no other one, unless the two computations collide |
| RootBinding.OverLimitEnvelopeNotBinding | crates/shell-primitives/src/ssz.rs:36-38 | every envelope over a declared limit has a different twin of the same lengths with the same root, whatever the hash and without a clash |
| RootBinding.OverLimitByteListNotBinding | crates/shell-primitives/src/ssz.rs:36-38 | a byte list over the limit shares root and hash inputs with another of its length |
| RootBinding.OverLimitAuthorizationsNotBinding | crates/shell-primitives/src/ssz.rs:166-170 | replacing any entry past the first 8192 by any authorization keeps the list root, without a clash |
| RootBinding.SigningRootBinding | crates/shell-primitives/src/ssz.rs:229-249 | equal signing roots mean equal object and domain, or a collision |
| RootBinding.SignedPayloadBinding | crates/shell-primitives/src/ssz.rs:199-249 | one signing root covers one payload in one domain, or a collision is at hand |
| RootBinding.DomainsSeparate | crates/shell-primitives/src/domains.rs:5-38 | roots signed under different domains never coincide without a collision |
| StateKeys.EncodeInjective | crates/shell-primitives/src/types/state.rs:80-112 | different keys have different encodings, across all five variants |
| StateKeys.EncodePrefixFree | crates/shell-primitives/src/types/state.rs:80-112 | no encoding is a proper prefix of another |
| StateKeys.EncodedBytes | crates/shell-primitives/src/types/state.rs:80-112 | the encoding byte by byte: tags 0 to 4, zero-padded address, slot, big-endian index, raw key or stem |
| StateKeys.VariantOrder | crates/shell-primitives/src/types/state.rs:114-118 | account headers sort before storage slots, then code chunks, raw tree keys and stems |
| StateKeys.OrderWithinVariant | crates/shell-primitives/src/types/state.rs:114-118 | within a variant, order by address first, then by slot bytes or chunk index |
| StateKeys.CompareIsTotalOrder | crates/shell-primitives/src/types/state.rs:114-118 | the comparator is a strict total order and ties only equal keys |
| StateKeys.CodeChunksInIndexOrder | crates/shell-primitives/src/types/state.rs:93-100 | code chunks of one account sort by chunk index |
| StateKeys.NeighboursSuffice | crates/shell-state/src/accumulator.rs:221-234 | checking neighbours accepts exactly the globally sorted, duplicate-free lists |
| Accumulator.EnsureCanonicalOrder | crates/shell-state/src/witness.rs:31-44 | passes iff the list is strictly sorted, else reports the first offending index and its subject |
| State.ApplyIsOverride | crates/shell-state/src/accumulator.rs:193-203 | a transition succeeds iff well shaped and sorted, and then is exactly map override with the new root; shape errors come before order errors, each with its numbers |
| State.PatchSplits | crates/shell-state/src/accumulator.rs:193-203 | cutting a canonical patch in two gives the same leaves and root |
| State.PatchPieces | crates/shell-state/src/accumulator.rs:193-203 | cut into any list of consecutive pieces, each piece applies and the run leaves the same leaves and root |
| State.RunInvariant | crates/shell-state/src/accumulator.rs:89-98 | after any run leaves sit under their own encoded keys, the root is recomputed or freshly zero, and no key is lost |
| State.FirstTransitionHashes | crates/shell-state/src/accumulator.rs:148-161 | from the first successful transition on, even an empty one, the cached root is the hashed one |
| State.PathBoundaries | crates/shell-state/src/accumulator.rs:119-146 | a proof path exists iff the key is held; its neighbours are stored leaves, the immediate predecessor and successor |
| State.VerifyWitnessExact | crates/shell-state/src/accumulator.rs:210-219 | accepts iff proof empty, root current and leaf true; each other case has its own error and boundary errors never occur |
| State.VerifyWitnessesExact | crates/shell-state/src/witness.rs:16-28 | a witness list is accepted iff sorted, against the current root, and every entry true; else order or the first false witness is reported |
| State.WitnessRoundTrip | crates/shell-state/src/accumulator.rs:174-191 | witnesses exist iff keys are sorted and present; they are for exactly the keys asked and verify against their state; each failure has its error |
| State.StaleWitnessRejected | crates/shell-state/src/accumulator.rs:210-219 | once a run changed the value, an old witness is rejected for every root; if not, only the current root is accepted |
| Accumulator.InMemoryAccumulator.ApplyTransition | crates/shell-state/src/accumulator.rs:193-203 | the whole patch is applied and the new root returned, or nothing changes |
| Accumulator.InMemoryAccumulator.RecomputeRoot | crates/shell-state/src/accumulator.rs:158-160 | the cached root becomes the reference root of the leaves |
| Accumulator.InMemoryAccumulator.VerifyWitness | crates/shell-state/src/accumulator.rs:210-219 | accepts a witness iff it names a true leaf under the current root |
| Accumulator.InMemoryAccumulator.VerifyWitnesses | crates/shell-state/src/witness.rs:16-28 | order first, then each witness, stopping at the first failure |
| Accumulator.InMemoryAccumulator.GetWitnessForAccesses | crates/shell-state/src/accumulator.rs:174-191 | one witness per sorted access, or the first error |
| Accumulator.ReferenceStateApplier.ApplyTransition | crates/shell-state/src/reference_applier.rs:26-47 | a patch is applied only on the root the caller names, else nothing changes and both roots are reported |
| Commitments.ComputeReferenceRoot | crates/shell-state/src/accumulator.rs:236-248 | the hashing loop computes the reference root in key order |
| State.RootInputLayout | crates/shell-state/src/accumulator.rs:236-248 | the state root hashes its text and then leaf digest i at byte 29+32i, in key order |
| State.LeafInputLayout | crates/shell-state/src/accumulator.rs:250-262 | what is hashed for a leaf, field by field |
| Commitments.StateRootBinding | crates/shell-state/src/accumulator.rs:236-262 | equal hashed state roots mean equal leaf maps, or a collision, for values of any length |
| Commitments.ReachableRootBinding | crates/shell-state/src/accumulator.rs:89-98 | the same for all reachable states, with the fresh zero root as the one extra case |
| Commitments.ComputeReceiptsRoot | crates/shell-execution/src/outputs.rs:45-55 | the receipts loop hashes count and receipt digests in order |
| Commitments.ReceiptsInputLayout | crates/shell-execution/src/outputs.rs:45-55 | text, big-endian count, then the digest of receipt i at byte 40+32i |
| Commitments.ReceiptInputLayout | crates/shell-execution/src/outputs.rs:14-27 | what is hashed for a receipt, field by field |
| Commitments.ReceiptsRootBinding | crates/shell-execution/src/outputs.rs:14-55 | equal receipts roots mean equal receipt lists in order, or a collision |
| Commitments.ComputeExecutionWitnessesRoot | crates/shell-fixtures/src/lib.rs:1187-1205 | the nested loops hash the length-prefixed witness stream |
| Commitments.HashWitness | crates/shell-fixtures/src/lib.rs:1192-1201 | one witness appends its length-prefixed record, proof nodes one by one |
| Commitments.WitnessesInputLayout | crates/shell-fixtures/src/lib.rs:1187-1205 | text, big-endian count, then the witness records |
| Commitments.WitnessRecordAt | crates/shell-fixtures/src/lib.rs:1191-1203 | record i stands where the records before it end |
| Commitments.WitnessRecordLayout | crates/shell-fixtures/src/lib.rs:1192-1201 | one witness record, field by field, each behind its big-endian length |
| Commitments.WitnessesRootBinding | crates/shell-fixtures/src/lib.rs:1187-1205 | the witness stream parses uniquely, so equal roots mean equal witnesses or a collision |
| Commitments.ComputeTransactionsRoot | crates/shell-fixtures/src/lib.rs:1173-1185 | the loop hashes count and envelope roots in order |
| Commitments.TransactionsInputLayout | crates/shell-fixtures/src/lib.rs:1173-1185 | text, big-endian count, then the root of envelope i at byte 43+32i |
| Commitments.TransactionsRootBinding | crates/shell-fixtures/src/lib.rs:1173-1185 | equal transactions roots mean equal transactions down to every field, or a collision |
| Execution.PlannedTransactionExecutor.ExecuteTransaction | crates/shell-execution/src/planned.rs:63-85 | returns the plan at the cursor iff there is one and its root matches, else says which failed; the cursor moves by one on success only |
| Execution.ExecuteBlock | crates/shell-execution/src/engine.rs:33-67 | returns per transaction its root, the root after its patch and the planned receipt, and the roots of fold and receipts; or the first error |
| Execution.Lineage | crates/shell-execution/src/engine.rs:40-60 | outcome i is the planned receipt with the root after i+1 patches; a failure at k leaves the fold of k patches and the cursor at k, or k+1 after a failed transition |
| Execution.OutcomeExact | crates/shell-execution/src/engine.rs:55-66 | the outcome a block returns, in terms of plan and fold alone |
| Execution.FailureExact | crates/shell-execution/src/engine.rs:44-60 | a failed block stopped at the first step that is missing, for another transaction, or not applicable, and says which |
| Execution.NoContinuityError | crates/shell-state/src/reference_applier.rs:35-42 | a continuity error, with both roots, occurs iff the block starts on a root that is not the state's and its first step is planned |
| Execution.ExecutionExact | crates/shell-execution/src/engine.rs:44-66 | a block executes iff the plan covers it with matching roots and a foldable patch list; exhausted iff nothing is left |
| Execution.BlockComposition | crates/shell-execution/src/engine.rs:44-60 | running A and then B on what A left equals running A followed by B, failures included |
| Fees.CompareU256Loop | crates/shell-mempool/src/fees.rs:36-45 | the most-significant-first loop decides at the first differing byte |
| Fees.CompareU256IsNumeric | crates/shell-mempool/src/fees.rs:25-45 | the byte scan decides numeric order, so a fee covers a floor iff it is at least as large |
| Admission.CheckPayloadRootsLoop | crates/shell-primitives/src/validation.rs:59-75 | stops at the first authorization whose payload root differs |
| Admission.ScreenTransaction | crates/shell-mempool/src/admission.rs:98-119 | the screening loops and checks in source order |
| Admission.ScreenExact | crates/shell-mempool/src/admission.rs:98-119 | passes iff count, payload roots, sizes, both numeric fee floors and the nonce window hold |
| Admission.ScreenRejects | crates/shell-mempool/src/admission.rs:103-113 | a rejection names the earliest failing check and its first offender |
| Admission.NonceExact | crates/shell-mempool/src/admission.rs:205-233 | with an observed nonce, exactly the nonces from it up to the saturated gap pass |
| Admission.VerifyAuthorizationsLoop | crates/shell-mempool/src/admission.rs:126-171 | asks for each authorization in turn and stops at the first refusal |
| Admission.AdmitAndVerifyLoop | crates/shell-mempool/src/admission.rs:173-181 | screening, then authorization |
| Admission.AdmitExact | crates/shell-mempool/src/admission.rs:98-181 | admission succeeds iff every check and every authorization passes, and reports payload root, signing root and count; each failure by its cause, with k+1 calls on a refusal at k |
| Admission.AdmissionAsks | crates/shell-mempool/src/admission.rs:141-162 | question i is about authorization i, its material, and the hash of payload root and domain, [1,0,0,0] when canonical |
| Admission.SizeErrorIsScheme | crates/shell-mempool/src/admission.rs:106-110 | behind a default registry a dispatcher size error is always the scheme's own limit |
| Admission.TransactionDomainSeparates | crates/shell-mempool/src/admission.rs:27-50 | a transaction signing root is no validator signing root, for every domain but the validator's own |
| Registry.RegistryRefinesMap | crates/shell-crypto/src/dispatch.rs:122-144 | after any registrations ids are distinct and lookup gives the last verifier registered |
| Registry.DispatchExact | crates/shell-crypto/src/dispatch.rs:50-113 | within both limits the answer is the last registered verifier's own; past one, a size error with the smaller limit and its kind |
| Registry.VerifierRegistry.RegisterVerifier | crates/shell-crypto/src/dispatch.rs:123-137 | replaces the entry of the scheme and hands it back, or appends; other ids keep their verifier |
| Registry.VerifierRegistry.Verify | crates/shell-crypto/src/dispatch.rs:50-78 | the same answer from the mutable registry; a verifier sees a request only within both limits |
| Import.ImportBlock | crates/shell-consensus/src/import.rs:53-87 | the pipeline is the run of its stages to the first failure, for any services |
| Import.VerifyHeader | crates/shell-consensus/src/header_checks.rs:32-73 | prefilter, body binding and proposer signature, in that order |
| Import.RevalidateBody | crates/shell-consensus/src/import.rs:106-116 | revalidates in body order and stops at the first refusal |
| Import.BindAndExecute | crates/shell-consensus/src/sidecars.rs:22-48 | sidecar binding, preparation, then execution compared with the header |
| Import.ImportOrdering | crates/shell-consensus/src/import.rs:53-87 | calls are a prefix of resolve, verify, revalidate in order, prepare, execute; the earliest failing stage decides; success iff all pass |
| Import.CheapFirst | crates/shell-consensus/src/import.rs:60-80 | exactly which calls were made for each failing stage |
| Import.HeaderRejects | crates/shell-consensus/src/header_checks.rs:32-52 | each free header check with its own error, in order, nobody asked |
| Import.ProposerDecides | crates/shell-consensus/src/header_checks.rs:54-73 | the resolver is asked for the proposer, then the dispatcher whether it signed the block root under [2,0,0,0]; a refusal ends the import |
| Import.BodyRejects | crates/shell-consensus/src/import.rs:106-116 | the first transaction refused gives the error and is the last asked about |
| Import.SidecarDecides | crates/shell-consensus/src/sidecars.rs:22-48 | sidecar root, commitment, preparation, execution and the two roots, each failure by its cause |
| Runtime.MaterializeAccumulator | crates/shell-cli/src/runtime.rs:356-375 | a fresh accumulator holding the entries, or the transition error |
| RuntimeExact.MaterializeExact | crates/shell-cli/src/runtime.rs:356-375 | materialization succeeds iff entries are strictly sorted, and then holds exactly them; no entries give the zero root, others the hashed one |
| Runtime.PrepareWitnesses | crates/shell-cli/src/runtime.rs:293-317 | the preparer on a fresh accumulator |
| RuntimeExact.PrepareExact | crates/shell-cli/src/runtime.rs:293-317 | preparation passes iff commitment and pre-state root match and witnesses are sorted true entries; each failure in order |
| Runtime.ExecuteReference | crates/shell-cli/src/runtime.rs:325-354 | the engine on a fresh accumulator and planner |
| RuntimeExact.ExecuteExact | crates/shell-cli/src/runtime.rs:325-354 | execution agrees with the header iff body and plan match and the header commits to the fold |
| RuntimeExact.ExecuteDecides | crates/shell-cli/src/runtime.rs:325-354 | each outcome of the engine by its cause: pre-state, the step it stopped at, or steps left over |
| Runtime.AdmitTransactions | crates/shell-cli/src/runtime.rs:120-146 | admits in order, each after what the services saw before, and stops at the first error |
| RuntimeExact.AdmitAllExact | crates/shell-cli/src/runtime.rs:120-146 | all are admitted iff each is after the ones before it; else the first refused one and its reason |
| Runtime.BuildIndexLoop | crates/shell-cli/src/runtime.rs:226-247 | builds the payload-root index or reports the first duplicate |
| RuntimeExact.IndexExact | crates/shell-cli/src/runtime.rs:226-247 | the index exists iff payload roots are distinct, and holds exactly the admission transactions; else the first repeated root is named |
| RuntimeExact.RevalidateExact | crates/shell-cli/src/runtime.rs:266-285 | passes iff an admission transaction of the same payload root is admitted once more after the log so far, which grows by its questions; else why not |
| Runtime.RunScenario | crates/shell-cli/src/runtime.rs:96-118 | shape, admissions, index, import, with the first error returned, for services that remember every question |
| RuntimeExact.ImportExact | crates/shell-cli/src/runtime.rs:148-188 | the import after the admissions succeeds iff header, readmissions, sidecar, pre-state and execution hold |
| RuntimeExact.HeaderFails | crates/shell-cli/src/runtime.rs:148-188 | each header failure of a reference import by its cause |
| RuntimeExact.BodyFails | crates/shell-cli/src/runtime.rs:148-188 | the first body transaction not readmitted ends the import with its reason |
| RuntimeExact.BlockFails | crates/shell-cli/src/runtime.rs:148-188 | each later failure by its cause, in order, and the outcome on success |
| RuntimeExact.RunExact | crates/shell-cli/src/runtime.rs:96-189 | for services that answer by anything before, a run succeeds iff the whole scenario is acceptable, and returns the header's roots and one full admission report per transaction |
| RuntimeExact.RunRejects | crates/shell-cli/src/runtime.rs:96-247 | each failure of a run by its cause, in order: shape, first admission refused, repeated root, import |
| RuntimeExact.MemorylessRun | crates/shell-cli/src/runtime.rs:96-189 | for services that are functions of their arguments, revalidation reduces to every body payload root being an admitted one |
| RuntimeExact.HeaderCommits | crates/shell-cli/src/runtime.rs:148-188 | an accepted header carries the roots of the post-state, the planned receipts and the witnesses |
| RuntimeExact.EqualHeaders | crates/shell-cli/src/runtime.rs:148-188 | accepted runs with equal header roots share post-state leaves, receipts and witnesses, or hashed strings collide |

## Left out

- SHA-256 and Ed25519 internals: arbitrary functions here.
- Machine-word overflow guards of the list and envelope encoders: lengths are unbounded naturals, so the checked additions and multiplications on `usize` cannot fail.
- Debug builds: merkleization and packing are modelled with debug assertions off.
- `RefCell` borrow failures in the applier, trait objects and error conversions: no behaviour beyond what is modelled.
- Block number, timestamp and parent root of a header: stored but never read by the import.
- RuntimeExact.EqualHeaders: does not bind the transactions of the body, because the reference body stores its transactions root and the import compares it without recomputing it.
- Runtime.RunScenario: the import takes its services as functions, so it uses the functions that `PrepareWitnesses` and `ExecuteReference` are proved equal to rather than calling those methods.
- Executors and appliers other than the planned executor and the reference applier: behind traits in the source, with no second implementation outside its tests.
- Network fetch and gossip policy, peer actions and network outcome tables: small finite case tables.
- Fixture loading, hex parsing, scenario files and command-line adapters: input and output plumbing.
- Witness proof-node layout, validator credential lifecycle and threshold authorization: unimplemented in the source.
