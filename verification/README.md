# Polycentric v2: a verified model of the shared core

This project models the behaviour at the centre of Polycentric v2 and proves what it
promises: signed per-identity event logs that several devices write and several servers
replicate. The model is written in Dafny 4.11; `dafny verify dfyconfig.toml` checks all of it.

Hashing, signature checking and the protobuf codec are function-valued fields of `Env`
(`Model.dfy`), and every theorem holds for every choice of them. The Merkle theorems assume
nothing about SHA-256: where collision resistance matters, a function computes the colliding
byte strings. The theorems that compare whole candidate sets of identity events assume that no
two documents among those candidates collide (`KeysIdentifyDocuments`, below).

## The modules

| file | what it models |
|---|---|
| `Primitives.dfy`, `Ordering.dfy` | bytes, options, filters; comparisons and stable sorting |
| `MerkleTree.dfy`, `MerkleProof.dfy` | the tree and audit path of sections 2.1 and 2.1.1 of RFC 6962, and the verifier of section 2.1.3.2 of RFC 9162 |
| `Model.dfy` | the decoded messages, the uninterpreted operations, event keys and their order |
| `VectorClock.dfy`, `CanonicalOrder.dfy` | happens-before, and the canonical order behind the Merkle anchors |
| `IdentityDocument.dfy`, `IdentityChain.dfy`, `ChainTheorems.dfy` | identity documents, the fork-choice walk, and its specification as the greatest justified chain |
| `Stores.dfy`, `Validation.dfy`, `Client.dfy` | the stores, what is derived from them, and the client with its two caches |
| `ClientTheorems.dfy`, `Delivery.dfy`, `Growth.dfy` | revocation, clocks, publishing, tombstones, confluence of deliveries, and when deliveries only add |
| `Sync.dfy`, `Transfer.dfy`, `SyncProtocol.dfy` | what a push sends, what arrives at the other end, and replication as an asynchronous protocol between devices (storage and core) and servers |
| `Publishing.dfy` | committing an event, when its sequence is new, and a fork after which a sequence is used twice |
| `Pull.dfy`, `PullTheorems.dfy` | a whole pull: copying into the core, merging, validating, saving; its relation to the protocol, and a fork that loses an event |
| `QueryCache.dfy`, `QueryRuns.dfy`, `QueryTheorems.dfy` | the fan-out query cache, its reachable states, and what subscribers can rely on |
| `Blocks.dfy` | the block filter and its reply cascade |
| `IdentityTool.dfy` | the identity command-line tool as a producer of chains |

Code that updates state in the repository is imperative here: the client, the query cache,
the pull storage and the identity tool are classes, and loops are loops with invariants.
Each such method is proved against a function of the old state, and the theorems are about
those functions. What such a function means is stated once more from the decoded bytes alone, as
a lemma with "meaning", "exactly" or "iff" in its name where it decides something.

## Assumptions stated in contracts

- `KeysIdentifyDocuments`: within one set of candidates, equal document keys mean equal
  documents. A document key is a SHA-256 value, so this says that no two of the candidate
  documents collide.
- `Tools.Lawful`: what the identity tool encodes decodes again, and what a private key signs
  verifies under its public key.
- `Agree`: the delivered bundles do not put different events, proofs or contents under one key
  or digest.
- `SyncProtocol.Next`: a signer publishes at one site. What a server accepts and what a device
  validates is a parameter of each step.
- `SyncProtocol.Tame`, in the theorems that name it: above all, a published sequence is new to
  its stream. `NextSequenceIsNewIff` says exactly when the client's next sequence is,
  `SequencesStayNew` under which conditions it always is, and `ForkReusesSequence` that it need
  not be.

## Where the code does less than one might expect

- The sum of a vector clock is a wrapping `u64` addition. The canonical order puts all causes
  of an event before it if and only if the event's sum does not overflow (`CausesComeFirstIff`);
  between one cause and its effect it does so if and only if no carry separates their sums
  (`CausesComeFirst`). `OverflowPutsEffectFirst` is a pair that comes out the wrong way.
- The next sequence skips stored events that do not validate
  (packages/rs-core/src/client.rs:343-356), so a client can use a sequence again
  (`ForkReusesSequence`). The core then drops the new event and the storage replaces the old
  one by it; a server that holds the old one never takes the new one (`ReusedKeyIsLost`,
  `ServersKeepTheFirst`). `NextSequenceIsNewIff` has the exact condition.
- A pull saves only the listed events that validate on the device
  (packages/rs-core/src/query/event/merge.rs:112-116), while a server stores and lists identity
  events without checking them against the chain
  (services/server/src/service/events/rpc/put_events.rs:170-176). So a device need not end equal
  to the server, however few events are missing: `PushThenPull` and `SyncRoundConverges` state
  the exact condition, and `ForkLoserIsLost` is an input. An event skipped this way is lost to
  the storage once a later one of its stream is saved (`GapIsPermanent`); `RunsKeepStorages`
  says exactly which runs leave no such hole. The core keeps the skipped event until a restart
  rebuilds it from the storage.
- A server lists at most 200 events, highest sequence first
  (services/server/src/service/events/repository.rs:44-46 and 109-113). A pull that misses more
  of one stream moves the heads past a gap that no later partial pull fills
  (`TruncationLosesEvents`, `GapIsPermanent`). `ListingsHaveNoHole` and `PullKeepsPrefixes`
  state exactly which sets of missing events survive every cut, and `FullPullFills` which gaps
  a full pull closes: an event below 200 higher ones is out of its reach too.
- A restart of the core restores events and contents and no event proofs
  (packages/js-core/src/polycentric-client.ts:284-311). Until proofs are listed again, events of
  a revoked signer validate only with the recorded signature itself (`WithoutProofs`).
- An identity event does not extend the chain when its key is occupied by a stored event with
  missing or ill-formed content: `copy_event` keeps the old one (`OccupantIsMalformed`), and the
  chain goes on with that one if the new content happens to complete it
  (`PublishedRotationExtendsChain`).
- A partial push never sends an event with sequence 0 (packages/rs-core/src/sync.rs:67-70).
- A replace response is dropped when a later merge response of the same server landed first, so
  a replace fan-out does not always evict older pages (`ReplaceEvictsIff`, `OlderPageSurvives`).
- An invalidation discards in-flight merge responses only; an in-flight replace response still
  enters the cleared cache (`InvalidationDiscardsIff`).
- Revocation targets are read from the head document only
  (packages/rs-common/src/models/identity.rs:371-376).
- The identity tool removes a key from one list only: a key that is both a rotation and a
  signing key may still sign after its revocation (`RevokedUnlessBoth`).
- A revocation by the identity tool records no target, so the events that the revoked key signed
  in other collections stop validating (`RevocationRecordsNothing`, `RevokedWithoutTarget`).
- Saving pulled content in the JavaScript client does not check it against the digest
  (packages/js-core/src/polycentric-client.ts:827-855), unlike `copy_content`, and what it saves
  is never replaced (`UncheckedContentStays`).

## Model

| member | source | states |
|---|---|---|
| MerkleTree.LargestPow2Lt | packages/rs-common/src/merkle/tree.rs:28-35 | the doubling loop finds the split point: the only power of two `k` with `k < n <= 2k` |
| MerkleTree.SplitUnique | packages/rs-common/src/merkle/tree.rs:27-35 | a power of two in that range is unique, so the split point is well defined |
| MerkleTree.FillAuditPath | packages/rs-common/src/merkle/tree.rs:63-75 | appends exactly the recursive audit path to what the vector held |
| MerkleTree.BuildAuditPath | packages/rs-common/src/merkle/tree.rs:54-61 | a path for every index in range, none otherwise |
| MerkleTree.RootSplits | packages/rs-common/src/merkle/tree.rs:45-51 | pairing up levels bottom-up gives the node of the two halves that splitting top-down gives |
| MerkleTree.MthIsRoot | packages/rs-common/src/merkle/tree.rs:45-51 | the recursive tree hash equals the root reached by pairing up the leaf hashes level by level, for every leaf list |
| MerkleTree.AuditPathIsPath | packages/rs-common/src/merkle/tree.rs:63-75 | the recursive audit path lists the siblings met on the way up, for every list and index |
| MerkleTree.VerifyInclusion | packages/rs-common/src/merkle/tree.rs:79-114 | the shifting loop accepts exactly when the index is in range and climbing the path from the leaf reaches the root |
| MerkleTree.InclusionComplete | packages/rs-common/src/merkle/tree.rs:45-114 | completeness: the verifier accepts the built path of every leaf against the tree hash, for every size and index |
| MerkleTree.InclusionClash | packages/rs-common/src/merkle/tree.rs:45-114 | soundness without any assumption on the hash: an accepted proof is the genuine leaf with the built path, or two differing node or leaf inputs with equal hashes are returned |
| MerkleTree.ClimbClashSound | packages/rs-common/src/merkle/tree.rs:79-114 | retracing an accepted climb next to the genuine tree finds the first clash, or the climb is genuine |
| MerkleTree.AcceptedPathLength | packages/rs-common/src/merkle/tree.rs:79-114 | an accepted path has the one length that index and size fix, at most ceil(log2 size), and exactly that at index 0 |
| MerkleProof.CollidingInputs | packages/rs-common/src/merkle/tree.rs:12-25 | a clash of the tree yields two different byte strings with the same SHA-256 value; the leaf and node prefixes are accounted for |
| MerkleProof.InputsAreSeparate | packages/rs-common/src/merkle/tree.rs:7-25 | leaf inputs are a zero byte and the leaf, node inputs a one byte and the two hashes; no string is both, and either determines its parts |
| MerkleProof.RootCollision | packages/rs-common/src/merkle/tree.rs:12-51 | a root determines its list, whatever the lengths: two non-empty lists with the same tree hash are the same list, or a SHA-256 collision is computed |
| MerkleProof.TargetCollision | packages/rs-common/src/merkle/proof.rs:9-50 | two targets with the same root commit to the same list and the same number of leaves, or a collision is computed |
| MerkleProof.VerifyProof | packages/rs-common/src/merkle/proof.rs:9-50 | accepts exactly the proofs whose index is in range, whose hashes have 32 bytes and whose path leads to the target's root |
| MerkleProof.ProofCollision | packages/rs-common/src/merkle/proof.rs:9-50 | against a target that commits to a list, an accepted proof is the built proof of the member at its index, or a SHA-256 collision is computed |
| MerkleProof.ProofComplete | packages/rs-common/src/merkle/proof.rs:9-50 | every member of a committed list has an accepted proof |
| CanonicalOrder.CanonicalIsSortedPermutation | packages/rs-common/src/merkle/leaves.rs:14-36 | the canonical list is a sorted permutation of the decodable inputs |
| CanonicalOrder.AnchorIgnoresArrivalOrder | packages/rs-common/src/merkle/leaves.rs:14-36 | any permutation of the input gives the same canonical list, previous root and previous signature |
| CanonicalOrder.AnchorCollision | packages/rs-core/src/client.rs:360-384 | an anchor determines the history: two streams with the same previous root have the same canonical signatures and previous signature, or a collision is computed; the root is empty only without decodable events |
| CanonicalOrder.TiesBreakByTime | packages/rs-common/src/merkle/leaves.rs:14-36 | of two events with equal wrapped sums the one created earlier comes first, and of two created at the same time the one with the smaller signature; an event without a clock has sum 0 |
| CanonicalOrder.CausesComeFirst | packages/rs-common/src/merkle/leaves.rs:14-36 | wherever a cause and its effect stand in the list: with different wrapped sums the smaller comes first; with sums less than 2^64 apart the cause comes first if and only if no carry out of 64 bits lies between them; always, if the effect's sum fits in 64 bits |
| CanonicalOrder.CausesComeFirstIff | packages/rs-common/src/merkle/leaves.rs:14-36 | the order puts every possible cause of an event before it if and only if the event's clock sum fits in 64 bits |
| CanonicalOrder.OverflowPutsEffectFirst | packages/rs-common/src/merkle/leaves.rs:22-27 | two related clocks whose wrapped sums place the effect first |
| VectorClocks.ComputeHappensBefore | packages/rs-common/src/models/vector_clock.rs:40-54 | the loop with the `strict` flag decides: equal lengths, nowhere greater, somewhere smaller |
| VectorClocks.StrictPartialOrder | packages/rs-common/src/models/vector_clock.rs:40-59 | happens-before is irreflexive, asymmetric and transitive, and concurrency is symmetric |
| VectorClocks.WrappedSumIncreases | packages/rs-common/src/merkle/leaves.rs:22-27 | of two related clocks with sums less than 2^64 apart, the later one has the larger wrapped sum if and only if no carry separates them |
| VectorClocks.WrappedSumExceedsCausesIff | packages/rs-common/src/merkle/leaves.rs:22-27 | a clock's wrapped sum exceeds those of all clocks that happen before it if and only if its sum does not overflow; an overflowing clock has a cause whose wrapped sum is the largest `u64` |
| IdentityDocument.DeduplicatedKeys | packages/rs-common/src/models/identity.rs:30-37 | each key once, and exactly the keys the document authorizes |
| IdentityDocument.PositionsFollowDocument | packages/rs-common/src/models/identity.rs:27-37 | clock positions follow the first occurrences of the keys in the rotation keys and then the signing keys |
| IdentityDocument.TargetIsRecorded | packages/rs-common/src/models/identity.rs:55-75 | the revocation target for a signer and a collection is, by position, the first target with the collection of the first bound on the signer |
| IdentityDocument.GetSignerPosition | packages/rs-common/src/models/vector_clock.rs:6-37 | succeeds exactly when the clock has one entry per key, the signer is listed and its entry is the expected sequence |
| IdentityChain.GroupBySequence | packages/rs-common/src/models/identity.rs:117-129 | the map holds, for each sequence, the well-formed candidates with that sequence in order of arrival |
| IdentityChain.WalkMap | packages/rs-common/src/models/identity.rs:140-167 | the loop that removes map entries computes the greedy walk from the genesis |
| IdentityChain.PreprocessedIsAttested | packages/rs-common/src/models/identity.rs:186-231 | a candidate is admitted as an identity event if and only if its bytes decode to the event's identity, collection, signer and sequence, the signer's Ed25519 key verifies the signature over them, its content has the stated SHA-256 value and decodes to the document |
| IdentityChain.ResolveChain | packages/rs-common/src/models/identity.rs:112-172 | the imperative resolution equals `Resolve` over the preprocessed candidates, including the failures, and every event of its result is attested by a candidate in that sense |
| IdentityChain.SuccessionMeaning | packages/rs-common/src/models/identity.rs:279-324 | who may succeed a head, and why, from the two documents: a rotation key of the head; else a listed key that changes only the recovery signature; else a rotation key of the new document for which the head's recovery key signed |
| IdentityChain.PayloadNamesKey | packages/rs-common/src/models/identity.rs:326-337 | the recovery payload is the identity, the 32-bit key type in network order and the key, and equal payloads for an identity name the same key |
| IdentityChain.SuccessorsOrdered | packages/rs-common/src/models/identity.rs:383-418 | the comparison of successors is a total preorder whose ties agree in sequence, reason, signer and document key |
| IdentityChain.MaxByIsMaximal | packages/rs-common/src/models/identity.rs:137-160 | the selected element is a greatest one, for every comparison that chains |
| IdentityChain.MaxByIsLast | packages/rs-common/src/models/identity.rs:137-160 | and the last one: every later element is strictly smaller |
| ChainTheorems.ResolveIsGreedy | packages/rs-common/src/models/identity.rs:112-172 | the resolved chain starts with the greatest genesis, each later event beats all its rivals, and nothing may follow the last; nothing resolves exactly when there is no genesis |
| ChainTheorems.GenesisMeaning | packages/rs-common/src/models/identity.rs:131-139 | a chain starts with an event of sequence 1 whose own document lists its signer as a rotation key and has the identity as its key; nothing resolves exactly when there is none |
| ChainTheorems.GreedyIsGreatest | packages/rs-common/src/models/identity.rs:131-167 | every justified chain over the candidates is at most the greedy one in the lexicographic order |
| ChainTheorems.AtMostAntisymmetric | packages/rs-common/src/models/identity.rs:380-418 | the order on chains is antisymmetric, so a greatest chain is unique |
| ChainTheorems.ResolveIsGreatestChain | packages/rs-common/src/models/identity.rs:112-172 | resolution returns `r` if and only if `r` is the greatest justified chain over the candidates; document keys must not collide within the candidates |
| ChainTheorems.ResolveIgnoresOrderAndDuplicates | packages/rs-common/src/models/identity.rs:112-172 | only the set of candidates matters |
| ChainTheorems.ResolveMovesUp | packages/rs-common/src/models/identity.rs:112-172 | with more candidates the resolved chain never moves down |
| ChainTheorems.AddingCandidate | packages/rs-common/src/models/identity.rs:144-167 | non-interference, exactly: a new candidate changes nothing if and only if it neither beats an event of the chain in its place nor may follow the head |
| ChainTheorems.AddingSuccessor | packages/rs-common/src/models/identity.rs:144-167 | progress: a candidate that may follow the head makes the new chain start with the old one plus that event |
| ChainTheorems.ChangeNeedsAuthority | packages/rs-common/src/models/identity.rs:279-324 | if keys, bounds, servers or recovery key differ between two places of a chain, a step in between was signed by a rotation key of its predecessor or vouched for by its recovery key |
| ChainTheorems.RotationWins | packages/rs-common/src/models/identity.rs:399-408 | where a rotation key of the head has published a successor, the chain continues with a rotation |
| ChainTheorems.RecoveryWins | packages/rs-common/src/models/identity.rs:399-408 | where the head's recovery key has vouched for a new document, the chain continues with a rotation or a recovery, and not with a republication |
| ChainTheorems.TiesBreakUpwards | packages/rs-common/src/models/identity.rs:383-418 | among candidates for one place with the same reason the chain takes one with the greatest key by type and bytes, and among those with the greatest document key |
| Stores.InsertAtMembers | packages/rs-core/src/store/event_store.rs:31-39 | insertion keeps the map ordered and adds the entry exactly when its key was free |
| Stores.SameEntriesSameStore | packages/rs-core/src/store/event_store.rs:13-15 | an ordered store is determined by its entries |
| Stores.StreamAscends | packages/rs-core/src/store/event_store.rs:94-118 | a stream lists its events in ascending sequence |
| Stores.PutKeepsValid | packages/rs-core/src/client.rs:103-155 | storing events and content keeps every event filed under its own key, in order, and every content hashing to its digest |
| Client.EventChangesOneChain | packages/rs-core/src/client.rs:103-119 | a stored event changes no chain, except a new identity event that of its own identity |
| Client.OtherContentChangesNoChain | packages/rs-core/src/client.rs:143-152 | content that is not an identity document changes no chain |
| Client.PolycentricClient.constructor | packages/rs-core/src/client.rs:49-52 | an empty client with consistent caches |
| Client.PolycentricClient.SetActiveIdentity | packages/rs-core/src/client.rs:66-69 | drops the blocked set and keeps the caches in agreement with the stores |
| Client.PolycentricClient.GetChain | packages/rs-core/src/store/identity_store.rs:25-46 | cached or fresh, the chain is the one the stores resolve to |
| Client.PolycentricClient.ValidateEvent | packages/rs-core/src/client.rs:537-651 | decides validity against the freshly resolved chain: chain membership, authorization, revocation target or proof, clock structure |
| Client.PolycentricClient.CollectValid | packages/rs-core/src/client.rs:443-478 | the loop collects exactly the valid entries and the targets of their deletes |
| Client.PolycentricClient.ListValidEvents | packages/rs-core/src/client.rs:443-487 | the visible bundles: valid, and not the target of a valid delete, in order |
| Client.PolycentricClient.BlockedIdentities | packages/rs-core/src/client.rs:78-95 | cached or fresh, the blocked set is the one the stores give for the active identity |
| Client.PolycentricClient.CopyEvent | packages/rs-core/src/client.rs:103-119 | stores the event under a free key, and every cache still agrees with a fresh computation |
| Client.PolycentricClient.CopyContent | packages/rs-core/src/client.rs:124-155 | rejects content that does not hash to its digest; otherwise stores it and keeps the caches in agreement |
| Client.PolycentricClient.CopyBundles | packages/rs-core/src/client.rs:246-289 | stores the well-signed bundles, identity events first and then by sequence, and keeps the caches in agreement |
| Delivery.BatchInOrder | packages/rs-core/src/client.rs:246-289 | a batch is stored identity events first, and by sequence within either group |
| Transfer.BatchAddsSigned | packages/rs-core/src/client.rs:246-289 | copying a batch keeps what is stored, adds only entries under free keys that a bundle brings with a verifying Ed25519 signature, and leaves no key that it brings free |
| Transfer.BatchIsInsert | packages/rs-core/src/client.rs:246-289 | copying a batch with one event for each key is the insertion of the replication protocol |
| Delivery.StepDelivered | packages/rs-core/src/client.rs:246-289 | one stored bundle adds exactly what it contributes to what was delivered before |
| Delivery.DeliveredUnique | packages/rs-core/src/client.rs:246-289 | the stores are determined by the initial stores and the set of delivered bundles |
| Delivery.DeliveryConfluence | packages/rs-core/src/client.rs:246-289 | two runs that deliver the same bundles in any order and any batches end in the same stores, when no two disagree on a key or digest |
| Delivery.VisibleIgnoresDelivery | packages/rs-core/src/client.rs:443-487 | hence the visible events do not depend on order or batching |
| Validation.VerifyVectorClock | packages/rs-core/src/vector_clock.rs:16-46 | fails exactly on structural errors, and otherwise returns the missing keys in order of position |
| Validation.MissingExactly | packages/rs-core/src/vector_clock.rs:16-46 | a key is reported missing if and only if the clock states it at a position other than the signer's own, with a non-zero sequence, and the store has no event under it |
| ClientTheorems.ValidEventIsAuthorized | packages/rs-core/src/client.rs:537-651 | an identity event that validates is in the resolved chain; any other was signed by a key of the chain document it refers to and carries its own sequence at that key's clock position |
| ClientTheorems.ValidEventIff | packages/rs-core/src/client.rs:563-651 | an event outside the identity collection validates if and only if it was signed by a key of the chain document it refers to, carries its sequence at the key's position in a clock of the right length, and the head lists the key, or records a target for key and collection that is of this very signature or proves it with the first proof for that target |
| ClientTheorems.CandidatesAreAttested | packages/rs-core/src/identity.rs:14-43 | the candidates of an identity are exactly the events that a stored entry attests: filed under their key, signature verified, stored content decoding to the document |
| ClientTheorems.ChainIsAttested | packages/rs-common/src/models/identity.rs:112-172 | so every event of a resolved chain was signed with the key it names |
| ClientTheorems.RevokedSignerCollision | packages/rs-core/src/client.rs:603-634 | for the target that the head's bounds record by position: an event of a revoked signer validates only with the target's signature or a member of the committed list, or a collision is computed |
| ClientTheorems.RevokedWithoutTarget | packages/rs-core/src/client.rs:603-613 | without a recorded target it never validates |
| ClientTheorems.RevokedSignerKeepsHistory | packages/rs-core/src/client.rs:603-634 | conversely every member of the committed list validates with the proof built for its place |
| ClientTheorems.WithoutProofs | packages/js-core/src/polycentric-client.ts:284-311 | without stored proofs, as after a restart, an event validates if and only if it validated with them and is an identity event, or its signer is listed by the head, or its signature is the one the head records for the revoked signer |
| ClientTheorems.BuiltClockVerifies | packages/rs-core/src/client.rs:386-439 | a built clock passes the structural check against its document if and only if the document lists the signer |
| ClientTheorems.BuiltClockIsComplete | packages/rs-core/src/vector_clock.rs:16-46 | a built clock reports nothing missing, now and after any growth of the store |
| ClientTheorems.ClockRoundTrip | packages/rs-core/src/client.rs:386-439 | a clock is built exactly when the chain resolves and the document exists; it passes the structural check if and only if the document lists the signer, and then nothing is missing, however the store grows |
| ClientTheorems.LastWhereIsStored | packages/rs-core/src/client.rs:414-436 | the entry of another key is 0 or the sequence of a valid stored event of that key |
| ClientTheorems.BuiltClockIsLatest | packages/rs-core/src/client.rs:406-436 | the entry of another key is at least the sequence of every valid event of that key |
| ClientTheorems.NextSequenceIsAbove | packages/rs-core/src/client.rs:343-356 | the next sequence is above every stored event of the collection that validates, until the 64-bit addition wraps; `Publishing.NextSequenceIsNewIff` has the events that do not validate |
| Validation.NextAfterMeaning | packages/rs-core/src/client.rs:343-356 | the next sequence is one past the largest valid one, modulo 2^64, and 1 if there is none |
| ClientTheorems.NextIdentitySequence | packages/rs-core/src/client.rs:345-356 | the next sequence of the identity collection is one past the head of the resolved chain, with the wrap at 64 bits |
| ClientTheorems.NewCandidate | packages/rs-core/src/identity.rs:14-43 | storing a new identity event adds exactly its preprocessed form to the candidates |
| ClientTheorems.OccupantIsMalformed | packages/rs-core/src/client.rs:103-119 | an event already stored at the next sequence of a chain under a rotation key of the head is never a well-formed candidate |
| ClientTheorems.PublishedRotationExtendsChain | packages/js-core/src/polycentric-client.ts:414-433 | an identity event at the next sequence, signed by a rotation key of the head, is committed, event first and content second, and no other stored identity event waits for that content: the new chain starts with the old one plus the candidate then stored under the key (the event itself if the key was free, else the older event, which the content may have completed), or stays as it was if that is not well-formed |
| Publishing.CommitEvent | packages/js-core/src/polycentric-client.ts:414-433 | the storage overwrites the event of a taken key, the core keeps it; content follows; a refused event changes nothing |
| Publishing.CommitIsPublish | packages/js-core/src/polycentric-client.ts:414-433 | committing is the protocol's publish step: overwriting in the storage, insertion in the core |
| Publishing.CommittedContent | packages/js-core/src/polycentric-client.ts:414-433 | after a commit the core holds its old content and the new one under the digest that the event states, if that is its SHA-256 value and the digest was free; no proofs change |
| Publishing.NextSequenceIsNewIff | packages/rs-core/src/client.rs:343-356 | the next sequence is positive and above everything stored of the stream if and only if its computation does not wrap and it is above the stored events of the stream that do not validate |
| Publishing.NextSequenceIsNew | packages/rs-core/src/client.rs:343-356 | it is new if every stored event of the stream validated at some time, the chain only grew since and its head still lists the signer |
| Publishing.ValidityGrows | packages/rs-core/src/client.rs:537-651 | an event that validated against a chain validates against every extension of it whose head lists the signer, with any proofs |
| Publishing.BuiltEventValidIff | packages/js-core/src/polycentric-client.ts:317-378 | an event whose clock was built for the document it refers to validates if and only if that document lists the signer, and the head does too or vouches for the signature |
| Publishing.SequencesStayNew | packages/js-core/src/polycentric-client.ts:317-433 | over the whole history of a device whose chain grows, whose signer stays listed and whose new events validate when stored: all its events stay valid and its next sequence is always new, up to the wrap |
| Publishing.IdentitySequenceIsLast | packages/rs-core/src/client.rs:324-341 | a device refers to the greatest stored identity sequence of its own key, validated or not |
| Publishing.ForkReusesSequence | packages/rs-core/src/client.rs:343-356 | an input on which a sequence is used twice: a device publishes event 1 under its own identity event, which then loses a fork; event 1 no longer validates, the next sequence is 1 again, and the core drops whatever is published with it |
| ClientTheorems.VisibleExactly | packages/rs-core/src/client.rs:443-487 | an entry is visible if and only if it is a valid entry of the collection and no valid entry of it has stored content that decodes to a delete of its key |
| Validation.TargetsMeaning | packages/rs-core/src/client.rs:459-477 | an entry deletes a key, or blocks an identity, if and only if its stored content decodes to a delete of that key, or a block of that identity |
| ClientTheorems.VisibleBundlesCarry | packages/rs-core/src/client.rs:443-487 | each listed bundle carries its entry's event, the stored content that the event states, and the stored proofs |
| ClientTheorems.BlockedExactly | packages/rs-core/src/client.rs:78-95 | an identity is blocked if and only if stored content of a valid, undeleted entry of the social graph decodes to a block of it |
| ClientTheorems.ValidityIsStable | packages/rs-core/src/client.rs:537-651 | with the chain fixed, validity does not change as the store grows |
| ClientTheorems.HiddenStaysHidden | packages/rs-core/src/client.rs:443-487 | with the chain fixed, a hidden event never reappears as the stores grow |
| Growth.ProofsAfter | packages/rs-core/src/client.rs:246-289 | the proofs stored for a key after a run of deliveries are the last non-empty ones delivered for it, or the old ones |
| Growth.RunGrowsIff | packages/rs-core/src/client.rs:246-289 | a run of deliveries only makes the stores grow if and only if the last proofs it brings for each stored event are those already stored |
| Growth.HiddenAfterDeliveries | packages/rs-core/src/client.rs:443-487 | an event hidden before such a run is hidden after it, if the chain still resolves as before |
| Sync.HeadsMap | packages/rs-core/src/sync.rs:40-50 | the map gives the last head of each stream, and 0 elsewhere |
| Sync.FindCollectionsAndSigners | packages/rs-core/src/store/event_store.rs:127-178 | the skipping search finds every collection and every signer of the identity, each once, and no others |
| Sync.IdentityFirst | packages/rs-core/src/sync.rs:54-61 | after the swap the same collections remain and the identity collection is first if present |
| Sync.AllUnsentExact | packages/rs-core/src/sync.rs:63-79 | the nested loops gather exactly the events above the heads, identity events first, each stream ascending |
| Sync.BundleUnsentEvents | packages/rs-core/src/sync.rs:35-82 | sends exactly the local events above each head, each once, identity events first, each with the stored content that it states and without proofs; fails exactly when one of them does not decode. An event with sequence 0 is never above a head |
| Sync.BundleLocalEvents | packages/rs-core/src/sync.rs:85-100 | bundles every event of the identity in key order with the stored content that it states, or fails exactly when one does not decode |
| Transfer.PushArrives | packages/rs-core/src/sync.rs:31-82 | the law across both ends: the bundles of a push, copied into an empty core, leave exactly the well-signed entries sent, exactly the content that these state and the sender holds, and no proofs |
| SyncProtocol.HeadsDecide | services/server/src/service/events/repository.rs:89-107 | for reported heads, the push filter and the listing filter let through exactly the events above everything the other side holds of their stream |
| SyncProtocol.BundledIsOffered | packages/rs-core/src/sync.rs:35-82 | the bundled events are the set the protocol step sends |
| SyncProtocol.PartialIsFull | packages/rs-core/src/sync.rs:31-34 | between prefixes, sending what lies above the receiver's heads sends exactly what the receiver lacks |
| SyncProtocol.ListingsHaveNoHole | services/server/src/service/events/repository.rs:44-114 | every page a server may draw, together with its hints, leaves no hole below what it brings, apart from what the receiver had, if and only if the cut tears nothing else off: a condition on the candidates, hints and the receiver's snapshot, before a page is drawn |
| SyncProtocol.ShortListingNeverTears | services/server/src/service/events/repository.rs:44-46 | a listing of at most 200 candidates tears nothing, and neither does one of any size whose events the receiver had |
| SyncProtocol.RunsKeepKeysUnique | packages/rs-core/src/store/event_store.rs:31-39 | in every run, with no condition: no server, core, storage or delivery has two events under one key |
| SyncProtocol.ServersKeepTheFirst | services/server/src/service/events/repository.rs:185-276 | in every run, with no condition: a server keeps the event it first held under a key and never holds another |
| SyncProtocol.ReusedKeyIsLost | packages/js-core/src/polycentric-client.ts:414-433 | an event published under a taken key is dropped by the core, so that no push sends it, and replaces the older event in the storage, which then has a hole |
| SyncProtocol.RunsStayConsistent | packages/rs-core/src/sync.rs:35-100 | in every tame run of publish, partial and full push and pull, and restart steps, with requests and replies late, repeated or lost, every server and every core holds a prefix of every published stream, no two published events share a key, and every storage is part of its core, whatever fails validation. Tame: a published sequence is positive and above the stream in the core (`Publishing.NextSequenceIsNewIff`), listings tear nothing off that the receiver did not have, a device that restarts has no hole in its storage, a server accepts in order |
| SyncProtocol.SavedKeepsPrefix | packages/js-core/src/polycentric-client.ts:770-789 | one delivery leaves the storage a prefix if and only if nothing is saved after an event of its stream that the delivery brings and does not save |
| SyncProtocol.PublishStaysConsistentIff | packages/js-core/src/polycentric-client.ts:414-433 | for a new event of a stream whose published events another site holds, publishing keeps all that if and only if the sequence is positive and above the stream in the core |
| SyncProtocol.RunsKeepStorages | packages/js-core/src/polycentric-client.ts:740-944 | over whole runs whose publish and listing steps are tame: every storage and every server holds a prefix at all times if and only if every delivery saves in order; restarts then need no condition |
| SyncProtocol.PullKeepsPrefixes | services/server/src/service/events/repository.rs:89-114 | for a partial, full or late-answered pull, whatever page the server draws: the storage stays a prefix if and only if the storage holds every event that the cut or the validation can leave out below a saved one of its stream |
| SyncProtocol.FullPullFills | services/server/src/service/events/repository.rs:89-114 | when a full pull brings a missing event with a free key: with some page iff it validates and fewer than 200 events have a higher sequence, with every page iff it validates and fewer than 200 others have one at least as high |
| SyncProtocol.PushThenPull | packages/js-core/src/polycentric-client.ts:740-790 | after a partial push and a partial pull the storage equals the server if and only if the server accepts what it lacked of the storage, and what the storage lacks fits into one page of 200 events, lies above its heads and validates on the device |
| SyncProtocol.PushThenPullSteps | packages/js-core/src/polycentric-client.ts:740-944 | as steps of the protocol, a partial push and pull end in the sets that `PushThenPull` is about, the hints in the core only |
| SyncProtocol.FullPushSteps | packages/rs-core/src/sync.rs:85-100 | a full push offers the server the whole core |
| SyncProtocol.RestartForgets | packages/js-core/src/polycentric-client.ts:164-177 | after a restart the core holds exactly what the storage holds |
| SyncProtocol.SyncRoundConverges | packages/js-core/src/polycentric-client.ts:895-944 | all devices push, then all pull: each storage equals the server if and only if the server has all of it and what the storage lacks fits into one page, lies above its heads and validates; a server that accepts everything is then the union of itself and all cores |
| SyncProtocol.GapIsPermanent | services/server/src/service/events/repository.rs:89-114 | an event below the storage's head that the storage lacks never arrives by any later partial pulls, whatever they list and whatever validates |
| SyncProtocol.TruncationLosesEvents | services/server/src/service/events/repository.rs:89-114 | when more events of one stream are missing than a page holds, some event is not listed, and it ends up below the heads as soon as anything of the page is saved; that event is returned |
| Pull.MergeEventBundles | packages/rs-core/src/query/event/merge.rs:143-167 | the loop with the map of positions keeps the order of first appearance and merges every later bundle of a key into the first |
| Pull.MergedKeysDistinct | packages/rs-core/src/query/event/merge.rs:143-167 | after merging, each event key occurs once |
| Pull.MergedFieldsAreFirst | packages/rs-core/src/query/event/merge.rs:121-167 | the merged bundle of a key holds the first event, the first content and the first non-empty proofs that any bundle of the key brings |
| Pull.ListedMembers | packages/rs-core/src/query/event/merge.rs:87-119 | what is merged are the bundles of all answers without the hints; what is copied are the hints and bundles of each |
| Pull.SaveableMeaning | packages/js-core/src/datastore/event-store.ts:15-36 | an entry is saved under the key that its bytes decode to, if they name a signer and neither they nor the signature are empty |
| Pull.ContentIsFirst | packages/js-core/src/polycentric-client.ts:827-855 | no stored content is replaced, and a free digest gets the first decodable content that a bundle of an event with a signer brings for it, if any |
| Pull.CopyListings | packages/rs-core/src/query/event.rs:102-124 | the hints and bundles of each answer are stored in the core, batch by batch, before any validation, and the caches stay in agreement |
| Pull.RetainValidated | packages/rs-core/src/query/validation.rs:16-30 | keeps, in order, exactly the bundles whose event validates on the core with the proofs the bundle carries |
| Pull.PullListings | packages/js-core/src/polycentric-client.ts:740-790 | a whole pull: the core takes in every answer; the storage takes in what validates on the core afterwards; the count returned is the growth of the storage |
| Pull.Storage.constructor | packages/js-core/src/polycentric-client.ts:160-168 | an empty storage |
| Pull.Storage.Commit | packages/js-storage-sqlite/src/repositories/event.repository.ts:19-37 | saves the device's own event under its key, in place of any other; refuses it exactly when it has no key, no signature or no bytes |
| Pull.Storage.Save | packages/js-core/src/polycentric-client.ts:770-789 | saves bundle after bundle; the count returned is the growth of the storage |
| Pull.FirstIsKept | packages/js-core/src/polycentric-client.ts:796-821 | no stored event is overwritten, and a free key gets the first complete event listed under it, if there is one |
| Pull.UncheckedContentStays | packages/js-core/src/polycentric-client.ts:827-855 | content that decodes but does not hash to its digest takes the digest in the storage and no later pull replaces it, while the core rejects it |
| Pull.Storage.TrySaveBundle | packages/js-core/src/polycentric-client.ts:796-821 | saves the content of every event with a signer, and the event exactly when it is complete and its key is free; reports the latter |
| Pull.Storage.TrySaveContent | packages/js-core/src/polycentric-client.ts:827-855 | saves decodable content under a free digest only |
| PullTheorems.PullIsAccept | packages/js-core/src/polycentric-client.ts:740-790 | what a pull adds to the storage is what the protocol's delivery step adds: the listed events that validate, except under taken keys |
| PullTheorems.RetainedIff | packages/rs-core/src/query/validation.rs:16-30 | a merged bundle is retained if and only if its event is backed by the resolved chain and still vouched for with the proofs that the bundle itself carries |
| PullTheorems.IdentityEntryValidIff | packages/rs-core/src/client.rs:537-570 | an identity event validates if and only if the resolved chain has an event of its signer at its sequence |
| PullTheorems.ForkResolves | packages/rs-common/src/models/identity.rs:383-418 | two rotation keys publish sequence 2: the chain resolves to the greater key's event |
| PullTheorems.ForkContinues | packages/rs-common/src/models/identity.rs:144-167 | and the losing key may still publish sequence 3, which continues the chain |
| PullTheorems.ForkLoserIsLost | packages/rs-core/src/query/validation.rs:16-30 | the fork as an input, from the identity events that the stores hold: with far fewer events than a page holds, a fresh device does not save the losing event and differs from the server, whatever pages are drawn; once the losing key publishes sequence 3, the storage has a hole that lies below its heads |
| QueryCache.QueryState.constructor | packages/rs-core/src/query/client.rs:226-241 | an empty cache at epoch 0 |
| QueryCache.QueryState.NextFanout | packages/rs-core/src/query/client.rs:244-252 | advances the epoch, and a replace fan-out becomes the latest replacement |
| QueryCache.QueryState.Update | packages/rs-core/src/query/client.rs:188-204 | the new cache for both modes, with late merge and late replace responses dropped |
| QueryCache.QueryState.ComputeMerged | packages/rs-core/src/query/client.rs:281-305 | merges all pages in ascending server order, whatever the iteration order of the map |
| QueryCache.QueryState.ComputeEmission | packages/rs-core/src/query/client.rs:308-316 | remembers what it emits, and emits nothing from an empty cache |
| QueryCache.PagesStandTogether | packages/rs-core/src/query/client.rs:281-305 | the merge function gets every cached page once: the pages of each server together and in order, after those of smaller servers, and no others |
| QueryCache.EmissionFeedsBack | packages/rs-core/src/query/client.rs:281-316 | a published value is remembered, and the next merge gets it together with all pages |
| QueryCache.InvalidatedStartsAfresh | packages/rs-core/src/query/client.rs:443-458 | after an invalidation the first page that gets in is merged alone and without a previous value |
| QueryCache.StatusMeaning | packages/rs-core/src/query/client.rs:270-316 | loading exactly while tasks are pending; afterwards success if and only if there is data, which is so if and only if a response is cached, and failure otherwise |
| QueryCache.ServerOrderUnique | packages/rs-core/src/query/client.rs:291-302 | the sorted server list is unique, so the merge input does not depend on the map |
| QueryCache.SpawnFanout | packages/rs-core/src/query/client.rs:524-533 | begins a fan-out with all its servers pending |
| QueryCache.GetServerResponse | packages/rs-core/src/query/client.rs:571-632 | one task's critical section: counters, cache, snapshot and whether it is the last |
| QueryCache.QueryClient.GetOrCreateState | packages/rs-core/src/query/client.rs:485-503 | one state per key, shared by all fetches of the key, and a private one without a key |
| QueryCache.QueryClient.Invalidate | packages/rs-core/src/query/client.rs:443-458 | clears exactly the caches whose key starts with the prefix |
| QueryCache.QueryClient.InvalidateAll | packages/rs-core/src/query/client.rs:463-470 | clears every cache |
| QueryRuns.TracesAreSound | packages/rs-core/src/query/client.rs:188-316 | in every reachable state: after a replace page come only merge pages of strictly later fan-outs; pending and finished tasks add up; exactly the last task closes; the settled mode takes that one snapshot, the eager mode one per response |
| QueryRuns.MergeAddedIff | packages/rs-core/src/query/client.rs:255-267 | a merge response is added, last, if and only if its fan-out began after every replace fan-out and every invalidation so far; otherwise nothing changes |
| QueryRuns.ReplaceEvictsIff | packages/rs-core/src/query/client.rs:190-198 | a replace response evicts the older pages of its server if and only if none of the cached ones is from its own or a later fan-out; otherwise they stay |
| QueryRuns.InvalidationDiscardsIff | packages/rs-core/src/query/client.rs:454-456 | right after an invalidation an in-flight response is discarded if and only if it is a merge response |
| QueryTheorems.OlderPageSurvives | packages/rs-core/src/query/client.rs:190-202 | a run in which a page older than a replace fan-out survives it, because a later merge response landed first |
| QueryTheorems.PendingUntilAllReport | packages/rs-core/src/query/client.rs:599-615 | nothing is pending if and only if every task has reported, so the count never runs below zero |
| QueryTheorems.ClosingSnapshot | packages/rs-core/src/query/client.rs:599-632 | the closing task is the one after which all have reported, and its snapshot merges the cache with every result recorded |
| QueryTheorems.ReplacedIsNewest | packages/rs-core/src/query/client.rs:190-198 | after replace responses in any order each server's page is the one of the highest epoch |
| QueryTheorems.ReplaceConfluence | packages/rs-core/src/query/client.rs:281-305 | two orders of arrival of the same replace responses leave the same cache and hand the same pages to the merge function |
| QueryTheorems.ReplaceRunsHoldNewest | packages/rs-core/src/query/client.rs:524-632 | in every run of replace fan-outs over distinct servers, each cached page is the response of the highest epoch since the last invalidation |
| Blocks.RetainPass | packages/rs-core/src/query/blocks.rs:66-82 | one pass of `retain`, with keys dropped in the pass taking effect at once |
| Blocks.FallsMeaning | packages/rs-core/src/query/blocks.rs:66-140 | from decoded events and contents: a bundle falls if its author is blocked, or it reposts a blocked identity, or, with the cascade, it replies to a blocked identity or to a dropped key |
| Blocks.HidingChainMeaning | packages/rs-core/src/query/blocks.rs:49-140 | likewise a hiding chain: it starts with a bundle blocked outright or answering a blocked identity, and each next one is a post whose reply parent is the event before it |
| Blocks.RetainUnblocked | packages/rs-core/src/query/blocks.rs:49-90 | terminates, and keeps in order exactly the bundles that are not hidden: blocked themselves, or at the end of a reply chain from a blocked bundle or identity |
| Blocks.HiddenIsLeastClosed | packages/rs-core/src/query/blocks.rs:61-87 | the hidden bundles are closed under the cascade and contained in every closed set: the least fixpoint |
| Blocks.HiddenIgnoresOrder | packages/rs-core/src/query/blocks.rs:61-62 | which bundles are hidden depends on the members of the list only |
| Blocks.RetainIsIdempotent | packages/rs-core/src/query/blocks.rs:49-90 | a second run changes nothing |
| IdentityTool.MaxSequenceBySigner | tools/identity/src/store.rs:419-433 | the loop computes each signer's largest sequence |
| IdentityTool.MaxIsAttained | tools/identity/src/store.rs:419-433 | exactly the signers of decodable events have an entry; it is attained by an event and bounds all of them |
| IdentityTool.OtherEntryIsLatest | tools/identity/src/event.rs:17-37 | the clock entry of another key bounds all its earlier events and is attained by one, or is 0 |
| IdentityTool.GenesisListsOne | tools/identity/src/store.rs:95-112 | the genesis document lists its key as the one rotation key and nothing else |
| IdentityTool.AddedKey | tools/identity/src/store.rs:116-132 | an added key joins the listed keys, may rotate if and only if added as a rotation key, and nothing else changes |
| IdentityTool.RemovedKey | tools/identity/src/store.rs:136-169 | rotation keys are searched first; removal drops the key bytes from that list only, appends one bound without targets, and changes nothing else |
| IdentityTool.RevocationRecordsNothing | tools/identity/src/store.rs:156-166 | a revocation by the tool records no target in any collection, so that with `RevokedWithoutTarget` nothing the key signed elsewhere validates once it is unlisted |
| IdentityTool.EventStates | tools/identity/src/store.rs:227-263 | what each written event states: its key, the identity event before it (the first itself), the time, its content's digest, and a clock with its sequence for the genesis key and 0 elsewhere |
| IdentityTool.AppendedStates | tools/identity/src/store.rs:227-263 | what an appended event states whoever signed before: its key, reference, time and digest, a verifying signature, and a clock with its sequence for the signer and for every other key the highest sequence that an earlier event names it with, or 0 |
| IdentityTool.IdentityStore.constructor | tools/identity/src/store.rs:72-79 | an empty store |
| IdentityTool.IdentityStore.LoadChain | tools/identity/src/store.rs:273-291 | the stored chain: one entry per command, numbered from 1, all signed by the genesis key |
| IdentityTool.IdentityStore.GenesisSecret | tools/identity/src/store.rs:342-346 | the private key stored for the genesis key |
| IdentityTool.IdentityStore.AppendEvent | tools/identity/src/store.rs:227-263 | appends the event built from the document, the prior events of any signers and the clock with the sequences they reached |
| IdentityTool.IdentityStore.AppendNext | tools/identity/src/store.rs:219-225 | appends the next event, signed by the genesis key, and the history stays well formed |
| IdentityTool.IdentityStore.CreateIdentity | tools/identity/src/store.rs:95-112 | fails exactly when an identity exists; otherwise one genesis event whose document key is the identity |
| IdentityTool.IdentityStore.AddKey | tools/identity/src/store.rs:116-132 | fails exactly without an identity; otherwise one more event whose document adds the key |
| IdentityTool.IdentityStore.RevokeKey | tools/identity/src/store.rs:136-169 | succeeds exactly for a decodable non-empty key that the current document lists and that is not the genesis key; the new document removes it and records the bound |
| IdentityTool.IdentityStore.CurrentDocument | tools/identity/src/store.rs:172-174 | the last document written, exactly when an identity exists |
| IdentityTool.IdentityStore.StoreResolves | packages/rs-common/src/models/identity.rs:112-172 | in every state the commands reach, the shared resolver accepts the whole store and its head document is the current document |
| IdentityTool.ResolverAcceptsAll | tools/identity/src/store.rs:202-213 | what the tool exports resolves to the chain of all its documents |
| IdentityTool.CanonicalIsSequenceOrder | tools/identity/src/event.rs:43-54 | the canonical order of the tool's events is their sequence order, because each clock sums to its sequence |
| IdentityTool.AnchorsHistory | tools/identity/src/event.rs:43-54 | event `n` anchors the tree hash of the first `n - 1` signatures in sequence order and repeats the last of them; the first anchors nothing |
| IdentityTool.ClockVerifies | tools/identity/src/event.rs:17-37 | every clock the tool writes passes the structural check against its own document |
| IdentityTool.RevokedUnlessBoth | tools/identity/src/store.rs:148-154 | a revoked key loses rotation, and loses signing unless it was listed as both kinds of key: only the rotation entry is removed then |

## Left out

- Protobuf, Ed25519, SHA-256 and hexadecimal encoding: `Env` and `Tools` stand for them.
- Network calls, authentication tokens, pairing, FFI bindings, logging and blobs: I/O.
- How a server decides acceptance, moderation and labels: a server is a site that stores what it accepts, by any predicate, and lists pages.
- The event metadata store and the metadata of a bundle: they do not affect what is modelled.
- Which hints a server adds: a listing carries any of the server's events as hints. Hints are copied into the core and never saved; their own merging and filtering only concerns display.
- The pull from several servers is one delivery per server in `SyncProtocol`; `Pull.PullListings` has the merged form.
- The exceptions that a failing storage raises: I/O.
- Locks, spawned tasks and timers: the tasks of a fan-out are steps under the state lock in any order. A fan-out whose tasks could not all be spawned is not modelled.
- `Observable` and the publishing of a snapshot after the lock is released: the theorems are about snapshots, not about the order in which a subscriber sees them.
- The fetch modes and the cached emission at the start of a fetch: `Read` stands for any such emission.
- `retain_unblocked_hints`, `retain_validated_hints` and `find_event_bundle_by_sequence`: they would add easy members.
- `resolve_latest` and the accessors of a chain beyond `StateAt` and the head: one-line projections.
- Overflow of the epoch counter, of a chain's sequence and of the page count: they take 2^64 steps. The clock sum and the next sequence, which can wrap on stored data, are modelled with their wrap.
- Files of the identity tool: its commands change the in-memory store at once, so a command interrupted between two writes is not modelled. Random key generation and the time are parameters.
- The proofs and contents a core holds are not part of a `SyncProtocol` site: they enter through the validation predicate of a step, which may differ from step to step.
- The event map is a sorted sequence, and a range of the map is the filter of its entries by the same bounds.
- `QueryResponseInfo` is a value inside the map that owns it, as in the source, and not an object of its own.
- `Array`-level updates of vectors such as the audit path: they are sequences that methods reassign or return.
- MerkleTree.VerifyInclusion: sizes and indices are unbounded naturals; the source's conversions from `u64` to `usize` are not modelled.
- SyncProtocol.RunsStayConsistent: covers tame runs; `RunsKeepKeysUnique` and `ServersKeepTheFirst` hold in all runs. The condition on a listing is exact for that listing (`ListingsHaveNoHole`), the one on a delivery for that delivery (`SavedKeepsPrefix`), and the one on a publish for that publish when another site holds the stream (`PublishStaysConsistentIff`).
- SyncProtocol.RunsKeepStorages: the condition on deliveries is exact, those on publish and listing steps are assumed.
- ClientTheorems.NextSequenceIsAbove: speaks of the events that validate; `Publishing.NextSequenceIsNewIff` is about all stored events.
- ClientTheorems.PublishedRotationExtendsChain: when other stored identity events wait for the same content, several candidates become complete at once; `ResolveMovesUp` says that the chain moves up then.
- ClientTheorems.HiddenStaysHidden: the identity chain is fixed, because a rotation can make a delete invalid again.
- Delivery.DeliveryConfluence: two events under one key are outside it, since the store keeps whichever arrives first.
