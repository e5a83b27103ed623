# Agent-of-Record: verified provenance chain

A Dafny model of how Agent-of-Record ties an agent's action to the prompt, context and payload it was meant to
have: the hash-chained ledger, the Merkle tree over it, the forensic verifier, the state machines that feed them
(proof issue, evidence, replay guard, key registry, anchoring), and the file agent with its hand-written
unified-diff engine. `dafny verify dfyconfig.toml` checks all of it.

## How it is modelled

- **Hash and signatures are arbitrary.** `Crypto.Suite` holds SHA3-256, canonical JSON, signing and base64 as function
  values. The hash is any function to 32-byte strings and is never assumed injective. A binding result reads "equal, or
  two different byte strings *in this finite set* have one digest", where the set lists exactly what the two computations
  hash (`HistoryInputs`, `OriginInputs`, `ProofInputs`). An unrestricted "some collision exists" would hold of every hash
  and say nothing. For the same reason no signature scheme is assumed unforgeable: a valid trace is authentic, or it
  carries itself a signature that verifies though nobody made it. That signing and base64 work (`SignatureLaw`) is a
  hypothesis where something is signed.
- **Canonical JSON** obeys `JcsLaws`: different values have different encodings (section 3.2 of RFC 8785), and an
  object's encoding is longer than any string member in it. Numbers are represented by their canonical literal.
- **Clocks, network, agents, MIME and tokens** are inputs. Each clock reading the code makes is a parameter. What an
  agent yields, and which verifications it asks the pipeline for while acting, are arbitrary functions of the plan.
- **Form.** Ledger, stores, registry, handlers, file agent and pipeline are classes with the source's fields; loops are
  loops. Each method's contract equates its result and new state with a function, and the theorems are about those
  functions, so they hold for what the methods do. What each operation decides is also stated in words of its own, as an
  if-and-only-if over inputs and state that names none of those functions (`TraceMeaning`, `RunMeaning`, `FileMeaning`,
  `DiffReading` and the `...Exactly` lemmas). Verification theorems quantify over arbitrary ledger contents and
  stored hash columns, which covers every way of tampering with entries behind the ledger's back.
- **Exceptions** are results. `Trace.Raised` and `FileError.Raised` stand for exceptions the code does not catch.

## Where code and documentation differ

- Repeating the last leaf of an odd-sized tree does not change the root (`HistoryBinding.PaddingIsInvisible`), so the tree
  is not the one of section 2.1 of RFC 6962. `RootAgreement.RootsAgreeExactly` says exactly which leaf lists share a
  root. Chaining still makes the root pin the history.
- `verify_merkle_proof` does not check a proof's length: inner nodes have accepted proofs
  (`MerkleSoundness.InnerNodesHaveProofs`). For leaf hashes recomputed from content no check is needed
  (`HistoryBinding.ChainedEntryProofSound`).
- The applier's docstring promises to reject "context or range mismatches". Only old lines are checked, each hunk by
  itself: header counts, new starts and the order of hunks play no part, so a patch can lose or repeat lines.
  `DiffTheorems.AppliesExactly` gives acceptance and output of every patch, `DiffTheorems.OutOfOrderIsAccepted` a case.
- Lines such as `\ No newline at end of file` are skipped, so the line before one keeps its newline: a patch for a file
  without a final newline is refused, or leaves a newline too many. `DiffMarkers.MarkersAreHonouredExactly` says exactly
  when skipping does no harm.
- It also says "standard unified diff", but the old start of a hunk with an empty old range is read one too low. Lines
  to insert after a line come out before it; at the top of the file (old start 0) they come out before the last line;
  after a line that does not exist they are accepted (`DiffPosix.EmptyOldRange`). For patches in order, with such lines,
  `DiffPosix.InsertionsArePosixExactly` and `DiffPosix.TopInsertionIsPosixExactly` say exactly when the result is the one
  the POSIX `diff` utility means.
- `run_verification` is documented to return a trace "even when individual checks fail". It raises for a saved record
  that does not decode, and for an uploaded proof that names an action type but has no evidence
  (`PipelineTheorems.RaisesExactly`).
- Replay safety depends on clock drift; `SignatureVerification.ReplayFreeExactly` gives the exact bound.

## Model

| member | source | states |
|---|---|---|
| `HistoryBinding.HistoryIsBound` | ledger_core/merkle.py:90-103 | ledgers built by `append` with one root have one history, or a lone entry's encoding is exactly the two digests under the other's root, or a collision is at hand |
| `HistoryBinding.PaddingIsInvisible` | ledger_core/merkle.py:93-95 | repeating the last leaf of an odd tree keeps its root, so leaves alone are not bound |
| `RootAgreement.RootsAgreeExactly` | ledger_core/merkle.py:90-103 | two leaf lists of any lengths share a root exactly when every path from the root, stepping back from duplicates, leads to one digest in both, at the depth of the lower tree's leaves; or two of the node inputs collide |
| `RootAgreement.RootFromLeaves` | ledger_core/merkle.py:70-103 | the root the loop computes is the top of the tree defined from the leaves down: each node the hash of the digest to its left followed by the digest to its right, where a missing right one is the left again |
| `RootAgreement.EntryProofItems` | ledger_core/merkle.py:49-67 | item j of an entry's proof is byte 0 and the node left of its path at level j, or byte 1 and the node right of it, computed from the leaves alone |
| `HistoryBinding.ChainedEntryProofSound` | ledger_core/merkle.py:106-122 | a proof of any length accepted for a recomputed non-first leaf shows the entry is in the ledger, or a collision, or a 64-byte first entry |
| `LedgerCore.ChainLeavesDistinct` | ledger_core/ledger.py:58-86 | chaining makes leaves pairwise distinct even when contents repeat |
| `LedgerCore.EqualLeavesEqualContents` | ledger_core/ledger.py:58-66 | equal leaf columns come from equal contents |
| `LedgerCore.Ledger.Append` | ledger_core/ledger.py:68-86 | errors leave the ledger alone; otherwise one entry is added with the next id, the given type, content and time, the leaf hash stored last, and the SHA3 of the canonical content and that; intact ledgers stay intact |
| `LedgerCore.Ledger.GetEntry` | ledger_core/ledger.py:88-95 | ids 1 to n find their entry, anything else is an error |
| `LedgerCore.IntactAppend` | ledger_core/ledger.py:68-86 | appending keeps every stored column equal to what contents determine, and ids 1 to n |
| `LedgerCore.Ledger.FirstInvalidEntryId` | ledger_core/ledger.py:101-109 | although it threads stored hashes, it returns the id of the first entry that differs from the chain recomputed from live content, and none exactly when all agree |
| `LedgerCore.Ledger.VerifyChain` | ledger_core/ledger.py:111-114 | true exactly when the stored columns are the recomputed ones |
| `LedgerCore.FirstBreakExact` | ledger_core/ledger.py:101-109 | the reported position is the first disagreement between stored and recomputed entries, both directions |
| `LedgerCore.FirstBreakOfPrefix` | ledger_core/ledger.py:101-109 | cutting a ledger keeps a first break inside the cut and loses one beyond it |
| `Merkle.BuildMerkleTree` | ledger_core/merkle.py:70-103 | the loop returns the tree of all levels with every id's position, or the first fault in entry order |
| `Merkle.BuildsExactly` | ledger_core/merkle.py:77-88 | a tree is built exactly for non-empty lists with distinct ids and 32-byte leaf hashes |
| `Merkle.RefusesTreeExactly` | ledger_core/merkle.py:77-88 | no tree exactly for an empty list or, with that error, because of the first entry in order whose id was seen before or whose leaf hash is not 32 bytes |
| `Merkle.HeightIsCeilLog` | ledger_core/merkle.py:92-101 | the number of levels above the leaves is the base-2 logarithm of the leaf count, rounded up |
| `Merkle.MerkleTree.GetProof` | ledger_core/merkle.py:49-67 | one item per level from the entry's position, or an error for an unknown id |
| `Merkle.VerifyMerkleProof` | ledger_core/merkle.py:106-122 | accepts exactly when sizes are right and folding the items reaches the root |
| `RootAgreement.AcceptsExactly` | ledger_core/merkle.py:106-122 | a proof is accepted exactly when leaf and root are 32 bytes and its 33-byte items, byte 0 for left and byte 1 for right, hash step by step from the one to the other |
| `Merkle.ProofComplete` | ledger_core/merkle.py:49-67 | every leaf's proof folds to the root and its direction bytes spell the leaf's position in binary, low bit first |
| `Merkle.EntryProofVerifies` | ledger_core/merkle.py:49-122 | for every entry of every buildable list the proof is accepted, has ceil(log2 n) items of 33 bytes and spells the position |
| `MerkleSoundness.ProofSoundness` | ledger_core/merkle.py:106-122 | an accepted proof no longer than the tree is for the node it spells, through duplicated nodes, on the level its length picks, or a collision is at hand |
| `MerkleSoundness.LongProof` | ledger_core/merkle.py:112-122 | an accepted proof longer than the tree passes through a real leaf, or a collision is at hand |
| `MerkleSoundness.InnerNodesHaveProofs` | ledger_core/merkle.py:108-122 | every node at level d has an accepted proof shorter by d, so the length condition above is needed |
| `MerkleSoundness.SameHeightBinding` | ledger_core/merkle.py:90-101 | among trees of one height with distinct leaves the root determines the leaves |
| `MerkleSoundness.DifferentHeightBinding` | ledger_core/merkle.py:90-101 | a lower tree with a higher tree's root has a whole inner level of it as leaves |
| `Poi.BuiltPoiCommits` | poi_generator/poi.py:23-57 | building over an intact ledger succeeds exactly for usable inputs and non-empty context, and names the first input that is not; the proof has the four digests of prompt, system prompt, payload and history root, and every other field as given |
| `Poi.SignedPoiVerifies` | poi_generator/poi.py:60-78 | a signed proof verifies under the signer's key, names that key by its digest, and is otherwise unchanged |
| `Poi.SigningHashBinds` | poi_generator/models.py:30-32 | the signed hash fixes every field but the signature, or gives a collision |
| `PipelineTheorems.TamperEvidence` | verification_portal/backend/verify_pipeline.py:170-313 | a valid trace for a proof committing to an origin has that prompt, system prompt and first k contents, and the payload of the message examined, an uploaded one before a captured one, is the origin's; the whole stored chain is intact; or a lone-entry root, or a collision |
| `TraceProvenance.ValidTraceIsAuthentic` | verification_portal/backend/verify_pipeline.py:137-335 | from a valid trace alone: the stored chain is intact; its proof is one the agent signed and what it examined is the origin that proof was built from, up to the lone-entry root or a collision, or the proof itself carries a signature for data never signed; and its prompt is in an envelope the user signed, or the envelope itself carries such a signature |
| `TraceVerdict.ValidExactly` | verification_portal/backend/verify_pipeline.py:137-335 | over any evidence, ledger, message, keys and anchors a trace is valid exactly when the proof examined commits to the prompts, to the payload of the message examined and to the live contents, the whole stored chain is intact, the agent's usable key bears out claims and signature, the user's usable key bears out the envelope's, and any token holds for the root |
| `TraceVerdict.TraceNamesProof` | verification_portal/backend/verify_pipeline.py:325-335 | a trace repeats agent type, agent id, action type and policy of its proof, and none of them without one |
| `TraceVerdict.TraceShowsTree` | verification_portal/backend/verify_pipeline.py:314-324 | a tree is drawn exactly when entries can be rebuilt, with its root, the signed root, whether they match, and the first entry as the proved one |
| `TraceProvenance.CapturedIsValidExactly` | verification_portal/backend/verify_pipeline.py:137-335 | evidence captured at issue, of a signed proof and a signed envelope, gives a valid trace at any later growth of the ledger exactly when the agent's key is active and bears out the claims, the user's key is active, and any token checks for the committed root |
| `TraceProvenance.ExecutedIsValidExactly` | verifier_service/main.py:592-649 | what the plan loop registers for a signed request gives a valid trace exactly when the policy allowed the plan, the registry backs the agent, the user's key is active, and any token checks |
| `PipelineTheorems.BuiltAndSignedCommits` | poi_generator/poi.py:44-66 | what `build_poi` and `sign_poi` make from an append-only ledger commits to exactly its inputs |
| `PipelineTheorems.CommitmentBinds` | poi_generator/poi.py:44-57 | two origins one proof commits to are equal, up to the lone-entry root or a collision |
| `PipelineTheorems.TraceShape` | verification_portal/backend/verify_pipeline.py:137-335 | exactly six links in fixed order, each passed exactly when its status says so, and validity is their conjunction |
| `PipelineTheorems.ExtractsExactly` | verification_portal/backend/verify_pipeline.py:137-168 | the proof examined is the uploaded message's, whatever is stored; else the stored one; else the stored message's, and none if that message does not parse |
| `PipelineTheorems.RaisesExactly` | verification_portal/backend/verify_pipeline.py:137-242 | a verification raises exactly when the saved record does not decode, or an uploaded proof with an action type and an active key is for an action nothing is known about |
| `PipelineTheorems.HashVerdict` | verification_portal/backend/verify_pipeline.py:178-214 | the hash link passes exactly when all four commitments hold: of both prompts, of the payload of the uploaded message, or failing that the captured one, or failing that the stored message's, and of the live contents of the first k entries |
| `PipelineTheorems.MismatchesNamed` | verification_portal/backend/verify_pipeline.py:178-214 | a failing hash link names exactly the commitments that do not hold |
| `PipelineTheorems.MerkleVerdict` | verification_portal/backend/verify_pipeline.py:279-292 | the Merkle link is available exactly when entries can be rebuilt, and passes exactly when their root is the signed one and the full stored chain is intact; the proof check never decides; a failing link tells the roots apart or names the first broken entry |
| `PipelineTheorems.AgentVerdict` | verification_portal/backend/verify_pipeline.py:217-262 | the agent link passes exactly for an active key, a verifying signature and matching agent, type, action and policy claims; without evidence only when no action type is claimed |
| `PipelineTheorems.IdentityNamed` | verification_portal/backend/verify_pipeline.py:223-252 | a link that fails on identity names exactly the claims that do not hold |
| `PipelineTheorems.UserVerdict` | verification_portal/backend/verify_pipeline.py:264-277 | the user link passes exactly when the envelope's key is usable and its signature verifies for the five signed fields |
| `PipelineTheorems.TimestampVerdict` | verification_portal/backend/verify_pipeline.py:296-311 | the timestamp link passes exactly when the stored token, or failing that the one of the latest anchored record for the signed root, holds for the rebuilt root; it is pending exactly when there is none |
| `PipelineTheorems.RevocationAndAgentLink` | verification_portal/backend/verify_pipeline.py:220-222 | revoking a key fails the agent link of proofs naming it and changes no other agent link |
| `PipelineTheorems.RevocationAndUserLink` | verification_portal/backend/verify_pipeline.py:264-277 | revoking a key fails the user link of envelopes naming it and changes no other user link |
| `PipelineTheorems.RebuildSucceedsExactly` | verification_portal/backend/verify_pipeline.py:202-209 | rebuilding fails exactly for an empty prefix or a repeated entry id |
| `PipelineTheorems.IssuedStaysVerifiable` | verification_portal/backend/verify_pipeline.py:202-292 | evidence captured at issue passes extraction, hash and Merkle links by action id after any further appends |
| `PipelineTheorems.RestartEquivalence` | verification_portal/backend/evidence_store.py:69-122 | reloaded evidence has the same facts, the ledger cut to its leaves with hashes intact, and the same hash and Merkle links when the live chain has no first break after the cut |
| `PipelineTheorems.RestartAndMerkleLink` | verification_portal/backend/verify_pipeline.py:279-292 | the Merkle link survives a restart exactly under the stated condition on the live chain's first break |
| `VerifyPipeline.RecomputedEntries` | verification_portal/backend/verify_pipeline.py:39-61 | the loop rebuilds every leaf from live content and rebuilt predecessors |
| `VerifyPipeline.VerificationPipeline.RunVerification` | verification_portal/backend/verify_pipeline.py:129-335 | the answer is the one the theorems above are about, for exactly what the store knows of the action: the loaded evidence over its ledger as it stands, else the decoded saved record, else nothing; a record that does not decode raises; a saved record is loaded over a fresh ledger, and nothing loaded is replaced |
| `VerifyPipeline.VerificationPipeline.CheckMerkle` | verification_portal/backend/verify_pipeline.py:279-294 | builds and checks the first entry's proof and walks the stored chain, giving the Merkle link |
| `TreeView.BuildTreeView` | verification_portal/backend/verify_pipeline.py:68-113 | the loop over levels yields the displayed tree that the next rows are about |
| `TreeView.DisplayIsFaithful` | verification_portal/backend/verify_pipeline.py:80-104 | below the root each drawn level is even, each real node above is the parent of the two drawn under it, and exactly the padding is flagged |
| `TreeView.LeavesInLedgerOrder` | verification_portal/backend/verify_pipeline.py:78-97 | drawn leaves carry entry ids and hashes in ledger order |
| `TreeView.RootIsDrawnAlone` | verification_portal/backend/verify_pipeline.py:80-104 | the top drawn level is the root alone, not flagged as padding |
| `TreeView.LevelsAreLabelled` | verification_portal/backend/verify_pipeline.py:97-102 | levels are numbered from the leaves, the first labelled leaves even when it is the only one, the last of several root |
| `EvidenceStoreCore.RoundTrip` | verification_portal/backend/evidence_store.py:69-122 | loading what was stored returns the facts and the first k entries with their hashes |
| `EvidenceStoreCore.ActionEvidenceStore.Register` | verification_portal/backend/evidence_store.py:49-52 | later lookups see the evidence, and its serialised form is saved when there is persistence |
| `EvidenceStoreCore.ActionEvidenceStore.Get` | verification_portal/backend/evidence_store.py:54-63 | loaded evidence wins and nothing changes; else the saved record is decoded over a fresh ledger and kept; else nothing; it raises exactly for a saved record that does not decode |
| `Callback.PoICallbackHandler.OnToolStart` | poi_generator/callback_handler.py:84-126 | succeeds exactly with a verified session, nothing required empty, and context; then the proof commits to the session's prompts, the call's payload and the ledger before the call, carries the key's signature, and the call is appended to that ledger and no other; otherwise nothing happens; every issued proof keeps committing to its prefix |
| `Callback.CommitmentSurvivesGrowth` | poi_generator/callback_handler.py:104-125 | a proof's prefix commitment survives any growth of the ledger |
| `Service.AgentService.ExecutePlans` | verifier_service/main.py:553-684 | the loop's ledger, records and error are those of the specified run; the database is exactly what it was with the serialised form of every executed plan put in, memory what it was with the executed plans registered and otherwise only records loaded as they were saved; the service stays valid |
| `RunMeaning.RunExactly` | verifier_service/main.py:553-684 | every run, plan by plan: an executed plan was confirmed if it had to be, is the given one with at most two gaps of its payload filled from the result before, left three ledger entries, and its proof and evidence name and commit to just that; the run ends because plans are used up, an action failed, or the next plan is unconfirmed, of unknown type, unprovable or raises |
| `RunMeaning.ConfirmationIsAsked` | verifier_service/main.py:558-566 | no run executes a plan that lacks a required confirmation; a run asks for one exactly when it comes to such a plan, with three entries per earlier plan recorded and nothing else |
| `Router.RunCommits` | verifier_service/main.py:558-684 | over a request the ledger only grows and stays intact, each executed plan's evidence commits to its prompt, payload as executed and ledger, and only the last can have failed |
| `Router.RunStaysVerifiable` | verifier_service/main.py:592-649 | evidence of any run passes extraction, hash and Merkle links after any later growth |
| `Service.AgentService.RegisteredVerifies` | verifier_service/main.py:637-649 | in every valid state every action in memory or in the database, this process's or an earlier one's, can be loaded and, if its stored message parses, passes extraction, hash and Merkle links over its own ledger |
| `Service.AgentService.ExecutedIsFoundLater` | verifier_service/main.py:637-649 | a plan executed for an earlier request, in this process or one before it, is found as long as its saved record stands: looking it up gives the facts registered, or those of a later plan of that name in the request, and they pass extraction, hash and Merkle links if the stored message parses |
| `Service.AgentService.Verification` | verifier_service/main.py:147-155 | a verification on the service's store answers from what the store knew, loads at most that record, and keeps the service valid |
| `Service.AgentService.Keep` | verifier_service/main.py:637-649 | registering over the shared ledger puts the evidence into memory and its serialised form into the database, changes nothing else, and keeps both committed |
| `Service.AgentService.constructor` | verifier_service/main.py:116-155 | a process over any database of restorable records, such as every valid state leaves, starts valid |
| `Service.SavedIsRestorable` | verification_portal/backend/evidence_store.py:69-122 | what is saved of committed evidence decodes to facts that commit to the intact entries saved with them |
| `Nonces.AnswersAsLog` | verifier_service/nonce_store.py:19-35 | for every interleaving under a nondecreasing clock the swept table answers as an unbounded log cut to the last ttl seconds |
| `Nonces.RetainsExactlyTheWindow` | verifier_service/nonce_store.py:19-25 | after a sweep exactly the nonces marked within the window remain |
| `Nonces.NonceStore.HasSeen` | verifier_service/nonce_store.py:27-30 | sweeps, then answers for the retention window |
| `Nonces.NonceStore.MarkSeen` | verifier_service/nonce_store.py:32-35 | sweeps at one reading and marks at the next |
| `SignatureVerification.SignatureVerifier.VerifyEnvelope` | verifier_service/verifier.py:81-112 | verdict and nonce table are those of the specified step; accepted exactly when timely, nonce unused, key usable and signature good |
| `SignatureVerification.VerifiesExactly` | verifier_service/verifier.py:74-112 | for every table and call: accepted exactly when the timestamp is within the window, the nonce has no remembered mark, the key is there and usable, and algorithm and signature of the five fields are good; refused with the reason of the first that fails; and what the table then holds |
| `SignatureVerification.NonceConsumedOnce` | verifier_service/verifier.py:81-89 | in any run with an ordered monotonic clock and 2*freshness + drift within ttl, one nonce and timestamp passes the replay check at most once, accepted or not, even if the wall clock steps back |
| `SignatureVerification.NoReplay` | verifier_service/verifier.py:74-112 | no five-field payload is accepted twice, whatever unsigned fields accompany it |
| `SignatureVerification.ReplayFreeExactly` | verifier_service/verifier.py:54-89 | that safety holds of all runs if and only if 2*freshness + drift <= ttl |
| `KeyRegistryCore.KeyRegistry.RegisterKey` | key_registry/registry.py:47-77 | a valid record for an unused id is stored, otherwise an error and no change |
| `KeyRegistryCore.RegistersExactly` | key_registry/registry.py:30-77 | succeeds exactly for a recognised key under one of its algorithm's two names, with nothing empty, an ordered window and an unused id; stores what was given, the type inferred where none is; else the reason is the first check that fails |
| `KeyRegistryCore.ShimRegistersExactly` | key_registry/registry.py:85-98 | stores a recognised non-empty key under an unused non-empty id, unassigned; changes nothing for an active repeat; refuses all else, and why |
| `KeyRegistryCore.KeyRegistry.RegisterPubkey` | key_registry/registry.py:85-98 | repeats of an active key succeed silently, other reuse of an id fails |
| `KeyRegistryCore.KeyRegistry.GetPubkey` | key_registry/registry.py:100-105 | unknown, revoked, early and expired keys all look the same: nothing |
| `KeyRegistryCore.KeyRegistry.ListActiveKeys` | key_registry/registry.py:116-119 | exactly the agent's active records |
| `KeyRegistryCore.SQLiteKeyStorage.InsertKey` | key_registry/storage.py:64-88 | inserts exactly when the id is unused |
| `KeyLifetime.Persists` | key_registry/storage.py:64-119 | a record never leaves the table and only its revocation flag changes, one way |
| `KeyLifetime.LookupReturnsTheRegisteredKey` | key_registry/registry.py:100-105 | a lookup only returns the bytes of the id's single earlier registration |
| `KeyLifetime.LookupsSucceedInOnePeriod` | key_registry/registry.py:39-45 | under ordered clock readings no lookup fails between two that succeed |
| `KeyLifetime.RevocationIsFinal` | key_registry/registry.py:112-114 | no lookup succeeds after a revocation that found the key |
| `KeyLifetime.LookupSucceedsExactly` | key_registry/registry.py:39-114 | a lookup returns a key exactly when the first acceptable registration of the id, judged from the operation alone, came before with that key, was not revoked since, and the reading is in its window |
| `Anchoring.AnchorCurrentRoot` | tsa_anchor/anchor_scheduler.py:38-54 | result, store and requests sent are those of the specified step |
| `Anchoring.AnchorsExactly` | tsa_anchor/anchor_scheduler.py:38-54 | without a tree the failure is recorded; for a root already anchored the latest record is returned and nobody asked; otherwise the root is sent and the record holds the reply's token and time, or its error |
| `Anchoring.RunInvariant` | tsa_anchor/anchor_scheduler.py:14-54 | in every run each root has at most one anchored record |
| `Anchoring.ReanchoringIsFree` | tsa_anchor/anchor_scheduler.py:47-49 | anchoring an unchanged ledger again returns the same record, grows nothing and asks nobody |
| `Anchoring.AnchorsTellLengthsApart` | tsa_anchor/anchor_scheduler.py:38-54 | one anchored record never serves two lengths of a run's ledger, or a lone entry or collision is at hand |
| `UnifiedDiff.ApplyUnifiedDiff` | aor/agents/file.py:282-319 | the nested loops compute the specified application, with negative positions, stale headers and all error cases |
| `UnifiedDiff.SplitJoin` | aor/agents/file.py:284-285 | splitting joined newline-terminated lines gives them back |
| `DiffReading.SplitsExactly` | aor/agents/file.py:284-285 | a text splits into lines exactly at Python's line boundaries, a carriage return and line feed being one, each kept with its line |
| `DiffTheorems.HeaderParses` | aor/agents/file.py:294-297 | a rendered hunk header, with either count, both or none and any heading after it, is read back as its old start |
| `DiffReading.HeaderExactly` | aor/agents/file.py:294-297 | a line is read as a hunk header with a given old start exactly when it has the pattern's form and that start, any text following |
| `DiffTheorems.AppliesExactly` | aor/agents/file.py:282-319 | any list of lines is accepted exactly when it has a hunk, every header and every line after it is well-formed, and each hunk by itself finds its old lines, position -1 meaning the last line; the output is assembled hunk by hunk by Python's slicing; counts, new starts, headings, order and lines beginning with a backslash are not looked at |
| `DiffReading.SectionsExactly` | aor/agents/file.py:286-301 | a patch is cut into the lines before its first hunk and its hunks, each from one line starting with two at-signs and a space to the next |
| `DiffReading.RefusesExactly` | aor/agents/file.py:286-317 | a patch is refused with an error exactly when it has no hunk, or its first hunk that does not pass has no header, or has as its first line that does not pass a malformed one or a kept or deleted one that is not in the file |
| `DiffTheorems.OutOfOrderIsAccepted` | aor/agents/file.py:290-319 | context hunks at line 2 and then line 1 of a two-line file are accepted and both lines come out twice |
| `DiffTheorems.RefinesBlockReplacement` | aor/agents/file.py:290-319 | for ordered hunks with old lines the patch is accepted exactly when every old block is in place, and the result replaces each block and keeps everything else |
| `DiffInverse.PatchThenInverse` | aor/agents/file.py:282-319 | a patch and then the swapped patch return the original text, whatever the counts, headings and skipped lines say |
| `DiffMarkers.MarkersAreHonouredExactly` | aor/agents/file.py:302-317 | skipping "no newline" markers does what they mean exactly when none follows a line with a newline, or neither the patch as read nor as meant finds its old lines |
| `DiffMarkers.MarkedBlocksExactly` | aor/agents/file.py:302-317 | for ordered hunks with old lines, the same against replacing the blocks that the markers mean |
| `DiffPosix.EmptyOldRange` | aor/agents/file.py:297-299 | lines inserted after line s come out before it, at the top before the last line, after a line that does not exist at the end |
| `DiffPosix.InsertionsArePosixExactly` | aor/agents/file.py:297-319 | a patch in order, insertions among replacements and markers included, does what POSIX means exactly when both reject it, or no marker follows a line with a newline and every insertion is after an existing line that the hunk before left alone and adds only copies of that line |
| `DiffPosix.TopInsertionIsPosixExactly` | aor/agents/file.py:297-319 | a patch in order that begins with an insertion at the top does so exactly when both reject it, or no marker follows a line with a newline and the rest meets the condition above and either the file is empty or nothing is changed before the last line and the added lines can change places with all lines but the last |
| `FileAgentCore.FileAgent.Execute` | aor/agents/file.py:96-114 | disk and outcome are those of the specified action behind its proof checks |
| `FileMeaning.ExecutesExactly` | aor/agents/file.py:96-189 | a plan is carried out exactly when it is this agent's, supported, allowed, hashed and typed as its proof says, and possible on the disk; then the disk is exactly as the action says: the content created, the patched text, the file gone or moved, the change recorded; otherwise nothing changes and the reason is the first check that fails |
| `FileAgentCore.FailureChangesNothing` | aor/agents/file.py:96-189 | a failed action leaves files and directories as they were |
| `FileAgentCore.SuccessIsReported` | aor/agents/file.py:116-189 | reported hashes are the digests just before and after, the old name of a rename is gone, and no other non-backup file changes |
| `FileAgentCore.EffectsLinkUp` | aor/agents/file.py:116-189 | along any run consecutive effects on a file have matching after- and before-hashes |
| `FileAgentCore.UpdateIsUndone` | aor/agents/file.py:141-151 | an update followed by the update with the inverse patch restores the file and its digest |
| `Crypto.FromHexExactly` | verification_portal/backend/verify_pipeline.py:303-307 | hexadecimal text is read exactly when it spells bytes in pairs of digits of either case with only white space before, between and after them |
| `Crypto.HexDigits` | poi_generator/poi.py:48-51 | every byte is written as two lower-case hexadecimal digits, the high one first |
| `Crypto.HexRoundTrip` | verification_portal/backend/evidence_store.py:83-105 | hexadecimal hash columns decode to the bytes they encode |

## Left out

- SHA3-256, Ed25519, ECDSA, AES-GCM, base64 and the canonicaliser themselves: libraries, abstract here. Values that RFC 8785 cannot represent are not modelled.
- RFC 3161 requests and token checking, MIME and header decoding, SMTP: inputs or uninterpreted functions.
- FastAPI routing, authentication, sessions, the operation log and the rest of the service outside the plan loop and verification requests, including key registration inside that loop.
- Request planning and routing by regular expressions: string matching with easy first-match claims.
- Path resolution, symlinks, encodings, carriage returns, operating-system errors other than a file standing where a directory is needed, and the text of change records: paths are opaque keys and texts are free of carriage returns.
- Python aliasing of ledger entries: entries are values, and tampering is covered by quantifying over arbitrary stored entries instead.
- Unicode digits in hunk headers (the pattern's `\d` admits them; ASCII digits are modelled) and the limit on integer text length.
- The persisted JSON text: its record of hexadecimal and base64 strings is modelled, and decoding of a damaged record only as failure.
- The order of `list_active_keys` and `get_keys_by_agent`, JWKS export, the legacy key store, the periodic scheduler, the front end, the command line and demos: easy or glue.
- Locks and threads: each modelled operation is atomic, as the code's locks and its await-free loop make it.
- Human-readable link details beyond what distinguishes their branches.
- Callback.PoICallbackHandler.RegisterVerifiedSession: asks for an intact ledger, because its class invariant speaks of ledgers only `append` has changed; the code accepts any.
- DiffPosix.InsertionsArePosixExactly: is for hunks in order, so not for two insertions after one and the same line, which `diff` never writes; what the applier does with them is in `DiffTheorems.AppliesExactly`.
- PipelineTheorems.RestartEquivalence: is for captured counts that are not negative; the code always captures a length.
