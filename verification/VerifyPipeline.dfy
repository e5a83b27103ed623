/** The six-link forensic verifier (verification_portal/backend/verify_pipeline.py). */
module VerifyPipeline {
  import opened Prelude
  import opened Crypto
  import opened LedgerCore
  import opened Merkle
  import opened Envelope
  import opened EvidenceStoreCore
  import opened TreeView
  import opened Trace
  import opened TraceMeaning
  import Poi
  import Keys = KeyRegistryCore
  import Anchoring

  /** Rebuilds every leaf from live content, threading the rebuilt hash and not the stored one. */
  method RecomputedEntries(cs: Suite, entries: seq<LedgerEntry>) returns (recomputed: seq<LedgerEntry>)
    ensures recomputed == Recomputed(cs, entries)
  {
    var previous: Bytes := [];
    recomputed := [];
    for i := 0 to |entries|
      invariant previous == PrevOf(cs, Contents(entries), i)
      invariant recomputed == Recomputed(cs, entries)[..i]
    {
      var leafHash := LeafHash(cs, entries[i].content, previous);
      recomputed := recomputed + [entries[i].(prevHash := previous, leafHash := leafHash)];
      previous := leafHash;
    }
  }

  class VerificationPipeline {
    const cs: Suite
    const outside: Outside
    const registry: Keys.KeyRegistry
    const store: ActionEvidenceStore
    const anchors: Anchoring.AnchorStore?

    constructor (cs: Suite, outside: Outside, registry: Keys.KeyRegistry, store: ActionEvidenceStore,
                 anchors: Anchoring.AnchorStore?)
      ensures this.cs == cs && this.outside == outside && this.registry == registry && this.store == store
      ensures this.anchors == anchors
    {
      this.cs, this.outside, this.registry, this.store, this.anchors := cs, outside, registry, store, anchors;
    }

    /** The registry and anchor store as they stand. */
    function Now(agentAt: real, recordAt: real, userAt: real): Snapshot
      reads registry, registry.storage, anchors
    {
      Snapshot(registry.storage.keys, agentAt, recordAt, userAt,
               if anchors == null then None else Some(anchors.records))
    }

    method Extract(eml: Option<Bytes>, f: Option<EvidenceFacts>)
      returns (links: seq<LinkResult>, poi: Option<Poi.ProofOfIntent>)
      ensures links == [ExtractPoi(outside, eml, f).0] && poi == ExtractPoi(outside, eml, f).1
    {
      links, poi := [], None;
      var parsed: Option<ParsedEml> := None;
      if eml.Some? {
        parsed := outside.parseEml(eml.value);
        if parsed.None? { links := links + [Link(PoiExtraction, false, Note("invalid .eml"))]; }
      }
      if eml.None? && f.Some? && f.value.emlBytes.Some? {
        parsed := outside.parseEml(f.value.emlBytes.value);
        if parsed.None? { links := links + [Link(PoiExtraction, false, Note("invalid .eml"))]; }
      }
      if links == [] && eml.None? && f.Some? && f.value.poi.Some? {
        poi := f.value.poi;
        links := links + [Link(PoiExtraction, true, Note("signed PoI loaded from structured action evidence"))];
      } else if links == [] {
        var header := if parsed.Some? then parsed.value.poiHeader else None;
        if header == None || header == Some("") {
          links := links + [Link(PoiExtraction, false, Note("X-AoR-Proof-of-Intent header is missing"))];
        } else {
          poi := outside.decodePoi(header.value);
          links := links + [if poi.Some? then Link(PoiExtraction, true, Note("signed PoI decoded from email header"))
                            else Link(PoiExtraction, false, Note("malformed PoI header"))];
        }
      }
    }

    method FindMismatches(eml: Option<Bytes>, f: EvidenceFacts, live: seq<LedgerEntry>, poi: Poi.ProofOfIntent,
                          rebuilt: Result<MerkleTree, MerkleError>)
      returns (mismatches: seq<Mismatch>)
      requires rebuilt == RebuiltTree(cs, f, live)
      ensures mismatches == Mismatches(cs, outside, eml, f, live, poi)
    {
      mismatches := [];
      if Hex(HashPayload(cs, Poi.PromptPayload(f.userEnvelope.prompt))) != poi.userPromptHash {
        mismatches := mismatches + [UserPromptHash];
      }
      assert mismatches == PromptMismatch(cs, f, poi);
      if Hex(HashPayload(cs, Poi.SystemPayload(f.systemPrompt))) != poi.systemPromptHash {
        mismatches := mismatches + [SystemPromptHash];
      }
      assert mismatches == PromptMismatch(cs, f, poi) + SystemMismatch(cs, f, poi);
      var payload := CheckPayload(eml, f, poi);
      var root := CheckRoot(f, live, poi, rebuilt);
      mismatches := mismatches + payload + root;
    }

    /** The uploaded message's payload; or the captured one; or the stored message's. */
    method CheckPayload(eml: Option<Bytes>, f: EvidenceFacts, poi: Poi.ProofOfIntent)
      returns (mismatches: seq<Mismatch>)
      ensures mismatches == PayloadMismatch(cs, CheckedPayload(outside, eml, f), poi)
    {
      var payload: Option<Dict>;
      if eml.Some? {
        var uploaded := outside.parseEml(eml.value);
        payload := if uploaded.Some? then Some(uploaded.value.actionPayload) else None;
      } else if f.actionPayload.Some? {
        payload := f.actionPayload;
      } else if f.emlBytes.None? {
        return [NoStoredEml];
      } else {
        var stored := outside.parseEml(f.emlBytes.value);
        payload := if stored.Some? then Some(stored.value.actionPayload) else None;
      }
      var matching := payload.Some? && Hex(HashPayload(cs, JObj(payload.value))) == poi.actionPayloadHash;
      return if matching then [] else [ActionPayloadHash];
    }

    method CheckRoot(f: EvidenceFacts, live: seq<LedgerEntry>, poi: Poi.ProofOfIntent,
                     rebuilt: Result<MerkleTree, MerkleError>)
      returns (mismatches: seq<Mismatch>)
      requires rebuilt == RebuiltTree(cs, f, live)
      ensures mismatches == RootMismatch(cs, f, live, poi)
    {
      if rebuilt.Failure? { return [ContextRootError(rebuilt.error)]; }
      TreeOfWellFormed(cs, RebuiltEntries(cs, f, live));
      return if Hex(rebuilt.value.RootHash()) != poi.contextRoot then [ContextRoot] else [];
    }

    method CheckRecord(record: Option<Keys.AgentKeyRecord>, poi: Poi.ProofOfIntent) returns (errors: seq<IdentityError>)
      ensures errors == RecordErrors(record, poi)
    {
      errors := [];
      if record.Some? && poi.agentId.Some? && record.value.agentId != poi.agentId.value {
        errors := errors + [AgentIdMismatch];
      }
      if record.Some? && poi.agentType.Some? && record.value.agentType != poi.agentType {
        errors := errors + [AgentTypeMismatch];
      }
    }

    method CheckAction(eml: Option<Bytes>, f: Option<EvidenceFacts>, poi: Poi.ProofOfIntent)
      returns (r: Result<seq<IdentityError>, Raised>)
      ensures r == if poi.actionType.Some? && f.None? then Failure(AttributeError)
                   else Success(ActionErrors(eml, f, poi))
    {
      var errors: seq<IdentityError> := [];
      if poi.actionType.Some? {
        if f.None? { return Failure(AttributeError); }
        if f.value.actionType.Some? && poi.actionType != f.value.actionType {
          errors := errors + [ActionTypeMismatch];
        } else if f.value.actionType.None? && (eml.Some? || f.value.emlBytes.Some?) && poi.actionType != Some("email") {
          errors := errors + [EmailMismatch];
        }
      }
      if poi.policyDecision.Some? && poi.policyDecision != Some("allow") { errors := errors + [PolicyRejected]; }
      assert errors == ActionErrors(eml, f, poi);
      return Success(errors);
    }

    method CheckIdentity(record: Option<Keys.AgentKeyRecord>, eml: Option<Bytes>, f: Option<EvidenceFacts>,
                         poi: Poi.ProofOfIntent) returns (r: Result<seq<IdentityError>, Raised>)
      ensures r == if poi.actionType.Some? && f.None? then Failure(AttributeError)
                   else Success(RecordErrors(record, poi) + ActionErrors(eml, f, poi))
    {
      var recordErrors := CheckRecord(record, poi);
      var actionErrors := CheckAction(eml, f, poi);
      if actionErrors.Failure? { return Failure(actionErrors.error); }
      return Success(recordErrors + actionErrors.value);
    }

    method CheckAgent(eml: Option<Bytes>, f: Option<EvidenceFacts>, poi: Option<Poi.ProofOfIntent>, agentAt: real,
                      recordAt: real, ghost userAt: real)
      returns (r: Result<LinkResult, Raised>)
      ensures var s := Now(agentAt, recordAt, userAt);
              r == if poi.Some? && AgentLinkRaises(s, f, poi.value) then Failure(AttributeError)
                   else Success(AgentLink(cs, s, eml, f, poi))
    {
      if poi.None? { return Success(UnavailableLink(AgentSignature, "unable to check: PoI unavailable")); }
      var p := poi.value;
      var agentBytes := registry.GetPubkey(KeyIdOf(p), agentAt);
      if agentBytes.None? {
        return Success(Link(AgentSignature, false, Note("agent public key is unknown, expired, or currently revoked")));
      }
      var record := registry.GetKeyRecord(KeyIdOf(p), recordAt);
      var identity := CheckIdentity(record, eml, f, p);
      if identity.Failure? { return Failure(AttributeError); }
      var signatureValid := Poi.VerifyPoiSignature(cs, p, agentBytes.value);
      return Success(Link(AgentSignature, signatureValid && identity.value == [],
                          if identity.value != [] then Identity(identity.value)
                          else if !signatureValid then Note("agent signature did not verify")
                          else Note("agent signature and identity binding verified")));
    }

    method CheckUser(f: Option<EvidenceFacts>, poi: Option<Poi.ProofOfIntent>, ghost agentAt: real,
                     ghost recordAt: real, userAt: real)
      returns (link: LinkResult)
      ensures link == UserLink(cs, Now(agentAt, recordAt, userAt), f, poi)
    {
      if poi.None? || f.None? {
        return UnavailableLink(UserSignature, "unable to check: original signed envelope unavailable");
      }
      var envelope := f.value.userEnvelope;
      var key := registry.GetPubkey(envelope.pubkeyId, userAt);
      if key.None? { return Link(UserSignature, false, Note("user public key is unknown, expired, or revoked")); }
      var signature := cs.unbase64(envelope.signature);
      var valid := signature.Some? && cs.verify(key.value, signature.value, HashPayload(cs, SigningPayload(envelope)));
      return Link(UserSignature, valid, Note(if valid then "original user prompt signature verified"
                                             else "original user prompt signature did not verify"));
    }

    method CheckHashes(eml: Option<Bytes>, evidence: Option<ActionEvidence>, poi: Option<Poi.ProofOfIntent>)
      returns (link: LinkResult, entries: seq<LedgerEntry>, rebuilt: Result<MerkleTree, MerkleError>)
      ensures link == HashLink(cs, outside, eml, FactsOf(evidence), LiveOf(evidence), poi)
      ensures poi.Some? && evidence.Some? ==>
                && entries == RebuiltEntries(cs, evidence.value.facts, LiveOf(evidence))
                && rebuilt == RebuiltTree(cs, evidence.value.facts, LiveOf(evidence))
    {
      if poi.None? || evidence.None? {
        return UnavailableLink(HashRecomputation, "unable to recompute hashes"), [], Failure(NoEntries);
      }
      var f, live := evidence.value.facts, evidence.value.ledger.entries;
      entries := RecomputedEntries(cs, Take(live, f.ledgerEntryCountAtAction));
      rebuilt := BuildMerkleTree(cs, entries);
      var mismatches := FindMismatches(eml, f, live, poi.value, rebuilt);
      link := if mismatches != [] then Link(HashRecomputation, false, Mismatched(mismatches))
              else Link(HashRecomputation, true, Note("user, system, context, and action hashes all match PoI"));
    }

    /** Builds a proof for the first rebuilt entry, checks it, and walks the stored chain of the whole ledger. */
    method CheckMerkle(f: EvidenceFacts, ledger: Ledger, poi: Poi.ProofOfIntent, entries: seq<LedgerEntry>,
                       tree: MerkleTree)
      returns (link: LinkResult, proofValid: bool)
      requires ledger.cs == cs
      requires entries == RebuiltEntries(cs, f, ledger.entries) && RebuiltTree(cs, f, ledger.entries) == Success(tree)
      ensures link == MerkleLink(cs, Some(f), ledger.entries, Some(poi))
      ensures proofValid == FirstProofValid(cs, f, ledger.entries)
    {
      TreeOfWellFormed(cs, entries);
      var proof := tree.GetProof(entries[0].entryId);
      proofValid := VerifyMerkleProof(cs, entries[0].leafHash, proof.value, tree.RootHash());
      assert proofValid == FirstProofValid(cs, f, ledger.entries);
      var chainBreak := ledger.FirstInvalidEntryId();
      link := JudgeMerkle(f, ledger.entries, poi, Hex(tree.RootHash()), proofValid, chainBreak);
    }

    method JudgeMerkle(f: EvidenceFacts, ghost live: seq<LedgerEntry>, poi: Poi.ProofOfIntent, root: string,
                       proofValid: bool, chainBreak: Option<int>)
      returns (link: LinkResult)
      requires RebuiltTree(cs, f, live).Success? && root == Hex(RebuiltRoot(cs, f, live).value)
      requires proofValid == FirstProofValid(cs, f, live) && chainBreak == BrokenId(live, FirstBreak(cs, live))
      ensures link == MerkleLink(cs, Some(f), live, Some(poi))
    {
      var valid := proofValid && chainBreak == None && root == poi.contextRoot;
      link := Link(MerkleRootMatch, valid,
                   if valid then Note("recomputed root matches signed PoI and ledger chain")
                   else if root != poi.contextRoot then RootDiffers(root, poi.contextRoot)
                   else ChainInvalid(chainBreak));
    }

    /** The stored token, or the one anchored for the signed root. */
    method FindToken(f: EvidenceFacts, poi: Poi.ProofOfIntent, ghost agentAt: real, ghost recordAt: real,
                     ghost userAt: real) returns (token: Option<Bytes>)
      ensures token == TokenFor(Now(agentAt, recordAt, userAt), f, poi)
    {
      token := f.timestampToken;
      if token.None? && anchors != null {
        var signedRoot := FromHex(poi.contextRoot);
        if signedRoot.Some? {
          var anchored := anchors.LatestAnchoredRecord(signedRoot.value);
          token := if anchored.Some? then anchored.value.token else None;
        }
      }
    }

    method CheckTimestamp(f: EvidenceFacts, ghost live: seq<LedgerEntry>, poi: Poi.ProofOfIntent, root: Digest,
                          ghost agentAt: real, ghost recordAt: real, ghost userAt: real) returns (link: LinkResult)
      requires RebuiltRoot(cs, f, live) == Some(root)
      ensures link == TimestampLink(cs, outside, Now(agentAt, recordAt, userAt), Some(f), live, Some(poi))
    {
      var token := FindToken(f, poi, agentAt, recordAt, userAt);
      if token.None? {
        return LinkResult(TimestampAnchor, true, Pending, Note("pending: no RFC 3161 timestamp token recorded"));
      }
      return Link(TimestampAnchor, outside.verifyToken(token.value, root), Note("RFC 3161 token checked"));
    }

    /** Steps 5 and 6, and the tree to draw. */
    method CheckLedger(evidence: Option<ActionEvidence>, poi: Option<Poi.ProofOfIntent>, entries: seq<LedgerEntry>,
                       rebuilt: Result<MerkleTree, MerkleError>,
                       ghost agentAt: real, ghost recordAt: real, ghost userAt: real)
      returns (merkle: LinkResult, stamp: LinkResult, view: Option<MerkleTreeView>)
      requires poi.Some? && evidence.Some? ==>
                 && evidence.value.ledger.cs == cs
                 && entries == RebuiltEntries(cs, evidence.value.facts, LiveOf(evidence))
                 && rebuilt == RebuiltTree(cs, evidence.value.facts, LiveOf(evidence))
      ensures merkle == MerkleLink(cs, FactsOf(evidence), LiveOf(evidence), poi)
      ensures stamp == TimestampLink(cs, outside, Now(agentAt, recordAt, userAt), FactsOf(evidence), LiveOf(evidence),
                                     poi)
      ensures view == TreeFor(cs, FactsOf(evidence), LiveOf(evidence), poi)
    {
      if poi.None? || evidence.None? || rebuilt.Failure? {
        return UnavailableLink(MerkleRootMatch, "unable to check: ledger evidence unavailable"),
               UnavailableLink(TimestampAnchor, "unable to check: ledger root unavailable"), None;
      }
      var f, ledger, tree := evidence.value.facts, evidence.value.ledger, rebuilt.value;
      TreeOfWellFormed(cs, entries);
      var proofValid;
      merkle, proofValid := CheckMerkle(f, ledger, poi.value, entries, tree);
      stamp := CheckTimestamp(f, ledger.entries, poi.value, tree.RootHash(), agentAt, recordAt, userAt);
      var drawn := BuildTreeView(tree, entries, Some(poi.value.contextRoot), Some(entries[0].entryId),
                                 Some(proofValid));
      view := Some(drawn);
    }

    /** The evidence the request refers to, loading it if it is only saved. */
    method FindEvidence(eml: Option<Bytes>, actionId: Option<string>)
      returns (r: Result<Option<ActionEvidence>, Raised>, id: Option<string>)
      modifies store
      ensures id == EffectiveId(outside, eml, actionId) && store.Answers(id)
      ensures match old(store.Request(id))
              case Damaged(damaged) => r == Failure(StoreRaised(CorruptEvidence(damaged)))
              case Nothing => r == Success(None)
              case Evidence(_, _) => id.value in store.evidence && r == Success(Some(store.evidence[id.value]))
    {
      id := actionId;
      if id.Some? && id.value != "" {
        var first := store.Get(id.value);
        if first.Failure? { return Failure(StoreRaised(first.error)), id; }
      }
      if eml.Some? {
        var parsed := outside.parseEml(eml.value);
        if parsed.Some? && (id == None || id == Some("")) { id := parsed.value.actionId; }
      }
      if id.Some? && id.value != "" {
        var second := store.Get(id.value);
        if second.Failure? { return Failure(StoreRaised(second.error)), id; }
        return Success(second.value), id;
      }
      return Success(None), id;
    }

    /** The answer to a request is the one for what the store knows about its action, over that action's ledger as it
        stands; afterwards the store knows the same, and holds the record if it was only saved. */
    method RunVerification(eml: Option<Bytes>, actionId: Option<string>, agentAt: real, recordAt: real, userAt: real)
      returns (r: Result<VerificationTrace, Raised>)
      requires store.cs == cs && forall i :: i in store.evidence ==> store.evidence[i].ledger.cs == cs
      modifies store
      ensures var id := EffectiveId(outside, eml, actionId);
              && AsksFor(outside, eml, actionId, id)
              && r == Answer(cs, outside, Now(agentAt, recordAt, userAt), eml, id, old(store.Request(id)))
              && store.Answers(id) && store.Request(id) == old(store.Request(id))
    {
      var lookedUp, id := FindEvidence(eml, actionId);
      if lookedUp.Failure? { return Failure(lookedUp.error); }
      r := BuildTrace(eml, id, lookedUp.value, agentAt, recordAt, userAt);
    }

    method BuildTrace(eml: Option<Bytes>, id: Option<string>, evidence: Option<ActionEvidence>, agentAt: real,
                      recordAt: real, userAt: real)
      returns (r: Result<VerificationTrace, Raised>)
      requires evidence.Some? ==> evidence.value.ledger.cs == cs
      ensures r == Verify(cs, outside, Now(agentAt, recordAt, userAt), eml, id, FactsOf(evidence), LiveOf(evidence))
    {
      var f := FactsOf(evidence);
      var links, poi := Extract(eml, f);
      var hashes, entries, rebuilt := CheckHashes(eml, evidence, poi);
      links := links + [hashes];
      var agent := CheckAgent(eml, f, poi, agentAt, recordAt, userAt);
      if agent.Failure? { return Failure(agent.error); }
      links := links + [agent.value];
      var user := CheckUser(f, poi, agentAt, recordAt, userAt);
      links := links + [user];
      var merkle, stamp, view := CheckLedger(evidence, poi, entries, rebuilt, agentAt, recordAt, userAt);
      links := links + [merkle, stamp];
      assert links == [ExtractPoi(outside, eml, f).0, hashes, agent.value, user, merkle, stamp];
      return Success(Assemble(id, poi, links, view));
    }
  }

  function FactsOf(e: Option<ActionEvidence>): Option<EvidenceFacts> {
    if e.Some? then Some(e.value.facts) else None
  }

  function LiveOf(e: Option<ActionEvidence>): seq<LedgerEntry>
    reads if e.Some? then {e.value.ledger} else {}
  {
    if e.Some? then e.value.ledger.entries else []
  }
}
