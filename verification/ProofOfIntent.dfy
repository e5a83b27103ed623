/** Building, signing and checking Proofs of Intent (poi_generator/poi.py, models.py). */
module Poi {
  import opened Prelude
  import opened Crypto
  import opened LedgerCore
  import opened Merkle

  datatype ProofOfIntent = ProofOfIntent(
    userPromptHash: string,
    systemPromptHash: string,
    contextRoot: string,
    actionPayloadHash: string,
    modelId: string,
    timestamp: string,
    nonce: string,
    agentType: Option<string>,
    agentId: Option<string>,
    actionType: Option<string>,
    policyDecision: Option<string>,
    agentSignature: Option<string>,
    agentPubkeyId: Option<string>
  )

  datatype PoiError = FieldsRequired | PayloadNotADictionary | NoContext(why: MerkleError) | InvalidField

  function OptionalStr(s: Option<string>): Json {
    match s
    case None => JNull
    case Some(v) => JStr(v)
  }

  function PromptPayload(prompt: string): Json { JObj(map["prompt" := JStr(prompt)]) }

  function SystemPayload(prompt: string): Json { JObj(map["system_prompt" := JStr(prompt)]) }

  /** Every field but the signature itself. */
  function SigningPayload(p: ProofOfIntent): Json {
    JObj(map[
      "user_prompt_hash" := JStr(p.userPromptHash),
      "system_prompt_hash" := JStr(p.systemPromptHash),
      "context_root" := JStr(p.contextRoot),
      "action_payload_hash" := JStr(p.actionPayloadHash),
      "model_id" := JStr(p.modelId),
      "timestamp" := JStr(p.timestamp),
      "nonce" := JStr(p.nonce),
      "agent_type" := OptionalStr(p.agentType),
      "agent_id" := OptionalStr(p.agentId),
      "action_type" := OptionalStr(p.actionType),
      "policy_decision" := OptionalStr(p.policyDecision),
      "agent_pubkey_id" := OptionalStr(p.agentPubkeyId)
    ])
  }

  function BuildPoi(cs: Suite, userPrompt: string, systemPrompt: string, entries: seq<LedgerEntry>, actionPayload: Json,
                    modelId: string, agentType: Option<string>, agentId: Option<string>, actionType: Option<string>,
                    policyDecision: Option<string>, timestamp: string, nonce: string)
    : (r: Result<ProofOfIntent, PoiError>)
    ensures r.Success? ==> entries != [] && TreeOf(cs, entries).Success?
  {
    if userPrompt == "" || systemPrompt == "" || modelId == "" then Failure(FieldsRequired)
    else if !actionPayload.JObj? then Failure(PayloadNotADictionary)
    else match TreeOf(cs, entries)
      case Failure(why) => Failure(NoContext(why))
      case Success(tree) =>
        if Some("") in {agentType, agentId, actionType, policyDecision} then Failure(InvalidField)
        else
          TreeOfWellFormed(cs, entries);
          Success(ProofOfIntent(
            Hex(HashPayload(cs, PromptPayload(userPrompt))),
            Hex(HashPayload(cs, SystemPayload(systemPrompt))),
            Hex(tree.RootHash()),
            Hex(HashPayload(cs, actionPayload)),
            modelId, timestamp, nonce, agentType, agentId, actionType, policyDecision, None, None))
  }

  function SigningHash(cs: Suite, p: ProofOfIntent): Digest {
    HashPayload(cs, SigningPayload(p))
  }

  function AgentPubkeyId(cs: Suite, privateKey: Bytes): string {
    "agent-ed25519-" + Hex(cs.sha3(cs.publicKey(privateKey)))
  }

  function SignPoi(cs: Suite, p: ProofOfIntent, privateKey: Bytes): ProofOfIntent {
    var withKeyId := p.(agentPubkeyId := Some(AgentPubkeyId(cs, privateKey)), agentSignature := None);
    withKeyId.(agentSignature := Some(Hex(cs.sign(privateKey, SigningHash(cs, withKeyId)))))
  }

  predicate VerifyPoiSignature(cs: Suite, p: ProofOfIntent, publicKey: Bytes) {
    && p.agentSignature.Some? && p.agentPubkeyId.Some?
    && match FromHex(p.agentSignature.value)
       case None => false
       case Some(signature) => cs.verify(publicKey, signature, SigningHash(cs, p))
  }

  /** What is needed of the signature scheme: a signature checks under the signer's public key. */
  ghost predicate SignatureLaw(cs: Suite) {
    forall key, data :: cs.verify(cs.publicKey(key), cs.sign(key, data), data)
  }

  /** The signature and the key id are those of the private key, and the signature covers all other fields. */
  predicate SignedBy(cs: Suite, p: ProofOfIntent, privateKey: Bytes) {
    && p.agentPubkeyId == Some("agent-ed25519-" + Hex(cs.sha3(cs.publicKey(privateKey))))
    && p.agentSignature == Some(Hex(cs.sign(privateKey, cs.sha3(cs.jcs(SigningPayload(p))))))
  }

  lemma SigningSigns(cs: Suite, p: ProofOfIntent, privateKey: Bytes)
    ensures var signed := SignPoi(cs, p, privateKey);
            && SignedBy(cs, signed, privateKey)
            && signed.(agentSignature := p.agentSignature, agentPubkeyId := p.agentPubkeyId) == p
  {
    var withKeyId := p.(agentPubkeyId := Some(AgentPubkeyId(cs, privateKey)), agentSignature := None);
    assert SigningPayload(SignPoi(cs, p, privateKey)) == SigningPayload(withKeyId);
  }

  /** A signed proof verifies, and signing changes nothing but the signature and the key id. */
  lemma SignedPoiVerifies(cs: Suite, p: ProofOfIntent, privateKey: Bytes)
    requires SignatureLaw(cs)
    ensures var signed := SignPoi(cs, p, privateKey);
            && VerifyPoiSignature(cs, signed, cs.publicKey(privateKey))
            && signed.(agentSignature := p.agentSignature, agentPubkeyId := p.agentPubkeyId) == p
    ensures SignedBy(cs, SignPoi(cs, p, privateKey), privateKey)
  {
    var withKeyId := p.(agentPubkeyId := Some(AgentPubkeyId(cs, privateKey)), agentSignature := None);
    assert SigningPayload(SignPoi(cs, p, privateKey)) == SigningPayload(withKeyId);
    HexRoundTrip(cs.sign(privateKey, SigningHash(cs, withKeyId)));
  }

  lemma OptionalStrInjective(a: Option<string>, b: Option<string>)
    requires OptionalStr(a) == OptionalStr(b)
    ensures a == b
  {
  }

  lemma HashFields(p: ProofOfIntent)
    ensures var m := SigningPayload(p).members;
            && "user_prompt_hash" in m && m["user_prompt_hash"] == JStr(p.userPromptHash)
            && "system_prompt_hash" in m && m["system_prompt_hash"] == JStr(p.systemPromptHash)
            && "context_root" in m && m["context_root"] == JStr(p.contextRoot)
            && "action_payload_hash" in m && m["action_payload_hash"] == JStr(p.actionPayloadHash)
  {
  }

  lemma OriginFields(p: ProofOfIntent)
    ensures var m := SigningPayload(p).members;
            && "model_id" in m && m["model_id"] == JStr(p.modelId)
            && "timestamp" in m && m["timestamp"] == JStr(p.timestamp)
            && "nonce" in m && m["nonce"] == JStr(p.nonce)
            && "agent_type" in m && m["agent_type"] == OptionalStr(p.agentType)
  {
  }

  lemma IdentityFields(p: ProofOfIntent)
    ensures var m := SigningPayload(p).members;
            && "agent_id" in m && m["agent_id"] == OptionalStr(p.agentId)
            && "action_type" in m && m["action_type"] == OptionalStr(p.actionType)
            && "policy_decision" in m && m["policy_decision"] == OptionalStr(p.policyDecision)
            && "agent_pubkey_id" in m && m["agent_pubkey_id"] == OptionalStr(p.agentPubkeyId)
  {
  }

  /** The signed hash fixes every field of a proof except its signature. */
  lemma SigningHashBinds(cs: Suite, p: ProofOfIntent, q: ProofOfIntent)
    requires JcsLaws(cs) && SigningHash(cs, p) == SigningHash(cs, q)
    ensures || p == q.(agentSignature := p.agentSignature)
            || HasCollision(cs, {cs.jcs(SigningPayload(p)), cs.jcs(SigningPayload(q))})
  {
    var x, y := cs.jcs(SigningPayload(p)), cs.jcs(SigningPayload(q));
    assert x in {x, y} && y in {x, y};
    if x == y { EqualPayloads(p, q); }
  }

  lemma EqualPayloads(p: ProofOfIntent, q: ProofOfIntent)
    requires SigningPayload(p) == SigningPayload(q)
    ensures p == q.(agentSignature := p.agentSignature)
  {
    HashFields(p);
    HashFields(q);
    OriginFields(p);
    OriginFields(q);
    IdentityFields(p);
    IdentityFields(q);
    OptionalStrInjective(p.agentType, q.agentType);
    OptionalStrInjective(p.agentId, q.agentId);
    OptionalStrInjective(p.actionType, q.actionType);
    OptionalStrInjective(p.policyDecision, q.policyDecision);
    OptionalStrInjective(p.agentPubkeyId, q.agentPubkeyId);
  }

  /** What a freshly built proof commits to, when the ledger is one `append` built. */
  lemma BuiltPoiCommits(cs: Suite, userPrompt: string, systemPrompt: string, entries: seq<LedgerEntry>,
                        actionPayload: Json,
                        modelId: string, agentType: Option<string>, agentId: Option<string>, actionType: Option<string>,
                        policyDecision: Option<string>, timestamp: string, nonce: string)
    requires Intact(cs, entries)
    ensures var r := BuildPoi(cs, userPrompt, systemPrompt, entries, actionPayload, modelId, agentType, agentId,
                              actionType,
                              policyDecision, timestamp, nonce);
            && (r.Success? <==>
                  && userPrompt != "" && systemPrompt != "" && modelId != "" && actionPayload.JObj? && entries != []
                  && Some("") !in {agentType, agentId, actionType, policyDecision})
            && (r.Success? ==>
                  && r.value.contextRoot == Hex(Root(cs, ChainLeaves(cs, Contents(entries))))
                  && r.value.userPromptHash == Hex(cs.sha3(cs.jcs(JObj(map["prompt" := JStr(userPrompt)]))))
                  && r.value.systemPromptHash
                       == Hex(cs.sha3(cs.jcs(JObj(map["system_prompt" := JStr(systemPrompt)]))))
                  && r.value.actionPayloadHash == Hex(cs.sha3(cs.jcs(actionPayload))))
    ensures var r := BuildPoi(cs, userPrompt, systemPrompt, entries, actionPayload, modelId, agentType, agentId,
                              actionType, policyDecision, timestamp, nonce);
            && (r.Success? ==>
                  && r.value.modelId == modelId && r.value.timestamp == timestamp && r.value.nonce == nonce
                  && r.value.agentType == agentType && r.value.agentId == agentId
                  && r.value.actionType == actionType && r.value.policyDecision == policyDecision
                  && r.value.agentSignature == None && r.value.agentPubkeyId == None)
            && (r == Failure(FieldsRequired) <==> userPrompt == "" || systemPrompt == "" || modelId == "")
            && (r == Failure(NoContext(NoEntries)) <==>
                  userPrompt != "" && systemPrompt != "" && modelId != "" && actionPayload.JObj? && entries == [])
            && (r == Failure(InvalidField) ==> Some("") in {agentType, agentId, actionType, policyDecision})
            && (r.Failure? && r.error.NoContext? ==> entries == [])
  {
    if entries != [] {
      IntactTree(cs, entries);
    }
  }

  /** An intact ledger always has a tree, over the leaves its contents determine. */
  lemma {:induction false} IntactTree(cs: Suite, entries: seq<LedgerEntry>)
    requires Intact(cs, entries) && entries != []
    ensures TreeOf(cs, entries).Success?
    ensures LeafHashes(entries) == ChainLeaves(cs, Contents(entries))
    ensures TreeOf(cs, entries).value.WellFormed()
    ensures TreeOf(cs, entries).value.RootHash() == Root(cs, ChainLeaves(cs, Contents(entries)))
  {
    assert forall i :: 0 <= i < |entries| ==> Matches(cs, entries, i) && entries[i].entryId == i + 1;
    BuildsExactly(cs, entries);
    TreeOfWellFormed(cs, entries);
    assert LeafHashes(entries) == ChainLeaves(cs, Contents(entries));
  }
}
