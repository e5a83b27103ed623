/**
 From a valid trace alone to what agent and user signed, and back: which traces are valid. No signature scheme is
 assumed unforgeable. If a trace is valid for a proof or an envelope that was never signed, the trace itself carries the
 forgery.
 */
module TraceProvenance {
  import opened Prelude
  import opened Crypto
  import opened LedgerCore
  import opened HistoryBinding
  import opened Envelope
  import opened EvidenceStoreCore
  import opened Trace
  import opened TraceMeaning
  import opened PipelineTheorems
  import opened TraceVerdict
  import opened AgentBase
  import opened Router
  import Poi

  /** A proof the agent signed, and the origin it was built from. */
  datatype Issue = Issue(poi: Poi.ProofOfIntent, origin: Origin)

  predicate AllCommit(cs: Suite, issued: seq<Issue>) {
    forall k :: 0 <= k < |issued| ==> CommitsTo(cs, issued[k].poi, issued[k].origin)
  }

  // ---- Forgeries ----

  /** The proof's own signature verifies, though no issued proof has the data it signs. */
  predicate AgentForgery(cs: Suite, publicKey: Bytes, p: Poi.ProofOfIntent, issued: seq<Issue>) {
    && ProofSigned(cs, p, publicKey)
    && forall k :: 0 <= k < |issued| ==> Poi.SigningHash(cs, issued[k].poi) != Poi.SigningHash(cs, p)
  }

  /** The envelope's own signature verifies, though no signed envelope has the data it signs. */
  predicate UserForgery(cs: Suite, publicKey: Bytes, e: SignedEnvelope, signed: seq<SignedEnvelope>) {
    && EnvelopeSigned(cs, e, publicKey)
    && forall k :: 0 <= k < |signed| ==>
         HashPayload(cs, SigningPayload(signed[k])) != HashPayload(cs, SigningPayload(e))
  }

  // ---- What was found behind a trace ----

  /** The proof is the issued one but for its signature and was examined over that one's origin, up to a lone entry's
      root; or commitments or signing payloads collide. */
  predicate StemsFrom(cs: Suite, p: Poi.ProofOfIntent, h: Origin, i: Issue)
    requires h.history != [] && i.origin.history != []
  {
    || (p == i.poi.(agentSignature := p.agentSignature) && SameOrigin(cs, h, i.origin))
    || HasCollision(cs, {cs.jcs(Poi.SigningPayload(p)), cs.jcs(Poi.SigningPayload(i.poi))})
  }

  /** The envelope carries the five fields of the signed one, or the two payloads collide. */
  predicate IsSigned(cs: Suite, e: SignedEnvelope, signed: SignedEnvelope) {
    || SigningPayload(e) == SigningPayload(signed)
    || HasCollision(cs, {cs.jcs(SigningPayload(e)), cs.jcs(SigningPayload(signed))})
  }

  lemma {:induction false} SignedOrCollides(cs: Suite, e: SignedEnvelope, signed: SignedEnvelope)
    requires HashPayload(cs, SigningPayload(signed)) == HashPayload(cs, SigningPayload(e)) && JcsLaws(cs)
    ensures IsSigned(cs, e, signed)
  {
    var x, y := cs.jcs(SigningPayload(e)), cs.jcs(SigningPayload(signed));
    assert x in {x, y} && y in {x, y};
  }

  lemma {:induction false} IssuedOrCollides(cs: Suite, p: Poi.ProofOfIntent, h: Origin, i: Issue)
    requires JcsLaws(cs) && CommitsTo(cs, p, h) && CommitsTo(cs, i.poi, i.origin)
    requires Poi.SigningHash(cs, i.poi) == Poi.SigningHash(cs, p)
    ensures StemsFrom(cs, p, h, i)
  {
    Poi.SigningHashBinds(cs, p, i.poi);
    if p == i.poi.(agentSignature := p.agentSignature) { CommitmentBinds(cs, p, h, i.origin); }
  }

  /**
   A valid trace, with nothing else given: the stored chain is intact; unless the proof carries a forged signature, it
   is one of the issued proofs but for the signature, and the prompt, system prompt, payload and live history examined
   are that proof's origin; and unless the envelope carries a forged signature, its prompt is one the user signed.
   */
  lemma {:induction false} ValidTraceIsAuthentic(cs: Suite, o: Outside, s: Snapshot, eml: Option<Bytes>,
                                                 id: Option<string>, f: Option<EvidenceFacts>, live: seq<LedgerEntry>,
                                                 issued: seq<Issue>, signed: seq<SignedEnvelope>)
    returns (p: Poi.ProofOfIntent, key: string, payload: Dict)
    requires JcsLaws(cs) && AllCommit(cs, issued)
    requires Verify(cs, o, s, eml, id, f, live).Success? && Verify(cs, o, s, eml, id, f, live).value.overallValid
    ensures f.Some? && ProofFor(o, eml, f, p) && PayloadFor(o, eml, f.value, payload)
    ensures Recomputed(cs, live) == live && LiveContents(f.value, live) != []
    ensures NamesKey(p, key) && Usable(s.keys, key, s.agentAt)
    ensures || AgentForgery(cs, s.keys[key].publicKeyBytes, p, issued)
            || exists i :: 0 <= i < |issued| && StemsFrom(cs, p, ExaminedOrigin(f.value, live, payload), issued[i])
    ensures var e := f.value.userEnvelope;
            && Usable(s.keys, e.pubkeyId, s.userAt)
            && (|| UserForgery(cs, s.keys[e.pubkeyId].publicKeyBytes, e, signed)
                || exists j :: 0 <= j < |signed| && IsSigned(cs, e, signed[j]))
  {
    ValidExactly(cs, o, s, eml, id, f, live);
    p, key, payload :| Genuine(cs, o, s, eml, f.value, live, p, key, payload);
    var e, h := f.value.userEnvelope, ExaminedOrigin(f.value, live, payload);
    if !AgentForgery(cs, s.keys[key].publicKeyBytes, p, issued) {
      var i :| 0 <= i < |issued| && Poi.SigningHash(cs, issued[i].poi) == Poi.SigningHash(cs, p);
      IssuedOrCollides(cs, p, h, issued[i]);
    }
    if !UserForgery(cs, s.keys[e.pubkeyId].publicKeyBytes, e, signed) {
      var j :| 0 <= j < |signed| && HashPayload(cs, SigningPayload(signed[j])) == HashPayload(cs, SigningPayload(e));
      SignedOrCollides(cs, e, signed[j]);
    }
  }

  // ---- Valid traces exist ----

  /** The key id, if registered at all, belongs to this public key. */
  predicate RegisteredTo(s: Snapshot, id: string, publicKey: Bytes) {
    id in s.keys ==> s.keys[id].publicKeyBytes == publicKey
  }

  predicate SignsEnvelope(cs: Suite, e: SignedEnvelope, privateKey: Bytes) {
    cs.unbase64(e.signature) == Some(cs.sign(privateKey, HashPayload(cs, SigningPayload(e))))
  }

  /** Evidence that captures an origin is genuine exactly when the keys and any token bear it out. */
  lemma {:induction false} CapturedIsGenuine(cs: Suite, o: Outside, s: Snapshot, f: EvidenceFacts,
                                             live: seq<LedgerEntry>, g: Origin, key: string)
    requires CapturesOrigin(cs, f, g) && Intact(cs, live) && g.history <= Contents(live)
    requires f.emlBytes.Some? ==> o.parseEml(f.emlBytes.value).Some?
    requires NamesKey(f.poi.value, key) && ProofSignedIfKnown(cs, s, f.poi.value, key)
    requires EnvelopeSignedIfKnown(cs, s, f.userEnvelope)
    ensures ProofFor(o, None, Some(f), f.poi.value)
    ensures (exists payload :: Genuine(cs, o, s, None, f, live, f.poi.value, key, payload)) <==>
              && ClaimsHold(s, None, Some(f), f.poi.value, key) && Usable(s.keys, f.userEnvelope.pubkeyId, s.userAt)
              && TokensHold(o, s, f, f.poi.value, HistoryRoot(cs, g.history))
  {
    CapturedPrefix(cs, f, live, g);
    RebuildSucceedsExactly(cs, f, live);
    IntactIsRecomputed(cs, live);
    assert ExaminedOrigin(f, live, g.payload) == g;
    if ClaimsHold(s, None, Some(f), f.poi.value, key) && Usable(s.keys, f.userEnvelope.pubkeyId, s.userAt)
       && TokensHold(o, s, f, f.poi.value, HistoryRoot(cs, g.history))
    {
      assert Genuine(cs, o, s, None, f, live, f.poi.value, key, g.payload);
    }
  }

  predicate ProofSignedIfKnown(cs: Suite, s: Snapshot, p: Poi.ProofOfIntent, key: string) {
    key in s.keys ==> ProofSigned(cs, p, s.keys[key].publicKeyBytes)
  }

  predicate EnvelopeSignedIfKnown(cs: Suite, s: Snapshot, e: SignedEnvelope) {
    e.pubkeyId in s.keys ==> EnvelopeSigned(cs, e, s.keys[e.pubkeyId].publicKeyBytes)
  }

  lemma {:induction false} OwnersSign(cs: Suite, s: Snapshot, f: EvidenceFacts, q: Poi.ProofOfIntent, agentKey: Bytes,
                                      userKey: Bytes)
    requires Poi.SignatureLaw(cs) && f.poi == Some(Poi.SignPoi(cs, q, agentKey))
    requires RegisteredTo(s, Poi.AgentPubkeyId(cs, agentKey), cs.publicKey(agentKey))
    requires SignsEnvelope(cs, f.userEnvelope, userKey)
    requires RegisteredTo(s, f.userEnvelope.pubkeyId, cs.publicKey(userKey))
    ensures NamesKey(f.poi.value, Poi.AgentPubkeyId(cs, agentKey))
    ensures ProofSignedIfKnown(cs, s, f.poi.value, Poi.AgentPubkeyId(cs, agentKey))
    ensures EnvelopeSignedIfKnown(cs, s, f.userEnvelope)
  {
    Poi.SignedPoiVerifies(cs, q, agentKey);
  }

  /**
   Evidence captured at issue, of a signed proof and a signed envelope, over any later growth of the ledger, gives a
   valid trace exactly when the agent's key is usable and bears out the proof's claims, the user's key is usable, and
   any token checks for the root of the committed history.
   */
  lemma {:induction false} CapturedIsValidExactly(cs: Suite, o: Outside, s: Snapshot, id: Option<string>,
                                                  f: EvidenceFacts, live: seq<LedgerEntry>, g: Origin,
                                                  q: Poi.ProofOfIntent, agentKey: Bytes, userKey: Bytes)
    requires Poi.SignatureLaw(cs) && CapturesOrigin(cs, f, g) && Intact(cs, live) && g.history <= Contents(live)
    requires f.emlBytes.Some? ==> o.parseEml(f.emlBytes.value).Some?
    requires f.poi == Some(Poi.SignPoi(cs, q, agentKey))
    requires RegisteredTo(s, Poi.AgentPubkeyId(cs, agentKey), cs.publicKey(agentKey))
    requires SignsEnvelope(cs, f.userEnvelope, userKey)
    requires RegisteredTo(s, f.userEnvelope.pubkeyId, cs.publicKey(userKey))
    ensures var r, key := Verify(cs, o, s, None, id, Some(f), live), Poi.AgentPubkeyId(cs, agentKey);
            && r.Success?
            && (r.value.overallValid <==>
                  && ClaimsHold(s, None, Some(f), f.poi.value, key) && Usable(s.keys, f.userEnvelope.pubkeyId, s.userAt)
                  && TokensHold(o, s, f, f.poi.value, HistoryRoot(cs, g.history)))
  {
    OwnersSign(cs, s, f, q, agentKey, userKey);
    CapturedIsGenuine(cs, o, s, f, live, g, Poi.AgentPubkeyId(cs, agentKey));
    ValidForProof(cs, o, s, None, id, f, live, f.poi.value, Poi.AgentPubkeyId(cs, agentKey));
  }

  /** The registry bears out what the plan loop has the agent claim. */
  predicate AgentBacks(env: Env, s: Snapshot, plan: ActionPlan)
    requires plan.agentType in env.agents
  {
    && plan.policyDecision == "allow"
    && var id := Poi.AgentPubkeyId(env.cs, env.keyFor(KeyIdFor(plan)));
       && Usable(s.keys, id, s.agentAt)
       && (Usable(s.keys, id, s.recordAt) ==>
             && s.keys[id].agentId == AgentIdFor(plan, env.agents[plan.agentType])
             && s.keys[id].agentType == Some(plan.agentType))
  }

  lemma {:induction false} ActedClaims(env: Env, envelope: SignedEnvelope, grown: seq<LedgerEntry>, plan: ActionPlan,
                                       i: nat, s: Snapshot)
    requires ActOn(env, envelope, grown, plan, i).Success?
    ensures var f := ActOn(env, envelope, grown, plan, i).value.facts;
            && f.poi.Some? && f.userEnvelope == envelope
            && var key := Poi.AgentPubkeyId(env.cs, env.keyFor(KeyIdFor(plan)));
               ClaimsHold(s, None, Some(f), f.poi.value, key) <==> AgentBacks(env, s, plan)
  {
  }

  /** What `build_poi` made before the signature was put on. */
  lemma {:induction false} ActedIsSigned(env: Env, envelope: SignedEnvelope, grown: seq<LedgerEntry>, plan: ActionPlan,
                                         i: nat) returns (q: Poi.ProofOfIntent)
    requires ActOn(env, envelope, grown, plan, i).Success?
    ensures var f := ActOn(env, envelope, grown, plan, i).value.facts;
            f.poi == Some(Poi.SignPoi(env.cs, q, env.keyFor(KeyIdFor(plan))))
  {
    q := Poi.BuildPoi(env.cs, envelope.prompt, SYSTEM_PROMPT, grown, JObj(plan.payload), MODEL_ID, Some(plan.agentType),
                      Some(AgentIdFor(plan, env.agents[plan.agentType])), Some(plan.actionType),
                      Some(plan.policyDecision), env.clock(i, 3), env.nonce(i)).value;
  }

  /** A plan the loop executes for a signed request yields, at any later growth of the ledger, a valid trace exactly
      when the policy allowed it, the registry backs the agent, the user's key is active, and any token checks. */
  lemma {:induction false} ExecutedIsValidExactly(env: Env, envelope: SignedEnvelope, grown: seq<LedgerEntry>,
                                                  plan: ActionPlan, i: nat, live: seq<LedgerEntry>, o: Outside,
                                                  s: Snapshot, id: Option<string>, userKey: Bytes)
    requires Poi.SignatureLaw(env.cs) && Intact(env.cs, grown) && grown <= live && Intact(env.cs, live)
    requires ActOn(env, envelope, grown, plan, i).Success?
    requires var f := ActOn(env, envelope, grown, plan, i).value.facts;
             f.emlBytes.Some? ==> o.parseEml(f.emlBytes.value).Some?
    requires var agentKey := env.keyFor(KeyIdFor(plan));
             RegisteredTo(s, Poi.AgentPubkeyId(env.cs, agentKey), env.cs.publicKey(agentKey))
    requires SignsEnvelope(env.cs, envelope, userKey) && RegisteredTo(s, envelope.pubkeyId, env.cs.publicKey(userKey))
    ensures var f := ActOn(env, envelope, grown, plan, i).value.facts;
            var r := Verify(env.cs, o, s, None, id, Some(f), live);
            && Committed(env.cs, f, grown) && OriginOf(f, grown).history != []
            && r.Success?
            && (r.value.overallValid <==>
                  && AgentBacks(env, s, plan) && Usable(s.keys, envelope.pubkeyId, s.userAt)
                  && TokensHold(o, s, f, f.poi.value, HistoryRoot(env.cs, OriginOf(f, grown).history)))
  {
    var f := ActOn(env, envelope, grown, plan, i).value.facts;
    ActCommits(env, envelope, grown, plan, i);
    ActedClaims(env, envelope, grown, plan, i, s);
    var q := ActedIsSigned(env, envelope, grown, plan, i);
    assert OriginOf(f, grown).history <= Contents(live);
    CapturedIsValidExactly(env.cs, o, s, id, f, live, OriginOf(f, grown), q, env.keyFor(KeyIdFor(plan)), userKey);
  }
}
