/** What the links of a trace are about, in terms of what is stored, uploaded and registered. */
module TraceMeaning {
  import opened Prelude
  import opened Crypto
  import opened LedgerCore
  import opened Envelope
  import opened EvidenceStoreCore
  import opened Trace
  import Poi
  import Anchoring

  // ---- What is examined ----

  /** The action asked about: the one the caller names, or failing that the one the uploaded message names. */
  predicate AsksFor(o: Outside, eml: Option<Bytes>, actionId: Option<string>, id: Option<string>) {
    if actionId.Some? && actionId.value != "" then id == actionId
    else if eml.Some? && o.parseEml(eml.value).Some? then id == o.parseEml(eml.value).value.actionId
    else id == actionId
  }

  /** The message parses, and its proof header decodes to this proof. */
  predicate Carries(o: Outside, message: Bytes, p: Poi.ProofOfIntent) {
    var parsed := o.parseEml(message);
    && parsed.Some? && parsed.value.poiHeader.Some? && parsed.value.poiHeader.value != ""
    && o.decodePoi(parsed.value.poiHeader.value) == Some(p)
  }

  /** The proof examined: for an uploaded message the one in its header, whatever is stored; otherwise the stored one,
      or failing that the one in the stored message. A stored message that does not parse spoils both. */
  predicate ProofFor(o: Outside, eml: Option<Bytes>, f: Option<EvidenceFacts>, p: Poi.ProofOfIntent) {
    match eml
    case Some(message) => Carries(o, message, p)
    case None =>
      && f.Some?
      && (f.value.emlBytes.Some? ==> o.parseEml(f.value.emlBytes.value).Some?)
      && match f.value.poi
         case Some(stored) => p == stored
         case None => f.value.emlBytes.Some? && Carries(o, f.value.emlBytes.value, p)
  }

  /** The message parses, and this is its action payload. */
  predicate HasPayload(o: Outside, message: Bytes, payload: Dict) {
    var parsed := o.parseEml(message);
    parsed.Some? && parsed.value.actionPayload == payload
  }

  /** The payload examined: for an uploaded message its own, whatever is stored; otherwise the captured one, or failing
      that the stored message's. */
  predicate PayloadFor(o: Outside, eml: Option<Bytes>, f: EvidenceFacts, payload: Dict) {
    match eml
    case Some(message) => HasPayload(o, message, payload)
    case None =>
      match f.actionPayload
      case Some(captured) => payload == captured
      case None => f.emlBytes.Some? && HasPayload(o, f.emlBytes.value, payload)
  }

  /** The entries present at action time, as they now read: there are some, and none shares an id with another. */
  predicate HasTree(f: EvidenceFacts, live: seq<LedgerEntry>) {
    var entries := Take(live, f.ledgerEntryCountAtAction);
    entries != [] && forall i, j :: 0 <= i < j < |entries| ==> entries[i].entryId != entries[j].entryId
  }

  // ---- Keys and signatures ----

  predicate Usable(keys: Trace.Keys.KeyTable, id: string, at: real) {
    && id in keys && !keys[id].revoked && keys[id].validFrom <= at
    && (keys[id].validUntil.Some? ==> at <= keys[id].validUntil.value)
  }

  /** The proof's signature is hexadecimal and verifies for everything else in the proof, the key id included. */
  predicate ProofSigned(cs: Suite, p: Poi.ProofOfIntent, publicKey: Bytes) {
    && p.agentSignature.Some? && p.agentPubkeyId.Some?
    && var signature := FromHex(p.agentSignature.value);
       signature.Some? && cs.verify(publicKey, signature.value, cs.sha3(cs.jcs(Poi.SigningPayload(p))))
  }

  /** The envelope's signature is base64 and verifies for its five signed fields. */
  predicate EnvelopeSigned(cs: Suite, e: SignedEnvelope, publicKey: Bytes) {
    var signature := cs.unbase64(e.signature);
    signature.Some? && cs.verify(publicKey, signature.value, cs.sha3(cs.jcs(SigningPayload(e))))
  }

  /** The key id a proof names, the empty one if it names none. */
  predicate NamesKey(p: Poi.ProofOfIntent, id: string) {
    match p.agentPubkeyId
    case Some(named) => id == named
    case None => id == ""
  }

  // ---- Timestamps ----

  /** The token checked: the stored one, or failing that the one of the latest anchored record for the signed root. */
  ghost predicate TokenIs(s: Snapshot, f: EvidenceFacts, p: Poi.ProofOfIntent, token: Bytes) {
    match f.timestampToken
    case Some(stored) => token == stored
    case None =>
      && s.anchors.Some? && FromHex(p.contextRoot).Some?
      && exists i: nat :: Anchoring.IsLatest(s.anchors.value, FromHex(p.contextRoot).value, i)
                     && s.anchors.value[i].token == Some(token)
  }
}
