/** The six links of a forensic trace, each as a function of what it is computed from. */
module Trace {
  import opened Prelude
  import opened Crypto
  import opened LedgerCore
  import opened Merkle
  import opened Envelope
  import opened EvidenceStoreCore
  import opened TreeView
  import Poi
  import Keys = KeyRegistryCore
  import Anchoring

  datatype LinkName =
    | PoiExtraction | HashRecomputation | AgentSignature | UserSignature | MerkleRootMatch | TimestampAnchor

  datatype Status = Passed | Failed | Unavailable | Pending

  datatype Mismatch =
    | UserPromptHash | SystemPromptHash | ActionPayloadHash | NoStoredEml | ContextRoot
    | ContextRootError(why: MerkleError)

  datatype IdentityError = AgentIdMismatch | AgentTypeMismatch | ActionTypeMismatch | EmailMismatch | PolicyRejected

  datatype Detail =
    | Note(text: string)
    | Mismatched(names: seq<Mismatch>)
    | Identity(errors: seq<IdentityError>)
    | RootDiffers(recomputed: string, signed: string)
    | ChainInvalid(entryId: Option<int>)

  datatype LinkResult = LinkResult(linkName: LinkName, passed: bool, status: Status, detail: Detail)

  datatype VerificationTrace = VerificationTrace(
    actionId: Option<string>,
    agentType: Option<string>,
    agentId: Option<string>,
    actionType: Option<string>,
    policyDecision: Option<string>,
    overallValid: bool,
    links: seq<LinkResult>,
    timestampVerified: bool,
    merkleTree: Option<MerkleTreeView>
  )

  datatype ParsedEml = ParsedEml(actionId: Option<string>, poiHeader: Option<string>, actionPayload: Dict)

  /** Code outside the pipeline: MIME and header decoding, and RFC 3161 token checks. */
  datatype Outside = Outside(
    parseEml: Bytes -> Option<ParsedEml>,
    decodePoi: string -> Option<Poi.ProofOfIntent>,
    verifyToken: (Bytes, Bytes) -> bool  // token, root
  )

  /** Registry and anchor store as one verification sees them, and its three clock readings. */
  datatype Snapshot = Snapshot(
    keys: Keys.KeyTable,
    agentAt: real,
    recordAt: real,
    userAt: real,
    anchors: Option<seq<Anchoring.AnchorRecord>>
  )

  datatype Raised = AttributeError | StoreRaised(e: StoreError)

  function Link(name: LinkName, passed: bool, detail: Detail): LinkResult {
    LinkResult(name, passed, if passed then Passed else Failed, detail)
  }

  function UnavailableLink(name: LinkName, why: string): LinkResult {
    LinkResult(name, false, Unavailable, Note(why))
  }

  // ---- Step 1: extraction ----

  /** The message examined: the one uploaded, or the one stored with the evidence. */
  function Examined(eml: Option<Bytes>, f: Option<EvidenceFacts>): Option<Bytes> {
    if eml.Some? then eml else if f.Some? then f.value.emlBytes else None
  }

  function Parsed(o: Outside, eml: Option<Bytes>, f: Option<EvidenceFacts>): Option<ParsedEml> {
    match Examined(eml, f)
    case None => None
    case Some(message) => o.parseEml(message)
  }

  /** The action asked about: the caller's, or failing that the one the uploaded message names. */
  function EffectiveId(o: Outside, eml: Option<Bytes>, actionId: Option<string>): Option<string> {
    if eml.Some? && o.parseEml(eml.value).Some? && (actionId == None || actionId == Some("")) then
      o.parseEml(eml.value).value.actionId
    else actionId
  }

  function ExtractPoi(o: Outside, eml: Option<Bytes>, f: Option<EvidenceFacts>)
    : (LinkResult, Option<Poi.ProofOfIntent>)
  {
    if Examined(eml, f).Some? && Parsed(o, eml, f).None? then
      (Link(PoiExtraction, false, Note("invalid .eml")), None)
    else if eml.None? && f.Some? && f.value.poi.Some? then
      (Link(PoiExtraction, true, Note("signed PoI loaded from structured action evidence")), f.value.poi)
    else
      var header := match Parsed(o, eml, f) case None => None case Some(p) => p.poiHeader;
      if header == None || header == Some("") then
        (Link(PoiExtraction, false, Note("X-AoR-Proof-of-Intent header is missing")), None)
      else match o.decodePoi(header.value)
        case None => (Link(PoiExtraction, false, Note("malformed PoI header")), None)
        case Some(p) => (Link(PoiExtraction, true, Note("signed PoI decoded from email header")), Some(p))
  }

  // ---- Step 2: recomputed commitments ----

  /** The leaves present at action time, as they stand now, with hashes rebuilt from their content. */
  function RebuiltEntries(cs: Suite, f: EvidenceFacts, live: seq<LedgerEntry>): seq<LedgerEntry> {
    Recomputed(cs, Take(live, f.ledgerEntryCountAtAction))
  }

  function RebuiltTree(cs: Suite, f: EvidenceFacts, live: seq<LedgerEntry>): Result<MerkleTree, MerkleError> {
    TreeOf(cs, RebuiltEntries(cs, f, live))
  }

  function RebuiltRoot(cs: Suite, f: EvidenceFacts, live: seq<LedgerEntry>): (root: Option<Digest>)
    ensures root.Some? <==> RebuiltTree(cs, f, live).Success?
  {
    match RebuiltTree(cs, f, live)
    case Failure(_) => None
    case Success(tree) =>
      TreeOfWellFormed(cs, RebuiltEntries(cs, f, live));
      Some(tree.RootHash())
  }

  /** The action payload whose hash is compared: the uploaded message's, else the captured one, else the stored
      message's. */
  function CheckedPayload(o: Outside, eml: Option<Bytes>, f: EvidenceFacts): Result<Dict, Mismatch> {
    if eml.None? && f.actionPayload.Some? then Success(f.actionPayload.value)
    else match Examined(eml, Some(f))
      case None => Failure(NoStoredEml)
      case Some(message) =>
        match o.parseEml(message)
        case None => Failure(ActionPayloadHash)
        case Some(p) => Success(p.actionPayload)
  }

  function When(b: bool, m: Mismatch): seq<Mismatch> { if b then [m] else [] }

  function PromptMismatch(cs: Suite, f: EvidenceFacts, p: Poi.ProofOfIntent): seq<Mismatch> {
    When(Hex(HashPayload(cs, Poi.PromptPayload(f.userEnvelope.prompt))) != p.userPromptHash, UserPromptHash)
  }

  function SystemMismatch(cs: Suite, f: EvidenceFacts, p: Poi.ProofOfIntent): seq<Mismatch> {
    When(Hex(HashPayload(cs, Poi.SystemPayload(f.systemPrompt))) != p.systemPromptHash, SystemPromptHash)
  }

  function PayloadMismatch(cs: Suite, payload: Result<Dict, Mismatch>, p: Poi.ProofOfIntent): seq<Mismatch> {
    match payload
    case Failure(m) => [m]
    case Success(d) => When(Hex(HashPayload(cs, JObj(d))) != p.actionPayloadHash, ActionPayloadHash)
  }

  function RootMismatch(cs: Suite, f: EvidenceFacts, live: seq<LedgerEntry>, p: Poi.ProofOfIntent): seq<Mismatch> {
    match RebuiltTree(cs, f, live)
    case Failure(why) => [ContextRootError(why)]
    case Success(_) => When(Hex(RebuiltRoot(cs, f, live).value) != p.contextRoot, ContextRoot)
  }

  function Mismatches(cs: Suite, o: Outside, eml: Option<Bytes>, f: EvidenceFacts, live: seq<LedgerEntry>,
                      p: Poi.ProofOfIntent): seq<Mismatch> {
    PromptMismatch(cs, f, p) + SystemMismatch(cs, f, p) + PayloadMismatch(cs, CheckedPayload(o, eml, f), p)
    + RootMismatch(cs, f, live, p)
  }

  function HashLink(cs: Suite, o: Outside, eml: Option<Bytes>, f: Option<EvidenceFacts>, live: seq<LedgerEntry>,
                    p: Option<Poi.ProofOfIntent>): LinkResult {
    if p.None? || f.None? then UnavailableLink(HashRecomputation, "unable to recompute hashes")
    else
      var names := Mismatches(cs, o, eml, f.value, live, p.value);
      if names != [] then Link(HashRecomputation, false, Mismatched(names))
      else Link(HashRecomputation, true, Note("user, system, context, and action hashes all match PoI"))
  }

  // ---- Step 3: the agent's key and signature ----

  /** Line 235 reads the evidence's action type without asking whether there is evidence. */
  predicate AgentLinkRaises(s: Snapshot, f: Option<EvidenceFacts>, p: Poi.ProofOfIntent) {
    Keys.Lookup(s.keys, KeyIdOf(p), s.agentAt).Some? && p.actionType.Some? && f.None?
  }

  function KeyIdOf(p: Poi.ProofOfIntent): string {
    if p.agentPubkeyId.Some? then p.agentPubkeyId.value else ""
  }

  function RecordErrors(record: Option<Keys.AgentKeyRecord>, p: Poi.ProofOfIntent): seq<IdentityError> {
    (if record.Some? && p.agentId.Some? && record.value.agentId != p.agentId.value then [AgentIdMismatch] else [])
    + (if record.Some? && p.agentType.Some? && record.value.agentType != p.agentType then [AgentTypeMismatch] else [])
  }

  function ActionErrors(eml: Option<Bytes>, f: Option<EvidenceFacts>, p: Poi.ProofOfIntent): seq<IdentityError>
    requires p.actionType.Some? ==> f.Some?
  {
    (if p.actionType.None? then []
     else if f.value.actionType.Some? then (if p.actionType != f.value.actionType then [ActionTypeMismatch] else [])
     else if (eml.Some? || f.value.emlBytes.Some?) && p.actionType != Some("email") then [EmailMismatch] else [])
    + (if p.policyDecision.Some? && p.policyDecision != Some("allow") then [PolicyRejected] else [])
  }

  function IdentityErrors(s: Snapshot, eml: Option<Bytes>, f: Option<EvidenceFacts>,
                          p: Poi.ProofOfIntent): seq<IdentityError>
    requires p.actionType.Some? ==> f.Some?
  {
    RecordErrors(Keys.Lookup(s.keys, KeyIdOf(p), s.recordAt), p) + ActionErrors(eml, f, p)
  }

  function AgentLink(cs: Suite, s: Snapshot, eml: Option<Bytes>, f: Option<EvidenceFacts>,
                     p: Option<Poi.ProofOfIntent>): LinkResult
    requires p.Some? ==> !AgentLinkRaises(s, f, p.value)
  {
    if p.None? then UnavailableLink(AgentSignature, "unable to check: PoI unavailable")
    else match Keys.Lookup(s.keys, KeyIdOf(p.value), s.agentAt)
      case None => Link(AgentSignature, false, Note("agent public key is unknown, expired, or currently revoked"))
      case Some(record) =>
        var errors := IdentityErrors(s, eml, f, p.value);
        var signatureValid := Poi.VerifyPoiSignature(cs, p.value, record.publicKeyBytes);
        Link(AgentSignature, signatureValid && errors == [],
             if errors != [] then Identity(errors)
             else if !signatureValid then Note("agent signature did not verify")
             else Note("agent signature and identity binding verified"))
  }

  // ---- Step 4: the user's signature ----

  function UserLink(cs: Suite, s: Snapshot, f: Option<EvidenceFacts>, p: Option<Poi.ProofOfIntent>): LinkResult {
    if p.None? || f.None? then UnavailableLink(UserSignature, "unable to check: original signed envelope unavailable")
    else
      var e := f.value.userEnvelope;
      match Keys.Lookup(s.keys, e.pubkeyId, s.userAt)
      case None => Link(UserSignature, false, Note("user public key is unknown, expired, or revoked"))
      case Some(record) =>
        var valid := match cs.unbase64(e.signature)
          case None => false
          case Some(signature) => cs.verify(record.publicKeyBytes, signature, HashPayload(cs, SigningPayload(e)));
        Link(UserSignature, valid, Note(if valid then "original user prompt signature verified"
                                        else "original user prompt signature did not verify"))
  }

  // ---- Step 5: the Merkle root ----

  /** The proof of the first rebuilt entry, checked against the rebuilt root. */
  function FirstProofValid(cs: Suite, f: EvidenceFacts, live: seq<LedgerEntry>): bool
    requires RebuiltTree(cs, f, live).Success?
  {
    var entries, tree := RebuiltEntries(cs, f, live), RebuiltTree(cs, f, live).value;
    TreeOfWellFormed(cs, entries);
    Accepts(cs, entries[0].leafHash, ProofAlong(tree.levels, 0, tree.entryPositions[entries[0].entryId]),
            tree.RootHash())
  }

  function MerkleLink(cs: Suite, f: Option<EvidenceFacts>, live: seq<LedgerEntry>,
                      p: Option<Poi.ProofOfIntent>): LinkResult {
    if p.None? || f.None? || RebuiltTree(cs, f.value, live).Failure? then
      UnavailableLink(MerkleRootMatch, "unable to check: ledger evidence unavailable")
    else
      var root := Hex(RebuiltRoot(cs, f.value, live).value);
      var chainBreak := BrokenId(live, FirstBreak(cs, live));
      var valid := FirstProofValid(cs, f.value, live) && chainBreak == None && root == p.value.contextRoot;
      Link(MerkleRootMatch, valid,
           if valid then Note("recomputed root matches signed PoI and ledger chain")
           else if root != p.value.contextRoot then RootDiffers(root, p.value.contextRoot)
           else ChainInvalid(chainBreak))
  }

  // ---- Step 6: the timestamp ----

  /** The token stored with the evidence, else the one anchored for the root the proof was signed over. */
  function TokenFor(s: Snapshot, f: EvidenceFacts, p: Poi.ProofOfIntent): Option<Bytes> {
    if f.timestampToken.Some? || s.anchors.None? then f.timestampToken
    else match FromHex(p.contextRoot)
      case None => None
      case Some(signedRoot) =>
        match Anchoring.LatestAnchored(s.anchors.value, signedRoot)
        case None => None
        case Some(record) => record.token
  }

  function TimestampLink(cs: Suite, o: Outside, s: Snapshot, f: Option<EvidenceFacts>, live: seq<LedgerEntry>,
                         p: Option<Poi.ProofOfIntent>): LinkResult {
    if p.None? || f.None? || RebuiltTree(cs, f.value, live).Failure? then
      UnavailableLink(TimestampAnchor, "unable to check: ledger root unavailable")
    else match TokenFor(s, f.value, p.value)
      case None => LinkResult(TimestampAnchor, true, Pending, Note("pending: no RFC 3161 timestamp token recorded"))
      case Some(token) =>
        Link(TimestampAnchor, o.verifyToken(token, RebuiltRoot(cs, f.value, live).value),
             Note("RFC 3161 token checked"))
  }

  // ---- The whole trace ----

  function TreeFor(cs: Suite, f: Option<EvidenceFacts>, live: seq<LedgerEntry>,
                   p: Option<Poi.ProofOfIntent>): Option<MerkleTreeView> {
    if p.None? || f.None? || RebuiltTree(cs, f.value, live).Failure? then None
    else
      var entries, tree := RebuiltEntries(cs, f.value, live), RebuiltTree(cs, f.value, live).value;
      TreeOfWellFormed(cs, entries);
      LevelsNonEmpty(tree);
      Some(ViewOf(tree, entries, Some(p.value.contextRoot), Some(entries[0].entryId),
                  Some(FirstProofValid(cs, f.value, live))))
  }

  lemma LevelsNonEmpty(tree: MerkleTree)
    requires tree.WellFormed()
    ensures forall i :: 0 <= i < |tree.levels| ==> tree.levels[i] != []
  {
    forall i | 0 <= i < |tree.levels| ensures tree.levels[i] != [] { NoEmptyLevel(tree, i); }
  }

  function Links(cs: Suite, o: Outside, s: Snapshot, eml: Option<Bytes>, f: Option<EvidenceFacts>,
                 live: seq<LedgerEntry>): seq<LinkResult>
    requires ExtractPoi(o, eml, f).1.Some? ==> !AgentLinkRaises(s, f, ExtractPoi(o, eml, f).1.value)
  {
    var (extraction, p) := ExtractPoi(o, eml, f);
    [extraction,
     HashLink(cs, o, eml, f, live, p),
     AgentLink(cs, s, eml, f, p),
     UserLink(cs, s, f, p),
     MerkleLink(cs, f, live, p),
     TimestampLink(cs, o, s, f, live, p)]
  }

  function Assemble(actionId: Option<string>, p: Option<Poi.ProofOfIntent>, links: seq<LinkResult>,
                    view: Option<MerkleTreeView>): VerificationTrace
    requires links != []
  {
    VerificationTrace(
      actionId,
      if p.Some? then p.value.agentType else None,
      if p.Some? then p.value.agentId else None,
      if p.Some? then p.value.actionType else None,
      if p.Some? then p.value.policyDecision else None,
      forall i :: 0 <= i < |links| ==> links[i].passed,
      links,
      links[|links| - 1].status == Passed,
      view)
  }

  /** What a verification returns for an action whose evidence is `f` over a ledger now reading `live`. */
  function Verify(cs: Suite, o: Outside, s: Snapshot, eml: Option<Bytes>, actionId: Option<string>,
                  f: Option<EvidenceFacts>,
                  live: seq<LedgerEntry>): Result<VerificationTrace, Raised>
  {
    var p := ExtractPoi(o, eml, f).1;
    if p.Some? && AgentLinkRaises(s, f, p.value) then Failure(AttributeError)
    else Success(Assemble(actionId, p, Links(cs, o, s, eml, f, live), TreeFor(cs, f, live, p)))
  }

  /** What a verification returns for what the store knows about the action. */
  function Answer(cs: Suite, o: Outside, s: Snapshot, eml: Option<Bytes>, actionId: Option<string>,
                  known: Known): Result<VerificationTrace, Raised>
  {
    match known
    case Damaged(id) => Failure(StoreRaised(CorruptEvidence(id)))
    case Nothing => Verify(cs, o, s, eml, actionId, None, [])
    case Evidence(facts, live) => Verify(cs, o, s, eml, actionId, Some(facts), live)
  }
}
