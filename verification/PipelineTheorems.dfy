/** What a forensic trace proves about the action it is for. */
module PipelineTheorems {
  import opened Prelude
  import opened Crypto
  import opened LedgerCore
  import opened Merkle
  import opened HistoryBinding
  import opened EvidenceStoreCore
  import opened Trace
  import opened TraceMeaning
  import Poi

  /** The contents, as they now read, of the leaves present at action time. */
  function LiveContents(f: EvidenceFacts, live: seq<LedgerEntry>): seq<Json> {
    Contents(Take(live, f.ledgerEntryCountAtAction))
  }

  // ---- The rebuilt tree ----

  lemma {:induction false} RebuiltTreeIsTheHistory(cs: Suite, f: EvidenceFacts, live: seq<LedgerEntry>)
    requires RebuiltTree(cs, f, live).Success?
    ensures LiveContents(f, live) != []
    ensures RebuiltRoot(cs, f, live) == Some(HistoryRoot(cs, LiveContents(f, live)))
  {
    var entries := Take(live, f.ledgerEntryCountAtAction);
    var rebuilt := RebuiltEntries(cs, f, live);
    TreeOfWellFormed(cs, rebuilt);
    assert LeafHashes(rebuilt) == ChainLeaves(cs, Contents(entries));
  }

  /** Rebuilding fails only for an empty prefix or a repeated entry id. */
  lemma {:induction false} RebuildSucceedsExactly(cs: Suite, f: EvidenceFacts, live: seq<LedgerEntry>)
    ensures RebuiltTree(cs, f, live).Success? <==> HasTree(f, live)
  {
    var entries, rebuilt := Take(live, f.ledgerEntryCountAtAction), RebuiltEntries(cs, f, live);
    assert forall i :: 0 <= i < |entries| ==>
             rebuilt[i].entryId == entries[i].entryId && |rebuilt[i].leafHash| == HASH_SIZE;
    BuildsExactly(cs, rebuilt);
  }

  lemma {:induction false} FirstProofAlwaysValid(cs: Suite, f: EvidenceFacts, live: seq<LedgerEntry>)
    requires RebuiltTree(cs, f, live).Success?
    ensures FirstProofValid(cs, f, live)
  {
    EntryProofVerifies(cs, RebuiltEntries(cs, f, live), 0);
  }

  // ---- Shape and single links ----

  predicate Coherent(l: LinkResult, name: LinkName) {
    l.linkName == name && (l.passed <==> l.status in {Passed, Pending})
  }

  lemma ExtractionCoherent(o: Outside, eml: Option<Bytes>, f: Option<EvidenceFacts>)
    ensures Coherent(ExtractPoi(o, eml, f).0, PoiExtraction)
    ensures ExtractPoi(o, eml, f).0.passed <==> ExtractPoi(o, eml, f).1.Some?
  {
  }

  lemma HashCoherent(cs: Suite, o: Outside, eml: Option<Bytes>, f: Option<EvidenceFacts>, live: seq<LedgerEntry>,
                     p: Option<Poi.ProofOfIntent>)
    ensures Coherent(HashLink(cs, o, eml, f, live, p), HashRecomputation)
  {
  }

  lemma AgentCoherent(cs: Suite, s: Snapshot, eml: Option<Bytes>, f: Option<EvidenceFacts>,
                      p: Option<Poi.ProofOfIntent>)
    requires p.Some? ==> !AgentLinkRaises(s, f, p.value)
    ensures Coherent(AgentLink(cs, s, eml, f, p), AgentSignature)
  {
  }

  lemma UserCoherent(cs: Suite, s: Snapshot, f: Option<EvidenceFacts>, p: Option<Poi.ProofOfIntent>)
    ensures Coherent(UserLink(cs, s, f, p), UserSignature)
  {
  }

  lemma MerkleCoherent(cs: Suite, f: Option<EvidenceFacts>, live: seq<LedgerEntry>, p: Option<Poi.ProofOfIntent>)
    ensures Coherent(MerkleLink(cs, f, live, p), MerkleRootMatch)
  {
  }

  lemma TimestampCoherent(cs: Suite, o: Outside, s: Snapshot, f: Option<EvidenceFacts>, live: seq<LedgerEntry>,
                          p: Option<Poi.ProofOfIntent>)
    ensures Coherent(TimestampLink(cs, o, s, f, live, p), TimestampAnchor)
  {
  }

  lemma {:induction false} LinksAre(cs: Suite, o: Outside, s: Snapshot, eml: Option<Bytes>, f: Option<EvidenceFacts>,
                                    live: seq<LedgerEntry>, p: Option<Poi.ProofOfIntent>)
    requires p == ExtractPoi(o, eml, f).1 && (p.Some? ==> !AgentLinkRaises(s, f, p.value))
    ensures var links := Links(cs, o, s, eml, f, live);
            && |links| == 6
            && links[0] == ExtractPoi(o, eml, f).0
            && links[1] == HashLink(cs, o, eml, f, live, p)
            && links[2] == AgentLink(cs, s, eml, f, p)
            && links[3] == UserLink(cs, s, f, p)
            && links[4] == MerkleLink(cs, f, live, p)
            && links[5] == TimestampLink(cs, o, s, f, live, p)
  {
    SixInOrder(ExtractPoi(o, eml, f).0, HashLink(cs, o, eml, f, live, p), AgentLink(cs, s, eml, f, p),
               UserLink(cs, s, f, p), MerkleLink(cs, f, live, p), TimestampLink(cs, o, s, f, live, p));
  }

  lemma SixInOrder(a: LinkResult, b: LinkResult, c: LinkResult, d: LinkResult, e: LinkResult, f: LinkResult)
    ensures var links := [a, b, c, d, e, f];
            && links[0] == a && links[1] == b && links[2] == c && links[3] == d && links[4] == e && links[5] == f
  {
  }

  lemma {:induction false} VerifyAssembles(cs: Suite, o: Outside, s: Snapshot, eml: Option<Bytes>, id: Option<string>,
                                           f: Option<EvidenceFacts>, live: seq<LedgerEntry>,
                                           p: Option<Poi.ProofOfIntent>)
    requires p == ExtractPoi(o, eml, f).1
    ensures Verify(cs, o, s, eml, id, f, live).Success? <==> (p.Some? ==> !AgentLinkRaises(s, f, p.value))
    ensures Verify(cs, o, s, eml, id, f, live).Success? ==>
              Verify(cs, o, s, eml, id, f, live).value == Assemble(id, p, Links(cs, o, s, eml, f, live),
                                                                   TreeFor(cs, f, live, p))
  {
  }

  lemma {:induction false} LinksCoherent(cs: Suite, o: Outside, s: Snapshot, eml: Option<Bytes>,
                                         f: Option<EvidenceFacts>, live: seq<LedgerEntry>, p: Option<Poi.ProofOfIntent>)
    requires p == ExtractPoi(o, eml, f).1
    requires p.Some? ==> !AgentLinkRaises(s, f, p.value)
    ensures var links := Links(cs, o, s, eml, f, live);
            && |links| == 6
            && Coherent(links[0], PoiExtraction) && Coherent(links[1], HashRecomputation)
            && Coherent(links[2], AgentSignature)
            && Coherent(links[3], UserSignature) && Coherent(links[4], MerkleRootMatch)
            && Coherent(links[5], TimestampAnchor)
  {
    ExtractionCoherent(o, eml, f);
    HashCoherent(cs, o, eml, f, live, p);
    AgentCoherent(cs, s, eml, f, p);
    UserCoherent(cs, s, f, p);
    MerkleCoherent(cs, f, live, p);
    TimestampCoherent(cs, o, s, f, live, p);
    LinksAre(cs, o, s, eml, f, live, p);
  }

  /** A returned trace has exactly six links in a fixed order, its verdict is their conjunction, and a link passes
      exactly when its status says so. */
  lemma TraceShape(cs: Suite, o: Outside, s: Snapshot, eml: Option<Bytes>, id: Option<string>, f: Option<EvidenceFacts>,
                   live: seq<LedgerEntry>)
    requires Verify(cs, o, s, eml, id, f, live).Success?
    ensures var t := Verify(cs, o, s, eml, id, f, live).value;
            && |t.links| == 6
            && Coherent(t.links[0], PoiExtraction) && Coherent(t.links[1], HashRecomputation)
            && Coherent(t.links[2], AgentSignature)
            && Coherent(t.links[3], UserSignature) && Coherent(t.links[4], MerkleRootMatch)
            && Coherent(t.links[5], TimestampAnchor)
            && (t.overallValid <==> forall i :: 0 <= i < 6 ==> t.links[i].passed)
            && (t.timestampVerified <==> t.links[5].status == Passed)
            && t.actionId == id
  {
    var p := ExtractPoi(o, eml, f).1;
    VerifyAssembles(cs, o, s, eml, id, f, live, p);
    LinksCoherent(cs, o, s, eml, f, live, p);
  }

  lemma VerifyRaises(cs: Suite, o: Outside, s: Snapshot, eml: Option<Bytes>, id: Option<string>,
                     f: Option<EvidenceFacts>, live: seq<LedgerEntry>)
    ensures var p := ExtractPoi(o, eml, f).1;
            Verify(cs, o, s, eml, id, f, live).Failure? <==> p.Some? && AgentLinkRaises(s, f, p.value)
  {
    VerifyAssembles(cs, o, s, eml, id, f, live, ExtractPoi(o, eml, f).1);
  }

  /** The proof extracted is exactly the one the request is about. */
  lemma ExtractsExactly(o: Outside, eml: Option<Bytes>, f: Option<EvidenceFacts>, p: Poi.ProofOfIntent)
    ensures ExtractPoi(o, eml, f).1 == Some(p) <==> ProofFor(o, eml, f, p)
  {
  }

  /** Verification raises exactly when the saved record does not decode, or an uploaded proof with an action type and an
      active key is for an action nothing is known about. */
  lemma RaisesExactly(cs: Suite, o: Outside, s: Snapshot, eml: Option<Bytes>, id: Option<string>, known: Known)
    ensures Answer(cs, o, s, eml, id, known).Failure? <==>
              known.Damaged? || (known.Nothing? && exists p :: ProofFor(o, eml, None, p) && ClaimsActiveKey(s, p))
    ensures Answer(cs, o, s, eml, id, known).Failure? ==>
              Answer(cs, o, s, eml, id, known).error
                == if known.Damaged? then StoreRaised(CorruptEvidence(known.actionId)) else AttributeError
  {
    match known
    case Damaged(_) =>
    case Nothing =>
      VerifyRaises(cs, o, s, eml, id, None, []);
      RaisesWithout(o, s, eml);
    case Evidence(f, live) =>
      VerifyRaises(cs, o, s, eml, id, Some(f), live);
  }

  /** The proof claims an action type, under a key that is usable. */
  predicate ClaimsActiveKey(s: Snapshot, p: Poi.ProofOfIntent) {
    p.actionType.Some? && Usable(s.keys, if p.agentPubkeyId.Some? then p.agentPubkeyId.value else "", s.agentAt)
  }

  lemma {:induction false} RaisesWithout(o: Outside, s: Snapshot, eml: Option<Bytes>)
    ensures var p := ExtractPoi(o, eml, None).1;
            p.Some? && AgentLinkRaises(s, None, p.value) <==>
              exists q :: ProofFor(o, eml, None, q) && ClaimsActiveKey(s, q)
  {
    var p := ExtractPoi(o, eml, None).1;
    if p.Some? { ExtractsExactly(o, eml, None, p.value); }
    if q :| ProofFor(o, eml, None, q) && ClaimsActiveKey(s, q) { ExtractsExactly(o, eml, None, q); }
  }

  lemma RaisesForKey(s: Snapshot, f: Option<EvidenceFacts>, p: Poi.ProofOfIntent)
    ensures NamesKey(p, KeyIdOf(p)) && forall key :: NamesKey(p, key) ==> key == KeyIdOf(p)
    ensures AgentLinkRaises(s, f, p) <==> p.actionType.Some? && f.None? && Usable(s.keys, KeyIdOf(p), s.agentAt)
  {
  }

  lemma {:induction false} PayloadExactly(o: Outside, eml: Option<Bytes>, f: EvidenceFacts, payload: Dict)
    ensures CheckedPayload(o, eml, f) == Success(payload) <==> PayloadFor(o, eml, f, payload)
  {
  }

  /** The payload examined hashes to what the proof says. */
  ghost predicate PayloadCommitted(cs: Suite, o: Outside, eml: Option<Bytes>, f: EvidenceFacts,
                                   p: Poi.ProofOfIntent) {
    exists payload :: PayloadFor(o, eml, f, payload) && Hex(HashPayload(cs, JObj(payload))) == p.actionPayloadHash
  }

  lemma {:induction false} PayloadVerdict(cs: Suite, o: Outside, eml: Option<Bytes>, f: EvidenceFacts,
                                          p: Poi.ProofOfIntent)
    ensures PayloadMismatch(cs, CheckedPayload(o, eml, f), p) == [] <==> PayloadCommitted(cs, o, eml, f, p)
  {
    if CheckedPayload(o, eml, f).Success? { PayloadExactly(o, eml, f, CheckedPayload(o, eml, f).value); }
    if payload :| PayloadFor(o, eml, f, payload) && Hex(HashPayload(cs, JObj(payload))) == p.actionPayloadHash {
      PayloadExactly(o, eml, f, payload);
    }
  }

  lemma {:induction false} RootVerdict(cs: Suite, f: EvidenceFacts, live: seq<LedgerEntry>, p: Poi.ProofOfIntent)
    ensures HasTree(f, live) ==> LiveContents(f, live) != []
    ensures RootMismatch(cs, f, live, p) == [] <==>
              HasTree(f, live) && Hex(HistoryRoot(cs, LiveContents(f, live))) == p.contextRoot
  {
    RebuildSucceedsExactly(cs, f, live);
    if HasTree(f, live) { RebuiltTreeIsTheHistory(cs, f, live); }
  }

  /** The hash link passes exactly when all four commitments of the proof hold: of the evidence's prompts, of the
      payload examined, and of the contents, as they now read, of the entries present at action time. */
  lemma HashVerdict(cs: Suite, o: Outside, eml: Option<Bytes>, f: EvidenceFacts, live: seq<LedgerEntry>,
                    p: Poi.ProofOfIntent)
    ensures HasTree(f, live) ==> LiveContents(f, live) != []
    ensures HashLink(cs, o, eml, Some(f), live, Some(p)).passed <==>
              && Hex(HashPayload(cs, Poi.PromptPayload(f.userEnvelope.prompt))) == p.userPromptHash
              && Hex(HashPayload(cs, Poi.SystemPayload(f.systemPrompt))) == p.systemPromptHash
              && PayloadCommitted(cs, o, eml, f, p)
              && HasTree(f, live) && Hex(HistoryRoot(cs, LiveContents(f, live))) == p.contextRoot
  {
    var a, b := PromptMismatch(cs, f, p), SystemMismatch(cs, f, p);
    var c, d := PayloadMismatch(cs, CheckedPayload(o, eml, f), p), RootMismatch(cs, f, live, p);
    PayloadVerdict(cs, o, eml, f, p);
    RootVerdict(cs, f, live, p);
    assert Mismatches(cs, o, eml, f, live, p) == a + b + c + d;
    assert a + b + c + d == [] <==> |a| + |b| + |c| + |d| == 0;
  }

  /** A failing hash link names exactly the commitments that do not hold. */
  lemma {:induction false} MismatchesNamed(cs: Suite, o: Outside, eml: Option<Bytes>, f: EvidenceFacts,
                                           live: seq<LedgerEntry>, p: Poi.ProofOfIntent)
    ensures HasTree(f, live) ==> LiveContents(f, live) != []
    ensures var l := HashLink(cs, o, eml, Some(f), live, Some(p));
            !l.passed ==>
              && l.detail.Mismatched?
              && var names := l.detail.names;
                 && (UserPromptHash in names <==>
                       Hex(HashPayload(cs, Poi.PromptPayload(f.userEnvelope.prompt))) != p.userPromptHash)
                 && (SystemPromptHash in names <==>
                       Hex(HashPayload(cs, Poi.SystemPayload(f.systemPrompt))) != p.systemPromptHash)
                 && (ActionPayloadHash in names || NoStoredEml in names <==> !PayloadCommitted(cs, o, eml, f, p))
                 && (NoStoredEml in names <==> eml == None && f.actionPayload == None && f.emlBytes == None)
                 && (ContextRoot in names <==>
                       HasTree(f, live) && Hex(HistoryRoot(cs, LiveContents(f, live))) != p.contextRoot)
                 && ((exists why :: ContextRootError(why) in names) <==> !HasTree(f, live))
  {
    PayloadNamed(cs, o, eml, f, p);
    RootNamed(cs, f, live, p);
    InFour(PromptMismatch(cs, f, p), SystemMismatch(cs, f, p), PayloadMismatch(cs, CheckedPayload(o, eml, f), p),
           RootMismatch(cs, f, live, p));
  }

  lemma InFour(a: seq<Mismatch>, b: seq<Mismatch>, c: seq<Mismatch>, d: seq<Mismatch>)
    ensures forall m :: m in a + b + c + d <==> m in a || m in b || m in c || m in d
  {
  }

  lemma {:induction false} PayloadNamed(cs: Suite, o: Outside, eml: Option<Bytes>, f: EvidenceFacts,
                                        p: Poi.ProofOfIntent)
    ensures var names := PayloadMismatch(cs, CheckedPayload(o, eml, f), p);
            && (forall m :: m in names ==> m in {ActionPayloadHash, NoStoredEml})
            && (ActionPayloadHash in names || NoStoredEml in names <==> !PayloadCommitted(cs, o, eml, f, p))
            && (NoStoredEml in names <==> eml == None && f.actionPayload == None && f.emlBytes == None)
  {
    PayloadVerdict(cs, o, eml, f, p);
  }

  lemma {:induction false} RootNamed(cs: Suite, f: EvidenceFacts, live: seq<LedgerEntry>, p: Poi.ProofOfIntent)
    ensures HasTree(f, live) ==> LiveContents(f, live) != []
    ensures var names := RootMismatch(cs, f, live, p);
            && (forall m :: m in names ==> m == ContextRoot || m.ContextRootError?)
            && (ContextRoot in names <==>
                  HasTree(f, live) && Hex(HistoryRoot(cs, LiveContents(f, live))) != p.contextRoot)
            && ((exists why :: ContextRootError(why) in names) <==> !HasTree(f, live))
  {
    RebuildSucceedsExactly(cs, f, live);
    if HasTree(f, live) {
      RebuiltTreeIsTheHistory(cs, f, live);
    } else {
      assert ContextRootError(RebuiltTree(cs, f, live).error) in RootMismatch(cs, f, live, p);
    }
  }

  /** The Merkle link is available exactly when there is a tree, and then passes exactly when its root is the signed one
      and the whole stored chain is what live content determines; its proof check never decides. */
  lemma MerkleVerdict(cs: Suite, f: EvidenceFacts, live: seq<LedgerEntry>, p: Poi.ProofOfIntent)
    ensures MerkleLink(cs, Some(f), live, Some(p)).status != Unavailable <==> HasTree(f, live)
    ensures HasTree(f, live) ==> LiveContents(f, live) != []
    ensures MerkleLink(cs, Some(f), live, Some(p)).passed <==>
              && HasTree(f, live) && Hex(HistoryRoot(cs, LiveContents(f, live))) == p.contextRoot
              && Recomputed(cs, live) == live
    ensures var l := MerkleLink(cs, Some(f), live, Some(p));
            HasTree(f, live) && !l.passed ==>
              var root := Hex(HistoryRoot(cs, LiveContents(f, live)));
              if root != p.contextRoot then l.detail == RootDiffers(root, p.contextRoot)
              else exists k: nat :: FirstDiffers(cs, live, k) && l.detail == ChainInvalid(Some(live[k].entryId))
  {
    RebuildSucceedsExactly(cs, f, live);
    if HasTree(f, live) {
      FirstProofAlwaysValid(cs, f, live);
      FirstBreakExact(cs, live, 0);
      if FirstBreak(cs, live).Some? { BrokenIdExactly(cs, live, live[FirstBreak(cs, live).value].entryId); }
      RebuiltTreeIsTheHistory(cs, f, live);
    }
  }

  lemma {:induction false} ThreeLinks(cs: Suite, o: Outside, s: Snapshot, eml: Option<Bytes>, id: Option<string>,
                                      f: Option<EvidenceFacts>, live: seq<LedgerEntry>)
    ensures var r := Verify(cs, o, s, eml, id, f, live);
            var p := ExtractPoi(o, eml, f);
            r.Success? ==>
              && |r.value.links| == 6
              && r.value.links[0] == p.0
              && r.value.links[1] == HashLink(cs, o, eml, f, live, p.1)
              && r.value.links[4] == MerkleLink(cs, f, live, p.1)
  {
    var p := ExtractPoi(o, eml, f).1;
    VerifyAssembles(cs, o, s, eml, id, f, live, p);
    if Verify(cs, o, s, eml, id, f, live).Success? { LinksAre(cs, o, s, eml, f, live, p); }
  }

  /** With evidence at hand, verification never raises. */
  lemma {:induction false} NeverRaises(cs: Suite, o: Outside, s: Snapshot, id: Option<string>, f: EvidenceFacts,
                                       live: seq<LedgerEntry>)
    ensures Verify(cs, o, s, None, id, Some(f), live).Success?
  {
  }

  /** The named key is usable, and every identity the proof claims is the one the active record and the evidence have,
      with policy `allow`. A proof that claims no action type needs no evidence. */
  predicate ClaimsHold(s: Snapshot, eml: Option<Bytes>, f: Option<EvidenceFacts>, p: Poi.ProofOfIntent, key: string) {
    && NamesKey(p, key) && Usable(s.keys, key, s.agentAt)
    && (Usable(s.keys, key, s.recordAt) ==>
          p.agentId in {None, Some(s.keys[key].agentId)} && p.agentType in {None, s.keys[key].agentType})
    && (p.actionType.Some? ==>
          && f.Some?
          && (f.value.actionType.Some? ==> p.actionType == f.value.actionType)
          && (f.value.actionType.None? && (eml.Some? || f.value.emlBytes.Some?) ==> p.actionType == Some("email")))
    && p.policyDecision in {None, Some("allow")}
  }

  /** The agent link passes exactly when the proof's claims hold and its signature verifies under the named key. */
  lemma AgentVerdict(cs: Suite, s: Snapshot, eml: Option<Bytes>, f: Option<EvidenceFacts>, p: Poi.ProofOfIntent,
                     key: string)
    requires !AgentLinkRaises(s, f, p) && NamesKey(p, key)
    ensures AgentLink(cs, s, eml, f, Some(p)).passed <==>
              ClaimsHold(s, eml, f, p, key) && ProofSigned(cs, p, s.keys[key].publicKeyBytes)
  {
    if Trace.Keys.Lookup(s.keys, KeyIdOf(p), s.agentAt).Some? {
      var record := Trace.Keys.Lookup(s.keys, KeyIdOf(p), s.recordAt);
      assert IdentityErrors(s, eml, f, p) == [] <==> RecordErrors(record, p) == [] && ActionErrors(eml, f, p) == [];
    }
  }

  /** Under a usable key a failing agent link names exactly the claims that do not hold. */
  lemma {:induction false} IdentityNamed(cs: Suite, s: Snapshot, eml: Option<Bytes>, f: Option<EvidenceFacts>,
                                         p: Poi.ProofOfIntent, key: string)
    requires !AgentLinkRaises(s, f, p) && NamesKey(p, key) && Usable(s.keys, key, s.agentAt)
    requires AgentLink(cs, s, eml, f, Some(p)).detail.Identity?
    ensures var errors, known := AgentLink(cs, s, eml, f, Some(p)).detail.errors, Usable(s.keys, key, s.recordAt);
            && (AgentIdMismatch in errors <==>
                  known && p.agentId.Some? && p.agentId.value != s.keys[key].agentId)
            && (AgentTypeMismatch in errors <==>
                  known && p.agentType.Some? && p.agentType != s.keys[key].agentType)
            && (ActionTypeMismatch in errors <==>
                  p.actionType.Some? && f.value.actionType.Some? && p.actionType != f.value.actionType)
            && (EmailMismatch in errors <==>
                  && p.actionType.Some? && f.value.actionType.None? && (eml.Some? || f.value.emlBytes.Some?)
                  && p.actionType != Some("email"))
            && (PolicyRejected in errors <==> p.policyDecision !in {None, Some("allow")})
  {
    var record := Trace.Keys.Lookup(s.keys, KeyIdOf(p), s.recordAt);
    assert record == if Usable(s.keys, key, s.recordAt) then Some(s.keys[key]) else None;
    RecordNamed(record, p);
    ActionNamed(eml, f, p);
    InBoth(RecordErrors(record, p), ActionErrors(eml, f, p));
    IdentityDetail(cs, s, eml, f, p);
  }

  lemma IdentityDetail(cs: Suite, s: Snapshot, eml: Option<Bytes>, f: Option<EvidenceFacts>, p: Poi.ProofOfIntent)
    requires !AgentLinkRaises(s, f, p) && AgentLink(cs, s, eml, f, Some(p)).detail.Identity?
    ensures p.actionType.Some? ==> f.Some?
    ensures AgentLink(cs, s, eml, f, Some(p)).detail.errors
              == RecordErrors(Trace.Keys.Lookup(s.keys, KeyIdOf(p), s.recordAt), p) + ActionErrors(eml, f, p)
  {
  }

  lemma InBoth(a: seq<IdentityError>, b: seq<IdentityError>)
    ensures forall e :: e in a + b <==> e in a || e in b
  {
  }

  lemma RecordNamed(record: Option<Trace.Keys.AgentKeyRecord>, p: Poi.ProofOfIntent)
    ensures var errors := RecordErrors(record, p);
            && (AgentIdMismatch in errors <==>
                  record.Some? && p.agentId.Some? && p.agentId.value != record.value.agentId)
            && (AgentTypeMismatch in errors <==>
                  record.Some? && p.agentType.Some? && p.agentType != record.value.agentType)
            && (forall e :: e in errors ==> e in {AgentIdMismatch, AgentTypeMismatch})
  {
    InBoth(if record.Some? && p.agentId.Some? && record.value.agentId != p.agentId.value then [AgentIdMismatch] else [],
           if record.Some? && p.agentType.Some? && record.value.agentType != p.agentType then [AgentTypeMismatch]
           else []);
  }

  lemma ActionNamed(eml: Option<Bytes>, f: Option<EvidenceFacts>, p: Poi.ProofOfIntent)
    requires p.actionType.Some? ==> f.Some?
    ensures var errors := ActionErrors(eml, f, p);
            && (ActionTypeMismatch in errors <==>
                  p.actionType.Some? && f.value.actionType.Some? && p.actionType != f.value.actionType)
            && (EmailMismatch in errors <==>
                  && p.actionType.Some? && f.value.actionType.None? && (eml.Some? || f.value.emlBytes.Some?)
                  && p.actionType != Some("email"))
            && (PolicyRejected in errors <==> p.policyDecision !in {None, Some("allow")})
            && (forall e :: e in errors ==> e in {ActionTypeMismatch, EmailMismatch, PolicyRejected})
  {
  }

  /** The user link passes exactly when the envelope's key is usable and its signature verifies under it. */
  lemma {:induction false} UserVerdict(cs: Suite, s: Snapshot, f: EvidenceFacts, p: Poi.ProofOfIntent)
    ensures var e := f.userEnvelope;
            UserLink(cs, s, Some(f), Some(p)).passed <==>
              Usable(s.keys, e.pubkeyId, s.userAt) && EnvelopeSigned(cs, e, s.keys[e.pubkeyId].publicKeyBytes)
  {
  }

  /** Every token the verifier would check holds for the root; if there is none, nothing is to be held against it. */
  ghost predicate TokensHold(o: Outside, s: Snapshot, f: EvidenceFacts, p: Poi.ProofOfIntent, root: Digest) {
    forall token :: TokenIs(s, f, p, token) ==> o.verifyToken(token, root)
  }

  lemma {:induction false} TokenExactly(s: Snapshot, f: EvidenceFacts, p: Poi.ProofOfIntent, token: Bytes)
    ensures TokenFor(s, f, p) == Some(token) <==> TokenIs(s, f, p, token)
  {
    if s.anchors.Some? && FromHex(p.contextRoot).Some? {
      Trace.Anchoring.LatestExactly(s.anchors.value, FromHex(p.contextRoot).value);
    }
  }

  /** The timestamp link of an action with a tree passes exactly when any token there is holds for the root. */
  lemma {:induction false} TimestampVerdict(cs: Suite, o: Outside, s: Snapshot, f: EvidenceFacts,
                                            live: seq<LedgerEntry>, p: Poi.ProofOfIntent)
    requires HasTree(f, live)
    ensures LiveContents(f, live) != []
    ensures TimestampLink(cs, o, s, Some(f), live, Some(p)).passed <==>
              TokensHold(o, s, f, p, HistoryRoot(cs, LiveContents(f, live)))
    ensures TimestampLink(cs, o, s, Some(f), live, Some(p)).status == Pending <==>
              forall token :: !TokenIs(s, f, p, token)
  {
    RebuildSucceedsExactly(cs, f, live);
    RebuiltTreeIsTheHistory(cs, f, live);
    forall token ensures TokenFor(s, f, p) == Some(token) <==> TokenIs(s, f, p, token) {
      TokenExactly(s, f, p, token);
    }
  }

  lemma LookupAfterRevocation(keys: Trace.Keys.KeyTable, key: string, id: string, now: real)
    ensures Trace.Keys.Lookup(Trace.Keys.Revoke(keys, key), id,
                              now) == if id == key then None else Trace.Keys.Lookup(keys, id, now)
  {
  }

  /** The snapshot after a key is revoked. */
  function WithRevoked(s: Snapshot, key: string): Snapshot {
    s.(keys := Trace.Keys.Revoke(s.keys, key))
  }

  /** Revoking a key makes the agent link fail if the proof names that key, and changes nothing in it otherwise. */
  lemma {:induction false} RevocationAndAgentLink(cs: Suite, s: Snapshot, eml: Option<Bytes>, f: Option<EvidenceFacts>,
                                                  p: Poi.ProofOfIntent, key: string)
    requires !AgentLinkRaises(s, f, p)
    ensures !AgentLinkRaises(WithRevoked(s, key), f, p)
    ensures if KeyIdOf(p) == key then !AgentLink(cs, WithRevoked(s, key), eml, f, Some(p)).passed
            else AgentLink(cs, WithRevoked(s, key), eml, f, Some(p)) == AgentLink(cs, s, eml, f, Some(p))
  {
    LookupAfterRevocation(s.keys, key, KeyIdOf(p), s.agentAt);
    LookupAfterRevocation(s.keys, key, KeyIdOf(p), s.recordAt);
  }

  /** The same for the user link and the envelope's key; the remaining links do not look at keys at all. */
  lemma {:induction false} RevocationAndUserLink(cs: Suite, s: Snapshot, f: EvidenceFacts, p: Option<Poi.ProofOfIntent>,
                                                 key: string)
    ensures if f.userEnvelope.pubkeyId == key then !UserLink(cs, WithRevoked(s, key), Some(f), p).passed
            else UserLink(cs, WithRevoked(s, key), Some(f), p) == UserLink(cs, s, Some(f), p)
  {
    LookupAfterRevocation(s.keys, key, f.userEnvelope.pubkeyId, s.userAt);
  }

  // ---- End-to-end tamper evidence ----

  /** The origin a proof commits to: what `build_poi` hashed. */
  datatype Origin = Origin(prompt: string, systemPrompt: string, payload: Dict, history: seq<Json>)

  predicate CommitsTo(cs: Suite, p: Poi.ProofOfIntent, g: Origin) {
    && g.history != []
    && p.userPromptHash == Hex(HashPayload(cs, Poi.PromptPayload(g.prompt)))
    && p.systemPromptHash == Hex(HashPayload(cs, Poi.SystemPayload(g.systemPrompt)))
    && p.actionPayloadHash == Hex(HashPayload(cs, JObj(g.payload)))
    && p.contextRoot == Hex(HistoryRoot(cs, g.history))
  }

  /** A proof built from a ledger that only `append` made, then signed, commits to exactly what it was built from. */
  lemma BuiltAndSignedCommits(cs: Suite, g: Origin, entries: seq<LedgerEntry>, modelId: string,
                              agentType: Option<string>, agentId: Option<string>,
                              actionType: Option<string>, policyDecision: Option<string>, timestamp: string,
                              nonce: string, key: Bytes)
    requires Intact(cs, entries) && Contents(entries) == g.history
    requires Poi.BuildPoi(cs, g.prompt, g.systemPrompt, entries, JObj(g.payload), modelId, agentType, agentId,
                          actionType, policyDecision, timestamp, nonce).Success?
    ensures var built := Poi.BuildPoi(cs, g.prompt, g.systemPrompt, entries, JObj(g.payload), modelId, agentType,
                                      agentId, actionType, policyDecision, timestamp, nonce).value;
            CommitsTo(cs, Poi.SignPoi(cs, built, key), g)
  {
    Poi.BuiltPoiCommits(cs, g.prompt, g.systemPrompt, entries, JObj(g.payload), modelId, agentType, agentId, actionType,
                        policyDecision, timestamp, nonce);
  }

  /** What a verification examined, in the same terms. */
  function ExaminedOrigin(f: EvidenceFacts, live: seq<LedgerEntry>, payload: Dict): Origin {
    Origin(f.userEnvelope.prompt, f.systemPrompt, payload, LiveContents(f, live))
  }

  function OriginInputs(cs: Suite, g: Origin): set<Bytes>
    requires g.history != []
  {
    {cs.jcs(Poi.PromptPayload(g.prompt)), cs.jcs(Poi.SystemPayload(g.systemPrompt)),
     cs.jcs(JObj(g.payload))} + HistoryInputs(cs, g.history)
  }

  /** The origins are equal, or differ in a history that is a lone entry mimicking the other's root, or their
      commitments collide. */
  predicate SameOrigin(cs: Suite, g: Origin, h: Origin)
    requires g.history != [] && h.history != []
  {
    || g == h
    || (g.(history := h.history) == h
        && (LoneEntryMimics(cs, g.history, h.history) || LoneEntryMimics(cs, h.history, g.history)))
    || HasCollision(cs, OriginInputs(cs, g) + OriginInputs(cs, h))
  }

  lemma SameDigestSameJson(cs: Suite, x: Json, y: Json, hashed: set<Bytes>)
    requires JcsLaws(cs) && !HasCollision(cs, hashed) && cs.jcs(x) in hashed && cs.jcs(y) in hashed
    requires Hex(HashPayload(cs, x)) == Hex(HashPayload(cs, y))
    ensures x == y
  {
    HexInjective(HashPayload(cs, x), HashPayload(cs, y));
    Injective(cs, hashed, cs.jcs(x), cs.jcs(y));
  }

  lemma PromptsBind(a: string, b: string)
    ensures Poi.PromptPayload(a) == Poi.PromptPayload(b) ==> a == b
    ensures Poi.SystemPayload(a) == Poi.SystemPayload(b) ==> a == b
  {
    if Poi.PromptPayload(a) == Poi.PromptPayload(b) {
      assert Poi.PromptPayload(a).members["prompt"] == Poi.PromptPayload(b).members["prompt"];
    }
    if Poi.SystemPayload(a) == Poi.SystemPayload(b) {
      assert Poi.SystemPayload(a).members["system_prompt"] == Poi.SystemPayload(b).members["system_prompt"];
    }
  }

  /** Two origins one proof commits to are equal, or share a root by a lone entry, or give a collision. */
  lemma CommitmentBinds(cs: Suite, p: Poi.ProofOfIntent, g: Origin, h: Origin)
    requires JcsLaws(cs) && CommitsTo(cs, p, g) && CommitsTo(cs, p, h)
    ensures SameOrigin(cs, g, h)
  {
    var hashed := OriginInputs(cs, g) + OriginInputs(cs, h);
    if !HasCollision(cs, hashed) {
      SameDigestSameJson(cs, Poi.PromptPayload(g.prompt), Poi.PromptPayload(h.prompt), hashed);
      SameDigestSameJson(cs, Poi.SystemPayload(g.systemPrompt), Poi.SystemPayload(h.systemPrompt), hashed);
      SameDigestSameJson(cs, JObj(g.payload), JObj(h.payload), hashed);
      PromptsBind(g.prompt, h.prompt);
      PromptsBind(g.systemPrompt, h.systemPrompt);
      HexInjective(HistoryRoot(cs, g.history), HistoryRoot(cs, h.history));
      HistoryIsBound(cs, g.history, h.history);
      var both := HistoryInputs(cs, g.history) + HistoryInputs(cs, h.history);
      if HasCollision(cs, both) { CollisionMonotone(cs, both, hashed); }
    }
  }

  lemma {:induction false} ValidTraceLinks(cs: Suite, o: Outside, s: Snapshot, eml: Option<Bytes>, id: Option<string>,
                                           f: Option<EvidenceFacts>,
                                           live: seq<LedgerEntry>, p: Poi.ProofOfIntent)
    requires Verify(cs, o, s, eml, id, f, live).Success? && Verify(cs, o, s, eml, id, f, live).value.overallValid
    requires ExtractPoi(o, eml, f).1 == Some(p)
    ensures HashLink(cs, o, eml, f, live, Some(p)).passed && MerkleLink(cs, f, live, Some(p)).passed
  {
    TraceShape(cs, o, s, eml, id, f, live);
    ThreeLinks(cs, o, s, eml, id, f, live);
  }

  /** When the hash and Merkle links pass, what was examined is an origin the proof commits to. */
  lemma {:induction false} PassingLinksCommit(cs: Suite, o: Outside, eml: Option<Bytes>, f: EvidenceFacts,
                                              live: seq<LedgerEntry>, p: Poi.ProofOfIntent) returns (payload: Dict)
    requires HashLink(cs, o, eml, Some(f), live, Some(p)).passed && MerkleLink(cs, Some(f), live, Some(p)).passed
    ensures PayloadFor(o, eml, f, payload) && CommitsTo(cs, p, ExaminedOrigin(f, live, payload))
    ensures Recomputed(cs, live) == live
  {
    HashVerdict(cs, o, eml, f, live, p);
    MerkleVerdict(cs, f, live, p);
    payload :| PayloadFor(o, eml, f, payload) && Hex(HashPayload(cs, JObj(payload))) == p.actionPayloadHash;
  }

  /**
   If a trace is valid and its proof commits to an origin, then the evidence's prompt and system prompt, the payload of
   the message examined and the live contents of the first k leaves are that origin's, and the stored chain is intact
   throughout.
   */
  lemma {:induction false} TamperEvidence(cs: Suite, o: Outside, s: Snapshot, eml: Option<Bytes>, id: Option<string>,
                                          f: Option<EvidenceFacts>, live: seq<LedgerEntry>, p: Poi.ProofOfIntent,
                                          g: Origin) returns (payload: Dict)
    requires JcsLaws(cs)
    requires Verify(cs, o, s, eml, id, f, live).Success? && Verify(cs, o, s, eml, id, f, live).value.overallValid
    requires ProofFor(o, eml, f, p) && CommitsTo(cs, p, g)
    ensures f.Some? && PayloadFor(o, eml, f.value, payload) && LiveContents(f.value, live) != []
    ensures Recomputed(cs, live) == live
    ensures SameOrigin(cs, ExaminedOrigin(f.value, live, payload), g)
  {
    ExtractsExactly(o, eml, f, p);
    ValidTraceLinks(cs, o, s, eml, id, f, live, p);
    HashNeedsEvidence(cs, o, eml, f, live, p);
    payload := PassingLinksCommit(cs, o, eml, f.value, live, p);
    CommitmentBinds(cs, p, ExaminedOrigin(f.value, live, payload), g);
  }

  lemma HashNeedsEvidence(cs: Suite, o: Outside, eml: Option<Bytes>, f: Option<EvidenceFacts>, live: seq<LedgerEntry>,
                          p: Poi.ProofOfIntent)
    requires HashLink(cs, o, eml, f, live, Some(p)).passed
    ensures f.Some?
  {
  }

  // ---- Issued proofs stay verifiable ----

  /** Evidence captured when the proof was issued: it names the origin, and counts exactly its leaves. */
  predicate CapturesOrigin(cs: Suite, f: EvidenceFacts, g: Origin) {
    && f.poi.Some? && CommitsTo(cs, f.poi.value, g)
    && f.userEnvelope.prompt == g.prompt && f.systemPrompt == g.systemPrompt
    && f.actionPayload == Some(g.payload)
    && f.ledgerEntryCountAtAction == |g.history|
  }

  lemma {:induction false} CapturedPrefix(cs: Suite, f: EvidenceFacts, live: seq<LedgerEntry>, g: Origin)
    requires CapturesOrigin(cs, f, g) && Intact(cs, live) && g.history <= Contents(live)
    ensures LiveContents(f, live) == g.history
    ensures RebuiltTree(cs, f, live).Success?
  {
    var k := |g.history|;
    var prefix := Take(live, k);
    assert prefix == live[..k];
    assert Contents(prefix) == Contents(live)[..k] == g.history;
    forall i, j | 0 <= i < j < |prefix| ensures prefix[i].entryId != prefix[j].entryId {
      assert Matches(cs, live, i) && Matches(cs, live, j);
    }
    RebuildSucceedsExactly(cs, f, live);
  }

  lemma {:induction false} CapturedLinksPass(cs: Suite, o: Outside, f: EvidenceFacts, live: seq<LedgerEntry>, g: Origin)
    requires CapturesOrigin(cs, f, g) && Intact(cs, live) && g.history <= Contents(live)
    ensures HashLink(cs, o, None, Some(f), live, f.poi).passed && MerkleLink(cs, Some(f), live, f.poi).passed
  {
    CapturedPrefix(cs, f, live, g);
    RebuiltTreeIsTheHistory(cs, f, live);
    HashVerdict(cs, o, None, f, live, f.poi.value);
    IntactIsRecomputed(cs, live);
    MerkleVerdict(cs, f, live, f.poi.value);
  }

  lemma {:induction false} ExtractedFromEvidence(o: Outside, f: EvidenceFacts)
    requires f.poi.Some? && (f.emlBytes.Some? ==> o.parseEml(f.emlBytes.value).Some?)
    ensures ExtractPoi(o, None, Some(f)).0.passed && ExtractPoi(o, None, Some(f)).1 == f.poi
  {
  }

  /** The proof is found, and the hash and Merkle links pass. */
  predicate ThreeLinksPass(r: Result<VerificationTrace, Raised>) {
    r.Success? && |r.value.links| == 6 && r.value.links[0].passed && r.value.links[1].passed && r.value.links[4].passed
  }

  /** However far the ledger has since grown by `append`, looking the action up by id passes the hash and Merkle
      links. */
  lemma {:induction false} IssuedStaysVerifiable(cs: Suite, o: Outside, s: Snapshot, id: Option<string>,
                                                 f: EvidenceFacts, live: seq<LedgerEntry>, g: Origin)
    requires CapturesOrigin(cs, f, g)
    requires Intact(cs, live) && g.history <= Contents(live)
    requires f.emlBytes.Some? ==> o.parseEml(f.emlBytes.value).Some?
    ensures ThreeLinksPass(Verify(cs, o, s, None, id, Some(f), live))
  {
    ExtractedFromEvidence(o, f);
    CapturedLinksPass(cs, o, f, live, g);
    ThreeLinks(cs, o, s, None, id, Some(f), live);
    NeverRaises(cs, o, s, id, f, live);
  }

  lemma IntactIsRecomputed(cs: Suite, live: seq<LedgerEntry>)
    requires Intact(cs, live)
    ensures Recomputed(cs, live) == live
  {
    FirstBreakIs(cs, live, None);
  }

  // ---- Restart equivalence ----

  lemma TakeTwice(live: seq<LedgerEntry>, k: int)
    requires k >= 0
    ensures Take(Take(live, k), k) == Take(live, k)
  {
  }

  /** Evidence reloaded after a restart gives the same hash link. */
  lemma {:induction false} RestartKeepsHashLink(cs: Suite, o: Outside, eml: Option<Bytes>, f: EvidenceFacts,
                                                live: seq<LedgerEntry>, p: Option<Poi.ProofOfIntent>)
    requires f.ledgerEntryCountAtAction >= 0
    ensures HashLink(cs, o, eml, Some(f), Take(live, f.ledgerEntryCountAtAction),
                     p) == HashLink(cs, o, eml, Some(f), live, p)
  {
    TakeTwice(live, f.ledgerEntryCountAtAction);
  }

  lemma {:induction false} BreakAfterCut(cs: Suite, live: seq<LedgerEntry>, k: int)
    requires k >= 0
    ensures var whole, cut := FirstBreak(cs, live), FirstBreak(cs, Take(live, k));
            && (whole.None? || whole.value < k ==> BrokenId(Take(live, k), cut) == BrokenId(live, whole))
            && (whole.Some? && whole.value >= k ==> cut == None)
  {
    if k <= |live| { FirstBreakOfPrefix(cs, live, k); }
  }

  /** The Merkle link survives a restart exactly when it is unavailable, or fails on the root anyway, or the live
      ledger's first break, if any, lies among the leaves present at action time. */
  lemma {:induction false} RestartAndMerkleLink(cs: Suite, f: EvidenceFacts, live: seq<LedgerEntry>,
                                                p: Option<Poi.ProofOfIntent>)
    requires f.ledgerEntryCountAtAction >= 0
    ensures MerkleLink(cs, Some(f), Take(live, f.ledgerEntryCountAtAction), p) == MerkleLink(cs, Some(f), live, p) <==>
              || p.None? || RebuiltTree(cs, f, live).Failure?
              || Hex(RebuiltRoot(cs, f, live).value) != p.value.contextRoot
              || FirstBreak(cs, live).None? || FirstBreak(cs, live).value < f.ledgerEntryCountAtAction
  {
    var k := f.ledgerEntryCountAtAction;
    TakeTwice(live, k);
    BreakAfterCut(cs, live, k);
    if p.Some? && RebuiltTree(cs, f, live).Success? {
      FirstProofAlwaysValid(cs, f, live);
      FirstProofAlwaysValid(cs, f, Take(live, k));
    }
  }

  /** Storing and reloading evidence keeps its facts, cuts its ledger to the committed leaves, and so keeps both
      links. */
  lemma {:induction false} RestartEquivalence(cs: Suite, o: Outside, eml: Option<Bytes>, f: EvidenceFacts,
                                              live: seq<LedgerEntry>, p: Option<Poi.ProofOfIntent>)
    requires Base64Law(cs) && f.ledgerEntryCountAtAction >= 0
    requires FirstBreak(cs, live).None? || FirstBreak(cs, live).value < f.ledgerEntryCountAtAction
    ensures Deserialize(cs, f.actionId, Serialize(cs, f, live)) == Some((f, Take(live, f.ledgerEntryCountAtAction)))
    ensures var (f', restored) := Deserialize(cs, f.actionId, Serialize(cs, f, live)).value;
            && HashLink(cs, o, eml, Some(f'), restored, p) == HashLink(cs, o, eml, Some(f), live, p)
            && MerkleLink(cs, Some(f'), restored, p) == MerkleLink(cs, Some(f), live, p)
  {
    RoundTrip(cs, f, live);
    RestartKeepsHashLink(cs, o, eml, f, live, p);
    RestartAndMerkleLink(cs, f, live, p);
  }
}
