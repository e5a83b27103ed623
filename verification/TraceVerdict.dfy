/** Exactly which traces are valid, and what a trace shows, in terms of what is stored, uploaded and registered. */
module TraceVerdict {
  import opened Prelude
  import opened Crypto
  import opened LedgerCore
  import opened Merkle
  import opened HistoryBinding
  import opened Envelope
  import opened EvidenceStoreCore
  import opened TreeView
  import opened Trace
  import opened TraceMeaning
  import opened PipelineTheorems
  import Poi

  /**
   Everything a valid trace vouches for: the proof commits to the evidence's prompts, the payload examined and the live
   contents of the entries present at action time; the stored chain is intact throughout; the agent's key bears out what
   the proof claims and its signature; the user's key bears out the envelope's; and any token holds for the root.
   */
  ghost predicate Genuine(cs: Suite, o: Outside, s: Snapshot, eml: Option<Bytes>, f: EvidenceFacts,
                          live: seq<LedgerEntry>, p: Poi.ProofOfIntent, key: string, payload: Dict) {
    && ProofFor(o, eml, Some(f), p) && PayloadFor(o, eml, f, payload)
    && HasTree(f, live) && CommitsTo(cs, p, ExaminedOrigin(f, live, payload)) && Recomputed(cs, live) == live
    && ClaimsHold(s, eml, Some(f), p, key) && ProofSigned(cs, p, s.keys[key].publicKeyBytes)
    && UserVouches(cs, s, f.userEnvelope)
    && TokensHold(o, s, f, p, HistoryRoot(cs, LiveContents(f, live)))
  }

  predicate UserVouches(cs: Suite, s: Snapshot, e: SignedEnvelope) {
    Usable(s.keys, e.pubkeyId, s.userAt) && EnvelopeSigned(cs, e, s.keys[e.pubkeyId].publicKeyBytes)
  }

  lemma AllSix(t: VerificationTrace)
    requires |t.links| == 6
    ensures (forall i :: 0 <= i < 6 ==> t.links[i].passed) <==>
              && t.links[0].passed && t.links[1].passed && t.links[2].passed
              && t.links[3].passed && t.links[4].passed && t.links[5].passed
  {
  }

  lemma {:induction false} SixLinks(cs: Suite, o: Outside, s: Snapshot, eml: Option<Bytes>, id: Option<string>,
                                    f: Option<EvidenceFacts>, live: seq<LedgerEntry>)
    requires Verify(cs, o, s, eml, id, f, live).Success?
    ensures var t := Verify(cs, o, s, eml, id, f, live).value;
            && |t.links| == 6
            && (t.overallValid <==>
                  && t.links[0].passed && t.links[1].passed && t.links[2].passed
                  && t.links[3].passed && t.links[4].passed && t.links[5].passed)
  {
    TraceShape(cs, o, s, eml, id, f, live);
    AllSix(Verify(cs, o, s, eml, id, f, live).value);
  }

  /** The five links that judge a proof pass. */
  predicate FivePass(cs: Suite, o: Outside, s: Snapshot, eml: Option<Bytes>, f: EvidenceFacts, live: seq<LedgerEntry>,
                     p: Poi.ProofOfIntent)
    requires !AgentLinkRaises(s, Some(f), p)
  {
    && HashLink(cs, o, eml, Some(f), live, Some(p)).passed
    && AgentLink(cs, s, eml, Some(f), Some(p)).passed
    && UserLink(cs, s, Some(f), Some(p)).passed
    && MerkleLink(cs, Some(f), live, Some(p)).passed
    && TimestampLink(cs, o, s, Some(f), live, Some(p)).passed
  }

  lemma {:induction false} FiveLinks(cs: Suite, o: Outside, s: Snapshot, eml: Option<Bytes>, id: Option<string>,
                                     f: EvidenceFacts, live: seq<LedgerEntry>, p: Poi.ProofOfIntent)
    requires ProofFor(o, eml, Some(f), p)
    ensures !AgentLinkRaises(s, Some(f), p)
    ensures var r := Verify(cs, o, s, eml, id, Some(f), live);
            r.Success? && (r.value.overallValid <==> FivePass(cs, o, s, eml, f, live, p))
  {
    ExtractsExactly(o, eml, Some(f), p);
    ExtractionCoherent(o, eml, Some(f));
    VerifyAssembles(cs, o, s, eml, id, Some(f), live, Some(p));
    SixLinks(cs, o, s, eml, id, Some(f), live);
    LinksAre(cs, o, s, eml, Some(f), live, Some(p));
  }

  /** For a given proof and the key it names, the trace is valid exactly when all that it vouches for is so. */
  lemma {:induction false} ValidForProof(cs: Suite, o: Outside, s: Snapshot, eml: Option<Bytes>, id: Option<string>,
                                         f: EvidenceFacts, live: seq<LedgerEntry>, p: Poi.ProofOfIntent, key: string)
    requires ProofFor(o, eml, Some(f), p) && NamesKey(p, key)
    ensures var r := Verify(cs, o, s, eml, id, Some(f), live);
            r.Success? && (r.value.overallValid <==>
                             exists payload :: Genuine(cs, o, s, eml, f, live, p, key, payload))
  {
    FiveLinks(cs, o, s, eml, id, f, live, p);
    HashVerdict(cs, o, eml, f, live, p);
    AgentVerdict(cs, s, eml, Some(f), p, key);
    UserVerdict(cs, s, f, p);
    MerkleVerdict(cs, f, live, p);
    if HasTree(f, live) { TimestampVerdict(cs, o, s, f, live, p); }
    if payload :| PayloadFor(o, eml, f, payload) && Hex(HashPayload(cs, JObj(payload))) == p.actionPayloadHash {
      if Verify(cs, o, s, eml, id, Some(f), live).value.overallValid {
        assert Genuine(cs, o, s, eml, f, live, p, key, payload);
      }
    }
  }

  /** Exactly which verifications find a valid trace, over any evidence, ledger, message, keys and anchors. */
  lemma {:induction false} ValidExactly(cs: Suite, o: Outside, s: Snapshot, eml: Option<Bytes>, id: Option<string>,
                                        f: Option<EvidenceFacts>, live: seq<LedgerEntry>)
    ensures var r := Verify(cs, o, s, eml, id, f, live);
            r.Success? && r.value.overallValid <==>
              f.Some? && exists p, key, payload :: Genuine(cs, o, s, eml, f.value, live, p, key, payload)
  {
    var r := Verify(cs, o, s, eml, id, f, live);
    if r.Success? && r.value.overallValid {
      var p := ValidHasProof(cs, o, s, eml, id, f, live);
      RaisesForKey(s, f, p);
      ValidForProof(cs, o, s, eml, id, f.value, live, p, KeyIdOf(p));
    }
    if f.Some? {
      if p, key, payload :| Genuine(cs, o, s, eml, f.value, live, p, key, payload) {
        ValidForProof(cs, o, s, eml, id, f.value, live, p, key);
      }
    }
  }

  lemma {:induction false} ValidHasProof(cs: Suite, o: Outside, s: Snapshot, eml: Option<Bytes>, id: Option<string>,
                                         f: Option<EvidenceFacts>, live: seq<LedgerEntry>)
    returns (p: Poi.ProofOfIntent)
    requires Verify(cs, o, s, eml, id, f, live).Success? && Verify(cs, o, s, eml, id, f, live).value.overallValid
    ensures f.Some? && ProofFor(o, eml, f, p)
  {
    var found := ExtractPoi(o, eml, f).1;
    TraceShape(cs, o, s, eml, id, f, live);
    ThreeLinks(cs, o, s, eml, id, f, live);
    var links := Verify(cs, o, s, eml, id, f, live).value.links;
    ExtractionCoherent(o, eml, f);
    assert links[0].passed && links[1].passed;
    p := found.value;
    ExtractsExactly(o, eml, f, p);
    HashNeedsEvidence(cs, o, eml, f, live, p);
  }

  // ---- What else a trace shows ----

  /** A trace repeats the identity its proof claims, and nothing when there is no proof. */
  lemma {:induction false} TraceNamesProof(cs: Suite, o: Outside, s: Snapshot, eml: Option<Bytes>, id: Option<string>,
                                           f: Option<EvidenceFacts>, live: seq<LedgerEntry>, p: Poi.ProofOfIntent)
    requires Verify(cs, o, s, eml, id, f, live).Success?
    ensures var t := Verify(cs, o, s, eml, id, f, live).value;
            && (ProofFor(o, eml, f, p) ==>
                  && t.agentType == p.agentType && t.agentId == p.agentId
                  && t.actionType == p.actionType && t.policyDecision == p.policyDecision)
            && ((forall q :: !ProofFor(o, eml, f, q)) ==>
                  t.agentType == t.agentId == t.actionType == t.policyDecision == None)
  {
    VerifyAssembles(cs, o, s, eml, id, f, live, ExtractPoi(o, eml, f).1);
    ExtractsExactly(o, eml, f, p);
    if ExtractPoi(o, eml, f).1.Some? { ExtractsExactly(o, eml, f, ExtractPoi(o, eml, f).1.value); }
  }

  /** What is drawn beside the links: the tree of the rebuilt entries, its root against the signed one. */
  predicate Shows(cs: Suite, p: Poi.ProofOfIntent, f: EvidenceFacts, live: seq<LedgerEntry>, view: MerkleTreeView)
    requires HasTree(f, live)
  {
    var entries := Take(live, f.ledgerEntryCountAtAction);
    var tree, root := TreeOf(cs, Recomputed(cs, entries)), Hex(HistoryRoot(cs, Contents(entries)));
    && view.root == root && view.signedRoot == Some(p.contextRoot)
    && view.rootMatchesSigned == (if p.contextRoot == "" then None else Some(root == p.contextRoot))
    && view.leafCount == |entries| && view.proofEntryId == Some(entries[0].entryId) && view.proofValid == Some(true)
    && tree.Success? && Draws(tree.value.levels, entries, view.levels)
  }

  /** Level by level, what `TreeView` says a level looks like. */
  predicate Draws(levels: seq<seq<Digest>>, entries: seq<LedgerEntry>, drawn: seq<MerkleLevelView>) {
    && entries != [] && |drawn| == |levels|
    && forall i :: 0 <= i < |levels| ==>
         levels[i] != [] && drawn[i] == LevelViewAt(levels, EntryIds(entries), i)
  }

  /** A tree is drawn exactly when there is a proof, and evidence with entries to rebuild. */
  lemma {:induction false} TraceShowsTree(cs: Suite, o: Outside, s: Snapshot, eml: Option<Bytes>, id: Option<string>,
                                          f: EvidenceFacts, live: seq<LedgerEntry>, p: Poi.ProofOfIntent)
    requires ProofFor(o, eml, Some(f), p)
    ensures var r := Verify(cs, o, s, eml, id, Some(f), live);
            && r.Success?
            && (r.value.merkleTree.Some? <==> HasTree(f, live))
            && (HasTree(f, live) ==> Shows(cs, p, f, live, r.value.merkleTree.value))
  {
    FiveLinks(cs, o, s, eml, id, f, live, p);
    ExtractsExactly(o, eml, Some(f), p);
    VerifyAssembles(cs, o, s, eml, id, Some(f), live, Some(p));
    RebuildSucceedsExactly(cs, f, live);
    if HasTree(f, live) { DrawnForTree(cs, f, live, p); }
  }

  lemma {:induction false} DrawnForTree(cs: Suite, f: EvidenceFacts, live: seq<LedgerEntry>, p: Poi.ProofOfIntent)
    requires HasTree(f, live)
    ensures var view := TreeFor(cs, Some(f), live, Some(p)); view.Some? && Shows(cs, p, f, live, view.value)
  {
    var entries := Take(live, f.ledgerEntryCountAtAction);
    var rebuilt := RebuiltEntries(cs, f, live);
    RebuildSucceedsExactly(cs, f, live);
    RebuiltTreeIsTheHistory(cs, f, live);
    FirstProofAlwaysValid(cs, f, live);
    TreeOfWellFormed(cs, rebuilt);
    LevelsNonEmpty(TreeOf(cs, rebuilt).value);
    assert EntryIds(rebuilt) == EntryIds(entries);
    assert RebuiltRoot(cs, f, live) == Some(TreeOf(cs, rebuilt).value.RootHash());
  }
}
