/** Evidence captured at action time, and its durable form (verification_portal/backend/evidence_store.py). */
module EvidenceStoreCore {
  import opened Prelude
  import opened Crypto
  import opened LedgerCore
  import opened Envelope
  import Poi

  /** Everything captured about an action except the ledger, which is shared and keeps growing. */
  datatype EvidenceFacts = EvidenceFacts(
    actionId: string,
    userEnvelope: SignedEnvelope,
    systemPrompt: string,
    ledgerEntryCountAtAction: int,
    emlBytes: Option<Bytes>,
    poi: Option<Poi.ProofOfIntent>,
    actionType: Option<string>,
    actionPayload: Option<Dict>,
    observedEffect: Option<Dict>,
    timestampToken: Option<Bytes>
  )

  datatype ActionEvidence = ActionEvidence(facts: EvidenceFacts, ledger: Ledger)

  // ---- The durable form: hash columns in hexadecimal, byte strings in base64 ----

  datatype StoredEntry = StoredEntry(
    entryId: int, entryType: string, content: Json, timestamp: string, prevHash: string, leafHash: string)

  datatype StoredEvidence = StoredEvidence(
    userEnvelope: SignedEnvelope,
    systemPrompt: string,
    ledgerEntryCountAtAction: int,
    ledgerEntries: seq<StoredEntry>,
    emlBytes: Option<string>,
    poi: Option<Poi.ProofOfIntent>,
    actionType: Option<string>,
    actionPayload: Option<Dict>,
    observedEffect: Option<Dict>,
    timestampToken: Option<string>
  )

  ghost predicate Base64Law(cs: Suite) {
    forall b :: cs.unbase64(cs.base64(b)) == Some(b)
  }

  function StoreEntry(e: LedgerEntry): StoredEntry {
    StoredEntry(e.entryId, e.entryType, e.content, e.timestamp, Hex(e.prevHash), Hex(e.leafHash))
  }

  function LoadEntry(s: StoredEntry): Option<LedgerEntry> {
    match (FromHex(s.prevHash), FromHex(s.leafHash))
    case (Some(prev), Some(leaf)) => Some(LedgerEntry(s.entryId, s.entryType, s.content, s.timestamp, prev, leaf))
    case _ => None
  }

  function StoreEntries(entries: seq<LedgerEntry>): seq<StoredEntry> {
    if entries == [] then [] else [StoreEntry(entries[0])] + StoreEntries(entries[1..])
  }

  function LoadEntries(stored: seq<StoredEntry>): Option<seq<LedgerEntry>> {
    if stored == [] then Some([])
    else match (LoadEntry(stored[0]), LoadEntries(stored[1..]))
      case (Some(e), Some(rest)) => Some([e] + rest)
      case _ => None
  }

  function StoreBytes(cs: Suite, b: Option<Bytes>): Option<string> {
    match b
    case None => None
    case Some(v) => Some(cs.base64(v))
  }

  /** `Some(None)` is an absent field; `None` is a text that does not decode. */
  function LoadBytes(cs: Suite, s: Option<string>): Option<Option<Bytes>> {
    match s
    case None => Some(None)
    case Some(text) =>
      match cs.unbase64(text)
      case None => None
      case Some(v) => Some(Some(v))
  }

  /** Only the leaves present at action time are kept. */
  function Serialize(cs: Suite, f: EvidenceFacts, entries: seq<LedgerEntry>): StoredEvidence {
    StoredEvidence(f.userEnvelope, f.systemPrompt, f.ledgerEntryCountAtAction,
                   StoreEntries(Take(entries, f.ledgerEntryCountAtAction)),
                   StoreBytes(cs, f.emlBytes), f.poi, f.actionType, f.actionPayload, f.observedEffect,
                   StoreBytes(cs, f.timestampToken))
  }

  function Deserialize(cs: Suite, actionId: string, s: StoredEvidence): Option<(EvidenceFacts, seq<LedgerEntry>)> {
    match (LoadEntries(s.ledgerEntries), LoadBytes(cs, s.emlBytes), LoadBytes(cs, s.timestampToken))
    case (Some(entries), Some(eml), Some(token)) =>
      Some((EvidenceFacts(actionId, s.userEnvelope, s.systemPrompt, s.ledgerEntryCountAtAction, eml, s.poi,
                          s.actionType, s.actionPayload, s.observedEffect, token), entries))
    case _ => None
  }

  lemma {:induction false} EntriesRoundTrip(entries: seq<LedgerEntry>)
    ensures LoadEntries(StoreEntries(entries)) == Some(entries)
  {
    if entries != [] {
      HexRoundTrip(entries[0].prevHash);
      HexRoundTrip(entries[0].leafHash);
      EntriesRoundTrip(entries[1..]);
      assert StoreEntries(entries)[1..] == StoreEntries(entries[1..]);
      assert [entries[0]] + entries[1..] == entries;
    }
  }

  lemma BytesRoundTrip(cs: Suite, b: Option<Bytes>)
    requires Base64Law(cs)
    ensures LoadBytes(cs, StoreBytes(cs, b)) == Some(b)
  {
  }

  /** Stored evidence comes back as it was, its ledger cut to the leaves it committed to, their hashes intact. */
  lemma {:induction false} RoundTrip(cs: Suite, f: EvidenceFacts, entries: seq<LedgerEntry>)
    requires Base64Law(cs)
    ensures Deserialize(cs, f.actionId, Serialize(cs, f, entries))
              == Some((f, Take(entries, f.ledgerEntryCountAtAction)))
  {
    EntriesRoundTrip(Take(entries, f.ledgerEntryCountAtAction));
    BytesRoundTrip(cs, f.emlBytes);
    BytesRoundTrip(cs, f.timestampToken);
  }

  // ---- The store ----

  datatype StoreError = CorruptEvidence(actionId: string)

  /** What there is to know about an action: nothing, a saved record that does not decode, or its facts and the ledger
      they are over, as it now reads. */
  datatype Known = Nothing | Damaged(actionId: string) | Evidence(facts: EvidenceFacts, live: seq<LedgerEntry>)

  class EvidencePersistence {
    var saved: map<string, StoredEvidence>

    constructor ()
      ensures saved == map[]
    {
      saved := map[];
    }
  }

  class ActionEvidenceStore {
    const cs: Suite
    const persistence: EvidencePersistence?
    var evidence: map<string, ActionEvidence>

    constructor (cs: Suite, persistence: EvidencePersistence?)
      ensures this.cs == cs && this.persistence == persistence && evidence == map[]
    {
      this.cs := cs;
      this.persistence := persistence;
      evidence := map[];
    }

    method Register(e: ActionEvidence)
      modifies this, persistence
      ensures evidence == old(evidence)[e.facts.actionId := e]
      ensures persistence != null ==>
                persistence.saved
                  == old(persistence.saved)[e.facts.actionId := Serialize(cs, e.facts, old(e.ledger.entries))]
    {
      evidence := evidence[e.facts.actionId := e];
      if persistence != null {
        persistence.saved := persistence.saved[e.facts.actionId := Serialize(cs, e.facts, e.ledger.entries)];
      }
    }

    /** What is loaded wins; otherwise what is saved counts. */
    function Find(actionId: string): Known
      reads this, persistence, if actionId in evidence then {evidence[actionId].ledger} else {}
    {
      if actionId in evidence then Evidence(evidence[actionId].facts, evidence[actionId].ledger.entries)
      else if persistence == null || actionId !in persistence.saved then Nothing
      else match Deserialize(cs, actionId, persistence.saved[actionId])
        case None => Damaged(actionId)
        case Some((facts, entries)) => Evidence(facts, entries)
    }

    /** What a lookup does to the store: a saved record not yet loaded is loaded over a ledger of its own, and kept. */
    twostate predicate Loads(actionId: string)
      reads this, if actionId in evidence then {evidence[actionId].ledger} else {}
    {
      if actionId in old(evidence) || !old(Find(actionId)).Evidence? then evidence == old(evidence)
      else
        && actionId in evidence && evidence == old(evidence)[actionId := evidence[actionId]]
        && fresh(evidence[actionId].ledger) && evidence[actionId].ledger.cs == cs
        && Evidence(evidence[actionId].facts, evidence[actionId].ledger.entries) == old(Find(actionId))
    }

    method Get(actionId: string) returns (r: Result<Option<ActionEvidence>, StoreError>)
      modifies this
      ensures Loads(actionId)
      ensures match old(Find(actionId))
              case Damaged(id) => r == Failure(CorruptEvidence(id))
              case Nothing => r == Success(None)
              case Evidence(_, _) => actionId in evidence && r == Success(Some(evidence[actionId]))
      ensures actionId in old(evidence) ==> evidence == old(evidence) && r == Success(Some(evidence[actionId]))
      ensures actionId !in old(evidence) && (persistence == null || actionId !in persistence.saved) ==>
                r == Success(None) && evidence == old(evidence)
      ensures actionId !in old(evidence) && persistence != null && actionId in persistence.saved ==>
                var decoded := Deserialize(cs, actionId, persistence.saved[actionId]);
                && (r.Failure? <==> decoded == None)
                && (decoded.Some? ==>
                      && r.Success? && r.value.Some? && evidence == old(evidence)[actionId := r.value.value]
                      && r.value.value.facts == decoded.value.0 && fresh(r.value.value.ledger)
                      && r.value.value.ledger.entries == decoded.value.1)
    {
      if actionId in evidence { return Success(Some(evidence[actionId])); }
      if persistence == null { return Success(None); }
      if actionId !in persistence.saved { return Success(None); }
      var decoded := Deserialize(cs, actionId, persistence.saved[actionId]);
      if decoded.None? { return Failure(CorruptEvidence(actionId)); }
      var (facts, entries) := decoded.value;
      var ledger := new Ledger.FromEntries(cs, entries);
      var loaded := ActionEvidence(facts, ledger);
      evidence := evidence[actionId := loaded];
      return Success(Some(loaded));
    }

    // ---- Requests, which may name no action ----

    function Request(id: Option<string>): Known
      reads this, persistence, if id.Some? && id.value in evidence then {evidence[id.value].ledger} else {}
    {
      if id.Some? && id.value != "" then Find(id.value) else Nothing
    }

    twostate predicate Answers(id: Option<string>)
      reads this, if id.Some? && id.value in evidence then {evidence[id.value].ledger} else {}
    {
      if id.Some? && id.value != "" then Loads(id.value) else evidence == old(evidence)
    }

    /** After a request memory holds what it held, and at most one record more, as it was saved. */
    twostate lemma AnswersAdd(id: Option<string>)
      requires Answers(id)
      ensures forall i :: i in old(evidence) ==> i in evidence && evidence[i] == old(evidence)[i]
      ensures forall i :: i in evidence && i !in old(evidence) ==>
                && fresh(evidence[i].ledger) && evidence[i].ledger.cs == cs
                && persistence != null && i in old(persistence.saved)
                && Deserialize(cs, i, old(persistence.saved)[i])
                     == Some((evidence[i].facts, evidence[i].ledger.entries))
    {
      if id.Some? && id.value != "" && evidence != old(evidence) {
        assert old(Find(id.value)).Evidence? && id.value !in old(evidence);
      }
    }
  }
}
