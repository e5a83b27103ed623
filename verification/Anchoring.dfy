/** Anchoring ledger roots with a time-stamping authority, once per root (tsa_anchor/anchor_scheduler.py). */
module Anchoring {
  import opened Prelude
  import opened Crypto
  import opened LedgerCore
  import opened Merkle
  import opened Poi
  import opened HistoryBinding

  type Instant = real

  datatype AnchorStatus = Anchored | AnchorFailed(detail: string)

  datatype AnchorRecord = AnchorRecord(
    ledgerRoot: Bytes,
    token: Option<Bytes>,
    genTime: Option<Instant>,
    anchoredAt: Instant,
    status: AnchorStatus
  )

  /** What the authority answers: a token with its time, or an error. */
  type TsaReply = Result<(Bytes, Instant), string>

  function ForRoot(records: seq<AnchorRecord>, root: Bytes): seq<AnchorRecord> {
    if records == [] then []
    else
      var n := |records| - 1;
      ForRoot(records[..n], root) + if records[n].ledgerRoot == root then [records[n]] else []
  }

  lemma {:induction false} AllForRoot(records: seq<AnchorRecord>, root: Bytes, i: nat)
    requires i < |ForRoot(records, root)|
    ensures ForRoot(records, root)[i].ledgerRoot == root
  {
    var n := |records| - 1;
    if i < |ForRoot(records[..n], root)| { AllForRoot(records[..n], root, i); }
  }

  /** The most recent anchored record of a root. */
  function LatestAnchored(records: seq<AnchorRecord>, root: Bytes): (r: Option<AnchorRecord>)
    ensures r.Some? ==> r.value in records && r.value.ledgerRoot == root && r.value.status.Anchored?
    ensures r.None? ==> forall x :: x in records ==> !(x.ledgerRoot == root && x.status.Anchored?)
  {
    if records == [] then None
    else
      var n := |records| - 1;
      assert records == records[..n] + [records[n]];
      if records[n].ledgerRoot == root && records[n].status.Anchored? then Some(records[n])
      else LatestAnchored(records[..n], root)
  }

  /** The record at `i` is anchored for the root, and none after it is. */
  predicate IsLatest(records: seq<AnchorRecord>, root: Bytes, i: nat) {
    && i < |records| && records[i].ledgerRoot == root && records[i].status.Anchored?
    && forall j :: i < j < |records| ==> !(records[j].ledgerRoot == root && records[j].status.Anchored?)
  }

  lemma {:induction false} LatestExactly(records: seq<AnchorRecord>, root: Bytes)
    ensures match LatestAnchored(records, root)
            case None => forall i: nat :: !IsLatest(records, root, i)
            case Some(record) => exists i: nat :: IsLatest(records, root, i) && records[i] == record
    ensures forall i: nat, j: nat :: IsLatest(records, root, i) && IsLatest(records, root, j) ==> i == j
  {
    if LatestAnchored(records, root).Some? {
      var n := |records| - 1;
      if records[n].ledgerRoot == root && records[n].status.Anchored? {
        assert IsLatest(records, root, n);
      } else {
        LatestExactly(records[..n], root);
        var i: nat :| IsLatest(records[..n], root, i) && records[..n][i] == LatestAnchored(records, root).value;
        assert IsLatest(records, root, i);
      }
    }
  }

  lemma {:induction false} LatestAmongForRoot(records: seq<AnchorRecord>, root: Bytes)
    ensures LatestAnchored(ForRoot(records, root), root) == LatestAnchored(records, root)
  {
    if records != [] {
      var n := |records| - 1;
      LatestAmongForRoot(records[..n], root);
      if records[n].ledgerRoot == root {
        var matching := ForRoot(records, root);
        assert matching[..|matching| - 1] == ForRoot(records[..n], root);
      } else {
        assert ForRoot(records, root) == ForRoot(records[..n], root);
      }
    }
  }

  /** What one call of `anchor_current_root` returns, adds, and asks of the authority. */
  datatype AnchorEffect = AnchorEffect(result: AnchorRecord, records: seq<AnchorRecord>, asked: Option<Bytes>)

  function AnchorStep(cs: Suite, entries: seq<LedgerEntry>, records: seq<AnchorRecord>, reply: TsaReply,
                      now: Instant): AnchorEffect {
    match TreeOf(cs, entries)
    case Failure(_) =>
      var failed := AnchorRecord([], None, None, now, AnchorFailed("no root"));
      AnchorEffect(failed, records + [failed], None)
    case Success(tree) =>
      TreeOfWellFormed(cs, entries);
      var root := tree.RootHash();
      match LatestAnchored(records, root)
      case Some(existing) => AnchorEffect(existing, records, None)
      case None =>
        var record := match reply
          case Failure(e) => AnchorRecord(root, None, None, now, AnchorFailed(e))
          case Success((token, genTime)) => AnchorRecord(root, Some(token), Some(genTime), now, Anchored);
        AnchorEffect(record, records + [record], Some(root))
  }

  /** The record of one request: the token and its time, or why there is none. */
  predicate RecordsReply(record: AnchorRecord, root: Bytes, reply: TsaReply, now: Instant) {
    && record.ledgerRoot == root && record.anchoredAt == now
    && match reply
       case Success((token, genTime)) =>
         record.status == Anchored && record.token == Some(token) && record.genTime == Some(genTime)
       case Failure(detail) => record.status == AnchorFailed(detail) && record.token == None && record.genTime == None
  }

  /** What one call does: without a tree it records the failure; for a root already anchored it returns the latest
      record and asks nobody; otherwise it asks for the root and records the reply. */
  lemma {:induction false} AnchorsExactly(cs: Suite, entries: seq<LedgerEntry>, records: seq<AnchorRecord>,
                                          reply: TsaReply, now: Instant)
    ensures var effect := AnchorStep(cs, entries, records, reply, now);
            if TreeOf(cs, entries).Failure? then
              && effect.asked == None && effect.records == records + [effect.result]
              && effect.result.ledgerRoot == [] && effect.result.token == None && effect.result.genTime == None
              && effect.result.status.AnchorFailed? && effect.result.anchoredAt == now
            else
              var root := Root(cs, LeafHashes(entries));
              if exists i: nat :: IsLatest(records, root, i) then
                && effect.asked == None && effect.records == records
                && exists i: nat :: IsLatest(records, root, i) && effect.result == records[i]
              else
                && effect.asked == Some(root) && effect.records == records + [effect.result]
                && RecordsReply(effect.result, root, reply, now)
  {
    if TreeOf(cs, entries).Success? {
      TreeOfWellFormed(cs, entries);
      LatestExactly(records, Root(cs, LeafHashes(entries)));
    }
  }

  class AnchorStore {
    var records: seq<AnchorRecord>

    constructor ()
      ensures records == []
    {
      records := [];
    }

    method Add(record: AnchorRecord) returns (r: AnchorRecord)
      modifies this
      ensures r == record && records == old(records) + [record]
    {
      records := records + [record];
      r := record;
    }

    method LatestAnchoredRecord(root: Bytes) returns (r: Option<AnchorRecord>)
      ensures r == LatestAnchored(records, root)
    {
      var matching := ForRoot(records, root);
      LatestAmongForRoot(records, root);
      var i := |matching|;
      assert matching[..i] == matching;
      while i > 0
        invariant 0 <= i <= |matching|
        invariant LatestAnchored(matching[..i], root) == LatestAnchored(matching, root)
      {
        i := i - 1;
        assert matching[..i + 1][..i] == matching[..i];
        AllForRoot(records, root, i);
        if matching[i].status.Anchored? { return Some(matching[i]); }
      }
      return None;
    }
  }

  /** The authority's client; `requests` logs every root sent. Its answers are arbitrary. */
  class TSAClient {
    var requests: seq<Bytes>
    const replies: nat -> TsaReply

    constructor (replies: nat -> TsaReply)
      ensures this.replies == replies && requests == []
    {
      this.replies := replies;
      requests := [];
    }

    method RequestTimestamp(root: Bytes) returns (reply: TsaReply)
      modifies this
      ensures requests == old(requests) + [root] && reply == replies(|old(requests)|)
    {
      reply := replies(|requests|);
      requests := requests + [root];
    }
  }

  method AnchorCurrentRoot(ledger: Ledger, client: TSAClient, store: AnchorStore,
                           now: Instant) returns (r: AnchorRecord)
    modifies client, store
    ensures var effect := AnchorStep(ledger.cs, ledger.entries, old(store.records),
                                     client.replies(|old(client.requests)|), now);
            && r == effect.result
            && store.records == effect.records
            && client.requests == old(client.requests) + (match effect.asked case None => [] case Some(root) => [root])
  {
    var built := BuildMerkleTree(ledger.cs, ledger.entries);
    if built.Failure? {
      r := store.Add(AnchorRecord([], None, None, now, AnchorFailed("no root")));
      return;
    }
    TreeOfWellFormed(ledger.cs, ledger.entries);
    var root := built.value.RootHash();
    var existing := store.LatestAnchoredRecord(root);
    if existing.Some? { return existing.value; }
    var reply := client.RequestTimestamp(root);
    match reply {
      case Failure(e) => r := store.Add(AnchorRecord(root, None, None, now, AnchorFailed(e)));
      case Success((token, genTime)) => r := store.Add(AnchorRecord(root, Some(token), Some(genTime), now, Anchored));
    }
  }

  // ---- Whole runs ----

  datatype Op = AppendOp(entryType: string, content: Json, timestamp: string) | AnchorOp(reply: TsaReply, now: Instant)

  datatype State = State(entries: seq<LedgerEntry>, records: seq<AnchorRecord>)

  function Step(cs: Suite, s: State, op: Op): State {
    match op
    case AppendOp(entryType, content, timestamp) =>
      s.(entries := s.entries + [NextEntry(cs, s.entries, entryType, content, timestamp)])
    case AnchorOp(reply, now) => s.(records := AnchorStep(cs, s.entries, s.records, reply, now).records)
  }

  /** The state before operation `i` of a run from an empty ledger and an empty store. */
  function Before(cs: Suite, ops: seq<Op>, i: nat): State
    requires i <= |ops|
  {
    if i == 0 then State([], []) else Step(cs, Before(cs, ops, i - 1), ops[i - 1])
  }

  ghost predicate OneAnchorPerRoot(records: seq<AnchorRecord>) {
    forall i, j :: 0 <= i < j < |records| && records[i].status.Anchored? && records[j].status.Anchored?
      ==> records[i].ledgerRoot != records[j].ledgerRoot
  }

  lemma {:induction false} AnchoringKeepsOne(cs: Suite, entries: seq<LedgerEntry>, records: seq<AnchorRecord>,
                                             reply: TsaReply, now: Instant)
    requires OneAnchorPerRoot(records)
    ensures OneAnchorPerRoot(AnchorStep(cs, entries, records, reply, now).records)
  {
  }

  lemma {:induction false} StepInvariant(cs: Suite, s: State, op: Op)
    requires Intact(cs, s.entries) && OneAnchorPerRoot(s.records)
    ensures Intact(cs, Step(cs, s, op).entries) && OneAnchorPerRoot(Step(cs, s, op).records)
  {
    match op
    case AppendOp(entryType, content, timestamp) =>
      var e := NextEntry(cs, s.entries, entryType, content, timestamp);
      IntactAppend(cs, s.entries, s.entries + [e], e);
    case AnchorOp(reply, now) =>
      AnchoringKeepsOne(cs, s.entries, s.records, reply, now);
  }

  lemma {:induction false} RunInvariant(cs: Suite, ops: seq<Op>, i: nat)
    requires i <= |ops|
    ensures Intact(cs, Before(cs, ops, i).entries)
    ensures OneAnchorPerRoot(Before(cs, ops, i).records)
  {
    if i > 0 {
      RunInvariant(cs, ops, i - 1);
      StepInvariant(cs, Before(cs, ops, i - 1), ops[i - 1]);
    }
  }

  predicate GrowsTo(s: State, t: State) {
    s.entries <= t.entries && s.records <= t.records
  }

  lemma {:induction false} StepGrows(cs: Suite, s: State, op: Op)
    ensures GrowsTo(s, Step(cs, s, op))
  {
  }

  lemma GrowsOn(s: State, t: State, u: State)
    requires GrowsTo(s, t) && GrowsTo(t, u)
    ensures GrowsTo(s, u)
  {
  }

  /** An anchored record stays in the store for the rest of the run. */
  lemma {:induction false} RecordsOnlyGrow(cs: Suite, ops: seq<Op>, i: nat, j: nat)
    requires i <= j <= |ops|
    ensures GrowsTo(Before(cs, ops, i), Before(cs, ops, j))
    decreases j
  {
    if i < j {
      RecordsOnlyGrow(cs, ops, i, j - 1);
      StepGrows(cs, Before(cs, ops, j - 1), ops[j - 1]);
      GrowsOn(Before(cs, ops, i), Before(cs, ops, j - 1), Before(cs, ops, j));
    }
  }

  /** The record operation `i` returns, when it anchors. */
  function Returned(cs: Suite, ops: seq<Op>, i: nat): AnchorRecord
    requires i < |ops| && ops[i].AnchorOp?
  {
    AnchorStep(cs, Before(cs, ops, i).entries, Before(cs, ops, i).records, ops[i].reply, ops[i].now).result
  }

  lemma OneAnchor(records: seq<AnchorRecord>, x: AnchorRecord, y: AnchorRecord)
    requires OneAnchorPerRoot(records) && x in records && y in records
    requires x.status.Anchored? && y.status.Anchored? && x.ledgerRoot == y.ledgerRoot
    ensures x == y
  {
    var i :| 0 <= i < |records| && records[i] == x;
    var j :| 0 <= j < |records| && records[j] == y;
  }

  lemma AnchoringAgain(cs: Suite, entries: seq<LedgerEntry>, records: seq<AnchorRecord>, reply: TsaReply, now: Instant,
                       known: AnchorRecord)
    requires OneAnchorPerRoot(records) && known in records && known.status.Anchored?
    requires TreeOf(cs, entries).Success? && known.ledgerRoot == Root(cs, LeafHashes(entries))
    ensures AnchorStep(cs, entries, records, reply, now) == AnchorEffect(known, records, None)
  {
    TreeOfWellFormed(cs, entries);
    OneAnchor(records, known, LatestAnchored(records, known.ledgerRoot).value);
  }

  /** An anchored result is stored, and is for the root of the ledger it was taken from. */
  lemma ResultIsStored(cs: Suite, entries: seq<LedgerEntry>, records: seq<AnchorRecord>, reply: TsaReply, now: Instant)
    ensures var effect := AnchorStep(cs, entries, records, reply, now);
            && effect.result in effect.records
            && (effect.result.status.Anchored? ==>
                  TreeOf(cs, entries).Success? && effect.result.ledgerRoot == Root(cs, LeafHashes(entries)))
  {
    if TreeOf(cs, entries).Success? { TreeOfWellFormed(cs, entries); }
  }

  lemma {:induction false} ReturnedIsStored(cs: Suite, ops: seq<Op>, i: nat)
    requires i < |ops| && ops[i].AnchorOp?
    ensures Returned(cs, ops, i) in Before(cs, ops, i + 1).records
    ensures Returned(cs, ops, i).status.Anchored? ==>
              && TreeOf(cs, Before(cs, ops, i).entries).Success?
              && Returned(cs, ops, i).ledgerRoot == Root(cs, LeafHashes(Before(cs, ops, i).entries))
  {
    ResultIsStored(cs, Before(cs, ops, i).entries, Before(cs, ops, i).records, ops[i].reply, ops[i].now);
  }

  lemma {:induction false} StaysStored(cs: Suite, ops: seq<Op>, i: nat, j: nat, x: AnchorRecord)
    requires i <= j <= |ops| && x in Before(cs, ops, i).records
    ensures x in Before(cs, ops, j).records
  {
    RecordsOnlyGrow(cs, ops, i, j);
    Kept(Before(cs, ops, i).records, Before(cs, ops, j).records, x);
  }

  lemma Kept(small: seq<AnchorRecord>, large: seq<AnchorRecord>, x: AnchorRecord)
    requires small <= large && x in small
    ensures x in large
  {
  }

  /** Anchoring an unchanged ledger again returns the same record, adds nothing and does not ask the authority. */
  lemma {:induction false} ReanchoringIsFree(cs: Suite, ops: seq<Op>, i: nat, j: nat)
    requires i < j < |ops| && ops[i].AnchorOp? && ops[j].AnchorOp?
    requires Before(cs, ops, i).entries == Before(cs, ops, j).entries
    requires Returned(cs, ops, i).status.Anchored?
    ensures AnchorStep(cs, Before(cs, ops, j).entries, Before(cs, ops, j).records, ops[j].reply, ops[j].now)
              == AnchorEffect(Returned(cs, ops, i), Before(cs, ops, j).records, None)
  {
    var late := Before(cs, ops, j);
    RunInvariant(cs, ops, j);
    ReturnedIsStored(cs, ops, i);
    StaysStored(cs, ops, i + 1, j, Returned(cs, ops, i));
    AnchoringAgain(cs, late.entries, late.records, ops[j].reply, ops[j].now, Returned(cs, ops, i));
  }

  /** Ledger lengths reached in one run need anchors of their own: two anchored results agree only if the ledger
      had one length, or the roots give away a collision, or the shorter ledger is a single entry mimicking a node. */
  lemma {:induction false} AnchorsTellLengthsApart(cs: Suite, ops: seq<Op>, i: nat, j: nat)
    requires JcsLaws(cs) && i < j < |ops| && ops[i].AnchorOp? && ops[j].AnchorOp?
    requires Returned(cs, ops, i).status.Anchored? && Returned(cs, ops, j) == Returned(cs, ops, i)
    ensures var a, b := Contents(Before(cs, ops, i).entries), Contents(Before(cs, ops, j).entries);
            && a != [] && b != []
            && (a == b || LoneEntryMimics(cs, a, b) || HasCollision(cs, HistoryInputs(cs, a) + HistoryInputs(cs, b)))
  {
    RunInvariant(cs, ops, i);
    RunInvariant(cs, ops, j);
    RecordsOnlyGrow(cs, ops, i, j);
    var early, late := Before(cs, ops, i).entries, Before(cs, ops, j).entries;
    assert early != [] && late != [];
    IntactTree(cs, early);
    IntactTree(cs, late);
    assert Returned(cs, ops, i).ledgerRoot == HistoryRoot(cs, Contents(early));
    assert Returned(cs, ops, j).ledgerRoot == HistoryRoot(cs, Contents(late));
    HistoryIsBound(cs, Contents(early), Contents(late));
    assert |early| <= |late|;
  }
}
