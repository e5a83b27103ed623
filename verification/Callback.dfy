/** The pre-tool hook that issues a proof before every tool call (poi_generator/callback_handler.py). */
module Callback {
  import opened Prelude
  import opened Crypto
  import opened LedgerCore
  import opened HistoryBinding
  import opened PipelineTheorems
  import Poi

  datatype VerifiedSessionContext = VerifiedSessionContext(
    sessionId: string, userPrompt: string, systemPrompt: string, ledger: Ledger, modelId: string)

  datatype CallbackError = MissingVerifiedSessionContext | PoiNotBuilt(why: Poi.PoiError)

  /** A JSON object is bound as it is; any other input as its exact text. */
  function ActionPayload(decoded: Option<Json>, input: string): Dict {
    if decoded.Some? && decoded.value.JObj? then decoded.value.members else map["input" := JStr(input)]
  }

  /** What is recorded of a tool call. */
  function ToolCall(toolName: Json, payload: Dict, runId: string): Json {
    JObj(map["tool_name" := toolName, "input" := JObj(payload), "run_id" := JStr(runId)])
  }

  /** The signed proof for a tool call made over `entries`. */
  function IssuedPoi(cs: Suite, privateKey: Bytes, context: VerifiedSessionContext, entries: seq<LedgerEntry>,
                     payload: Dict,
                     issuedTime: string, nonce: string): Result<Poi.ProofOfIntent, Poi.PoiError>
  {
    match Poi.BuildPoi(cs, context.userPrompt, context.systemPrompt, entries, JObj(payload), context.modelId,
                       None, None, None, None, issuedTime, nonce)
    case Failure(e) => Failure(e)
    case Success(p) => Success(Poi.SignPoi(cs, p, privateKey))
  }

  /** What a tool's input is bound as. */
  predicate BindsInput(decoded: Option<Json>, input: string, payload: Dict) {
    match decoded
    case Some(JObj(members)) => payload == members
    case _ => payload == map["input" := JStr(input)]
  }

  /** The proof commits to the session's prompts, the call's payload and the ledger so far, names the session's model
      and no agent, and carries the key's signature. */
  predicate ProvesCall(cs: Suite, privateKey: Bytes, context: VerifiedSessionContext, entries: seq<LedgerEntry>,
                       payload: Dict, issuedTime: string, nonce: string, p: Poi.ProofOfIntent) {
    && CommitsTo(cs, p, Origin(context.userPrompt, context.systemPrompt, payload, Contents(entries)))
    && p.modelId == context.modelId && p.timestamp == issuedTime && p.nonce == nonce
    && p.agentType == p.agentId == p.actionType == p.policyDecision == None
    && Poi.SignedBy(cs, p, privateKey)
  }

  /** A proof can be issued: nothing required is empty, and there is context. */
  predicate Provable(context: VerifiedSessionContext, entries: seq<LedgerEntry>) {
    context.userPrompt != "" && context.systemPrompt != "" && context.modelId != "" && entries != []
  }

  lemma {:induction false} IssuesExactly(cs: Suite, privateKey: Bytes, context: VerifiedSessionContext,
                                         entries: seq<LedgerEntry>, payload: Dict, issuedTime: string, nonce: string)
    requires Intact(cs, entries)
    ensures var issued := IssuedPoi(cs, privateKey, context, entries, payload, issuedTime, nonce);
            && (issued.Success? <==> Provable(context, entries))
            && (issued.Success? ==>
                  ProvesCall(cs, privateKey, context, entries, payload, issuedTime, nonce, issued.value))
  {
    Poi.BuiltPoiCommits(cs, context.userPrompt, context.systemPrompt, entries, JObj(payload), context.modelId, None,
                        None, None, None, issuedTime, nonce);
    if Provable(context, entries) {
      var built := Poi.BuildPoi(cs, context.userPrompt, context.systemPrompt, entries, JObj(payload), context.modelId,
                                None, None, None, None, issuedTime, nonce).value;
      Poi.SigningSigns(cs, built, privateKey);
    }
  }

  lemma FreshCommitment(cs: Suite, privateKey: Bytes, context: VerifiedSessionContext, entries: seq<LedgerEntry>,
                        payload: Dict,
                        issuedTime: string, nonce: string)
    requires Intact(cs, entries)
    ensures var issued := IssuedPoi(cs, privateKey, context, entries, payload, issuedTime, nonce);
            issued.Success? ==> CommitsToPrefix(cs, issued.value, entries, |entries|)
  {
    Poi.BuiltPoiCommits(cs, context.userPrompt, context.systemPrompt, entries, JObj(payload), context.modelId, None,
                        None, None, None, issuedTime, nonce);
    assert Contents(entries)[..|entries|] == Contents(entries);
  }

  /** The proof's context root is the root of the first `k` entries. */
  predicate CommitsToPrefix(cs: Suite, p: Poi.ProofOfIntent, entries: seq<LedgerEntry>, k: nat) {
    0 < k <= |entries| && p.contextRoot == Hex(HistoryRoot(cs, Contents(entries)[..k]))
  }

  lemma CommitmentSurvivesGrowth(cs: Suite, p: Poi.ProofOfIntent, entries: seq<LedgerEntry>, grown: seq<LedgerEntry>,
                                 k: nat)
    requires CommitsToPrefix(cs, p, entries, k) && entries <= grown
    ensures CommitsToPrefix(cs, p, grown, k)
  {
    assert Contents(entries)[..k] == Contents(grown)[..k];
  }

  class PoICallbackHandler {
    const cs: Suite
    const privateKey: Bytes
    var sessions: map<string, VerifiedSessionContext>
    var poisByRunId: map<string, Poi.ProofOfIntent>
    ghost var issuedAt: map<string, (Ledger, nat)>  // for each run: the ledger, and its length at issue

    ghost function Ledgers(): set<Ledger>
      reads this
    {
      (set s | s in sessions :: sessions[s].ledger) + (set r | r in issuedAt :: issuedAt[r].0)
    }

    ghost predicate Sound(l: Ledger)
      reads l
    {
      l.cs == cs && Intact(cs, l.entries)
    }

    /** The proof's context root is the root of the ledger prefix present at issue. */
    ghost predicate Issued(p: Poi.ProofOfIntent, at: (Ledger, nat))
      reads at.0
    {
      Sound(at.0) && CommitsToPrefix(cs, p, at.0.entries, at.1)
    }

    ghost predicate Valid()
      reads this, Ledgers()
    {
      && (forall s :: s in sessions ==> Sound(sessions[s].ledger))
      && poisByRunId.Keys == issuedAt.Keys
      && (forall r :: r in poisByRunId ==> Issued(poisByRunId[r], issuedAt[r]))
    }

    constructor (cs: Suite, privateKey: Bytes)
      ensures Valid() && this.cs == cs && this.privateKey == privateKey && sessions == map[] && poisByRunId == map[]
    {
      this.cs, this.privateKey := cs, privateKey;
      sessions, poisByRunId, issuedAt := map[], map[], map[];
    }

    method RegisterVerifiedSession(context: VerifiedSessionContext)
      requires Valid() && context.ledger.cs == cs && Intact(cs, context.ledger.entries)
      modifies this
      ensures Valid() && sessions == old(sessions)[context.sessionId := context] && poisByRunId == old(poisByRunId)
    {
      sessions := sessions[context.sessionId := context];
    }

    method GetPoi(runId: string) returns (r: Option<Poi.ProofOfIntent>)
      ensures r == if runId in poisByRunId then Some(poisByRunId[runId]) else None
    {
      r := if runId in poisByRunId then Some(poisByRunId[runId]) else None;
    }

    /** The ledger a call is recorded in, if its session is verified. */
    function LedgersOf(sessionId: Option<string>): set<Ledger>
      reads this
    {
      if sessionId.Some? && sessionId.value in sessions then {sessions[sessionId.value].ledger} else {}
    }

    /** Issues over the ledger as it is, and only then records the call in it; refuses without a verified session. */
    method OnToolStart(sessionId: Option<string>, toolName: Json, input: string, decoded: Option<Json>, runId: string,
                       issuedTime: string, nonce: string, appendTime: string) returns (r: Result<(), CallbackError>)
      requires Valid()
      modifies this, LedgersOf(sessionId)
      ensures Valid() && sessions == old(sessions)
      ensures sessionId.None? || sessionId.value !in sessions ==> r == Failure(MissingVerifiedSessionContext)
      ensures r.Failure? ==> poisByRunId == old(poisByRunId) && forall l :: l in LedgersOf(sessionId) ==> unchanged(l)
      ensures r.Success? <==>
                && sessionId.Some? && sessionId.value in sessions
                && Provable(sessions[sessionId.value], old(sessions[sessionId.value].ledger.entries))
      ensures r.Success? ==>
                var context := sessions[sessionId.value];
                var payload, before := ActionPayload(decoded, input), old(context.ledger.entries);
                && BindsInput(decoded, input, payload)
                && poisByRunId.Keys == old(poisByRunId).Keys + {runId}
                && poisByRunId == old(poisByRunId)[runId := poisByRunId[runId]]
                && issuedAt[runId] == (context.ledger, |before|)
                && ProvesCall(cs, privateKey, context, before, payload, issuedTime, nonce, poisByRunId[runId])
                && AddsEntry(cs, before, context.ledger.entries, "tool_call",
                             JObj(map["tool_name" := toolName, "input" := JObj(payload), "run_id" := JStr(runId)]),
                             appendTime)
    {
      if sessionId.None? || sessionId.value !in sessions { return Failure(MissingVerifiedSessionContext); }
      var context := sessions[sessionId.value];
      r := IssueAndRecord(context, toolName, ActionPayload(decoded, input), runId, issuedTime, nonce, appendTime);
    }

    /** The same for a session at hand. */
    method IssueAndRecord(context: VerifiedSessionContext, toolName: Json, payload: Dict, runId: string,
                          issuedTime: string, nonce: string, appendTime: string) returns (r: Result<(), CallbackError>)
      requires Valid() && Sound(context.ledger)
      modifies this, context.ledger
      ensures Valid() && sessions == old(sessions)
      ensures r.Success? <==> Provable(context, old(context.ledger.entries))
      ensures r.Failure? ==> poisByRunId == old(poisByRunId) && unchanged(context.ledger)
      ensures r.Success? ==>
                var before := old(context.ledger.entries);
                && poisByRunId.Keys == old(poisByRunId).Keys + {runId}
                && poisByRunId == old(poisByRunId)[runId := poisByRunId[runId]]
                && issuedAt[runId] == (context.ledger, |before|)
                && ProvesCall(cs, privateKey, context, before, payload, issuedTime, nonce, poisByRunId[runId])
                && AddsEntry(cs, before, context.ledger.entries, "tool_call", ToolCall(toolName, payload, runId),
                             appendTime)
    {
      var issued := IssuedPoi(cs, privateKey, context, context.ledger.entries, payload, issuedTime, nonce);
      IssuesExactly(cs, privateKey, context, context.ledger.entries, payload, issuedTime, nonce);
      if issued.Failure? { return Failure(PoiNotBuilt(issued.error)); }
      FreshCommitment(cs, privateKey, context, context.ledger.entries, payload, issuedTime, nonce);
      RecordCall(runId, issued.value, context.ledger, ToolCall(toolName, payload, runId), appendTime);
      return Success(());
    }

    method RecordCall(runId: string, poi: Poi.ProofOfIntent, ledger: Ledger, call: Json, appendTime: string)
      requires Valid() && Issued(poi, (ledger, |ledger.entries|)) && call.JObj?
      modifies this, ledger
      ensures Valid() && sessions == old(sessions)
      ensures poisByRunId == old(poisByRunId)[runId := poi]
      ensures issuedAt[runId] == (ledger, |old(ledger.entries)|)
      ensures AddsEntry(cs, old(ledger.entries), ledger.entries, "tool_call", call, appendTime)
    {
      Record(runId, poi, ledger);
      AppendCall(ledger, call, appendTime);
    }

    method Record(runId: string, poi: Poi.ProofOfIntent, ledger: Ledger)
      requires Valid() && Issued(poi, (ledger, |ledger.entries|))
      modifies this
      ensures Valid() && sessions == old(sessions)
      ensures poisByRunId == old(poisByRunId)[runId := poi]
      ensures issuedAt == old(issuedAt)[runId := (ledger, |ledger.entries|)]
    {
      poisByRunId := poisByRunId[runId := poi];
      issuedAt := issuedAt[runId := (ledger, |ledger.entries|)];
    }

    method AppendCall(ledger: Ledger, call: Json, appendTime: string)
      requires Valid() && Sound(ledger) && call.JObj?
      modifies ledger
      ensures Valid()
      ensures AddsEntry(cs, old(ledger.entries), ledger.entries, "tool_call", call, appendTime)
    {
      var appended := ledger.Append("tool_call", call, appendTime);
      SurvivesGrowth(ledger);
    }

    /** Growth of one shared ledger, by whomever, leaves every issued proof committed to its prefix. */
    twostate lemma SurvivesGrowth(grown: Ledger)
      requires old(Valid()) && unchanged(this)
      requires old(grown.entries) <= grown.entries && Sound(grown)
      requires forall l: Ledger :: l != grown && old(allocated(l)) ==> l.entries == old(l.entries)
      ensures Valid()
    {
      forall run | run in poisByRunId ensures Issued(poisByRunId[run], issuedAt[run]) {
        var l := issuedAt[run].0;
        assert old(Issued(poisByRunId[run], issuedAt[run]));
        CommitmentSurvivesGrowth(cs, poisByRunId[run], old(l.entries), l.entries, issuedAt[run].1);
      }
    }
  }
}
