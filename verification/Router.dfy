/** The per-plan loop of the routed agent endpoint (verifier_service/main.py): record, prove, act, keep the evidence. */
module Router {
  import opened Prelude
  import opened Crypto
  import opened LedgerCore
  import opened Envelope
  import opened EvidenceStoreCore
  import opened Trace
  import opened AgentBase
  import opened PipelineTheorems
  import Poi

  const SYSTEM_PROMPT := "Route the signed request to one approved deterministic specialist."
  const MODEL_ID := "deterministic-agent-router"

  /** A verification an agent asks for while acting, with the clock readings it meets. */
  datatype Query = Query(eml: Option<Bytes>, actionId: Option<string>, agentAt: real, recordAt: real, userAt: real)

  /** What acting on plan `i` yields: the agent's result, a fresh identifier, and a new message file if there is one. */
  datatype Outcome = Outcome(result: ActionResult, uuid: string, newEml: Option<Bytes>)

  /** Everything the loop takes from outside: registered agents, their keys, their effects, clocks and nonces. */
  datatype Env = Env(
    cs: Suite,
    agents: map<string, string>,                            // agent type to agent id
    keyFor: string -> Bytes,                                // agent id to private key
    audits: (nat, ActionPlan, Poi.ProofOfIntent) -> seq<Query>,      // what the agent has verified while acting
    act: (nat, ActionPlan, Poi.ProofOfIntent) -> Option<Outcome>,    // nothing when the agent raises
    clock: (nat, nat) -> string,                            // plan, reading
    nonce: nat -> string
  )

  datatype RouteError =
    | ConfirmationRequired(plan: ActionPlan)
    | UnknownAgentType(agentType: string)
    | PoiNotBuilt(why: Poi.PoiError)
    | AgentRaised(plan: ActionPlan)

  /** Python's truth value of a JSON value. */
  predicate Truthy(j: Json) {
    match j
    case JNull => false
    case JBool(b) => b
    case JNum(literal) => literal != "0"
    case JStr(s) => s != ""
    case JArr(items) => items != []
    case JObj(members) => members != map[]
  }

  predicate Has(d: Dict, key: string) { key in d && Truthy(d[key]) }

  const AUDIT_ACTIONS := {"audit.verify_action", "audit.explain_failure", "audit.generate_report"}

  /** A plan may lean on the result before it: a report becomes a new file's content, an artifact the audited action. */
  function Completed(plan: ActionPlan, previous: Option<ActionResult>): ActionPlan {
    var withContent :=
      if plan.actionType == "file.create" && !Has(plan.payload, "content") && previous.Some?
         && Has(previous.value.details, "report_markdown")
      then plan.payload["content" := previous.value.details["report_markdown"]]
      else plan.payload;
    var withAction :=
      if plan.agentType == "audit" && plan.actionType in AUDIT_ACTIONS && !Has(withContent, "action_id")
         && previous.Some? && previous.value.artifactRef.Some? && previous.value.artifactRef.value != ""
      then withContent["action_id" := JStr(previous.value.artifactRef.value)]
      else withContent;
    plan.(payload := withAction)
  }

  function Text(t: string): Json { JObj(map["text" := JStr(t)]) }

  function PlanRecord(plan: ActionPlan): Json {
    JObj(map["agent_type" := JStr(plan.agentType), "agent_id" := Poi.OptionalStr(plan.agentId),
             "action_type" := JStr(plan.actionType), "payload" := JObj(plan.payload)])
  }

  /** The three leaves every attempted plan adds. */
  function Recorded(env: Env, entries: seq<LedgerEntry>, prompt: string, plan: ActionPlan,
                    i: nat): (grown: seq<LedgerEntry>)
    ensures entries <= grown && |grown| == |entries| + 3
  {
    var one := entries + [NextEntry(env.cs, entries, "system_prompt", Text(SYSTEM_PROMPT), env.clock(i, 0))];
    var two := one + [NextEntry(env.cs, one, "user_prompt", Text(prompt), env.clock(i, 1))];
    two + [NextEntry(env.cs, two, "agent_action", PlanRecord(plan), env.clock(i, 2))]
  }

  function AgentIdFor(plan: ActionPlan, registered: string): string {
    if plan.agentId.Some? && plan.agentId.value != "" then plan.agentId.value else registered
  }

  function KeyIdFor(plan: ActionPlan): string {
    AgentIdFor(plan, plan.agentType + "-agent")
  }

  function BuiltFor(env: Env, entries: seq<LedgerEntry>, prompt: string, plan: ActionPlan,
                    i: nat): Result<Poi.ProofOfIntent, Poi.PoiError>
    requires plan.agentType in env.agents
  {
    match Poi.BuildPoi(env.cs, prompt, SYSTEM_PROMPT, entries, JObj(plan.payload), MODEL_ID, Some(plan.agentType),
                       Some(AgentIdFor(plan, env.agents[plan.agentType])), Some(plan.actionType),
                       Some(plan.policyDecision), env.clock(i, 3), env.nonce(i))
    case Failure(e) => Failure(e)
    case Success(p) => Success(Poi.SignPoi(env.cs, p, env.keyFor(KeyIdFor(plan))))
  }

  function FactsFor(envelope: SignedEnvelope, plan: ActionPlan, p: Poi.ProofOfIntent, outcome: Outcome,
                    count: nat): EvidenceFacts {
    var ref := outcome.result.artifactRef;
    var email := plan.agentType == "email";
    EvidenceFacts(
      if email && ref.Some? && ref.value != "" then ref.value else plan.agentType + "-" + outcome.uuid,
      envelope, SYSTEM_PROMPT, count,
      if email then outcome.newEml else None,
      Some(p), Some(plan.actionType), Some(plan.payload), Some(outcome.result.observedEffect), None)
  }

  // ---- The loop, as a function ----

  datatype Done = Done(plan: ActionPlan, facts: EvidenceFacts, result: ActionResult)

  datatype PlanStep = PlanStep(entries: seq<LedgerEntry>, outcome: Result<Done, RouteError>)

  /** A plan that needs no further confirmation, once its leaves are recorded. */
  function ActOn(env: Env, envelope: SignedEnvelope, grown: seq<LedgerEntry>, full: ActionPlan,
                 i: nat): Result<Done, RouteError> {
    if full.agentType !in env.agents then Failure(UnknownAgentType(full.agentType))
    else match BuiltFor(env, grown, envelope.prompt, full, i)
      case Failure(e) => Failure(PoiNotBuilt(e))
      case Success(p) =>
        match env.act(i, full, p)
        case None => Failure(AgentRaised(full))
        case Some(outcome) => Success(Done(full, FactsFor(envelope, full, p, outcome, |grown|), outcome.result))
  }

  function RecordAndAct(env: Env, envelope: SignedEnvelope, entries: seq<LedgerEntry>, full: ActionPlan,
                        i: nat): PlanStep {
    var grown := Recorded(env, entries, envelope.prompt, full, i);
    PlanStep(grown, ActOn(env, envelope, grown, full, i))
  }

  function StepPlan(env: Env, envelope: SignedEnvelope, entries: seq<LedgerEntry>, plan: ActionPlan,
                    previous: Option<ActionResult>, i: nat): PlanStep {
    if plan.requiresConfirmation && !plan.confirmed then PlanStep(entries, Failure(ConfirmationRequired(plan)))
    else RecordAndAct(env, envelope, entries, Completed(plan, previous), i)
  }

  datatype RunResult = RunResult(entries: seq<LedgerEntry>, done: seq<Done>, error: Option<RouteError>)

  /** What plan `i` does to the ledger, given the result before it. */
  type Stepper = (nat, seq<LedgerEntry>, Option<ActionResult>) -> PlanStep

  /** Plans from the `i`-th to the `n`-th; the run stops at the first error and after the first action that fails. */
  function RunFrom(step: Stepper, n: nat, i: nat, entries: seq<LedgerEntry>, previous: Option<ActionResult>): RunResult
    requires i <= n
    decreases n - i
  {
    if i == n then RunResult(entries, [], None)
    else
      var s := step(i, entries, previous);
      match s.outcome
      case Failure(e) => RunResult(s.entries, [], Some(e))
      case Success(d) =>
        if !d.result.success then RunResult(s.entries, [d], None)
        else
          var rest := RunFrom(step, n, i + 1, s.entries, Some(d.result));
          rest.(done := [d] + rest.done)
  }

  function StepperFor(env: Env, envelope: SignedEnvelope, plans: seq<ActionPlan>): Stepper {
    (i: nat, entries: seq<LedgerEntry>, previous: Option<ActionResult>) =>
      if i < |plans| then StepPlan(env, envelope, entries, plans[i], previous, i)
      else PlanStep(entries, Failure(UnknownAgentType("")))
  }

  /** One request: every plan in order, starting with no previous result. */
  function Run(env: Env, envelope: SignedEnvelope, plans: seq<ActionPlan>, entries: seq<LedgerEntry>): RunResult {
    RunFrom(StepperFor(env, envelope, plans), |plans|, 0, entries, None)
  }

  // ---- What every run keeps ----

  /** The origin a registered action's evidence names, read off the ledger it was registered over. */
  function OriginOf(f: EvidenceFacts, entries: seq<LedgerEntry>): Origin
    requires f.actionPayload.Some? && 0 <= f.ledgerEntryCountAtAction <= |entries|
  {
    Origin(f.userEnvelope.prompt, f.systemPrompt, f.actionPayload.value,
           Contents(entries)[..f.ledgerEntryCountAtAction])
  }

  predicate Committed(cs: Suite, f: EvidenceFacts, entries: seq<LedgerEntry>) {
    && f.actionPayload.Some? && 0 <= f.ledgerEntryCountAtAction <= |entries|
    && CapturesOrigin(cs, f, OriginOf(f, entries))
  }

  lemma CommittedSurvivesGrowth(cs: Suite, f: EvidenceFacts, entries: seq<LedgerEntry>, grown: seq<LedgerEntry>)
    requires Committed(cs, f, entries) && entries <= grown
    ensures Committed(cs, f, grown)
  {
    assert OriginOf(f, entries).history == OriginOf(f, grown).history;
  }

  lemma RecordedIntact(env: Env, entries: seq<LedgerEntry>, prompt: string, plan: ActionPlan, i: nat)
    requires Intact(env.cs, entries)
    ensures Intact(env.cs, Recorded(env, entries, prompt, plan, i))
  {
    var a := NextEntry(env.cs, entries, "system_prompt", Text(SYSTEM_PROMPT), env.clock(i, 0));
    var one := entries + [a];
    IntactAppend(env.cs, entries, one, a);
    var b := NextEntry(env.cs, one, "user_prompt", Text(prompt), env.clock(i, 1));
    var two := one + [b];
    IntactAppend(env.cs, one, two, b);
    var c := NextEntry(env.cs, two, "agent_action", PlanRecord(plan), env.clock(i, 2));
    IntactAppend(env.cs, two, two + [c], c);
  }

  lemma {:induction false} ActCommits(env: Env, envelope: SignedEnvelope, grown: seq<LedgerEntry>, full: ActionPlan,
                                      i: nat)
    requires Intact(env.cs, grown) && ActOn(env, envelope, grown, full, i).Success?
    ensures Committed(env.cs, ActOn(env, envelope, grown, full, i).value.facts, grown)
  {
    var p := BuiltFor(env, grown, envelope.prompt, full, i).value;
    BuiltForCommits(env, grown, envelope.prompt, full, i);
    FactsCommit(env.cs, envelope, full, p, env.act(i, full, p).value, grown);
  }

  lemma {:induction false} FactsCommit(cs: Suite, envelope: SignedEnvelope, full: ActionPlan, p: Poi.ProofOfIntent,
                                       outcome: Outcome, grown: seq<LedgerEntry>)
    requires CommitsTo(cs, p, Origin(envelope.prompt, SYSTEM_PROMPT, full.payload, Contents(grown)))
    ensures Committed(cs, FactsFor(envelope, full, p, outcome, |grown|), grown)
  {
    assert Contents(grown)[..|grown|] == Contents(grown);
  }

  /** The evidence of an executed plan commits to its prompt, its payload as executed, and the ledger including its
      own record. */
  lemma {:induction false} StepCommits(env: Env, envelope: SignedEnvelope, entries: seq<LedgerEntry>, plan: ActionPlan,
                                       previous: Option<ActionResult>, i: nat)
    requires Intact(env.cs, entries)
    ensures StepKeeps(env.cs, entries, StepPlan(env, envelope, entries, plan, previous, i))
  {
    if !(plan.requiresConfirmation && !plan.confirmed) {
      var full := Completed(plan, previous);
      var grown := Recorded(env, entries, envelope.prompt, full, i);
      RecordedIntact(env, entries, envelope.prompt, full, i);
      if ActOn(env, envelope, grown, full, i).Success? { ActCommits(env, envelope, grown, full, i); }
    }
  }

  ghost predicate StepKeeps(cs: Suite, entries: seq<LedgerEntry>, s: PlanStep) {
    && entries <= s.entries && Intact(cs, s.entries)
    && (s.outcome.Success? ==> Committed(cs, s.outcome.value.facts, s.entries))
  }

  lemma {:induction false} BuiltForCommits(env: Env, entries: seq<LedgerEntry>, prompt: string, plan: ActionPlan,
                                           i: nat)
    requires Intact(env.cs, entries) && plan.agentType in env.agents && BuiltFor(env, entries, prompt, plan, i).Success?
    ensures CommitsTo(env.cs, BuiltFor(env, entries, prompt, plan, i).value,
                      Origin(prompt, SYSTEM_PROMPT, plan.payload, Contents(entries)))
  {
    Poi.BuiltPoiCommits(env.cs, prompt, SYSTEM_PROMPT, entries, JObj(plan.payload), MODEL_ID, Some(plan.agentType),
                        Some(AgentIdFor(plan, env.agents[plan.agentType])), Some(plan.actionType),
                        Some(plan.policyDecision), env.clock(i, 3), env.nonce(i));
  }

  ghost predicate StepperKeeps(cs: Suite, step: Stepper) {
    forall i: nat, entries: seq<LedgerEntry>, previous: Option<ActionResult>
      {:trigger StepKeeps(cs, entries, step(i, entries, previous))} ::
      Intact(cs, entries) ==> StepKeeps(cs, entries, step(i, entries, previous))
  }

  /** Every executed plan's evidence commits, and only the last plan may have failed. */
  predicate DoneKeeps(cs: Suite, done: seq<Done>, entries: seq<LedgerEntry>) {
    && (forall k :: 0 <= k < |done| ==> Committed(cs, done[k].facts, entries))
    && (forall k :: 0 <= k < |done| - 1 ==> done[k].result.success)
  }

  ghost predicate RunKeeps(cs: Suite, entries: seq<LedgerEntry>, n: nat, run: RunResult) {
    && entries <= run.entries && Intact(cs, run.entries)
    && |run.done| <= n
    && DoneKeeps(cs, run.done, run.entries)
    && (run.error.None? && |run.done| < n ==> run.done != [] && !run.done[|run.done| - 1].result.success)
  }

  lemma {:induction false} ConsKeeps(cs: Suite, entries: seq<LedgerEntry>, middle: seq<LedgerEntry>, d: Done, n: nat,
                                     rest: RunResult, run: RunResult)
    requires entries <= middle && Committed(cs, d.facts, middle) && d.result.success
    requires RunKeeps(cs, middle, n, rest) && run == rest.(done := [d] + rest.done)
    ensures RunKeeps(cs, entries, n + 1, run)
  {
    CommittedSurvivesGrowth(cs, d.facts, middle, rest.entries);
    ConsDone(cs, d, rest.done, run.entries);
  }

  /** One more executed plan in front. */
  lemma {:induction false} ConsDone(cs: Suite, d: Done, done: seq<Done>, entries: seq<LedgerEntry>)
    requires Committed(cs, d.facts, entries) && d.result.success && DoneKeeps(cs, done, entries)
    ensures DoneKeeps(cs, [d] + done, entries)
  {
    var all := [d] + done;
    forall k | 0 <= k < |all| ensures Committed(cs, all[k].facts, entries) {
      if k > 0 { assert all[k] == done[k - 1]; }
    }
    forall k | 0 <= k < |all| - 1 ensures all[k].result.success {
      if k > 0 { assert all[k] == done[k - 1]; }
    }
  }

  lemma {:induction false} LastKeeps(cs: Suite, entries: seq<LedgerEntry>, s: PlanStep, n: nat)
    requires n > 0 && StepKeeps(cs, entries, s)
    ensures s.outcome.Failure? ==> RunKeeps(cs, entries, n, RunResult(s.entries, [], Some(s.outcome.error)))
    ensures s.outcome.Success? && !s.outcome.value.result.success ==>
              RunKeeps(cs, entries, n, RunResult(s.entries, [s.outcome.value], None))
  {
  }

  lemma {:induction false} RunGoesOn(step: Stepper, n: nat, i: nat, entries: seq<LedgerEntry>,
                                     previous: Option<ActionResult>)
    requires i < n && step(i, entries, previous).outcome.Success?
    requires step(i, entries, previous).outcome.value.result.success
    ensures var s := step(i, entries, previous);
            var rest := RunFrom(step, n, i + 1, s.entries, Some(s.outcome.value.result));
            RunFrom(step, n, i, entries, previous) == rest.(done := [s.outcome.value] + rest.done)
  {
  }

  lemma {:induction false} RunStops(step: Stepper, n: nat, i: nat, entries: seq<LedgerEntry>,
                                    previous: Option<ActionResult>)
    requires i < n
    ensures var s := step(i, entries, previous);
            && (s.outcome.Failure? ==>
                  RunFrom(step, n, i, entries, previous) == RunResult(s.entries, [], Some(s.outcome.error)))
            && (s.outcome.Success? && !s.outcome.value.result.success ==>
                  RunFrom(step, n, i, entries, previous) == RunResult(s.entries, [s.outcome.value], None))
  {
  }

  lemma {:induction false} GoesOnKeeps(cs: Suite, step: Stepper, n: nat, i: nat, entries: seq<LedgerEntry>,
                                       previous: Option<ActionResult>, s: PlanStep, rest: RunResult)
    requires i < n && s == step(i, entries, previous) && StepKeeps(cs, entries, s)
    requires s.outcome.Success? && s.outcome.value.result.success
    requires rest == RunFrom(step, n, i + 1, s.entries, Some(s.outcome.value.result))
    requires RunKeeps(cs, s.entries, n - i - 1, rest)
    ensures RunKeeps(cs, entries, n - i, RunFrom(step, n, i, entries, previous))
  {
    RunGoesOn(step, n, i, entries, previous);
    ConsKeeps(cs, entries, s.entries, s.outcome.value, n - i - 1, rest, rest.(done := [s.outcome.value] + rest.done));
  }

  lemma {:induction false} StopsKeeps(cs: Suite, step: Stepper, n: nat, i: nat, entries: seq<LedgerEntry>,
                                      previous: Option<ActionResult>, s: PlanStep)
    requires i < n && s == step(i, entries, previous) && StepKeeps(cs, entries, s)
    requires s.outcome.Failure? || !s.outcome.value.result.success
    ensures RunKeeps(cs, entries, n - i, RunFrom(step, n, i, entries, previous))
  {
    LastKeeps(cs, entries, s, n - i);
    RunStops(step, n, i, entries, previous);
  }

  lemma {:induction false} NothingKeeps(cs: Suite, entries: seq<LedgerEntry>)
    requires Intact(cs, entries)
    ensures RunKeeps(cs, entries, 0, RunResult(entries, [], None))
  {
  }

  lemma {:induction false} StepIntact(cs: Suite, entries: seq<LedgerEntry>, s: PlanStep)
    requires StepKeeps(cs, entries, s)
    ensures Intact(cs, s.entries)
  {
  }

  lemma {:induction false} RunFromKeeps(cs: Suite, step: Stepper, n: nat, i: nat, entries: seq<LedgerEntry>,
                                        previous: Option<ActionResult>)
    requires i <= n && StepperKeeps(cs, step) && Intact(cs, entries)
    ensures RunKeeps(cs, entries, n - i, RunFrom(step, n, i, entries, previous))
    decreases n - i
  {
    if i == n {
      NothingKeeps(cs, entries);
    } else {
      var s := step(i, entries, previous);
      assert StepKeeps(cs, entries, s);
      StepIntact(cs, entries, s);
      if s.outcome.Success? && s.outcome.value.result.success {
        RunFromKeeps(cs, step, n, i + 1, s.entries, Some(s.outcome.value.result));
        GoesOnKeeps(cs, step, n, i, entries, previous, s, RunFrom(step, n, i + 1, s.entries,
                                                                  Some(s.outcome.value.result)));
      } else {
        StopsKeeps(cs, step, n, i, entries, previous, s);
      }
    }
  }

  /** Over a whole request the ledger only grows and stays intact, every executed plan's evidence is committed at the
      end, only the last executed plan can have failed, and a run cut short without an error ends in a failure. */
  lemma {:induction false} RunCommits(env: Env, envelope: SignedEnvelope, plans: seq<ActionPlan>,
                                      entries: seq<LedgerEntry>)
    requires Intact(env.cs, entries)
    ensures RunKeeps(env.cs, entries, |plans|, Run(env, envelope, plans, entries))
  {
    var step := StepperFor(env, envelope, plans);
    StepperForKeeps(env, envelope, plans);
    RunFromKeeps(env.cs, step, |plans|, 0, entries, None);
  }

  lemma {:induction false} StepperForKeeps(env: Env, envelope: SignedEnvelope, plans: seq<ActionPlan>)
    ensures StepperKeeps(env.cs, StepperFor(env, envelope, plans))
  {
    var step := StepperFor(env, envelope, plans);
    forall i: nat, entries: seq<LedgerEntry>, previous: Option<ActionResult> | Intact(env.cs, entries)
      ensures StepKeeps(env.cs, entries, step(i, entries, previous))
    {
      if i < |plans| { StepCommits(env, envelope, entries, plans[i], previous, i); }
    }
  }

  /** Evidence from any run, looked up by action id after any later growth of the ledger, passes its hash and Merkle
      links. */
  lemma {:induction false} RunStaysVerifiable(env: Env, envelope: SignedEnvelope, plans: seq<ActionPlan>,
                                              entries: seq<LedgerEntry>, live: seq<LedgerEntry>,
                                              f: EvidenceFacts, k: nat, o: Outside, s: Snapshot)
    requires Intact(env.cs, entries) && Intact(env.cs, live)
    requires Run(env, envelope, plans, entries).entries <= live
    requires k < |Run(env, envelope, plans, entries).done| && f == Run(env, envelope, plans, entries).done[k].facts
    requires f.emlBytes.Some? ==> o.parseEml(f.emlBytes.value).Some?
    ensures ThreeLinksPass(Verify(env.cs, o, s, None, Some(f.actionId), Some(f), live))
  {
    var run := Run(env, envelope, plans, entries);
    RunCommits(env, envelope, plans, entries);
    CommittedVerifies(env.cs, f, run.entries, live, o, s);
  }

  lemma {:induction false} CommittedVerifies(cs: Suite, f: EvidenceFacts, entries: seq<LedgerEntry>,
                                             live: seq<LedgerEntry>, o: Outside, s: Snapshot)
    requires Committed(cs, f, entries) && entries <= live && Intact(cs, live)
    requires f.emlBytes.Some? ==> o.parseEml(f.emlBytes.value).Some?
    ensures ThreeLinksPass(Verify(cs, o, s, None, Some(f.actionId), Some(f), live))
  {
    var g := OriginOf(f, entries);
    assert g.history <= Contents(live);
    IssuedStaysVerifiable(cs, o, s, Some(f.actionId), f, live, g);
  }
}
