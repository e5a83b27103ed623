/** What a request to the routed agents does, plan by plan: which plans are executed, as what, and why a run stops. */
module RunMeaning {
  import opened Prelude
  import opened Crypto
  import opened LedgerCore
  import opened Envelope
  import opened EvidenceStoreCore
  import opened PipelineTheorems
  import opened AgentBase
  import opened Router
  import Poi

  // ---- A plan as it is carried out ----

  /** The key is missing, or its value counts as false in Python. */
  predicate Lacks(d: Dict, key: string) {
    key in d ==> var j := d[key];
                 || j == JNull || j == JBool(false) || j == JNum("0")
                 || j == JStr("") || j == JArr([]) || j == JObj(map[])
  }

  predicate SameAt(a: Dict, b: Dict, key: string) {
    (key in a <==> key in b) && (key in a ==> a[key] == b[key])
  }

  /** A new file without content takes the report of the result before it. */
  predicate TakesReport(plan: ActionPlan, previous: Option<ActionResult>) {
    && plan.actionType == "file.create" && Lacks(plan.payload, "content")
    && previous.Some? && !Lacks(previous.value.details, "report_markdown")
  }

  /** An audit without an action takes the artifact of the result before it. */
  predicate TakesArtifact(plan: ActionPlan, previous: Option<ActionResult>) {
    && plan.agentType == "audit"
    && plan.actionType in {"audit.verify_action", "audit.explain_failure", "audit.generate_report"}
    && Lacks(plan.payload, "action_id")
    && previous.Some? && previous.value.artifactRef.Some? && previous.value.artifactRef.value != ""
  }

  /** `full` is the plan with at most these two gaps in its payload filled. */
  ghost predicate Fills(plan: ActionPlan, previous: Option<ActionResult>, full: ActionPlan) {
    && full == plan.(payload := full.payload)
    && (forall key :: key != "content" && key != "action_id" ==> SameAt(plan.payload, full.payload, key))
    && (if TakesReport(plan, previous) then
          SameAt(map["content" := previous.value.details["report_markdown"]], full.payload, "content")
        else SameAt(plan.payload, full.payload, "content"))
    && (if TakesArtifact(plan, previous) then
          SameAt(map["action_id" := JStr(previous.value.artifactRef.value)], full.payload, "action_id")
        else SameAt(plan.payload, full.payload, "action_id"))
  }

  // ---- What is recorded of it ----

  predicate EntryIs(e: LedgerEntry, id: int, entryType: string, content: Json, timestamp: string) {
    e.entryId == id && e.entryType == entryType && e.content == content && e.timestamp == timestamp
  }

  /** The ledger gains three entries: the system prompt, the user's prompt, and the action. */
  predicate Logged(env: Env, prompt: string, full: ActionPlan, i: nat, before: seq<LedgerEntry>,
                   after: seq<LedgerEntry>) {
    var n := |before|;
    && before <= after && |after| == n + 3
    && EntryIs(after[n], n + 1, "system_prompt",
               JObj(map["text" := JStr("Route the signed request to one approved deterministic specialist.")]),
               env.clock(i, 0))
    && EntryIs(after[n + 1], n + 2, "user_prompt", JObj(map["text" := JStr(prompt)]), env.clock(i, 1))
    && EntryIs(after[n + 2], n + 3, "agent_action",
               JObj(map["agent_type" := JStr(full.agentType),
                        "agent_id" := if full.agentId.Some? then JStr(full.agentId.value) else JNull,
                        "action_type" := JStr(full.actionType), "payload" := JObj(full.payload)]),
               env.clock(i, 2))
  }

  // ---- What is signed for it ----

  /** The agent a plan is carried out as: the one it names, or else the one registered for its type. */
  predicate ActsAs(env: Env, full: ActionPlan, agentId: string) {
    && full.agentType in env.agents
    && agentId == if full.agentId.Some? && full.agentId.value != "" then full.agentId.value
                  else env.agents[full.agentType]
  }

  /** The proof names the plan as carried out, and commits to both prompts, its payload and the ledger with its own
      record. */
  predicate Proves(env: Env, envelope: SignedEnvelope, full: ActionPlan, i: nat, entries: seq<LedgerEntry>,
                   p: Poi.ProofOfIntent) {
    && p.modelId == "deterministic-agent-router" && p.timestamp == env.clock(i, 3) && p.nonce == env.nonce(i)
    && p.agentType == Some(full.agentType) && p.agentId.Some? && ActsAs(env, full, p.agentId.value)
    && p.actionType == Some(full.actionType) && p.policyDecision == Some(full.policyDecision)
    && Poi.SignedBy(env.cs, p, env.keyFor(if full.agentId.Some? && full.agentId.value != ""
                                          then full.agentId.value else full.agentType + "-agent"))
    && CommitsTo(env.cs, p, Origin(envelope.prompt,
                                   "Route the signed request to one approved deterministic specialist.",
                                   full.payload, Contents(entries)))
  }

  /** The evidence kept is of this plan, this proof and this outcome, over a ledger of `count` entries. An email's
      action is called after its artifact, any other by a fresh name. */
  predicate Captures(envelope: SignedEnvelope, full: ActionPlan, p: Poi.ProofOfIntent, outcome: Outcome, count: nat,
                     f: EvidenceFacts) {
    && f.actionId == (if full.agentType == "email" && outcome.result.artifactRef.Some?
                         && outcome.result.artifactRef.value != ""
                      then outcome.result.artifactRef.value else full.agentType + "-" + outcome.uuid)
    && f.userEnvelope == envelope && f.ledgerEntryCountAtAction == count
    && f.systemPrompt == "Route the signed request to one approved deterministic specialist."
    && f.emlBytes == (if full.agentType == "email" then outcome.newEml else None)
    && f.poi == Some(p) && f.actionType == Some(full.actionType) && f.actionPayload == Some(full.payload)
    && f.observedEffect == Some(outcome.result.observedEffect) && f.timestampToken == None
  }

  // ---- One plan ----

  predicate Confirmed(plan: ActionPlan) {
    plan.requiresConfirmation ==> plan.confirmed
  }

  /** The plan was proved, carried out, and its evidence kept. */
  ghost predicate ActsOut(env: Env, envelope: SignedEnvelope, i: nat, after: seq<LedgerEntry>, d: Done) {
    exists p, outcome ::
      && Proves(env, envelope, d.plan, i, after, p) && env.act(i, d.plan, p) == Some(outcome)
      && d.result == outcome.result && Captures(envelope, d.plan, p, outcome, |after|, d.facts)
  }

  /** The plan was confirmed if it had to be, completed, recorded, proved, carried out by its agent, and its evidence
      kept. */
  ghost predicate Executes(env: Env, envelope: SignedEnvelope, plan: ActionPlan, previous: Option<ActionResult>, i: nat,
                           before: seq<LedgerEntry>, after: seq<LedgerEntry>, d: Done) {
    && Confirmed(plan) && Fills(plan, previous, d.plan) && Logged(env, envelope.prompt, d.plan, i, before, after)
    && ActsOut(env, envelope, i, after, d)
  }

  /** No proof can be built: the prompt is empty, or the proof would name something empty. */
  predicate CannotProve(env: Env, envelope: SignedEnvelope, full: ActionPlan, why: Poi.PoiError)
    requires full.agentType in env.agents
  {
    var agentId := if full.agentId.Some? && full.agentId.value != "" then full.agentId.value
                   else env.agents[full.agentType];
    var namesNothing := full.agentType == "" || agentId == "" || full.actionType == "" || full.policyDecision == "";
    if envelope.prompt == "" then why.FieldsRequired? else namesNothing && why.InvalidField?
  }

  /** Why a plan that was recorded is not executed: its agent is unknown, no proof can be built, or its agent raises. */
  ghost predicate StopsAs(env: Env, envelope: SignedEnvelope, full: ActionPlan, i: nat, after: seq<LedgerEntry>,
                          e: RouteError) {
    match e
    case ConfirmationRequired(_) => false
    case UnknownAgentType(name) => name == full.agentType && full.agentType !in env.agents
    case PoiNotBuilt(why) => full.agentType in env.agents && CannotProve(env, envelope, full, why)
    case AgentRaised(raised) =>
      raised == full && exists p :: Proves(env, envelope, full, i, after, p) && env.act(i, full, p) == None
  }

  /** Why a plan ends the run. Only an unconfirmed one does so before anything is recorded. */
  ghost predicate Refuses(env: Env, envelope: SignedEnvelope, plan: ActionPlan, previous: Option<ActionResult>, i: nat,
                          before: seq<LedgerEntry>, after: seq<LedgerEntry>, e: RouteError) {
    if !Confirmed(plan) then e == ConfirmationRequired(plan) && after == before
    else exists full ::
      && Fills(plan, previous, full) && Logged(env, envelope.prompt, full, i, before, after)
      && StopsAs(env, envelope, full, i, after, e)
  }

  lemma {:induction false} CompletedFills(plan: ActionPlan, previous: Option<ActionResult>)
    ensures Fills(plan, previous, Completed(plan, previous))
  {
    var full := Completed(plan, previous);
    HasOrLacks(plan.payload, "content");
    HasOrLacks(plan.payload, "action_id");
    if previous.Some? { HasOrLacks(previous.value.details, "report_markdown"); }
  }

  lemma HasOrLacks(d: Dict, key: string)
    ensures Has(d, key) <==> !Lacks(d, key)
  {
  }

  lemma {:induction false} RecordedIsLogged(env: Env, entries: seq<LedgerEntry>, prompt: string, full: ActionPlan,
                                            i: nat)
    ensures Logged(env, prompt, full, i, entries, Recorded(env, entries, prompt, full, i))
  {
  }

  lemma {:induction false} BuiltIsProof(env: Env, envelope: SignedEnvelope, entries: seq<LedgerEntry>, full: ActionPlan,
                                        i: nat)
    requires Intact(env.cs, entries) && entries != [] && full.agentType in env.agents
    ensures match BuiltFor(env, entries, envelope.prompt, full, i)
            case Failure(why) => CannotProve(env, envelope, full, why)
            case Success(p) => Proves(env, envelope, full, i, entries, p)
  {
    var agentId := AgentIdFor(full, env.agents[full.agentType]);
    Poi.BuiltPoiCommits(env.cs, envelope.prompt, SYSTEM_PROMPT, entries, JObj(full.payload), MODEL_ID,
                        Some(full.agentType), Some(agentId), Some(full.actionType), Some(full.policyDecision),
                        env.clock(i, 3), env.nonce(i));
    var built := Poi.BuildPoi(env.cs, envelope.prompt, SYSTEM_PROMPT, entries, JObj(full.payload), MODEL_ID,
                              Some(full.agentType), Some(agentId), Some(full.actionType), Some(full.policyDecision),
                              env.clock(i, 3), env.nonce(i));
    if built.Success? {
      Poi.SigningSigns(env.cs, built.value, env.keyFor(KeyIdFor(full)));
      BuiltForCommits(env, entries, envelope.prompt, full, i);
    }
  }

  /** One plan, over an intact ledger, is executed or refused as stated. */
  ghost predicate StepIs(env: Env, envelope: SignedEnvelope, plan: ActionPlan, previous: Option<ActionResult>, i: nat,
                         before: seq<LedgerEntry>, s: PlanStep) {
    match s.outcome
    case Success(d) => Executes(env, envelope, plan, previous, i, before, s.entries, d)
    case Failure(e) => Refuses(env, envelope, plan, previous, i, before, s.entries, e)
  }

  lemma {:induction false} ActIs(env: Env, envelope: SignedEnvelope, plan: ActionPlan, previous: Option<ActionResult>,
                                 i: nat, before: seq<LedgerEntry>, grown: seq<LedgerEntry>, full: ActionPlan)
    requires Confirmed(plan) && Fills(plan, previous, full) && Logged(env, envelope.prompt, full, i, before, grown)
    requires Intact(env.cs, grown)
    ensures StepIs(env, envelope, plan, previous, i, before,
                   PlanStep(grown, ActOn(env, envelope, grown, full, i)))
  {
    var r := ActOn(env, envelope, grown, full, i);
    if r.Failure? {
      StopIs(env, envelope, full, i, grown);
    } else {
      ActedIs(env, envelope, full, i, grown);
    }
  }

  lemma {:induction false} StopIs(env: Env, envelope: SignedEnvelope, full: ActionPlan, i: nat, grown: seq<LedgerEntry>)
    requires Intact(env.cs, grown) && grown != [] && ActOn(env, envelope, grown, full, i).Failure?
    ensures StopsAs(env, envelope, full, i, grown, ActOn(env, envelope, grown, full, i).error)
  {
    if full.agentType in env.agents { BuiltIsProof(env, envelope, grown, full, i); }
  }

  lemma {:induction false} ActedIs(env: Env, envelope: SignedEnvelope, full: ActionPlan, i: nat,
                                   grown: seq<LedgerEntry>)
    requires Intact(env.cs, grown) && grown != [] && ActOn(env, envelope, grown, full, i).Success?
    ensures var d := ActOn(env, envelope, grown, full, i).value;
            d.plan == full && ActsOut(env, envelope, i, grown, d)
  {
    BuiltIsProof(env, envelope, grown, full, i);
    var p := BuiltFor(env, grown, envelope.prompt, full, i).value;
    CaptureIs(envelope, full, p, env.act(i, full, p).value, |grown|);
  }

  lemma CaptureIs(envelope: SignedEnvelope, full: ActionPlan, p: Poi.ProofOfIntent, outcome: Outcome, count: nat)
    ensures Captures(envelope, full, p, outcome, count, FactsFor(envelope, full, p, outcome, count))
  {
  }

  lemma {:induction false} PlanExactly(env: Env, envelope: SignedEnvelope, plan: ActionPlan,
                                       previous: Option<ActionResult>, i: nat, before: seq<LedgerEntry>)
    requires Intact(env.cs, before)
    ensures StepIs(env, envelope, plan, previous, i, before, StepPlan(env, envelope, before, plan, previous, i))
  {
    if Confirmed(plan) {
      var full := Completed(plan, previous);
      CompletedFills(plan, previous);
      RecordedIsLogged(env, before, envelope.prompt, full, i);
      RecordedIntact(env, before, envelope.prompt, full, i);
      ActIs(env, envelope, plan, previous, i, before, Recorded(env, before, envelope.prompt, full, i), full);
    }
  }

  // ---- A whole request ----

  /** The result plan `k` of a run may lean on. */
  function ResultBefore(first: Option<ActionResult>, done: seq<Done>, k: nat): Option<ActionResult>
    requires k <= |done|
  {
    if k == 0 then first else Some(done[k - 1].result)
  }

  /** Step `j` of such a run. */
  predicate Goes(step: Stepper, i: nat, first: Option<ActionResult>, done: seq<Done>, ledgers: seq<seq<LedgerEntry>>,
                 j: nat)
    requires j < |done| < |ledgers|
  {
    step(i + j, ledgers[j], ResultBefore(first, done, j)) == PlanStep(ledgers[j + 1], Success(done[j]))
  }

  /** The run from plan `i` on goes through these ledgers, one step per executed plan, and ends as it does because
      the plans are used up, the last action failed, or the next step is an error. */
  ghost predicate Steps(step: Stepper, n: nat, i: nat, first: Option<ActionResult>, run: RunResult,
                        ledgers: seq<seq<LedgerEntry>>) {
    var k := |run.done|;
    && |ledgers| == k + 1 && i + k <= n
    && (forall j :: 0 <= j < k ==> Goes(step, i, first, run.done, ledgers, j))
    && (forall j :: 0 <= j < k - 1 ==> run.done[j].result.success)
    && if i + k == n || (k > 0 && !run.done[k - 1].result.success) then run.error == None && run.entries == ledgers[k]
       else run.error.Some? && step(i + k, ledgers[k], ResultBefore(first, run.done, k))
                                 == PlanStep(run.entries, Failure(run.error.value))
  }

  lemma {:induction false} RunSteps(step: Stepper, n: nat, i: nat, entries: seq<LedgerEntry>,
                                    first: Option<ActionResult>) returns (ledgers: seq<seq<LedgerEntry>>)
    requires i <= n
    ensures Steps(step, n, i, first, RunFrom(step, n, i, entries, first), ledgers) && ledgers[0] == entries
    decreases n - i
  {
    ledgers := [entries];
    if i < n {
      var s := step(i, entries, first);
      RunStops(step, n, i, entries, first);
      if s.outcome.Success? {
        if s.outcome.value.result.success {
          var rest := RunSteps(step, n, i + 1, s.entries, Some(s.outcome.value.result));
          RunGoesOn(step, n, i, entries, first);
          ConsSteps(step, n, i, entries, first, RunFrom(step, n, i + 1, s.entries, Some(s.outcome.value.result)), rest);
          ledgers := ledgers + rest;
        } else {
          ledgers := [entries, s.entries];
        }
      }
    }
  }

  lemma {:induction false} GoesOn(step: Stepper, i: nat, first: Option<ActionResult>, d: Done, done: seq<Done>,
                                  entries: seq<LedgerEntry>, ledgers: seq<seq<LedgerEntry>>, j: nat)
    requires j < |done| < |ledgers| && Goes(step, i + 1, Some(d.result), done, ledgers, j)
    ensures Goes(step, i, first, [d] + done, [entries] + ledgers, j + 1)
  {
    assert ResultBefore(first, [d] + done, j + 1) == ResultBefore(Some(d.result), done, j);
    assert i + 1 + j == i + (j + 1);
  }

  lemma {:induction false} ConsSteps(step: Stepper, n: nat, i: nat, entries: seq<LedgerEntry>,
                                     first: Option<ActionResult>, rest: RunResult, ledgers: seq<seq<LedgerEntry>>)
    requires i < n && step(i, entries, first).outcome.Success?
    requires step(i, entries, first).outcome.value.result.success
    requires var s := step(i, entries, first);
             Steps(step, n, i + 1, Some(s.outcome.value.result), rest, ledgers) && ledgers[0] == s.entries
    ensures var d := step(i, entries, first).outcome.value;
            Steps(step, n, i, first, rest.(done := [d] + rest.done), [entries] + ledgers)
  {
    var s := step(i, entries, first);
    var d := s.outcome.value;
    var done, all := [d] + rest.done, [entries] + ledgers;
    forall j | 0 <= j < |done| ensures Goes(step, i, first, done, all, j) {
      if j > 0 { GoesOn(step, i, first, d, rest.done, entries, ledgers, j - 1); }
    }
    forall j | 0 <= j < |done| - 1 ensures done[j].result.success {
      if j > 0 { assert done[j] == rest.done[j - 1]; }
    }
    var k := |rest.done|;
    assert ResultBefore(first, done, k + 1) == ResultBefore(Some(d.result), rest.done, k) && i + 1 + k == i + (k + 1);
  }

  /** Plan `j` took its ledger to the next one. */
  ghost predicate ExecutesAt(env: Env, envelope: SignedEnvelope, plans: seq<ActionPlan>, done: seq<Done>,
                             ledgers: seq<seq<LedgerEntry>>, j: nat)
    requires j < |done| < |ledgers| && j < |plans|
  {
    Executes(env, envelope, plans[j], ResultBefore(None, done, j), j, ledgers[j], ledgers[j + 1], done[j])
  }

  /** What a request does to a ledger, plan by plan: executed plans come first, in order, and only the last of them can
      have failed; if the run stops before a plan that could go on, that plan was refused. */
  ghost predicate Runs(env: Env, envelope: SignedEnvelope, plans: seq<ActionPlan>, run: RunResult,
                       ledgers: seq<seq<LedgerEntry>>) {
    var k := |run.done|;
    && |ledgers| == k + 1 && k <= |plans|
    && (forall j :: 0 <= j < k ==> ExecutesAt(env, envelope, plans, run.done, ledgers, j))
    && (forall j :: 0 <= j < k - 1 ==> run.done[j].result.success)
    && if !Reaches(plans, run) then run.error == None && run.entries == ledgers[k]
       else run.error.Some? && Refuses(env, envelope, plans[k], ResultBefore(None, run.done, k), k, ledgers[k],
                                       run.entries, run.error.value)
  }

  /** The run comes to a plan after the executed ones. */
  predicate Reaches(plans: seq<ActionPlan>, run: RunResult) {
    |run.done| < |plans| && (run.done != [] ==> run.done[|run.done| - 1].result.success)
  }

  lemma {:induction false} GoesIntact(env: Env, step: Stepper, done: seq<Done>, ledgers: seq<seq<LedgerEntry>>, j: nat)
    requires j < |done| < |ledgers| && Goes(step, 0, None, done, ledgers, j)
    requires StepperKeeps(env.cs, step) && Intact(env.cs, ledgers[j])
    ensures Intact(env.cs, ledgers[j + 1])
  {
    var previous := ResultBefore(None, done, j);
    assert StepKeeps(env.cs, ledgers[j], step(0 + j, ledgers[j], previous));
    StepIntact(env.cs, ledgers[j], step(0 + j, ledgers[j], previous));
  }

  lemma {:induction false} LedgersIntact(env: Env, step: Stepper, n: nat, run: RunResult,
                                         ledgers: seq<seq<LedgerEntry>>, j: nat)
    requires StepperKeeps(env.cs, step) && Steps(step, n, 0, None, run, ledgers) && Intact(env.cs, ledgers[0])
    requires j < |ledgers|
    ensures Intact(env.cs, ledgers[j])
  {
    if j > 0 {
      LedgersIntact(env, step, n, run, ledgers, j - 1);
      assert Goes(step, 0, None, run.done, ledgers, j - 1);
      GoesIntact(env, step, run.done, ledgers, j - 1);
    }
  }

  lemma {:induction false} StepAt(env: Env, envelope: SignedEnvelope, plans: seq<ActionPlan>, j: nat,
                                  before: seq<LedgerEntry>, previous: Option<ActionResult>)
    requires j < |plans| && Intact(env.cs, before)
    ensures StepIs(env, envelope, plans[j], previous, j, before,
                   StepperFor(env, envelope, plans)(j, before, previous))
  {
    PlanExactly(env, envelope, plans[j], previous, j, before);
  }

  /** Every request over an intact ledger, exactly. */
  lemma {:induction false} RunExactly(env: Env, envelope: SignedEnvelope, plans: seq<ActionPlan>,
                                      entries: seq<LedgerEntry>) returns (ledgers: seq<seq<LedgerEntry>>)
    requires Intact(env.cs, entries)
    ensures Runs(env, envelope, plans, Run(env, envelope, plans, entries), ledgers) && ledgers[0] == entries
  {
    var step, run := StepperFor(env, envelope, plans), Run(env, envelope, plans, entries);
    ledgers := RunSteps(step, |plans|, 0, entries, None);
    StepperForKeeps(env, envelope, plans);
    var k := |run.done|;
    forall j | 0 <= j < k ensures ExecutesAt(env, envelope, plans, run.done, ledgers, j) {
      LedgersIntact(env, step, |plans|, run, ledgers, j);
      StepAt(env, envelope, plans, j, ledgers[j], ResultBefore(None, run.done, j));
      assert Goes(step, 0, None, run.done, ledgers, j) && 0 + j == j;
    }
    if Reaches(plans, run) {
      LedgersIntact(env, step, |plans|, run, ledgers, k);
      StepAt(env, envelope, plans, k, ledgers[k], ResultBefore(None, run.done, k));
      assert step(0 + k, ledgers[k], ResultBefore(None, run.done, k))
          == PlanStep(run.entries, Failure(run.error.value));
    }
  }

  /** No unconfirmed plan is ever executed: whatever came of a run, every executed plan was confirmed if it had to be;
      and the run asks for confirmation exactly when it comes to a plan that lacks it, having recorded three entries for
      each plan before it and nothing else. */
  lemma {:induction false} ConfirmationIsAsked(env: Env, envelope: SignedEnvelope, plans: seq<ActionPlan>,
                                               entries: seq<LedgerEntry>)
    requires Intact(env.cs, entries)
    ensures var run := Run(env, envelope, plans, entries);
            var k := |run.done|;
            && k <= |plans|
            && (forall j :: 0 <= j < k ==> Confirmed(plans[j]) && SamePlan(plans[j], run.done[j].plan))
            && (run.error.Some? && run.error.value.ConfirmationRequired? <==>
                  Reaches(plans, run) && !Confirmed(plans[k]))
            && (Reaches(plans, run) && !Confirmed(plans[k]) ==>
                  run.error == Some(ConfirmationRequired(plans[k])) && |run.entries| == |entries| + 3 * k)
  {
    var run := Run(env, envelope, plans, entries);
    var ledgers := RunExactly(env, envelope, plans, entries);
    var k := |run.done|;
    forall j | 0 <= j < k
      ensures Confirmed(plans[j]) && SamePlan(plans[j], run.done[j].plan) && ThreeMore(ledgers, j)
    {
      assert ExecutesAt(env, envelope, plans, run.done, ledgers, j);
      ExecutedPlan(env, envelope, plans[j], ResultBefore(None, run.done, j), j, ledgers[j], ledgers[j + 1],
                   run.done[j]);
    }
    LedgersGrow(ledgers, k);
    if Reaches(plans, run) {
      RefusedPlan(env, envelope, plans[k], ResultBefore(None, run.done, k), k, ledgers[k], run.entries,
                  run.error.value);
    }
  }

  /** The same plan but for its payload. */
  predicate SamePlan(plan: ActionPlan, full: ActionPlan) {
    full == plan.(payload := full.payload)
  }

  lemma {:induction false} ExecutedPlan(env: Env, envelope: SignedEnvelope, plan: ActionPlan,
                                        previous: Option<ActionResult>, i: nat, before: seq<LedgerEntry>,
                                        after: seq<LedgerEntry>, d: Done)
    requires Executes(env, envelope, plan, previous, i, before, after, d)
    ensures Confirmed(plan) && SamePlan(plan, d.plan) && |after| == |before| + 3
  {
  }

  lemma {:induction false} RefusedPlan(env: Env, envelope: SignedEnvelope, plan: ActionPlan,
                                       previous: Option<ActionResult>, i: nat, before: seq<LedgerEntry>,
                                       after: seq<LedgerEntry>, e: RouteError)
    requires Refuses(env, envelope, plan, previous, i, before, after, e)
    ensures e.ConfirmationRequired? <==> !Confirmed(plan)
    ensures !Confirmed(plan) ==> e == ConfirmationRequired(plan) && after == before
  {
  }

  lemma {:induction false} LedgersGrow(ledgers: seq<seq<LedgerEntry>>, j: nat)
    requires j < |ledgers| && forall k :: 0 <= k < |ledgers| - 1 ==> ThreeMore(ledgers, k)
    ensures |ledgers[j]| == |ledgers[0]| + 3 * j
  {
    if j > 0 {
      LedgersGrow(ledgers, j - 1);
      assert ThreeMore(ledgers, j - 1);
    }
  }

  predicate ThreeMore(ledgers: seq<seq<LedgerEntry>>, k: nat)
    requires k + 1 < |ledgers|
  {
    |ledgers[k + 1]| == |ledgers[k]| + 3
  }
}
