/** The contract shared by every agent (aor/agents/base.py). */
module AgentBase {
  import opened Prelude
  import opened Crypto

  datatype ActionPlan = ActionPlan(
    agentType: string, agentId: Option<string>, actionType: string, payload: Dict,
    requiresConfirmation: bool, confirmed: bool, policyDecision: string)

  datatype ActionResult = ActionResult(success: bool, artifactRef: Option<string>, details: Dict, observedEffect: Dict)
}
