/**
 The service's state (verifier_service/main.py): the shared ledger, the evidence store with its database, and the
 pipeline that the verification endpoints and the audit agent run on that store.
 */
module Service {
  import opened Prelude
  import opened Crypto
  import opened LedgerCore
  import opened Envelope
  import opened EvidenceStoreCore
  import opened Trace
  import opened AgentBase
  import opened PipelineTheorems
  import opened Router
  import VerifyPipeline
  import Keys = KeyRegistryCore
  import Anchoring

  // ---- What every state keeps, record by record ----

  /** A record in memory commits to a prefix of the ledger it is over, and that ledger is intact. */
  predicate CommittedOver(cs: Suite, id: string, f: EvidenceFacts, entries: seq<LedgerEntry>) {
    f.actionId == id && Committed(cs, f, entries)
  }

  ghost predicate Kept(cs: Suite, id: string, e: ActionEvidence)
    reads e.ledger
  {
    e.ledger.cs == cs && Intact(cs, e.ledger.entries) && CommittedOver(cs, id, e.facts, e.ledger.entries)
  }

  /** A saved record decodes to facts that commit to the intact entries saved with them. */
  ghost predicate Restorable(cs: Suite, id: string, s: StoredEvidence) {
    match Deserialize(cs, id, s)
    case None => false
    case Some((facts, entries)) => Intact(cs, entries) && CommittedOver(cs, id, facts, entries)
  }

  ghost predicate AllRestorable(cs: Suite, saved: map<string, StoredEvidence>) {
    forall id :: id in saved ==> Restorable(cs, id, saved[id])
  }

  lemma OneMoreRestorable(cs: Suite, saved: map<string, StoredEvidence>, id: string, s: StoredEvidence)
    requires AllRestorable(cs, saved) && Restorable(cs, id, s)
    ensures AllRestorable(cs, saved[id := s])
  {
  }

  /** Saving committed evidence makes a restorable record: the cut ledger is intact and still holds the commitment. */
  lemma {:induction false} SavedIsRestorable(cs: Suite, f: EvidenceFacts, entries: seq<LedgerEntry>)
    requires Base64Law(cs) && Intact(cs, entries) && Committed(cs, f, entries)
    ensures Restorable(cs, f.actionId, Serialize(cs, f, entries))
  {
    var k := f.ledgerEntryCountAtAction;
    var cut := entries[..k];
    RoundTrip(cs, f, entries);
    IntactPrefix(cs, cut, entries);
    assert OriginOf(f, cut).history == OriginOf(f, entries).history by {
      assert Contents(cut)[..k] == Contents(entries)[..k];
    }
  }

  // ---- Runs of plans, and the records they register ----

  /** Records in memory, and records in the database if there is one, at some moment. */
  datatype Held = Held(evidence: map<string, ActionEvidence>, saved: Option<map<string, StoredEvidence>>) {
    function Records(): map<string, StoredEvidence> { if saved.Some? then saved.value else map[] }
  }

  /** Evidence registered in memory and, if there is a database, saved. */
  function Register(cs: Suite, h: Held, f: EvidenceFacts, ledger: Ledger, entries: seq<LedgerEntry>): Held {
    Held(h.evidence[f.actionId := ActionEvidence(f, ledger)],
         if h.saved.Some? then Some(h.saved.value[f.actionId := Serialize(cs, f, entries)]) else None)
  }

  function Registered(cs: Suite, h: Held, r: Result<Done, RouteError>, ledger: Ledger,
                      entries: seq<LedgerEntry>): Held {
    if r.Success? then Register(cs, h, r.value.facts, ledger, entries) else h
  }

  /** The executed plans registered over the shared ledger, in order. */
  function RegisterAll(cs: Suite, h: Held, done: seq<Done>, ledger: Ledger, entries: seq<LedgerEntry>): Held
    decreases |done|
  {
    if done == [] then h
    else
      Register(cs, RegisterAll(cs, h, done[..|done| - 1], ledger, entries), done[|done| - 1].facts, ledger, entries)
  }

  lemma RegisterMore(cs: Suite, h: Held, done: seq<Done>, d: Done, ledger: Ledger, entries: seq<LedgerEntry>)
    ensures RegisterAll(cs, h, done + [d], ledger, entries)
              == Register(cs, RegisterAll(cs, h, done, ledger, entries), d.facts, ledger, entries)
  {
    assert (done + [d])[..|done|] == done;
  }

  ghost predicate AllCommitted(cs: Suite, done: seq<Done>, entries: seq<LedgerEntry>) {
    forall k :: 0 <= k < |done| ==> Committed(cs, done[k].facts, entries)
  }

  lemma MoreCommitted(cs: Suite, done: seq<Done>, d: Done, entries: seq<LedgerEntry>)
    requires AllCommitted(cs, done, entries) && Committed(cs, d.facts, entries)
    ensures AllCommitted(cs, done + [d], entries)
  {
  }

  /** What is saved of committed evidence does not depend on how far the ledger has grown since. */
  lemma SavedTheSame(cs: Suite, f: EvidenceFacts, entries: seq<LedgerEntry>, grown: seq<LedgerEntry>)
    requires Committed(cs, f, entries) && entries <= grown
    ensures Serialize(cs, f, entries) == Serialize(cs, f, grown)
  {
    assert Take(entries, f.ledgerEntryCountAtAction) == Take(grown, f.ledgerEntryCountAtAction);
  }

  lemma {:induction false} AllRegisteredTheSame(cs: Suite, h: Held, done: seq<Done>, ledger: Ledger,
                                                entries: seq<LedgerEntry>, grown: seq<LedgerEntry>)
    requires AllCommitted(cs, done, entries) && entries <= grown
    ensures RegisterAll(cs, h, done, ledger, entries) == RegisterAll(cs, h, done, ledger, grown)
    ensures AllCommitted(cs, done, grown)
    decreases |done|
  {
    if done != [] {
      var last := done[|done| - 1];
      AllRegisteredTheSame(cs, h, done[..|done| - 1], ledger, entries, grown);
      SavedTheSame(cs, last.facts, entries, grown);
      CommittedSurvivesGrowth(cs, last.facts, entries, grown);
      assert forall k :: 0 <= k < |done| ==> done[k] == if k < |done| - 1 then done[..|done| - 1][k] else last;
    }
  }

  /** Every executed plan is saved, unless a later one of the same name is. */
  lemma {:induction false} AllAreSaved(cs: Suite, h: Held, done: seq<Done>, ledger: Ledger, entries: seq<LedgerEntry>,
                                       k: nat) returns (j: nat)
    requires k < |done| && h.saved.Some?
    ensures k <= j < |done| && done[j].facts.actionId == done[k].facts.actionId
    ensures var after := RegisterAll(cs, h, done, ledger, entries);
            && after.saved.Some? && done[k].facts.actionId in after.saved.value
            && after.saved.value[done[k].facts.actionId] == Serialize(cs, done[j].facts, entries)
    decreases |done|
  {
    var n := |done| - 1;
    RegisterAllSaves(cs, h, done[..n], ledger, entries);
    if done[n].facts.actionId == done[k].facts.actionId {
      j := n;
    } else {
      assert done[..n][k] == done[k];
      j := AllAreSaved(cs, h, done[..n], ledger, entries, k);
      assert done[..n][j] == done[j];
    }
  }

  lemma {:induction false} RegisterAllSaves(cs: Suite, h: Held, done: seq<Done>, ledger: Ledger,
                                            entries: seq<LedgerEntry>)
    requires h.saved.Some?
    ensures RegisterAll(cs, h, done, ledger, entries).saved.Some?
    decreases |done|
  {
    if done != [] { RegisterAllSaves(cs, h, done[..|done| - 1], ledger, entries); }
  }

  function Prepend(done: seq<Done>, run: RunResult): RunResult {
    run.(done := done + run.done)
  }

  lemma {:induction false} StepIs(env: Env, envelope: SignedEnvelope, plans: seq<ActionPlan>, i: nat,
                                  entries: seq<LedgerEntry>, previous: Option<ActionResult>)
    requires i < |plans|
    ensures StepperFor(env, envelope, plans)(i, entries, previous)
              == StepPlan(env, envelope, entries, plans[i], previous, i)
  {
  }

  /** The run that began with `done` and is now before plan `i` ends here. */
  lemma {:induction false} RunEnds(done: seq<Done>, step: Stepper, n: nat, i: nat, entries: seq<LedgerEntry>,
                                   previous: Option<ActionResult>)
    requires i < n
    ensures var s := step(i, entries, previous);
            var run := Prepend(done, RunFrom(step, n, i, entries, previous));
            && (s.outcome.Failure? ==> run == RunResult(s.entries, done, Some(s.outcome.error)))
            && (s.outcome.Success? && !s.outcome.value.result.success ==>
                  run == RunResult(s.entries, done + [s.outcome.value], None))
  {
    RunStops(step, n, i, entries, previous);
    assert done + [] == done;
  }

  /** The run goes on after plan `i`. */
  lemma {:induction false} RunContinues(done: seq<Done>, step: Stepper, n: nat, i: nat, entries: seq<LedgerEntry>,
                                        previous: Option<ActionResult>)
    requires i < n && step(i, entries, previous).outcome.Success?
    requires step(i, entries, previous).outcome.value.result.success
    ensures var s := step(i, entries, previous);
            Prepend(done, RunFrom(step, n, i, entries, previous))
              == Prepend(done + [s.outcome.value], RunFrom(step, n, i + 1, s.entries, Some(s.outcome.value.result)))
  {
    RunGoesOn(step, n, i, entries, previous);
    var s := step(i, entries, previous);
    var rest := RunFrom(step, n, i + 1, s.entries, Some(s.outcome.value.result));
    assert done + ([s.outcome.value] + rest.done) == done + [s.outcome.value] + rest.done;
  }

  /** The saved record of the action is these facts over these entries. */
  predicate SavedAs(cs: Suite, saved: map<string, StoredEvidence>, id: string, f: EvidenceFacts,
                    entries: seq<LedgerEntry>) {
    id in saved && Deserialize(cs, id, saved[id]) == Some((f, entries))
  }

  /** The stored message, if there is one, is well-formed. */
  predicate CanParse(o: Outside, f: EvidenceFacts) {
    f.emlBytes.Some? ==> o.parseEml(f.emlBytes.value).Some?
  }

  lemma {:induction false} AnswerIs(cs: Suite, o: Outside, s: Snapshot, id: Option<string>, f: EvidenceFacts,
                                    live: seq<LedgerEntry>)
    ensures Answer(cs, o, s, None, id, Evidence(f, live)) == Verify(cs, o, s, None, id, Some(f), live)
  {
  }

  lemma {:induction false} KnownVerifies(cs: Suite, f: EvidenceFacts, live: seq<LedgerEntry>, o: Outside, s: Snapshot)
    requires Intact(cs, live) && Committed(cs, f, live)
    ensures CanParse(o, f) ==> ThreeLinksPass(Answer(cs, o, s, None, Some(f.actionId), Evidence(f, live)))
  {
    AnswerIs(cs, o, s, Some(f.actionId), f, live);
    if CanParse(o, f) { CommittedVerifies(cs, f, live, live, o, s); }
  }

  /** Nothing of `base` is lost or replaced. */
  predicate Extends(base: map<string, ActionEvidence>, all: map<string, ActionEvidence>) {
    forall id :: id in base ==> id in all && all[id] == base[id]
  }

  lemma RestoredCommits(cs: Suite, saved: map<string, StoredEvidence>, id: string, f: EvidenceFacts,
                        entries: seq<LedgerEntry>)
    requires AllRestorable(cs, saved) && SavedAs(cs, saved, id, f, entries)
    ensures Intact(cs, entries) && CommittedOver(cs, id, f, entries)
  {
    assert Restorable(cs, id, saved[id]);
  }

  /** The record an earlier run saved decodes to that plan's facts over the entries they committed to. */
  lemma {:induction false} SavedRunDecodes(env: Env, envelope: SignedEnvelope, plans: seq<ActionPlan>,
                                           before: seq<LedgerEntry>, start: Held, l: Ledger, k: nat) returns (j: nat)
    requires Base64Law(env.cs) && Intact(env.cs, before) && start.saved.Some?
    requires k < |Run(env, envelope, plans, before).done|
    ensures var run := Run(env, envelope, plans, before);
            var after, id := RegisterAll(env.cs, start, run.done, l, run.entries), run.done[k].facts.actionId;
            && k <= j < |run.done| && run.done[j].facts.actionId == id
            && Committed(env.cs, run.done[j].facts, run.entries)
            && SavedAs(env.cs, after.Records(), id, run.done[j].facts,
                       run.entries[..run.done[j].facts.ledgerEntryCountAtAction])
  {
    var run := Run(env, envelope, plans, before);
    RunCommits(env, envelope, plans, before);
    j := AllAreSaved(env.cs, start, run.done, l, run.entries, k);
    assert Committed(env.cs, run.done[j].facts, run.entries);
    RoundTrip(env.cs, run.done[j].facts, run.entries);
  }

  class AgentService {
    const cs: Suite
    const ledger: Ledger
    const store: ActionEvidenceStore
    const pipeline: VerifyPipeline.VerificationPipeline

    ghost function Ledgers(): set<Ledger>
      reads store
    {
      set id | id in store.evidence :: store.evidence[id].ledger
    }

    /** The shared ledger is intact; every record in memory commits to the ledger it is over, be it the shared one or
        one restored from the database; and every record in the database can be restored. */
    ghost predicate Valid()
      reads this, ledger, store, store.persistence, Ledgers()
    {
      && ledger.cs == cs && store.cs == cs && pipeline.cs == cs && pipeline.store == store
      && Base64Law(cs)
      && Intact(cs, ledger.entries)
      && (forall id :: id in store.evidence ==> Kept(cs, id, store.evidence[id]))
      && (store.persistence != null ==> AllRestorable(cs, store.persistence.saved))
    }

    /** A process starts with an empty ledger and store, over what earlier processes have saved. */
    constructor (cs: Suite, outside: Outside, registry: Keys.KeyRegistry, persistence: EvidencePersistence?,
                 anchors: Anchoring.AnchorStore?)
      requires Base64Law(cs) && (persistence != null ==> AllRestorable(cs, persistence.saved))
      ensures Valid() && this.cs == cs && ledger.entries == [] && store.evidence == map[]
      ensures store.persistence == persistence && fresh(ledger) && fresh(store)
    {
      this.cs := cs;
      var emptyLedger := new Ledger(cs);
      var emptyStore := new ActionEvidenceStore(cs, persistence);
      ledger, store := emptyLedger, emptyStore;
      pipeline := new VerifyPipeline.VerificationPipeline(cs, outside, registry, emptyStore, anchors);
    }

    function Now(): Held
      reads store, store.persistence
    {
      Held(store.evidence, if store.persistence == null then None else Some(store.persistence.saved))
    }

    /** Every record of `all` that `h` does not have was loaded from what `h` has saved, over a ledger other than the
        shared one. */
    ghost predicate LoadedBeside(h: Held, all: map<string, ActionEvidence>)
      reads set id | id in all :: all[id].ledger
    {
      forall id :: id in all && id !in h.evidence ==>
        var e := all[id];
        e.ledger != ledger && e.ledger.cs == cs && SavedAs(cs, h.Records(), id, e.facts, e.ledger.entries)
    }

    /** Memory holds what `h` holds, and besides only records loaded from what `h` has saved; the database holds exactly
        what `h` has saved. */
    ghost predicate Holds(h: Held)
      reads store, store.persistence, Ledgers()
    {
      Extends(h.evidence, store.evidence) && LoadedBeside(h, store.evidence) && Now().saved == h.saved
    }

    lemma HoldsKeeps(h: Held)
      requires Holds(h) && AllRestorable(cs, h.Records())
      requires forall id :: id in h.evidence ==> Kept(cs, id, h.evidence[id])
      ensures forall id :: id in store.evidence ==> Kept(cs, id, store.evidence[id])
    {
      forall id | id in store.evidence && id !in h.evidence ensures Kept(cs, id, store.evidence[id]) {
        var e := store.evidence[id];
        RestoredCommits(cs, h.Records(), id, e.facts, e.ledger.entries);
      }
    }

    /** What was loaded up to a moment and what has been loaded since are both loaded from what `h` has saved. */
    lemma HoldsCompose(h: Held, middle: Held)
      requires Extends(h.evidence, middle.evidence) && LoadedBeside(h, middle.evidence) && middle.saved == h.saved
      requires Holds(middle)
      ensures Holds(h)
    {
      forall id | id in store.evidence && id !in h.evidence
        ensures var e := store.evidence[id];
                e.ledger != ledger && e.ledger.cs == cs && SavedAs(cs, h.Records(), id, e.facts, e.ledger.entries)
      {
        if id in middle.evidence { assert store.evidence[id] == middle.evidence[id]; }
      }
    }

    lemma HoldsNow()
      requires Valid()
      ensures Holds(Now())
    {
    }

    // ---- Lookups ----

    twostate lemma AnswersHold(id: Option<string>)
      requires store.cs == cs && store.Answers(id)
      requires store.persistence != null ==> unchanged(store.persistence)
      ensures Holds(old(Now()))
    {
      store.AnswersAdd(id);
      forall i | i in store.evidence && i !in old(store.evidence)
        ensures var e := store.evidence[i];
                && e.ledger != ledger && e.ledger.cs == cs
                && SavedAs(cs, old(Now()).Records(), i, e.facts, e.ledger.entries)
      {
        assert old(Now()).Records() == old(store.persistence.saved);
      }
    }

    twostate lemma OldKept()
      requires old(Valid())
      requires forall l: Ledger :: old(allocated(l)) ==> l.entries == old(l.entries)
      ensures forall id :: id in old(store.evidence) ==> Kept(cs, id, old(store.evidence)[id])
    {
      forall id | id in old(store.evidence) ensures Kept(cs, id, old(store.evidence)[id]) {
        assert old(store.evidence)[id].ledger in old(Ledgers());
      }
    }

    /** A verification request, from an endpoint or an agent: answered from what the store knows. */
    method Verification(q: Query) returns (r: Result<VerificationTrace, Raised>)
      requires Valid()
      modifies store
      ensures var id := EffectiveId(pipeline.outside, q.eml, q.actionId);
              && r == Answer(cs, pipeline.outside, pipeline.Now(q.agentAt, q.recordAt, q.userAt), q.eml, id,
                             old(store.Request(id)))
              && store.Answers(id)
      ensures Valid() && Holds(old(Now()))
    {
      r := pipeline.RunVerification(q.eml, q.actionId, q.agentAt, q.recordAt, q.userAt);
      AnswersHold(EffectiveId(pipeline.outside, q.eml, q.actionId));
      OldKept();
      HoldsKeeps(old(Now()));
    }

    method AuditOne(q: Query, ghost h: Held)
      requires Valid() && Holds(h)
      modifies store
      ensures Valid() && Holds(h)
    {
      var trace := Verification(q);
      HoldsCompose(h, old(Now()));
    }

    /** The verifications an agent asks for while it acts. */
    method Audit(queries: seq<Query>, ghost h: Held)
      requires Valid() && Holds(h)
      modifies store
      ensures Valid() && Holds(h)
    {
      for k := 0 to |queries|
        invariant Valid() && Holds(h)
      {
        AuditOne(queries[k], h);
      }
    }

    // ---- What the store knows stays verifiable ----

    lemma {:induction false} KnownCommits(id: string)
      requires Valid() && (id in store.evidence || id in Now().Records())
      ensures var known := store.Find(id);
              known.Evidence? && Intact(cs, known.live) && CommittedOver(cs, id, known.facts, known.live)
    {
      if id !in store.evidence { assert Restorable(cs, id, Now().Records()[id]); }
    }

    /** Whatever the service knows about an action, from memory or from the database, it can load, and the hash and
        Merkle links of a lookup by id pass over the ledger that record is over, as that ledger now stands. */
    lemma {:induction false} RegisteredVerifies(id: string, o: Outside, s: Snapshot)
      requires Valid() && (id in store.evidence || id in Now().Records())
      ensures store.Find(id).Evidence?
      ensures CanParse(o, store.Find(id).facts) ==> ThreeLinksPass(Answer(cs, o, s, None, Some(id), store.Find(id)))
    {
      KnownCommits(id);
      KnownVerifies(cs, store.Find(id).facts, store.Find(id).live, o, s);
    }

    // ---- Plans ----

    /** The three leaves of a plan. */
    method RecordLeaves(env: Env, prompt: string, plan: ActionPlan, i: nat)
      requires ledger.cs == cs == env.cs
      modifies ledger
      ensures ledger.entries == Recorded(env, old(ledger.entries), prompt, plan, i)
    {
      var one := ledger.Append("system_prompt", Text(SYSTEM_PROMPT), env.clock(i, 0));
      var two := ledger.Append("user_prompt", Text(prompt), env.clock(i, 1));
      var three := ledger.Append("agent_action", PlanRecord(plan), env.clock(i, 2));
    }

    /** Growth of the shared ledger leaves every record committed. */
    twostate lemma GrowthKeeps()
      requires old(Valid()) && unchanged(store) && (store.persistence != null ==> unchanged(store.persistence))
      requires old(ledger.entries) <= ledger.entries && Intact(cs, ledger.entries)
      requires forall l: Ledger :: l != ledger && old(allocated(l)) ==> l.entries == old(l.entries)
      ensures Valid()
    {
      forall id | id in store.evidence ensures Kept(cs, id, store.evidence[id]) {
        var e := store.evidence[id];
        assert e.ledger in Ledgers();
        if e.ledger == ledger { CommittedSurvivesGrowth(cs, e.facts, old(ledger.entries), ledger.entries); }
      }
    }

    method Record(env: Env, prompt: string, plan: ActionPlan, i: nat, ghost h: Held)
      requires Valid() && Holds(h) && env.cs == cs
      modifies ledger
      ensures ledger.entries == Recorded(env, old(ledger.entries), prompt, plan, i)
      ensures Valid() && Holds(h)
    {
      RecordedIntact(env, ledger.entries, prompt, plan, i);
      RecordLeaves(env, prompt, plan, i);
      GrowthKeeps();
    }

    twostate lemma KeepKept(facts: EvidenceFacts)
      requires old(Valid()) && store.evidence == old(store.evidence)[facts.actionId := ActionEvidence(facts, ledger)]
      requires Kept(cs, facts.actionId, ActionEvidence(facts, ledger))
      requires forall l: Ledger :: old(allocated(l)) ==> l.entries == old(l.entries)
      ensures forall id :: id in store.evidence ==> Kept(cs, id, store.evidence[id])
    {
      forall id | id in store.evidence ensures Kept(cs, id, store.evidence[id]) {
        if id != facts.actionId { assert old(Kept(cs, id, store.evidence[id])); }
      }
    }

    twostate lemma KeepHolds(kept: (Held, EvidenceFacts))
      requires old(Holds(kept.0)) && Now() == Register(cs, old(Now()), kept.1, ledger, ledger.entries)
      requires forall l: Ledger :: old(allocated(l)) ==> l.entries == old(l.entries)
      ensures Holds(Register(cs, kept.0, kept.1, ledger, ledger.entries))
    {
      var h := kept.0;
      var after := Register(cs, h, kept.1, ledger, ledger.entries);
      forall id | id in store.evidence && id !in after.evidence
        ensures var e := store.evidence[id];
                e.ledger != ledger && e.ledger.cs == cs && SavedAs(cs, after.Records(), id, e.facts, e.ledger.entries)
      {
        assert old(store.evidence[id].ledger) in old(Ledgers());
      }
    }

    method RegisterFacts(facts: EvidenceFacts)
      requires Valid() && Committed(cs, facts, ledger.entries)
      modifies store, store.persistence
      ensures Valid() && Now() == Register(cs, old(Now()), facts, ledger, ledger.entries)
    {
      SavedIsRestorable(cs, facts, ledger.entries);
      OneMoreRestorable(cs, Now().Records(), facts.actionId, Serialize(cs, facts, ledger.entries));
      store.Register(ActionEvidence(facts, ledger));
      KeepKept(facts);
    }

    /** Registering puts the evidence into memory and its serialised form into the database, and leaves all else. */
    method Keep(facts: EvidenceFacts, ghost h: Held)
      requires Valid() && Holds(h) && Committed(cs, facts, ledger.entries)
      modifies store, store.persistence
      ensures Valid() && Now() == Register(cs, old(Now()), facts, ledger, ledger.entries)
      ensures Holds(Register(cs, h, facts, ledger, ledger.entries))
    {
      RegisterFacts(facts);
      KeepHolds((h, facts));
    }

    /** A plan whose leaves are recorded: its proof, its action, its evidence. */
    method Act(env: Env, envelope: SignedEnvelope, plan: ActionPlan, i: nat, ghost h: Held)
      returns (r: Result<Done, RouteError>)
      requires Valid() && Holds(h) && env.cs == cs
      modifies store, store.persistence
      ensures r == ActOn(env, envelope, ledger.entries, plan, i)
      ensures Valid() && Holds(Registered(cs, h, r, ledger, ledger.entries))
    {
      if plan.agentType !in env.agents { return Failure(UnknownAgentType(plan.agentType)); }
      var poi := BuiltFor(env, ledger.entries, envelope.prompt, plan, i);
      if poi.Failure? { return Failure(PoiNotBuilt(poi.error)); }
      Audit(env.audits(i, plan, poi.value), h);
      var outcome := env.act(i, plan, poi.value);
      if outcome.None? { return Failure(AgentRaised(plan)); }
      var facts := FactsFor(envelope, plan, poi.value, outcome.value, |ledger.entries|);
      ActCommits(env, envelope, ledger.entries, plan, i);
      Keep(facts, h);
      r := Success(Done(plan, facts, outcome.value.result));
    }

    /** One plan: its three leaves, its proof, its action, its evidence. */
    method ExecutePlan(env: Env, envelope: SignedEnvelope, original: ActionPlan, previous: Option<ActionResult>, i: nat,
                       ghost h: Held)
      returns (r: Result<Done, RouteError>)
      requires Valid() && Holds(h) && env.cs == cs
      modifies ledger, store, store.persistence
      ensures PlanStep(ledger.entries, r) == StepPlan(env, envelope, old(ledger.entries), original, previous, i)
      ensures Valid() && Holds(Registered(cs, h, r, ledger, ledger.entries))
    {
      if original.requiresConfirmation && !original.confirmed { return Failure(ConfirmationRequired(original)); }
      var plan := Completed(original, previous);
      Record(env, envelope.prompt, plan, i, h);
      r := Act(env, envelope, plan, i, h);
    }

    /** What holds before plan `i` of a request that found the service with `start`. */
    ghost predicate Underway(start: Held, records: seq<Done>)
      reads ledger, store, store.persistence, Ledgers()
    {
      Holds(RegisterAll(cs, start, records, ledger, ledger.entries)) && AllCommitted(cs, records, ledger.entries)
    }

    method ExecuteNext(env: Env, envelope: SignedEnvelope, original: ActionPlan, previous: Option<ActionResult>, i: nat,
                       ghost start: Held, ghost records: seq<Done>)
      returns (r: Result<Done, RouteError>)
      requires Valid() && Underway(start, records) && env.cs == cs
      modifies ledger, store, store.persistence
      ensures PlanStep(ledger.entries, r) == StepPlan(env, envelope, old(ledger.entries), original, previous, i)
      ensures Valid() && Underway(start, if r.Success? then records + [r.value] else records)
    {
      ghost var entries := ledger.entries;
      ghost var h := RegisterAll(cs, start, records, ledger, entries);
      StepCommits(env, envelope, entries, original, previous, i);
      r := ExecutePlan(env, envelope, original, previous, i, h);
      AllRegisteredTheSame(cs, start, records, ledger, entries, ledger.entries);
      if r.Success? {
        MoreCommitted(cs, records, r.value, ledger.entries);
        RegisterMore(cs, start, records, r.value, ledger, ledger.entries);
      }
    }

    /** A whole request: ledger, records and error are those of the specified run. The evidence in memory is what was
        there with the executed plans registered over the shared ledger, and what audits loaded from the database; the
        database is what it was with the executed plans saved. */
    method ExecutePlans(env: Env, envelope: SignedEnvelope, plans: seq<ActionPlan>)
      returns (records: seq<Done>, error: Option<RouteError>)
      requires Valid() && env.cs == cs
      modifies ledger, store, store.persistence
      ensures RunResult(ledger.entries, records, error) == Run(env, envelope, plans, old(ledger.entries))
      ensures Valid() && Holds(RegisterAll(cs, old(Now()), records, ledger, ledger.entries))
    {
      records := [];
      var previous: Option<ActionResult> := None;
      ghost var step, n := StepperFor(env, envelope, plans), |plans|;
      ghost var whole := RunFrom(step, n, 0, ledger.entries, None);
      HoldsNow();
      for i := 0 to |plans|
        invariant Valid() && step == StepperFor(env, envelope, plans)
        invariant whole == Prepend(records, RunFrom(step, n, i, ledger.entries, previous))
        invariant Underway(old(Now()), records)
      {
        ghost var entries := ledger.entries;
        var executed := ExecuteNext(env, envelope, plans[i], previous, i, old(Now()), records);
        StepIs(env, envelope, plans, i, entries, previous);
        RunEnds(records, step, n, i, entries, previous);
        if executed.Failure? { return records, Some(executed.error); }
        if !executed.value.result.success { return records + [executed.value], None; }
        RunContinues(records, step, n, i, entries, previous);
        records := records + [executed.value];
        previous := Some(executed.value.result);
      }
      assert records + [] == records;
      return records, None;
    }

    // ---- Across processes ----

    /** A plan executed for an earlier request, by this process or one before it on the same database, whose record is
        still saved as that request left it: if it is not in memory, looking it up finds the facts that were
        registered, or those of a later plan of the same name in that request, and passes extraction, hash and Merkle
        links. */
    lemma {:induction false} ExecutedIsFoundLater(env: Env, envelope: SignedEnvelope, plans: seq<ActionPlan>,
                                                  before: seq<LedgerEntry>, start: Held, l: Ledger, k: nat, o: Outside,
                                                  s: Snapshot) returns (j: nat)
      requires Valid() && env.cs == cs && Intact(cs, before) && start.saved.Some?
      requires k < |Run(env, envelope, plans, before).done|
      requires var run := Run(env, envelope, plans, before);
               var after, id := RegisterAll(cs, start, run.done, l, run.entries), run.done[k].facts.actionId;
               && id !in store.evidence && id in Now().Records() && id in after.Records()
               && Now().Records()[id] == after.Records()[id]
      ensures var run := Run(env, envelope, plans, before);
              var id := run.done[k].facts.actionId;
              && k <= j < |run.done| && run.done[j].facts.actionId == id
              && store.Find(id).Evidence? && store.Find(id).facts == run.done[j].facts
              && (CanParse(o, run.done[j].facts) ==> ThreeLinksPass(Answer(cs, o, s, None, Some(id), store.Find(id))))
    {
      j := SavedRunDecodes(env, envelope, plans, before, start, l, k);
      RegisteredVerifies(Run(env, envelope, plans, before).done[k].facts.actionId, o, s);
    }
  }
}
