/** Exactly which plans the file agent carries out, what it then has done, and why it refuses the others. */
module FileMeaning {
  import opened Prelude
  import opened Crypto
  import opened AgentBase
  import opened FileAgentCore
  import UnifiedDiff

  // ---- The plan is the one the proof was signed for ----

  predicate ForThisAgent(cfg: Config, plan: ActionPlan) {
    plan.agentType == "file" && (plan.agentId.Some? ==> plan.agentId.value == cfg.agentId)
  }

  predicate Supported(plan: ActionPlan) {
    plan.actionType in {"file.read", "file.create", "file.update", "file.rename", "file.delete"}
  }

  /** The payload hashes to what the proof says. */
  predicate SignedFor(cfg: Config, plan: ActionPlan, hash: string) {
    Hex(cfg.cs.sha3(cfg.cs.jcs(JObj(plan.payload)))) == hash
  }

  predicate Bound(cfg: Config, plan: ActionPlan, hash: string, actionType: Option<string>) {
    && ForThisAgent(cfg, plan) && Supported(plan) && plan.policyDecision == "allow" && SignedFor(cfg, plan, hash)
    && (actionType.Some? ==> actionType.value == plan.actionType)
  }

  // ---- What each action needs ----

  predicate HasText(payload: Dict, key: string, text: string) {
    text != "" && key in payload && payload[key] == JStr(text)
  }

  ghost predicate SomeText(payload: Dict, key: string) {
    exists text :: HasText(payload, key, text)
  }

  /** The payload names this path, inside the workspace. */
  ghost predicate NamesPath(cfg: Config, payload: Dict, key: string, p: Path) {
    exists name :: HasText(payload, key, name) && cfg.resolve(name) == Some(p)
  }

  predicate NoFileAbove(cfg: Config, d: Disk, p: Path) {
    forall q :: q in cfg.parents(p) ==> q !in d.files
  }

  ghost predicate CanUpdate(d: Disk, p: Path, payload: Dict) {
    p in d.files && exists patch :: HasText(payload, "patch", patch) && UnifiedDiff.Apply(d.files[p], patch).Success?
  }

  /** The file exists, the destination is no directory and has no file above it, and a file already there may be
      replaced. */
  predicate CanRename(cfg: Config, d: Disk, p: Path, to: Path, confirmed: bool) {
    && p in d.files && to !in d.dirs && (to in d.files ==> confirmed) && NoFileAbove(cfg, d, to)
  }

  /** What carrying out the action on `p` takes. */
  ghost predicate Possible(cfg: Config, d: Disk, plan: ActionPlan, p: Path) {
    if plan.actionType == "file.read" then p in d.files
    else if plan.actionType == "file.create" then
      p !in d.files && p !in d.dirs && SomeText(plan.payload, "content") && NoFileAbove(cfg, d, p)
    else if plan.actionType == "file.update" then CanUpdate(d, p, plan.payload)
    else if plan.actionType == "file.delete" then plan.confirmed && p in d.files
    else exists to ::
      NamesPath(cfg, plan.payload, "destination", to) && CanRename(cfg, d, p, to, plan.confirmed)
  }

  // ---- What each action does ----

  predicate IsDigest(cfg: Config, text: Option<string>, digest: Option<string>) {
    digest == match text
              case None => None
              case Some(t) => Some(Hex(cfg.cs.sha3(cfg.encode(t))))
  }

  /** The report: the file, its digests before and after, and where the change is recorded. */
  predicate ReportsChange(cfg: Config, r: Done, artifact: Path, p: Path, to: Option<Path>, before: Option<string>,
                          after: Option<string>, ref: Option<Path>) {
    && r.artifact == artifact && r.effect.path == p && r.effect.destination == to && r.effect.backupRef == ref
    && IsDigest(cfg, before, r.effect.beforeHash) && IsDigest(cfg, after, r.effect.afterHash)
  }

  /** Reading changes nothing and returns the file's text. */
  predicate HasRead(cfg: Config, d: Disk, p: Path, d': Disk, r: Done)
    requires p in d.files
  {
    var text := Some(d.files[p]);
    d' == d && r.content == text && ReportsChange(cfg, r, p, p, None, text, text, None)
  }

  /** A created file holds the payload's content, below directories made for it. */
  ghost predicate HasCreated(cfg: Config, d: Disk, p: Path, payload: Dict, d': Disk, r: Done) {
    exists text :: HasText(payload, "content", text)
      && var ref := cfg.recordPath("file.create", p, None, Some(text));
         && d'.files == d.files[p := text][ref := cfg.recordText("file.create", p, None, Some(text))]
         && d'.dirs == d.dirs + cfg.parents(p)
         && r.content == None && ReportsChange(cfg, r, p, p, None, None, Some(text), Some(ref))
  }

  /** An updated file holds what the payload's patch makes of its text. */
  ghost predicate HasUpdated(cfg: Config, d: Disk, p: Path, payload: Dict, d': Disk, r: Done)
    requires p in d.files
  {
    exists patch, text ::
      && HasText(payload, "patch", patch) && UnifiedDiff.Apply(d.files[p], patch) == Success(text)
      && var before, after := Some(d.files[p]), Some(text);
         var ref := cfg.recordPath("file.update", p, before, after);
         && d'.files == d.files[ref := cfg.recordText("file.update", p, before, after)][p := text]
         && d'.dirs == d.dirs
         && r.content == None && ReportsChange(cfg, r, p, p, None, before, after, Some(ref))
  }

  /** A deleted file is gone, its text kept in the record. */
  predicate HasDeleted(cfg: Config, d: Disk, p: Path, d': Disk, r: Done)
    requires p in d.files
  {
    var before := Some(d.files[p]);
    var ref := cfg.recordPath("file.delete", p, before, None);
    && d'.files == d.files[ref := cfg.recordText("file.delete", p, before, None)] - {p} && d'.dirs == d.dirs
    && r.content == None && ReportsChange(cfg, r, p, p, None, before, None, Some(ref))
  }

  /** A renamed file's text is at the destination and no longer at the old path. */
  predicate HasRenamed(cfg: Config, d: Disk, p: Path, to: Path, d': Disk, r: Done)
    requires p in d.files
  {
    var text := Some(d.files[p]);
    var ref := cfg.recordPath("file.rename", p, Some(p), Some(to));
    && d'.files == (d.files[ref := cfg.recordText("file.rename", p, Some(p), Some(to))] - {p})[to := d.files[p]]
    && d'.dirs == d.dirs + cfg.parents(to)
    && r.content == None && ReportsChange(cfg, r, to, p, Some(to), text, text, Some(ref))
  }

  ghost predicate HasDone(cfg: Config, d: Disk, plan: ActionPlan, p: Path, d': Disk, r: Done) {
    if plan.actionType == "file.create" then HasCreated(cfg, d, p, plan.payload, d', r)
    else p in d.files &&
         if plan.actionType == "file.read" then HasRead(cfg, d, p, d', r)
         else if plan.actionType == "file.update" then HasUpdated(cfg, d, p, plan.payload, d', r)
         else if plan.actionType == "file.delete" then HasDeleted(cfg, d, p, d', r)
         else exists to :: NamesPath(cfg, plan.payload, "destination", to) && HasRenamed(cfg, d, p, to, d', r)
  }

  // ---- Why plans are refused ----

  /** The first of the checks that bind a plan to its proof that fails. */
  predicate UnboundAs(cfg: Config, plan: ActionPlan, hash: string, actionType: Option<string>, e: FileError) {
    if plan.agentType != "file" then e == AgentTypeMismatch
    else if !ForThisAgent(cfg, plan) then e == AgentIdMismatch
    else if !Supported(plan) then e == UnsupportedActionType
    else if plan.policyDecision != "allow" then e == PolicyDecisionRejected
    else if !SignedFor(cfg, plan, hash) then e == PayloadHashMismatch
    else e == ActionTypeMismatch
  }

  /** The payload has no such text, or it leads outside the workspace. */
  ghost predicate NoPathAs(payload: Dict, key: string, e: FileError) {
    e == if SomeText(payload, key) then PathOutsideWorkspace else Required(key)
  }

  ghost predicate NotUpdatedAs(d: Disk, p: Path, payload: Dict, e: FileError) {
    if p !in d.files then e == FileNotFound
    else if !SomeText(payload, "patch") then e == Required("patch")
    else exists patch ::
      && HasText(payload, "patch", patch)
      && var r := UnifiedDiff.Apply(d.files[p], patch);
         r.Failure? && e == if r.error.IndexError? then Raised else PatchRejected(r.error)
  }

  predicate NotRenamedAs(d: Disk, p: Path, to: Path, confirmed: bool, e: FileError) {
    if (to in d.files || to in d.dirs) && !confirmed then e == ConfirmationRequired
    else if p !in d.files then e == FileNotFound
    else if to in d.dirs then e == DestinationIsDirectory
    else e == Raised
  }

  /** Why the action on `p` was not carried out. */
  ghost predicate ImpossibleAs(cfg: Config, d: Disk, plan: ActionPlan, p: Path, e: FileError) {
    if plan.actionType == "file.read" then e == FileNotFound
    else if plan.actionType == "file.create" then
      e == if p in d.files || p in d.dirs then FileAlreadyExists
           else if !SomeText(plan.payload, "content") then Required("content")
           else Raised
    else if plan.actionType == "file.update" then NotUpdatedAs(d, p, plan.payload, e)
    else if plan.actionType == "file.delete" then e == if plan.confirmed then FileNotFound else ConfirmationRequired
    else if exists to :: NamesPath(cfg, plan.payload, "destination", to) then
      exists to :: NamesPath(cfg, plan.payload, "destination", to) && NotRenamedAs(d, p, to, plan.confirmed, e)
    else NoPathAs(plan.payload, "destination", e)
  }

  ghost predicate RefusedAs(cfg: Config, d: Disk, plan: ActionPlan, hash: string, actionType: Option<string>,
                            e: FileError) {
    if !Bound(cfg, plan, hash, actionType) then UnboundAs(cfg, plan, hash, actionType, e)
    else if exists p :: NamesPath(cfg, plan.payload, "path", p) then
      exists p :: NamesPath(cfg, plan.payload, "path", p) && ImpossibleAs(cfg, d, plan, p, e)
    else NoPathAs(plan.payload, "path", e)
  }

  // ---- Exactly ----

  lemma GuardExactly(cfg: Config, plan: ActionPlan, hash: string, actionType: Option<string>)
    ensures Guard(cfg, plan, hash, actionType) == None <==> Bound(cfg, plan, hash, actionType)
    ensures Guard(cfg, plan, hash, actionType).Some? ==>
              UnboundAs(cfg, plan, hash, actionType, Guard(cfg, plan, hash, actionType).value)
  {
  }

  lemma RequiredExactly(payload: Dict, key: string)
    ensures forall text :: RequiredString(payload, key) == Success(text) <==> HasText(payload, key, text)
    ensures RequiredString(payload, key).Success? <==> SomeText(payload, key)
    ensures RequiredString(payload, key).Failure? ==> RequiredString(payload, key).error == Required(key)
  {
    if RequiredString(payload, key).Success? { assert HasText(payload, key, RequiredString(payload, key).value); }
  }

  lemma ResolvedExactly(cfg: Config, payload: Dict, key: string)
    ensures forall p :: ResolveKey(cfg, payload, key) == Success(p) <==> NamesPath(cfg, payload, key, p)
    ensures ResolveKey(cfg, payload, key).Failure? ==> NoPathAs(payload, key, ResolveKey(cfg, payload, key).error)
  {
    RequiredExactly(payload, key);
  }

  /** The outcome on `p` is as stated: success exactly when possible, with what was then done, else the reason. */
  ghost predicate Exact(cfg: Config, d: Disk, plan: ActionPlan, p: Path, d': Disk, r: Outcome) {
    && (r.Success? <==> Possible(cfg, d, plan, p))
    && (r.Success? ==> HasDone(cfg, d, plan, p, d', r.value))
    && (r.Failure? ==> d' == d && ImpossibleAs(cfg, d, plan, p, r.error))
  }

  lemma {:induction false} CreateExactly(cfg: Config, d: Disk, plan: ActionPlan, p: Path)
    requires plan.actionType == "file.create"
    ensures var (d', r) := Create(cfg, d, p, plan.payload); Exact(cfg, d, plan, p, d', r)
  {
    RequiredExactly(plan.payload, "content");
    MakeParentsExactly(cfg, d, p);
  }

  lemma MakeParentsExactly(cfg: Config, d: Disk, p: Path)
    ensures MakeParents(cfg, d, p) == if NoFileAbove(cfg, d, p) then Some(d.(dirs := d.dirs + cfg.parents(p))) else None
  {
    if !NoFileAbove(cfg, d, p) {
      var q :| q in cfg.parents(p) && q in d.files;
      assert q in cfg.parents(p) * d.files.Keys;
    } else {
      assert cfg.parents(p) * d.files.Keys == {};
    }
  }

  lemma {:induction false} UpdateExactly(cfg: Config, d: Disk, plan: ActionPlan, p: Path)
    requires plan.actionType == "file.update"
    ensures var (d', r) := Update(cfg, d, p, plan.payload); Exact(cfg, d, plan, p, d', r)
  {
    RequiredExactly(plan.payload, "patch");
  }

  lemma {:induction false} DeleteExactly(cfg: Config, d: Disk, plan: ActionPlan, p: Path)
    requires plan.actionType == "file.delete"
    ensures var (d', r) := Delete(cfg, d, p, plan.confirmed); Exact(cfg, d, plan, p, d', r)
  {
  }

  lemma {:induction false} RenameExactly(cfg: Config, d: Disk, p: Path, to: Path, confirmed: bool)
    ensures var (d', r) := Rename(cfg, d, p, to, confirmed);
            && (r.Success? <==> CanRename(cfg, d, p, to, confirmed))
            && (r.Success? ==> HasRenamed(cfg, d, p, to, d', r.value))
            && (r.Failure? ==> d' == d && NotRenamedAs(d, p, to, confirmed, r.error))
  {
    MakeParentsExactly(cfg, d, to);
  }

  lemma {:induction false} MoveExactly(cfg: Config, d: Disk, plan: ActionPlan, p: Path)
    requires plan.actionType == "file.rename"
    ensures var destination := ResolveKey(cfg, plan.payload, "destination");
            match destination
            case Failure(e) => Exact(cfg, d, plan, p, d, Failure(e))
            case Success(to) =>
              var (d', r) := Rename(cfg, d, p, to, plan.confirmed); Exact(cfg, d, plan, p, d', r)
  {
    ResolvedExactly(cfg, plan.payload, "destination");
    var destination := ResolveKey(cfg, plan.payload, "destination");
    if destination.Success? { RenameExactly(cfg, d, p, destination.value, plan.confirmed); }
  }

  lemma {:induction false} ReadExactly(cfg: Config, d: Disk, plan: ActionPlan, p: Path)
    requires plan.actionType == "file.read"
    ensures Exact(cfg, d, plan, p, d, Read(cfg, d, p))
  {
  }

  lemma {:induction false} PerformExactly(cfg: Config, d: Disk, plan: ActionPlan, p: Path)
    requires Supported(plan) && NamesPath(cfg, plan.payload, "path", p)
    ensures var (d', r) := Perform(cfg, d, plan); Exact(cfg, d, plan, p, d', r)
  {
    ResolvedExactly(cfg, plan.payload, "path");
    if plan.actionType == "file.read" {
      ReadExactly(cfg, d, plan, p);
    } else if plan.actionType == "file.create" {
      CreateExactly(cfg, d, plan, p);
    } else if plan.actionType == "file.update" {
      UpdateExactly(cfg, d, plan, p);
    } else if plan.actionType == "file.delete" {
      DeleteExactly(cfg, d, plan, p);
    } else {
      MoveExactly(cfg, d, plan, p);
    }
  }

  /** For every disk, plan and proof: the plan is carried out exactly when it is the one the proof was signed for, names
      a path in the workspace, and its action is possible there; then the disk and the report are as stated; otherwise
      nothing has changed, and the reason is the first check that fails. */
  lemma {:induction false} ExecutesExactly(cfg: Config, d: Disk, plan: ActionPlan, hash: string,
                                           actionType: Option<string>)
    ensures var (d', r) := ExecuteOn(cfg, d, plan, hash, actionType);
            && (r.Success? <==>
                  && Bound(cfg, plan, hash, actionType)
                  && exists p :: NamesPath(cfg, plan.payload, "path", p) && Possible(cfg, d, plan, p))
            && (r.Success? ==>
                  exists p :: NamesPath(cfg, plan.payload, "path", p) && HasDone(cfg, d, plan, p, d', r.value))
            && (r.Failure? ==> d' == d && RefusedAs(cfg, d, plan, hash, actionType, r.error))
  {
    GuardExactly(cfg, plan, hash, actionType);
    ResolvedExactly(cfg, plan.payload, "path");
    var path := ResolveKey(cfg, plan.payload, "path");
    if Bound(cfg, plan, hash, actionType) && path.Success? { PerformExactly(cfg, d, plan, path.value); }
  }
}
