/** The sandboxed file agent's effects on its workspace (aor/agents/file.py). */
module FileAgentCore {
  import opened Prelude
  import opened Crypto
  import opened AgentBase
  import UnifiedDiff
  import DiffTheorems
  import DiffInverse

  /** A resolved path; only equality matters. */
  type Path = string

  const CAPABILITIES := {"file.read", "file.create", "file.update", "file.rename", "file.delete"}

  /** What the agent takes from outside: path resolution below the workspace, text encoding, and the backup records. */
  datatype Config = Config(
    cs: Suite,
    agentId: string,
    resolve: string -> Option<Path>,               // nothing for a path outside the workspace
    parents: Path -> set<Path>,
    encode: string -> Bytes,
    recordPath: (string, Path, Option<string>, Option<string>) -> Path,
    recordText: (string, Path, Option<string>, Option<string>) -> string,
    inBackup: Path -> bool
  )

  ghost predicate RecordsGoToBackup(cfg: Config) {
    forall action, path, before, after :: cfg.inBackup(cfg.recordPath(action, path, before, after))
  }

  /** The workspace: text files and directories. */
  datatype Disk = Disk(files: map<Path, string>, dirs: set<Path>) {
    predicate Exists(p: Path) { p in files || p in dirs }
  }

  datatype FileError =
    | AgentTypeMismatch | AgentIdMismatch | UnsupportedActionType | PolicyDecisionRejected | PayloadHashMismatch
    | ActionTypeMismatch
    | Required(key: string) | PathOutsideWorkspace | FileNotFound | FileAlreadyExists | ConfirmationRequired
    | DestinationIsDirectory
    | PatchRejected(why: UnifiedDiff.DiffError)
    | Raised  // an exception that is not the agent's own

  datatype Effect = Effect(path: Path, destination: Option<Path>, beforeHash: Option<string>, afterHash: Option<string>,
                           backupRef: Option<Path>)

  datatype Done = Done(artifact: Path, content: Option<string>, effect: Effect)

  type Outcome = Result<Done, FileError>

  function DigestOf(cfg: Config, text: string): string {
    Hex(cfg.cs.sha3(cfg.encode(text)))
  }

  /** The digest of a file's present content, if there is a file. */
  function DigestAt(cfg: Config, d: Disk, p: Path): Option<string> {
    if p in d.files then Some(DigestOf(cfg, d.files[p])) else None
  }

  function RequiredString(payload: Dict, key: string): Result<string, FileError> {
    if key in payload && payload[key].JStr? && payload[key].s != "" then Success(payload[key].s)
    else Failure(Required(key))
  }

  function ResolveKey(cfg: Config, payload: Dict, key: string): Result<Path, FileError> {
    match RequiredString(payload, key)
    case Failure(e) => Failure(e)
    case Success(name) =>
      match cfg.resolve(name)
      case None => Failure(PathOutsideWorkspace)
      case Some(p) => Success(p)
  }

  // ---- Each action, as a change of the disk ----

  function WriteRecord(cfg: Config, d: Disk, action: string, p: Path, before: Option<string>,
                       after: Option<string>): Disk {
    d.(files := d.files[cfg.recordPath(action, p, before, after) := cfg.recordText(action, p, before, after)])
  }

  /** `mkdir(parents=True, exist_ok=True)`: fails when something on the way is a file. */
  function MakeParents(cfg: Config, d: Disk, p: Path): Option<Disk> {
    if cfg.parents(p) * d.files.Keys != {} then None else Some(d.(dirs := d.dirs + cfg.parents(p)))
  }

  function Changed(cfg: Config, action: string, p: Path, before: Option<string>, after: Option<string>): Done {
    Done(p, None, Effect(p, None,
                         if before.Some? then Some(DigestOf(cfg, before.value)) else None,
                         if after.Some? then Some(DigestOf(cfg, after.value)) else None,
                         Some(cfg.recordPath(action, p, before, after))))
  }

  function Read(cfg: Config, d: Disk, p: Path): Outcome {
    if p !in d.files then Failure(FileNotFound)
    else
      var digest := DigestOf(cfg, d.files[p]);
      Success(Done(p, Some(d.files[p]), Effect(p, None, Some(digest), Some(digest), None)))
  }

  function Create(cfg: Config, d: Disk, p: Path, payload: Dict): (Disk, Outcome) {
    if d.Exists(p) then (d, Failure(FileAlreadyExists))
    else match RequiredString(payload, "content")
      case Failure(e) => (d, Failure(e))
      case Success(content) =>
        match MakeParents(cfg, d, p)
        case None => (d, Failure(Raised))
        case Some(ready) =>
          var written := ready.(files := ready.files[p := content]);
          (WriteRecord(cfg, written, "file.create", p, None, Some(content)),
           Success(Changed(cfg, "file.create", p, None, Some(content))))
  }

  function Update(cfg: Config, d: Disk, p: Path, payload: Dict): (Disk, Outcome) {
    if p !in d.files then (d, Failure(FileNotFound))
    else match RequiredString(payload, "patch")
      case Failure(e) => (d, Failure(e))
      case Success(patch) =>
        var before := d.files[p];
        match UnifiedDiff.Apply(before, patch)
        case Failure(why) => (d, Failure(if why.IndexError? then Raised else PatchRejected(why)))
        case Success(after) =>
          var recorded := WriteRecord(cfg, d, "file.update", p, Some(before), Some(after));
          (recorded.(files := recorded.files[p := after]),
           Success(Changed(cfg, "file.update", p, Some(before), Some(after))))
  }

  function Delete(cfg: Config, d: Disk, p: Path, confirmed: bool): (Disk, Outcome) {
    if !confirmed then (d, Failure(ConfirmationRequired))
    else if p !in d.files then (d, Failure(FileNotFound))
    else
      var before := d.files[p];
      var recorded := WriteRecord(cfg, d, "file.delete", p, Some(before), None);
      (recorded.(files := recorded.files - {p}), Success(Changed(cfg, "file.delete", p, Some(before), None)))
  }

  function Rename(cfg: Config, d: Disk, p: Path, to: Path, confirmed: bool): (Disk, Outcome) {
    if d.Exists(to) && !confirmed then (d, Failure(ConfirmationRequired))
    else if p !in d.files then (d, Failure(FileNotFound))
    else if to in d.dirs then (d, Failure(DestinationIsDirectory))
    else match MakeParents(cfg, d, to)
      case None => (d, Failure(Raised))
      case Some(ready) =>
        var text := d.files[p];
        var recorded := WriteRecord(cfg, ready, "file.rename", p, Some(p), Some(to));
        var moved := recorded.(files := (recorded.files - {p})[to := text]);
        (moved, Success(Done(to, None, Effect(p, Some(to), Some(DigestOf(cfg, text)), Some(DigestOf(cfg, text)),
                                              Some(cfg.recordPath("file.rename", p, Some(p), Some(to)))))))
  }

  function Perform(cfg: Config, d: Disk, plan: ActionPlan): (Disk, Outcome) {
    match ResolveKey(cfg, plan.payload, "path")
    case Failure(e) => (d, Failure(e))
    case Success(p) =>
      if plan.actionType == "file.read" then (d, Read(cfg, d, p))
      else if plan.actionType == "file.create" then Create(cfg, d, p, plan.payload)
      else if plan.actionType == "file.update" then Update(cfg, d, p, plan.payload)
      else if plan.actionType == "file.delete" then Delete(cfg, d, p, plan.confirmed)
      else if plan.actionType == "file.rename" then
        match ResolveKey(cfg, plan.payload, "destination")
        case Failure(e) => (d, Failure(e))
        case Success(to) => Rename(cfg, d, p, to, plan.confirmed)
      else (d, Failure(UnsupportedActionType))
  }

  /** The checks that bind a plan to its proof before anything is touched. */
  function Guard(cfg: Config, plan: ActionPlan, actionPayloadHash: string,
                 actionType: Option<string>): Option<FileError> {
    if plan.agentType != "file" then Some(AgentTypeMismatch)
    else if plan.agentId.Some? && plan.agentId.value != cfg.agentId then Some(AgentIdMismatch)
    else if plan.actionType !in CAPABILITIES then Some(UnsupportedActionType)
    else if plan.policyDecision != "allow" then Some(PolicyDecisionRejected)
    else if Hex(HashPayload(cfg.cs, JObj(plan.payload))) != actionPayloadHash then Some(PayloadHashMismatch)
    else if actionType.Some? && actionType.value != plan.actionType then Some(ActionTypeMismatch)
    else None
  }

  function ExecuteOn(cfg: Config, d: Disk, plan: ActionPlan, actionPayloadHash: string,
                     actionType: Option<string>): (Disk, Outcome) {
    match Guard(cfg, plan, actionPayloadHash, actionType)
    case Some(e) => (d, Failure(e))
    case None => Perform(cfg, d, plan)
  }

  class FileAgent {
    const cfg: Config
    var disk: Disk

    constructor (cfg: Config, disk: Disk)
      ensures this.cfg == cfg && this.disk == disk
    {
      this.cfg := cfg;
      this.disk := disk;
    }

    method WriteChangeRecord(action: string, p: Path, before: Option<string>, after: Option<string>) returns (ref: Path)
      modifies this
      ensures disk == WriteRecord(cfg, old(disk), action, p, before, after)
      ensures ref == cfg.recordPath(action, p, before, after)
    {
      ref := cfg.recordPath(action, p, before, after);
      disk := disk.(files := disk.files[ref := cfg.recordText(action, p, before, after)]);
    }

    method CreateFile(p: Path, payload: Dict) returns (r: Outcome)
      modifies this
      ensures (disk, r) == Create(cfg, old(disk), p, payload)
    {
      if disk.Exists(p) { return Failure(FileAlreadyExists); }
      var content := RequiredString(payload, "content");
      if content.Failure? { return Failure(content.error); }
      var ready := MakeParents(cfg, disk, p);
      if ready.None? { return Failure(Raised); }
      disk := ready.value;
      disk := disk.(files := disk.files[p := content.value]);
      var afterHash := DigestOf(cfg, content.value);
      var ref := WriteChangeRecord("file.create", p, None, Some(content.value));
      return Success(Done(p, None, Effect(p, None, None, Some(afterHash), Some(ref))));
    }

    method UpdateFile(p: Path, payload: Dict) returns (r: Outcome)
      modifies this
      ensures (disk, r) == Update(cfg, old(disk), p, payload)
    {
      if p !in disk.files { return Failure(FileNotFound); }
      var before := disk.files[p];
      var patch := RequiredString(payload, "patch");
      if patch.Failure? { return Failure(patch.error); }
      var patched := UnifiedDiff.ApplyUnifiedDiff(before, patch.value);
      if patched.Failure? {
        return Failure(if patched.error.IndexError? then Raised else PatchRejected(patched.error));
      }
      var after := patched.value;
      var beforeHash, afterHash := DigestOf(cfg, before), DigestOf(cfg, after);
      var ref := WriteChangeRecord("file.update", p, Some(before), Some(after));
      disk := disk.(files := disk.files[p := after]);
      return Success(Done(p, None, Effect(p, None, Some(beforeHash), Some(afterHash), Some(ref))));
    }

    method DeleteFile(p: Path, confirmed: bool) returns (r: Outcome)
      modifies this
      ensures (disk, r) == Delete(cfg, old(disk), p, confirmed)
    {
      if !confirmed { return Failure(ConfirmationRequired); }
      if p !in disk.files { return Failure(FileNotFound); }
      var before := disk.files[p];
      var beforeHash := DigestOf(cfg, before);
      var ref := WriteChangeRecord("file.delete", p, Some(before), None);
      disk := disk.(files := disk.files - {p});
      return Success(Done(p, None, Effect(p, None, Some(beforeHash), None, Some(ref))));
    }

    /** The after-hash is read back from the destination. */
    method RenameFile(p: Path, to: Path, confirmed: bool) returns (r: Outcome)
      modifies this
      ensures (disk, r) == Rename(cfg, old(disk), p, to, confirmed)
    {
      if disk.Exists(to) && !confirmed { return Failure(ConfirmationRequired); }
      if p !in disk.files { return Failure(FileNotFound); }
      if to in disk.dirs { return Failure(DestinationIsDirectory); }
      var text := disk.files[p];
      var beforeHash := DigestOf(cfg, text);
      var ready := MakeParents(cfg, disk, to);
      if ready.None? { return Failure(Raised); }
      disk := ready.value;
      var ref := WriteChangeRecord("file.rename", p, Some(p), Some(to));
      disk := disk.(files := (disk.files - {p})[to := text]);
      return Success(Done(to, None, Effect(p, Some(to), Some(beforeHash), Some(DigestOf(cfg, disk.files[to])),
                                           Some(ref))));
    }

    method ExecuteChecked(plan: ActionPlan) returns (r: Outcome)
      modifies this
      ensures (disk, r) == Perform(cfg, old(disk), plan)
    {
      var path := ResolveKey(cfg, plan.payload, "path");
      if path.Failure? { return Failure(path.error); }
      var p := path.value;
      if plan.actionType == "file.read" { return Read(cfg, disk, p); }
      if plan.actionType == "file.create" { r := CreateFile(p, plan.payload); return; }
      if plan.actionType == "file.update" { r := UpdateFile(p, plan.payload); return; }
      if plan.actionType == "file.delete" { r := DeleteFile(p, plan.confirmed); return; }
      if plan.actionType == "file.rename" {
        var to := ResolveKey(cfg, plan.payload, "destination");
        if to.Failure? { return Failure(to.error); }
        r := RenameFile(p, to.value, plan.confirmed);
        return;
      }
      return Failure(UnsupportedActionType);
    }

    method Execute(plan: ActionPlan, actionPayloadHash: string, actionType: Option<string>) returns (r: Outcome)
      modifies this
      ensures (disk, r) == ExecuteOn(cfg, old(disk), plan, actionPayloadHash, actionType)
    {
      var refused := Guard(cfg, plan, actionPayloadHash, actionType);
      if refused.Some? { return Failure(refused.value); }
      r := ExecuteChecked(plan);
    }
  }

  // ---- Effects ----

  /** The file an effect's after-hash is about. */
  function Affected(e: Effect): Path {
    if e.destination.Some? then e.destination.value else e.path
  }

  /** An action that fails, for whatever reason, leaves files and directories as they were. */
  lemma FailureChangesNothing(cfg: Config, d: Disk, plan: ActionPlan, hash: string, actionType: Option<string>)
    requires ExecuteOn(cfg, d, plan, hash, actionType).1.Failure?
    ensures ExecuteOn(cfg, d, plan, hash, actionType).0 == d
  {
  }

  /** What an effect reports about the disk before and after it. */
  ghost predicate Reports(cfg: Config, d: Disk, d': Disk, e: Effect) {
    && e.beforeHash == DigestAt(cfg, d, e.path)
    && e.afterHash == DigestAt(cfg, d', Affected(e))
    && (e.path != Affected(e) ==> e.path !in d'.files && e.afterHash == e.beforeHash)
    && (forall p :: !cfg.inBackup(p) && p != e.path && p != Affected(e) ==>
          (p in d'.files <==> p in d.files) && (p in d.files ==> d'.files[p] == d.files[p]))
  }

  /** A successful action reports the digests of the affected file just before and just after, empties the old name of a
      renamed file, and touches no other file outside the backup directory. */
  lemma {:induction false} SuccessIsReported(cfg: Config, d: Disk, plan: ActionPlan, hash: string,
                                             actionType: Option<string>)
    requires RecordsGoToBackup(cfg)
    requires ExecuteOn(cfg, d, plan, hash, actionType).1.Success?
    requires var e := ExecuteOn(cfg, d, plan, hash, actionType).1.value.effect;
             !cfg.inBackup(e.path) && !cfg.inBackup(Affected(e))
    ensures var (d', r) := ExecuteOn(cfg, d, plan, hash, actionType); Reports(cfg, d, d', r.value.effect)
  {
    var p := ResolveKey(cfg, plan.payload, "path").value;
    if plan.actionType == "file.create" {
      CreateReported(cfg, d, p, plan.payload);
    } else if plan.actionType == "file.update" {
      UpdateReported(cfg, d, p, plan.payload);
    } else if plan.actionType == "file.delete" {
      DeleteReported(cfg, d, p, plan.confirmed);
    } else if plan.actionType == "file.rename" {
      RenameReported(cfg, d, p, ResolveKey(cfg, plan.payload, "destination").value, plan.confirmed);
    }
  }

  lemma {:induction false} CreateReported(cfg: Config, d: Disk, p: Path, payload: Dict)
    requires RecordsGoToBackup(cfg) && !cfg.inBackup(p) && Create(cfg, d, p, payload).1.Success?
    ensures Reports(cfg, d, Create(cfg, d, p, payload).0, Create(cfg, d, p, payload).1.value.effect)
  {
  }

  lemma {:induction false} UpdateReported(cfg: Config, d: Disk, p: Path, payload: Dict)
    requires RecordsGoToBackup(cfg) && !cfg.inBackup(p) && Update(cfg, d, p, payload).1.Success?
    ensures Reports(cfg, d, Update(cfg, d, p, payload).0, Update(cfg, d, p, payload).1.value.effect)
  {
    OverwriteReported(cfg, d, p, UnifiedDiff.Apply(d.files[p], payload["patch"].s).value);
  }

  lemma {:induction false} OverwriteReported(cfg: Config, d: Disk, p: Path, after: string)
    requires RecordsGoToBackup(cfg) && !cfg.inBackup(p) && p in d.files
    ensures var recorded := WriteRecord(cfg, d, "file.update", p, Some(d.files[p]), Some(after));
            Reports(cfg, d, recorded.(files := recorded.files[p := after]),
                    Changed(cfg, "file.update", p, Some(d.files[p]), Some(after)).effect)
  {
  }

  lemma {:induction false} DeleteReported(cfg: Config, d: Disk, p: Path, confirmed: bool)
    requires RecordsGoToBackup(cfg) && !cfg.inBackup(p) && Delete(cfg, d, p, confirmed).1.Success?
    ensures Reports(cfg, d, Delete(cfg, d, p, confirmed).0, Delete(cfg, d, p, confirmed).1.value.effect)
  {
  }

  lemma {:induction false} RenameReported(cfg: Config, d: Disk, p: Path, to: Path, confirmed: bool)
    requires RecordsGoToBackup(cfg) && !cfg.inBackup(p) && !cfg.inBackup(to)
    requires Rename(cfg, d, p, to, confirmed).1.Success?
    ensures Reports(cfg, d, Rename(cfg, d, p, to, confirmed).0, Rename(cfg, d, p, to, confirmed).1.value.effect)
  {
  }

  /** An update undone by the update with the inverse patch: the file's text, and so its digest, is back. */
  lemma {:induction false} UpdateIsUndone(cfg: Config, d: Disk, p: Path, names: seq<string>, hs: seq<DiffTheorems.Hunk>,
                                          payload: Dict, undo: Dict)
    requires RecordsGoToBackup(cfg) && !cfg.inBackup(p)
    requires RequiredString(payload, "patch") == Success(DiffTheorems.PatchText(names, hs))
    requires RequiredString(undo, "patch") == Success(DiffTheorems.PatchText(names, DiffInverse.InvertAll(hs)))
    requires Update(cfg, d, p, payload).1.Success?
    requires UnifiedDiff.AllTerminated(UnifiedDiff.SplitLines(d.files[p])) && DiffInverse.TextsTerminated(hs)
    requires UnifiedDiff.AllTerminated(names) && DiffTheorems.NoHunkIn(names)
    requires hs != [] && DiffTheorems.Ordered(hs, 0) && DiffTheorems.Consistent(hs, 0) && DiffTheorems.AllHaveNew(hs)
    ensures var changed := Update(cfg, d, p, payload).0;
            var (restored, r) := Update(cfg, changed, p, undo);
            && r.Success? && p in restored.files && restored.files[p] == d.files[p]
            && r.value.effect.afterHash == Update(cfg, d, p, payload).1.value.effect.beforeHash
  {
    var patched := UnifiedDiff.Apply(d.files[p], DiffTheorems.PatchText(names, hs)).value;
    DiffInverse.PatchThenInverse(d.files[p], names, names, hs, patched);
    AfterUpdate(cfg, d, p, payload, patched);
    AfterUpdate(cfg, Update(cfg, d, p, payload).0, p, undo, d.files[p]);
  }

  lemma {:induction false} AfterUpdate(cfg: Config, d: Disk, p: Path, payload: Dict, after: string)
    requires RecordsGoToBackup(cfg) && !cfg.inBackup(p) && p in d.files && RequiredString(payload, "patch").Success?
    requires UnifiedDiff.Apply(d.files[p], RequiredString(payload, "patch").value) == Success(after)
    ensures var (d', r) := Update(cfg, d, p, payload);
            && r.Success? && p in d'.files && d'.files[p] == after
            && r.value.effect.beforeHash == Some(DigestOf(cfg, d.files[p]))
            && r.value.effect.afterHash == Some(DigestOf(cfg, after))
  {
  }

  // ---- Runs ----

  datatype Request = Request(plan: ActionPlan, hash: string, actionType: Option<string>)

  /** How one request changes the disk. */
  type Executor = (Disk, Request) -> (Disk, Outcome)

  function AgentExecutor(cfg: Config): Executor {
    (d: Disk, r: Request) => ExecuteOn(cfg, d, r.plan, r.hash, r.actionType)
  }

  /** The disk before request `i`. */
  function Before(run: Executor, d: Disk, requests: seq<Request>, i: nat): Disk
    requires i <= |requests|
  {
    if i == 0 then d else run(Before(run, d, requests, i - 1), requests[i - 1]).0
  }

  function OutcomeAt(run: Executor, d: Disk, requests: seq<Request>, i: nat): Outcome
    requires i < |requests|
  {
    run(Before(run, d, requests, i), requests[i]).1
  }

  /** Request `i` succeeds, with effect `e`. */
  predicate HasEffect(run: Executor, d: Disk, requests: seq<Request>, i: nat, e: Effect)
    requires i < |requests|
  {
    OutcomeAt(run, d, requests, i).Success? && OutcomeAt(run, d, requests, i).value.effect == e
  }

  /** Request `i` succeeds with `p` as the file it names or, for a rename, moves to. */
  predicate Touches(run: Executor, d: Disk, requests: seq<Request>, i: nat, p: Path)
    requires i < |requests|
  {
    var r := OutcomeAt(run, d, requests, i);
    r.Success? && (p == r.value.effect.path || p == Affected(r.value.effect))
  }

  /** No request succeeds on a file inside the backup directory. */
  predicate OutsideBackup(cfg: Config, run: Executor, d: Disk, requests: seq<Request>) {
    forall i :: 0 <= i < |requests| && OutcomeAt(run, d, requests, i).Success? ==>
      var e := OutcomeAt(run, d, requests, i).value.effect;
      !cfg.inBackup(e.path) && !cfg.inBackup(Affected(e))
  }

  /** What is known of one request: failure changes nothing, success reports its effect. */
  ghost predicate Faithful(cfg: Config, run: Executor) {
    forall d: Disk, r: Request {:trigger run(d, r)} ::
      var (d', outcome) := run(d, r);
      && (outcome.Failure? ==> d' == d)
      && (outcome.Success? && !cfg.inBackup(outcome.value.effect.path)
          && !cfg.inBackup(Affected(outcome.value.effect)) ==>
            Reports(cfg, d, d', outcome.value.effect))
  }

  lemma AgentIsFaithful(cfg: Config)
    requires RecordsGoToBackup(cfg)
    ensures Faithful(cfg, AgentExecutor(cfg))
  {
    var run := AgentExecutor(cfg);
    forall d: Disk, r: Request
      ensures run(d, r).1.Failure? ==> run(d, r).0 == d
      ensures run(d, r).1.Success? && !cfg.inBackup(run(d, r).1.value.effect.path)
              && !cfg.inBackup(Affected(run(d, r).1.value.effect)) ==>
                Reports(cfg, d, run(d, r).0, run(d, r).1.value.effect)
    {
      if run(d, r).1.Failure? {
        FailureChangesNothing(cfg, d, r.plan, r.hash, r.actionType);
      } else if !cfg.inBackup(run(d, r).1.value.effect.path) && !cfg.inBackup(Affected(run(d, r).1.value.effect)) {
        SuccessIsReported(cfg, d, r.plan, r.hash, r.actionType);
      }
    }
  }

  lemma {:induction false} StepReported(cfg: Config, run: Executor, d: Disk, requests: seq<Request>, i: nat, e: Effect)
    requires Faithful(cfg, run) && OutsideBackup(cfg, run, d, requests) && i < |requests|
    ensures HasEffect(run, d, requests, i, e) ==>
              && !cfg.inBackup(e.path)
              && Reports(cfg, Before(run, d, requests, i), Before(run, d, requests, i + 1), e)
    ensures OutcomeAt(run, d, requests, i).Failure? ==> Before(run, d, requests, i + 1) == Before(run, d, requests, i)
  {
  }

  /** A file no request touches keeps its content. */
  lemma {:induction false} UntouchedFileKept(cfg: Config, run: Executor, d: Disk, requests: seq<Request>, i: nat,
                                             j: nat, p: Path)
    requires Faithful(cfg, run) && OutsideBackup(cfg, run, d, requests) && i <= j <= |requests| && !cfg.inBackup(p)
    requires forall k :: i <= k < j ==> !Touches(run, d, requests, k, p)
    ensures p in Before(run, d, requests, i).files <==> p in Before(run, d, requests, j).files
    ensures p in Before(run, d, requests, i).files ==>
              Before(run, d, requests, i).files[p] == Before(run, d, requests, j).files[p]
    decreases j
  {
    if i < j {
      UntouchedFileKept(cfg, run, d, requests, i, j - 1, p);
      assert !Touches(run, d, requests, j - 1, p);
      var r := OutcomeAt(run, d, requests, j - 1);
      if r.Success? { StepReported(cfg, run, d, requests, j - 1, r.value.effect); }
    }
  }

  /** In any run of the agent consecutive effects on one file link up: what the earlier left, the later found. */
  lemma {:induction false} EffectsLinkUp(cfg: Config, d: Disk, requests: seq<Request>, i: nat, j: nat, first: Effect,
                                         second: Effect)
    requires RecordsGoToBackup(cfg) && OutsideBackup(cfg, AgentExecutor(cfg), d, requests) && i < j < |requests|
    requires HasEffect(AgentExecutor(cfg), d, requests, i, first)
    requires HasEffect(AgentExecutor(cfg), d, requests, j, second)
    requires Affected(first) == second.path
    requires forall k :: i < k < j ==> !Touches(AgentExecutor(cfg), d, requests, k, second.path)
    ensures first.afterHash == second.beforeHash
  {
    AgentIsFaithful(cfg);
    LinkUp(cfg, AgentExecutor(cfg), d, requests, i, j, first, second);
  }

  lemma {:induction false} LinkUp(cfg: Config, run: Executor, d: Disk, requests: seq<Request>, i: nat, j: nat,
                                  first: Effect, second: Effect)
    requires Faithful(cfg, run) && OutsideBackup(cfg, run, d, requests) && i < j < |requests|
    requires HasEffect(run, d, requests, i, first) && HasEffect(run, d, requests, j, second)
    requires Affected(first) == second.path
    requires forall k :: i < k < j ==> !Touches(run, d, requests, k, second.path)
    ensures first.afterHash == second.beforeHash
  {
    StepReported(cfg, run, d, requests, i, first);
    StepReported(cfg, run, d, requests, j, second);
    UntouchedFileKept(cfg, run, d, requests, i + 1, j, second.path);
  }
}
