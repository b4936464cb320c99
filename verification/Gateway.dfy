/** The Agent Control gateway: the two consequential worker operations, composed from the store and
    the sealer. */
module Gateway {
  import opened ByteOrder
  import opened Wrappers
  import opened Artifact
  import opened Candidate
  import opened AgentControl
  import Sealing
  import AgentRuns

  datatype SealAnswer = Executed(artifact: Digest) | Recorded(artifact: Digest) | Declined(code: Text)

  /** Why the sealer failed. A store refusal inside the sealer is not one of the gateway's own. */
  datatype SealProblem =
    | TaskUnusable | SlotInvalid | WorkspaceState
    | Refused(refusal: Refusal)
    | Failed(error: Sealing.SealError)

  datatype GatewayError = Store(refusal: Refusal) | Sealer(problem: SealProblem)

  /** What the Workspace and the entropy source contribute to one publication. */
  datatype Frame = Frame(workspace: Text, repository: Bytes, baseCommit: Bytes, freshId: Text)

  /** What the command envelope finds for one derived command: it is new, it was executed before, or it
      is refused. Only a new command's mutation runs. */
  datatype Standing = Fresh | Replays | Blocked(refusal: Refusal)

  /** The fence's command, the publication's and the failure report's. */
  datatype Envelope = Envelope(fence: Standing, publication: Standing, report: Standing)

  /** The live lineage behind an Attempt, as `describe` joins it: slot and Goal are not looked at. */
  predicate Live(t: Tables, attempt: Text) {
    && attempt in t.lineage.attempts && !t.lineage.attempts[attempt].terminal
    && var run := t.lineage.attempts[attempt].run;
       && run in t.runStatus && t.runStatus[run].phase.Active? && t.runStatus[run].currentAttempt == Some(attempt)
       && var task := t.runStatus[run].task;
          task in t.tasks && t.tasks[task].phase.TaskActive? && t.tasks[task].activeRun == Some(run)
  }

  /** `describe_agent_session`: what it refuses before anything external happens. */
  function DescribeRefusal(t: Tables, credential: Credential): (refusal: Option<Refusal>)
    ensures refusal.None? ==> Authorized(t, credential) && Live(t, credential.attempt)
  {
    if !Authorized(t, credential) || !Live(t, credential.attempt) then Some(Unauthorized)
    else
      var row := t.tasks[t.runStatus[t.lineage.attempts[credential.attempt].run].task];
      if row.spec !in t.lineage.specs then Some(Storage)
      else if t.lineage.specs[row.spec].None? then Some(CandidateInvalid)
      else None
  }

  /** `describe` passes exactly a live session whose Task's specification is stored. */
  lemma DescribesIff(t: Tables, credential: Credential)
    ensures DescribeRefusal(t, credential).None? <==>
      && credential.attempt in t.lineage.sessions
      && t.lineage.sessions[credential.attempt] == Session(t.lineage.generation, true, credential.verifier)
      && Live(t, credential.attempt)
      && StoredSpec(t, t.runStatus[t.lineage.attempts[credential.attempt].run].task).Some?
  {
  }

  /** What the sealer reads before it touches the Workspace: an Active Task with its specification, and a
      slot that takes a changeset. */
  function Preliminary(t: Tables, task: Text, slot: Bytes): Option<SealProblem> {
    if task !in t.tasks || !t.tasks[task].phase.TaskActive? || StoredSpec(t, task).None? then Some(TaskUnusable)
    else
      var declared := Declared(StoredSpec(t, task).value.outputs, slot);
      if declared.None? || declared.value.kind != CODE_CHANGESET_KIND then Some(SlotInvalid) else None
  }

  /** The sealer starts on an Active Task whose specification is stored and whose first output of the name
      is a changeset; a Task or specification that is not there comes before a slot that is not. */
  lemma PreliminaryIff(t: Tables, task: Text, slot: Bytes)
    ensures Preliminary(t, task, slot) == Some(TaskUnusable) <==>
      !(task in t.tasks && t.tasks[task].phase.TaskActive? && StoredSpec(t, task).Some?)
    ensures Preliminary(t, task, slot).None? <==>
      && task in t.tasks && t.tasks[task].phase.TaskActive? && StoredSpec(t, task).Some?
      && var outputs := StoredSpec(t, task).value.outputs;
         exists i :: 0 <= i < |outputs| && TakesChangeset(outputs, i, slot)
  {
    if StoredSpec(t, task).Some? { FirstTakes(StoredSpec(t, task).value.outputs, slot); }
  }

  /** The first declared output of the name is a changeset. */
  ghost predicate TakesChangeset(outputs: seq<TaskOutput>, i: nat, slot: Bytes)
    requires i < |outputs|
  {
    outputs[i].name == slot && outputs[i].kind == "code.changeset" && NotNamed(outputs[..i], slot)
  }

  lemma FirstTakes(outputs: seq<TaskOutput>, slot: Bytes)
    ensures (Declared(outputs, slot).Some? && Declared(outputs, slot).value.kind == "code.changeset") <==>
      exists i :: 0 <= i < |outputs| && TakesChangeset(outputs, i, slot)
  {
    forall i | 0 <= i < |outputs| && TakesChangeset(outputs, i, slot)
      ensures Declared(outputs, slot) == Some(outputs[i])
    {
      FirstIs(outputs, slot, i);
    }
    var declared := Declared(outputs, slot);
    var i := FirstDeclared(outputs, slot);
    if declared.Some? && declared.value.kind == "code.changeset" {
      assert TakesChangeset(outputs, i, slot);
    }
  }

  lemma {:induction false} FirstIs(outputs: seq<TaskOutput>, slot: Bytes, i: nat)
    requires i < |outputs| && outputs[i].name == slot && NotNamed(outputs[..i], slot)
    ensures Declared(outputs, slot) == Some(outputs[i])
    decreases i
  {
    if i > 0 {
      assert outputs[..i][0] == outputs[0];
      assert outputs[1..][..i - 1] == outputs[..i][1..];
      FirstIs(outputs[1..], slot, i - 1);
    }
  }

  /** The authority an Attempt claims: its Run as it is now. */
  function Claimed(t: Tables, credential: Credential, slot: Bytes, frame: Frame): Authority
    requires Live(t, credential.attempt)
  {
    var run := t.lineage.attempts[credential.attempt].run;
    Authority(frame.workspace, t.runStatus[run].task, run, t.runStatus[run].revision, slot)
  }

  /** The publication of a sealed changeset under a claimed authority. */
  function SealOf(a: Authority, attempt: Text, fence: int, frame: Frame, sealed: Sealing.Sealed): Seal {
    Seal(a.workspace, a.task, fence, a.run, a.runRevision, a.slot, sealed.revision.digest, sealed.artifact,
         sealed.manifest, sealed.members, Some(attempt), frame.freshId)
  }

  function ProblemCode(error: GatewayError): Text {
    match error
    case Store(_) => "authority-stale"
    case Sealer(TaskUnusable) => "task-unusable"
    case Sealer(SlotInvalid) => "output-slot-invalid"
    case Sealer(WorkspaceState) => "workspace-state"
    case Sealer(Refused(_)) => "internal"
    case Sealer(Failed(Capture(_))) => "capture-failed"
    case Sealer(Failed(ScopeViolated(_))) => "scope-violated"
    case Sealer(Failed(Construction(_))) => "internal"
  }

  /** `recorded_problem_code`: a recorded code is told again when it is one of the known ones. */
  function Recalled(code: Text): Text {
    if code in {"output-slot-invalid", "workspace-state", "scope-violated", "ceilings-exceeded", "capture-failed",
                "task-unusable", "internal", "authority-stale", "invalid-candidate"} then code
    else "recorded-refusal"
  }

  /** Whatever refusal a seal records, a retry hears the same one; and the code tells a scope violation, a
      failed capture and lost authority apart from everything else. */
  lemma RefusalRecalled(error: GatewayError)
    ensures Recalled(ProblemCode(error)) == ProblemCode(error)
    ensures ProblemCode(error) == "authority-stale" <==> error.Store?
    ensures ProblemCode(error) == "scope-violated" <==>
      error.Sealer? && error.problem.Failed? && error.problem.error.ScopeViolated?
    ensures ProblemCode(error) == "capture-failed" <==>
      error.Sealer? && error.problem.Failed? && error.problem.error.Capture?
    ensures ProblemCode(error) == "internal" <==>
      error.Sealer? && (error.problem.Refused? || (error.problem.Failed? && error.problem.error.Construction?))
  {
  }

  // ---------------------------------------------------------------- what a seal may change

  /** Nothing changed but a Ready Workspace that is now fenced. */
  ghost predicate FenceOnly(t: Tables, u: Tables, workspace: Text) {
    || u == t
    || (&& workspace in t.lineage.workspaces && t.lineage.workspaces[workspace].phase.Ready?
        && u == WithFence(t, workspace))
  }

  /** The Artifact is stored, and recorded as what this Run's slot produced. */
  ghost predicate Produced(t: Tables, attempt: Text, slot: Bytes, artifact: Digest) {
    && artifact in t.artifacts
    && attempt in t.lineage.attempts
    && var key := (t.lineage.attempts[attempt].run, slot);
       key in t.production && t.production[key].artifact == artifact
  }

  /** The request's row records success with exactly this Artifact. */
  ghost predicate Answered(t: Tables, key: (Text, Text), artifact: Digest) {
    key in t.requests && t.requests[key].state == Succeeded(SealedReference(artifact))
  }

  /** The sealer's publications are honest and the store is in a reachable state. */
  ghost predicate Sound(sealer: Sealing.SealRun, t: Tables) {
    Sealing.Trusted(sealer.ports, sealer.base, sealer.repo) && AgentRuns.Invariant(t)
  }

  lemma FenceKept(t: Tables, u: Tables, workspace: Text)
    requires FenceOnly(t, u, workspace) && AgentRuns.Invariant(t)
    ensures AgentRuns.Kept(t, u)
  {
    if u == t { AgentRuns.UnchangedKept(t); } else { AgentRuns.FreezeKept(t, workspace); }
  }

  /** A fence leaves sessions, lineage, requests and productions as they were. */
  lemma FenceSpares(t: Tables, u: Tables, workspace: Text, credential: Credential, slot: Bytes, artifact: Digest)
    requires FenceOnly(t, u, workspace)
    ensures u.requests == t.requests && Authorized(u, credential) == Authorized(t, credential)
    ensures Produced(u, credential.attempt, slot, artifact) <==> Produced(t, credential.attempt, slot, artifact)
  {
  }

  // ---------------------------------------------------------------- the steps of a seal

  function Refusing(refusal: Refusal): GatewayError {
    Sealer(SealProblem.Refused(refusal))
  }

  /** The Task's Workspace is Ready, or Frozen with its content present. */
  predicate Sealable(t: Tables, a: Authority) {
    && a.workspace in t.lineage.workspaces && t.lineage.workspaces[a.workspace].task == a.task
    && (t.lineage.workspaces[a.workspace].phase.Ready?
        || (t.lineage.workspaces[a.workspace].phase.Frozen? && t.lineage.workspaces[a.workspace].present))
  }

  /** What a new fence command is refused with: the freeze of a Ready row, the validation of a Frozen one. */
  ghost predicate FenceFails(t: Tables, a: Authority, refusal: Refusal)
    requires Sealable(t, a)
  {
    var row := t.lineage.workspaces[a.workspace];
    if row.phase.Ready? then Freezing(t, a, row.revision).1 == Err(refusal)
    else FenceRefusal(t, a, row.revision) == Some(refusal)
  }

  /** Establishes or revalidates the fence: capture never runs against a Workspace that is not frozen and
      present, and this is the only thing a seal that fails ever leaves behind. */
  method Quiesce(store: AgentStore, a: Authority, standing: Standing) returns (fence: Result<int, GatewayError>)
    modifies store`lineage
    ensures FenceOnly(old(store.Contents()), store.Contents(), a.workspace)
    ensures fence.Err? ==> fence.error.Sealer?
    ensures fence.Err? ==>
      match fence.error.problem
      case WorkspaceState => !Sealable(old(store.Contents()), a) || standing.Replays?
      case Refused(refusal) =>
        && Sealable(old(store.Contents()), a)
        && (standing == Blocked(refusal) || (standing.Fresh? && FenceFails(old(store.Contents()), a, refusal)))
      case _ => false
    ensures !Sealable(old(store.Contents()), a) ==> fence == Err(Sealer(WorkspaceState))
    ensures fence.Ok? ==>
      && a.workspace in store.lineage.workspaces
      && var row := store.lineage.workspaces[a.workspace];
         row.phase.Frozen? && row.present && row.revision == fence.value
  {
    if a.workspace !in store.lineage.workspaces || store.lineage.workspaces[a.workspace].task != a.task {
      return Err(Sealer(WorkspaceState));
    }
    var row := store.lineage.workspaces[a.workspace];
    if row.phase.Ready? {
      if standing.Blocked? {
        return Err(Refusing(standing.refusal));
      }
      if standing.Fresh? {
        var frozen := store.FreezeWorkspace(a, row.revision);
        if frozen.Err? {
          return Err(Refusing(frozen.error));
        }
      }
      var again := store.lineage.workspaces[a.workspace];
      return if again.phase.Frozen? && again.present then Ok(again.revision) else Err(Sealer(WorkspaceState));
    }
    if !row.phase.Frozen? || !row.present {
      return Err(Sealer(WorkspaceState));
    }
    if standing.Blocked? {
      return Err(Refusing(standing.refusal));
    }
    var refusal := if standing.Fresh? then FenceRefusal(store.Contents(), a, row.revision) else None;
    return if refusal.Some? then Err(Refusing(refusal.value)) else Ok(row.revision);
  }

  /** What a committed publication leaves, and that a refused one leaves nothing. */
  lemma PublicationProduces(t: Tables, a: Authority, attempt: Text, fence: int, frame: Frame, sealed: Sealing.Sealed)
    requires attempt in t.lineage.attempts && t.lineage.attempts[attempt].run == a.run
    ensures var (u, outcome) := Publishing(t, SealOf(a, attempt, fence, frame, sealed));
      && u.requests == t.requests && u.lineage == t.lineage
      && (if outcome.Ok? then Produced(u, attempt, a.slot, sealed.artifact) else u == t)
  {
  }

  ghost predicate HonestSeal(t: Tables, s: Seal) {
    AgentRuns.Invariant(t) && AgentRuns.SealerMade(s)
  }

  /** The one publication of a seal. A replay publishes nothing and answers with what was captured now. */
  method PublishSealed(store: AgentStore, a: Authority, attempt: Text, fence: int, frame: Frame,
      sealed: Sealing.Sealed, standing: Standing)
    returns (published: Result<Digest, GatewayError>)
    requires attempt in store.lineage.attempts && store.lineage.attempts[attempt].run == a.run
    modifies store
    ensures published.Ok? ==> published.value == sealed.artifact && !standing.Blocked?
    ensures published.Ok? && standing.Fresh? ==> Produced(store.Contents(), attempt, a.slot, sealed.artifact)
    ensures published.Err? ==> published.error.Sealer? && published.error.problem.Refused?
    ensures published.Err? || standing.Replays? ==> store.Contents() == old(store.Contents())
    ensures store.requests == old(store.requests) && store.lineage == old(store.lineage)
    ensures HonestSeal(old(store.Contents()), SealOf(a, attempt, fence, frame, sealed)) ==>
      AgentRuns.Kept(old(store.Contents()), store.Contents())
  {
    ghost var before := store.Contents();
    var publication := SealOf(a, attempt, fence, frame, sealed);
    if AgentRuns.Invariant(before) { AgentRuns.UnchangedKept(before); }
    if standing.Blocked? {
      return Err(Refusing(standing.refusal));
    }
    if standing.Replays? {
      return Ok(sealed.artifact);
    }
    PublicationProduces(before, a, attempt, fence, frame, sealed);
    if AgentRuns.Invariant(before) && AgentRuns.SealerMade(publication) {
      AgentRuns.PublishKept(before, publication);
    }
    var committed := store.CommitChangesetSeal(publication);
    return if committed.Err? then Err(Refusing(committed.error)) else Ok(sealed.artifact);
  }

  /** Reports a failed capture; a failure to report is what the caller then hears. It writes nothing. */
  function Reported(t: Tables, workspace: Text, fence: int, standing: Standing, error: GatewayError): GatewayError {
    match standing
    case Blocked(refusal) => Refusing(refusal)
    case Replays => error
    case Fresh =>
      var refusal := ReportRefusal(t, workspace, fence);
      if refusal.Some? then Refusing(refusal.value) else error
  }

  ghost predicate Unreported(t: Tables, workspace: Text, fence: int, standing: Standing) {
    standing.Blocked? || (standing.Fresh? && ReportRefusal(t, workspace, fence).Some?)
  }

  /** A path changed that the scope does not authorize. */
  ghost predicate Breached(sealer: Sealing.SealRun) {
    Sealing.Breach(sealer.Before(), Sealing.LogicalFinal(Sealing.Final(sealer.ports.captured)), sealer.ports)
  }

  /** What a failed capture or diff is blamed on; with honest ports that never fault, on the first path
      changed outside the scope. */
  ghost predicate Blamed(sealer: Sealing.SealRun, error: Sealing.SealError) {
    && (|| Sealing.CaptureRefusal(error, sealer.ports)
        || exists path :: Sealing.DiffRefusal(error, path, sealer.ports, sealer.base))
    && (sealer.Calm() ==>
          && error.ScopeViolated?
          && Sealing.FirstBreach(sealer.Before(), Sealing.LogicalFinal(Sealing.Final(sealer.ports.captured)),
               sealer.ports, error.path))
  }

  /** An error of capture or diff is what capture or diff failed on. */
  ghost predicate Truthful(sealer: Sealing.SealRun, error: GatewayError) {
    error.Sealer? && error.problem.Failed? ==> Blamed(sealer, error.problem.error)
  }

  /** `Sealing.SealRun.CaptureAndSeal`, as far as the gateway needs it. */
  method Capture(sealer: Sealing.SealRun, frame: Frame) returns (captured: Result<Sealing.Sealed, Sealing.SealError>)
    requires sealer.Capturing() && sealer.seen == [] && sealer.entries == []
    modifies sealer
    ensures Sealing.Confined(sealer.published, sealer.ports)
    ensures captured.Ok? ==> Sealing.Carries(captured.value.members, captured.value.manifest.entries)
    ensures captured.Ok? ==> captured.value.artifact == Of(ManifestDocument(captured.value.manifest))
    ensures captured.Ok? && Sealing.Trusted(sealer.ports, sealer.base, sealer.repo) ==>
      Sealing.TrueSizes(captured.value.members)
    ensures captured.Err? ==> Blamed(sealer, captured.error)
    ensures sealer.Calm() ==> (captured.Err? <==> Breached(sealer))
  {
    captured := sealer.CaptureAndSeal(frame.repository, frame.baseCommit);
  }

  /** The publication of what was captured, or the report of what was not. */
  method PublishCaptured(store: AgentStore, a: Authority, attempt: Text, fence: int, frame: Frame,
      captured: Result<Sealing.Sealed, Sealing.SealError>, envelope: Envelope)
    returns (sealed: Result<Digest, GatewayError>)
    requires attempt in store.lineage.attempts && store.lineage.attempts[attempt].run == a.run
    modifies store
    ensures captured.Err? ==> sealed == Err(Reported(old(store.Contents()), a.workspace, fence, envelope.report,
      Sealer(SealProblem.Failed(captured.error))))
    ensures captured.Ok? && sealed.Err? ==> sealed.error.Sealer? && sealed.error.problem.Refused?
    ensures sealed.Err? || envelope.publication.Replays? ==> store.Contents() == old(store.Contents())
    ensures sealed.Ok? ==> captured.Ok? && sealed.value == captured.value.artifact && !envelope.publication.Blocked?
    ensures sealed.Ok? && envelope.publication.Fresh? ==> Produced(store.Contents(), attempt, a.slot, sealed.value)
    ensures store.requests == old(store.requests) && store.lineage == old(store.lineage)
    ensures captured.Ok? && HonestSeal(old(store.Contents()), SealOf(a, attempt, fence, frame, captured.value)) ==>
      AgentRuns.Kept(old(store.Contents()), store.Contents())
  {
    if captured.Err? {
      var failure := Sealer(SealProblem.Failed(captured.error));
      return Err(Reported(store.Contents(), a.workspace, fence, envelope.report, failure));
    }
    sealed := PublishSealed(store, a, attempt, fence, frame, captured.value, envelope.publication);
    if sealed.Err? {
      return Err(Reported(store.Contents(), a.workspace, fence, envelope.report, sealed.error));
    }
  }

  /** A failure of capture or diff is told as what it failed on, unless the report itself is refused. */
  ghost predicate Told(sealer: Sealing.SealRun, t: Tables, workspace: Text, fence: int, report: Standing,
      sealed: Result<Digest, GatewayError>) {
    && (sealed.Err? ==> Truthful(sealer, sealed.error))
    && (sealer.Calm() && Breached(sealer) ==>
          && sealed.Err? && sealed.error.Sealer?
          && (sealed.error.problem.Failed? || Unreported(t, workspace, fence, report)))
  }

  /** Capture and publication under an established fence. */
  method CaptureAndPublish(store: AgentStore, sealer: Sealing.SealRun, a: Authority, attempt: Text, fence: int,
      frame: Frame, envelope: Envelope)
    returns (sealed: Result<Digest, GatewayError>)
    requires sealer.Capturing() && sealer.seen == [] && sealer.entries == []
    requires attempt in store.lineage.attempts && store.lineage.attempts[attempt].run == a.run
    modifies store, sealer
    ensures Sealing.Confined(sealer.published, sealer.ports)
    ensures Told(sealer, old(store.Contents()), a.workspace, fence, envelope.report, sealed)
    ensures sealed.Err? ==> sealed.error.Sealer?
    ensures sealed.Err? || envelope.publication.Replays? ==> store.Contents() == old(store.Contents())
    ensures sealed.Ok? ==> !envelope.publication.Blocked?
    ensures sealed.Ok? && envelope.publication.Fresh? ==> Produced(store.Contents(), attempt, a.slot, sealed.value)
    ensures store.requests == old(store.requests) && store.lineage == old(store.lineage)
    ensures Sound(sealer, old(store.Contents())) ==> AgentRuns.Kept(old(store.Contents()), store.Contents())
  {
    ghost var before := store.Contents();
    var captured := Capture(sealer, frame);
    if captured.Ok? && Sound(sealer, before) {
      assert HonestSeal(before, SealOf(a, attempt, fence, frame, captured.value));
    }
    sealed := PublishCaptured(store, a, attempt, fence, frame, captured, envelope);
    if captured.Err? && Sound(sealer, before) { AgentRuns.UnchangedKept(before); }
  }

  /** What the gateway and the sealer read first: nothing is written, and the claim is the Attempt's own. */
  method Begin(store: AgentStore, credential: Credential, slot: Bytes, frame: Frame)
    returns (claim: Result<Authority, GatewayError>)
    ensures claim.Err? && claim.error.Store? <==> DescribeRefusal(store.Contents(), credential).Some?
    ensures claim.Err? && claim.error.Sealer? ==> claim.error.problem.TaskUnusable? || claim.error.problem.SlotInvalid?
    ensures claim.Ok? ==>
      && Authorized(store.Contents(), credential)
      && credential.attempt in store.lineage.attempts
      && store.lineage.attempts[credential.attempt].run == claim.value.run
      && claim.value.workspace == frame.workspace && claim.value.slot == slot
  {
    var refusal := DescribeRefusal(store.Contents(), credential);
    if refusal.Some? {
      return Err(Store(refusal.value));
    }
    var a := Claimed(store.Contents(), credential, slot, frame);
    var problem := Preliminary(store.Contents(), a.task, slot);
    return if problem.Some? then Err(Sealer(problem.value)) else Ok(a);
  }

  /** `drive_seal`: current authority, the fence, then capture and one publication. A failure leaves at
      most the fence. What a success names is the slot's production if and only if this publication was
      new, or the replayed one recorded the same name before. */
  method DriveSeal(store: AgentStore, sealer: Sealing.SealRun, credential: Credential, slot: Bytes, frame: Frame,
      envelope: Envelope)
    returns (sealed: Result<Digest, GatewayError>)
    requires sealer.Capturing() && sealer.seen == [] && sealer.entries == []
    modifies store, sealer
    ensures Sealing.Confined(sealer.published, sealer.ports)
    ensures sealed.Err? ==> FenceOnly(old(store.Contents()), store.Contents(), frame.workspace)
    ensures sealed.Err? && sealed.error.Store? <==> DescribeRefusal(old(store.Contents()), credential).Some?
    ensures sealed.Err? ==> Truthful(sealer, sealed.error)
    ensures sealed.Ok? ==>
      && Authorized(store.Contents(), credential)
      && (Produced(store.Contents(), credential.attempt, slot, sealed.value) <==>
            envelope.publication.Fresh? || Produced(old(store.Contents()), credential.attempt, slot, sealed.value))
    ensures store.requests == old(store.requests)
    ensures Sound(sealer, old(store.Contents())) ==> AgentRuns.Kept(old(store.Contents()), store.Contents())
  {
    ghost var before := store.Contents();
    var claim := Begin(store, credential, slot, frame);
    if claim.Err? {
      if Sound(sealer, before) { AgentRuns.UnchangedKept(before); }
      return Err(claim.error);
    }
    var fence := Quiesce(store, claim.value, envelope.fence);
    ghost var fenced := store.Contents();
    if fence.Err? {
      if Sound(sealer, before) { FenceKept(before, fenced, frame.workspace); }
      return Err(fence.error);
    }
    sealed := CaptureAndPublish(store, sealer, claim.value, credential.attempt, fence.value, frame, envelope);
    ghost var after := store.Contents();
    if Sound(sealer, before) { FencedKept(before, fenced, after, frame.workspace); }
    if sealed.Ok? {
      SuccessMeans(before, fenced, after, frame.workspace, credential, slot, sealed.value, envelope.publication);
    }
  }

  lemma FencedKept(before: Tables, fenced: Tables, after: Tables, workspace: Text)
    requires AgentRuns.Invariant(before) && FenceOnly(before, fenced, workspace)
    requires AgentRuns.Invariant(fenced) ==> AgentRuns.Kept(fenced, after)
    ensures AgentRuns.Kept(before, after)
  {
    FenceKept(before, fenced, workspace);
    AgentRuns.KeptTransitive(before, fenced, after);
  }

  /** From the fence to the end of a successful seal. */
  lemma SuccessMeans(before: Tables, fenced: Tables, after: Tables, workspace: Text, credential: Credential,
      slot: Bytes, artifact: Digest, standing: Standing)
    requires FenceOnly(before, fenced, workspace) && Authorized(before, credential) && after.lineage == fenced.lineage
    requires standing.Fresh? ==> Produced(after, credential.attempt, slot, artifact)
    requires standing.Replays? ==> after == fenced
    requires !standing.Blocked?
    ensures Authorized(after, credential)
    ensures Produced(after, credential.attempt, slot, artifact) <==>
      standing.Fresh? || Produced(before, credential.attempt, slot, artifact)
  {
    FenceSpares(before, fenced, workspace, credential, slot, artifact);
  }

  // ---------------------------------------------------------------- `seal_artifact`

  /** Drives the seal of an opened request and records how it ended. */
  method FinishSeal(store: AgentStore, sealer: Sealing.SealRun, credential: Credential, request: Text, slot: Bytes,
      frame: Frame, envelope: Envelope)
    returns (sealed: Result<Digest, GatewayError>)
    requires sealer.Capturing() && sealer.seen == [] && sealer.entries == []
    requires IsStarted(store.requests, (credential.attempt, request)) && Authorized(store.Contents(), credential)
    modifies store, sealer
    ensures Sealing.Confined(sealer.published, sealer.ports)
    ensures sealed.Ok? ==>
      && Answered(store.Contents(), (credential.attempt, request), sealed.value)
      && (Produced(store.Contents(), credential.attempt, slot, sealed.value) <==>
            envelope.publication.Fresh? || Produced(old(store.Contents()), credential.attempt, slot, sealed.value))
    ensures sealed.Err? ==>
      FailedOnly(old(store.Contents()), store.Contents(), frame.workspace, (credential.attempt, request))
    ensures sealed.Err? ==> Truthful(sealer, sealed.error)
    ensures sealed.Err? ==>
      IsRefused(store.requests, (credential.attempt, request), ProblemCode(sealed.error))
    ensures Sound(sealer, old(store.Contents())) ==> AgentRuns.Kept(old(store.Contents()), store.Contents())
  {
    ghost var before := store.Contents();
    sealed := DriveSeal(store, sealer, credential, slot, frame, envelope);
    ghost var driven := store.Contents();
    if sealed.Err? {
      FenceSpares(before, driven, frame.workspace, credential, slot, Of(Payload([])));
      var _ := store.FailAgentRequest(credential, request, ProblemCode(sealed.error));
      if Sound(sealer, before) { FailedKept(before, driven, credential, request, ProblemCode(sealed.error)); }
      return;
    }
    var done := store.CompleteAgentRequest(credential, request, sealed.value);
    if Sound(sealer, before) { CompletedKept(before, driven, credential, request, sealed.value); }
    assert done.Ok?;
  }

  ghost predicate IsStarted(requests: map<(Text, Text), Request>, key: (Text, Text)) {
    key in requests && requests[key].state.Started?
  }

  ghost predicate IsRefused(requests: map<(Text, Text), Request>, key: (Text, Text), code: Text) {
    key in requests && requests[key].state == RequestState.Refused(code)
  }

  ghost predicate OwnRowOnly(before: map<(Text, Text), Request>, after: map<(Text, Text), Request>, key: (Text, Text)) {
    forall k | k != key :: (k in after <==> k in before) && (k in before ==> after[k] == before[k])
  }

  /** The opening of the row and a failed seal, put together. */
  lemma FailureMeans(before: Tables, started: Tables, after: Tables, workspace: Text, key: (Text, Text))
    requires started == before.(requests := started.requests) && OwnRowOnly(before.requests, started.requests, key)
    requires FailedOnly(started, after, workspace, key)
    ensures FenceOnly(before, after.(requests := before.requests), workspace)
    ensures OwnRowOnly(before.requests, after.requests, key)
  {
    FenceIgnoresRequests(started, after.(requests := started.requests), before.requests, workspace);
    assert started.(requests := before.requests) == before;
    assert after.(requests := started.requests).(requests := before.requests) == after.(requests := before.requests);
    OwnRowTwice(before.requests, started.requests, after.requests, key);
  }

  lemma FenceIgnoresRequests(t: Tables, u: Tables, requests: map<(Text, Text), Request>, workspace: Text)
    requires FenceOnly(t, u, workspace)
    ensures FenceOnly(t.(requests := requests), u.(requests := requests), workspace)
  {
    if u != t {
      assert u.lineage == WithFence(t, workspace).lineage == WithFence(t.(requests := requests), workspace).lineage;
      assert u == t.(lineage := u.lineage);
      assert u.(requests := requests) == t.(requests := requests).(lineage := u.lineage);
    }
  }

  lemma OwnRowTwice(a: map<(Text, Text), Request>, b: map<(Text, Text), Request>, c: map<(Text, Text), Request>,
      key: (Text, Text))
    requires OwnRowOnly(a, b, key) && key in c && c == b[key := c[key]]
    ensures OwnRowOnly(a, c, key)
  {
  }

  /** What the opening of a row changes, and what it answers. */
  lemma OpeningMeans(t: Tables, credential: Credential, request: Text, slot: Bytes)
    ensures var (u, row) := OpenRow(t, credential, request, slot); var key := (credential.attempt, request);
      && u == t.(requests := u.requests) && OwnRowOnly(t.requests, u.requests, key)
      && (row.Err? || row.value.Reconciled? ==> u == t)
      && (row.Ok? ==> key in u.requests)
      && (row.Ok? && row.value.Reconciled? ==> u.requests[key].state == row.value.state)
      && (row.Ok? && row.value.NewlyStarted? ==> u.requests[key].state.Started?)
  {
    var (u, row) := OpenRow(t, credential, request, slot);
    if row.Err? || row.value.Reconciled? {
      assert u == t;
      assert t.(requests := t.requests) == t;
    }
  }

  /** A failed seal left at most the fence and the refusal on its own row. */
  ghost predicate FailedOnly(t: Tables, u: Tables, workspace: Text, key: (Text, Text)) {
    && key in t.requests && key in u.requests
    && u.requests == t.requests[key := t.requests[key].(state := u.requests[key].state)]
    && (u.requests[key].state == t.requests[key].state || u.requests[key].state.Refused?)
    && FenceOnly(t, u.(requests := t.requests), workspace)
  }

  /** Opens the request, or answers from its row; without an answer the row is STARTED. */
  method OpenSeal(store: AgentStore, credential: Credential, request: Text, slot: Bytes)
    returns (answer: Option<Result<SealAnswer, GatewayError>>)
    modifies store`requests
    ensures answer.None? ==>
      IsStarted(store.requests, (credential.attempt, request)) && Authorized(store.Contents(), credential)
    ensures store.Contents() == old(store.Contents()).(requests := store.requests)
    ensures OwnRowOnly(old(store.requests), store.requests, (credential.attempt, request))
    ensures answer.Some? ==> store.Contents() == old(store.Contents())
    ensures answer.Some? && answer.value.Err? ==> answer.value.error.Store?
    ensures answer.Some? && answer.value.Ok? ==>
      FromRow(store.Contents(), (credential.attempt, request), answer.value.value)
    ensures AgentRuns.Invariant(old(store.Contents())) ==> AgentRuns.Kept(old(store.Contents()), store.Contents())
  {
    if AgentRuns.Invariant(store.Contents()) { AgentRuns.OpenKept(store.Contents(), credential, request, slot); }
    OpeningMeans(store.Contents(), credential, request, slot);
    var row := store.OpenAgentRequest(credential, request, slot);
    if row.Err? {
      return Some(Err(Store(row.error)));
    }
    return if row.value.Reconciled? then RecordedAnswer(row.value.state) else None;
  }

  /** What a row answers on its own; a STARTED one, left by a crash, answers nothing. */
  function RecordedAnswer(state: RequestState): Option<Result<SealAnswer, GatewayError>> {
    match state
    case Started => None
    case Succeeded(SealedReference(artifact)) => Some(Ok(Recorded(artifact)))
    case Succeeded(CandidateReference(_)) => Some(Err(Store(InvariantViolated)))
    case Refused(code) => Some(Ok(Declined(Recalled(code))))
  }

  /** An answer that repeats what the row records. */
  ghost predicate FromRow(t: Tables, key: (Text, Text), answer: SealAnswer) {
    match answer
    case Executed(_) => false
    case Recorded(artifact) => Answered(t, key, artifact)
    case Declined(code) =>
      key in t.requests && t.requests[key].state.Refused? && code == Recalled(t.requests[key].state.code)
  }

  /** `seal_artifact`: the request row is durable before anything external happens, and the outcome
      is recorded through the same fence. */
  method SealArtifact(store: AgentStore, sealer: Sealing.SealRun, credential: Credential, request: Text, slot: Bytes,
      frame: Frame, envelope: Envelope)
    returns (answer: Result<SealAnswer, GatewayError>)
    requires sealer.Capturing() && sealer.seen == [] && sealer.entries == []
    modifies store, sealer
    ensures Sealing.Confined(sealer.published, sealer.ports)
    ensures answer.Ok? && answer.value.Executed? ==>
      && Answered(store.Contents(), (credential.attempt, request), answer.value.artifact)
      && (Produced(store.Contents(), credential.attempt, slot, answer.value.artifact) <==>
            || envelope.publication.Fresh?
            || Produced(old(store.Contents()), credential.attempt, slot, answer.value.artifact))
    ensures answer.Err? ==>
      FenceOnly(old(store.Contents()), store.Contents().(requests := old(store.requests)), frame.workspace)
    ensures answer.Err? ==> OwnRowOnly(old(store.requests), store.requests, (credential.attempt, request))
    ensures answer.Err? ==> Truthful(sealer, answer.error)
    ensures answer.Err? ==>
      || store.Contents() == old(store.Contents())
      || IsRefused(store.requests, (credential.attempt, request), ProblemCode(answer.error))
    ensures answer.Ok? && !answer.value.Executed? ==>
      && FromRow(store.Contents(), (credential.attempt, request), answer.value)
      && store.Contents() == old(store.Contents())
    ensures Sound(sealer, old(store.Contents())) ==> AgentRuns.Kept(old(store.Contents()), store.Contents())
  {
    ghost var before := store.Contents();
    var early := OpenSeal(store, credential, request, slot);
    if early.Some? {
      return early.value;
    }
    ghost var started := store.Contents();
    var sealed := FinishSeal(store, sealer, credential, request, slot, frame, envelope);
    if Sound(sealer, before) { AgentRuns.KeptTransitive(before, started, store.Contents()); }
    if sealed.Err? {
      FailureMeans(before, started, store.Contents(), frame.workspace, (credential.attempt, request));
    }
    return if sealed.Err? then Err(sealed.error) else Ok(Executed(sealed.value));
  }

  lemma FailedKept(before: Tables, driven: Tables, credential: Credential, request: Text, code: Text)
    requires AgentRuns.Kept(before, driven)
    ensures AgentRuns.Kept(before, FailRow(driven, credential, request, code).0)
  {
    AgentRuns.FailKept(driven, credential, request, code);
    AgentRuns.KeptTransitive(before, driven, FailRow(driven, credential, request, code).0);
  }

  lemma CompletedKept(before: Tables, driven: Tables, credential: Credential, request: Text, artifact: Digest)
    requires AgentRuns.Kept(before, driven)
    ensures AgentRuns.Kept(before, CompleteRow(driven, credential, request, artifact).0)
  {
    AgentRuns.CompleteKept(driven, credential, request, artifact);
    AgentRuns.KeptTransitive(before, driven, CompleteRow(driven, credential, request, artifact).0);
  }

  /** `submit_result`: identities from the session, the normalized mapping, then T6. */
  method SubmitResult(store: AgentStore, credential: Credential, request: Text, outputs: seq<Output>,
      expectedRevision: int, journal: bool)
    returns (answer: Result<Submitted, Refusal>)
    modifies store
    ensures (store.Contents(), answer) ==
      AgentRuns.SubmitResult(old(store.Contents()), credential, request, outputs, expectedRevision, journal)
  {
    if !Authorized(store.Contents(), credential) {
      return Err(Unauthorized);
    }
    if credential.attempt !in store.lineage.attempts ||
       store.lineage.attempts[credential.attempt].run !in store.runStatus {
      return Err(StaleAuthority);
    }
    var run := store.lineage.attempts[credential.attempt].run;
    var candidate := NewCandidate(store.runStatus[run].task, run, outputs);
    if candidate.Err? {
      return Err(CandidateInvalid);
    }
    answer := store.SubmitCandidate(Submission(credential, request, candidate.value, expectedRevision), journal);
  }
}
