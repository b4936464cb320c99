/** Agent Control: the request ledger, Artifact publication and Candidate submission (T6) over one
    transactional store.

    Request hashes are symbolic: a hash is the operation and payload it was taken over. A Candidate
    digest is the Candidate it was taken over. */
module AgentControl {
  import opened ByteOrder
  import opened Wrappers
  import opened MachineIntegers
  import opened Sorting
  import opened Artifact
  import opened Candidate
  import Sealing

  type Text = string

  const CODE_CHANGESET_KIND := "code.changeset"

  datatype RunPhase = Active | Finalizing | Completed | Failed | Cancelled | Yielded

  datatype TaskPhase =
    | TaskPending | TaskReady | TaskActive | TaskWaiting | TaskEvaluating | TaskFinalizing
    | TaskSucceeded | TaskFailed | TaskCancelled | TaskSuperseded

  datatype GoalPhase =
    GoalPlanning | GoalActive | GoalEvaluating | GoalFinalizing | GoalSucceeded | GoalFailed | GoalCancelled

  datatype WorkspacePhase = Requested | Materializing | Ready | Frozen | Releasing | Released | Error

  datatype Session = Session(generation: Text, active: bool, verifier: Text)

  datatype AttemptRow = AttemptRow(run: Text, terminal: bool)

  datatype RunStatus = RunStatus(
    task: Text, phase: RunPhase, slotHeld: bool, revision: int, currentAttempt: Option<Text>,
    target: Option<RunPhase>, candidate: Option<CandidateDigest>)

  /** The immutable Run and the source snapshot it froze, when that is stored. */
  datatype RunRow = RunRow(task: Text, frozen: Option<Frozen>)

  datatype Frozen = Frozen(spec: Text, workspace: Text, base: Text)

  datatype TaskRow = TaskRow(goal: Text, phase: TaskPhase, activeRun: Option<Text>, revision: int, spec: Text)

  datatype WorkspaceRow = WorkspaceRow(task: Text, phase: WorkspacePhase, present: bool, revision: int, base: Text)

  datatype CandidateDigest = OfCandidate(candidate: CandidateResult)

  datatype RequestHash =
    | SealHash(attempt: Text, request: Text, slot: Bytes)
    | SubmitHash(attempt: Text, request: Text, candidate: CandidateResult)

  datatype Reference = SealedReference(artifact: Digest) | CandidateReference(digest: CandidateDigest)

  datatype RequestState = Started | Succeeded(result: Reference) | Refused(code: Text)

  datatype Operation = SealArtifact | SubmitResult

  datatype Request = Request(hash: RequestHash, operation: Operation, state: RequestState)

  datatype ArtifactRow = ArtifactRow(kind: string, manifest: Manifest)

  datatype RevisionRow = RevisionRow(id: Text, digest: Digest)

  datatype Production = Production(task: Text, attempt: Text, revision: Text, artifact: Digest)

  datatype CandidateRow = CandidateRow(task: Text, run: Text, document: CandidateResult)

  datatype OutputRow = OutputRow(artifact: Digest, run: Text)

  /** The tables these transactions only read. */
  datatype Lineage = Lineage(
    generation: Text,
    sessions: map<Text, Session>,
    attempts: map<Text, AttemptRow>,
    runs: map<Text, RunRow>,
    goals: map<Text, GoalPhase>,
    specs: map<Text, Option<TaskSpec>>,
    workspaces: map<Text, WorkspaceRow>)

  datatype Tables = Tables(
    lineage: Lineage,
    requests: map<(Text, Text), Request>,
    runStatus: map<Text, RunStatus>,
    tasks: map<Text, TaskRow>,
    blobs: map<Digest, nat>,
    revisions: map<(Text, Digest), RevisionRow>,
    artifacts: map<Digest, ArtifactRow>,
    members: set<(Digest, Digest)>,
    production: map<(Text, Bytes), Production>,
    candidates: map<CandidateDigest, CandidateRow>,
    outputs: map<(CandidateDigest, Bytes), OutputRow>)

  datatype Refusal =
    | Unauthorized
    | RequestConflict
    | StaleAuthority
    | RevisionConflict
    | CandidateInvalid
    | ArtifactIncomplete
    | ProvenanceInvalid
    | CandidateExists
    | SealAuthorityInvalid
    | WorkspaceNotFreezable
    | ContentIdentityConflict
    | BlobSizeConflict
    | ProductionConflict
    | InvariantViolated
    | Storage

  datatype Credential = Credential(attempt: Text, verifier: Text)

  // ---------------------------------------------------------------- the fences

  /** `judge_session`: generation before state before verifier. */
  predicate Authorized(t: Tables, credential: Credential) {
    && credential.attempt in t.lineage.sessions
    && t.lineage.sessions[credential.attempt].generation == t.lineage.generation
    && t.lineage.sessions[credential.attempt].active
    && t.lineage.sessions[credential.attempt].verifier == credential.verifier
  }

  /** The whole chain from Attempt to Goal is live and names the Attempt as current. */
  predicate Current(t: Tables, attempt: Text) {
    && attempt in t.lineage.attempts && !t.lineage.attempts[attempt].terminal
    && var run := t.lineage.attempts[attempt].run;
       && run in t.runStatus
       && t.runStatus[run].phase.Active? && t.runStatus[run].slotHeld
       && t.runStatus[run].currentAttempt == Some(attempt)
       && var task := t.runStatus[run].task;
          && task in t.tasks
          && t.tasks[task].phase.TaskActive?
          && t.tasks[task].activeRun == Some(run)
          && t.tasks[task].goal in t.lineage.goals
          && var goal := t.lineage.goals[t.tasks[task].goal];
             goal.GoalPlanning? || goal.GoalActive? || goal.GoalEvaluating?
  }

  /** The specification a Task names, when it is stored and can be read. */
  function StoredSpec(t: Tables, task: Text): Option<TaskSpec> {
    if task in t.tasks && t.tasks[task].spec in t.lineage.specs then t.lineage.specs[t.tasks[task].spec] else None
  }

  /** The execution authority a seal claims: the Run, at the status revision it was read at, working for
      one slot of the Task in one Workspace. */
  datatype Authority = Authority(workspace: Text, task: Text, run: Text, runRevision: int, slot: Bytes)

  /** `validate_seal_authority`, as the conjunction of what it re-reads. */
  predicate SealAuthority(t: Tables, a: Authority) {
    && a.task in t.tasks && t.tasks[a.task].phase.TaskActive? && t.tasks[a.task].activeRun == Some(a.run)
    && a.run in t.lineage.runs && t.lineage.runs[a.run].task == a.task
    && a.run in t.runStatus
    && (t.runStatus[a.run].phase.Active? || t.runStatus[a.run].phase.Finalizing?)
    && t.runStatus[a.run].revision == a.runRevision
    && t.lineage.runs[a.run].frozen.Some?
    && t.lineage.runs[a.run].frozen.value.spec == t.tasks[a.task].spec
    && t.lineage.runs[a.run].frozen.value.workspace == a.workspace
    && a.workspace in t.lineage.workspaces
    && t.lineage.workspaces[a.workspace].base == t.lineage.runs[a.run].frozen.value.base
    && t.tasks[a.task].spec in t.lineage.specs
    && t.lineage.specs[t.tasks[a.task].spec].Some?
    && var declared := Declared(t.lineage.specs[t.tasks[a.task].spec].value.outputs, a.slot);
       declared.Some? && declared.value.kind == CODE_CHANGESET_KIND
  }

  /** The refusal a failed authority check carries: missing companion rows are a broken store,
      everything else is authority that is gone. */
  function AuthorityRefusal(t: Tables, a: Authority): (refusal: Option<Refusal>)
    ensures refusal.None? <==> SealAuthority(t, a)
  {
    if a.task !in t.tasks || !t.tasks[a.task].phase.TaskActive? || t.tasks[a.task].activeRun != Some(a.run)
    then Some(SealAuthorityInvalid)
    else if a.run !in t.lineage.runs || t.lineage.runs[a.run].task != a.task then Some(SealAuthorityInvalid)
    else if a.run !in t.runStatus then Some(InvariantViolated)
    else if !(t.runStatus[a.run].phase.Active? || t.runStatus[a.run].phase.Finalizing?)
         || t.runStatus[a.run].revision != a.runRevision
    then Some(SealAuthorityInvalid)
    else if t.lineage.runs[a.run].frozen.None? then Some(InvariantViolated)
    else if t.lineage.runs[a.run].frozen.value.spec != t.tasks[a.task].spec
         || t.lineage.runs[a.run].frozen.value.workspace != a.workspace
    then Some(SealAuthorityInvalid)
    else if a.workspace !in t.lineage.workspaces then Some(InvariantViolated)
    else if t.lineage.workspaces[a.workspace].base != t.lineage.runs[a.run].frozen.value.base
    then Some(SealAuthorityInvalid)
    else if t.tasks[a.task].spec !in t.lineage.specs || t.lineage.specs[t.tasks[a.task].spec].None?
    then Some(InvariantViolated)
    else
      var declared := Declared(t.lineage.specs[t.tasks[a.task].spec].value.outputs, a.slot);
      if declared.None? || declared.value.kind != CODE_CHANGESET_KIND then Some(SealAuthorityInvalid) else None
  }

  // ---------------------------------------------------------------- the fence around a capture

  /** The Workspace row as a freeze leaves it. */
  function WithFence(t: Tables, workspace: Text): Tables
    requires workspace in t.lineage.workspaces
  {
    var row := t.lineage.workspaces[workspace];
    var fenced := row.(phase := WorkspacePhase.Frozen, revision := row.revision + 1);
    t.(lineage := t.lineage.(workspaces := t.lineage.workspaces[workspace := fenced]))
  }

  /** `freeze_workspace`, inside its command. */
  function Freezing(t: Tables, a: Authority, expected: int): (Tables, Result<(), Refusal>) {
    if a.workspace !in t.lineage.workspaces then (t, Err(RevisionConflict))
    else
      var row := t.lineage.workspaces[a.workspace];
      if row.task != a.task then (t, Err(SealAuthorityInvalid))
      else if !row.phase.Ready? || !row.present then (t, Err(WorkspaceNotFreezable))
      else if AuthorityRefusal(t, a).Some? then (t, Err(AuthorityRefusal(t, a).value))
      else if row.revision != expected then (t, Err(RevisionConflict))
      else (WithFence(t, a.workspace), Ok(()))
  }

  /** `validate_seal_authority_command`, inside its command: it writes nothing. */
  function FenceRefusal(t: Tables, a: Authority, expected: int): (refusal: Option<Refusal>)
    ensures refusal.None? <==>
      && a.workspace in t.lineage.workspaces && SealAuthority(t, a)
      && var row := t.lineage.workspaces[a.workspace];
         row.revision == expected && row.task == a.task && row.phase.Frozen? && row.present
  {
    if a.workspace !in t.lineage.workspaces then Some(InvariantViolated)
    else
      var row := t.lineage.workspaces[a.workspace];
      if row.revision != expected then Some(RevisionConflict)
      else if row.task != a.task then Some(SealAuthorityInvalid)
      else if !row.phase.Frozen? || !row.present then Some(WorkspaceNotFreezable)
      else AuthorityRefusal(t, a)
  }

  /** `record_capture_failure`, inside its command: it writes nothing. */
  function ReportRefusal(t: Tables, workspace: Text, expected: int): (refusal: Option<Refusal>)
    ensures refusal.None? <==>
      && workspace in t.lineage.workspaces
      && t.lineage.workspaces[workspace].revision == expected && t.lineage.workspaces[workspace].phase.Frozen?
  {
    if workspace !in t.lineage.workspaces then Some(InvariantViolated)
    else if t.lineage.workspaces[workspace].revision != expected then Some(RevisionConflict)
    else if !t.lineage.workspaces[workspace].phase.Frozen? then Some(InvariantViolated)
    else None
  }

  // ---------------------------------------------------------------- Candidate submission, T6

  datatype Submission = Submission(credential: Credential, request: Text, candidate: CandidateResult,
      expectedRevision: int)

  function HashOf(s: Submission): RequestHash {
    SubmitHash(s.credential.attempt, s.request, s.candidate)
  }

  datatype Submitted = Submitted(digest: CandidateDigest, taskRevision: int, runRevision: int, reconciled: bool)

  /** Every blob the manifest names is a stored member of the Artifact. */
  ghost predicate MembersComplete(t: Tables, artifact: Digest)
    requires artifact in t.artifacts
  {
    forall d | Sealing.Names(t.artifacts[artifact].manifest.entries, d) :: (artifact, d) in t.members
  }

  /** One output may be committed: stored, of the declared kind, complete, and produced by this Run
      for this slot. */
  ghost predicate Supported(t: Tables, spec: TaskSpec, run: Text, output: Output) {
    && output.artifact in t.artifacts
    && Declared(spec.outputs, output.slot).Some?
    && Declared(spec.outputs, output.slot).value.kind == t.artifacts[output.artifact].kind
    && MembersComplete(t, output.artifact)
    && (run, output.slot) in t.production
    && t.production[(run, output.slot)].artifact == output.artifact
  }

  /** The first check of one output that fails. `declared_slot` needs the slot to be declared. */
  ghost function OutputRefusal(t: Tables, spec: TaskSpec, run: Text, output: Output): (refusal: Option<Refusal>)
    requires Declared(spec.outputs, output.slot).Some?
    ensures refusal.None? <==> Supported(t, spec, run, output)
  {
    if output.artifact !in t.artifacts then Some(CandidateInvalid)
    else if Declared(spec.outputs, output.slot).value.kind != t.artifacts[output.artifact].kind
      then Some(CandidateInvalid)
    else if !MembersComplete(t, output.artifact) then Some(ArtifactIncomplete)
    else if (run, output.slot) !in t.production || t.production[(run, output.slot)].artifact != output.artifact
    then Some(ProvenanceInvalid)
    else None
  }

  ghost function OutputsRefusal(t: Tables, spec: TaskSpec, run: Text, outputs: seq<Output>): (refusal: Option<Refusal>)
    requires forall o | o in outputs :: Declared(spec.outputs, o.slot).Some?
    ensures refusal.None? <==> forall o | o in outputs :: Supported(t, spec, run, o)
  {
    if outputs == [] then None
    else
      assert forall o :: o in outputs <==> o == outputs[0] || o in outputs[1..];
      var first := OutputRefusal(t, spec, run, outputs[0]);
      if first.Some? then first else OutputsRefusal(t, spec, run, outputs[1..])
  }

  /** The checks after the request ledger, in order. */
  ghost function SubmitRefusal(t: Tables, s: Submission): Option<Refusal> {
    var attempt := s.credential.attempt;
    if !Current(t, attempt) then Some(StaleAuthority)
    else
      var run := t.lineage.attempts[attempt].run;
      var task := t.runStatus[run].task;
      if t.tasks[task].revision != s.expectedRevision then Some(RevisionConflict)
      else if s.candidate.run != run || s.candidate.task != task then Some(CandidateInvalid)
      else if t.tasks[task].spec !in t.lineage.specs then Some(InvariantViolated)
      else if t.lineage.specs[t.tasks[task].spec].None? then Some(CandidateInvalid)
      else
        var spec := t.lineage.specs[t.tasks[task].spec].value;
        if !FitsSpec(s.candidate, spec) then Some(CandidateInvalid)
        else
          var outputs := OutputsRefusal(t, spec, run, s.candidate.outputs);
          if outputs.Some? then outputs
          else if exists d :: d in t.candidates && t.candidates[d].run == run then Some(CandidateExists)
          else None
  }

  /** No output row of this Candidate exists yet. */
  ghost predicate OutputsFree(rows: map<(CandidateDigest, Bytes), OutputRow>, candidate: CandidateResult) {
    forall o | o in candidate.outputs :: (OfCandidate(candidate), o.slot) !in rows
  }

  ghost predicate SlotsFree(t: Tables, candidate: CandidateResult) {
    OfCandidate(candidate) !in t.candidates && OutputsFree(t.outputs, candidate)
  }

  ghost function WithOutputs(rows: map<(CandidateDigest, Bytes), OutputRow>, candidate: CandidateResult,
      outputs: seq<Output>)
    : map<(CandidateDigest, Bytes), OutputRow>
  {
    if outputs == [] then rows
    else
      var last := outputs[|outputs| - 1];
      WithOutputs(rows, candidate,
        outputs[..|outputs| - 1])[(OfCandidate(candidate), last.slot) := OutputRow(last.artifact, candidate.run)]
  }

  lemma {:induction false} OutputKeys(rows: map<(CandidateDigest, Bytes), OutputRow>, candidate: CandidateResult,
      outputs: seq<Output>, digest: CandidateDigest, slot: Bytes)
    ensures (digest, slot) in WithOutputs(rows, candidate, outputs) <==>
      (digest, slot) in rows || (digest == OfCandidate(candidate) && exists o :: o in outputs && o.slot == slot)
  {
    if outputs != [] {
      var last, rest := outputs[|outputs| - 1], outputs[..|outputs| - 1];
      OutputKeys(rows, candidate, rest, digest, slot);
      assert forall o :: o in outputs <==> o in rest || o == last;
    }
  }

  /** Everything T6 writes. */
  ghost function AfterSubmit(t: Tables, s: Submission): Tables
    requires s.candidate.run in t.runStatus && s.candidate.task in t.tasks
  {
    var c, digest := s.candidate, OfCandidate(s.candidate);
    t.(candidates := t.candidates[digest := CandidateRow(c.task, c.run, c)],
       outputs := WithOutputs(t.outputs, c, c.outputs),
       runStatus := t.runStatus[c.run := Finalized(t.runStatus[c.run], digest)],
       tasks := t.tasks[c.task := Evaluating(t.tasks[c.task])],
       requests := RequestsAfter(t.requests, s))
  }

  function Finalized(row: RunStatus, digest: CandidateDigest): RunStatus {
    row.(phase := Finalizing, target := Some(Completed), candidate := Some(digest), revision := row.revision + 1)
  }

  function Evaluating(row: TaskRow): TaskRow {
    row.(phase := TaskEvaluating, revision := row.revision + 1)
  }

  /** The row of a committed submission: new, or the one that was there. */
  ghost function RequestsAfter(requests: map<(Text, Text), Request>, s: Submission): map<(Text, Text), Request> {
    var key := (s.credential.attempt, s.request);
    requests[key := Request(HashOf(s), if key in requests then requests[key].operation else SubmitResult,
                            Succeeded(CandidateReference(OfCandidate(s.candidate))))]
  }

  /** `load_committed_outcome`. */
  function CommittedOutcome(t: Tables, candidate: CandidateResult, digest: CandidateDigest)
    : Result<Submitted, Refusal>
  {
    if digest !in t.candidates || t.candidates[digest].run != candidate.run then Err(InvariantViolated)
    else if t.candidates[digest].document != candidate then Err(ContentIdentityConflict)
    else
      Ok(Submitted(digest,
                   if candidate.task in t.tasks then t.tasks[candidate.task].revision else 0,
                   if candidate.run in t.runStatus then t.runStatus[candidate.run].revision else 0,
                   true))
  }

  /** The row a submission finds under its own request identity. */
  predicate HasRow(t: Tables, s: Submission) {
    (s.credential.attempt, s.request) in t.requests
  }

  /** `apply_candidate_submission` as one transaction; `journal` says whether the engine accepts the
      final Event. */
  ghost function Submitting(t: Tables, s: Submission, journal: bool): (Tables, Result<Submitted, Refusal>) {
    var key := (s.credential.attempt, s.request);
    if !Authorized(t, s.credential) then (t, Err(Unauthorized))
    else if HasRow(t, s) && t.requests[key].hash != HashOf(s) then (t, Err(RequestConflict))
    else if HasRow(t, s) && t.requests[key].state.Succeeded? then
      (t, match t.requests[key].state.result
          case CandidateReference(digest) => CommittedOutcome(t, s.candidate, digest)
          case SealedReference(_) => Err(InvariantViolated))
    else SubmittingNew(t, s, journal)
  }

  /** A submission the request ledger does not answer. */
  ghost function SubmittingNew(t: Tables, s: Submission, journal: bool): (Tables, Result<Submitted, Refusal>) {
    var refusal := SubmitRefusal(t, s);
    if refusal.Some? then (t, Err(refusal.value))
    else if !SlotsFree(t, s.candidate) || !(1 <= |s.request| <= 128) || !journal then (t, Err(Storage))
    else
      (AfterSubmit(t, s),
       Ok(Submitted(OfCandidate(s.candidate), t.tasks[s.candidate.task].revision + 1,
         t.runStatus[s.candidate.run].revision + 1, false)))
  }

  /** Everything T6 demands at once, without the order it is checked in. */
  ghost predicate Admissible(t: Tables, s: Submission) {
    && Current(t, s.credential.attempt)
    && var run := t.lineage.attempts[s.credential.attempt].run;
       var task := t.runStatus[run].task;
       && t.tasks[task].revision == s.expectedRevision
       && s.candidate.run == run && s.candidate.task == task
       && t.tasks[task].spec in t.lineage.specs && t.lineage.specs[t.tasks[task].spec].Some?
       && var spec := t.lineage.specs[t.tasks[task].spec].value;
          && FitsSpec(s.candidate, spec)
          && (forall o | o in s.candidate.outputs :: Supported(t, spec, run, o))
          && (forall d | d in t.candidates :: t.candidates[d].run != run)
  }

  lemma NotRefusedIff(t: Tables, s: Submission)
    ensures SubmitRefusal(t, s).None? <==> Admissible(t, s)
  {
  }

  /** A submission commits a new Candidate exactly when the session is authorized, the ledger does not
      already answer it, everything is admissible and the engine takes the rows and the Event. */
  lemma SubmitsIff(t: Tables, s: Submission, journal: bool)
    ensures (Submitting(t, s, journal).1.Ok? && !Submitting(t, s, journal).1.value.reconciled) <==>
      && Authorized(t, s.credential)
      && (HasRow(t, s) ==>
            var row := t.requests[(s.credential.attempt, s.request)]; row.hash == HashOf(s) && !row.state.Succeeded?)
      && Admissible(t, s) && SlotsFree(t, s.candidate) && 1 <= |s.request| <= 128 && journal
  {
    NotRefusedIff(t, s);
  }

  // ---------------------------------------------------------------- Artifact publication

  datatype Seal = Seal(
    workspace: Text, task: Text, fence: int, run: Text, runRevision: int, slot: Bytes,
    revision: Digest, artifact: Digest, manifest: Manifest, members: seq<(Digest, nat)>,
    producer: Option<Text>, freshId: Text)

  function AuthorityOf(s: Seal): Authority {
    Authority(s.workspace, s.task, s.run, s.runRevision, s.slot)
  }

  datatype SealOutcome = SealOutcome(revision: Text, reused: bool)

  /** Member sizes SQLite can hold and the blobs table does not contradict, in order. */
  function BlobRefusal(blobs: map<Digest, nat>, members: seq<(Digest, nat)>): Option<Refusal>
    decreases |members|
  {
    if members == [] then None
    else if members[0].1 > I64_MAX then Some(InvariantViolated)
    else if members[0].0 in blobs && blobs[members[0].0] != members[0].1 then Some(BlobSizeConflict)
    else BlobRefusal(blobs[members[0].0 := members[0].1], members[1..])
  }

  ghost function WithBlobs(blobs: map<Digest, nat>, members: seq<(Digest, nat)>): map<Digest, nat>
    decreases |members|
  {
    if members == [] then blobs else WithBlobs(blobs[members[0].0 := members[0].1], members[1..])
  }

  type Revisions = map<(Text, Digest), RevisionRow>

  /** The revision row the seal converges on. */
  function RevisionId(revisions: Revisions, s: Seal): Text {
    if (s.workspace, s.revision) in revisions then revisions[(s.workspace, s.revision)].id else s.freshId
  }

  predicate FreshRevisionId(revisions: Revisions, s: Seal) {
    (s.workspace, s.revision) in revisions || forall k | k in revisions :: revisions[k].id != s.freshId
  }

  ghost function RevisionsAfter(revisions: Revisions, s: Seal): Revisions {
    if (s.workspace, s.revision) in revisions then revisions
    else revisions[(s.workspace, s.revision) := RevisionRow(s.freshId, s.revision)]
  }

  /** A stored Artifact of this digest holds another document. */
  predicate ArtifactConflict(artifacts: map<Digest, ArtifactRow>, s: Seal) {
    s.artifact in artifacts && artifacts[s.artifact] != ArtifactRow(CODE_CHANGESET_KIND, s.manifest)
  }

  ghost function MembersAfter(members: set<(Digest, Digest)>, s: Seal): set<(Digest, Digest)> {
    members + set m | m in s.members :: (s.artifact, m.0)
  }

  function Claim(revisions: Revisions, s: Seal): Production
    requires s.producer.Some?
  {
    Production(s.task, s.producer.value, RevisionId(revisions, s), s.artifact)
  }

  /** Referential integrity of a new production record. */
  predicate ProducerBelongs(lineage: Lineage, s: Seal)
    requires s.producer.Some?
  {
    s.producer.value in lineage.attempts && lineage.attempts[s.producer.value].run == s.run && ValidSlot(s.slot)
  }

  /** A Run produces one thing per slot, and only its own Attempts produce for it. */
  function ProductionRefusal(production: map<(Text, Bytes), Production>, lineage: Lineage, s: Seal, claim: Production)
    : Option<Refusal>
    requires s.producer.Some?
  {
    if (s.run, s.slot) in production then
      if production[(s.run, s.slot)] != claim then Some(ProductionConflict) else None
    else if !ProducerBelongs(lineage, s) then Some(Storage)
    else None
  }

  function SealRefusal(t: Tables, s: Seal): Option<Refusal> {
    if s.workspace !in t.lineage.workspaces then Some(RevisionConflict)
    else if t.lineage.workspaces[s.workspace].task != s.task
         || !t.lineage.workspaces[s.workspace].phase.Frozen?
         || t.lineage.workspaces[s.workspace].revision != s.fence
    then Some(SealAuthorityInvalid)
    else if AuthorityRefusal(t, AuthorityOf(s)).Some? then AuthorityRefusal(t, AuthorityOf(s))
    else match WriteOutcome(t, s)
      case Ok(_) => None
      case Err(refusal) => Some(refusal)
  }

  /** How the writes of a publication end. */
  function WriteOutcome(t: Tables, s: Seal): Result<SealOutcome, Refusal> {
    var refusal := WriteRefusal(t, s);
    if refusal.Some? then Err(refusal.value) else Ok(SealOutcome(RevisionId(t.revisions, s), s.artifact in t.artifacts))
  }

  /** The constraint that stops the writes of a publication, if one does. */
  function WriteRefusal(t: Tables, s: Seal): Option<Refusal> {
    var content := ContentRefusal(t.blobs, t.revisions, t.artifacts, s);
    if content.Some? then content
    else if s.producer.None? then None
    else ProductionRefusal(t.production, t.lineage, s, Claim(t.revisions, s))
  }

  function ContentRefusal(blobs: map<Digest, nat>, revisions: Revisions, artifacts: map<Digest, ArtifactRow>, s: Seal)
    : Option<Refusal>
  {
    var refusal := BlobRefusal(blobs, s.members);
    if refusal.Some? then refusal
    else if !FreshRevisionId(revisions, s) then Some(Storage)
    else if ArtifactConflict(artifacts, s) then Some(ContentIdentityConflict)
    else None
  }

  /** Everything `commit_changeset_seal` writes: rows are created once or reused. */
  ghost function AfterSeal(t: Tables, s: Seal): Tables {
    t.(blobs := WithBlobs(t.blobs, s.members),
       revisions := RevisionsAfter(t.revisions, s),
       artifacts := t.artifacts[s.artifact := ArtifactRow(CODE_CHANGESET_KIND, s.manifest)],
       members := MembersAfter(t.members, s),
       production := if s.producer.None? then t.production else t.production[(s.run, s.slot) := Claim(t.revisions, s)])
  }

  ghost function Publishing(t: Tables, s: Seal): (Tables, Result<SealOutcome, Refusal>) {
    var refusal := SealRefusal(t, s);
    if refusal.Some? then (t, Err(refusal.value))
    else (AfterSeal(t, s), Ok(SealOutcome(RevisionId(t.revisions, s), s.artifact in t.artifacts)))
  }

  // ---------------------------------------------------------------- the request ledger

  datatype Opened = NewlyStarted | Reconciled(state: RequestState)

  function OpenRow(t: Tables, credential: Credential, request: Text, slot: Bytes): (Tables, Result<Opened, Refusal>) {
    var key, hash := (credential.attempt, request), SealHash(credential.attempt, request, slot);
    if !Authorized(t, credential) then (t, Err(Unauthorized))
    else if key in t.requests then
      if t.requests[key].hash != hash then (t, Err(RequestConflict)) else (t, Ok(Reconciled(t.requests[key].state)))
    else if !(1 <= |request| <= 128) then (t, Err(Storage))
    else (t.(requests := t.requests[key := Request(hash, SealArtifact, Started)]), Ok(NewlyStarted))
  }

  function CompleteRow(t: Tables, credential: Credential, request: Text, artifact: Digest)
    : (Tables, Result<(), Refusal>)
  {
    var key := (credential.attempt, request);
    if !Authorized(t, credential) then (t, Err(Unauthorized))
    else if key !in t.requests || t.requests[key].state.Refused? then (t, Err(InvariantViolated))
    else if t.requests[key].state.Succeeded? then (t, Ok(()))
    else (t.(requests := t.requests[key := t.requests[key].(state := Succeeded(SealedReference(artifact)))]), Ok(()))
  }

  function FailRow(t: Tables, credential: Credential, request: Text, code: Text): (Tables, Result<(), Refusal>) {
    var key := (credential.attempt, request);
    if !Authorized(t, credential) then (t, Err(Unauthorized))
    else if key !in t.requests || !t.requests[key].state.Started? then (t, Ok(()))
    else (t.(requests := t.requests[key := t.requests[key].(state := Refused(code))]), Ok(()))
  }

  // ---------------------------------------------------------------- the transactions in place

  class AgentStore {
    var lineage: Lineage
    var requests: map<(Text, Text), Request>
    var runStatus: map<Text, RunStatus>
    var tasks: map<Text, TaskRow>
    var blobs: map<Digest, nat>
    var revisions: map<(Text, Digest), RevisionRow>
    var artifacts: map<Digest, ArtifactRow>
    var members: set<(Digest, Digest)>
    var production: map<(Text, Bytes), Production>
    var candidates: map<CandidateDigest, CandidateRow>
    var outputs: map<(CandidateDigest, Bytes), OutputRow>

    constructor (t: Tables)
      ensures Contents() == t
    {
      lineage, requests, runStatus, tasks, blobs := t.lineage, t.requests, t.runStatus, t.tasks, t.blobs;
      revisions, artifacts, members, production := t.revisions, t.artifacts, t.members, t.production;
      candidates, outputs := t.candidates, t.outputs;
    }

    function Contents(): Tables
      reads this
    {
      Tables(lineage, requests, runStatus, tasks, blobs, revisions, artifacts, members, production, candidates, outputs)
    }

    /** What the engine does with an uncommitted transaction. */
    method Rollback(t: Tables)
      modifies this
      ensures Contents() == t
    {
      lineage, requests, runStatus, tasks, blobs := t.lineage, t.requests, t.runStatus, t.tasks, t.blobs;
      revisions, artifacts, members, production := t.revisions, t.artifacts, t.members, t.production;
      candidates, outputs := t.candidates, t.outputs;
    }

    method OpenAgentRequest(credential: Credential, request: Text, slot: Bytes)
      returns (answer: Result<Opened, Refusal>)
      modifies this`requests
      ensures (Contents(), answer) == OpenRow(old(Contents()), credential, request, slot)
    {
      if !Authorized(Contents(), credential) {
        return Err(Unauthorized);
      }
      var key, hash := (credential.attempt, request), SealHash(credential.attempt, request, slot);
      if key in requests {
        if requests[key].hash != hash {
          return Err(RequestConflict);
        }
        return Ok(Reconciled(requests[key].state));
      }
      if !(1 <= |request| <= 128) {
        return Err(Storage);
      }
      requests := requests[key := Request(hash, SealArtifact, Started)];
      return Ok(NewlyStarted);
    }

    method CompleteAgentRequest(credential: Credential, request: Text, artifact: Digest)
      returns (done: Result<(), Refusal>)
      modifies this`requests
      ensures (Contents(), done) == CompleteRow(old(Contents()), credential, request, artifact)
    {
      if !Authorized(Contents(), credential) {
        return Err(Unauthorized);
      }
      var key := (credential.attempt, request);
      if key in requests && requests[key].state.Started? {
        requests := requests[key := requests[key].(state := Succeeded(SealedReference(artifact)))];
        return Ok(());
      }
      if key in requests && requests[key].state.Succeeded? {
        return Ok(());
      }
      return Err(InvariantViolated);
    }

    method FailAgentRequest(credential: Credential, request: Text, code: Text) returns (done: Result<(), Refusal>)
      modifies this`requests
      ensures (Contents(), done) == FailRow(old(Contents()), credential, request, code)
    {
      if !Authorized(Contents(), credential) {
        return Err(Unauthorized);
      }
      var key := (credential.attempt, request);
      if key in requests && requests[key].state.Started? {
        requests := requests[key := requests[key].(state := Refused(code))];
      }
      return Ok(());
    }

    /** `ensure_artifact_complete`: every referenced payload is looked up among the members. */
    method ArtifactComplete(artifact: Digest) returns (complete: bool)
      requires artifact in artifacts
      ensures complete <==> MembersComplete(Contents(), artifact)
    {
      var referenced := Sealing.Blobs(artifacts[artifact].manifest.entries);
      Sealing.BlobsNamed(artifacts[artifact].manifest.entries);
      for i := 0 to |referenced|
        invariant forall k | 0 <= k < i :: (artifact, referenced[k].0) in members
      {
        if (artifact, referenced[i].0) !in members {
          assert referenced[i] in referenced;
          assert Sealing.Listed(referenced, referenced[i].0);
          return false;
        }
      }
      return true;
    }

    /** The loop over the submitted outputs. */
    method CheckOutputs(spec: TaskSpec, run: Text, proposed: seq<Output>) returns (refusal: Option<Refusal>)
      requires forall o | o in proposed :: Declared(spec.outputs, o.slot).Some?
      ensures refusal == OutputsRefusal(Contents(), spec, run, proposed)
    {
      for i := 0 to |proposed|
        invariant OutputsRefusal(Contents(), spec, run, proposed) ==
          OutputsRefusal(Contents(), spec, run, proposed[i..])
      {
        var output := proposed[i];
        assert proposed[i..][0] == output && proposed[i..][1..] == proposed[i + 1..];
        if output.artifact !in artifacts {
          return Some(CandidateInvalid);
        }
        if Declared(spec.outputs, output.slot).value.kind != artifacts[output.artifact].kind {
          return Some(CandidateInvalid);
        }
        var complete := ArtifactComplete(output.artifact);
        if !complete {
          return Some(ArtifactIncomplete);
        }
        if (run, output.slot) !in production || production[(run, output.slot)].artifact != output.artifact {
          return Some(ProvenanceInvalid);
        }
      }
      return None;
    }

    /** Every read-only check of T6 that follows the request ledger. */
    method CheckSubmission(s: Submission) returns (refusal: Option<Refusal>)
      ensures refusal == SubmitRefusal(Contents(), s)
    {
      var attempt := s.credential.attempt;
      if !Current(Contents(), attempt) {
        return Some(StaleAuthority);
      }
      var run := lineage.attempts[attempt].run;
      var task := runStatus[run].task;
      if tasks[task].revision != s.expectedRevision {
        return Some(RevisionConflict);
      }
      if s.candidate.run != run || s.candidate.task != task {
        return Some(CandidateInvalid);
      }
      if tasks[task].spec !in lineage.specs {
        return Some(InvariantViolated);
      }
      if lineage.specs[tasks[task].spec].None? {
        return Some(CandidateInvalid);
      }
      var spec := lineage.specs[tasks[task].spec].value;
      var valid := ValidateAgainstSpec(s.candidate, spec);
      if valid.Err? {
        return Some(CandidateInvalid);
      }
      refusal := CheckOutputs(spec, run, s.candidate.outputs);
      if refusal.Some? {
        return;
      }
      if exists d :: d in candidates && candidates[d].run == run {
        return Some(CandidateExists);
      }
    }

    /** The output rows, one by one; a taken primary key stops it half-way. */
    method InsertOutputs(candidate: CandidateResult) returns (inserted: bool)
      requires Distinct(candidate.outputs, Slot)
      modifies this`outputs
      ensures inserted <==> old(OutputsFree(outputs, candidate))
      ensures inserted ==> outputs == WithOutputs(old(outputs), candidate, candidate.outputs)
    {
      var digest := OfCandidate(candidate);
      for i := 0 to |candidate.outputs|
        invariant outputs == WithOutputs(old(outputs), candidate, candidate.outputs[..i])
        invariant forall k | 0 <= k < i :: (digest, candidate.outputs[k].slot) !in old(outputs)
      {
        var output := candidate.outputs[i];
        OutputKeys(old(outputs), candidate, candidate.outputs[..i], digest, output.slot);
        assert forall k | 0 <= k < i :: Slot(candidate.outputs[k]) != Slot(output);
        if (digest, output.slot) in outputs {
          assert output in candidate.outputs;
          return false;
        }
        assert candidate.outputs[..i + 1][..i] == candidate.outputs[..i];
        outputs := outputs[(digest, output.slot) := OutputRow(output.artifact, candidate.run)];
      }
      assert candidate.outputs[..|candidate.outputs|] == candidate.outputs;
      return true;
    }

    /** The request outcome, committed with everything else. */
    method RecordSubmission(s: Submission)
      requires (s.credential.attempt, s.request) in requests ==>
        requests[(s.credential.attempt, s.request)].hash == HashOf(s)
      modifies this`requests
      ensures requests == old(RequestsAfter(requests, s))
    {
      var key, state := (s.credential.attempt, s.request), Succeeded(CandidateReference(OfCandidate(s.candidate)));
      if key in requests {
        requests := requests[key := requests[key].(state := state)];
      } else {
        requests := requests[key := Request(HashOf(s), SubmitResult, state)];
      }
    }

    /** The Candidate row and its output rows. */
    method InsertCandidate(c: CandidateResult) returns (inserted: bool)
      requires Distinct(c.outputs, Slot)
      modifies this`candidates, this`outputs
      ensures inserted <==> OfCandidate(c) !in old(candidates) && OutputsFree(old(outputs), c)
      ensures inserted ==> candidates == old(candidates)[OfCandidate(c) := CandidateRow(c.task, c.run, c)]
      ensures inserted ==> outputs == WithOutputs(old(outputs), c, c.outputs)
    {
      if OfCandidate(c) in candidates {
        return false;
      }
      candidates := candidates[OfCandidate(c) := CandidateRow(c.task, c.run, c)];
      inserted := InsertOutputs(c);
    }

    /** The Run finalizes, the Task is evaluated. */
    method MoveLifecycle(c: CandidateResult)
      requires c.run in runStatus && c.task in tasks
      modifies this`runStatus, this`tasks
      ensures runStatus == old(runStatus)[c.run := Finalized(old(runStatus)[c.run], OfCandidate(c))]
      ensures tasks == old(tasks)[c.task := Evaluating(old(tasks)[c.task])]
    {
      runStatus := runStatus[c.run := Finalized(runStatus[c.run], OfCandidate(c))];
      tasks := tasks[c.task := Evaluating(tasks[c.task])];
    }

    /** The writes of T6, in order, up to the final Event. */
    method WriteSubmission(s: Submission, journal: bool) returns (written: bool)
      requires Distinct(s.candidate.outputs, Slot) && s.candidate.run in runStatus && s.candidate.task in tasks
      requires (s.credential.attempt, s.request) in requests ==>
        requests[(s.credential.attempt, s.request)].hash == HashOf(s)
      modifies this
      ensures written <==> old(SlotsFree(Contents(), s.candidate)) && 1 <= |s.request| <= 128 && journal
      ensures written ==> Contents() == old(AfterSubmit(Contents(), s))
    {
      written := InsertCandidate(s.candidate);
      if !written {
        return;
      }
      assert candidates == old(AfterSubmit(Contents(), s)).candidates
        && outputs == old(AfterSubmit(Contents(), s)).outputs;
      MoveLifecycle(s.candidate);
      RecordSubmission(s);
      assert Contents() == old(AfterSubmit(Contents(), s));
      written := 1 <= |s.request| <= 128 && journal;
    }

    /** The part of T6 after the request ledger. */
    method SubmitNew(s: Submission, journal: bool) returns (outcome: Result<Submitted, Refusal>)
      requires Distinct(s.candidate.outputs, Slot)
      requires (s.credential.attempt, s.request) in requests ==>
        requests[(s.credential.attempt, s.request)].hash == HashOf(s)
      modifies this
      ensures (Contents(), outcome) == SubmittingNew(old(Contents()), s, journal)
    {
      var refusal := CheckSubmission(s);
      if refusal.Some? {
        return Err(refusal.value);
      }
      var snapshot := Contents();
      var written := WriteSubmission(s, journal);
      if !written {
        Rollback(snapshot);
        return Err(Storage);
      }
      return Ok(Submitted(OfCandidate(s.candidate), tasks[s.candidate.task].revision,
        runStatus[s.candidate.run].revision, false));
    }

    /** `submit_candidate`: all of T6, or nothing. */
    method SubmitCandidate(s: Submission, journal: bool) returns (outcome: Result<Submitted, Refusal>)
      requires Normal(s.candidate)
      modifies this
      ensures (Contents(), outcome) == Submitting(old(Contents()), s, journal)
      ensures outcome.Err? ==> Contents() == old(Contents())
    {
      if !Authorized(Contents(), s.credential) {
        return Err(Unauthorized);
      }
      var key := (s.credential.attempt, s.request);
      if key in requests {
        if requests[key].hash != HashOf(s) {
          return Err(RequestConflict);
        }
        if requests[key].state.Succeeded? {
          match requests[key].state.result {
            case CandidateReference(digest) => return CommittedOutcome(Contents(), s.candidate, digest);
            case SealedReference(_) => return Err(InvariantViolated);
          }
        }
      }
      outcome := SubmitNew(s, journal);
    }

    /** `ensure_blob` for each member. */
    method EnsureBlobs(wanted: seq<(Digest, nat)>) returns (refusal: Option<Refusal>)
      modifies this`blobs
      ensures refusal == BlobRefusal(old(blobs), wanted)
      ensures refusal.None? ==> blobs == WithBlobs(old(blobs), wanted)
    {
      for i := 0 to |wanted|
        invariant BlobRefusal(old(blobs), wanted) == BlobRefusal(blobs, wanted[i..])
        invariant WithBlobs(old(blobs), wanted) == WithBlobs(blobs, wanted[i..])
      {
        assert wanted[i..][0] == wanted[i] && wanted[i..][1..] == wanted[i + 1..];
        var (digest, size) := wanted[i];
        if size > I64_MAX {
          return Some(InvariantViolated);
        }
        if digest in blobs {
          if blobs[digest] != size {
            return Some(BlobSizeConflict);
          }
          assert blobs[digest := size] == blobs;
        } else {
          blobs := blobs[digest := size];
        }
      }
      return None;
    }

    /** The captured revision: reused, or created under a fresh id. */
    method EnsureRevision(s: Seal) returns (ensured: bool)
      modifies this`revisions
      ensures ensured <==> FreshRevisionId(old(revisions), s)
      ensures ensured ==> revisions == RevisionsAfter(old(revisions), s)
    {
      if (s.workspace, s.revision) in revisions {
        return true;
      }
      if exists k :: k in revisions && revisions[k].id == s.freshId {
        return false;
      }
      revisions := revisions[(s.workspace, s.revision) := RevisionRow(s.freshId, s.revision)];
      return true;
    }

    /** The Artifact and its members: reused when it is the same document, never overwritten. */
    method EnsureArtifact(s: Seal) returns (ensured: bool)
      modifies this`artifacts, this`members
      ensures ensured <==> !ArtifactConflict(old(artifacts), s)
      ensures ensured ==> artifacts == old(artifacts)[s.artifact := ArtifactRow(CODE_CHANGESET_KIND, s.manifest)]
      ensures ensured ==> members == MembersAfter(old(members), s)
    {
      if ArtifactConflict(artifacts, s) {
        return false;
      }
      artifacts := artifacts[s.artifact := ArtifactRow(CODE_CHANGESET_KIND, s.manifest)];
      members := members + set m | m in s.members :: (s.artifact, m.0);
      return true;
    }

    /** Blobs, revision and Artifact: the immutable rows a publication needs. */
    method EnsureContent(s: Seal) returns (refusal: Option<Refusal>)
      modifies this`blobs, this`revisions, this`artifacts, this`members
      ensures refusal == ContentRefusal(old(blobs), old(revisions), old(artifacts), s)
      ensures refusal.None? ==>
        blobs == WithBlobs(old(blobs), s.members) && revisions == RevisionsAfter(old(revisions), s)
      ensures refusal.None? ==> artifacts == old(artifacts)[s.artifact := ArtifactRow(CODE_CHANGESET_KIND, s.manifest)]
      ensures refusal.None? ==> members == MembersAfter(old(members), s)
    {
      refusal := EnsureBlobs(s.members);
      if refusal.Some? {
        return;
      }
      var ensured := EnsureRevision(s);
      if !ensured {
        return Some(Storage);
      }
      ensured := EnsureArtifact(s);
      if !ensured {
        return Some(ContentIdentityConflict);
      }
    }

    /** The production record: the same claim again, or a new one. */
    method RecordProduction(s: Seal, claim: Production) returns (refusal: Option<Refusal>)
      requires s.producer.Some?
      modifies this`production
      ensures refusal == ProductionRefusal(old(production), lineage, s, claim)
      ensures refusal.None? ==> production == old(production)[(s.run, s.slot) := claim]
    {
      if (s.run, s.slot) in production {
        if production[(s.run, s.slot)] != claim {
          return Some(ProductionConflict);
        }
        assert production[(s.run, s.slot) := claim] == production;
        return None;
      }
      if !ProducerBelongs(lineage, s) {
        return Some(Storage);
      }
      production := production[(s.run, s.slot) := claim];
      return None;
    }

    /** The writes of a publication, in order; a refusal leaves what was written to the rollback. */
    method WriteSeal(s: Seal) returns (outcome: Result<SealOutcome, Refusal>)
      modifies this
      ensures outcome.Ok? ==> Contents() == old(AfterSeal(Contents(), s))
      ensures outcome == old(WriteOutcome(Contents(), s))
    {
      var revision, reused := RevisionId(revisions, s), s.artifact in artifacts;
      var claim := if s.producer.Some? then Some(Claim(revisions, s)) else None;
      var refusal := EnsureContent(s);
      if refusal.Some? {
        return Err(refusal.value);
      }
      if claim.Some? {
        refusal := RecordProduction(s, claim.value);
        if refusal.Some? {
          return Err(refusal.value);
        }
      }
      return Ok(SealOutcome(revision, reused));
    }

    method FreezeWorkspace(a: Authority, expected: int) returns (frozen: Result<(), Refusal>)
      modifies this`lineage
      ensures (Contents(), frozen) == Freezing(old(Contents()), a, expected)
    {
      if a.workspace !in lineage.workspaces {
        return Err(RevisionConflict);
      }
      var row := lineage.workspaces[a.workspace];
      if row.task != a.task {
        return Err(SealAuthorityInvalid);
      }
      if !row.phase.Ready? || !row.present {
        return Err(WorkspaceNotFreezable);
      }
      var refusal := AuthorityRefusal(Contents(), a);
      if refusal.Some? {
        return Err(refusal.value);
      }
      if row.revision != expected {
        return Err(RevisionConflict);
      }
      var fenced := row.(phase := WorkspacePhase.Frozen, revision := row.revision + 1);
      lineage := lineage.(workspaces := lineage.workspaces[a.workspace := fenced]);
      return Ok(());
    }

    /** `commit_changeset_seal`: authority re-proven, immutable rows created once or reused. */
    method CommitChangesetSeal(s: Seal) returns (outcome: Result<SealOutcome, Refusal>)
      modifies this
      ensures (Contents(), outcome) == Publishing(old(Contents()), s)
      ensures outcome.Err? ==> Contents() == old(Contents())
    {
      if s.workspace !in lineage.workspaces {
        return Err(RevisionConflict);
      }
      var workspace := lineage.workspaces[s.workspace];
      if workspace.task != s.task || !workspace.phase.Frozen? || workspace.revision != s.fence {
        return Err(SealAuthorityInvalid);
      }
      var refusal := AuthorityRefusal(Contents(), AuthorityOf(s));
      if refusal.Some? {
        return Err(refusal.value);
      }
      var snapshot := Contents();
      outcome := WriteSeal(s);
      if outcome.Err? {
        Rollback(snapshot);
      }
    }
  }
}
