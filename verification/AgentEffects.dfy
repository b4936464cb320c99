/** What each Agent Control transaction leaves in the tables, row by row, and what each refusal means.

    The transactions are given by functions on whole tables; what is stated here names only rows and
    columns. */
module AgentEffects {
  import opened ByteOrder
  import opened Wrappers
  import opened MachineIntegers
  import opened Sorting
  import opened Artifact
  import opened Candidate
  import opened AgentControl
  import AgentRuns

  /** The two tables hold the same rows except under these keys. */
  ghost predicate SameElsewhere<K(!new), V>(before: map<K, V>, after: map<K, V>, keys: iset<K>) {
    forall k | k !in keys :: (k in before <==> k in after) && (k in before ==> after[k] == before[k])
  }

  /** An active session of the generation in force, with the presented verifier. */
  ghost predicate InSession(t: Tables, c: Credential) {
    c.attempt in t.lineage.sessions && t.lineage.sessions[c.attempt] == Session(t.lineage.generation, true, c.verifier)
  }

  // ---------------------------------------------------------------- T6

  /** The rows T6 needs to find: the Attempt is the live one of an Active Run that holds the slot, of an
      Active Task that names the Run, under a Goal that still admits work. */
  ghost predicate Holds(t: Tables, attempt: Text, run: Text, task: Text) {
    && attempt in t.lineage.attempts && t.lineage.attempts[attempt] == AttemptRow(run, false)
    && run in t.runStatus
    && t.runStatus[run].phase == Active && t.runStatus[run].slotHeld
    && t.runStatus[run].task == task && t.runStatus[run].currentAttempt == Some(attempt)
    && task in t.tasks
    && t.tasks[task].phase == TaskActive && t.tasks[task].activeRun == Some(run)
    && t.tasks[task].goal in t.lineage.goals
    && t.lineage.goals[t.tasks[task].goal] in {GoalPlanning, GoalActive, GoalEvaluating}
  }

  ghost predicate Specified(t: Tables, task: Text)
    requires task in t.tasks
  {
    t.tasks[task].spec in t.lineage.specs && t.lineage.specs[t.tasks[task].spec].Some?
  }

  /** The request ledger does not answer: no row, or this submission's own row without an outcome. */
  ghost predicate Unanswered(t: Tables, s: Submission) {
    var key := (s.credential.attempt, s.request);
    key in t.requests ==>
      && t.requests[key].hash == SubmitHash(s.credential.attempt, s.request, s.candidate)
      && !t.requests[key].state.Succeeded?
  }

  /** T6 commits a new Candidate exactly when a live session presents it for the Run it holds, at the
      Task's current revision, with outputs that fit the specification and are stored, complete and
      produced by the Run, the Run has no Candidate, and the engine takes the rows and the Event. */
  lemma CommitsIff(t: Tables, s: Submission, journal: bool)
    ensures (Submitting(t, s, journal).1.Ok? && !Submitting(t, s, journal).1.value.reconciled) <==>
      var (run, task) := (s.candidate.run, s.candidate.task);
      && InSession(t, s.credential) && Unanswered(t, s)
      && Holds(t, s.credential.attempt, run, task)
      && t.tasks[task].revision == s.expectedRevision
      && Specified(t, task) && FitsSpec(s.candidate, t.lineage.specs[t.tasks[task].spec].value)
      && (forall o | o in s.candidate.outputs ::
            Supported(t, t.lineage.specs[t.tasks[task].spec].value, run, o))
      && (forall d | d in t.candidates :: t.candidates[d].run != run)
      && SlotsFree(t, s.candidate) && 1 <= |s.request| <= 128 && journal
  {
    SubmitsIff(t, s, journal);
    assert Authorized(t, s.credential) <==> InSession(t, s.credential);
    assert Unanswered(t, s) <==> (HasRow(t, s) ==>
      t.requests[(s.credential.attempt, s.request)].hash == HashOf(s)
        && !t.requests[(s.credential.attempt, s.request)].state.Succeeded?);
  }

  /** The Run finalizes towards Completed with this Candidate and keeps its slot. */
  ghost predicate RunFinalizing(before: RunStatus, after: RunStatus, digest: CandidateDigest) {
    && after.phase == Finalizing && after.target == Some(Completed) && after.candidate == Some(digest)
    && after.revision == before.revision + 1
    && after.task == before.task && after.slotHeld == before.slotHeld && after.currentAttempt == before.currentAttempt
  }

  /** The Task waits for evaluation, otherwise as it was. */
  ghost predicate TaskInEvaluation(before: TaskRow, after: TaskRow) {
    && after.phase == TaskEvaluating && after.revision == before.revision + 1
    && after.goal == before.goal && after.activeRun == before.activeRun && after.spec == before.spec
  }

  /** One row per output, under the Candidate's digest and the slot. */
  ghost predicate OutputsStored(before: map<(CandidateDigest, Bytes), OutputRow>,
      after: map<(CandidateDigest, Bytes), OutputRow>, c: CandidateResult, outputs: seq<Output>) {
    && (forall o | o in outputs ::
          (OfCandidate(c), o.slot) in after && after[(OfCandidate(c), o.slot)] == OutputRow(o.artifact, c.run))
    && SameElsewhere(before, after, iset o | o in outputs :: (OfCandidate(c), o.slot))
  }

  lemma OutputRows(rows: map<(CandidateDigest, Bytes), OutputRow>, c: CandidateResult, outputs: seq<Output>)
    requires Distinct(outputs, Slot)
    ensures OutputsStored(rows, WithOutputs(rows, c, outputs), c, outputs)
  {
    AgentRuns.OutputValues(rows, c, outputs);
    OutputsElsewhere(rows, c, outputs);
  }

  lemma {:induction false} OutputsElsewhere(rows: map<(CandidateDigest, Bytes), OutputRow>, c: CandidateResult,
      outputs: seq<Output>)
    ensures SameElsewhere(rows, WithOutputs(rows, c, outputs), iset o | o in outputs :: (OfCandidate(c), o.slot))
  {
    if outputs != [] {
      var last, rest := outputs[|outputs| - 1], outputs[..|outputs| - 1];
      OutputsElsewhere(rows, c, rest);
      assert forall o :: o in outputs <==> o in rest || o == last;
      var fewer := iset o | o in rest :: (OfCandidate(c), o.slot);
      var keys := iset o | o in outputs :: (OfCandidate(c), o.slot);
      assert (OfCandidate(c), last.slot) in keys;
      assert forall k | k in fewer :: k in keys;
    }
  }

  /** Everything a committed T6 leaves: the Run, the Task, the Candidate, its outputs and the request row;
      no other row of any table changes. */
  ghost predicate Committed(t: Tables, s: Submission, after: Tables) {
    var c, digest, key := s.candidate, OfCandidate(s.candidate), (s.credential.attempt, s.request);
    && c.run in t.runStatus && c.run in after.runStatus && c.task in t.tasks && c.task in after.tasks
    && RunFinalizing(t.runStatus[c.run], after.runStatus[c.run], digest) && after.runStatus[c.run].slotHeld
    && SameElsewhere(t.runStatus, after.runStatus, iset{c.run})
    && TaskInEvaluation(t.tasks[c.task], after.tasks[c.task]) && after.tasks[c.task].activeRun == Some(c.run)
    && SameElsewhere(t.tasks, after.tasks, iset{c.task})
    && digest !in t.candidates && digest in after.candidates
    && after.candidates[digest] == CandidateRow(c.task, c.run, c)
    && SameElsewhere(t.candidates, after.candidates, iset{digest})
    && OutputsStored(t.outputs, after.outputs, c, c.outputs)
    && key in after.requests
    && after.requests[key].hash == SubmitHash(s.credential.attempt, s.request, c)
    && after.requests[key].state == Succeeded(CandidateReference(digest))
    && after.requests[key].operation == (if key in t.requests then t.requests[key].operation else SubmitResult)
    && SameElsewhere(t.requests, after.requests, iset{key})
    && after.lineage == t.lineage && after.blobs == t.blobs && after.revisions == t.revisions
    && after.artifacts == t.artifacts && after.members == t.members && after.production == t.production
  }

  /** A submission that commits leaves exactly that, and answers with the revisions it left; one that does
      not leaves every table as it was. */
  lemma SubmitEffect(t: Tables, s: Submission, journal: bool)
    requires Normal(s.candidate)
    ensures var (after, outcome) := Submitting(t, s, journal);
      if outcome.Ok? && !outcome.value.reconciled then
        && Committed(t, s, after)
        && outcome.value.digest == OfCandidate(s.candidate)
        && outcome.value.taskRevision == after.tasks[s.candidate.task].revision == s.expectedRevision + 1
        && outcome.value.runRevision == after.runStatus[s.candidate.run].revision
      else after == t
  {
    CommitsIff(t, s, journal);
    if Submitting(t, s, journal).1.Ok? && !Submitting(t, s, journal).1.value.reconciled {
      WritesCommit(t, s);
    }
  }

  lemma WritesCommit(t: Tables, s: Submission)
    requires Normal(s.candidate) && Holds(t, s.credential.attempt, s.candidate.run, s.candidate.task)
    requires OfCandidate(s.candidate) !in t.candidates
    ensures Committed(t, s, AfterSubmit(t, s))
  {
    OutputRows(t.outputs, s.candidate, s.candidate.outputs);
  }

  /** The request's own row names a Candidate that is stored, of the submitted Run and content. */
  ghost predicate Recorded(t: Tables, s: Submission, digest: CandidateDigest) {
    var key := (s.credential.attempt, s.request);
    && key in t.requests
    && t.requests[key].hash == SubmitHash(s.credential.attempt, s.request, s.candidate)
    && t.requests[key].state == Succeeded(CandidateReference(digest))
    && digest in t.candidates && t.candidates[digest].run == s.candidate.run
    && t.candidates[digest].document == s.candidate
  }

  /** A submission is reconciled exactly when its row records the same Candidate, and the answer carries the
      revisions the Task and the Run have now. */
  lemma ReconcilesIff(t: Tables, s: Submission, journal: bool)
    ensures var answer := Submitting(t, s, journal).1;
      && ((answer.Ok? && answer.value.reconciled) <==>
            InSession(t, s.credential) && exists digest :: Recorded(t, s, digest))
      && (answer.Ok? && answer.value.reconciled ==>
            && Recorded(t, s, answer.value.digest)
            && (s.candidate.task in t.tasks ==> answer.value.taskRevision == t.tasks[s.candidate.task].revision)
            && (s.candidate.run in t.runStatus ==> answer.value.runRevision == t.runStatus[s.candidate.run].revision))
  {
    assert Authorized(t, s.credential) <==> InSession(t, s.credential);
    var key := (s.credential.attempt, s.request);
    if key in t.requests && t.requests[key].state.Succeeded? && t.requests[key].state.result.CandidateReference? {
      var digest := t.requests[key].state.result.digest;
      assert Recorded(t, s, digest) <==>
        t.requests[key].hash == HashOf(s) && CommittedOutcome(t, s.candidate, digest).Ok?;
    }
  }

  // ---------------------------------------------------------------- what T6's refusals mean

  /** Who is refused before anything of the Task is looked at: a credential without a live session, a
      request identity used for something else, and an Attempt that does not hold the slot for a Task. */
  lemma EarlyRefusals(t: Tables, s: Submission, journal: bool)
    ensures var (key, answer) := ((s.credential.attempt, s.request), Submitting(t, s, journal).1);
      && (answer == Err(Unauthorized) <==> !InSession(t, s.credential))
      && (answer == Err(RequestConflict) <==>
            && InSession(t, s.credential) && key in t.requests
            && t.requests[key].hash != SubmitHash(s.credential.attempt, s.request, s.candidate))
      && (answer == Err(StaleAuthority) <==>
            && InSession(t, s.credential) && Unanswered(t, s)
            && forall run, task :: !Holds(t, s.credential.attempt, run, task))
  {
    assert Authorized(t, s.credential) <==> InSession(t, s.credential);
    var attempt := s.credential.attempt;
    if Current(t, attempt) {
      var run := t.lineage.attempts[attempt].run;
      assert Holds(t, attempt, run, t.runStatus[run].task);
    }
    if InSession(t, s.credential) && Unanswered(t, s) && Current(t, attempt) {
      NeverAgain(t, s);
    }
  }

  /** Past the early checks no early refusal is given. */
  lemma NeverAgain(t: Tables, s: Submission)
    requires Current(t, s.credential.attempt)
    ensures SubmitRefusal(t, s) !in {Some(Unauthorized), Some(RequestConflict), Some(StaleAuthority)}
  {
    var run := t.lineage.attempts[s.credential.attempt].run;
    var spec := StoredSpec(t, t.runStatus[run].task);
    if spec.Some? && AllDeclared(s.candidate.outputs, spec.value) {
      OnlyThree(t, spec.value, run, s.candidate.outputs);
    }
  }

  lemma {:induction false} OnlyThree(t: Tables, spec: TaskSpec, run: Text, outputs: seq<Output>)
    requires AllDeclared(outputs, spec)
    ensures OutputsRefusal(t, spec, run, outputs)
      in {None, Some(CandidateInvalid), Some(ArtifactIncomplete), Some(ProvenanceInvalid)}
  {
    if outputs != [] {
      OnlyThree(t, spec, run, outputs[1..]);
    }
  }

  /** A submission by the holder of the slot: the Task's revision decides first, then whether the
      Candidate names the holder's Run and Task, then whether the specification is stored and met. */
  lemma HolderRefusals(t: Tables, s: Submission, journal: bool, run: Text, task: Text)
    requires InSession(t, s.credential) && Unanswered(t, s) && Holds(t, s.credential.attempt, run, task)
    ensures var answer := Submitting(t, s, journal).1;
      if t.tasks[task].revision != s.expectedRevision then answer == Err(RevisionConflict)
      else if s.candidate.run != run || s.candidate.task != task then answer == Err(CandidateInvalid)
      else if t.tasks[task].spec !in t.lineage.specs then answer == Err(InvariantViolated)
      else
        (var spec := t.lineage.specs[t.tasks[task].spec]; spec.None? || !FitsSpec(s.candidate, spec.value))
          ==> answer == Err(CandidateInvalid)
  {
  }

  /** Everything before the outputs is in order. */
  ghost predicate Presented(t: Tables, s: Submission, spec: TaskSpec) {
    && InSession(t, s.credential) && Unanswered(t, s)
    && Holds(t, s.credential.attempt, s.candidate.run, s.candidate.task)
    && t.tasks[s.candidate.task].revision == s.expectedRevision
    && t.tasks[s.candidate.task].spec in t.lineage.specs
    && t.lineage.specs[t.tasks[s.candidate.task].spec] == Some(spec)
    && FitsSpec(s.candidate, spec)
  }

  ghost predicate KindStored(t: Tables, spec: TaskSpec, o: Output)
    requires Declared(spec.outputs, o.slot).Some?
  {
    o.artifact in t.artifacts && t.artifacts[o.artifact].kind == Declared(spec.outputs, o.slot).value.kind
  }

  ghost predicate ProducedBy(t: Tables, run: Text, o: Output) {
    (run, o.slot) in t.production && t.production[(run, o.slot)].artifact == o.artifact
  }

  /** The first output that is not supported decides: stored under its declared kind or not, then complete
      or not, then produced by the Run for the slot or not. */
  lemma OutputRefusals(t: Tables, s: Submission, journal: bool, spec: TaskSpec, i: nat)
    requires Presented(t, s, spec) && i < |s.candidate.outputs|
    requires !Supported(t, spec, s.candidate.run, s.candidate.outputs[i])
    requires forall j | 0 <= j < i :: Supported(t, spec, s.candidate.run, s.candidate.outputs[j])
    ensures var (o, answer) := (s.candidate.outputs[i], Submitting(t, s, journal).1);
      if !KindStored(t, spec, o) then answer == Err(CandidateInvalid)
      else if !MembersComplete(t, o.artifact) then answer == Err(ArtifactIncomplete)
      else answer == Err(ProvenanceInvalid) && !ProducedBy(t, s.candidate.run, o)
  {
    RefusedAt(t, spec, s.candidate.run, s.candidate.outputs, i);
  }

  /** With every output supported, a second Candidate of the Run is refused as such, and what else fails
      is the engine's: taken rows, an identity too long, an Event not taken. */
  lemma LastRefusals(t: Tables, s: Submission, journal: bool, spec: TaskSpec)
    requires Presented(t, s, spec)
    requires forall o | o in s.candidate.outputs :: Supported(t, spec, s.candidate.run, o)
    ensures var answer := Submitting(t, s, journal).1;
      && (answer == Err(CandidateExists) <==> exists d :: d in t.candidates && t.candidates[d].run == s.candidate.run)
      && (answer == Err(Storage) <==>
            && (forall d | d in t.candidates :: t.candidates[d].run != s.candidate.run)
            && !(SlotsFree(t, s.candidate) && 1 <= |s.request| <= 128 && journal))
      && (answer.Err? ==> answer.error.CandidateExists? || answer.error.Storage?)
  {
  }

  /** The first output that is not supported decides the refusal. */
  lemma {:induction false} RefusedAt(t: Tables, spec: TaskSpec, run: Text, outputs: seq<Output>, i: nat)
    requires AllDeclared(outputs, spec) && i < |outputs| && OutputRefusal(t, spec, run, outputs[i]).Some?
    requires forall j | 0 <= j < i :: OutputRefusal(t, spec, run, outputs[j]).None?
    ensures OutputsRefusal(t, spec, run, outputs) == OutputRefusal(t, spec, run, outputs[i])
    decreases i
  {
    if i > 0 {
      assert outputs[0] in outputs && outputs[1..][i - 1] == outputs[i];
      RefusedAt(t, spec, run, outputs[1..], i - 1);
    }
  }

  // ---------------------------------------------------------------- the request ledger

  /** Opening: a live session gets a new STARTED row for this Attempt, request and slot, or is told the
      state of the row it opened before; the identity used for anything else is a conflict. */
  lemma OpenEffect(t: Tables, c: Credential, request: Text, slot: Bytes)
    ensures var (key, hash) := ((c.attempt, request), SealHash(c.attempt, request, slot));
      var (after, answer) := OpenRow(t, c, request, slot);
      && (answer == Err(Unauthorized) <==> !InSession(t, c))
      && (answer == Err(RequestConflict) <==> InSession(t, c) && key in t.requests && t.requests[key].hash != hash)
      && (InSession(t, c) && key in t.requests && t.requests[key].hash == hash <==>
            answer.Ok? && answer.value.Reconciled?)
      && (answer.Ok? && answer.value.Reconciled? ==> answer.value.state == t.requests[key].state)
      && (answer == Ok(NewlyStarted) <==> InSession(t, c) && key !in t.requests && 1 <= |request| <= 128)
      && (answer != Ok(NewlyStarted) ==> after == t)
      && (answer == Ok(NewlyStarted) ==>
            && key in after.requests && after.requests[key] == Request(hash, SealArtifact, Started)
            && SameElsewhere(t.requests, after.requests, iset{key}) && after == t.(requests := after.requests))
  {
    assert Authorized(t, c) <==> InSession(t, c);
  }

  /** The row that is written when a seal ends: only a STARTED one changes, only in its state. */
  ghost predicate Ended(t: Tables, key: (Text, Text), state: RequestState, after: Tables) {
    && key in t.requests && t.requests[key].state == Started && key in after.requests
    && after.requests[key] == Request(t.requests[key].hash, t.requests[key].operation, state)
    && SameElsewhere(t.requests, after.requests, iset{key}) && after == t.(requests := after.requests)
  }

  lemma EndEffects(t: Tables, c: Credential, request: Text, artifact: Digest, code: Text)
    ensures var key := (c.attempt, request);
      var (done, completed) := CompleteRow(t, c, request, artifact);
      var (gone, failed) := FailRow(t, c, request, code);
      if !InSession(t, c) then completed == failed == Err(Unauthorized) && done == gone == t
      else if key in t.requests && t.requests[key].state == Started then
        && completed == failed == Ok(())
        && Ended(t, key, Succeeded(SealedReference(artifact)), done) && Ended(t, key, Refused(code), gone)
      else
        && done == gone == t && failed == Ok(())
        && completed == (if key in t.requests && t.requests[key].state.Succeeded? then Ok(())
                         else Err(InvariantViolated))
  {
    assert Authorized(t, c) <==> InSession(t, c);
  }

  // ---------------------------------------------------------------- the fence

  /** The companion rows of an authority that the schema keeps with a Task and a Run. */
  ghost predicate Companions(t: Tables, a: Authority) {
    && (a.run in t.lineage.runs ==> a.run in t.runStatus && t.lineage.runs[a.run].frozen.Some?)
    && a.workspace in t.lineage.workspaces
    && (a.task in t.tasks ==> Specified(t, a.task))
  }

  /** With the companion rows in place a failed authority is invalid authority; a broken store is reported
      only when one of them is missing. */
  lemma AuthorityRefusedIff(t: Tables, a: Authority)
    ensures Companions(t, a) ==> (AuthorityRefusal(t, a) == Some(SealAuthorityInvalid) <==> !SealAuthority(t, a))
    ensures AuthorityRefusal(t, a) == Some(InvariantViolated) ==> !Companions(t, a)
  {
  }

  /** A Ready, present Workspace of the Task, at the expected revision and under valid authority, becomes
      Frozen one revision later; nothing else changes, and without all of that nothing does. */
  lemma FreezeEffect(t: Tables, a: Authority, expected: int)
    ensures var (after, frozen) := Freezing(t, a, expected);
      && (frozen.Ok? <==>
            && a.workspace in t.lineage.workspaces && SealAuthority(t, a)
            && var row := t.lineage.workspaces[a.workspace];
               row.task == a.task && row.phase == WorkspacePhase.Ready && row.present && row.revision == expected)
      && (frozen.Ok? ==>
            && a.workspace in after.lineage.workspaces
            && (var (row, fenced) := (t.lineage.workspaces[a.workspace], after.lineage.workspaces[a.workspace]);
                fenced == WorkspaceRow(row.task, WorkspacePhase.Frozen, true, expected + 1, row.base))
            && SameElsewhere(t.lineage.workspaces, after.lineage.workspaces, iset{a.workspace})
            && after == t.(lineage := t.lineage.(workspaces := after.lineage.workspaces)))
      && (frozen.Err? ==> after == t)
  {
  }

  /** What a refused freeze says, in the order it is found out. */
  lemma FreezeRefusals(t: Tables, a: Authority, expected: int)
    ensures var frozen := Freezing(t, a, expected).1;
      if a.workspace !in t.lineage.workspaces then frozen == Err(RevisionConflict)
      else if t.lineage.workspaces[a.workspace].task != a.task then frozen == Err(SealAuthorityInvalid)
      else if t.lineage.workspaces[a.workspace].phase != WorkspacePhase.Ready
              || !t.lineage.workspaces[a.workspace].present then frozen == Err(WorkspaceNotFreezable)
      else if !SealAuthority(t, a) then
        frozen.Err? && (frozen.error.SealAuthorityInvalid? || (frozen.error.InvariantViolated? && !Companions(t, a)))
      else frozen == if t.lineage.workspaces[a.workspace].revision == expected then Ok(()) else Err(RevisionConflict)
  {
  }

  // ---------------------------------------------------------------- publication

  /** Sizes fit the column, and no two claims about one blob disagree, stored or made here. */
  ghost predicate SizesAgree(blobs: map<Digest, nat>, members: seq<(Digest, nat)>) {
    && (forall m | m in members :: m.1 <= I64_MAX && (m.0 in blobs ==> blobs[m.0] == m.1))
    && (forall m, n | m in members && n in members && m.0 == n.0 :: m.1 == n.1)
  }

  /** A broken invariant is reported for a size that does not fit, a conflict for one that disagrees. */
  lemma {:induction false} BlobsTakenIff(blobs: map<Digest, nat>, members: seq<(Digest, nat)>)
    ensures BlobRefusal(blobs, members).None? <==> SizesAgree(blobs, members)
    ensures BlobRefusal(blobs, members) in {None, Some(InvariantViolated), Some(BlobSizeConflict)}
    ensures BlobRefusal(blobs, members) == Some(InvariantViolated) ==> exists m :: m in members && m.1 > I64_MAX
    ensures (forall m | m in members :: m.1 > I64_MAX) && members != [] ==>
      BlobRefusal(blobs, members) == Some(InvariantViolated)
    decreases |members|
  {
    if members != [] {
      var first, rest := members[0], members[1..];
      assert forall m :: m in members <==> m == first || m in rest;
      BlobsTakenIff(blobs[first.0 := first.1], rest);
    }
  }

  /** Each member has its row, with its size; no other row is touched. */
  ghost predicate BlobsStored(before: map<Digest, nat>, after: map<Digest, nat>, members: seq<(Digest, nat)>) {
    && (forall m | m in members :: m.0 in after && after[m.0] == m.1)
    && SameElsewhere(before, after, iset m | m in members :: m.0)
  }

  lemma {:induction false} BlobRows(blobs: map<Digest, nat>, members: seq<(Digest, nat)>)
    requires SizesAgree(blobs, members)
    ensures BlobsStored(blobs, WithBlobs(blobs, members), members)
    decreases |members|
  {
    if members != [] {
      var first, rest := members[0], members[1..];
      assert forall m :: m in members <==> m == first || m in rest;
      BlobRows(blobs[first.0 := first.1], rest);
      var fewer, keys := iset m | m in rest :: m.0, iset m | m in members :: m.0;
      assert first.0 in keys && forall k | k in fewer :: k in keys;
    }
  }

  /** The frozen Workspace row the seal was captured under. */
  ghost predicate Fenced(t: Tables, s: Seal) {
    && s.workspace in t.lineage.workspaces
    && var row := t.lineage.workspaces[s.workspace];
       row.task == s.task && row.phase == WorkspacePhase.Frozen && row.revision == s.fence
  }

  /** The revision the seal is recorded under: the stored one of this content, or the drawn id. */
  ghost predicate RevisionTaken(t: Tables, s: Seal) {
    (s.workspace, s.revision) in t.revisions || forall k | k in t.revisions :: t.revisions[k].id != s.freshId
  }

  ghost function RecordedUnder(t: Tables, s: Seal): Text {
    if (s.workspace, s.revision) in t.revisions then t.revisions[(s.workspace, s.revision)].id else s.freshId
  }

  /** The Run has produced nothing else for the slot, and its own Attempt is the producer. */
  ghost predicate ProductionTaken(t: Tables, s: Seal) {
    s.producer.Some? ==>
      if (s.run, s.slot) in t.production then
        t.production[(s.run, s.slot)] == Production(s.task, s.producer.value, RecordedUnder(t, s), s.artifact)
      else
        && s.producer.value in t.lineage.attempts && t.lineage.attempts[s.producer.value].run == s.run
        && 0 < |s.slot| <= 128
  }

  ghost predicate ArtifactTaken(t: Tables, s: Seal) {
    s.artifact in t.artifacts ==> t.artifacts[s.artifact] == ArtifactRow("code.changeset", s.manifest)
  }

  /** What stops the writes, in the order they are made. */
  lemma WriteRefusals(t: Tables, s: Seal)
    ensures var refusal := WriteRefusal(t, s);
      if !SizesAgree(t.blobs, s.members) then
        refusal == Some(BlobSizeConflict)
        || (refusal == Some(InvariantViolated) && exists m :: m in s.members && m.1 > I64_MAX)
      else if !RevisionTaken(t, s) then refusal == Some(Storage)
      else if !ArtifactTaken(t, s) then refusal == Some(ContentIdentityConflict)
      else if ProductionTaken(t, s) then refusal == None
      else refusal == Some(if (s.run, s.slot) in t.production then ProductionConflict else Storage)
  {
    BlobsTakenIff(t.blobs, s.members);
  }

  /** What a refused publication says, in the order it is found out. */
  lemma PublishRefusals(t: Tables, s: Seal)
    ensures var (a, answer) := (Authority(s.workspace, s.task, s.run, s.runRevision, s.slot), Publishing(t, s).1);
      if s.workspace !in t.lineage.workspaces then answer == Err(RevisionConflict)
      else if !Fenced(t, s) then answer == Err(SealAuthorityInvalid)
      else if !SealAuthority(t, a) then
        answer.Err? && (answer.error.SealAuthorityInvalid? || (answer.error.InvariantViolated? && !Companions(t, a)))
      else if WriteRefusal(t, s).Some? then answer == Err(WriteRefusal(t, s).value)
      else answer.Ok?
  {
    AuthorityRefusedIff(t, AuthorityOf(s));
    AgentRuns.AuthorityRefusals(t, AuthorityOf(s));
  }

  /** A publication commits exactly under the fence and the authority it was captured under, when no stored
      row contradicts it. */
  lemma PublishesIff(t: Tables, s: Seal)
    ensures Publishing(t, s).1.Ok? <==>
      && Fenced(t, s) && SealAuthority(t, Authority(s.workspace, s.task, s.run, s.runRevision, s.slot))
      && SizesAgree(t.blobs, s.members) && RevisionTaken(t, s) && ArtifactTaken(t, s) && ProductionTaken(t, s)
  {
    PublishRefusals(t, s);
    WriteRefusals(t, s);
  }

  /** Everything a committed publication leaves. */
  ghost predicate Stored(t: Tables, s: Seal, after: Tables) {
    var revision, made := (s.workspace, s.revision), (s.run, s.slot);
    && BlobsStored(t.blobs, after.blobs, s.members)
    && revision in after.revisions
    && after.revisions[revision] ==
         (if revision in t.revisions then t.revisions[revision] else RevisionRow(s.freshId, s.revision))
    && SameElsewhere(t.revisions, after.revisions, iset{revision})
    && s.artifact in after.artifacts && after.artifacts[s.artifact] == ArtifactRow("code.changeset", s.manifest)
    && SameElsewhere(t.artifacts, after.artifacts, iset{s.artifact})
    && (forall a, d :: (a, d) in after.members <==>
          (a, d) in t.members || (a == s.artifact && exists m :: m in s.members && m.0 == d))
    && (s.producer.None? ==> after.production == t.production)
    && (s.producer.Some? ==>
          && made in after.production
          && after.production[made] == Production(s.task, s.producer.value, after.revisions[revision].id, s.artifact)
          && SameElsewhere(t.production, after.production, iset{made}))
    && after.lineage == t.lineage && after.requests == t.requests && after.runStatus == t.runStatus
    && after.tasks == t.tasks && after.candidates == t.candidates && after.outputs == t.outputs
  }

  /** A publication that commits leaves exactly that and answers with the revision it is recorded under and
      whether the Artifact was there; one that does not leaves every table as it was. */
  lemma PublishEffect(t: Tables, s: Seal)
    ensures var (after, answer) := Publishing(t, s);
      if answer.Ok? then
        && Stored(t, s, after)
        && answer.value.revision == after.revisions[(s.workspace, s.revision)].id
        && (answer.value.reused <==> s.artifact in t.artifacts)
      else after == t
  {
    PublishesIff(t, s);
    if Publishing(t, s).1.Ok? {
      BlobRows(t.blobs, s.members);
      MembersRows(t.members, s);
    }
  }

  lemma MembersRows(members: set<(Digest, Digest)>, s: Seal)
    ensures forall a, d :: (a, d) in MembersAfter(members, s) <==>
      (a, d) in members || (a == s.artifact && exists m :: m in s.members && m.0 == d)
  {
  }
}
