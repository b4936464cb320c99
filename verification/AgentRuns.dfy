/** Whole runs of Agent Control: any interleaving of ledger calls, publications, submissions and
    whatever the rest of the system does, with a crash possible between any two of them.

    A gateway that dies between two store calls is a run in which its later calls never come; calls
    of several gateways interleave freely. */
module AgentRuns {
  import opened ByteOrder
  import opened Wrappers
  import opened Sorting
  import opened Artifact
  import opened Candidate
  import opened AgentControl
  import Sealing

  datatype Action =
    | Open(credential: Credential, request: Text, slot: Bytes)
    | Complete(credential: Credential, request: Text, artifact: Digest)
    | Fail(credential: Credential, request: Text, code: Text)
    | Submit(submission: Submission, journal: bool)
    | Publish(seal: Seal)
    | Others(after: Tables)

  /** What the sealer hands over: see `Sealing.SealRun.CaptureAndSeal`. */
  ghost predicate SealerMade(s: Seal) {
    && s.artifact == Of(ManifestDocument(s.manifest))
    && Sealing.Carries(s.members, s.manifest.entries)
    && Sealing.TrueSizes(s.members)
  }

  /** Everything else the system may do between two steps: it leaves the tables of this module
      alone, keeps identities, returns no Run to Active, and creates sessions only under the
      generation in force. */
  ghost predicate Rely(t: Tables, u: Tables) {
    Harmless(t, u) && SessionsKept(t, u)
  }

  /** A session never changes its generation, and a new one carries the current one. */
  ghost predicate SessionsKept(t: Tables, u: Tables) {
    && u.lineage.generation == t.lineage.generation
    && (forall a | a in t.lineage.sessions ::
          a in u.lineage.sessions && u.lineage.sessions[a].generation == t.lineage.sessions[a].generation)
    && (forall a | a in u.lineage.sessions && a !in t.lineage.sessions ::
          u.lineage.sessions[a].generation == t.lineage.generation)
  }

  ghost predicate Harmless(t: Tables, u: Tables) {
    && u.requests == t.requests && u.blobs == t.blobs && u.revisions == t.revisions
    && u.artifacts == t.artifacts && u.members == t.members && u.production == t.production
    && u.candidates == t.candidates && u.outputs == t.outputs
    && LineageKept(t, u)
    && (forall r | r in t.runStatus :: r in u.runStatus && u.runStatus[r].task == t.runStatus[r].task
          && u.runStatus[r].candidate == t.runStatus[r].candidate
             && (u.runStatus[r].phase.Active? ==> t.runStatus[r].phase.Active?))
  }

  /** Attempts keep their Run, Runs and specifications are immutable, Tasks keep their specification. */
  ghost predicate LineageKept(t: Tables, u: Tables) {
    && (forall a | a in t.lineage.attempts ::
          a in u.lineage.attempts && u.lineage.attempts[a].run == t.lineage.attempts[a].run)
    && (forall r | r in t.lineage.runs :: r in u.lineage.runs && u.lineage.runs[r] == t.lineage.runs[r])
    && (forall d | d in t.lineage.specs :: d in u.lineage.specs && u.lineage.specs[d] == t.lineage.specs[d])
    && (forall k | k in t.tasks :: k in u.tasks && u.tasks[k].spec == t.tasks[k].spec)
  }

  ghost function Step(t: Tables, action: Action): Tables {
    match action
    case Open(credential, request, slot) => OpenRow(t, credential, request, slot).0
    case Complete(credential, request, artifact) => CompleteRow(t, credential, request, artifact).0
    case Fail(credential, request, code) => FailRow(t, credential, request, code).0
    case Submit(s, journal) => if Normal(s.candidate) then Submitting(t, s, journal).0 else t
    case Publish(s) => if SealerMade(s) then Publishing(t, s).0 else t
    case Others(after) => if Rely(t, after) then after else t
  }

  ghost function Run(t: Tables, actions: seq<Action>): Tables {
    if actions == [] then t else Step(Run(t, actions[..|actions| - 1]), actions[|actions| - 1])
  }

  /** Nothing has been requested, sealed or submitted yet; the lineage is arbitrary. */
  ghost predicate Empty(t: Tables) {
    && t.requests == map[] && t.blobs == map[] && t.revisions == map[] && t.artifacts == map[]
    && t.members == {} && t.production == map[] && t.candidates == map[] && t.outputs == map[]
  }

  // ---------------------------------------------------------------- what only ever grows

  ghost predicate RowsKept(t: Tables, u: Tables) {
    && (forall d | d in t.blobs :: d in u.blobs && u.blobs[d] == t.blobs[d])
    && (forall k | k in t.revisions :: k in u.revisions && u.revisions[k] == t.revisions[k])
    && (forall a | a in t.artifacts :: a in u.artifacts && u.artifacts[a] == t.artifacts[a])
    && t.members <= u.members
    && (forall k | k in t.production :: k in u.production && u.production[k] == t.production[k])
    && (forall d | d in t.candidates :: d in u.candidates && u.candidates[d] == t.candidates[d])
    && (forall k | k in t.outputs :: k in u.outputs && u.outputs[k] == t.outputs[k])
  }

  /** A request row keeps its hash, and once it is not STARTED it never changes again. */
  ghost predicate LedgerKept(t: Tables, u: Tables) {
    forall k | k in t.requests ::
      && k in u.requests
      && u.requests[k].hash == t.requests[k].hash
      && u.requests[k].operation == t.requests[k].operation
      && (!t.requests[k].state.Started? ==> u.requests[k] == t.requests[k])
  }

  ghost predicate RunsKept(t: Tables, u: Tables) {
    forall r | r in t.runStatus ::
      && r in u.runStatus
      && u.runStatus[r].task == t.runStatus[r].task
      && (!t.runStatus[r].phase.Active? ==>
            !u.runStatus[r].phase.Active? && u.runStatus[r].candidate == t.runStatus[r].candidate)
  }

  ghost predicate Grows(t: Tables, u: Tables) {
    RowsKept(t, u) && LedgerKept(t, u) && RunsKept(t, u) && LineageKept(t, u)
  }

  lemma GrowsTransitive(t: Tables, u: Tables, v: Tables)
    requires Grows(t, u) && Grows(u, v)
    ensures Grows(t, v)
  {
  }

  // ---------------------------------------------------------------- the invariant

  ghost predicate RowSound(t: Tables, key: (Text, Text))
    requires key in t.requests
  {
    var row := t.requests[key];
    match row.hash
    case SealHash(attempt, request, _) =>
      key == (attempt, request) && row.operation.SealArtifact?
        && (row.state.Succeeded? ==> row.state.result.SealedReference?)
    case SubmitHash(attempt, request, c) =>
      && key == (attempt, request) && row.operation.SubmitResult?
      && row.state == Succeeded(CandidateReference(OfCandidate(c)))
      && OfCandidate(c) in t.candidates
      && attempt in t.lineage.attempts && t.lineage.attempts[attempt].run == c.run
  }

  ghost predicate SpecKnown(t: Tables, task: Text) {
    task in t.tasks && t.tasks[task].spec in t.lineage.specs && t.lineage.specs[t.tasks[task].spec].Some?
  }

  ghost function SpecOf(t: Tables, task: Text): TaskSpec
    requires SpecKnown(t, task)
  {
    t.lineage.specs[t.tasks[task].spec].value
  }

  /** A stored Candidate: its Run has left Active for good and points back at it; each output is
      recorded and still supported. */
  ghost predicate CandidateSound(t: Tables, d: CandidateDigest)
    requires d in t.candidates
  {
    var c := d.candidate;
    && t.candidates[d] == CandidateRow(c.task, c.run, c)
    && Normal(c)
    && c.run in t.runStatus && t.runStatus[c.run].task == c.task
    && !t.runStatus[c.run].phase.Active? && t.runStatus[c.run].candidate == Some(d)
    && SpecKnown(t, c.task) && FitsSpec(c, SpecOf(t, c.task))
    && (forall o | o in c.outputs ::
          && (d, o.slot) in t.outputs && t.outputs[(d, o.slot)] == OutputRow(o.artifact, c.run)
          && Supported(t, SpecOf(t, c.task), c.run, o))
  }

  ghost predicate OutputSound(t: Tables, key: (CandidateDigest, Bytes)) {
    key.0 in t.candidates && exists o :: o in key.0.candidate.outputs && o.slot == key.1
  }

  ghost predicate ArtifactSound(t: Tables, a: Digest)
    requires a in t.artifacts
  {
    && t.artifacts[a].kind == CODE_CHANGESET_KIND
    && a == Of(ManifestDocument(t.artifacts[a].manifest))
    && MembersComplete(t, a)
  }

  ghost predicate ProductionSound(t: Tables, key: (Text, Bytes))
    requires key in t.production
  {
    var p := t.production[key];
    && p.artifact in t.artifacts
    && p.attempt in t.lineage.attempts && t.lineage.attempts[p.attempt].run == key.0
    && key.0 in t.lineage.runs && t.lineage.runs[key.0].task == p.task
  }

  ghost predicate BlobsSound(blobs: map<Digest, nat>) {
    forall d | d in blobs :: d.document.Payload? && blobs[d] == |d.document.bytes|
  }

  ghost predicate Content(t: Tables) {
    && (forall a | a in t.artifacts :: ArtifactSound(t, a))
    && (forall k | k in t.production :: ProductionSound(t, k))
    && (forall m | m in t.members :: m.0 in t.artifacts && m.1 in t.blobs)
    && BlobsSound(t.blobs)
  }

  ghost predicate Answers(t: Tables) {
    && (forall d | d in t.candidates :: CandidateSound(t, d))
    && (forall k | k in t.outputs :: OutputSound(t, k))
  }

  ghost predicate Ledger(t: Tables) {
    forall k | k in t.requests :: RowSound(t, k)
  }

  ghost predicate Invariant(t: Tables) {
    Content(t) && Answers(t) && Ledger(t)
  }

  // ---------------------------------------------------------------- what growth preserves

  lemma SupportedGrows(t: Tables, u: Tables, spec: TaskSpec, run: Text, o: Output)
    requires RowsKept(t, u) && Supported(t, spec, run, o)
    ensures Supported(u, spec, run, o)
  {
  }

  lemma CandidateGrows(t: Tables, u: Tables, d: CandidateDigest)
    requires RowsKept(t, u) && RunsKept(t, u) && LineageKept(t, u)
    requires d in t.candidates && CandidateSound(t, d)
    ensures d in u.candidates && CandidateSound(u, d)
  {
  }

  lemma AnswersGrow(t: Tables, u: Tables)
    requires RowsKept(t, u) && RunsKept(t, u) && LineageKept(t, u) && Answers(t)
    requires u.candidates == t.candidates && u.outputs == t.outputs
    ensures Answers(u)
  {
    forall d | d in u.candidates ensures CandidateSound(u, d) {
      CandidateGrows(t, u, d);
    }
    forall k | k in u.outputs ensures OutputSound(u, k) {
      assert OutputSound(t, k);
    }
  }

  lemma LedgerGrows(t: Tables, u: Tables)
    requires RowsKept(t, u) && LineageKept(t, u) && Ledger(t) && u.requests == t.requests
    ensures Ledger(u)
  {
  }

  lemma ContentGrows(t: Tables, u: Tables)
    requires LineageKept(t, u) && Content(t)
    requires u.artifacts == t.artifacts && u.members == t.members && u.production == t.production && u.blobs == t.blobs
    ensures Content(u)
  {
  }

  // ---------------------------------------------------------------- every step

  ghost predicate Kept(t: Tables, u: Tables) {
    Grows(t, u) && Invariant(u)
  }

  lemma OthersKept(t: Tables, u: Tables)
    requires Invariant(t) && Harmless(t, u)
    ensures Kept(t, u)
  {
    ContentGrows(t, u);
    AnswersGrow(t, u);
    LedgerGrows(t, u);
  }

  /** A fence is an ordinary step of the rest of the system. */
  lemma FreezeKept(t: Tables, workspace: Text)
    requires Invariant(t) && workspace in t.lineage.workspaces
    ensures Rely(t, WithFence(t, workspace)) && Kept(t, WithFence(t, workspace))
  {
    OthersKept(t, WithFence(t, workspace));
  }

  /** A step that only touches the request ledger keeps everything else. */
  lemma LedgerOnly(t: Tables, u: Tables)
    requires Content(t) && Answers(t) && u == t.(requests := u.requests)
    ensures Content(u) && Answers(u) && RowsKept(t, u) && RunsKept(t, u) && LineageKept(t, u)
  {
    ContentGrows(t, u);
    AnswersGrow(t, u);
  }

  /** The row a seal request may be given: the first one, or an outcome of a STARTED one. */
  ghost predicate SealRow(t: Tables, key: (Text, Text), row: Request) {
    && row.hash.SealHash? && key == (row.hash.attempt, row.hash.request) && row.operation.SealArtifact?
    && (row.state.Succeeded? ==> row.state.result.SealedReference?)
    && (key in t.requests ==>
          t.requests[key].state.Started? && t.requests[key].hash == row.hash
            && t.requests[key].operation == row.operation)
  }

  lemma RowWritten(t: Tables, key: (Text, Text), row: Request)
    requires Ledger(t) && SealRow(t, key, row)
    ensures var u := t.(requests := t.requests[key := row]); Ledger(u) && LedgerKept(t, u)
  {
  }

  lemma RowKept(t: Tables, key: (Text, Text), row: Request)
    requires Invariant(t) && SealRow(t, key, row)
    ensures Kept(t, t.(requests := t.requests[key := row]))
  {
    RowWritten(t, key, row);
    LedgerOnly(t, t.(requests := t.requests[key := row]));
  }

  lemma UnchangedKept(t: Tables)
    requires Invariant(t)
    ensures Kept(t, t)
  {
  }

  lemma OpenKept(t: Tables, credential: Credential, request: Text, slot: Bytes)
    requires Invariant(t)
    ensures Kept(t, OpenRow(t, credential, request, slot).0)
  {
    var (u, answer) := OpenRow(t, credential, request, slot);
    if answer == Ok(NewlyStarted) {
      RowKept(t, (credential.attempt, request),
        Request(SealHash(credential.attempt, request, slot), SealArtifact, Started));
    } else {
      UnchangedKept(t);
    }
  }

  /** A row found STARTED belongs to a seal and may be given its outcome. */
  lemma StartedRow(t: Tables, key: (Text, Text), state: RequestState)
    requires Ledger(t) && key in t.requests && t.requests[key].state.Started?
    requires state.Succeeded? ==> state.result.SealedReference?
    ensures SealRow(t, key, t.requests[key].(state := state))
  {
  }

  lemma CompleteKept(t: Tables, credential: Credential, request: Text, artifact: Digest)
    requires Invariant(t)
    ensures Kept(t, CompleteRow(t, credential, request, artifact).0)
  {
    var key := (credential.attempt, request);
    if Authorized(t, credential) && key in t.requests && t.requests[key].state.Started? {
      var row := t.requests[key].(state := Succeeded(SealedReference(artifact)));
      StartedRow(t, key, row.state);
      RowKept(t, key, row);
      assert CompleteRow(t, credential, request, artifact).0 == t.(requests := t.requests[key := row]);
    } else {
      assert CompleteRow(t, credential, request, artifact).0 == t;
      UnchangedKept(t);
    }
  }

  lemma FailKept(t: Tables, credential: Credential, request: Text, code: Text)
    requires Invariant(t)
    ensures Kept(t, FailRow(t, credential, request, code).0)
  {
    var key := (credential.attempt, request);
    if Authorized(t, credential) && key in t.requests && t.requests[key].state.Started? {
      var row := t.requests[key].(state := Refused(code));
      StartedRow(t, key, row.state);
      RowKept(t, key, row);
      assert FailRow(t, credential, request, code).0 == t.(requests := t.requests[key := row]);
    } else {
      assert FailRow(t, credential, request, code).0 == t;
      UnchangedKept(t);
    }
  }

  // ---------------------------------------------------------------- publication

  lemma {:induction false} BlobsEnsured(blobs: map<Digest, nat>, members: seq<(Digest, nat)>)
    requires BlobsSound(blobs) && Sealing.TrueSizes(members)
    ensures BlobRefusal(blobs, members) != Some(BlobSizeConflict)
    ensures BlobsSound(WithBlobs(blobs, members))
    ensures forall d | d in blobs :: d in WithBlobs(blobs, members) && WithBlobs(blobs, members)[d] == blobs[d]
    ensures forall m | m in members :: m.0 in WithBlobs(blobs, members)
    decreases |members|
  {
    if members != [] {
      var m := members[0];
      assert m in members;
      assert m.0.document.Payload? && |m.0.document.bytes| == m.1;
      BlobsEnsured(blobs[m.0 := m.1], members[1..]);
    }
  }

  /** What an admitted publication found: no stored row contradicts it. */
  ghost predicate Publishable(t: Tables, s: Seal) {
    && !ArtifactConflict(t.artifacts, s)
    && (s.producer.Some? && (s.run, s.slot) in t.production ==> t.production[(s.run, s.slot)] == Claim(t.revisions, s))
    && (s.producer.Some? && (s.run, s.slot) !in t.production ==> ProducerBelongs(t.lineage, s))
    && s.run in t.lineage.runs && t.lineage.runs[s.run].task == s.task
  }

  lemma SealAdmitted(t: Tables, s: Seal)
    requires SealRefusal(t, s).None?
    ensures Publishable(t, s)
  {
  }

  lemma PublishRows(t: Tables, s: Seal)
    requires BlobsSound(t.blobs) && SealerMade(s) && Publishable(t, s)
    ensures RowsKept(t, AfterSeal(t, s))
  {
    BlobsEnsured(t.blobs, s.members);
  }

  /** The published Artifact passes T6's completeness check: members cover what the manifest names. */
  lemma PublishedComplete(t: Tables, s: Seal)
    requires SealerMade(s)
    ensures var u := AfterSeal(t, s); s.artifact in u.artifacts && ArtifactSound(u, s.artifact)
  {
  }

  lemma PublishArtifacts(t: Tables, s: Seal)
    requires Content(t) && SealerMade(s) && Publishable(t, s)
    ensures var u := AfterSeal(t, s); forall a | a in u.artifacts :: ArtifactSound(u, a)
  {
  }

  lemma PublishProduction(t: Tables, s: Seal)
    requires Content(t) && Publishable(t, s)
    ensures var u := AfterSeal(t, s); forall k | k in u.production :: ProductionSound(u, k)
  {
  }

  lemma PublishContent(t: Tables, s: Seal)
    requires Content(t) && SealerMade(s) && Publishable(t, s)
    ensures Content(AfterSeal(t, s))
  {
    BlobsEnsured(t.blobs, s.members);
    PublishArtifacts(t, s);
    PublishProduction(t, s);
  }

  lemma PublishedKept(t: Tables, s: Seal)
    requires Invariant(t) && SealerMade(s) && Publishable(t, s)
    ensures Kept(t, AfterSeal(t, s))
  {
    PublishRows(t, s);
    PublishContent(t, s);
    AnswersGrow(t, AfterSeal(t, s));
    LedgerGrows(t, AfterSeal(t, s));
  }

  lemma PublishKept(t: Tables, s: Seal)
    requires Invariant(t) && SealerMade(s)
    ensures Kept(t, Publishing(t, s).0)
  {
    UnchangedKept(t);
    if SealRefusal(t, s).None? {
      SealAdmitted(t, s);
      PublishedKept(t, s);
    }
  }

  // ---------------------------------------------------------------- submission

  lemma {:induction false} OutputValues(rows: map<(CandidateDigest, Bytes), OutputRow>, c: CandidateResult,
      outputs: seq<Output>)
    requires Distinct(outputs, Slot)
    ensures forall o | o in outputs ::
      (OfCandidate(c), o.slot) in WithOutputs(rows, c, outputs)
        && WithOutputs(rows, c, outputs)[(OfCandidate(c), o.slot)] == OutputRow(o.artifact, c.run)
    ensures forall k | k in rows && k.0 != OfCandidate(c) ::
      k in WithOutputs(rows, c, outputs) && WithOutputs(rows, c, outputs)[k] == rows[k]
  {
    if outputs != [] {
      var last, rest := outputs[|outputs| - 1], outputs[..|outputs| - 1];
      OutputValues(rows, c, rest);
      forall o | o in outputs
        ensures (OfCandidate(c), o.slot) in WithOutputs(rows, c, outputs)
        ensures WithOutputs(rows, c, outputs)[(OfCandidate(c), o.slot)] == OutputRow(o.artifact, c.run)
      {
        var i :| 0 <= i < |outputs| && outputs[i] == o;
        if i < |outputs| - 1 {
          assert rest[i] == o && o in rest;
          assert Slot(outputs[i]) != Slot(outputs[|outputs| - 1]);
        }
      }
    }
  }

  /** What an admitted submission has established about its own Run and Task. */
  ghost predicate Admission(t: Tables, s: Submission) {
    && s.credential.attempt in t.lineage.attempts && t.lineage.attempts[s.credential.attempt].run == s.candidate.run
    && s.candidate.run in t.runStatus && t.runStatus[s.candidate.run].phase.Active?
    && t.runStatus[s.candidate.run].task == s.candidate.task
    && SpecKnown(t, s.candidate.task) && FitsSpec(s.candidate, SpecOf(t, s.candidate.task))
    && (forall o | o in s.candidate.outputs :: Supported(t, SpecOf(t, s.candidate.task), s.candidate.run, o))
  }

  lemma Admitted(t: Tables, s: Submission)
    requires SubmitRefusal(t, s).None?
    ensures Admission(t, s)
  {
  }

  lemma SubmitRuns(t: Tables, s: Submission)
    requires Admission(t, s)
    ensures RunsKept(t, AfterSubmit(t, s)) && LineageKept(t, AfterSubmit(t, s))
  {
  }

  lemma SubmitRows(t: Tables, s: Submission)
    requires Answers(t) && Normal(s.candidate) && Admission(t, s) && SlotsFree(t, s.candidate)
    ensures RowsKept(t, AfterSubmit(t, s))
  {
    OutputValues(t.outputs, s.candidate, s.candidate.outputs);
    forall k | k in t.outputs ensures k.0 != OfCandidate(s.candidate) {
      assert OutputSound(t, k);
    }
  }

  lemma SubmittedSound(t: Tables, s: Submission)
    requires Answers(t) && Normal(s.candidate) && Admission(t, s) && SlotsFree(t, s.candidate)
    ensures var u := AfterSubmit(t, s);
      && OfCandidate(s.candidate) in u.candidates
      && CandidateSound(u, OfCandidate(s.candidate))
  {
    var u, c := AfterSubmit(t, s), s.candidate;
    SubmitRows(t, s);
    OutputValues(t.outputs, c, c.outputs);
    assert SpecOf(u, c.task) == SpecOf(t, c.task);
    forall o | o in c.outputs ensures Supported(u, SpecOf(u, c.task), c.run, o) {
      SupportedGrows(t, u, SpecOf(t, c.task), c.run, o);
    }
  }

  lemma SubmitAnswers(t: Tables, s: Submission)
    requires Answers(t) && Normal(s.candidate) && Admission(t, s) && SlotsFree(t, s.candidate)
    ensures Answers(AfterSubmit(t, s))
  {
    var u, c := AfterSubmit(t, s), s.candidate;
    SubmitRows(t, s);
    SubmitRuns(t, s);
    forall d | d in u.candidates ensures CandidateSound(u, d) {
      if d == OfCandidate(c) { SubmittedSound(t, s); } else { CandidateGrows(t, u, d); }
    }
    forall k | k in u.outputs ensures OutputSound(u, k) {
      OutputKeys(t.outputs, c, c.outputs, k.0, k.1);
      assert k == (k.0, k.1);
      if k in t.outputs { assert OutputSound(t, k); }
    }
  }

  /** A row that matches a submission's hash is that of a committed submission: the `prior_row`
      branch of T6 is never taken. */
  lemma MatchingRowSucceeded(t: Tables, s: Submission)
    requires Ledger(t) && HasRow(t, s) && t.requests[(s.credential.attempt, s.request)].hash == HashOf(s)
    ensures t.requests[(s.credential.attempt, s.request)].state ==
      Succeeded(CandidateReference(OfCandidate(s.candidate)))
    ensures OfCandidate(s.candidate) in t.candidates
  {
  }

  lemma SubmitLedger(t: Tables, s: Submission)
    requires Ledger(t) && !HasRow(t, s) && Admission(t, s)
    ensures Ledger(AfterSubmit(t, s)) && LedgerKept(t, AfterSubmit(t, s))
  {
  }

  lemma CommitKept(t: Tables, s: Submission)
    requires Invariant(t) && !HasRow(t, s) && Normal(s.candidate) && Admission(t, s) && SlotsFree(t, s.candidate)
    ensures Kept(t, AfterSubmit(t, s))
  {
    SubmitRows(t, s);
    SubmitRuns(t, s);
    ContentGrows(t, AfterSubmit(t, s));
    SubmitAnswers(t, s);
    SubmitLedger(t, s);
  }

  /** A submission changes nothing, or commits as a new one. */
  lemma SubmitCases(t: Tables, s: Submission, journal: bool)
    requires Ledger(t)
    ensures var u := Submitting(t, s, journal).0;
      u == t || (SubmitRefusal(t, s).None? && SlotsFree(t, s.candidate) && !HasRow(t, s) && u == AfterSubmit(t, s))
  {
  }

  lemma SubmitKept(t: Tables, s: Submission, journal: bool)
    requires Invariant(t) && Normal(s.candidate)
    ensures Kept(t, Submitting(t, s, journal).0)
  {
    SubmitCases(t, s, journal);
    if Submitting(t, s, journal).0 == t {
      UnchangedKept(t);
    } else {
      Admitted(t, s);
      CommitKept(t, s);
    }
  }

  lemma KeptTransitive(t: Tables, u: Tables, v: Tables)
    requires Kept(t, u) && Kept(u, v)
    ensures Kept(t, v)
  {
  }

  lemma IdleKept(t: Tables, action: Action)
    requires Invariant(t) && Step(t, action) == t
    ensures Kept(t, Step(t, action))
  {
    UnchangedKept(t);
  }

  lemma StepKept(t: Tables, action: Action)
    requires Invariant(t)
    ensures Kept(t, Step(t, action))
  {
    match action {
      case Open(credential, request, slot) => OpenKept(t, credential, request, slot);
      case Complete(credential, request, artifact) => CompleteKept(t, credential, request, artifact);
      case Fail(credential, request, code) => FailKept(t, credential, request, code);
      case Submit(s, journal) =>
        if Normal(s.candidate) { SubmitKept(t, s, journal); } else { IdleKept(t, action); }
      case Publish(s) =>
        if SealerMade(s) { PublishKept(t, s); } else { IdleKept(t, action); }
      case Others(after) =>
        if Rely(t, after) { OthersKept(t, after); } else { IdleKept(t, action); }
    }
  }

  lemma {:induction false} RunKept(t: Tables, actions: seq<Action>)
    requires Invariant(t)
    ensures Kept(t, Run(t, actions))
  {
    if actions != [] {
      var before := Run(t, actions[..|actions| - 1]);
      RunKept(t, actions[..|actions| - 1]);
      StepKept(before, actions[|actions| - 1]);
      GrowsTransitive(t, before, Run(t, actions));
    }
  }

  // ---------------------------------------------------------------- theorems over every run

  /** A Run has at most one Candidate, and from then on is not Active. */
  lemma OneCandidatePerRun(start: Tables, actions: seq<Action>, a: CandidateDigest, b: CandidateDigest)
    requires Empty(start)
    requires var t := Run(start, actions);
      && a in t.candidates && b in t.candidates
      && t.candidates[a].run == t.candidates[b].run
    ensures a == b
    ensures var t := Run(start, actions);
      && t.candidates[a].run in t.runStatus
      && !t.runStatus[t.candidates[a].run].phase.Active?
  {
    RunKept(start, actions);
    assert CandidateSound(Run(start, actions), a) && CandidateSound(Run(start, actions), b);
  }

  /** Refusals T6 spells out but no run can produce, and the ones the engine alone can cause. */
  lemma UnreachableRefusals(start: Tables, actions: seq<Action>, s: Submission, journal: bool)
    requires Empty(start)
    ensures var answer := Submitting(Run(start, actions), s, journal).1;
      && answer != Err(CandidateExists)
      && answer != Err(ArtifactIncomplete)
      && answer != Err(ContentIdentityConflict)
      && (answer == Err(Storage) ==> !(1 <= |s.request| <= 128) || !journal)
      && (answer == Err(InvariantViolated) ==> !HasRow(Run(start, actions), s))
  {
    var t := Run(start, actions);
    RunKept(start, actions);
    if HasRow(t, s) {
      RowOutcome(t, s, journal);
    } else {
      NewSubmissionRefusals(t, s);
    }
  }

  /** `load_committed_outcome` never fails: a row with this hash names a stored Candidate of the same
      content. */
  lemma RowOutcome(t: Tables, s: Submission, journal: bool)
    requires Invariant(t) && HasRow(t, s)
    ensures Submitting(t, s, journal).1.Ok? || Submitting(t, s, journal).1 == Err(Unauthorized)
      || Submitting(t, s, journal).1 == Err(RequestConflict)
  {
    var key, digest := (s.credential.attempt, s.request), OfCandidate(s.candidate);
    assert RowSound(t, key);
    if t.requests[key].hash == HashOf(s) {
      assert digest in t.candidates && t.requests[key].state == Succeeded(CandidateReference(digest));
      assert CandidateSound(t, digest);
      assert CommittedOutcome(t, s.candidate, digest).Ok?;
    }
  }

  /** A Run that is still Active has no Candidate. */
  lemma ActiveHasNone(t: Tables, run: Text)
    requires Answers(t) && run in t.runStatus && t.runStatus[run].phase.Active?
    ensures forall d | d in t.candidates :: t.candidates[d].run != run && d.candidate.run != run
  {
  }

  lemma AdmittedIsFree(t: Tables, s: Submission)
    requires Answers(t) && Admission(t, s)
    ensures SlotsFree(t, s.candidate)
  {
  }

  lemma NewSubmissionRefusals(t: Tables, s: Submission)
    requires Invariant(t)
    ensures SubmitRefusal(t, s) != Some(CandidateExists) && SubmitRefusal(t, s) != Some(ArtifactIncomplete)
    ensures SubmitRefusal(t, s) != Some(ContentIdentityConflict) && SubmitRefusal(t, s) != Some(Storage)
    ensures SubmitRefusal(t, s).None? ==> SlotsFree(t, s.candidate)
  {
    if SubmitRefusal(t, s).None? {
      Admitted(t, s);
      AdmittedIsFree(t, s);
    } else if Current(t, s.credential.attempt) {
      var run := t.lineage.attempts[s.credential.attempt].run;
      ActiveHasNone(t, run);
      if SpecKnown(t, t.runStatus[run].task) && FitsSpec(s.candidate, SpecOf(t, t.runStatus[run].task)) {
        OutputRefusals(t, SpecOf(t, t.runStatus[run].task), run, s.candidate.outputs);
      }
    }
  }

  lemma {:induction false} OutputRefusals(t: Tables, spec: TaskSpec, run: Text, outputs: seq<Output>)
    requires Content(t) && forall o | o in outputs :: Declared(spec.outputs, o.slot).Some?
    ensures OutputsRefusal(t, spec, run, outputs) in {None, Some(CandidateInvalid), Some(ProvenanceInvalid)}
  {
    if outputs != [] {
      var a := outputs[0].artifact;
      if a in t.artifacts { assert ArtifactSound(t, a); }
      OutputRefusals(t, spec, run, outputs[1..]);
    }
  }

  /** A publication of the sealer's never contradicts a stored Artifact or Blob. */
  lemma PublicationNeverConflicts(start: Tables, actions: seq<Action>, s: Seal)
    requires Empty(start) && SealerMade(s)
    ensures var answer := Publishing(Run(start, actions), s).1;
      answer != Err(ContentIdentityConflict) && answer != Err(BlobSizeConflict)
  {
    RunKept(start, actions);
    SealNeverConflicts(Run(start, actions), s);
  }

  lemma SealNeverConflicts(t: Tables, s: Seal)
    requires Content(t) && SealerMade(s)
    ensures SealRefusal(t, s) != Some(ContentIdentityConflict) && SealRefusal(t, s) != Some(BlobSizeConflict)
  {
    WriteNeverConflicts(t, s);
    AuthorityRefusals(t, AuthorityOf(s));
  }

  lemma AuthorityRefusals(t: Tables, a: Authority)
    ensures AuthorityRefusal(t, a) in {None, Some(SealAuthorityInvalid), Some(InvariantViolated)}
  {
  }

  lemma WriteNeverConflicts(t: Tables, s: Seal)
    requires Content(t) && SealerMade(s)
    ensures WriteRefusal(t, s) != Some(ContentIdentityConflict) && WriteRefusal(t, s) != Some(BlobSizeConflict)
  {
    BlobsEnsured(t.blobs, s.members);
    BlobRefusals(t.blobs, s.members);
    if s.artifact in t.artifacts { assert ArtifactSound(t, s.artifact); }
  }

  lemma {:induction false} BlobRefusals(blobs: map<Digest, nat>, members: seq<(Digest, nat)>)
    ensures BlobRefusal(blobs, members) in {None, Some(InvariantViolated), Some(BlobSizeConflict)}
    decreases |members|
  {
    if members != [] {
      BlobRefusals(blobs[members[0].0 := members[0].1], members[1..]);
    }
  }

  /** SUCCEEDED and FAILED rows are absorbing, a submission's row is never anything but SUCCEEDED,
      and no immutable row ever changes or disappears. */
  lemma LedgerAutomaton(start: Tables, actions: seq<Action>, later: seq<Action>, key: (Text, Text))
    requires Empty(start) && key in Run(start, actions).requests
    ensures var t, u := Run(start, actions), Run(Run(start, actions), later);
      && RowsKept(t, u)
      && key in u.requests && u.requests[key].hash == t.requests[key].hash
      && (!t.requests[key].state.Started? ==> u.requests[key] == t.requests[key])
      && (t.requests[key].hash.SubmitHash? ==>
            t.requests[key].state.Succeeded? && t.requests[key].operation.SubmitResult?)
  {
    RunKept(start, actions);
    RunKept(Run(start, actions), later);
    assert RowSound(Run(start, actions), key);
  }

  /** Every committed output was produced by the same Run for the same slot, has the declared kind,
      and its members cover every blob its manifest names. */
  lemma SealToSubmitProvenance(start: Tables, actions: seq<Action>, d: CandidateDigest, slot: Bytes)
    requires Empty(start) && (d, slot) in Run(start, actions).outputs
    ensures var t := Run(start, actions);
      && d in t.candidates
      && var run, artifact := t.outputs[(d, slot)].run, t.outputs[(d, slot)].artifact;
         && run == t.candidates[d].run
         && (run, slot) in t.production
         && t.production[(run, slot)].artifact == artifact
         && ProductionSound(t, (run, slot))
         && artifact in t.artifacts
         && SpecKnown(t, t.candidates[d].task)
         && var declared := Declared(SpecOf(t, t.candidates[d].task).outputs, slot);
            && declared.Some? && declared.value.kind == t.artifacts[artifact].kind
            && MembersComplete(t, artifact)
            && (forall m | (artifact, m) in t.members :: m in t.blobs)
  {
    var t := Run(start, actions);
    RunKept(start, actions);
    assert OutputSound(t, (d, slot));
    assert CandidateSound(t, d);
    var o :| o in d.candidate.outputs && o.slot == slot;
    assert Supported(t, SpecOf(t, d.candidate.task), d.candidate.run, o);
  }

  // ---------------------------------------------------------------- replay through the gateway

  /** `submit_result`: derive the identities from the session, normalize, submit. */
  ghost function SubmitResult(t: Tables, credential: Credential, request: Text, outputs: seq<Output>,
      expectedRevision: int, journal: bool)
    : (Tables, Result<Submitted, Refusal>)
  {
    if !Authorized(t, credential) then (t, Err(Unauthorized))
    else if credential.attempt !in t.lineage.attempts || t.lineage.attempts[credential.attempt].run !in t.runStatus
    then (t, Err(StaleAuthority))
    else
      var run := t.lineage.attempts[credential.attempt].run;
      match Built(t.runStatus[run].task, run, outputs)
      case None => (t, Err(CandidateInvalid))
      case Some(candidate) => Submitting(t, Submission(credential, request, candidate, expectedRevision), journal)
  }

  /** The store remembers that this request of this Attempt submitted this Candidate. */
  ghost predicate Remembers(t: Tables, attempt: Text, request: Text, candidate: CandidateResult) {
    && (attempt, request) in t.requests
    && t.requests[(attempt, request)].hash == SubmitHash(attempt, request, candidate)
    && t.requests[(attempt, request)].state == Succeeded(CandidateReference(OfCandidate(candidate)))
    && attempt in t.lineage.attempts && t.lineage.attempts[attempt].run == candidate.run
    && candidate.run in t.runStatus && t.runStatus[candidate.run].task == candidate.task
    && OfCandidate(candidate) in t.candidates
    && t.candidates[OfCandidate(candidate)] == CandidateRow(candidate.task, candidate.run, candidate)
  }

  lemma SubmissionRemembered(t: Tables, s: Submission, journal: bool)
    requires Invariant(t) && Normal(s.candidate) && Submitting(t, s, journal).1.Ok?
    ensures var (u, answer) := Submitting(t, s, journal);
      Invariant(u) && Remembers(u, s.credential.attempt, s.request, s.candidate)
        && answer.value.digest == OfCandidate(s.candidate)
  {
    var u := Submitting(t, s, journal).0;
    SubmitKept(t, s, journal);
    CommittedRow(t, s, journal);
    assert RowSound(u, (s.credential.attempt, s.request));
    assert CandidateSound(u, OfCandidate(s.candidate));
  }

  lemma RememberedForever(t: Tables, later: seq<Action>, attempt: Text, request: Text, candidate: CandidateResult)
    requires Invariant(t) && Remembers(t, attempt, request, candidate)
    ensures Remembers(Run(t, later), attempt, request, candidate)
  {
    RunKept(t, later);
  }

  lemma ReplayAnswered(u: Tables, retry: Credential, request: Text, candidate: CandidateResult, again: seq<Output>,
      other: int, journal: bool)
    requires Remembers(u, retry.attempt, request, candidate)
    ensures var (v, answer) := SubmitResult(u, retry, request, again, other, journal);
      && v == u
      && (Authorized(u, retry) && Built(candidate.task, candidate.run, again) == Some(candidate) ==>
            answer.Ok? && answer.value.digest == OfCandidate(candidate) && answer.value.reconciled)
      && (Authorized(u, retry) && Acceptable(again)
            && Built(candidate.task, candidate.run, again) != Some(candidate) ==>
            answer == Err(RequestConflict))
  {
  }

  /** Once a submission committed, the same mapping in any order, at any later time, under any
      expected revision, reconciles to the same Candidate and changes nothing; a different mapping
      under the same request identity is refused and changes nothing. Only the session fence can
      still turn it away. */
  lemma ReplayIsStable(start: Tables, actions: seq<Action>, later: seq<Action>, credential: Credential,
      retry: Credential,
      request: Text, outputs: seq<Output>, again: seq<Output>, expected: int, other: int, journal: bool,
      journalAgain: bool)
    requires Empty(start) && retry.attempt == credential.attempt
    requires SubmitResult(Run(start, actions), credential, request, outputs, expected, journal).1.Ok?
    ensures var (t, first) := SubmitResult(Run(start, actions), credential, request, outputs, expected, journal);
      var u := Run(t, later);
      var (v, answer) := SubmitResult(u, retry, request, again, other, journalAgain);
      && v == u
      && (Authorized(u, retry) && multiset(again) == multiset(outputs) ==>
            answer.Ok? && answer.value.digest == first.value.digest && answer.value.reconciled)
      && (Authorized(u, retry) && multiset(again) != multiset(outputs) && Acceptable(again) ==>
            answer == Err(RequestConflict))
  {
    var before := Run(start, actions);
    RunKept(start, actions);
    var run := before.lineage.attempts[credential.attempt].run;
    var task := before.runStatus[run].task;
    BuiltNormal(task, run, outputs);
    var candidate := Built(task, run, outputs).value;
    var s := Submission(credential, request, candidate, expected);
    SubmissionRemembered(before, s, journal);
    var t := Submitting(before, s, journal).0;
    RememberedForever(t, later, credential.attempt, request, candidate);
    ReplayAnswered(Run(t, later), retry, request, candidate, again, other, journalAgain);
    if Acceptable(again) { CandidateIdentity(task, run, outputs, again); }
    if multiset(again) == multiset(outputs) { AcceptablePermuted(outputs, again); }
  }

  lemma BuiltNormal(task: Text, run: Text, outputs: seq<Output>)
    requires Acceptable(outputs)
    ensures Normal(Built(task, run, outputs).value)
  {
    SlotOrder();
    SortSorted(outputs, SlotLe);
    SortPermutes(outputs, SlotLe);
    AcceptablePermuted(outputs, Sort(outputs, SlotLe));
  }

  /** After a committed submission its own row carries its hash and its Candidate. */
  lemma CommittedRow(t: Tables, s: Submission, journal: bool)
    requires Invariant(t) && Submitting(t, s, journal).1.Ok?
    ensures var (u, answer) := Submitting(t, s, journal);
      && HasRow(u, s)
      && u.requests[(s.credential.attempt, s.request)].hash == HashOf(s)
      && u.requests[(s.credential.attempt, s.request)].state == Succeeded(CandidateReference(OfCandidate(s.candidate)))
      && answer.value.digest == OfCandidate(s.candidate)
  {
  }
}
