/** Agent Control across disaster restores: the tables return to any earlier state under a
    RestoreGeneration no session ever carried. */
module AgentRestores {
  import opened Wrappers
  import opened ByteOrder
  import opened Artifact
  import opened Candidate
  import opened AgentControl
  import opened AgentRuns

  datatype Move = Act(action: Action) | Restore(snapshot: nat, generation: Text)

  /** The tables now, and every state they ever were in. */
  datatype Timeline = Timeline(now: Tables, past: seq<Tables>)

  ghost predicate Unused(past: seq<Tables>, generation: Text) {
    forall i | 0 <= i < |past| :: past[i].lineage.generation != generation && NoSession(past[i], generation)
  }

  ghost predicate NoSession(t: Tables, generation: Text) {
    forall a | a in t.lineage.sessions :: t.lineage.sessions[a].generation != generation
  }

  /** A restore that names no past state, or reuses a generation, does nothing. */
  ghost function Advance(line: Timeline, move: Move): Timeline {
    match move
    case Act(action) =>
      var next := AgentRuns.Step(line.now, action);
      Timeline(next, line.past + [next])
    case Restore(snapshot, generation) =>
      if snapshot >= |line.past| || !Unused(line.past, generation) then line
      else
        var t := line.past[snapshot];
        var next := t.(lineage := t.lineage.(generation := generation));
        Timeline(next, line.past + [next])
  }

  ghost function Extend(line: Timeline, moves: seq<Move>): Timeline {
    if moves == [] then line else Advance(Extend(line, moves[..|moves| - 1]), moves[|moves| - 1])
  }

  ghost function History(start: Tables, moves: seq<Move>): Timeline {
    Extend(Timeline(start, [start]), moves)
  }

  ghost predicate AllInvariant(line: Timeline) {
    Invariant(line.now) && forall i | 0 <= i < |line.past| :: Invariant(line.past[i])
  }

  /** The invariant says nothing about which generation is in force. */
  lemma GenerationIrrelevant(t: Tables, generation: Text)
    requires Invariant(t)
    ensures Invariant(t.(lineage := t.lineage.(generation := generation)))
  {
    OthersKept(t, t.(lineage := t.lineage.(generation := generation)));
  }

  /** Every state of every history, restored ones included, is sound. */
  lemma {:induction false} HistorySound(start: Tables, moves: seq<Move>)
    requires Invariant(start)
    ensures AllInvariant(History(start, moves))
  {
    if moves == [] {
      assert History(start, moves) == Timeline(start, [start]);
    } else {
      var line, move := History(start, moves[..|moves| - 1]), moves[|moves| - 1];
      HistorySound(start, moves[..|moves| - 1]);
      match move {
        case Act(action) => StepKept(line.now, action);
        case Restore(snapshot, generation) =>
          if snapshot < |line.past| { GenerationIrrelevant(line.past[snapshot], generation); }
      }
    }
  }

  /** One Candidate per Run, on a Run that is not Active, however often the tables were restored. */
  lemma OneCandidateAcrossRestores(start: Tables, moves: seq<Move>, a: CandidateDigest, b: CandidateDigest)
    requires Invariant(start)
    requires var t := History(start, moves).now;
      && a in t.candidates && b in t.candidates
      && t.candidates[a].run == t.candidates[b].run
    ensures a == b
    ensures var t := History(start, moves).now;
      && t.candidates[a].run in t.runStatus
      && !t.runStatus[t.candidates[a].run].phase.Active?
  {
    HistorySound(start, moves);
    var t := History(start, moves).now;
    assert CandidateSound(t, a) && CandidateSound(t, b);
  }

  // ---------------------------------------------------------------- the fence outlasts the restore

  /** A generation some state so far was in, or some session so far carries. */
  ghost predicate Known(past: seq<Tables>, generation: Text) {
    !Unused(past, generation)
  }

  lemma OpenLineage(t: Tables, credential: Credential, request: Text, slot: Bytes)
    ensures OpenRow(t, credential, request, slot).0.lineage == t.lineage
  {
  }

  lemma CompleteLineage(t: Tables, credential: Credential, request: Text, artifact: Digest)
    ensures CompleteRow(t, credential, request, artifact).0.lineage == t.lineage
  {
  }

  lemma FailLineage(t: Tables, credential: Credential, request: Text, code: Text)
    ensures FailRow(t, credential, request, code).0.lineage == t.lineage
  {
  }

  lemma SubmitLineage(t: Tables, s: Submission, journal: bool)
    ensures Submitting(t, s, journal).0.lineage == t.lineage
  {
    assert SubmittingNew(t, s, journal).0.lineage == t.lineage;
  }

  lemma PublishLineage(t: Tables, s: Seal)
    ensures Publishing(t, s).0.lineage == t.lineage
  {
  }

  /** Every step but a restore leaves generations alone. */
  lemma StepSessions(t: Tables, action: Action)
    ensures SessionsKept(t, AgentRuns.Step(t, action))
  {
    match action {
      case Open(credential, request, slot) => OpenLineage(t, credential, request, slot);
      case Complete(credential, request, artifact) => CompleteLineage(t, credential, request, artifact);
      case Fail(credential, request, code) => FailLineage(t, credential, request, code);
      case Submit(s, journal) => SubmitLineage(t, s, journal);
      case Publish(s) => PublishLineage(t, s);
      case Others(_) =>
    }
  }

  /** The past only grows, and the generation in force after a restore was never known before it. */
  lemma {:induction false} FenceHolds(before: seq<Tables>, line: Timeline, later: seq<Move>)
    requires before <= line.past && Unused(before, line.now.lineage.generation)
    ensures before <= Extend(line, later).past && Unused(before, Extend(line, later).now.lineage.generation)
  {
    if later != [] {
      var rest, move := later[..|later| - 1], later[|later| - 1];
      FenceHolds(before, line, rest);
      var at := Extend(line, rest);
      match move {
        case Act(action) => StepSessions(at.now, action);
        case Restore(_, _) =>
          assert forall i | 0 <= i < |before| :: before[i] == at.past[i];
      }
    }
  }

  /** Every worker call is refused and changes nothing. */
  ghost predicate Fenced(t: Tables, credential: Credential) {
    && (forall request, slot :: OpenRow(t, credential, request, slot) == (t, Err(Unauthorized)))
    && (forall request, artifact :: CompleteRow(t, credential, request, artifact) == (t, Err(Unauthorized)))
    && (forall request, code :: FailRow(t, credential, request, code) == (t, Err(Unauthorized)))
    && (forall s: Submission, journal | s.credential == credential ::
          Submitting(t, s, journal) == (t, Err(Unauthorized)))
  }

  lemma UnauthorizedIsFenced(t: Tables, credential: Credential)
    requires !Authorized(t, credential)
    ensures Fenced(t, credential)
  {
  }

  /** In every state of every history after a restore, further restores included, a session whose
      generation anything before that restore knew is refused everywhere: no worker of an earlier
      generation is ever let in again. */
  lemma RestoreFencesForever(start: Tables, moves: seq<Move>, snapshot: nat, generation: Text, later: seq<Move>,
      credential: Credential)
    requires snapshot < |History(start, moves).past| && Unused(History(start, moves).past, generation)
    requires var t := Extend(Advance(History(start, moves), Restore(snapshot, generation)), later).now;
      credential.attempt in t.lineage.sessions ==>
        Known(History(start, moves).past, t.lineage.sessions[credential.attempt].generation)
    ensures Fenced(Extend(Advance(History(start, moves), Restore(snapshot, generation)), later).now, credential)
  {
    var restored := Advance(History(start, moves), Restore(snapshot, generation));
    KnownIsUnauthorized(History(start, moves).past, restored, later, credential);
    UnauthorizedIsFenced(Extend(restored, later).now, credential);
  }

  lemma KnownIsUnauthorized(before: seq<Tables>, restored: Timeline, later: seq<Move>, credential: Credential)
    requires before <= restored.past && Unused(before, restored.now.lineage.generation)
    requires var t := Extend(restored, later).now;
      credential.attempt in t.lineage.sessions ==> Known(before, t.lineage.sessions[credential.attempt].generation)
    ensures !Authorized(Extend(restored, later).now, credential)
  {
    FenceHolds(before, restored, later);
  }

  /** Until the next restore, a session that came back with the snapshot keeps its old generation. */
  lemma {:induction false} SnapshotSessionsKept(line: Timeline, later: seq<Move>, attempt: Text)
    requires attempt in line.now.lineage.sessions && forall i | 0 <= i < |later| :: later[i].Act?
    ensures var t := Extend(line, later).now;
      attempt in t.lineage.sessions
        && t.lineage.sessions[attempt].generation == line.now.lineage.sessions[attempt].generation
  {
    if later != [] {
      var rest := later[..|later| - 1];
      SnapshotSessionsKept(line, rest, attempt);
      StepSessions(Extend(line, rest).now, later[|later| - 1].action);
    }
  }

  /** So every Attempt whose session survived in the snapshot stays fenced however the system goes on:
      no rekey and no later step lets it act, complete or submit. */
  lemma SnapshotStaysFenced(start: Tables, moves: seq<Move>, snapshot: nat, generation: Text, later: seq<Move>,
      credential: Credential)
    requires snapshot < |History(start, moves).past| && Unused(History(start, moves).past, generation)
    requires credential.attempt in History(start, moves).past[snapshot].lineage.sessions
    requires forall i | 0 <= i < |later| :: later[i].Act?
    ensures Fenced(Extend(Advance(History(start, moves), Restore(snapshot, generation)), later).now, credential)
  {
    SnapshotFenced(History(start, moves), snapshot, generation, later, credential);
  }

  lemma SnapshotFenced(line: Timeline, snapshot: nat, generation: Text, later: seq<Move>, credential: Credential)
    requires snapshot < |line.past| && Unused(line.past, generation)
    requires credential.attempt in line.past[snapshot].lineage.sessions
    requires forall i | 0 <= i < |later| :: later[i].Act?
    ensures Fenced(Extend(Advance(line, Restore(snapshot, generation)), later).now, credential)
  {
    var restored := Advance(line, Restore(snapshot, generation));
    SnapshotSessionsKept(restored, later, credential.attempt);
    SessionIsKnown(line.past, snapshot, credential.attempt);
    KnownIsUnauthorized(line.past, restored, later, credential);
    UnauthorizedIsFenced(Extend(restored, later).now, credential);
  }

  lemma SessionIsKnown(past: seq<Tables>, i: nat, attempt: Text)
    requires i < |past| && attempt in past[i].lineage.sessions
    ensures Known(past, past[i].lineage.sessions[attempt].generation)
  {
    assert !NoSession(past[i], past[i].lineage.sessions[attempt].generation);
  }
}
