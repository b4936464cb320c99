/** The Run Controller's launch boundary for one Run: T4 creates an Attempt, T4a rekeys its session,
    T4b marks contact, then the launcher is called.

    One reconciliation pass is cut into the durable and external steps a crash can fall between. A
    bearer and its verifier are the same token: verification is collision-free. Everything that
    happened is kept in a trace. */
module RunController {
  import opened Wrappers

  type Bearer = nat

  datatype Observation = Absent | Starting | Running | Exited | Unknown

  /** What a launcher call comes back with; a failed call is `Failure`. */
  datatype Answer = Observed(observation: Observation) | Failure

  datatype Attempt = Attempt(
    terminal: bool, contacted: bool, statusRevision: nat,
    credentialRevision: nat, verifier: Bearer, sessionActive: bool, observed: Observation)

  /** The rows of one Run. Attempts are in ordinal order; the last is the Run's current one. */
  datatype Durable = Durable(active: bool, revision: nat, attempts: seq<Attempt>)

  datatype Event =
    | Created(attempt: nat, verifier: Bearer)
    | Rekeyed(attempt: nat, verifier: Bearer)
    | Marked(attempt: nat)
    | Launched(attempt: nat, bearer: Bearer, answer: Answer)
    | Inspected(attempt: nat, answer: Answer)
    | Terminated(attempt: nat)
    | Concluded

  datatype World = World(durable: Durable, trace: seq<Event>)

  datatype Held = Held(bearer: Bearer, revision: nat)

  /** Where in a pass the controller is, with what it has read. */
  datatype Point =
    | Idle
    | Preparing(runRevision: nat)
    | Creating(runRevision: nat, ordinal: nat)
    | Adopting(attempt: nat, held: Held)
    | NeedBearer(attempt: nat, credentialRevision: nat)
    | Rekeying(attempt: nat, held: Held)
    | Refreshing(attempt: nat)
    | Launching(attempt: nat, statusRevision: nat, credentialRevision: nat)
    | Contacting(attempt: nat, bearer: Bearer)
    | RecordingLaunch(attempt: nat, observation: Observation)
    | Inspecting(attempt: nat)
    | RecordingInspection(attempt: nat, observation: Observation)
    | Deciding(attempt: nat)
    | Concluding(runRevision: nat)

  /** Process memory: lost by a crash. */
  datatype Local = Local(bearers: map<nat, Held>, point: Point)

  datatype Input =
    | Crash
    | Fault
    | Withdraw
    | Go(draw: Bearer, gatesPass: bool, answer: Answer)

  // ---------------------------------------------------------------- the store's transactions

  /** `load_current_lineage`: the nonterminal Attempt, if there is one. */
  function Live(d: Durable): Option<nat> {
    LiveBelow(d.attempts, |d.attempts|)
  }

  function LiveBelow(attempts: seq<Attempt>, n: nat): (live: Option<nat>)
    requires n <= |attempts|
    ensures live.Some? ==> live.value < n && !attempts[live.value].terminal
    ensures live.None? ==> forall i | 0 <= i < n :: attempts[i].terminal
  {
    if n == 0 then None
    else if !attempts[n - 1].terminal then Some(n - 1)
    else LiveBelow(attempts, n - 1)
  }

  predicate IsCurrent(d: Durable, a: nat) {
    d.active && a + 1 == |d.attempts|
  }

  /** T4, under the command `t4-<run>-<ordinal>`: replayed when that ordinal already exists. */
  function CreateAttempt(w: World, runRevision: nat, ordinal: nat, verifier: Bearer): Option<World> {
    if ordinal <= |w.durable.attempts| || !w.durable.active || w.durable.revision != runRevision
      || Live(w.durable).Some? then None
    else
      var a := Attempt(false, false, 1, 1, verifier, true, Absent);
      Some(World(w.durable.(attempts := w.durable.attempts + [a], revision := w.durable.revision + 1),
                 w.trace + [Created(|w.durable.attempts|, verifier)]))
  }

  /** T4a: only before contact, only for the current Attempt, only at the expected revision. */
  function Rekey(w: World, a: nat, expected: nat, verifier: Bearer): Option<World> {
    if a >= |w.durable.attempts| then None
    else
      var row := w.durable.attempts[a];
      if row.terminal || row.contacted || !row.sessionActive || !IsCurrent(w.durable, a)
        || row.credentialRevision != expected then None
      else
        Some(World(w.durable.(attempts :=
          w.durable.attempts[a := row.(credentialRevision := expected + 1, verifier := verifier)]),
                   w.trace + [Rekeyed(a, verifier)]))
  }

  /** T4b: a marker that is already there answers Ok without looking further. */
  function MarkContact(w: World, a: nat, statusRevision: nat, credentialRevision: nat): Option<World> {
    if a >= |w.durable.attempts| || w.durable.attempts[a].terminal then None
    else
      var row := w.durable.attempts[a];
      if row.contacted then Some(w)
      else if !IsCurrent(w.durable, a) || !row.sessionActive || row.credentialRevision != credentialRevision
        || row.statusRevision != statusRevision then None
      else
        Some(World(w.durable.(attempts :=
          w.durable.attempts[a := row.(contacted := true, statusRevision := row.statusRevision + 1)]),
                   w.trace + [Marked(a)]))
  }

  /** `record_execution_observation` at the row's present revision. */
  function Observe(w: World, a: nat, observation: Observation): Option<World> {
    if a >= |w.durable.attempts| || observation.Exited? then None
    else
      var row := w.durable.attempts[a];
      Some(w.(durable := w.durable.(attempts :=
        w.durable.attempts[a := row.(observed := observation, statusRevision := row.statusRevision + 1)])))
  }

  function Terminate(w: World, a: nat, observation: Observation): Option<World> {
    if a >= |w.durable.attempts| || !w.durable.attempts[a].contacted then None
    else
      var row := w.durable.attempts[a];
      Some(World(w.durable.(attempts := w.durable.attempts[a := row.(
                   observed := observation, terminal := true, sessionActive := false,
                     statusRevision := row.statusRevision + 1)]),
                 w.trace + [Terminated(a)]))
  }

  /** `conclude_run`: guarded by the revision alone. */
  function Conclude(w: World, runRevision: nat): Option<World> {
    if w.durable.revision != runRevision then None
    else Some(World(w.durable.(active := false, revision := w.durable.revision + 1), w.trace + [Concluded]))
  }

  // ---------------------------------------------------------------- one step of a pass

  function Rest(l: Local): Local {
    l.(point := Idle)
  }

  /** Continues at `next` when the transaction committed, gives the pass up otherwise. */
  function Continue(w: World, l: Local, committed: Option<World>, next: Point): (World, Local) {
    if committed.None? then (w, Rest(l)) else (committed.value, l.(point := next))
  }

  /** `reconcile_run`'s dispatch on the Run as it is now. */
  function Dispatch(d: Durable): Point {
    if !d.active then Idle
    else
      match Live(d)
      case None => Preparing(d.revision)
      case Some(a) => if d.attempts[a].contacted then Inspecting(a) else NeedBearer(a, d.attempts[a].credentialRevision)
  }

  function Seen(answer: Answer): Observation {
    if answer.Failure? then Unknown else answer.observation
  }

  /** Somebody else takes the Run out of Active: a submission, a cancellation, a later conclusion. */
  function Withdrawn(w: World): World {
    w.(durable := w.durable.(active := false, revision := w.durable.revision + 1))
  }

  function Step(w: World, l: Local, input: Input, maxAttempts: nat): (World, Local) {
    if input.Crash? then (w, Local(map[], Idle))
    else if input.Fault? then (w, Rest(l))
    else if input.Withdraw? then (Withdrawn(w), l)
    else
      match l.point
      case Idle => (w, l.(point := Dispatch(w.durable)))
      case Preparing(runRevision) =>
        (w, l.(point := if input.gatesPass then Creating(runRevision, |w.durable.attempts| + 1)
          else Concluding(runRevision)))
      case Creating(runRevision, ordinal) =>
        Continue(w, l, CreateAttempt(w, runRevision, ordinal, input.draw),
          Adopting(|w.durable.attempts|, Held(input.draw, 1)))
      case Adopting(a, held) => (w, Local(l.bearers[a := held], Idle))
      case NeedBearer(a, credentialRevision) =>
        if a in l.bearers && l.bearers[a].revision == credentialRevision then (w, l.(point := Refreshing(a)))
        else Continue(w, l, Rekey(w, a, credentialRevision, input.draw),
          Rekeying(a, Held(input.draw, credentialRevision + 1)))
      case Rekeying(a, held) => (w, Local(l.bearers[a := held], Refreshing(a)))
      case Refreshing(a) =>
        if Live(w.durable) != Some(a) then (w, Rest(l))
        else (w, l.(point :=
          Launching(a, w.durable.attempts[a].statusRevision, w.durable.attempts[a].credentialRevision)))
      case Launching(a, statusRevision, credentialRevision) =>
        if a !in l.bearers then (w, Rest(l))
        else Continue(w, l, MarkContact(w, a, statusRevision, credentialRevision), Contacting(a, l.bearers[a].bearer))
      case Contacting(a, bearer) =>
        (w.(trace := w.trace + [Launched(a, bearer, input.answer)]),
          l.(point := RecordingLaunch(a, Seen(input.answer))))
      case RecordingLaunch(a, observation) =>
        if observation.Exited? then Continue(w, l, Terminate(w, a, observation), Idle)
        else Continue(w, l, Observe(w, a, observation), Idle)
      case Inspecting(a) =>
        (w.(trace := w.trace + [Inspected(a, input.answer)]), l.(point := RecordingInspection(a, Seen(input.answer))))
      case RecordingInspection(a, observation) =>
        if observation.Exited? || observation.Absent? then Continue(w, l, Terminate(w, a, observation), Deciding(a))
        else Continue(w, l, Observe(w, a, observation), Idle)
      case Deciding(a) =>
        (w, l.(point := if |w.durable.attempts| < maxAttempts then Idle else Concluding(w.durable.revision)))
      case Concluding(runRevision) => Continue(w, l, Conclude(w, runRevision), Idle)
  }

  function Run(w: World, l: Local, inputs: seq<Input>, maxAttempts: nat): (World, Local) {
    if inputs == [] then (w, l)
    else
      var (before, at) := Run(w, l, inputs[..|inputs| - 1], maxAttempts);
      Step(before, at, inputs[|inputs| - 1], maxAttempts)
  }

  const NEW_RUN := World(Durable(true, 1, []), [])
  const NEW_CONTROLLER := Local(map[], Idle)

  // ---------------------------------------------------------------- what a trace says

  /** All the trace says about one Attempt. */
  datatype History = History(created: bool, verifier: Bearer, marked: bool, launches: nat, evidence: bool,
      terminated: bool)

  function Extend(h: History, e: Event, a: nat): History {
    match e
    case Created(b, verifier) => if a == b then h.(created := true, verifier := verifier) else h
    case Rekeyed(b, verifier) => if a == b then h.(verifier := verifier) else h
    case Marked(b) => if a == b then h.(marked := true) else h
    case Launched(b, _, answer) =>
      if a == b then h.(launches := h.launches + 1, evidence := h.evidence || answer == Observed(Exited)) else h
    case Inspected(b, answer) =>
      if a == b then h.(evidence := h.evidence || answer == Observed(Exited) || answer == Observed(Absent)) else h
    case Terminated(b) => if a == b then h.(terminated := true) else h
    case Concluded => h
  }

  function Summary(trace: seq<Event>, a: nat): History {
    if trace == [] then History(false, 0, false, 0, false, false)
    else Extend(Summary(trace[..|trace| - 1], a), trace[|trace| - 1], a)
  }

  /** When an event may follow a trace. */
  ghost predicate Allowed(before: seq<Event>, e: Event) {
    match e
    case Created(a, _) => !Summary(before, a).created && forall b: nat | b < a :: Summary(before, b).terminated
    case Rekeyed(a, _) => Summary(before, a).created && !Summary(before, a).marked
    case Marked(a) => Summary(before, a).created && !Summary(before, a).marked
    case Launched(a, bearer, _) =>
      Summary(before, a).marked && Summary(before, a).launches == 0 && Summary(before, a).verifier == bearer
    case Inspected(a, _) => Summary(before, a).marked
    case Terminated(a) => Summary(before, a).marked && Summary(before, a).evidence
    case Concluded => forall a: nat :: Summary(before, a).created ==> Summary(before, a).terminated
  }

  ghost predicate Lawful(trace: seq<Event>) {
    forall i | 0 <= i < |trace| :: Allowed(trace[..i], trace[i])
  }

  lemma SummaryAppend(trace: seq<Event>, e: Event)
    ensures forall a :: Summary(trace + [e], a) == Extend(Summary(trace, a), e, a)
  {
  }

  lemma LawfulAppend(trace: seq<Event>, e: Event)
    requires Lawful(trace) && Allowed(trace, e)
    ensures Lawful(trace + [e])
  {
    forall i | 0 <= i < |trace + [e]| ensures Allowed((trace + [e])[..i], (trace + [e])[i]) {
      if i < |trace| {
        assert (trace + [e])[..i] == trace[..i];
      } else {
        assert (trace + [e])[..i] == trace;
      }
    }
  }

  // ---------------------------------------------------------------- the invariant of one controller

  /** A row says what the trace says. */
  ghost predicate RowAgrees(row: Attempt, h: History) {
    && h.created
    && h.verifier == row.verifier
    && h.marked == row.contacted
    && h.terminated == row.terminal
    && (row.sessionActive <==> !row.terminal)
    && (h.launches > 0 ==> h.marked)
    && (h.terminated ==> h.marked)
  }

  ghost predicate Agrees(w: World) {
    && Lawful(w.trace)
    && (forall a: nat | a < |w.durable.attempts| :: RowAgrees(w.durable.attempts[a], Summary(w.trace, a)))
    && (forall a: nat | a >= |w.durable.attempts| :: Summary(w.trace, a) == History(false, 0, false, 0, false, false))
    && (forall a: nat | a + 1 < |w.durable.attempts| :: w.durable.attempts[a].terminal)
  }

  /** A held bearer of the current credential revision is the one whose verifier is stored. */
  ghost predicate HeldIsTrue(d: Durable, a: nat, held: Held) {
    && a < |d.attempts|
    && held.revision <= d.attempts[a].credentialRevision
    && (held.revision == d.attempts[a].credentialRevision ==> held.bearer == d.attempts[a].verifier)
  }

  ghost predicate AllTerminal(d: Durable) {
    forall a: nat | a < |d.attempts| :: d.attempts[a].terminal
  }

  ghost predicate IsLive(d: Durable, a: nat) {
    a + 1 == |d.attempts| && !d.attempts[a].terminal
  }

  ghost predicate PointHolds(w: World, l: Local) {
    var d := w.durable;
    match l.point
    case Idle => true
    case Preparing(runRevision) => AllTerminal(d) && (d.active ==> d.revision == runRevision)
    case Creating(runRevision, ordinal) =>
      AllTerminal(d) && (d.active ==> d.revision == runRevision) && ordinal == |d.attempts| + 1
    case Adopting(a, held) => HeldIsTrue(d, a, held)
    case NeedBearer(a, credentialRevision) =>
      IsLive(d, a) && !d.attempts[a].contacted && d.attempts[a].credentialRevision == credentialRevision
    case Rekeying(a, held) =>
      IsLive(d, a) && !d.attempts[a].contacted && HeldIsTrue(d, a, held)
        && held.revision == d.attempts[a].credentialRevision
    case Refreshing(a) =>
      IsLive(d, a) && !d.attempts[a].contacted && a in l.bearers
        && l.bearers[a].revision == d.attempts[a].credentialRevision
    case Launching(a, statusRevision, credentialRevision) =>
      && IsLive(d, a) && !d.attempts[a].contacted && a in l.bearers
      && l.bearers[a].revision == d.attempts[a].credentialRevision == credentialRevision
    case Contacting(a, bearer) =>
      IsLive(d, a) && d.attempts[a].contacted && d.attempts[a].verifier == bearer && Summary(w.trace, a).launches == 0
    case RecordingLaunch(a, observation) =>
      IsLive(d, a) && d.attempts[a].contacted && (observation.Exited? ==> Summary(w.trace, a).evidence)
    case Inspecting(a) => IsLive(d, a) && d.attempts[a].contacted
    case RecordingInspection(a, observation) =>
      IsLive(d, a) && d.attempts[a].contacted
        && (observation.Exited? || observation.Absent? ==> Summary(w.trace, a).evidence)
    case Deciding(a) => AllTerminal(d) && a < |d.attempts|
    case Concluding(_) => AllTerminal(d)
  }

  /** One controller at a time: its memory and the durable rows fit together. */
  ghost predicate Invariant(w: World, l: Local) {
    && Agrees(w)
    && (forall a | a in l.bearers :: HeldIsTrue(w.durable, a, l.bearers[a]))
    && PointHolds(w, l)
  }

  // ---------------------------------------------------------------- every transaction keeps it

  /** Changing the current row and appending the event that says so keeps rows and trace together. */
  lemma RowChanged(w: World, a: nat, row: Attempt, e: Event)
    requires Agrees(w) && a + 1 == |w.durable.attempts| && Allowed(w.trace, e)
    requires e.Rekeyed? || e.Marked? || e.Launched? || e.Inspected? || e.Terminated?
    requires e.attempt == a && RowAgrees(row, Extend(Summary(w.trace, a), e, a))
    ensures Agrees(World(w.durable.(attempts := w.durable.attempts[a := row]), w.trace + [e]))
  {
    SummaryAppend(w.trace, e);
    LawfulAppend(w.trace, e);
  }

  lemma CreateKeeps(w: World, runRevision: nat, ordinal: nat, verifier: Bearer)
    requires Agrees(w) && AllTerminal(w.durable) && CreateAttempt(w, runRevision, ordinal, verifier).Some?
    ensures Agrees(CreateAttempt(w, runRevision, ordinal, verifier).value)
  {
    var a := |w.durable.attempts|;
    var e := Created(a, verifier);
    forall b: nat | b < a ensures Summary(w.trace, b).terminated {
      assert RowAgrees(w.durable.attempts[b], Summary(w.trace, b));
    }
    SummaryAppend(w.trace, e);
    LawfulAppend(w.trace, e);
  }

  lemma ConcludeKeeps(w: World, runRevision: nat)
    requires Agrees(w) && AllTerminal(w.durable) && Conclude(w, runRevision).Some?
    ensures Agrees(Conclude(w, runRevision).value)
  {
    forall a: nat | Summary(w.trace, a).created ensures Summary(w.trace, a).terminated {
      if a < |w.durable.attempts| { assert RowAgrees(w.durable.attempts[a], Summary(w.trace, a)); }
    }
    SummaryAppend(w.trace, Concluded);
    LawfulAppend(w.trace, Concluded);
  }

  lemma ObserveKeeps(w: World, a: nat, observation: Observation)
    requires Agrees(w) && Observe(w, a, observation).Some?
    ensures Agrees(Observe(w, a, observation).value)
  {
  }

  lemma CreationStep(w: World, l: Local, input: Input, max: nat)
    requires Invariant(w, l) && input.Go?
    requires l.point.Idle? || l.point.Preparing? || l.point.Creating? || l.point.Adopting?
    ensures Invariant(Step(w, l, input, max).0, Step(w, l, input, max).1)
  {
    if l.point.Creating? && CreateAttempt(w, l.point.runRevision, l.point.ordinal, input.draw).Some? {
      CreateKeeps(w, l.point.runRevision, l.point.ordinal, input.draw);
    }
  }

  /** A rekey that commits: the row, the trace and every held bearer still fit. */
  lemma RekeyCommits(w: World, l: Local, a: nat, draw: Bearer)
    requires Invariant(w, l) && IsLive(w.durable, a) && !w.durable.attempts[a].contacted
    ensures var row := w.durable.attempts[a];
      var v := World(w.durable.(attempts :=
        w.durable.attempts[a := row.(credentialRevision := row.credentialRevision + 1, verifier := draw)]),
                     w.trace + [Rekeyed(a, draw)]);
      Agrees(v) && forall b | b in l.bearers :: HeldIsTrue(v.durable, b, l.bearers[b])
  {
    var row := w.durable.attempts[a];
    assert RowAgrees(row, Summary(w.trace, a));
    RowChanged(w, a, row.(credentialRevision := row.credentialRevision + 1, verifier := draw), Rekeyed(a, draw));
  }

  lemma RekeyStep(w: World, l: Local, input: Input, max: nat)
    requires Invariant(w, l) && input.Go? && l.point.NeedBearer?
    ensures Invariant(Step(w, l, input, max).0, Step(w, l, input, max).1)
  {
    var a, expected := l.point.attempt, l.point.credentialRevision;
    if a in l.bearers && l.bearers[a].revision == expected {
      assert Step(w, l, input, max) == (w, l.(point := Refreshing(a)));
    } else if Rekey(w, a, expected, input.draw).None? {
      assert Step(w, l, input, max) == (w, Rest(l));
    } else {
      var v := Rekey(w, a, expected, input.draw).value;
      RekeyCommits(w, l, a, input.draw);
      assert Step(w, l, input, max) == (v, l.(point := Rekeying(a, Held(input.draw, expected + 1))));
      assert HeldIsTrue(v.durable, a, Held(input.draw, expected + 1));
    }
  }

  lemma BearerStep(w: World, l: Local, input: Input, max: nat)
    requires Invariant(w, l) && input.Go? && (l.point.Rekeying? || l.point.Refreshing?)
    ensures Invariant(Step(w, l, input, max).0, Step(w, l, input, max).1)
  {
  }

  /** A marker that commits: nothing was launched before it. */
  lemma MarkCommits(w: World, a: nat)
    requires Agrees(w) && IsLive(w.durable, a) && !w.durable.attempts[a].contacted
    ensures var row := w.durable.attempts[a];
      var v := World(w.durable.(attempts :=
        w.durable.attempts[a := row.(contacted := true, statusRevision := row.statusRevision + 1)]),
                     w.trace + [Marked(a)]);
      Agrees(v) && Summary(v.trace, a).launches == 0
  {
    var row := w.durable.attempts[a];
    assert RowAgrees(row, Summary(w.trace, a));
    RowChanged(w, a, row.(contacted := true, statusRevision := row.statusRevision + 1), Marked(a));
    SummaryAppend(w.trace, Marked(a));
  }

  lemma MarkStep(w: World, l: Local, input: Input, max: nat)
    requires Invariant(w, l) && input.Go? && l.point.Launching?
    ensures Invariant(Step(w, l, input, max).0, Step(w, l, input, max).1)
  {
    MarkCommits(w, l.point.attempt);
  }

  lemma CallStep(w: World, l: Local, input: Input, max: nat)
    requires Invariant(w, l) && input.Go? && (l.point.Contacting? || l.point.Inspecting?)
    ensures Invariant(Step(w, l, input, max).0, Step(w, l, input, max).1)
  {
    var a := l.point.attempt;
    var e := if l.point.Contacting? then Launched(a, l.point.bearer, input.answer) else Inspected(a, input.answer);
    assert RowAgrees(w.durable.attempts[a], Summary(w.trace, a));
    RowChanged(w, a, w.durable.attempts[a], e);
    SummaryAppend(w.trace, e);
    assert w.durable.attempts[a := w.durable.attempts[a]] == w.durable.attempts;
  }

  lemma TerminateKeeps(w: World, a: nat, observation: Observation)
    requires Agrees(w) && IsLive(w.durable, a) && w.durable.attempts[a].contacted && Summary(w.trace, a).evidence
    ensures Terminate(w, a, observation).Some? && Agrees(Terminate(w, a, observation).value)
    ensures AllTerminal(Terminate(w, a, observation).value.durable)
  {
    var row := w.durable.attempts[a];
    assert RowAgrees(row, Summary(w.trace, a));
    RowChanged(w, a, row.(observed := observation, terminal := true, sessionActive := false,
      statusRevision := row.statusRevision + 1), Terminated(a));
  }

  lemma RecordStep(w: World, l: Local, input: Input, max: nat)
    requires Invariant(w, l) && input.Go? && (l.point.RecordingLaunch? || l.point.RecordingInspection?)
    ensures Invariant(Step(w, l, input, max).0, Step(w, l, input, max).1)
  {
    var a, observation := l.point.attempt, l.point.observation;
    if observation.Exited? || (l.point.RecordingInspection? && observation.Absent?) {
      TerminateKeeps(w, a, observation);
    } else {
      ObserveKeeps(w, a, observation);
    }
  }

  lemma DecisionStep(w: World, l: Local, input: Input, max: nat)
    requires Invariant(w, l) && input.Go? && (l.point.Deciding? || l.point.Concluding?)
    ensures Invariant(Step(w, l, input, max).0, Step(w, l, input, max).1)
  {
    if l.point.Concluding? {
      ConcludingStep(w, l, input, max);
    } else {
      var next := if |w.durable.attempts| < max then Idle else Concluding(w.durable.revision);
      assert Step(w, l, input, max) == (w, l.(point := next));
    }
  }

  lemma ConcludingStep(w: World, l: Local, input: Input, max: nat)
    requires Invariant(w, l) && input.Go? && l.point.Concluding?
    ensures Invariant(Step(w, l, input, max).0, Step(w, l, input, max).1)
  {
    var made := Conclude(w, l.point.runRevision);
    assert Step(w, l, input, max) == Continue(w, l, made, Idle);
    if made.Some? {
      ConcludeKeeps(w, l.point.runRevision);
    }
  }

  lemma WithdrawKeeps(w: World, l: Local)
    requires Invariant(w, l)
    ensures Invariant(Withdrawn(w), l)
  {
  }

  lemma StepKeeps(w: World, l: Local, input: Input, max: nat)
    requires Invariant(w, l)
    ensures Invariant(Step(w, l, input, max).0, Step(w, l, input, max).1)
  {
    if input.Withdraw? {
      WithdrawKeeps(w, l);
    } else if input.Go? {
      match l.point {
        case Idle | Preparing(_) | Creating(_, _) | Adopting(_, _) => CreationStep(w, l, input, max);
        case NeedBearer(_, _) => RekeyStep(w, l, input, max);
        case Rekeying(_, _) | Refreshing(_) => BearerStep(w, l, input, max);
        case Launching(_, _, _) => MarkStep(w, l, input, max);
        case Contacting(_, _) | Inspecting(_) => CallStep(w, l, input, max);
        case RecordingLaunch(_, _) | RecordingInspection(_, _) => RecordStep(w, l, input, max);
        case Deciding(_) | Concluding(_) => DecisionStep(w, l, input, max);
      }
    }
  }

  lemma {:induction false} RunKeeps(inputs: seq<Input>, max: nat)
    ensures Invariant(Run(NEW_RUN, NEW_CONTROLLER, inputs, max).0, Run(NEW_RUN, NEW_CONTROLLER, inputs, max).1)
  {
    if inputs != [] {
      RunKeeps(inputs[..|inputs| - 1], max);
      var (w, l) := Run(NEW_RUN, NEW_CONTROLLER, inputs[..|inputs| - 1], max);
      StepKeeps(w, l, inputs[|inputs| - 1], max);
    }
  }

  // ---------------------------------------------------------------- theorems over every run with crashes

  lemma {:induction false} SummaryRemembers(trace: seq<Event>, i: nat)
    requires i < |trace|
    ensures trace[i].Launched? ==> Summary(trace, trace[i].attempt).launches > 0
    ensures trace[i].Marked? ==> Summary(trace, trace[i].attempt).marked
    ensures trace[i].Created? ==> Summary(trace, trace[i].attempt).created
  {
    var rest := trace[..|trace| - 1];
    if i < |rest| {
      assert rest[i] == trace[i];
      SummaryRemembers(rest, i);
    }
  }

  /** The launch boundary: `ensure_execution` is called at most once per Attempt, after its contact
      marker, with the bearer whose verifier the session then stores; no rekey follows contact. */
  lemma LaunchBoundary(inputs: seq<Input>, max: nat, i: nat)
    requires i < |Run(NEW_RUN, NEW_CONTROLLER, inputs, max).0.trace|
    ensures var trace := Run(NEW_RUN, NEW_CONTROLLER, inputs, max).0.trace;
      && (trace[i].Launched? ==>
            && Summary(trace[..i], trace[i].attempt).marked
            && Summary(trace[..i], trace[i].attempt).verifier == trace[i].bearer
            && (forall j | 0 <= j < i :: !(trace[j].Launched? && trace[j].attempt == trace[i].attempt)))
      && (trace[i].Rekeyed? ==>
            forall j | 0 <= j < i :: trace[j] != Marked(trace[i].attempt))
  {
    var trace := Run(NEW_RUN, NEW_CONTROLLER, inputs, max).0.trace;
    RunKeeps(inputs, max);
    assert Allowed(trace[..i], trace[i]);
    forall j | 0 <= j < i
      ensures trace[i].Launched? ==> !(trace[j].Launched? && trace[j].attempt == trace[i].attempt)
      ensures trace[i].Rekeyed? ==> trace[j] != Marked(trace[i].attempt)
    {
      assert trace[..i][j] == trace[j];
      SummaryRemembers(trace[..i], j);
    }
  }

  /** Failures and Unknown decide nothing: an Attempt ends only on an Exited answer or an inspected
      absence, and only when every Attempt has ended is the Run concluded or a new Attempt made. */
  lemma OnlyEvidenceEnds(inputs: seq<Input>, max: nat, i: nat)
    requires i < |Run(NEW_RUN, NEW_CONTROLLER, inputs, max).0.trace|
    ensures var trace := Run(NEW_RUN, NEW_CONTROLLER, inputs, max).0.trace;
      && (trace[i].Terminated? ==> EvidenceIn(trace[..i], trace[i].attempt))
      && (trace[i].Concluded? ==> forall a: nat :: Summary(trace[..i], a).created ==> Summary(trace[..i], a).terminated)
      && (trace[i].Created? ==> forall a: nat | a < trace[i].attempt :: Summary(trace[..i], a).terminated)
  {
    var trace := Run(NEW_RUN, NEW_CONTROLLER, inputs, max).0.trace;
    RunKeeps(inputs, max);
    assert Allowed(trace[..i], trace[i]);
    if trace[i].Terminated? { EvidenceFound(trace[..i], trace[i].attempt); }
  }

  /** Somebody was told that this execution is over. */
  ghost predicate EvidenceIn(trace: seq<Event>, a: nat) {
    exists e :: e in trace && Ends(e, a)
  }

  predicate Ends(e: Event, a: nat) {
    || (e.Launched? && e.attempt == a && e.answer == Observed(Exited))
    || (e.Inspected? && e.attempt == a && (e.answer == Observed(Exited) || e.answer == Observed(Absent)))
  }

  lemma {:induction false} EvidenceFound(trace: seq<Event>, a: nat)
    requires Summary(trace, a).evidence
    ensures EvidenceIn(trace, a)
  {
    var last, rest := trace[|trace| - 1], trace[..|trace| - 1];
    if Summary(rest, a).evidence {
      EvidenceFound(rest, a);
      var e :| e in rest && Ends(e, a);
      assert e in trace;
    } else {
      assert Ends(last, a);
    }
  }

  // ---------------------------------------------------------------- the retry limit

  /** `decide_after_terminal` is the only place that consults the limit. Attempts stay within it, and
      an idle pass that finds nothing live still has room. */
  ghost predicate WithinLimit(w: World, l: Local, max: nat) {
    var d, n := w.durable, |w.durable.attempts|;
    && (n <= max || n <= 1)
    && match l.point
       case Idle => d.active && AllTerminal(d) ==> n == 0 || n < max
       case Preparing(_) | Creating(_, _) => d.active ==> n == 0 || n < max
       case Adopting(a, _) => n > 0 && !d.attempts[n - 1].terminal
       case Concluding(runRevision) => d.active ==> d.revision == runRevision
       case _ => true
  }

  /** The steps by which an exhausted, still Active Run is left without a decision: the pass is cut
      before it decides or concludes, or the end was told by the launch itself. */
  predicate Slips(w: World, l: Local, input: Input, max: nat) {
    && w.durable.active && |w.durable.attempts| >= max && |w.durable.attempts| >= 1
    && (|| ((input.Crash? || input.Fault?) && (l.point.Deciding? || l.point.Concluding?))
        || (input.Go? && l.point.RecordingLaunch? && l.point.observation.Exited?))
  }

  /** A cut anywhere. */
  lemma CutIff(w: World, l: Local, input: Input, max: nat)
    requires Invariant(w, l) && WithinLimit(w, l, max) && (input.Crash? || input.Fault?)
    ensures WithinLimit(Step(w, l, input, max).0, Step(w, l, input, max).1, max) <==> !Slips(w, l, input, max)
  {
    var d := w.durable;
    match l.point {
      case NeedBearer(a, _) => assert !d.attempts[a].terminal;
      case Rekeying(a, _) => assert !d.attempts[a].terminal;
      case Refreshing(a) => assert !d.attempts[a].terminal;
      case Launching(a, _, _) => assert !d.attempts[a].terminal;
      case Contacting(a, _) => assert !d.attempts[a].terminal;
      case RecordingLaunch(a, _) => assert !d.attempts[a].terminal;
      case Inspecting(a) => assert !d.attempts[a].terminal;
      case RecordingInspection(a, _) => assert !d.attempts[a].terminal;
      case _ =>
    }
  }

  /** The steps that record how an execution stands. */
  lemma RecordIff(w: World, l: Local, input: Input, max: nat)
    requires Invariant(w, l) && WithinLimit(w, l, max) && input.Go?
    requires l.point.RecordingLaunch? || l.point.RecordingInspection?
    ensures WithinLimit(Step(w, l, input, max).0, Step(w, l, input, max).1, max) <==> !Slips(w, l, input, max)
  {
    var a, observation := l.point.attempt, l.point.observation;
    if observation.Exited? || (l.point.RecordingInspection? && observation.Absent?) {
      TerminateKeeps(w, a, observation);
    } else {
      assert !Step(w, l, input, max).0.durable.attempts[a].terminal;
    }
  }

  lemma OtherStepsStay(w: World, l: Local, input: Input, max: nat)
    requires Invariant(w, l) && WithinLimit(w, l, max) && input.Go? && !l.point.RecordingLaunch?
    requires !l.point.RecordingInspection?
    ensures WithinLimit(Step(w, l, input, max).0, Step(w, l, input, max).1, max)
  {
    var next := Step(w, l, input, max).0.durable;
    match l.point {
      case NeedBearer(a, _) => assert !next.attempts[a].terminal;
      case Refreshing(a) => assert !next.attempts[a].terminal;
      case Launching(a, _, _) => assert !next.attempts[a].terminal;
      case _ =>
    }
  }

  /** Exactly one kind of step breaks the limit's discipline. */
  lemma LimitStepIff(w: World, l: Local, input: Input, max: nat)
    requires Invariant(w, l) && WithinLimit(w, l, max)
    ensures WithinLimit(Step(w, l, input, max).0, Step(w, l, input, max).1, max) <==> !Slips(w, l, input, max)
  {
    match input {
      case Crash | Fault => CutIff(w, l, input, max);
      case Withdraw =>
      case Go(_, _, _) =>
        if l.point.RecordingLaunch? || l.point.RecordingInspection? {
          RecordIff(w, l, input, max);
        } else {
          OtherStepsStay(w, l, input, max);
        }
    }
  }

  ghost predicate SlipsAt(inputs: seq<Input>, max: nat, i: nat)
    requires i < |inputs|
  {
    var (w, l) := Run(NEW_RUN, NEW_CONTROLLER, inputs[..i], max);
    Slips(w, l, inputs[i], max)
  }

  /** Attempts stay within the limit in every run no step of which slips, harmless crashes, faults and
      withdrawals included; and the first step that slips leaves the Run Active, exhausted and idle,
      ready for an Attempt beyond the limit. */
  lemma {:induction false} RetryLimitIff(inputs: seq<Input>, max: nat)
    requires forall i | 0 <= i < |inputs| - 1 :: !SlipsAt(inputs, max, i)
    ensures var (w, l) := Run(NEW_RUN, NEW_CONTROLLER, inputs, max);
      WithinLimit(w, l, max) <==> inputs == [] || !SlipsAt(inputs, max, |inputs| - 1)
  {
    if inputs != [] {
      var rest, last := inputs[..|inputs| - 1], inputs[|inputs| - 1];
      forall i | 0 <= i < |rest| ensures !SlipsAt(rest, max, i) {
        assert rest[..i] == inputs[..i] && rest[i] == inputs[i];
        assert !SlipsAt(inputs, max, i);
      }
      RetryLimitIff(rest, max);
      RunKeeps(rest, max);
      var (w, l) := Run(NEW_RUN, NEW_CONTROLLER, rest, max);
      LimitStepIff(w, l, last, max);
    }
  }

  /** An idle controller that finds the Run Active with nothing live makes another Attempt whenever
      the gates pass, and only then: `establish_attempt` does not look at the limit. */
  lemma AnotherAttemptIff(w: World, l: Local, draw: Bearer, answer: Answer, max: nat)
    requires Invariant(w, l) && l.point.Idle?
    ensures var go := Go(draw, true, answer);
      var (w1, l1) := Step(w, l, go, max);
      var (w2, l2) := Step(w1, l1, go, max);
      var (w3, _) := Step(w2, l2, go, max);
      |w3.durable.attempts| == |w.durable.attempts| + 1 <==> w.durable.active && AllTerminal(w.durable)
  {
  }

  /** The same input, `n` times. */
  function Steps(w: World, l: Local, input: Input, max: nat, n: nat): (World, Local) {
    if n == 0 then (w, l) else var (v, k) := Steps(w, l, input, max, n - 1); Step(v, k, input, max)
  }

  lemma {:induction false} RunSteps(input: Input, max: nat, n: nat)
    ensures Run(NEW_RUN, NEW_CONTROLLER, seq(n, _ => input), max) == Steps(NEW_RUN, NEW_CONTROLLER, input, max, n)
  {
    if n > 0 {
      RunSteps(input, max, n - 1);
      assert seq(n, _ => input)[..n - 1] == seq(n - 1, _ => input);
    }
  }

  /** Four steps from nothing to an Attempt whose bearer is held; three more to the launch. */
  lemma FirstAttempt(draw: Bearer, answer: Answer, max: nat)
    ensures var go, row := Go(draw, true, answer), Attempt(false, false, 1, 1, draw, true, Absent);
      var w := World(Durable(true, 2, [row]), [Created(0, draw)]);
      && Steps(NEW_RUN, NEW_CONTROLLER, go, max, 4) == (w, Local(map[0 := Held(draw, 1)], Idle))
      && Steps(NEW_RUN, NEW_CONTROLLER, go, max, 6) == (w, Local(map[0 := Held(draw, 1)], Refreshing(0)))
      && Steps(NEW_RUN, NEW_CONTROLLER, go, max, 7) == (w, Local(map[0 := Held(draw, 1)], Launching(0, 1, 1)))
  {
    var go, row := Go(draw, true, answer), Attempt(false, false, 1, 1, draw, true, Absent);
    var w := World(Durable(true, 2, [row]), [Created(0, draw)]);
    assert Steps(NEW_RUN, NEW_CONTROLLER, go, max, 0) == (NEW_RUN, NEW_CONTROLLER);
    assert Steps(NEW_RUN, NEW_CONTROLLER, go, max, 1) == (NEW_RUN, Local(map[], Preparing(1)));
    assert Steps(NEW_RUN, NEW_CONTROLLER, go, max, 2) == (NEW_RUN, Local(map[], Creating(1, 1)));
    assert NEW_RUN.durable.attempts + [row] == [row] && NEW_RUN.trace + [Created(0, draw)] == [Created(0, draw)];
    assert Steps(NEW_RUN, NEW_CONTROLLER, go, max, 3) == (w, Local(map[], Adopting(0, Held(draw, 1))));
    assert Steps(NEW_RUN, NEW_CONTROLLER, go, max, 4) == (w, Local(map[0 := Held(draw, 1)], Idle));
    assert Steps(NEW_RUN, NEW_CONTROLLER, go, max, 5) == (w, Local(map[0 := Held(draw, 1)], NeedBearer(0, 1)));
  }

  /** With a limit of one Attempt, an execution that exits at once leaves the Run Active and the
      next pass makes a second Attempt. */
  lemma RetryLimitBypassed()
    ensures exists inputs :: |Run(NEW_RUN, NEW_CONTROLLER, inputs, 1).0.durable.attempts| == 2
  {
    var go := Go(7, true, Observed(Exited));
    FirstExits();
    var (w, l) := Steps(NEW_RUN, NEW_CONTROLLER, go, 1, 10);
    assert Steps(NEW_RUN, NEW_CONTROLLER, go, 1, 11) == (w, l.(point := Preparing(2)));
    assert Steps(NEW_RUN, NEW_CONTROLLER, go, 1, 12) == (w, l.(point := Creating(2, 2)));
    assert |Steps(NEW_RUN, NEW_CONTROLLER, go, 1, 13).0.durable.attempts| == 2;
    RunSteps(go, 1, 13);
  }

  /** The first Attempt is launched, exits and is recorded terminal; the Run is still Active. */
  lemma FirstExits()
    ensures var (w, l) := Steps(NEW_RUN, NEW_CONTROLLER, Go(7, true, Observed(Exited)), 1, 10);
      w.durable == Durable(true, 2, [Attempt(true, true, 3, 1, 7, false, Exited)]) && l.point == Idle
  {
    var go := Go(7, true, Observed(Exited));
    FirstAttempt(7, Observed(Exited), 1);
    assert Steps(NEW_RUN, NEW_CONTROLLER, go, 1, 8).1.point == Contacting(0, 7);
    assert Steps(NEW_RUN, NEW_CONTROLLER, go, 1, 9).1.point == RecordingLaunch(0, Exited);
  }

  // ---------------------------------------------------------------- concluding a Run that has left Active

  /** Whether the Run was Active when the controller last read the revision it may conclude with. */
  ghost function ReadActive(inputs: seq<Input>, max: nat): bool {
    if inputs == [] then true
    else
      var rest := inputs[..|inputs| - 1];
      var (w, l) := Run(NEW_RUN, NEW_CONTROLLER, rest, max);
      ReadAfter(w, l, inputs[|inputs| - 1], ReadActive(rest, max))
  }

  /** The dispatch of an idle pass and the decision after an end read it anew. */
  predicate ReadAfter(w: World, l: Local, input: Input, before: bool) {
    if input.Go? && (l.point.Idle? || l.point.Deciding?) then w.durable.active else before
  }

  /** A revision that still stands was read with the activity that still stands. */
  ghost predicate ReadHolds(w: World, l: Local, read: bool) {
    match l.point
    case Preparing(runRevision) =>
      read && runRevision <= w.durable.revision && (runRevision == w.durable.revision ==> w.durable.active)
    case Concluding(runRevision) =>
      runRevision <= w.durable.revision && (runRevision == w.durable.revision ==> w.durable.active == read)
    case _ => true
  }

  lemma ReadStep(w: World, l: Local, input: Input, max: nat, read: bool)
    requires ReadHolds(w, l, read)
    ensures ReadHolds(Step(w, l, input, max).0, Step(w, l, input, max).1, ReadAfter(w, l, input, read))
  {
    match input {
      case Crash | Fault | Withdraw =>
      case Go(_, gatesPass, _) =>
        match l.point {
          case Idle => assert Step(w, l, input, max) == (w, l.(point := Dispatch(w.durable)));
          case Preparing(r) => if !gatesPass { assert Step(w, l, input, max) == (w, l.(point := Concluding(r))); }
          case Deciding(_) =>
          case _ =>
        }
    }
  }

  lemma {:induction false} ReadKept(inputs: seq<Input>, max: nat)
    ensures var (w, l) := Run(NEW_RUN, NEW_CONTROLLER, inputs, max); ReadHolds(w, l, ReadActive(inputs, max))
  {
    if inputs != [] {
      var rest := inputs[..|inputs| - 1];
      ReadKept(rest, max);
      var (w, l) := Run(NEW_RUN, NEW_CONTROLLER, rest, max);
      ReadStep(w, l, inputs[|inputs| - 1], max, ReadActive(rest, max));
    }
  }

  /** In every run, a conclusion that commits hits a Run already out of Active if and only if the Run was
      out of Active when the revision was read: only the decision after an end reads one so, and a
      pass that concludes because its gates fail never does. */
  lemma ConcludesInactiveIff(inputs: seq<Input>, max: nat)
    ensures var (w, l) := Run(NEW_RUN, NEW_CONTROLLER, inputs, max);
      l.point.Concluding? && Conclude(w, l.point.runRevision).Some? ==>
        (!w.durable.active <==> !ReadActive(inputs, max))
    ensures var (w, l) := Run(NEW_RUN, NEW_CONTROLLER, inputs, max);
      l.point.Preparing? ==> ReadActive(inputs, max) && forall go: Input | go.Go? :: ReadAfter(w, l, go, true)
  {
    ReadKept(inputs, max);
  }

  /** An Attempt that was launched is found running, and is about to be inspected. */
  lemma FirstInspected(max: nat)
    ensures var (w, l) := Steps(NEW_RUN, NEW_CONTROLLER, Go(7, true, Observed(Running)), max, 11);
      && w.durable == Durable(true, 2, [Attempt(false, true, 3, 1, 7, true, Running)]) && l.point == Inspecting(0)
  {
    var go := Go(7, true, Observed(Running));
    FirstAttempt(7, Observed(Running), max);
    assert Steps(NEW_RUN, NEW_CONTROLLER, go, max, 8).1.point == Contacting(0, 7);
    assert Steps(NEW_RUN, NEW_CONTROLLER, go, max, 9).1.point == RecordingLaunch(0, Running);
    assert Steps(NEW_RUN, NEW_CONTROLLER, go, max, 10).1.point == Idle;
  }

  lemma RunOn(inputs: seq<Input>, input: Input, max: nat)
    ensures var (w, l) := Run(NEW_RUN, NEW_CONTROLLER, inputs, max);
      Run(NEW_RUN, NEW_CONTROLLER, inputs + [input], max) == Step(w, l, input, max)
  {
    assert (inputs + [input])[..|inputs|] == inputs;
  }

  lemma WithdrawnWhileInspected() returns (inputs: seq<Input>)
    ensures var (w, l) := Run(NEW_RUN, NEW_CONTROLLER, inputs, 1);
      w.durable == Durable(false, 3, [Attempt(false, true, 3, 1, 7, true, Running)]) && l.point == Inspecting(0)
  {
    var start := seq(11, _ => Go(7, true, Observed(Running)));
    RunSteps(Go(7, true, Observed(Running)), 1, 11);
    FirstInspected(1);
    RunOn(start, Withdraw, 1);
    inputs := start + [Withdraw];
  }

  lemma ExitedAfterwards() returns (inputs: seq<Input>)
    ensures var (w, l) := Run(NEW_RUN, NEW_CONTROLLER, inputs, 1);
      w.durable == Durable(false, 3, [Attempt(true, true, 4, 1, 7, false, Exited)]) && l.point == Deciding(0)
  {
    var exits := Go(7, true, Observed(Exited));
    var start := WithdrawnWhileInspected();
    RunOn(start, exits, 1);
    assert Run(NEW_RUN, NEW_CONTROLLER, start + [exits], 1).1.point == RecordingInspection(0, Exited);
    RunOn(start + [exits], exits, 1);
    inputs := start + [exits] + [exits];
  }

  /** A Run whose Candidate was submitted while its Attempt was being inspected is concluded as failed:
      the Attempt turns out to have exited, the limit is used up, and the fresh revision fits. */
  lemma FinalizingRunConcluded()
    ensures exists inputs ::
      var (w, l) := Run(NEW_RUN, NEW_CONTROLLER, inputs, 1);
      !w.durable.active && l.point.Concluding? && Conclude(w, l.point.runRevision).Some?
  {
    var exits := Go(7, true, Observed(Exited));
    var start := ExitedAfterwards();
    RunOn(start, exits, 1);
    var (w, l) := Run(NEW_RUN, NEW_CONTROLLER, start, 1);
    assert Run(NEW_RUN, NEW_CONTROLLER, start + [exits], 1) == (w, l.(point := Concluding(3)));
  }
}
