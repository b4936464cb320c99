/** Bringing a Task's Workspace to Ready: durable identity, durable marker, external effect, durable
    verification, with a crash possible between any two of them.

    Each durable transition is a command whose identity is the caller's identity, the transition's
    name and the revision it starts from; a command the ledger already holds is replayed. */
module Workspace {
  import opened Wrappers

  type Base = nat

  datatype Phase = Requested | Materializing | Ready | Frozen | Releasing | Error

  datatype Materialization = Present | Absent | Unknown

  datatype Row = Row(requested: nat, base: Base, phase: Phase, materialization: Materialization, revision: nat)

  datatype Transition = Opening | Marking | Completing | Failing

  /** The derived command identity. `Opening` carries no revision and is given zero. */
  datatype CommandId = CommandId(outer: nat, transition: Transition, from: nat)

  datatype Durable = Durable(row: Option<Row>, ledger: set<CommandId>)

  datatype Event =
    | Opened(base: Base)
    | Marked
    | Discarded
    | Materialized(base: Base)
    | BecameReady
    | FailureRecorded(materialization: Materialization)
    | Moved

  datatype World = World(durable: Durable, trace: seq<Event>)

  datatype Point =
    | Idle
    | AtOpen(outer: nat, requested: nat, base: Base)
    | AtMark(outer: nat, current: Row)
    | AtDiscard(outer: nat, marked: Row)
    | AtMaterialize(outer: nat, marked: Row)
    | AtComplete(outer: nat, marked: Row, verified: Base)
    | AtFail(outer: nat, marked: Row)

  datatype Input =
    | Crash
    | Fault
    | Ensure(outer: nat, requested: nat, resolved: Option<Base>)
    | Go(succeeds: bool, verified: Base, observed: Materialization)
    | Move(phase: Phase)

  /** `has_been_mutable`: a worker may have written here. */
  predicate Mutable(phase: Phase) {
    phase.Ready? || phase.Frozen? || phase.Releasing?
  }

  // ---------------------------------------------------------------- the store

  /** A commit answers with the row it produced; a replay answers with the row as it is now. */
  datatype Committed = Executed(world: World, row: Row) | Replayed(found: Option<Row>) | Refused

  /** One command: replayed, or applied when `guard` holds, moving the row and leaving `event`. */
  function Commit(w: World, id: CommandId, guard: bool, row: Row, event: Event): Committed {
    if id in w.durable.ledger then Replayed(w.durable.row)
    else if !guard then Refused
    else Executed(World(Durable(Some(row), w.durable.ledger + {id}), w.trace + [event]), row)
  }

  predicate At(w: World, revision: nat) {
    w.durable.row.Some? && w.durable.row.value.revision == revision
  }

  function OpenWorkspace(w: World, outer: nat, requested: nat, base: Base): Committed {
    Commit(w, CommandId(outer, Opening, 0), w.durable.row.None?, Row(requested, base, Requested, Absent, 1),
      Opened(base))
  }

  function BeginMaterialization(w: World, outer: nat, current: Row): Committed {
    Commit(w, CommandId(outer, Marking, current.revision),
           At(w, current.revision) && !Mutable(w.durable.row.value.phase),
           (if w.durable.row.Some? then w.durable.row.value else current).(phase := Materializing,
             materialization := Unknown, revision := current.revision + 1),
           Marked)
  }

  function CompleteMaterialization(w: World, outer: nat, marked: Row, verified: Base): Committed {
    Commit(w, CommandId(outer, Completing, marked.revision),
           At(w, marked.revision) && w.durable.row.value.phase.Materializing? && w.durable.row.value.base == verified,
           (if w.durable.row.Some? then w.durable.row.value else marked).(phase := Ready, materialization := Present,
             revision := marked.revision + 1),
           BecameReady)
  }

  function FailMaterialization(w: World, outer: nat, marked: Row, observed: Materialization): Committed {
    Commit(w, CommandId(outer, Failing, marked.revision),
           observed != Present && At(w, marked.revision) && !Mutable(w.durable.row.value.phase),
           (if w.durable.row.Some? then w.durable.row.value else marked).(phase := Error, materialization := observed,
             revision := marked.revision + 1),
           FailureRecorded(observed))
  }

  // ---------------------------------------------------------------- one step of `ensure`

  /** What a Workspace in this phase still needs. A Ready one is only observed. */
  function Dispatch(outer: nat, current: Row): Point {
    if current.phase.Requested? || current.phase.Materializing?
      || current.phase.Error? then AtMark(outer, current) else Idle
  }

  /** `settle`, then onwards with the row it names. */
  function Settled(w: World, committed: Committed, next: Row -> Point): (World, Point) {
    match committed
    case Executed(after, row) => (after, next(row))
    case Replayed(row) => (w, if row.None? then Idle else next(row.value))
    case Refused => (w, Idle)
  }

  function Effect(w: World, e: Event): World {
    w.(trace := w.trace + [e])
  }

  /** Later lifecycle controllers move a Workspace that has been Ready, never back. */
  function MoveOn(w: World, phase: Phase): World {
    if w.durable.row.None? || !Mutable(w.durable.row.value.phase) || !Mutable(phase) then w
    else
      var row := w.durable.row.value;
      Effect(w, Moved).(durable := w.durable.(row := Some(row.(phase := phase, revision := row.revision + 1))))
  }

  /** An observation made on a failure path never claims verification. */
  function Downgraded(observed: Materialization): Materialization {
    if observed.Absent? then Absent else Unknown
  }

  function Step(w: World, at: Point, input: Input): (World, Point) {
    match input
    case Crash => (w, Idle)
    case Fault => (w, Idle)
    case Move(phase) => (MoveOn(w, phase), at)
    case Ensure(outer, requested, resolved) =>
      if !at.Idle? then (w, at)
      else if w.durable.row.Some? then
        (w, if w.durable.row.value.requested != requested then Idle else Dispatch(outer, w.durable.row.value))
      else (w, if resolved.None? then Idle else AtOpen(outer, requested, resolved.value))
    case Go(succeeds, verified, observed) =>
      match at
      case Idle => (w, at)
      case AtOpen(outer, requested, base) =>
        Settled(w, OpenWorkspace(w, outer, requested, base), row => Dispatch(outer, row))
      case AtMark(outer, current) => Settled(w, BeginMaterialization(w, outer, current), row => AtDiscard(outer, row))
      case AtDiscard(outer, marked) =>
        (Effect(w, Discarded), if succeeds then AtMaterialize(outer, marked) else AtFail(outer, marked))
      case AtMaterialize(outer, marked) =>
        (Effect(w, Materialized(marked.base)),
          if succeeds then AtComplete(outer, marked, verified) else AtFail(outer, marked))
      case AtComplete(outer, marked, base) => Settled(w, CompleteMaterialization(w, outer, marked, base), row => Idle)
      case AtFail(outer, marked) => Settled(w, FailMaterialization(w, outer, marked, Downgraded(observed)), row => Idle)
  }

  const NOTHING := World(Durable(None, {}), [])

  function Run(inputs: seq<Input>): (World, Point) {
    if inputs == [] then (NOTHING, Idle)
    else
      var (w, at) := Run(inputs[..|inputs| - 1]);
      Step(w, at, inputs[|inputs| - 1])
  }

  // ---------------------------------------------------------------- one caller at a time

  ghost predicate HappenedReady(trace: seq<Event>) {
    BecameReady in trace
  }

  /** When an event may follow a trace. */
  ghost predicate Allowed(before: seq<Event>, e: Event) {
    match e
    case Opened(_) => before == []
    case Marked => !HappenedReady(before) && before != []
    case Discarded => Marked in before && !HappenedReady(before)
    case Materialized(base) => Marked in before && !HappenedReady(before) && Opened(base) in before
    case BecameReady => Marked in before && !HappenedReady(before)
    case FailureRecorded(materialization) => materialization != Present && !HappenedReady(before)
    case Moved => HappenedReady(before)
  }

  ghost predicate Lawful(trace: seq<Event>) {
    forall i | 0 <= i < |trace| :: Allowed(trace[..i], trace[i])
  }

  lemma LawfulAppend(trace: seq<Event>, e: Event)
    requires Lawful(trace) && Allowed(trace, e)
    ensures Lawful(trace + [e])
  {
    forall i | 0 <= i < |trace + [e]| ensures Allowed((trace + [e])[..i], (trace + [e])[i]) {
      assert (trace + [e])[..i] == if i < |trace| then trace[..i] else trace;
    }
  }

  ghost predicate RowAgrees(w: World) {
    match w.durable.row
    case None => w.trace == [] && w.durable.ledger == {}
    case Some(row) =>
      && Opened(row.base) in w.trace
      && (HappenedReady(w.trace) <==> Mutable(row.phase))
      && (Mutable(row.phase) ==> row.materialization == Present)
      && (row.phase.Error? ==> row.materialization != Present)
      && (row.phase.Materializing? ==> Marked in w.trace)
      && (forall id | id in w.durable.ledger :: id.transition.Opening? || id.from < row.revision)
  }

  /** The caller acts on the row as it is, and that row was never Ready. */
  ghost predicate Acting(w: World, row: Row) {
    w.durable.row == Some(row) && !Mutable(row.phase)
  }

  ghost predicate Invariant(w: World, at: Point) {
    && Lawful(w.trace)
    && RowAgrees(w)
    && match at
       case Idle => true
       case AtOpen(_, _, _) => w.durable.row.None?
       case AtMark(_, current) => Acting(w, current)
       case AtDiscard(_, marked) => Acting(w, marked) && marked.phase.Materializing?
       case AtMaterialize(_, marked) => Acting(w, marked) && marked.phase.Materializing?
       case AtComplete(_, marked, _) => Acting(w, marked) && marked.phase.Materializing?
       case AtFail(_, marked) => Acting(w, marked) && marked.phase.Materializing?
  }

  lemma OpenKeeps(w: World, at: Point, input: Input)
    requires Invariant(w, at) && input.Go? && at.AtOpen?
    ensures Invariant(Step(w, at, input).0, Step(w, at, input).1)
  {
    LawfulAppend(w.trace, Opened(at.base));
  }

  /** A caller that acts on the row as it is is never replayed: its command is new. */
  lemma CommandIsNew(w: World, outer: nat, transition: Transition, row: Row)
    requires RowAgrees(w) && w.durable.row == Some(row) && !transition.Opening?
    ensures CommandId(outer, transition, row.revision) !in w.durable.ledger
  {
  }

  lemma MarkKeeps(w: World, at: Point, input: Input)
    requires Invariant(w, at) && input.Go? && at.AtMark?
    ensures Invariant(Step(w, at, input).0, Step(w, at, input).1)
  {
    CommandIsNew(w, at.outer, Marking, at.current);
    LawfulAppend(w.trace, Marked);
  }

  lemma CompleteKeeps(w: World, at: Point, input: Input)
    requires Invariant(w, at) && input.Go? && at.AtComplete?
    ensures Invariant(Step(w, at, input).0, Step(w, at, input).1)
  {
    CommandIsNew(w, at.outer, Completing, at.marked);
    if at.verified == at.marked.base {
      LawfulAppend(w.trace, BecameReady);
      assert Step(w, at, input).0.trace == w.trace + [BecameReady];
    } else {
      assert Step(w, at, input) == (w, Idle);
    }
  }

  lemma FailKeeps(w: World, at: Point, input: Input)
    requires Invariant(w, at) && input.Go? && at.AtFail?
    ensures Invariant(Step(w, at, input).0, Step(w, at, input).1)
  {
    CommandIsNew(w, at.outer, Failing, at.marked);
    LawfulAppend(w.trace, FailureRecorded(Downgraded(input.observed)));
  }

  lemma EffectKeeps(w: World, at: Point, input: Input)
    requires Invariant(w, at) && input.Go? && (at.AtDiscard? || at.AtMaterialize?)
    ensures Invariant(Step(w, at, input).0, Step(w, at, input).1)
  {
    LawfulAppend(w.trace, if at.AtDiscard? then Discarded else Materialized(at.marked.base));
  }

  lemma MoveKeeps(w: World, at: Point, phase: Phase)
    requires Invariant(w, at)
    ensures Invariant(MoveOn(w, phase), at)
  {
    if MoveOn(w, phase) != w { LawfulAppend(w.trace, Moved); }
  }

  lemma StepKeeps(w: World, at: Point, input: Input)
    requires Invariant(w, at)
    ensures Invariant(Step(w, at, input).0, Step(w, at, input).1)
  {
    match input {
      case Crash | Fault =>
      case Ensure(_, _, _) =>
      case Move(phase) => MoveKeeps(w, at, phase);
      case Go(_, _, _) =>
        match at {
          case Idle =>
          case AtOpen(_, _, _) => OpenKeeps(w, at, input);
          case AtMark(_, _) => MarkKeeps(w, at, input);
          case AtDiscard(_, _) | AtMaterialize(_, _) => EffectKeeps(w, at, input);
          case AtComplete(_, _, _) => CompleteKeeps(w, at, input);
          case AtFail(_, _) => FailKeeps(w, at, input);
        }
    }
  }

  lemma {:induction false} RunKeeps(inputs: seq<Input>)
    ensures Invariant(Run(inputs).0, Run(inputs).1)
  {
    if inputs != [] {
      RunKeeps(inputs[..|inputs| - 1]);
      var (w, at) := Run(inputs[..|inputs| - 1]);
      StepKeeps(w, at, inputs[|inputs| - 1]);
    }
  }

  /** Crash safety, for every run of one caller at a time: nothing is discarded or built once the
      Workspace was Ready, nothing before the durable marker, always at the base it was opened with,
      and a recorded failure never claims Present. */
  lemma CrashSafety(inputs: seq<Input>, i: nat)
    requires i < |Run(inputs).0.trace|
    ensures var (w, at) := Run(inputs);
      && (w.trace[i].Discarded? || w.trace[i].Materialized? ==>
            Marked in w.trace[..i] && (forall j | 0 <= j < i :: !w.trace[j].BecameReady?))
      && (w.trace[i].Materialized? ==> Opened(w.trace[i].base) in w.trace[..i])
      && (w.trace[i].Opened? ==> i == 0)
      && (w.trace[i].FailureRecorded? ==> w.trace[i].materialization != Present)
  {
    RunKeeps(inputs);
    var trace := Run(inputs).0.trace;
    assert Allowed(trace[..i], trace[i]);
    forall j | 0 <= j < i ensures trace[j] == trace[..i][j] {
    }
  }

  /** The bound base of a Workspace is the one it was opened with, in every later state. */
  lemma BaseNeverChanges(inputs: seq<Input>)
    requires Run(inputs).0.durable.row.Some?
    ensures Run(inputs).0.trace != [] && Run(inputs).0.trace[0] == Opened(Run(inputs).0.durable.row.value.base)
  {
    RunKeeps(inputs);
    var (w, _) := Run(inputs);
    var i :| 0 <= i < |w.trace| && w.trace[i] == Opened(w.durable.row.value.base);
    assert Allowed(w.trace[..i], w.trace[i]);
  }

  /** Whatever earlier calls and crashes left, one undisturbed call makes a Workspace that was never
      handed out Ready at its bound base. */
  lemma EnsureProgress(w: World, outer: nat, row: Row, observed: Materialization)
    requires Invariant(w, Idle) && Acting(w, row)
    ensures var go := Go(true, row.base, observed);
      var (w1, p1) := Step(w, Idle, Ensure(outer, row.requested, None));
      var (w2, p2) := Step(w1, p1, go);
      var (w3, p3) := Step(w2, p2, go);
      var (w4, p4) := Step(w3, p3, go);
      var (w5, p5) := Step(w4, p4, go);
      && p5.Idle?
      && w5.durable.row == Some(row.(phase := Ready, materialization := Present, revision := row.revision + 2))
      && w5.trace == w.trace + [Marked, Discarded, Materialized(row.base), BecameReady]
  {
    var (w2, p2) := Begun(w, outer, row, Go(true, row.base, observed));
    assert w2.trace + [Discarded] + [Materialized(row.base)] + [BecameReady] ==
      w.trace + [Marked, Discarded, Materialized(row.base), BecameReady];
  }

  /** A call that finds a Workspace never handed out stands before its discard one marker later. */
  function Begun(w: World, outer: nat, row: Row, go: Input): (begun: (World, Point))
    requires Invariant(w, Idle) && Acting(w, row) && go.Go?
    ensures begun.0.trace == w.trace + [Marked]
    ensures var marked := row.(phase := Materializing, materialization := Unknown, revision := row.revision + 1);
      begun.0.durable.row == Some(marked) && begun.1 == AtDiscard(outer, marked)
    ensures CommandId(outer, Failing, row.revision + 1) !in begun.0.durable.ledger
    ensures CommandId(outer, Completing, row.revision + 1) !in begun.0.durable.ledger
  {
    var (w1, p1) := Step(w, Idle, Ensure(outer, row.requested, None));
    Step(w1, p1, go)
  }

  /** A Workspace that was handed out is only looked at; so is one that was requested otherwise, and
      without a resolved base none is opened. */
  lemma EnsureLeavesAlone(w: World, outer: nat, requested: nat, resolved: Option<Base>)
    requires match w.durable.row
      case None => resolved.None?
      case Some(row) => row.requested != requested || Mutable(row.phase)
    ensures Step(w, Idle, Ensure(outer, requested, resolved)) == (w, Idle)
  {
  }

  /** A call whose discard fails, or whose build does: the row is in Error, one failure is recorded, and
      what is known of the content is that it is absent or nothing. The next call starts over. */
  lemma EnsureFails(w: World, outer: nat, row: Row, observed: Materialization, built: bool)
    requires Invariant(w, Idle) && Acting(w, row)
    ensures var ok, bad := Go(true, row.base, observed), Go(false, row.base, observed);
      var known := if observed == Absent then Absent else Unknown;
      var (w2, p2) := Begun(w, outer, row, ok);
      var (w3, p3) := if built then Step(w2, p2, ok) else (w2, p2);
      var (w4, p4) := Step(w3, p3, bad);
      var (w5, p5) := Step(w4, p4, bad);
      && p5.Idle?
      && w5.durable.row == Some(row.(phase := Error, materialization := known, revision := row.revision + 2))
      && w5.trace == w.trace + (if built then [Marked, Discarded, Materialized(row.base)] else [Marked, Discarded])
           + [FailureRecorded(known)]
  {
    var (w2, _) := Begun(w, outer, row, Go(true, row.base, observed));
    assert w2.trace + [Discarded] == w.trace + [Marked, Discarded];
    assert w2.trace + [Discarded] + [Materialized(row.base)] == w.trace + [Marked, Discarded, Materialized(row.base)];
  }

  /** A build becomes Ready exactly when what was verified is the bound base; otherwise the row stays as it
      was marked. */
  lemma ReadyIffVerified(w: World, at: Point, go: Input)
    requires Invariant(w, at) && at.AtComplete? && go.Go?
    ensures var (v, next) := Step(w, at, go);
      && next.Idle?
      && (at.verified == at.marked.base ==>
            && v.trace == w.trace + [BecameReady]
            && v.durable.row == Some(at.marked.(phase := Ready, materialization := Present,
                 revision := at.marked.revision + 1)))
      && (at.verified != at.marked.base ==> v == w)
  {
    CommandIsNew(w, at.outer, Completing, at.marked);
  }

  /** ... and so does the first call of all, once the base resolves: identity and marker are durable
      before the first effect. */
  lemma FirstEnsureReachesReady(w: World, outer: nat, requested: nat, base: Base, observed: Materialization)
    requires Invariant(w, Idle) && w.durable.row.None?
    ensures var go := Go(true, base, observed);
      var (w1, p1) := Step(w, Idle, Ensure(outer, requested, Some(base)));
      var (w2, p2) := Step(w1, p1, go);
      var (w3, p3) := Step(w2, p2, go);
      var (w4, p4) := Step(w3, p3, go);
      var (w5, p5) := Step(w4, p4, go);
      var (w6, p6) := Step(w5, p5, go);
      && p6.Idle?
      && w6.durable.row == Some(Row(requested, base, Ready, Present, 3))
      && w6.trace == [Opened(base), Marked, Discarded, Materialized(base), BecameReady]
  {
    var go := Go(true, base, observed);
    var (w1, p1) := Step(w, Idle, Ensure(outer, requested, Some(base)));
    var (w2, p2) := Step(w1, p1, go);
    assert w2.durable == Durable(Some(Row(requested, base, Requested, Absent, 1)), {CommandId(outer, Opening, 0)});
    var (w3, p3) := Step(w2, p2, go);
    assert p3 == AtDiscard(outer, Row(requested, base, Materializing, Unknown, 2))
      && w3.trace == [Opened(base), Marked];
  }

  // ---------------------------------------------------------------- any number of callers at once

  /** One world, any number of live callers; a caller not listed is idle. */
  datatype Callers = Callers(world: World, points: map<nat, Point>)

  function PointOf(c: Callers, caller: nat): Point {
    if caller in c.points then c.points[caller] else Idle
  }

  function Turn(c: Callers, caller: nat, input: Input): Callers {
    var (w, p) := Step(c.world, PointOf(c, caller), input);
    Callers(w, c.points[caller := p])
  }

  /** Every interleaving: a schedule says whose step is next. */
  function Together(schedule: seq<(nat, Input)>): Callers {
    if schedule == [] then Callers(NOTHING, map[])
    else
      var (caller, input) := schedule[|schedule| - 1];
      Turn(Together(schedule[..|schedule| - 1]), caller, input)
  }

  /** What a caller read and what the row is now: the same row, or one that has moved on. */
  ghost predicate NotAhead(w: World, read: Row) {
    w.durable.row.Some? && (w.durable.row.value == read || w.durable.row.value.revision > read.revision)
  }

  ghost predicate Remembers(w: World, at: Point) {
    match at
    case Idle => true
    case AtOpen(_, _, _) => true
    case AtMark(_, current) => NotAhead(w, current)
    case AtDiscard(_, marked) => NotAhead(w, marked)
    case AtMaterialize(_, marked) => NotAhead(w, marked)
    case AtComplete(_, marked, _) => NotAhead(w, marked)
    case AtFail(_, marked) => NotAhead(w, marked)
  }

  /** What no interleaving breaks: the row's phase tells whether the Workspace was ever Ready. */
  ghost predicate Shared(c: Callers) {
    && (HappenedReady(c.world.trace) <==> c.world.durable.row.Some? && Mutable(c.world.durable.row.value.phase))
    && (forall p | p in c.points :: Remembers(c.world, c.points[p]))
  }

  /** A step changes the row only by moving its revision on, and turns it Ready or keeps that it was. */
  lemma StepMoves(w: World, at: Point, input: Input)
    requires HappenedReady(w.trace) <==> w.durable.row.Some? && Mutable(w.durable.row.value.phase)
    requires Remembers(w, at)
    ensures var (v, next) := Step(w, at, input);
      && (HappenedReady(v.trace) <==> v.durable.row.Some? && Mutable(v.durable.row.value.phase))
      && (v.durable.row == w.durable.row
            || (v.durable.row.Some?
                  && (w.durable.row.Some? ==> v.durable.row.value.revision > w.durable.row.value.revision)))
      && Remembers(v, next)
  {
  }

  lemma {:induction false} TogetherShared(schedule: seq<(nat, Input)>)
    ensures Shared(Together(schedule))
  {
    if schedule != [] {
      var rest := schedule[..|schedule| - 1];
      var (caller, input) := schedule[|schedule| - 1];
      TogetherShared(rest);
      StepMoves(Together(rest).world, PointOf(Together(rest), caller), input);
    }
  }

  /** A caller about to discard or to build, with the row its marker step returned. */
  predicate Disturbs(at: Point) {
    at.AtDiscard? || at.AtMaterialize?
  }

  /** In every interleaving, a discard or a build hits a Workspace that has been Ready if and only if
      the row, re-read at that moment, is Ready, Frozen or Releasing; and a re-read that still finds
      the revision the caller marked, not itself such a row, rules it out. */
  lemma DisturbsReadyIff(schedule: seq<(nat, Input)>, caller: nat, go: Input)
    requires Disturbs(PointOf(Together(schedule), caller)) && go.Go?
    ensures var c := Together(schedule);
      var marked := PointOf(c, caller).marked;
      var after := Turn(c, caller, go).world.trace;
      && c.world.durable.row.Some?
      && after[..|after| - 1] == c.world.trace && (after[|after| - 1].Discarded? || after[|after| - 1].Materialized?)
      && (BecameReady in after[..|after| - 1] <==> Mutable(c.world.durable.row.value.phase))
      && (c.world.durable.row.value.revision == marked.revision && !Mutable(marked.phase) ==> BecameReady !in after)
  {
    TogetherShared(schedule);
    assert Remembers(Together(schedule).world, PointOf(Together(schedule), caller));
  }

  /** No two callers present the same command identity: caller `n` presents `n + 4`. */
  ghost predicate OwnIdentities(schedule: seq<(nat, Input)>) {
    forall i | 0 <= i < |schedule| && schedule[i].1.Ensure? :: schedule[i].1.outer == schedule[i].0 + 4
  }

  /** Some schedule leads here, one without shared identities when `own` is asked for. */
  ghost predicate Reached(c: Callers, own: bool) {
    exists schedule :: (own ==> OwnIdentities(schedule)) && Together(schedule) == c
  }

  lemma Next(c: Callers, own: bool, caller: nat, input: Input)
    requires Reached(c, own) && (own && input.Ensure? ==> input.outer == caller + 4)
    ensures Reached(Turn(c, caller, input), own)
  {
    var schedule :| (own ==> OwnIdentities(schedule)) && Together(schedule) == c;
    var longer := schedule + [(caller, input)];
    assert longer[..|schedule|] == schedule;
    assert Together(longer) == Turn(c, caller, input);
  }

  const WELL := Go(true, 9, Present)
  const REQUESTING := Row(1, 9, Requested, Absent, 1)
  const MARKED_2 := Row(1, 9, Materializing, Unknown, 2)
  const MARKED_3 := Row(1, 9, Materializing, Unknown, 3)
  const OPENED_BY_5 := {CommandId(5, Opening, 0)}
  const MARKED_BY_5 := {CommandId(5, Opening, 0), CommandId(5, Marking, 1)}

  /** Caller 1 opens the Workspace and stands before the marker. */
  lemma OneAtMarker(own: bool)
    ensures Reached(Callers(World(Durable(Some(REQUESTING), OPENED_BY_5), [Opened(9)]),
      map[1 := AtMark(5, REQUESTING)]), own)
  {
    var c0 := Callers(NOTHING, map[]);
    assert Reached(c0, own) by { assert Together([]) == c0; assert OwnIdentities([]); }
    Next(c0, own, 1, Ensure(5, 1, Some(9)));
    var c1 := Callers(NOTHING, map[1 := AtOpen(5, 1, 9)]);
    assert Turn(c0, 1, Ensure(5, 1, Some(9))) == c1;
    Next(c1, own, 1, WELL);
    assert NOTHING.trace + [Opened(9)] == [Opened(9)]
      && NOTHING.durable.ledger + {CommandId(5, Opening, 0)} == OPENED_BY_5;
    assert Turn(c1, 1, WELL).points == map[1 := AtMark(5, REQUESTING)];
  }

  /** ... marks, and pauses before its discard. */
  lemma OneMarks(own: bool, points: map<nat, Point>)
    requires 1 in points && points[1] == AtMark(5, REQUESTING)
    requires Reached(Callers(World(Durable(Some(REQUESTING), OPENED_BY_5), [Opened(9)]), points), own)
    ensures Reached(Callers(World(Durable(Some(MARKED_2), MARKED_BY_5), [Opened(9), Marked]),
      points[1 := AtDiscard(5, MARKED_2)]), own)
  {
    var c := Callers(World(Durable(Some(REQUESTING), OPENED_BY_5), [Opened(9)]), points);
    Next(c, own, 1, WELL);
    assert OPENED_BY_5 + {CommandId(5, Marking, 1)} == MARKED_BY_5 && c.world.trace + [Marked] == [Opened(9), Marked];
  }

  /** From its own marker, a caller that nothing disturbs carries the Workspace to Ready. */
  lemma BuildsAlone(own: bool, c: Callers, caller: nat, outer: nat, marked: Row)
    requires Reached(c, own) && PointOf(c, caller) == AtDiscard(outer, marked)
    requires c.world.durable.row == Some(marked) && marked.phase.Materializing? && marked.base == 9
    requires CommandId(outer, Completing, marked.revision) !in c.world.durable.ledger
    ensures var ready := marked.(phase := Ready, materialization := Present, revision := marked.revision + 1);
      exists d :: Reached(d, own) && d.world.durable.row == Some(ready) && d.points == c.points[caller := Idle]
        && d.world.durable.ledger == c.world.durable.ledger + {CommandId(outer, Completing, marked.revision)}
  {
    Next(c, own, caller, WELL);
    var c1 := Turn(c, caller, WELL);
    Next(c1, own, caller, WELL);
    var c2 := Turn(c1, caller, WELL);
    assert PointOf(c2, caller) == AtComplete(outer, marked, 9) && c2.world.durable == c.world.durable;
    Next(c2, own, caller, WELL);
    assert Turn(c2, caller, WELL).points == c.points[caller := Idle];
  }

  /** The Workspace is Ready and the last thing that happened is a discard. */
  ghost predicate ReadyDiscarded(c: Callers) {
    && c.world.durable.row.Some? && c.world.durable.row.value.phase.Ready?
    && |c.world.trace| > 0 && c.world.trace[|c.world.trace| - 1] == Discarded
  }

  /** A caller standing before its discard while the Workspace is Ready discards it. */
  lemma DiscardsNow(own: bool, c: Callers, caller: nat)
    requires Reached(c, own) && PointOf(c, caller).AtDiscard?
    requires c.world.durable.row.Some? && c.world.durable.row.value.phase.Ready?
    ensures exists d :: Reached(d, own) && ReadyDiscarded(d)
  {
    Next(c, own, caller, WELL);
    assert ReadyDiscarded(Turn(c, caller, WELL));
  }

  /** Two live callers sharing a command identity: the first carries the Workspace to Ready, the
      second's marker is replayed, and it discards the Ready Workspace. */
  lemma SharedIdentityDiscardsReady()
    ensures exists d :: Reached(d, false) && ReadyDiscarded(d)
  {
    OneAtMarker(false);
    var c := Callers(World(Durable(Some(REQUESTING), OPENED_BY_5), [Opened(9)]), map[1 := AtMark(5, REQUESTING)]);
    Next(c, false, 2, Ensure(5, 1, Some(9)));
    var both := map[1 := AtMark(5, REQUESTING), 2 := AtMark(5, REQUESTING)];
    assert Turn(c, 2, Ensure(5, 1, Some(9))) == Callers(c.world, both);
    OneMarks(false, both);
    var marked := Callers(World(Durable(Some(MARKED_2), MARKED_BY_5), [Opened(9), Marked]),
      both[1 := AtDiscard(5, MARKED_2)]);
    BuildsAlone(false, marked, 1, 5, MARKED_2);
    var d :| Reached(d, false) && d.world.durable.row == Some(Row(1, 9, Ready, Present, 3))
      && d.points == marked.points[1 := Idle]
      && d.world.durable.ledger == MARKED_BY_5 + {CommandId(5, Completing, 2)};
    Next(d, false, 2, WELL);
    DiscardsNow(false, Turn(d, 2, WELL), 2);
  }

  /** No identity is shared and no marker replayed: a caller that paused after its own marker discards
      the Workspace another caller has meanwhile made Ready. */
  lemma PausedCallerDiscardsReady()
    ensures exists d :: Reached(d, true) && ReadyDiscarded(d)
  {
    OneAtMarker(true);
    OneMarks(true, map[1 := AtMark(5, REQUESTING)]);
    var paused := Callers(World(Durable(Some(MARKED_2), MARKED_BY_5), [Opened(9), Marked]),
      map[1 := AtDiscard(5, MARKED_2)]);
    assert map[1 := AtMark(5, REQUESTING)][1 := AtDiscard(5, MARKED_2)] == paused.points;
    Next(paused, true, 2, Ensure(6, 1, None));
    var called := Turn(paused, 2, Ensure(6, 1, None));
    assert called.world == paused.world && called.points == map[1 := AtDiscard(5, MARKED_2), 2 := AtMark(6, MARKED_2)];
    Next(called, true, 2, WELL);
    var other := Turn(called, 2, WELL);
    assert other.world.durable == Durable(Some(MARKED_3), MARKED_BY_5 + {CommandId(6, Marking, 2)});
    assert other.points == map[1 := AtDiscard(5, MARKED_2), 2 := AtDiscard(6, MARKED_3)];
    BuildsAlone(true, other, 2, 6, MARKED_3);
    var d :| Reached(d, true) && d.world.durable.row == Some(Row(1, 9, Ready, Present, 4))
      && d.points == other.points[2 := Idle];
    DiscardsNow(true, d, 1);
  }
}
