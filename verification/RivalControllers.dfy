/** Two live controllers over one Run: why the launch boundary needs one at a time, and exactly what
    goes wrong otherwise. */
module RivalControllers {
  import opened Wrappers
  import opened RunController

  datatype Pair = Pair(world: World, first: Local, second: Local)

  function Mine(p: Pair, mine: bool): Local {
    if mine then p.first else p.second
  }

  function Turn(p: Pair, mine: bool, input: Input, max: nat): Pair {
    var (w, l) := Step(p.world, Mine(p, mine), input, max);
    if mine then Pair(w, l, p.second) else Pair(w, p.first, l)
  }

  /** Two live controllers, interleaved by a schedule that says whose step is next. */
  function Interleave(schedule: seq<(bool, Input)>, max: nat): Pair {
    if schedule == [] then Pair(NEW_RUN, NEW_CONTROLLER, NEW_CONTROLLER)
    else
      var (mine, input) := schedule[|schedule| - 1];
      Turn(Interleave(schedule[..|schedule| - 1], max), mine, input, max)
  }

  // ---------------------------------------------------------------- how many launches

  function Bit(b: bool): nat {
    if b then 1 else 0
  }

  /** The controller has its T4b answer for this Attempt and is about to call the launcher. */
  predicate Waits(l: Local, a: nat) {
    l.point.Contacting? && l.point.attempt == a
  }

  /** Its T4b step finds the marker already there, and answers Ok. */
  predicate FindsMarker(w: World, l: Local, input: Input, a: nat) {
    && input.Go? && l.point.Launching? && l.point.attempt == a && a in l.bearers
    && a < |w.durable.attempts| && !w.durable.attempts[a].terminal && w.durable.attempts[a].contacted
  }

  /** It dies between the answer and the call. */
  predicate Lapses(l: Local, input: Input, a: nat) {
    (input.Crash? || input.Fault?) && Waits(l, a)
  }

  /** T4b steps of a schedule that found the marker of an Attempt. */
  function Found(schedule: seq<(bool, Input)>, max: nat, a: nat): nat {
    if schedule == [] then 0
    else
      var rest := schedule[..|schedule| - 1];
      var (mine, input) := schedule[|schedule| - 1];
      Found(rest, max, a) + Bit(FindsMarker(Interleave(rest, max).world, Mine(Interleave(rest, max), mine), input, a))
  }

  /** Passes of a schedule that died between T4b and the launcher. */
  function Lapsed(schedule: seq<(bool, Input)>, max: nat, a: nat): nat {
    if schedule == [] then 0
    else
      var rest := schedule[..|schedule| - 1];
      var (mine, input) := schedule[|schedule| - 1];
      Lapsed(rest, max, a) + Bit(Lapses(Mine(Interleave(rest, max), mine), input, a))
  }

  /** The Attempt a pass is at work on exists. */
  ghost predicate Ranged(d: Durable, l: Local) {
    match l.point
    case Launching(a, _, _) => a < |d.attempts|
    case Contacting(a, _) => a < |d.attempts|
    case NeedBearer(a, _) => a < |d.attempts|
    case Rekeying(a, _) => a < |d.attempts|
    case Refreshing(a) => a < |d.attempts|
    case _ => true
  }

  /** Markers are in the trace as they are in the rows. */
  ghost predicate MarkersAgree(w: World) {
    && (forall a: nat | a < |w.durable.attempts| :: Summary(w.trace, a).marked == w.durable.attempts[a].contacted)
    && (forall a: nat | a >= |w.durable.attempts| :: !Summary(w.trace, a).marked)
  }

  /** Attempts are never removed and a marker is never taken back. */
  ghost predicate Onward(d: Durable, e: Durable) {
    |d.attempts| <= |e.attempts| && forall a: nat | a < |d.attempts| && d.attempts[a].contacted ::
      e.attempts[a].contacted
  }

  /** What one step of either controller does to the count of one Attempt's launches. */
  ghost predicate Counted(w: World, l: Local, v: World, k: Local, input: Input, a: nat) {
    Summary(v.trace, a).launches + Bit(Waits(k, a)) + Bit(Lapses(l, input, a)) + Bit(Summary(w.trace, a).marked) ==
    Summary(w.trace, a).launches + Bit(Waits(l, a)) + Bit(FindsMarker(w, l, input, a)) + Bit(Summary(v.trace, a).marked)
  }

  ghost predicate StepSound(w: World, l: Local, v: World, k: Local, input: Input, a: nat) {
    MarkersAgree(v) && Ranged(v.durable, k) && Onward(w.durable, v.durable) && Counted(w, l, v, k, input, a)
  }

  /** Steps that neither mark nor launch. */
  lemma QuietStep(w: World, l: Local, input: Input, max: nat, a: nat)
    requires MarkersAgree(w) && Ranged(w.durable, l) && input.Go? && !l.point.Launching? && !l.point.Contacting?
    requires !l.point.Creating? && !l.point.NeedBearer? && !l.point.RecordingLaunch? && !l.point.RecordingInspection?
    requires !l.point.Inspecting? && !l.point.Concluding?
    ensures StepSound(w, l, Step(w, l, input, max).0, Step(w, l, input, max).1, input, a)
  {
  }

  /** Appending an event that is no marker and no launch, over rows whose markers stand. */
  lemma OtherEvent(w: World, v: World, e: Event, a: nat)
    requires MarkersAgree(w) && Onward(w.durable, v.durable) && v.trace == w.trace + [e] && !e.Marked? && !e.Launched?
    requires forall b: nat | b < |v.durable.attempts| ::
      v.durable.attempts[b].contacted == (b < |w.durable.attempts| && w.durable.attempts[b].contacted)
    ensures MarkersAgree(v) && Summary(v.trace, a).launches == Summary(w.trace, a).launches
    ensures Summary(v.trace, a).marked == Summary(w.trace, a).marked
  {
    SummaryAppend(w.trace, e);
  }

  lemma CreatingStep(w: World, l: Local, input: Input, max: nat, a: nat)
    requires MarkersAgree(w) && input.Go? && l.point.Creating?
    ensures StepSound(w, l, Step(w, l, input, max).0, Step(w, l, input, max).1, input, a)
  {
    var made := CreateAttempt(w, l.point.runRevision, l.point.ordinal, input.draw);
    if made.Some? { OtherEvent(w, made.value, Created(|w.durable.attempts|, input.draw), a); }
  }

  lemma RekeyingStep(w: World, l: Local, input: Input, max: nat, a: nat)
    requires MarkersAgree(w) && Ranged(w.durable, l) && input.Go? && l.point.NeedBearer?
    ensures StepSound(w, l, Step(w, l, input, max).0, Step(w, l, input, max).1, input, a)
  {
    var made := Rekey(w, l.point.attempt, l.point.credentialRevision, input.draw);
    if made.Some? { OtherEvent(w, made.value, Rekeyed(l.point.attempt, input.draw), a); }
  }

  lemma InspectingStep(w: World, l: Local, input: Input, max: nat, a: nat)
    requires MarkersAgree(w) && input.Go? && l.point.Inspecting?
    ensures StepSound(w, l, Step(w, l, input, max).0, Step(w, l, input, max).1, input, a)
  {
    OtherEvent(w, Step(w, l, input, max).0, Inspected(l.point.attempt, input.answer), a);
  }

  lemma ConcludingStep(w: World, l: Local, input: Input, max: nat, a: nat)
    requires MarkersAgree(w) && input.Go? && l.point.Concluding?
    ensures StepSound(w, l, Step(w, l, input, max).0, Step(w, l, input, max).1, input, a)
  {
    var made := Conclude(w, l.point.runRevision);
    assert Step(w, l, input, max) == Continue(w, l, made, Idle);
    if made.Some? { OtherEvent(w, made.value, Concluded, a); }
  }

  /** A record that does not end the Attempt. */
  lemma ObserveSound(w: World, l: Local, b: nat, observation: Observation, input: Input, a: nat)
    requires MarkersAgree(w) && !Waits(l, a) && !l.point.Launching? && Observe(w, b, observation).Some?
    ensures StepSound(w, l, Observe(w, b, observation).value, Rest(l), input, a)
  {
  }

  /** A record that does. */
  lemma TerminateSound(w: World, l: Local, b: nat, observation: Observation, next: Point, input: Input, a: nat)
    requires MarkersAgree(w) && !Waits(l, a) && !l.point.Launching? && Terminate(w, b, observation).Some?
    requires next.Idle? || next.Deciding?
    ensures StepSound(w, l, Terminate(w, b, observation).value, l.(point := next), input, a)
  {
    OtherEvent(w, Terminate(w, b, observation).value, Terminated(b), a);
  }

  lemma RecordingStep(w: World, l: Local, input: Input, max: nat, a: nat)
    requires MarkersAgree(w) && input.Go? && (l.point.RecordingLaunch? || l.point.RecordingInspection?)
    ensures StepSound(w, l, Step(w, l, input, max).0, Step(w, l, input, max).1, input, a)
  {
    var b, observation := l.point.attempt, l.point.observation;
    if observation.Exited? || (l.point.RecordingInspection? && observation.Absent?) {
      var next := if l.point.RecordingLaunch? then Idle else Deciding(b);
      assert Step(w, l, input, max) == Continue(w, l, Terminate(w, b, observation), next);
      if Terminate(w, b, observation).Some? { TerminateSound(w, l, b, observation, next, input, a); }
    } else {
      assert Step(w, l, input, max) == Continue(w, l, Observe(w, b, observation), Idle);
      if Observe(w, b, observation).Some? { ObserveSound(w, l, b, observation, input, a); }
    }
  }

  /** A marker that commits is the first of its Attempt. */
  lemma FirstMarker(w: World, v: World, b: nat, a: nat)
    requires MarkersAgree(w) && b < |w.durable.attempts| && !w.durable.attempts[b].contacted
    requires v.trace == w.trace + [Marked(b)] && |v.durable.attempts| == |w.durable.attempts|
    requires v.durable.attempts[b].contacted
    requires forall c: nat | c < |w.durable.attempts| && c != b :: v.durable.attempts[c] == w.durable.attempts[c]
    ensures MarkersAgree(v) && Onward(w.durable, v.durable)
    ensures Summary(v.trace, a).launches == Summary(w.trace, a).launches
    ensures Summary(v.trace, a).marked == (a == b || Summary(w.trace, a).marked) && !Summary(w.trace, b).marked
  {
    SummaryAppend(w.trace, Marked(b));
  }

  lemma MarkingStep(w: World, l: Local, input: Input, max: nat, a: nat)
    requires MarkersAgree(w) && Ranged(w.durable, l) && input.Go? && l.point.Launching?
    ensures StepSound(w, l, Step(w, l, input, max).0, Step(w, l, input, max).1, input, a)
  {
    var b := l.point.attempt;
    var made := MarkContact(w, b, l.point.statusRevision, l.point.credentialRevision);
    if b in l.bearers && made.Some? {
      assert Step(w, l, input, max) == (made.value, l.(point := Contacting(b, l.bearers[b].bearer)));
      if !w.durable.attempts[b].contacted { FirstMarker(w, made.value, b, a); }
    } else {
      assert Step(w, l, input, max) == (w, Rest(l));
    }
  }

  lemma LaunchingStep(w: World, l: Local, input: Input, max: nat, a: nat)
    requires MarkersAgree(w) && Ranged(w.durable, l) && input.Go? && l.point.Contacting?
    ensures StepSound(w, l, Step(w, l, input, max).0, Step(w, l, input, max).1, input, a)
  {
    SummaryAppend(w.trace, Launched(l.point.attempt, l.point.bearer, input.answer));
  }

  lemma StepCounts(w: World, l: Local, input: Input, max: nat, a: nat)
    requires MarkersAgree(w) && Ranged(w.durable, l)
    ensures StepSound(w, l, Step(w, l, input, max).0, Step(w, l, input, max).1, input, a)
  {
    if input.Go? {
      match l.point {
        case Creating(_, _) => CreatingStep(w, l, input, max, a);
        case NeedBearer(_, _) => RekeyingStep(w, l, input, max, a);
        case Launching(_, _, _) => MarkingStep(w, l, input, max, a);
        case Contacting(_, _) => LaunchingStep(w, l, input, max, a);
        case RecordingLaunch(_, _) | RecordingInspection(_, _) => RecordingStep(w, l, input, max, a);
        case Inspecting(_) => InspectingStep(w, l, input, max, a);
        case Concluding(_) => ConcludingStep(w, l, input, max, a);
        case Idle | Preparing(_) | Adopting(_, _) | Rekeying(_, _) | Refreshing(_) | Deciding(_) =>
          QuietStep(w, l, input, max, a);
      }
    }
  }

  ghost predicate Balanced(schedule: seq<(bool, Input)>, max: nat, a: nat) {
    var p := Interleave(schedule, max);
    && MarkersAgree(p.world) && Ranged(p.world.durable, p.first) && Ranged(p.world.durable, p.second)
    && Summary(p.world.trace, a).launches + Bit(Waits(p.first, a)) + Bit(Waits(p.second, a)) +
         Lapsed(schedule, max, a) ==
       Bit(Summary(p.world.trace, a).marked) + Found(schedule, max, a)
    && (Found(schedule, max, a) > 0 ==> Summary(p.world.trace, a).marked)
  }

  /** Over every interleaving: the launches of an Attempt, made, pending or lost to a crash, are its one
      executed T4b and the T4b steps that found the marker already there. */
  lemma {:induction false} LaunchesAreAdmissions(schedule: seq<(bool, Input)>, max: nat, a: nat)
    ensures Balanced(schedule, max, a)
  {
    if schedule != [] {
      var rest := schedule[..|schedule| - 1];
      var (mine, input) := schedule[|schedule| - 1];
      LaunchesAreAdmissions(rest, max, a);
      var p := Interleave(rest, max);
      StepCounts(p.world, Mine(p, mine), input, max, a);
      assert Interleave(schedule, max).world == Step(p.world, Mine(p, mine), input, max).0;
      assert Mine(Interleave(schedule, max), mine) == Step(p.world, Mine(p, mine), input, max).1;
      assert Mine(Interleave(schedule, max), !mine) == Mine(p, !mine);
    }
  }

  /** A further launch comes from a T4b step that found the marker, and from nothing else: an Attempt
      launched twice was admitted that way, and, once no pass is pending or lost in between, it is
      launched again exactly when some T4b step found its marker. */
  lemma FurtherLaunchIff(schedule: seq<(bool, Input)>, max: nat, a: nat)
    ensures var p := Interleave(schedule, max);
      && (Summary(p.world.trace, a).launches >= 2 ==> Found(schedule, max, a) >= 1)
      && (!Waits(p.first, a) && !Waits(p.second, a) && Lapsed(schedule, max, a) == 0 ==>
            (Summary(p.world.trace, a).launches >= 2 <==> Found(schedule, max, a) >= 1))
  {
    LaunchesAreAdmissions(schedule, max, a);
  }

  // ---------------------------------------------------------------- whose bearer

  /** The verifiers an Attempt's session has stored, in order of credential revision. */
  function Credentials(trace: seq<Event>, a: nat): seq<Bearer> {
    if trace == [] then []
    else
      Credentials(trace[..|trace| - 1], a) + Stored(trace[|trace| - 1], a)
  }

  /** The verifier an event stores for an Attempt, if it stores one. */
  function Stored(e: Event, a: nat): seq<Bearer> {
    if (e.Created? || e.Rekeyed?) && e.attempt == a then [e.verifier] else []
  }

  /** A held bearer is the one stored at its revision. */
  ghost predicate Genuine(trace: seq<Event>, a: nat, held: Held) {
    1 <= held.revision <= |Credentials(trace, a)| && Credentials(trace, a)[held.revision - 1] == held.bearer
  }

  ghost predicate HoldsGenuine(w: World, l: Local) {
    (forall a | a in l.bearers :: Genuine(w.trace, a, l.bearers[a])) && PointGenuine(w, l)
  }

  ghost predicate PointGenuine(w: World, l: Local) {
    match l.point
    case Adopting(a, held) => Genuine(w.trace, a, held)
    case Rekeying(a, held) => Genuine(w.trace, a, held)
    case Contacting(a, bearer) => a in l.bearers && l.bearers[a].bearer == bearer && a < |w.durable.attempts|
    case Launching(a, _, _) => a < |w.durable.attempts|
    case Refreshing(a) => a < |w.durable.attempts|
    case NeedBearer(a, _) => a < |w.durable.attempts|
    case _ => true
  }

  predicate Stores(row: Attempt, credentials: seq<Bearer>) {
    |credentials| == row.credentialRevision > 0 && credentials[|credentials| - 1] == row.verifier
  }

  /** A row stores the last verifier of its Attempt, at the revision that counts them. */
  ghost predicate CredentialsAgree(w: World) {
    && (forall a: nat | a < |w.durable.attempts| :: Stores(w.durable.attempts[a], Credentials(w.trace, a)))
    && (forall a: nat | a >= |w.durable.attempts| :: Credentials(w.trace, a) == [])
  }

  lemma CredentialsAppend(trace: seq<Event>, e: Event)
    ensures forall a :: Credentials(trace + [e], a) == Credentials(trace, a) + Stored(e, a)
  {
    assert (trace + [e])[..|trace|] == trace;
  }

  /** Nothing a controller holds is disturbed by credentials added later. */
  ghost predicate CredentialsGrow(w: World, v: World) {
    |w.durable.attempts| <= |v.durable.attempts| && forall a: nat :: Credentials(w.trace, a) <= Credentials(v.trace, a)
  }

  lemma HoldsStill(w: World, v: World, l: Local)
    requires HoldsGenuine(w, l) && CredentialsGrow(w, v)
    ensures HoldsGenuine(v, l)
  {
    forall a: nat, held | Genuine(w.trace, a, held) ensures Genuine(v.trace, a, held) {
      assert Credentials(w.trace, a) <= Credentials(v.trace, a);
    }
  }

  ghost predicate HoldSound(w: World, v: World, k: Local) {
    CredentialsAgree(v) && CredentialsGrow(w, v) && HoldsGenuine(v, k)
  }

  /** Storing one more verifier for one Attempt, in its row and in the trace. */
  lemma OneMoreCredential(w: World, v: World, e: Event, a: nat)
    requires CredentialsAgree(w) && (e.Created? || e.Rekeyed?) && e.attempt == a && v.trace == w.trace + [e]
    requires |w.durable.attempts| <= |v.durable.attempts| && a < |v.durable.attempts| <= a + 1 + |w.durable.attempts|
    requires forall b: nat | b < |v.durable.attempts| && b != a ::
      b < |w.durable.attempts| && v.durable.attempts[b] == w.durable.attempts[b]
    requires v.durable.attempts[a].verifier == e.verifier
    requires v.durable.attempts[a].credentialRevision == |Credentials(w.trace, a)| + 1
    ensures CredentialsAgree(v) && CredentialsGrow(w, v)
    ensures Genuine(v.trace, a, Held(e.verifier, |Credentials(w.trace, a)| + 1))
  {
    CredentialsAppend(w.trace, e);
  }

  lemma CreateHolds(w: World, l: Local, input: Input, max: nat)
    requires CredentialsAgree(w) && HoldsGenuine(w, l) && input.Go? && l.point.Creating?
    ensures HoldSound(w, Step(w, l, input, max).0, Step(w, l, input, max).1)
  {
    var n, made := |w.durable.attempts|, CreateAttempt(w, l.point.runRevision, l.point.ordinal, input.draw);
    assert Step(w, l, input, max) == Continue(w, l, made, Adopting(n, Held(input.draw, 1)));
    if made.Some? {
      OneMoreCredential(w, made.value, Created(n, input.draw), n);
      HoldsStill(w, made.value, Rest(l));
    }
  }

  lemma RekeyHolds(w: World, l: Local, input: Input, max: nat)
    requires CredentialsAgree(w) && HoldsGenuine(w, l) && input.Go? && l.point.NeedBearer?
    ensures HoldSound(w, Step(w, l, input, max).0, Step(w, l, input, max).1)
  {
    var a, expected := l.point.attempt, l.point.credentialRevision;
    if a in l.bearers && l.bearers[a].revision == expected {
      assert Step(w, l, input, max) == (w, l.(point := Refreshing(a)));
    } else {
      var made := Rekey(w, a, expected, input.draw);
      assert Step(w, l, input, max) == Continue(w, l, made, Rekeying(a, Held(input.draw, expected + 1)));
      if made.Some? {
        RekeyStores(w, a, expected, input.draw);
        HoldsStill(w, made.value, Rest(l));
      }
    }
  }

  lemma RekeyStores(w: World, a: nat, expected: nat, draw: Bearer)
    requires CredentialsAgree(w) && Rekey(w, a, expected, draw).Some?
    ensures var v := Rekey(w, a, expected, draw).value;
      CredentialsAgree(v) && CredentialsGrow(w, v) && Genuine(v.trace, a, Held(draw, expected + 1))
  {
    assert Stores(w.durable.attempts[a], Credentials(w.trace, a));
    OneMoreCredential(w, Rekey(w, a, expected, draw).value, Rekeyed(a, draw), a);
  }

  predicate SameCredential(row: Attempt, other: Attempt) {
    row.credentialRevision == other.credentialRevision && row.verifier == other.verifier
  }

  /** Rows and trace with the same credentials as before. */
  ghost predicate SameCredentials(w: World, v: World) {
    && |v.durable.attempts| == |w.durable.attempts|
    && (forall a: nat | a < |w.durable.attempts| :: SameCredential(v.durable.attempts[a], w.durable.attempts[a]))
    && (v.trace == w.trace || exists e: Event :: v.trace == w.trace + [e] && !e.Created? && !e.Rekeyed?)
  }

  lemma SameHolds(w: World, v: World, l: Local)
    requires CredentialsAgree(w) && HoldsGenuine(w, l) && SameCredentials(w, v)
    ensures CredentialsAgree(v) && CredentialsGrow(w, v) && HoldsGenuine(v, l)
  {
    if v.trace != w.trace {
      var e: Event :| v.trace == w.trace + [e] && !e.Created? && !e.Rekeyed?;
      CredentialsAppend(w.trace, e);
    }
    HoldsStill(w, v, l);
  }

  /** A step leaves at most one event; one that stores a verifier stores the draw of that step. */
  lemma StepEvent(w: World, l: Local, input: Input, max: nat) returns (e: Option<Event>)
    ensures Step(w, l, input, max).0.trace == if e.Some? then w.trace + [e.value] else w.trace
    ensures e.Some? && (e.value.Created? || e.value.Rekeyed?) ==>
      input.Go? && e.value.verifier == input.draw && (l.point.Creating? || l.point.NeedBearer?)
  {
    var v := Step(w, l, input, max).0;
    e := if v.trace == w.trace then None else Some(v.trace[|w.trace|]);
  }

  /** Every other step leaves the stored credentials alone. */
  lemma StepSameRows(w: World, l: Local, input: Input, max: nat)
    requires !(input.Go? && (l.point.Creating? || l.point.NeedBearer?))
    ensures var v := Step(w, l, input, max).0;
      |v.durable.attempts| == |w.durable.attempts|
      && forall a: nat | a < |w.durable.attempts| :: SameCredential(v.durable.attempts[a], w.durable.attempts[a])
  {
  }

  lemma StepSameCredentials(w: World, l: Local, input: Input, max: nat)
    requires !(input.Go? && (l.point.Creating? || l.point.NeedBearer?))
    ensures SameCredentials(w, Step(w, l, input, max).0)
  {
    StepSameRows(w, l, input, max);
    var e := StepEvent(w, l, input, max);
  }

  /** What the controller holds after such a step is what it held. */
  lemma OtherHeld(w: World, v: World, l: Local, input: Input, max: nat)
    requires CredentialsAgree(v) && HoldsGenuine(v, l) && |v.durable.attempts| >= |w.durable.attempts|
    requires !(input.Go? && (l.point.Creating? || l.point.NeedBearer?))
    ensures HoldsGenuine(v, Step(w, l, input, max).1)
  {
    OtherBearers(w, v, l, input, max);
    OtherPoint(w, v, l, input, max);
  }

  lemma OtherBearers(w: World, v: World, l: Local, input: Input, max: nat)
    requires HoldsGenuine(v, l) && !(input.Go? && (l.point.Creating? || l.point.NeedBearer?))
    ensures var after := Step(w, l, input, max).1;
            forall a | a in after.bearers :: Genuine(v.trace, a, after.bearers[a])
  {
  }

  lemma OtherPoint(w: World, v: World, l: Local, input: Input, max: nat)
    requires CredentialsAgree(v) && PointGenuine(v, l) && |v.durable.attempts| >= |w.durable.attempts|
    requires !(input.Go? && (l.point.Creating? || l.point.NeedBearer?))
    ensures PointGenuine(v, Step(w, l, input, max).1)
  {
  }

  /** ... and the controller goes on with bearers it already held. */
  lemma OtherHolds(w: World, l: Local, input: Input, max: nat)
    requires CredentialsAgree(w) && HoldsGenuine(w, l) && !(input.Go? && (l.point.Creating? || l.point.NeedBearer?))
    ensures HoldSound(w, Step(w, l, input, max).0, Step(w, l, input, max).1)
  {
    StepSameCredentials(w, l, input, max);
    SameHolds(w, Step(w, l, input, max).0, l);
    OtherHeld(w, Step(w, l, input, max).0, l, input, max);
  }

  /** The draws of a schedule, and that none is ever repeated. */
  function Draws(schedule: seq<(bool, Input)>): set<Bearer> {
    set x | x in schedule && x.1.Go? :: x.1.draw
  }

  ghost predicate FreshDraws(schedule: seq<(bool, Input)>) {
    forall i, j | 0 <= i < j < |schedule| && schedule[i].1.Go? && schedule[j].1.Go? ::
      schedule[i].1.draw != schedule[j].1.draw
  }

  ghost predicate CredentialsSound(schedule: seq<(bool, Input)>, max: nat) {
    var p := Interleave(schedule, max);
    && CredentialsAgree(p.world) && HoldsGenuine(p.world, p.first) && HoldsGenuine(p.world, p.second)
    && (forall a: nat :: DrawnOnce(Credentials(p.world.trace, a), Draws(schedule)))
  }

  /** Verifiers all drawn, none twice. */
  ghost predicate DrawnOnce(credentials: seq<Bearer>, draws: set<Bearer>) {
    && (forall i | 0 <= i < |credentials| :: credentials[i] in draws)
    && (forall i, j | 0 <= i < j < |credentials| :: credentials[i] != credentials[j])
  }

  lemma StepHolds(w: World, l: Local, input: Input, max: nat)
    requires CredentialsAgree(w) && HoldsGenuine(w, l)
    ensures HoldSound(w, Step(w, l, input, max).0, Step(w, l, input, max).1)
  {
    if input.Go? && l.point.Creating? { CreateHolds(w, l, input, max); }
    else if input.Go? && l.point.NeedBearer? { RekeyHolds(w, l, input, max); }
    else { OtherHolds(w, l, input, max); }
  }

  /** One step stores at most one new verifier, and it is the draw of that step. */
  lemma StepDraws(w: World, l: Local, input: Input, max: nat, a: nat)
    ensures var before, after := Credentials(w.trace, a), Credentials(Step(w, l, input, max).0.trace, a);
      after == before || (input.Go? && after == before + [input.draw])
  {
    var e := StepEvent(w, l, input, max);
    if e.Some? { CredentialsAppend(w.trace, e.value); }
  }

  lemma DrawsGrow(schedule: seq<(bool, Input)>)
    requires schedule != [] && FreshDraws(schedule)
    ensures FreshDraws(schedule[..|schedule| - 1]) && Draws(schedule[..|schedule| - 1]) <= Draws(schedule)
    ensures var x := schedule[|schedule| - 1]; x.1.Go? ==>
      x.1.draw in Draws(schedule) && x.1.draw !in Draws(schedule[..|schedule| - 1])
  {
    var rest, x := schedule[..|schedule| - 1], schedule[|schedule| - 1];
    assert x in schedule && forall y | y in rest :: y in schedule;
    forall y | y in rest && y.1.Go? && x.1.Go? ensures y.1.draw != x.1.draw {
      var i :| 0 <= i < |rest| && rest[i] == y;
      assert schedule[i] == y;
    }
  }

  lemma {:induction false} CredentialsKept(schedule: seq<(bool, Input)>, max: nat)
    requires FreshDraws(schedule)
    ensures CredentialsSound(schedule, max)
  {
    if schedule != [] {
      var rest := schedule[..|schedule| - 1];
      var (mine, input) := schedule[|schedule| - 1];
      DrawsGrow(schedule);
      CredentialsKept(rest, max);
      var p := Interleave(rest, max);
      StepHolds(p.world, Mine(p, mine), input, max);
      HoldsStill(p.world, Interleave(schedule, max).world, Mine(p, !mine));
      forall a: nat ensures DrawnOnce(Credentials(Interleave(schedule, max).world.trace, a), Draws(schedule)) {
        StepDraws(p.world, Mine(p, mine), input, max, a);
        assert DrawnOnce(Credentials(p.world.trace, a), Draws(rest));
      }
    }
  }

  /** Over every interleaving whose random draws do not repeat: a controller about to call the launcher
      carries a bearer the session does not store if and only if the revision it holds is not the
      credential revision the session is at. */
  lemma StaleLaunchIff(schedule: seq<(bool, Input)>, max: nat, mine: bool)
    requires FreshDraws(schedule) && Mine(Interleave(schedule, max), mine).point.Contacting?
    ensures StaleExactly(Interleave(schedule, max).world, Mine(Interleave(schedule, max), mine))
  {
    CredentialsKept(schedule, max);
    StaleIff(Interleave(schedule, max).world, Mine(Interleave(schedule, max), mine), Draws(schedule));
  }

  lemma StaleIff(w: World, l: Local, draws: set<Bearer>)
    requires CredentialsAgree(w) && HoldsGenuine(w, l) && l.point.Contacting?
    requires forall a: nat :: DrawnOnce(Credentials(w.trace, a), draws)
    ensures StaleExactly(w, l)
  {
    var a := l.point.attempt;
    assert Genuine(w.trace, a, l.bearers[a]) && DrawnOnce(Credentials(w.trace, a), draws);
    GenuineIff(Credentials(w.trace, a), l.bearers[a], w.durable.attempts[a]);
  }

  /** What a controller about to launch carries is not what the session stores, exactly when its
      revision is not the session's. */
  ghost predicate StaleExactly(w: World, l: Local)
    requires l.point.Contacting?
  {
    var a := l.point.attempt;
    && a < |w.durable.attempts| && a in l.bearers && l.bearers[a].bearer == l.point.bearer
    && (l.point.bearer != w.durable.attempts[a].verifier <==>
          l.bearers[a].revision != w.durable.attempts[a].credentialRevision)
  }

  lemma GenuineIff(credentials: seq<Bearer>, held: Held, row: Attempt)
    requires 1 <= held.revision <= |credentials| && credentials[held.revision - 1] == held.bearer
    requires Stores(row, credentials)
    requires forall i, j | 0 <= i < j < |credentials| :: credentials[i] != credentials[j]
    ensures held.bearer != row.verifier <==> held.revision != row.credentialRevision
  {
  }

  // ---------------------------------------------------------------- a run in which both go wrong

  lemma InterleaveNext(schedule: seq<(bool, Input)>, mine: bool, input: Input, max: nat)
    ensures Interleave(schedule + [(mine, input)], max) == Turn(Interleave(schedule, max), mine, input, max)
  {
    assert (schedule + [(mine, input)])[..|schedule|] == schedule;
  }

  lemma {:induction false} InterleaveMany(schedule: seq<(bool, Input)>, mine: bool, input: Input, max: nat, n: nat)
    ensures var p := Interleave(schedule, max);
      Interleave(schedule + seq(n, _ => (mine, input)), max) ==
      if mine then Pair(Steps(p.world, p.first, input, max, n).0, Steps(p.world, p.first, input, max, n).1, p.second)
      else Pair(Steps(p.world, p.second, input, max, n).0, p.first, Steps(p.world, p.second, input, max, n).1)
  {
    if n == 0 {
      assert schedule + seq(n, _ => (mine, input)) == schedule;
    } else {
      InterleaveMany(schedule, mine, input, max, n - 1);
      InterleaveNext(schedule + seq(n - 1, _ => (mine, input)), mine, input, max);
      assert schedule + seq(n, _ => (mine, input)) == schedule + seq(n - 1, _ => (mine, input)) + [(mine, input)];
    }
  }

  const ROW := Attempt(false, false, 1, 1, 7, true, Absent)
  const ROW_REKEYED := Attempt(false, false, 1, 2, 8, true, Absent)
  const ROW_MARKED := Attempt(false, true, 2, 2, 8, true, Absent)
  const FIRST := Go(7, true, Observed(Running))
  const SECOND := Go(8, true, Observed(Running))

  /** The first controller creates the Attempt, holds its bearer and views it again. */
  lemma FirstViews(max: nat) returns (schedule: seq<(bool, Input)>)
    ensures Interleave(schedule, max) ==
      Pair(World(Durable(true, 2, [ROW]), [Created(0, 7)]), Local(map[0 := Held(7, 1)], Refreshing(0)), NEW_CONTROLLER)
  {
    InterleaveMany([], true, FIRST, max, 6);
    FirstAttempt(7, Observed(Running), max);
    schedule := [] + seq(6, _ => (true, FIRST));
  }

  /** The second one, which never held a bearer, rekeys and gets ready to launch. */
  lemma SecondRekeys(max: nat) returns (schedule: seq<(bool, Input)>)
    ensures Interleave(schedule, max) ==
      Pair(World(Durable(true, 2, [ROW_REKEYED]), [Created(0, 7), Rekeyed(0, 8)]),
           Local(map[0 := Held(7, 1)], Refreshing(0)), Local(map[0 := Held(8, 2)], Launching(0, 1, 2)))
  {
    schedule := FirstViews(max);
    InterleaveMany(schedule, false, SECOND, max, 4);
    schedule := schedule + seq(4, _ => (false, SECOND));
    var w1 := World(Durable(true, 2, [ROW]), [Created(0, 7)]);
    var w2 := World(Durable(true, 2, [ROW_REKEYED]), [Created(0, 7), Rekeyed(0, 8)]);
    assert Steps(w1, NEW_CONTROLLER, SECOND, max, 0) == (w1, NEW_CONTROLLER);
    assert Steps(w1, NEW_CONTROLLER, SECOND, max, 1) == (w1, Local(map[], NeedBearer(0, 1)));
    assert [ROW][0 := ROW_REKEYED] == [ROW_REKEYED] && w1.trace + [Rekeyed(0, 8)] == w2.trace;
    assert Steps(w1, NEW_CONTROLLER, SECOND, max, 2) == (w2, Local(map[], Rekeying(0, Held(8, 2))));
    assert Steps(w1, NEW_CONTROLLER, SECOND, max, 3) == (w2, Local(map[0 := Held(8, 2)], Refreshing(0)));
    assert Steps(w1, NEW_CONTROLLER, SECOND, max, 4) == (w2, Local(map[0 := Held(8, 2)], Launching(0, 1, 2)));
  }

  /** The first one refreshes, marks contact and launches with its old bearer. */
  lemma FirstLaunches(max: nat) returns (schedule: seq<(bool, Input)>)
    ensures var p := Interleave(schedule, max);
      && p.world == World(Durable(true, 2, [ROW_MARKED]),
           [Created(0, 7), Rekeyed(0, 8), Marked(0), Launched(0, 7, Observed(Running))])
      && p.second == Local(map[0 := Held(8, 2)], Launching(0, 1, 2))
  {
    schedule := SecondRekeys(max);
    InterleaveMany(schedule, true, FIRST, max, 3);
    schedule := schedule + seq(3, _ => (true, FIRST));
    var w2 := World(Durable(true, 2, [ROW_REKEYED]), [Created(0, 7), Rekeyed(0, 8)]);
    var w3 := World(Durable(true, 2, [ROW_MARKED]), [Created(0, 7), Rekeyed(0, 8), Marked(0)]);
    var l := Local(map[0 := Held(7, 1)], Refreshing(0));
    assert Steps(w2, l, FIRST, max, 0) == (w2, l);
    assert Steps(w2, l, FIRST, max, 1) == (w2, l.(point := Launching(0, 1, 2)));
    assert [ROW_REKEYED][0 := ROW_MARKED] == [ROW_MARKED] && w2.trace + [Marked(0)] == w3.trace;
    assert Steps(w2, l, FIRST, max, 2) == (w3, l.(point := Contacting(0, 7)));
    assert w3.trace + [Launched(0, 7, Observed(Running))] ==
      [Created(0, 7), Rekeyed(0, 8), Marked(0), Launched(0, 7, Observed(Running))];
    assert Steps(w2, l, FIRST, max, 3).0.durable == w3.durable;
  }

  /** Why one controller at a time: a second one rekeys between the first one's view and its refresh.
      The first then launches with a bearer the session no longer accepts, and both launch. */
  lemma TwoControllersLaunchTwice(max: nat)
    ensures exists schedule ::
      var w := Interleave(schedule, max).world;
      && Summary(w.trace, 0).launches == 2
      && Launched(0, 7, Observed(Running)) in w.trace
      && |w.durable.attempts| == 1 && w.durable.attempts[0].verifier == 8
  {
    var schedule := FirstLaunches(max);
    var w3 := Interleave(schedule, max).world;
    InterleaveMany(schedule, false, SECOND, max, 2);
    schedule := schedule + seq(2, _ => (false, SECOND));
    var l := Local(map[0 := Held(8, 2)], Launching(0, 1, 2));
    var w4 := World(w3.durable, w3.trace + [Launched(0, 8, Observed(Running))]);
    assert Steps(w3, l, SECOND, max, 0) == (w3, l);
    assert Steps(w3, l, SECOND, max, 1) == (w3, l.(point := Contacting(0, 8)));
    assert Steps(w3, l, SECOND, max, 2).0 == w4;
    LaunchesCounted(w4.trace);
    assert Interleave(schedule, max).world == w4;
    assert w4.trace[3] == Launched(0, 7, Observed(Running));
  }

  lemma LaunchesCounted(trace: seq<Event>)
    requires trace == [Created(0, 7), Rekeyed(0, 8), Marked(0), Launched(0, 7, Observed(Running)),
      Launched(0, 8, Observed(Running))]
    ensures Summary(trace, 0).launches == 2
  {
    SummaryAppend([], trace[0]);
    SummaryAppend([trace[0]], trace[1]);
    SummaryAppend([trace[0], trace[1]], trace[2]);
    SummaryAppend([trace[0], trace[1], trace[2]], trace[3]);
    SummaryAppend([trace[0], trace[1], trace[2], trace[3]], trace[4]);
    assert [] + [trace[0]] == [trace[0]];
    assert [trace[0]] + [trace[1]] == [trace[0], trace[1]];
    assert [trace[0], trace[1]] + [trace[2]] == [trace[0], trace[1], trace[2]];
    assert [trace[0], trace[1], trace[2]] + [trace[3]] == [trace[0], trace[1], trace[2], trace[3]];
    assert [trace[0], trace[1], trace[2], trace[3]] + [trace[4]] == trace;
  }
}
