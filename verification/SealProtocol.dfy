/** One worker's seal as its callers run it: open the request row, fence the Workspace, capture its
    tree, publish, and record how it ended. Fence and publication are durable commands whose identity
    is derived from the request and the authority it claims. Any number of callers, workers, other
    writers and disaster restores interleave, and a caller may die between any two steps.

    Artifact names are symbolic: over one base a name stands for one captured tree, which is what
    `Sealing.ArtifactDeterministic` and `Sealing.SealedPatchRoundTrip` show of the real ones. */
module SealProtocol {
  import opened Wrappers
  import opened SealIdentity
  import Canonical
  import Kernel = CommandKernel
  import Content = Artifact

  type Tree = Content.Tree

  // ---------------------------------------------------------------- the store's transactions

  datatype Phase = Ready | Frozen | Elsewhere

  /** The Workspace row; every change of it moves its revision. */
  datatype Row = Row(phase: Phase, present: bool, revision: nat)

  datatype Name = Named(tree: Tree)

  datatype Record = Record(attempt: Text, artifact: Name)

  datatype State = Started | Succeeded(name: Name) | Refused

  datatype Request = Request(hash: Kernel.Hash, state: State)

  /** What a session stores of its bearer. Bearers are random, so one is drawn in one generation. */
  datatype Verifier = Verifier(generation: Text, draw: nat)

  /** The part of the database a seal reads and writes: the Workspace row, the authority claims that
      would pass `validate_seal_authority` now, the active sessions, the request rows, the Artifacts
      and the production records. */
  datatype Domain = Domain(
    row: Row,
    authority: set<Authority>,
    sessions: map<Text, Verifier>,
    requests: map<(Text, Text), Request>,
    artifacts: set<Name>,
    production: map<(Text, Text), Record>)

  type Db = Kernel.Db<Domain>
  type Reply = Result<(Domain, ()), Kernel.Error>

  const NOT_FREEZABLE := Kernel.Mutation(1)
  const AUTHORITY_INVALID := Kernel.Mutation(2)
  const REVISION_CONFLICT := Kernel.Mutation(3)
  const CONTENT_CONFLICT := Kernel.Mutation(4)
  const NOT_FROZEN := Kernel.Mutation(5)

  function Freezing(d: Domain, authority: Authority, expected: nat): Reply {
    if !d.row.phase.Ready? || !d.row.present then Err(NOT_FREEZABLE)
    else if authority !in d.authority then Err(AUTHORITY_INVALID)
    else if d.row.revision != expected then Err(REVISION_CONFLICT)
    else Ok((d.(row := Row(Frozen, true, expected + 1)), ()))
  }

  function Validating(d: Domain, authority: Authority, expected: nat): Reply {
    if d.row.revision != expected then Err(REVISION_CONFLICT)
    else if !d.row.phase.Frozen? || !d.row.present then Err(NOT_FREEZABLE)
    else if authority !in d.authority then Err(AUTHORITY_INVALID)
    else Ok((d, ()))
  }

  function Publishing(d: Domain, call: Call, fence: nat, tree: Tree): Reply {
    var slot, record := (call.authority.run, call.slot), Record(call.attempt, Named(tree));
    if !d.row.phase.Frozen? || d.row.revision != fence then Err(AUTHORITY_INVALID)
    else if call.authority !in d.authority then Err(AUTHORITY_INVALID)
    else if slot in d.production && d.production[slot] != record then Err(CONTENT_CONFLICT)
    else Ok((d.(artifacts := d.artifacts + {Named(tree)}, production := d.production[slot := record]), ()))
  }

  function Failing(d: Domain, expected: nat): Reply {
    if d.row.revision != expected then Err(REVISION_CONFLICT)
    else if !d.row.phase.Frozen? then Err(NOT_FROZEN)
    else Ok((d, ()))
  }

  // ---------------------------------------------------------------- the callers

  /** One call of `seal_artifact`: its credential, its request and the hash over request and slot; and
      the generation and authority it reads on the way. */
  datatype Call = Call(
    attempt: Text, verifier: Verifier, request: Text, short: Text, hash: Kernel.Hash, slot: Text,
    epoch: Text, authority: Authority)

  datatype Answer = Executed(name: Name) | Recorded(name: Name) | Declined | Failed

  datatype Point =
    | Asking
    | Describing
    | Reading
    | Starting
    | Quiescing(row: Row)
    | Rereading
    | Capturing(fence: nat)
    | Committing(fence: nat, tree: Tree, held: bool)
    | Reporting(fence: nat)
    | Refusing
    | Completing(fence: nat, tree: Tree, held: bool)
    | Ended(answer: Answer)

  /** `published` remembers whether this caller's own publication executed, and `held` at a point
      whether the row was still at the fence when the tree was captured; no step reads either. */
  datatype Local = Local(call: Call, point: Point, published: bool)

  /** How command identities are derived, and the slot a request hash was taken over. */
  datatype Scheme = Scheme(id: (Text, Text, Operation) -> Text, slotOf: Kernel.Hash -> Text)

  ghost predicate PlainStep(call: Call, operation: Operation) {
    Plain(call.attempt) && Plain(call.short) && PlainOperation(operation)
  }

  predicate Clash(x: Scheme, a: Call, o: Operation, b: Call, p: Operation) {
    x.id(a.attempt, a.short, o) == x.id(b.attempt, b.short, p)
  }

  /** Identities tell requests, steps, revisions and authorities apart, and stay in their namespace. */
  ghost predicate Faithful(x: Scheme) {
    && (forall a: Call, o, b: Call, p {:trigger Clash(x, a, o, b, p)} |
          PlainStep(a, o) && PlainStep(b, p) && Clash(x, a, o, b, p) ::
          a.attempt == b.attempt && a.short == b.short && o == p)
    && (forall a: Call, o {:trigger Outside(KeyOf(x, a, o))} :: !Outside(KeyOf(x, a, o)))
  }

  /** The identities the sealer derives. */
  function Derivation(slotOf: Kernel.Hash -> Text): Scheme {
    Scheme((attempt, short, operation) => Derived(attempt, short, operation), slotOf)
  }

  lemma DerivationFaithful(slotOf: Kernel.Hash -> Text)
    ensures Faithful(Derivation(slotOf))
  {
    var x := Derivation(slotOf);
    forall a: Call, o, b: Call, p | PlainStep(a, o) && PlainStep(b, p) && Clash(x, a, o, b, p)
      ensures a.attempt == b.attempt && a.short == b.short && o == p
    {
      DerivedInjective(a.attempt, a.short, o, b.attempt, b.short, p);
    }
    forall a: Call, o ensures !Outside(KeyOf(x, a, o)) {
      Canonical.Cut("acs:", KeyOf(x, a, o).id[4..]);
    }
  }

  /** The database with its history, the Workspace's tree on disk, the callers, and what the proofs
      remember: the tree each frozen revision of this generation was first seen with, and the tree
      behind each executed publication. */
  datatype System = System(
    scheme: Scheme, kernel: Kernel.World<Domain>, tree: Tree, callers: map<nat, Local>,
    frozen: map<nat, Tree>, log: map<Kernel.Key, Tree>)

  function Store(s: System): Domain {
    s.kernel.db.domain
  }

  function KeyOf(x: Scheme, call: Call, operation: Operation): Kernel.Key {
    Kernel.Key(call.epoch, x.id(call.attempt, call.short, operation))
  }

  /** The identity of the call's publication under a fence. */
  function PublicationOf(x: Scheme, call: Call, fence: nat): Kernel.Key {
    KeyOf(x, call, Publish(fence, call.authority))
  }

  function CommandOf(x: Scheme, call: Call, operation: Operation): Kernel.Command {
    Kernel.Command(KeyOf(x, call, operation), call.hash, EventType(operation))
  }

  function Mutator(call: Call, operation: Operation, tree: Tree): Kernel.Mutator<Domain, ()> {
    match operation
    case Freeze(revision, authority) => (d: Domain) => Freezing(d, authority, revision)
    case Validate(revision, authority) => (d: Domain) => Validating(d, authority, revision)
    case Publish(revision, _) => (d: Domain) => Publishing(d, call, revision, tree)
    case Failure(revision) => (d: Domain) => Failing(d, revision)
  }

  type Outcome = Result<Kernel.Outcome<()>, Kernel.Error>

  predicate Ran(outcome: Outcome) {
    outcome.Ok? && outcome.value.Executed?
  }

  /** One derived command through the kernel. */
  function Commit(s: System, call: Call, operation: Operation, tree: Tree, draw: Kernel.Draw): (System, Outcome) {
    var command, mutation := CommandOf(s.scheme, call, operation), Mutator(call, operation, tree);
    var answer := Kernel.Executing(s.kernel.db, command, mutation, draw).1;
    var after := s.(kernel := Kernel.Step(s.kernel, Kernel.Call(command, mutation, draw)));
    (if Ran(answer) && operation.Publish? then after.(log := s.log[command.key := tree]) else after, answer)
  }

  /** One plain transaction: no command, no Event. */
  function Written(s: System, d: Domain): System {
    s.(kernel := Kernel.Advance(s.kernel, s.kernel.db.(domain := d)))
  }

  /** `judge_session`: the session's generation is in force and its verifier matches. */
  predicate Authorized(db: Db, call: Call) {
    && db.generation == Some(call.verifier.generation)
    && call.attempt in db.domain.sessions && db.domain.sessions[call.attempt] == call.verifier
  }

  function RowKey(call: Call): (Text, Text) {
    (call.attempt, call.request)
  }

  function WithRow(d: Domain, key: (Text, Text), row: Request): Domain {
    d.(requests := d.requests[key := row])
  }

  /** What the outside world contributes to one step: a crash, or what is drawn, found and claimed. */
  datatype Input = Crash | Go(draw: Kernel.Draw, well: bool, authority: Authority)

  predicate AtDesk(point: Point) {
    point.Asking? || point.Refusing? || point.Completing?
  }

  /** `open_agent_request`, and what the gateway makes of its answer. */
  function Open(s: System, l: Local, well: bool): (System, Local) {
    var d, key := Store(s), RowKey(l.call);
    if !Authorized(s.kernel.db, l.call) then (s, l.(point := Ended(Failed)))
    else if key in d.requests then
      if d.requests[key].hash != l.call.hash then (s, l.(point := Ended(Failed)))
      else match d.requests[key].state
        case Started => (s, l.(point := Describing))
        case Succeeded(name) => (s, l.(point := Ended(Recorded(name))))
        case Refused => (s, l.(point := Ended(Declined)))
    else if !well then (s, l.(point := Ended(Failed)))
    else (Written(s, WithRow(d, key, Request(l.call.hash, Started))), l.(point := Describing))
  }

  /** `complete_agent_request`: a row found SUCCEEDED is left alone, whatever it names. */
  function Complete(s: System, l: Local, name: Name): (System, Local) {
    var d, key := Store(s), RowKey(l.call);
    if !Authorized(s.kernel.db, l.call) || key !in d.requests || d.requests[key].state.Refused? then
      (s, l.(point := Ended(Failed)))
    else if d.requests[key].state.Succeeded? then (s, l.(point := Ended(Executed(name))))
    else
      (Written(s, WithRow(d, key, d.requests[key].(state := Succeeded(name)))), l.(point := Ended(Executed(name))))
  }

  /** `fail_agent_request`, whose own failure is ignored. */
  function Refuse(s: System, l: Local): (System, Local) {
    var d, key := Store(s), RowKey(l.call);
    if Authorized(s.kernel.db, l.call) && key in d.requests && d.requests[key].state.Started? then
      (Written(s, WithRow(d, key, d.requests[key].(state := Refused))), l.(point := Ended(Failed)))
    else (s, l.(point := Ended(Failed)))
  }

  /** The steps that touch the request row. */
  function Desk(s: System, l: Local, well: bool): (System, Local)
    requires AtDesk(l.point)
  {
    match l.point
    case Asking => Open(s, l, well)
    case Completing(_, tree, _) => Complete(s, l, Named(tree))
    case Refusing => Refuse(s, l)
  }

  /** The steps that run a derived command. */
  predicate Drives(point: Point) {
    || (point.Quiescing? && (point.row.phase.Ready? || (point.row.phase.Frozen? && point.row.present)))
    || point.Committing? || point.Reporting?
  }

  function OperationAt(l: Local): Operation
    requires Drives(l.point)
  {
    match l.point
    case Quiescing(read) =>
      if read.phase.Ready? then Freeze(read.revision, l.call.authority) else Validate(read.revision, l.call.authority)
    case Committing(fence, _, _) => Publish(fence, l.call.authority)
    case Reporting(fence) => Failure(fence)
  }

  function TreeAt(l: Local): Tree {
    if l.point.Committing? then l.point.tree else map[]
  }

  /** Where a command's answer leads: a failed publication is reported before the request is refused. */
  function Led(l: Local, outcome: Outcome): Local
    requires Drives(l.point)
  {
    match l.point
    case Quiescing(read) =>
      if outcome.Err? then l.(point := Refusing)
      else l.(point := if read.phase.Ready? then Rereading else Capturing(read.revision))
    case Committing(fence, tree, held) =>
      if outcome.Err? then l.(point := Reporting(fence))
      else l.(point := Completing(fence, tree, held), published := Ran(outcome))
    case Reporting(_) => l.(point := Refusing)
  }

  predicate TooLong(s: System, l: Local)
    requires Drives(l.point)
  {
    |s.scheme.id(l.call.attempt, l.call.short, OperationAt(l))| > MAX_COMMAND_ID
  }

  function Drive(s: System, l: Local, draw: Kernel.Draw): (System, Local)
    requires Drives(l.point)
  {
    if TooLong(s, l) then (s, Led(l, Err(Kernel.Storage)))
    else
      var (after, outcome) := Commit(s, l.call, OperationAt(l), TreeAt(l), draw);
      (after, Led(l, outcome))
  }

  /** The steps that only read, or capture the tree. */
  function Look(s: System, l: Local, well: bool, authority: Authority): Local {
    var row := Store(s).row;
    match l.point
    case Describing => l.(point := if Authorized(s.kernel.db, l.call) && well then Reading else Refusing)
    case Reading =>
      if s.kernel.db.generation.None? || !Plain(authority.run) then l.(point := Refusing)
      else l.(call := l.call.(epoch := s.kernel.db.generation.value, authority := authority), point := Starting)
    case Starting => l.(point := Quiescing(row))
    case Quiescing(_) => l.(point := Refusing)
    case Rereading => l.(point := if row.phase.Frozen? && row.present then Capturing(row.revision) else Refusing)
    case Capturing(fence) =>
      l.(point := if well then Committing(fence, s.tree, row.revision == fence) else Reporting(fence))
    case _ => l
  }

  /** One step of one caller, between two points where others may run. */
  function Turn(s: System, l: Local, input: Input): (System, Local) {
    if input.Crash? then (s, if l.point.Ended? then l else l.(point := Ended(Failed)))
    else if AtDesk(l.point) then Desk(s, l, input.well)
    else if Drives(l.point) then Drive(s, l, input.draw)
    else (s, Look(s, l, input.well, input.authority))
  }

  datatype Action =
    | Begin(caller: nat, call: Call)
    | Continue(caller: nat, input: Input)
    | Foreign(command: Option<Kernel.Command>, after: Domain, draw: Kernel.Draw)
    | Restore(snapshot: nat, generation: Text, journalEpoch: Option<Text>)
    | Write(tree: Tree)

  /** What every transaction respects: a changed row has a new revision, Artifacts and production
      records stay, request rows keep their hash and change only from STARTED. */
  predicate Onward(d: Domain, after: Domain) {
    && (after.row == d.row || after.row.revision > d.row.revision)
    && d.artifacts <= after.artifacts
    && (forall k | k in d.production :: k in after.production && after.production[k] == d.production[k])
    && (forall k | k in d.requests ::
          && k in after.requests && after.requests[k].hash == d.requests[k].hash
          && (!d.requests[k].state.Started? ==> after.requests[k] == d.requests[k]))
  }

  /** Other transactions leave existing request rows to the gateway. */
  predicate Rely(d: Domain, after: Domain) {
    Onward(d, after) && forall k | k in d.requests :: k in after.requests && after.requests[k] == d.requests[k]
  }

  /** Not a derived identity. */
  predicate Outside(key: Kernel.Key) {
    |key.id| < 4 || key.id[..4] != "acs:"
  }

  ghost predicate PlainCall(x: Scheme, call: Call) {
    Plain(call.attempt) && Plain(call.short) && Plain(call.authority.run) && call.slot == x.slotOf(call.hash)
  }

  ghost predicate Admissible(s: System, call: Call) {
    PlainCall(s.scheme, call) && s.kernel.db.generation == Some(call.epoch)
  }

  /** Remembers the tree a frozen revision is first seen with. */
  function Noted(s: System): System {
    var row := Store(s).row;
    if row.phase.Frozen? && row.revision !in s.frozen then s.(frozen := s.frozen[row.revision := s.tree]) else s
  }

  function Others(s: System, command: Option<Kernel.Command>, after: Domain, draw: Kernel.Draw): System {
    var mutation := (d: Domain) => Ok((after, ()));
    s.(kernel := Kernel.Step(s.kernel,
      if command.None? then Kernel.Internal("other", mutation, draw)
      else Kernel.Call(command.value, mutation, draw)))
  }

  ghost function Acted(s: System, action: Action): System {
    match action
    case Begin(n, call) =>
      if n in s.callers || !Admissible(s, call) then s
      else s.(callers := s.callers[n := Local(call, Asking, false)])
    case Continue(n, input) =>
      if n !in s.callers then s
      else
        var (after, l) := Turn(s, s.callers[n], input);
        after.(callers := s.callers[n := l])
    case Foreign(command, after, draw) =>
      if !Rely(Store(s), after) || (command.Some? && !Outside(command.value.key)) then s
      else Others(s, command, after, draw)
    case Restore(snapshot, generation, journalEpoch) =>
      var kernel := Kernel.Restored(s.kernel, snapshot, generation, journalEpoch);
      if kernel == s.kernel then s else s.(kernel := kernel, frozen := map[])
    case Write(tree) => s.(tree := tree)
  }

  /** A worker that keeps the fence writes only while the Workspace is not frozen. */
  predicate Keeps(s: System, action: Action) {
    action.Write? ==> !Store(s).row.phase.Frozen?
  }

  ghost function Step(s: System, action: Action, disciplined: bool): System {
    if disciplined && !Keeps(s, action) then s else Noted(Acted(s, action))
  }

  ghost function Run(s: System, actions: seq<Action>, disciplined: bool): System {
    if actions == [] then s
    else Step(Run(s, actions[..|actions| - 1], disciplined), actions[|actions| - 1], disciplined)
  }

  /** A Workspace that is Ready and has produced nothing, and no request yet. */
  predicate Blank(d: Domain) {
    d.row.phase.Ready? && d.requests == map[] && d.artifacts == {} && d.production == map[]
  }

  function Installed(x: Scheme, generation: Text, epoch: Text, d: Domain, tree: Tree): System {
    System(x, Kernel.Install(generation, epoch, d), tree, map[], map[], map[])
  }

  /** Some run from some installation ends here. */
  ghost predicate Reached(s: System, disciplined: bool) {
    Faithful(s.scheme) && exists generation, epoch, d, tree, actions ::
      Blank(d) && s == Run(Installed(s.scheme, generation, epoch, d, tree), actions, disciplined)
  }

  // ---------------------------------------------------------------- what every step keeps

  /** The row is past the fence, or exactly as fenced. */
  ghost predicate Held(s: System, fence: nat) {
    && fence in s.frozen && Store(s).row.revision >= fence
    && (Store(s).row.revision == fence ==> Store(s).row == Row(Frozen, true, fence))
  }

  ghost predicate Replayable(s: System, call: Call, fence: nat) {
    var key := PublicationOf(s.scheme, call, fence);
    && s.kernel.db.generation == Some(call.epoch)
    && key in s.kernel.db.ledger && s.kernel.db.ledger[key].hash == call.hash
  }

  /** What a caller of the generation in force may rely on at its point. */
  ghost predicate PointSound(s: System, l: Local, disciplined: bool) {
    match l.point
    case Quiescing(read) =>
      && Store(s).row.revision >= read.revision
      && (Store(s).row.revision == read.revision ==> Store(s).row == read)
      && (read.phase.Frozen? ==> read.revision in s.frozen)
    case Capturing(fence) => Held(s, fence)
    case Committing(fence, tree, held) =>
      && Held(s, fence)
      && (Store(s).row.revision == fence ==> held)
      && (disciplined && held ==> tree == s.frozen[fence])
    case Completing(fence, tree, held) =>
      && fence in s.frozen && Replayable(s, l.call, fence)
      && (disciplined && held ==> tree == s.frozen[fence])
      && (l.published ==> Logged(s, l.call, fence, tree))
    case _ => true
  }

  ghost predicate Logged(s: System, call: Call, fence: nat, tree: Tree) {
    PublicationOf(s.scheme, call, fence) in s.log && s.log[PublicationOf(s.scheme, call, fence)] == tree
  }

  /** Past the opening of its request row. */
  predicate Opened(point: Point) {
    !point.Asking? && !point.Ended?
  }

  /** Past the reading of the generation and the authority. */
  predicate Driving(point: Point) {
    Opened(point) && !point.Describing? && !point.Reading? && !point.Refusing?
  }

  ghost predicate RowOpen(s: System, call: Call) {
    RowKey(call) in Store(s).requests && Store(s).requests[RowKey(call)].hash == call.hash
  }

  /** While the session's generation is in force, the row is there and the generation was read so. */
  ghost predicate TicketSound(s: System, l: Local) {
    Opened(l.point) ==>
      && l.call.verifier.generation in s.kernel.generations
      && (s.kernel.db.generation == Some(l.call.verifier.generation) ==>
            RowOpen(s, l.call) && (Driving(l.point) ==> l.call.epoch == l.call.verifier.generation))
  }

  ghost predicate LocalSound(s: System, l: Local, disciplined: bool) {
    && PlainCall(s.scheme, l.call) && l.call.epoch in s.kernel.generations && TicketSound(s, l)
    && (s.kernel.db.generation == Some(l.call.epoch) ==> PointSound(s, l, disciplined))
    && (l.published ==> l.point.Completing? || l.point.Ended?)
  }

  ghost predicate CallersSound(s: System, disciplined: bool) {
    forall n | n in s.callers :: LocalSound(s, s.callers[n], disciplined)
  }

  ghost predicate FrozenSound(s: System, disciplined: bool) {
    && (forall r | r in s.frozen :: r <= Store(s).row.revision)
    && (Store(s).row.phase.Frozen? ==> Store(s).row.revision in s.frozen)
    && (disciplined && Store(s).row.phase.Frozen? ==> s.frozen[Store(s).row.revision] == s.tree)
  }

  /** Stored, and recorded as what this Attempt produced for the Run's slot. */
  ghost predicate Produced(s: System, call: Call, artifact: Name) {
    && artifact in Store(s).artifacts
    && (call.authority.run, call.slot) in Store(s).production
    && Store(s).production[(call.authority.run, call.slot)] == Record(call.attempt, artifact)
  }

  /** What an executed publication left: its Artifact, and its production record for the slot. */
  ghost predicate Kept(s: System, call: Call, fence: nat, disciplined: bool) {
    var key := PublicationOf(s.scheme, call, fence);
    && key in s.log && fence in s.frozen && Produced(s, call, Named(s.log[key]))
    && (disciplined ==> s.log[key] == s.frozen[fence])
  }

  ghost predicate LedgerSound(s: System, disciplined: bool) {
    forall call: Call, fence: nat | PlainCall(s.scheme, call) && Replayable(s, call, fence) ::
      Kept(s, call, fence, disciplined)
  }

  ghost predicate Sound(s: System, disciplined: bool) {
    CallersSound(s, disciplined) && FrozenSound(s, disciplined) && LedgerSound(s, disciplined)
  }

  ghost predicate Invariant(s: System, disciplined: bool) {
    Kernel.Invariant(s.kernel) && Sound(s, disciplined)
  }

  /** Any step but a restore: the generation stays, the rows move onward, and nothing remembered of an
      older fence or publication changes. */
  ghost predicate Within(s: System, t: System) {
    && t.scheme == s.scheme
    && t.kernel.db.generation == s.kernel.db.generation && t.kernel.generations == s.kernel.generations
    && Onward(Store(s), Store(t))
    && (forall r | r in s.frozen :: r in t.frozen && t.frozen[r] == s.frozen[r])
    && (forall k | k in s.kernel.db.ledger ::
          k in t.kernel.db.ledger && t.kernel.db.ledger[k] == s.kernel.db.ledger[k])
    && (forall k | k in s.kernel.db.ledger && k in s.log :: k in t.log && t.log[k] == s.log[k])
  }

  /** No publication joined the ledger. */
  ghost predicate NothingPublished(s: System, t: System) {
    forall call: Call, fence: nat | PlainCall(s.scheme, call) && Replayable(t, call, fence) ::
      Replayable(s, call, fence)
  }

  lemma PointStays(s: System, t: System, l: Local, disciplined: bool)
    requires Within(s, t) && PointSound(s, l, disciplined)
    ensures PointSound(t, l, disciplined)
  {
  }

  lemma LocalStays(s: System, t: System, l: Local, disciplined: bool)
    requires Within(s, t) && LocalSound(s, l, disciplined)
    ensures LocalSound(t, l, disciplined)
  {
    if t.kernel.db.generation == Some(l.call.epoch) { PointStays(s, t, l, disciplined); }
  }

  lemma LedgerStays(s: System, t: System, disciplined: bool)
    requires Within(s, t) && NothingPublished(s, t) && LedgerSound(s, disciplined)
    ensures LedgerSound(t, disciplined)
  {
    forall call: Call, fence: nat | PlainCall(s.scheme, call) && Replayable(t, call, fence)
      ensures Kept(t, call, fence, disciplined)
    {
      assert Replayable(s, call, fence);
      assert Kept(s, call, fence, disciplined);
    }
  }

  lemma CallersStay(s: System, t: System, disciplined: bool)
    requires Within(s, t) && CallersSound(s, disciplined) && t.callers == s.callers
    ensures CallersSound(t, disciplined)
  {
    forall n | n in t.callers ensures LocalSound(t, t.callers[n], disciplined) {
      LocalStays(s, t, s.callers[n], disciplined);
    }
  }

  /** Noting a frozen revision: nothing older changes, and what is noted is what is there. */
  lemma NotedSound(s: System, t: System, disciplined: bool)
    requires FrozenSound(s, disciplined) && Onward(Store(s), Store(t)) && t.frozen == s.frozen
    requires disciplined ==> t.tree == s.tree || !Store(s).row.phase.Frozen?
    ensures FrozenSound(Noted(t), disciplined)
    ensures forall r | r in s.frozen :: r in Noted(t).frozen && Noted(t).frozen[r] == s.frozen[r]
  {
  }

  lemma NotedLedger(t: System, disciplined: bool)
    requires LedgerSound(t, disciplined)
    ensures LedgerSound(Noted(t), disciplined)
  {
    forall call: Call, fence: nat | PlainCall(t.scheme, call) && Replayable(Noted(t), call, fence)
      ensures Kept(Noted(t), call, fence, disciplined)
    {
      assert Replayable(t, call, fence);
      assert Kept(t, call, fence, disciplined);
    }
  }

  lemma NotedWithin(s: System, t: System, disciplined: bool)
    requires Within(s, t) && t.frozen == s.frozen && FrozenSound(s, disciplined)
    requires disciplined ==> t.tree == s.tree || !Store(s).row.phase.Frozen?
    ensures Within(s, Noted(t)) && FrozenSound(Noted(t), disciplined)
  {
    NotedSound(s, t, disciplined);
  }

  // ---------------------------------------------------------------- one derived command

  lemma MutationOnward(d: Domain, call: Call, operation: Operation, tree: Tree)
    ensures var answer := Mutator(call, operation, tree)(d); answer.Ok? ==> Onward(d, answer.value.0)
  {
  }

  /** What a derived command commits: its row and its mutation, or nothing. */
  lemma CommitEffect(s: System, call: Call, operation: Operation, tree: Tree, draw: Kernel.Draw)
    ensures var (t, answer) := Commit(s, call, operation, tree, draw);
      var key, before, after := KeyOf(s.scheme, call, operation), s.kernel.db, t.kernel.db;
      && t.scheme == s.scheme && t.tree == s.tree && t.callers == s.callers && t.frozen == s.frozen
      && t.kernel.generations == s.kernel.generations
      && (answer.Ok? ==> before.generation == Some(call.epoch))
      && if Ran(answer) then
           && key !in before.ledger && after.generation == before.generation
           && after.ledger == before.ledger[key := Kernel.Row(call.hash, answer.value.cursor, draw.now)]
           && Mutator(call, operation, tree)(before.domain).Ok?
           && after.domain == Mutator(call, operation, tree)(before.domain).value.0
           && t.log == (if operation.Publish? then s.log[key := tree] else s.log)
         else
           && after == before && t.log == s.log
           && (answer.Ok? ==> key in before.ledger && before.ledger[key].hash == call.hash)
  {
    Kernel.ExecutingCommits(s.kernel.db, CommandOf(s.scheme, call, operation), Mutator(call, operation, tree), draw);
  }

  lemma CommitWithin(s: System, call: Call, operation: Operation, tree: Tree, draw: Kernel.Draw)
    ensures Within(s, Commit(s, call, operation, tree, draw).0)
  {
    CommitEffect(s, call, operation, tree, draw);
    MutationOnward(s.kernel.db.domain, call, operation, tree);
  }

  /** Only a publication's own command puts a publication into the ledger. */
  lemma OtherCommit(s: System, call: Call, operation: Operation, tree: Tree, draw: Kernel.Draw)
    requires Faithful(s.scheme) && PlainStep(call, operation) && !operation.Publish?
    ensures NothingPublished(s, Commit(s, call, operation, tree, draw).0)
  {
    CommitEffect(s, call, operation, tree, draw);
    var t := Commit(s, call, operation, tree, draw).0;
    forall c: Call, fence: nat | PlainCall(s.scheme, c) && Replayable(t, c, fence) ensures Replayable(s, c, fence) {
      if PublicationOf(s.scheme, c, fence) == KeyOf(s.scheme, call, operation) {
        assert Clash(s.scheme, c, Publish(fence, c.authority), call, operation);
      }
    }
  }

  /** An executed publication is recorded, under the fence it names. */
  lemma PublicationRecorded(s: System, call: Call, fence: nat, tree: Tree, draw: Kernel.Draw, disciplined: bool)
    requires fence in s.frozen && (disciplined && Store(s).row.revision == fence ==> tree == s.frozen[fence])
    ensures var (t, answer) := Commit(s, call, Publish(fence, call.authority), tree, draw);
      Ran(answer) ==>
        && Kept(t, call, fence, disciplined) && Logged(t, call, fence, tree)
        && Store(s).row.phase.Frozen? && Store(s).row.revision == fence && Store(t).row == Store(s).row
  {
    CommitEffect(s, call, Publish(fence, call.authority), tree, draw);
  }

  lemma PublicationKeeps(s: System, call: Call, fence: nat, tree: Tree, draw: Kernel.Draw, disciplined: bool)
    requires Faithful(s.scheme) && LedgerSound(s, disciplined) && PlainCall(s.scheme, call)
    requires s.kernel.db.generation == Some(call.epoch) ==>
      fence in s.frozen && (disciplined && Store(s).row.revision == fence ==> tree == s.frozen[fence])
    ensures LedgerSound(Commit(s, call, Publish(fence, call.authority), tree, draw).0, disciplined)
  {
    var (t, answer) := Commit(s, call, Publish(fence, call.authority), tree, draw);
    CommitEffect(s, call, Publish(fence, call.authority), tree, draw);
    CommitWithin(s, call, Publish(fence, call.authority), tree, draw);
    if Ran(answer) {
      PublicationRecorded(s, call, fence, tree, draw, disciplined);
      forall c: Call, f: nat | PlainCall(s.scheme, c) && Replayable(t, c, f) ensures Kept(t, c, f, disciplined) {
        if PublicationOf(s.scheme, c, f) == PublicationOf(s.scheme, call, fence) {
          assert Clash(s.scheme, c, Publish(f, c.authority), call, Publish(fence, call.authority));
        } else {
          assert Replayable(s, c, f);
          assert Kept(s, c, f, disciplined);
        }
      }
    } else {
      LedgerStays(s, t, disciplined);
    }
  }

  // ---------------------------------------------------------------- one step of a caller

  /** What a caller's step leaves alone, and that the ledger stays sound. */
  ghost predicate Steady(s: System, t: System, disciplined: bool) {
    && Within(s, t) && LedgerSound(t, disciplined)
    && t.tree == s.tree && t.frozen == s.frozen && t.callers == s.callers
  }

  lemma CommitSteady(s: System, call: Call, operation: Operation, tree: Tree, draw: Kernel.Draw, disciplined: bool)
    requires Faithful(s.scheme) && LedgerSound(s, disciplined) && PlainCall(s.scheme, call)
    requires operation.Failure? || operation.authority == call.authority
    requires operation.Publish? && s.kernel.db.generation == Some(call.epoch) ==>
      && operation.revision in s.frozen
      && (disciplined && Store(s).row.revision == operation.revision ==> tree == s.frozen[operation.revision])
    ensures Steady(s, Commit(s, call, operation, tree, draw).0, disciplined)
  {
    var t := Commit(s, call, operation, tree, draw).0;
    CommitEffect(s, call, operation, tree, draw);
    CommitWithin(s, call, operation, tree, draw);
    if operation.Publish? {
      PublicationKeeps(s, call, operation.revision, tree, draw, disciplined);
    } else {
      OtherCommit(s, call, operation, tree, draw);
      LedgerStays(s, t, disciplined);
    }
  }

  lemma WrittenSteady(s: System, d: Domain, disciplined: bool)
    requires Onward(Store(s), d) && LedgerSound(s, disciplined)
    ensures Steady(s, Written(s, d), disciplined)
  {
    LedgerStays(s, Written(s, d), disciplined);
  }

  lemma SelfSteady(s: System, disciplined: bool)
    requires LedgerSound(s, disciplined)
    ensures Steady(s, s, disciplined)
  {
  }

  /** A row that is new, or was STARTED and keeps its hash, moves the rows onward. */
  lemma RowOnward(d: Domain, key: (Text, Text), row: Request)
    requires key in d.requests ==> d.requests[key].state.Started? && row.hash == d.requests[key].hash
    ensures Onward(d, WithRow(d, key, row))
  {
  }

  /** A step at the desk writes the caller's own row, or nothing. */
  lemma DeskWrites(s: System, l: Local, well: bool)
    requires AtDesk(l.point)
    ensures var d, key, t := Store(s), RowKey(l.call), Desk(s, l, well).0;
      t == s || exists row ::
        && t == Written(s, WithRow(d, key, row))
        && (key in d.requests ==> d.requests[key].state.Started? && row.hash == d.requests[key].hash)
  {
    var d, key := Store(s), RowKey(l.call);
    match l.point {
      case Asking => assert key !in d.requests || Desk(s, l, well).0 == s;
      case Completing(_, tree, _) =>
        if key in d.requests { assert d.requests[key].(state := Succeeded(Named(tree))).hash == d.requests[key].hash; }
      case Refusing => if key in d.requests { assert d.requests[key].(state := Refused).hash == d.requests[key].hash; }
    }
  }

  lemma DeskSteady(s: System, l: Local, well: bool, disciplined: bool)
    requires LedgerSound(s, disciplined) && AtDesk(l.point)
    ensures Steady(s, Desk(s, l, well).0, disciplined)
  {
    DeskWrites(s, l, well);
    var d, key, t := Store(s), RowKey(l.call), Desk(s, l, well).0;
    if t == s {
      SelfSteady(s, disciplined);
    } else {
      var row :| && t == Written(s, WithRow(d, key, row))
                 && (key in d.requests ==> d.requests[key].state.Started? && row.hash == d.requests[key].hash);
      RowOnward(d, key, row);
      WrittenSteady(s, WithRow(d, key, row), disciplined);
    }
  }

  ghost predicate Sane(s: System, l: Local, disciplined: bool) {
    Faithful(s.scheme) && FrozenSound(s, disciplined) && LedgerSound(s, disciplined) && LocalSound(s, l, disciplined)
  }

  lemma DriveSteady(s: System, l: Local, draw: Kernel.Draw, disciplined: bool)
    requires Sane(s, l, disciplined) && Drives(l.point)
    ensures Steady(s, Drive(s, l, draw).0, disciplined)
  {
    SelfSteady(s, disciplined);
    CommitSteady(s, l.call, OperationAt(l), TreeAt(l), draw, disciplined);
  }

  lemma TurnSteady(s: System, l: Local, input: Input, disciplined: bool)
    requires Sane(s, l, disciplined)
    ensures Steady(s, Turn(s, l, input).0, disciplined)
  {
    SelfSteady(s, disciplined);
    if input.Go? {
      if AtDesk(l.point) { DeskSteady(s, l, input.well, disciplined); }
      else if Drives(l.point) { DriveSteady(s, l, input.draw, disciplined); }
    }
  }

  /** Where a command arrives: after a fence the row is held, after a publication its command is in the
      ledger and what it ran is logged. */
  lemma DrivePoint(s: System, l: Local, draw: Kernel.Draw, disciplined: bool)
    requires Sane(s, l, disciplined) && Drives(l.point) && s.kernel.db.generation == Some(l.call.epoch)
    ensures var (t, after) := Drive(s, l, draw); PointSound(t, after, disciplined)
  {
    if l.point.Quiescing? && l.point.row.phase.Frozen? {
      var held := l.(point := Capturing(l.point.row.revision));
      assert PointSound(s, held, disciplined);
      DriveSteady(s, l, draw, disciplined);
      PointStays(s, Drive(s, l, draw).0, held, disciplined);
    }
    if l.point.Committing? { PublicationPoint(s, l, draw, disciplined); }
  }

  lemma PublicationPoint(s: System, l: Local, draw: Kernel.Draw, disciplined: bool)
    requires Sane(s, l, disciplined) && l.point.Committing? && s.kernel.db.generation == Some(l.call.epoch)
    ensures var (t, after) := Drive(s, l, draw); PointSound(t, after, disciplined)
  {
    var fence, tree := l.point.fence, l.point.tree;
    CommitEffect(s, l.call, Publish(fence, l.call.authority), tree, draw);
    CommitWithin(s, l.call, Publish(fence, l.call.authority), tree, draw);
    PublicationRecorded(s, l.call, fence, tree, draw, disciplined);
  }

  lemma LookPoint(s: System, l: Local, well: bool, authority: Authority, disciplined: bool)
    requires Sane(s, l, disciplined) && !AtDesk(l.point) && !Drives(l.point)
    ensures var after := Look(s, l, well, authority);
      s.kernel.db.generation == Some(after.call.epoch) ==> PointSound(s, after, disciplined)
  {
  }

  lemma GenerationStays(s: System, l: Local, input: Input, disciplined: bool)
    requires Sane(s, l, disciplined)
    ensures Turn(s, l, input).0.kernel.db.generation == s.kernel.db.generation
  {
    TurnSteady(s, l, input, disciplined);
  }

  lemma DeskEnds(s: System, l: Local, well: bool)
    requires AtDesk(l.point)
    ensures var after := Desk(s, l, well).1;
      && after.call == l.call && after.published == l.published
      && (after.point.Ended? || (l.point.Asking? && after.point.Describing?))
  {
  }

  /** Where the step arrives agrees with what is stored. */
  lemma TurnPoint(s: System, l: Local, input: Input, disciplined: bool)
    requires Sane(s, l, disciplined)
    ensures var (t, after) := Turn(s, l, input);
      t.kernel.db.generation == Some(after.call.epoch) ==> PointSound(t, after, disciplined)
  {
    GenerationStays(s, l, input, disciplined);
    if input.Go? {
      if AtDesk(l.point) {
        DeskEnds(s, l, input.well);
      } else if Drives(l.point) {
        if s.kernel.db.generation == Some(l.call.epoch) { DrivePoint(s, l, input.draw, disciplined); }
      } else {
        LookPoint(s, l, input.well, input.authority, disciplined);
      }
    }
  }

  /** What a caller's step keeps of its identity and its history. */
  ghost predicate SameCaller(l: Local, after: Local) {
    && RowKey(after.call) == RowKey(l.call) && after.call.verifier == l.call.verifier && after.call.hash == l.call.hash
    && (Opened(after.point) ==> Opened(l.point) || l.point.Asking?)
    && (after.call == l.call || l.point.Reading?)
    && (l.point.Ended? ==> after == l)
    && (after.published != l.published ==> l.point.Committing? && after.point.Completing?)
    && (after.point.Completing? ==> l.point.Committing?)
  }

  lemma TurnCaller(s: System, l: Local, input: Input)
    ensures SameCaller(l, Turn(s, l, input).1)
  {
    if input.Go? && AtDesk(l.point) { DeskEnds(s, l, input.well); }
  }

  /** Once a row is open it stays open, and the generation read while it is in force is its own. */
  lemma TurnTicket(s: System, l: Local, input: Input, disciplined: bool)
    requires Kernel.Invariant(s.kernel) && Sane(s, l, disciplined)
    ensures var (t, after) := Turn(s, l, input);
      TicketSound(t, after) && PlainCall(t.scheme, after.call) && after.call.epoch in t.kernel.generations
  {
    TurnSteady(s, l, input, disciplined);
    TurnCaller(s, l, input);
    if input.Go? && l.point.Asking? { OpenTicket(s, l, input.well); }
  }

  lemma OpenTicket(s: System, l: Local, well: bool)
    requires Kernel.Invariant(s.kernel) && l.point.Asking?
    ensures var (t, after) := Open(s, l, well);
      after.point.Describing? ==> RowOpen(t, l.call) && l.call.verifier.generation in t.kernel.generations
  {
  }

  // ---------------------------------------------------------------- every action, every run

  lemma CommitKernel(s: System, call: Call, operation: Operation, tree: Tree, draw: Kernel.Draw)
    requires Kernel.Invariant(s.kernel)
    ensures Kernel.Invariant(Commit(s, call, operation, tree, draw).0.kernel)
  {
    Kernel.CallKeepsInvariant(s.kernel, CommandOf(s.scheme, call, operation), Mutator(call, operation, tree), draw);
  }

  lemma WrittenKernel(s: System, d: Domain)
    requires Kernel.Invariant(s.kernel)
    ensures Kernel.Invariant(Written(s, d).kernel)
  {
    var db := s.kernel.db.(domain := d);
    Kernel.MutatedConsistent(s.kernel.db, db);
    Kernel.AdvanceKeepsInvariant(s.kernel, db);
  }

  lemma TurnKernel(s: System, l: Local, input: Input)
    requires Kernel.Invariant(s.kernel)
    ensures Kernel.Invariant(Turn(s, l, input).0.kernel)
  {
    if input.Go? && AtDesk(l.point) {
      DeskWrites(s, l, input.well);
      var t := Turn(s, l, input).0;
      if row :| t == Written(s, WithRow(Store(s), RowKey(l.call), row)) {
        WrittenKernel(s, WithRow(Store(s), RowKey(l.call), row));
      }
    } else if input.Go? && Drives(l.point) {
      CommitKernel(s, l.call, OperationAt(l), TreeAt(l), input.draw);
    }
  }

  /** A caller's step, and what is noted after it. */
  lemma TurnNoted(s: System, l: Local, input: Input, disciplined: bool)
    requires Kernel.Invariant(s.kernel) && Sane(s, l, disciplined)
    ensures var (t, after) := Turn(s, l, input); var u := Noted(t);
      && Within(s, u) && u.callers == s.callers && FrozenSound(u, disciplined) && LedgerSound(u, disciplined)
      && LocalSound(u, after, disciplined)
  {
    TurnSteady(s, l, input, disciplined);
    TurnTicket(s, l, input, disciplined);
    TurnPoint(s, l, input, disciplined);
    TurnCaller(s, l, input);
    var (t, after) := Turn(s, l, input);
    assert LocalSound(t, after, disciplined);
    NotedWithin(s, t, disciplined);
    NotedLedger(t, disciplined);
    assert Within(t, Noted(t));
    LocalStays(t, Noted(t), after, disciplined);
  }

  lemma ContinueSound(s: System, n: nat, input: Input, disciplined: bool)
    requires Faithful(s.scheme) && Invariant(s, disciplined) && n in s.callers
    ensures Sound(Noted(Acted(s, Continue(n, input))), disciplined)
  {
    var l := s.callers[n];
    TurnNoted(s, l, input, disciplined);
    var (t, after) := Turn(s, l, input);
    var u := Noted(t);
    CallersStay(s, u, disciplined);
    CallersOnly(u, s.callers[n := after], disciplined);
    assert Noted(Acted(s, Continue(n, input))) == u.(callers := s.callers[n := after]);
  }

  lemma ContinueKeeps(s: System, n: nat, input: Input, disciplined: bool)
    requires Faithful(s.scheme) && Invariant(s, disciplined) && n in s.callers
    ensures Invariant(Noted(Acted(s, Continue(n, input))), disciplined)
  {
    ContinueSound(s, n, input, disciplined);
    TurnKernel(s, s.callers[n], input);
  }

  lemma CallersOnly(u: System, callers: map<nat, Local>, disciplined: bool)
    requires FrozenSound(u, disciplined) && LedgerSound(u, disciplined)
    requires forall n | n in callers :: LocalSound(u, callers[n], disciplined)
    ensures Sound(u.(callers := callers), disciplined)
  {
    var v := u.(callers := callers);
    forall n | n in callers ensures LocalSound(v, callers[n], disciplined) {
      assert LocalSound(u, callers[n], disciplined);
    }
    forall call: Call, fence: nat | PlainCall(v.scheme, call) && Replayable(v, call, fence)
      ensures Kept(v, call, fence, disciplined)
    {
      assert Replayable(u, call, fence);
      assert Kept(u, call, fence, disciplined);
    }
  }

  lemma BeginKeeps(s: System, n: nat, call: Call, disciplined: bool)
    requires Invariant(s, disciplined) && n !in s.callers && Admissible(s, call)
    ensures Invariant(Noted(Acted(s, Begin(n, call))), disciplined)
  {
    assert LocalSound(s, Local(call, Asking, false), disciplined);
    CallersOnly(s, s.callers[n := Local(call, Asking, false)], disciplined);
  }

  /** What another transaction may have done to the database. */
  ghost predicate Disturbed(s: System, t: System, after: Domain) {
    && t == s.(kernel := t.kernel)
    && t.kernel.generations == s.kernel.generations && t.kernel.db.generation == s.kernel.db.generation
    && (Store(t) == Store(s) || Store(t) == after)
    && (forall k | k in s.kernel.db.ledger ::
          k in t.kernel.db.ledger && t.kernel.db.ledger[k] == s.kernel.db.ledger[k])
    && (forall k | k in t.kernel.db.ledger && !Outside(k) :: k in s.kernel.db.ledger)
  }

  lemma OthersDisturb(s: System, command: Option<Kernel.Command>, after: Domain, draw: Kernel.Draw)
    requires command.Some? ==> Outside(command.value.key)
    ensures Disturbed(s, Others(s, command, after, draw), after)
  {
    var mutation: Kernel.Mutator<Domain, ()> := (d: Domain) => Ok((after, ()));
    if command.None? {
      Kernel.BookkeepingCommits(s.kernel.db, "other", mutation, draw);
    } else {
      Kernel.ExecutingCommits(s.kernel.db, command.value, mutation, draw);
    }
  }

  lemma OthersKernel(s: System, command: Option<Kernel.Command>, after: Domain, draw: Kernel.Draw)
    requires Kernel.Invariant(s.kernel)
    ensures Kernel.Invariant(Others(s, command, after, draw).kernel)
  {
    var mutation: Kernel.Mutator<Domain, ()> := (d: Domain) => Ok((after, ()));
    if command.None? {
      Kernel.InternalKeepsInvariant(s.kernel, "other", mutation, draw);
    } else {
      Kernel.CallKeepsInvariant(s.kernel, command.value, mutation, draw);
    }
  }

  lemma DisturbedSound(s: System, t: System, after: Domain, disciplined: bool)
    requires Faithful(s.scheme) && Sound(s, disciplined) && Onward(Store(s), after) && Disturbed(s, t, after)
    ensures Sound(Noted(t), disciplined)
  {
    assert Within(s, t);
    NotedWithin(s, t, disciplined);
    CallersStay(s, Noted(t), disciplined);
    forall call: Call, fence: nat | PlainCall(s.scheme, call) && Replayable(t, call, fence)
      ensures Replayable(s, call, fence)
    {
      assert !Outside(KeyOf(s.scheme, call, Publish(fence, call.authority)));
    }
    LedgerStays(s, t, disciplined);
    NotedLedger(t, disciplined);
  }

  lemma ForeignKeeps(s: System, command: Option<Kernel.Command>, after: Domain, draw: Kernel.Draw, disciplined: bool)
    requires Faithful(s.scheme) && Invariant(s, disciplined) && Rely(Store(s), after)
    requires command.Some? ==> Outside(command.value.key)
    ensures Invariant(Noted(Acted(s, Foreign(command, after, draw))), disciplined)
  {
    OthersDisturb(s, command, after, draw);
    DisturbedSound(s, Others(s, command, after, draw), after, disciplined);
    OthersKernel(s, command, after, draw);
  }

  lemma RestoredFacts(w: Kernel.World<Domain>, snapshot: nat, generation: Text, journalEpoch: Option<Text>)
    ensures var after := Kernel.Restored(w, snapshot, generation, journalEpoch);
      after == w ||
        (&& after.db.generation == Some(generation) && generation !in w.generations
         && after.generations == w.generations + {generation} && after.executions == w.executions)
  {
  }

  /** Every command of a ledger was executed under a generation that was once in force. */
  lemma OldKeys(w: Kernel.World<Domain>, generations: set<Text>)
    requires Kernel.Invariant(w) && forall x | x in w.executions :: x.key.epoch in generations
    ensures forall k | k in w.db.ledger :: k.epoch in generations
  {
    forall k | k in w.db.ledger ensures k.epoch in generations {
      assert Kernel.Remembered(w.db, w.executions, k);
    }
  }

  /** A restore ends every call and every replay of the generations before it. */
  lemma RestoreKeeps(s: System, snapshot: nat, generation: Text, journalEpoch: Option<Text>, disciplined: bool)
    requires Invariant(s, disciplined) && Kernel.Restored(s.kernel, snapshot, generation, journalEpoch) != s.kernel
    ensures Invariant(Noted(Acted(s, Restore(snapshot, generation, journalEpoch))), disciplined)
  {
    var kernel := Kernel.Restored(s.kernel, snapshot, generation, journalEpoch);
    var t := s.(kernel := kernel, frozen := map[]);
    Kernel.RestoreKeepsInvariant(s.kernel, snapshot, generation, journalEpoch);
    RestoredFacts(s.kernel, snapshot, generation, journalEpoch);
    assert Acted(s, Restore(snapshot, generation, journalEpoch)) == t;
    OldKeys(kernel, s.kernel.generations);
    forall n | n in t.callers ensures LocalSound(t, t.callers[n], disciplined) {
      assert LocalSound(s, s.callers[n], disciplined);
    }
    RestartSound(t, s.kernel.generations, disciplined);
  }

  lemma RestartSound(t: System, generations: set<Text>, disciplined: bool)
    requires t.kernel.db.generation.Some? && t.kernel.db.generation.value !in generations && t.frozen == map[]
    requires forall k | k in t.kernel.db.ledger :: k.epoch in generations
    requires CallersSound(t, disciplined)
    ensures Sound(Noted(t), disciplined)
  {
    NothingReplays(t, generations, disciplined);
    NotedLedger(t, disciplined);
    assert Within(t, Noted(t));
    CallersStay(t, Noted(t), disciplined);
  }

  lemma NothingReplays(t: System, generations: set<Text>, disciplined: bool)
    requires t.kernel.db.generation.Some? && t.kernel.db.generation.value !in generations
    requires forall k | k in t.kernel.db.ledger :: k.epoch in generations
    ensures LedgerSound(t, disciplined)
  {
    assert forall call: Call, fence: nat :: !Replayable(t, call, fence);
  }

  lemma WriteKeeps(s: System, tree: Tree, disciplined: bool)
    requires Invariant(s, disciplined) && (disciplined ==> !Store(s).row.phase.Frozen?)
    ensures Invariant(Noted(Acted(s, Write(tree))), disciplined)
  {
    var t := s.(tree := tree);
    assert Within(s, t);
    NotedWithin(s, t, disciplined);
    CallersStay(s, Noted(t), disciplined);
    forall call: Call, fence: nat | Replayable(t, call, fence) ensures Replayable(s, call, fence) {
    }
    LedgerStays(s, t, disciplined);
    NotedLedger(t, disciplined);
  }

  lemma IdleKeeps(s: System, disciplined: bool)
    requires FrozenSound(s, disciplined)
    ensures Noted(s) == s
  {
  }

  lemma StepKeeps(s: System, action: Action, disciplined: bool)
    requires Faithful(s.scheme) && Invariant(s, disciplined)
    ensures Invariant(Step(s, action, disciplined), disciplined)
  {
    IdleKeeps(s, disciplined);
    if !disciplined || Keeps(s, action) {
      match action {
        case Begin(n, call) => if n !in s.callers && Admissible(s, call) { BeginKeeps(s, n, call, disciplined); }
        case Continue(n, input) => if n in s.callers { ContinueKeeps(s, n, input, disciplined); }
        case Foreign(command, after, draw) =>
          if Rely(Store(s), after) && (command.Some? ==> Outside(command.value.key)) {
            ForeignKeeps(s, command, after, draw, disciplined);
          }
        case Restore(snapshot, generation, epoch) =>
          if Kernel.Restored(s.kernel, snapshot, generation, epoch) != s.kernel {
            RestoreKeeps(s, snapshot, generation, epoch, disciplined);
          }
        case Write(tree) => WriteKeeps(s, tree, disciplined);
      }
    }
  }

  lemma InstalledSound(x: Scheme, generation: Text, epoch: Text, d: Domain, tree: Tree, disciplined: bool)
    requires Blank(d)
    ensures Invariant(Installed(x, generation, epoch, d, tree), disciplined)
  {
    Kernel.InstallInvariant(generation, epoch, d);
  }

  lemma TurnScheme(s: System, l: Local, input: Input)
    ensures var t := Turn(s, l, input).0; t.scheme == s.scheme && t.callers == s.callers && t.tree == s.tree
  {
    if input.Go? && AtDesk(l.point) { DeskWrites(s, l, input.well); }
  }

  lemma StepScheme(s: System, action: Action, disciplined: bool)
    ensures Step(s, action, disciplined).scheme == s.scheme
  {
    if action.Continue? && action.caller in s.callers {
      TurnScheme(s, s.callers[action.caller], action.input);
    }
  }

  lemma {:induction false} RunKeeps(s: System, actions: seq<Action>, disciplined: bool)
    requires Faithful(s.scheme) && Invariant(s, disciplined)
    ensures Invariant(Run(s, actions, disciplined), disciplined) && Run(s, actions, disciplined).scheme == s.scheme
  {
    if actions != [] {
      var before, last := Run(s, actions[..|actions| - 1], disciplined), actions[|actions| - 1];
      RunKeeps(s, actions[..|actions| - 1], disciplined);
      StepScheme(before, last, disciplined);
      StepKeeps(before, last, disciplined);
    }
  }

  lemma ReachedSound(s: System, disciplined: bool)
    requires Reached(s, disciplined)
    ensures Invariant(s, disciplined)
  {
    var generation, epoch, d, tree, actions :|
      Blank(d) && s == Run(Installed(s.scheme, generation, epoch, d, tree), actions, disciplined);
    InstalledSound(s.scheme, generation, epoch, d, tree, disciplined);
    RunKeeps(Installed(s.scheme, generation, epoch, d, tree), actions, disciplined);
  }

  lemma ReachedCaller(s: System, disciplined: bool, n: nat)
    requires Reached(s, disciplined) && n in s.callers
    ensures FrozenSound(s, disciplined) && LedgerSound(s, disciplined) && LocalSound(s, s.callers[n], disciplined)
  {
    ReachedSound(s, disciplined);
  }

  // ---------------------------------------------------------------- what an answer means

  /** A caller's publication executes only under the fence it captured under: the row has not moved
      since, and with workers that keep the fence the tree on disk is still the one published. */
  lemma PublishedUnderFence(s: System, disciplined: bool, n: nat, draw: Kernel.Draw)
    requires Reached(s, disciplined) && n in s.callers && s.callers[n].point.Committing?
    ensures var call, at := s.callers[n].call, s.callers[n].point;
      var (t, answer) := Commit(s, call, Publish(at.fence, call.authority), at.tree, draw);
      Ran(answer) ==>
        && at.held && Store(s).row == Row(Frozen, true, at.fence) && call.authority in Store(s).authority
        && (disciplined ==> at.tree == s.tree)
        && Produced(t, call, Named(at.tree))
  {
    ReachedCaller(s, disciplined, n);
    ExecutedUnderFence(s, s.callers[n], disciplined, draw);
  }

  lemma ExecutedUnderFence(s: System, l: Local, disciplined: bool, draw: Kernel.Draw)
    requires l.point.Committing? && FrozenSound(s, disciplined)
    requires s.kernel.db.generation == Some(l.call.epoch) ==> PointSound(s, l, disciplined)
    ensures var call, at := l.call, l.point;
      var (t, answer) := Commit(s, call, Publish(at.fence, call.authority), at.tree, draw);
      Ran(answer) ==>
        && at.held && Store(s).row == Row(Frozen, true, at.fence) && call.authority in Store(s).authority
        && (disciplined ==> at.tree == s.tree)
        && Produced(t, call, Named(at.tree))
  {
    CommitEffect(s, l.call, Publish(l.point.fence, l.call.authority), l.point.tree, draw);
  }

  /** A replayed publication writes nothing and still leads on with the name of what was captured this
      time. That name is the recorded production exactly when the captured tree is the one the
      executed publication captured. */
  lemma ReplayTruthfulIff(s: System, disciplined: bool, n: nat, draw: Kernel.Draw)
    requires Reached(s, disciplined) && n in s.callers && s.callers[n].point.Committing?
    ensures var call, at := s.callers[n].call, s.callers[n].point;
      var key := PublicationOf(s.scheme, call, at.fence);
      var (t, answer) := Commit(s, call, Publish(at.fence, call.authority), at.tree, draw);
      answer.Ok? && answer.value.Replayed? ==>
        && t.kernel.db == s.kernel.db && key in s.log && Produced(t, call, Named(s.log[key]))
        && (Produced(t, call, Named(at.tree)) <==> at.tree == s.log[key])
  {
    ReachedCaller(s, disciplined, n);
    var call, at := s.callers[n].call, s.callers[n].point;
    CommitEffect(s, call, Publish(at.fence, call.authority), at.tree, draw);
    if Replayable(s, call, at.fence) {
      assert Kept(s, call, at.fence, disciplined);
    }
  }

  predicate AnswersExecuted(l: Local) {
    l.point.Ended? && l.point.answer.Executed?
  }

  /** A completion passes only the session's own generation, so what the caller knew still holds. */
  lemma CompletesInForce(s: System, l: Local, input: Input, disciplined: bool)
    requires LedgerSound(s, disciplined) && LocalSound(s, l, disciplined) && l.point.Completing?
    requires AnswersExecuted(Turn(s, l, input).1)
    ensures PointSound(s, l, disciplined) && Kept(s, l.call, l.point.fence, disciplined) && RowOpen(s, l.call)
    ensures var t := Turn(s, l, input).0;
      && Turn(s, l, input).1.point == Ended(Executed(Named(l.point.tree)))
      && Store(t) == Store(s).(requests := Store(t).requests)
  {
    assert s.kernel.db.generation == Some(l.call.epoch);
  }

  /** An answer `Executed` names what the call captured. That is the Run's recorded production for the
      slot if and only if the call's own publication executed, or the tree it captured is the one the
      executed publication captured. */
  lemma ExecutedProducedIff(s: System, disciplined: bool, n: nat, input: Input)
    requires Reached(s, disciplined) && n in s.callers && s.callers[n].point.Completing?
    ensures var l := s.callers[n]; var (t, after) := Turn(s, l, input);
      var key := PublicationOf(s.scheme, l.call, l.point.fence);
      AnswersExecuted(after) ==>
        && after.point.answer.name == Named(l.point.tree)
        && key in s.log && Produced(t, l.call, Named(s.log[key]))
        && (Produced(t, l.call, after.point.answer.name) <==> l.published || l.point.tree == s.log[key])
  {
    ReachedCaller(s, disciplined, n);
    var l := s.callers[n];
    if AnswersExecuted(Turn(s, l, input).1) { CompletesInForce(s, l, input, disciplined); }
  }

  /** When workers keep the fence, a call that captured while the row was at the fence answers with a
      stored Artifact that is the Run's production for the slot, executed or replayed, however often
      it is retried and whatever else happens. */
  lemma AnswersAreProduced(s: System, n: nat, input: Input)
    requires Reached(s, true) && n in s.callers && s.callers[n].point.Completing? && s.callers[n].point.held
    ensures var (t, after) := Turn(s, s.callers[n], input);
      AnswersExecuted(after) ==> Produced(t, s.callers[n].call, after.point.answer.name)
  {
    ReachedCaller(s, true, n);
    var l := s.callers[n];
    if AnswersExecuted(Turn(s, l, input).1) { CompletesInForce(s, l, input, true); }
  }

  /** The request's row records success with exactly this Artifact. */
  ghost predicate Answered(s: System, call: Call, name: Name) {
    RowKey(call) in Store(s).requests && Store(s).requests[RowKey(call)].state == Succeeded(name)
  }

  /** An answer `Executed` is what the row records if and only if the row was STARTED when it was
      completed, or already recorded the same name. */
  lemma ExecutedAnsweredIff(s: System, disciplined: bool, n: nat, input: Input)
    requires Reached(s, disciplined) && n in s.callers && s.callers[n].point.Completing?
    ensures var l := s.callers[n]; var (t, after) := Turn(s, l, input);
      AnswersExecuted(after) ==>
        && RowOpen(s, l.call)
        && (Answered(t, l.call, after.point.answer.name) <==> Agrees(s, l.call, after.point.answer.name))
  {
    ReachedCaller(s, disciplined, n);
    AnsweredIff(s, s.callers[n], disciplined, input);
  }

  /** The row is STARTED, or already records this name. */
  ghost predicate Agrees(s: System, call: Call, name: Name) {
    && RowKey(call) in Store(s).requests
    && var state := Store(s).requests[RowKey(call)].state; state == Started || state == Succeeded(name)
  }

  lemma AnsweredIff(s: System, l: Local, disciplined: bool, input: Input)
    requires LedgerSound(s, disciplined) && LocalSound(s, l, disciplined) && l.point.Completing?
    ensures var (t, after) := Turn(s, l, input);
      AnswersExecuted(after) ==>
        && RowOpen(s, l.call) && s.kernel.db.generation == Some(l.call.verifier.generation)
        && (Answered(t, l.call, after.point.answer.name) <==> Agrees(s, l.call, after.point.answer.name))
  {
    if AnswersExecuted(Turn(s, l, input).1) { CompletesInForce(s, l, input, disciplined); }
  }

  // ---------------------------------------------------------------- what a call changes

  /** Nothing but the fence on a Ready Workspace and the caller's own request row. */
  ghost predicate Spared(d: Domain, e: Domain, call: Call) {
    && e.authority == d.authority && e.sessions == d.sessions
    && e.artifacts == d.artifacts && e.production == d.production
    && (e.row == d.row || (d.row.phase.Ready? && e.row == Row(Frozen, true, d.row.revision + 1)))
    && (forall k | k != RowKey(call) ::
          (k in e.requests <==> k in d.requests) && (k in d.requests ==> e.requests[k] == d.requests[k]))
  }

  lemma CommitSpares(s: System, call: Call, operation: Operation, tree: Tree, draw: Kernel.Draw)
    ensures var (t, answer) := Commit(s, call, operation, tree, draw);
      (operation.Publish? && Ran(answer)) || Spared(Store(s), Store(t), call)
  {
    CommitEffect(s, call, operation, tree, draw);
  }

  /** A caller's step spares everything else unless it is an executed publication. */
  lemma TurnSpares(s: System, l: Local, input: Input)
    ensures var (t, after) := Turn(s, l, input); after.published || Spared(Store(s), Store(t), l.call)
  {
    if input.Go? && AtDesk(l.point) {
      DeskWrites(s, l, input.well);
      var d, key, t := Store(s), RowKey(l.call), Turn(s, l, input).0;
      if row :| t == Written(s, WithRow(d, key, row)) {
        SparesOwnRow(d, l.call, row);
      }
    } else if input.Go? && Drives(l.point) {
      CommitSpares(s, l.call, OperationAt(l), TreeAt(l), input.draw);
    }
  }

  lemma SparesOwnRow(d: Domain, call: Call, row: Request)
    ensures Spared(d, WithRow(d, RowKey(call), row), call)
  {
  }

  /** Only its own steps move a caller. */
  lemma StepCaller(s: System, action: Action, disciplined: bool, n: nat)
    requires n in s.callers
    ensures var t := Step(s, action, disciplined);
      && n in t.callers
      && (t.callers[n] == s.callers[n] || exists input :: t.callers[n] == Turn(s, s.callers[n], input).1)
  {
    if action.Continue? && action.caller in s.callers {
      TurnScheme(s, s.callers[action.caller], action.input);
    }
  }

  /** Its own publication, once executed, is remembered by the caller. */
  lemma StepRemembers(s: System, action: Action, disciplined: bool, n: nat)
    requires n in s.callers && LocalSound(s, s.callers[n], disciplined) && s.callers[n].published
    ensures n in Step(s, action, disciplined).callers && Step(s, action, disciplined).callers[n].published
  {
    StepCaller(s, action, disciplined, n);
    var l := s.callers[n];
    if input :| Step(s, action, disciplined).callers[n] == Turn(s, l, input).1 { TurnCaller(s, l, input); }
  }

  lemma {:induction false} RunRemembers(s: System, actions: seq<Action>, disciplined: bool, n: nat)
    requires Faithful(s.scheme) && Invariant(s, disciplined) && n in s.callers && s.callers[n].published
    ensures n in Run(s, actions, disciplined).callers && Run(s, actions, disciplined).callers[n].published
  {
    if actions != [] {
      RunRemembers(s, actions[..|actions| - 1], disciplined, n);
      RunKeeps(s, actions[..|actions| - 1], disciplined);
      StepRemembers(Run(s, actions[..|actions| - 1], disciplined), actions[|actions| - 1], disciplined, n);
    }
  }

  /** A step of caller `n` in a run that spares everything else. */
  ghost predicate SparedBy(s: System, t: System, n: nat) {
    n in s.callers ==> Spared(Store(s), Store(t), s.callers[n].call)
  }

  lemma ContinueSpares(s: System, n: nat, input: Input, disciplined: bool)
    requires Invariant(s, disciplined)
    ensures var t := Step(s, Continue(n, input), disciplined);
      SparedBy(s, t, n) || (n in t.callers && t.callers[n].published)
  {
    if n in s.callers { TurnSpares(s, s.callers[n], input); }
  }

  /** In every run, a call whose own publication never executed changes nothing in any of its steps but
      the fence on a Ready Workspace, its request row, and the kernel's ledger and journal; and that is
      every call that fails before it completes. */
  lemma FailedSealKeeps(start: System, before: seq<Action>, input: Input, later: seq<Action>, disciplined: bool, n: nat)
    requires Faithful(start.scheme) && Invariant(start, disciplined)
    ensures var s := Run(start, before, disciplined);
      var t := Step(s, Continue(n, input), disciplined);
      var last := Run(t, later, disciplined);
      && (n in last.callers && !last.callers[n].published ==> SparedBy(s, t, n))
      && (n in last.callers && !last.callers[n].point.Completing? && !last.callers[n].point.Ended? ==>
            !last.callers[n].published)
  {
    RunKeeps(start, before, disciplined);
    var s := Run(start, before, disciplined);
    var t := Step(s, Continue(n, input), disciplined);
    StepScheme(s, Continue(n, input), disciplined);
    StepKeeps(s, Continue(n, input), disciplined);
    ContinueSpares(s, n, input, disciplined);
    RunKeeps(t, later, disciplined);
    if n in t.callers && t.callers[n].published { RunRemembers(t, later, disciplined, n); }
    var last := Run(t, later, disciplined);
    if n in last.callers { assert LocalSound(last, last.callers[n], disciplined); }
  }

  // ---------------------------------------------------------------- calls of one request that do not overlap

  /** Caller `m` is another call of the request of `n`, and under way. */
  ghost predicate Rival(s: System, n: nat, m: nat) {
    && n in s.callers && m in s.callers && n != m
    && Opened(s.callers[m].point) && RowKey(s.callers[m].call) == RowKey(s.callers[n].call)
  }

  /** A request is opened only when no other call of it is under way. */
  ghost predicate Orderly(s: System, action: Action) {
    action.Continue? && action.caller in s.callers && s.callers[action.caller].point.Asking? ==>
      forall m :: !Rival(s, action.caller, m)
  }

  ghost predicate AllOrderly(start: System, actions: seq<Action>, disciplined: bool) {
    forall i | 0 <= i < |actions| :: Orderly(Run(start, actions[..i], disciplined), actions[i])
  }

  /** One call at a time, and while it is under way its row is STARTED. */
  ghost predicate Alone(s: System) {
    && (forall n, m | n in s.callers && Opened(s.callers[n].point) :: !Rival(s, n, m))
    && (forall n | n in s.callers && Opened(s.callers[n].point) :: RowStarted(s, s.callers[n].call))
  }

  ghost predicate RowStarted(s: System, call: Call) {
    s.kernel.db.generation == Some(call.verifier.generation) ==>
      RowKey(call) in Store(s).requests && Store(s).requests[RowKey(call)].state.Started?
  }

  /** After its step the caller's own row is STARTED, or the call is over. */
  lemma TurnStarted(s: System, l: Local, input: Input, disciplined: bool)
    requires Sane(s, l, disciplined) && (Opened(l.point) ==> RowStarted(s, l.call))
    ensures var (t, after) := Turn(s, l, input); Opened(after.point) ==> RowStarted(t, after.call)
  {
    GenerationStays(s, l, input, disciplined);
    TurnCaller(s, l, input);
    if input.Go? && AtDesk(l.point) { DeskStarted(s, l, input.well); } else { DriveKeepsRows(s, l, input); }
  }

  lemma DeskStarted(s: System, l: Local, well: bool)
    requires AtDesk(l.point)
    ensures var (t, after) := Desk(s, l, well); Opened(after.point) ==> RowStarted(t, after.call)
  {
    DeskEnds(s, l, well);
  }

  lemma DriveKeepsRows(s: System, l: Local, input: Input)
    requires input.Crash? || !AtDesk(l.point)
    ensures Store(Turn(s, l, input).0).requests == Store(s).requests
  {
    if input.Go? && Drives(l.point) {
      CommitEffect(s, l.call, OperationAt(l), TreeAt(l), input.draw);
    }
  }

  /** Rows of other requests stay as they are. */
  lemma TurnOtherRows(s: System, l: Local, input: Input, call: Call, disciplined: bool)
    requires Sane(s, l, disciplined) && RowKey(call) != RowKey(l.call) && RowStarted(s, call)
    ensures RowStarted(Turn(s, l, input).0, call)
  {
    GenerationStays(s, l, input, disciplined);
    if input.Go? && AtDesk(l.point) { DeskWrites(s, l, input.well); } else { DriveKeepsRows(s, l, input); }
  }

  lemma ContinueAlone(s: System, n: nat, input: Input, disciplined: bool)
    requires Faithful(s.scheme) && Sound(s, disciplined) && Alone(s) && n in s.callers && Orderly(s, Continue(n, input))
    ensures Alone(Noted(Acted(s, Continue(n, input))))
  {
    var l := s.callers[n];
    var (t, after) := Turn(s, l, input);
    var u := Noted(Acted(s, Continue(n, input)));
    TurnScheme(s, l, input);
    TurnCaller(s, l, input);
    TurnStarted(s, l, input, disciplined);
    assert u.callers == s.callers[n := after] && u.kernel == t.kernel;
    if !l.point.Ended? {
      assert forall m :: !Rival(s, n, m);
      forall a, b | a in u.callers && Opened(u.callers[a].point) ensures !Rival(u, a, b) {
        assert !Rival(s, n, a) && !Rival(s, n, b);
        if a != n { assert !Rival(s, a, b); }
      }
      forall a | a in u.callers && a != n && Opened(u.callers[a].point) ensures RowStarted(u, u.callers[a].call) {
        assert !Rival(s, n, a) && RowStarted(s, s.callers[a].call);
        TurnOtherRows(s, l, input, s.callers[a].call, disciplined);
      }
    } else {
      assert s.callers[n := after] == s.callers && t == s;
      forall a, b | a in u.callers && Opened(u.callers[a].point) ensures !Rival(u, a, b) {
        assert !Rival(s, a, b);
      }
      forall a | a in u.callers && Opened(u.callers[a].point) ensures RowStarted(u, u.callers[a].call) {
        assert RowStarted(s, s.callers[a].call);
      }
    }
  }

  /** Steps that move no caller and leave existing rows alone. */
  lemma RowsAlone(s: System, t: System)
    requires Alone(s) && t.callers == s.callers && t.kernel.db.generation == s.kernel.db.generation
    requires forall k | k in Store(s).requests ::
      k in Store(t).requests && Store(t).requests[k] == Store(s).requests[k]
    ensures Alone(t)
  {
    forall n, m | n in t.callers && Opened(t.callers[n].point) ensures !Rival(t, n, m) {
      assert !Rival(s, n, m);
    }
    forall n | n in t.callers && Opened(t.callers[n].point) ensures RowStarted(t, t.callers[n].call) {
      assert RowStarted(s, s.callers[n].call);
    }
  }

  lemma BeginAlone(s: System, n: nat, call: Call)
    requires Alone(s) && n !in s.callers
    ensures Alone(Noted(s.(callers := s.callers[n := Local(call, Asking, false)])))
  {
    var t := Noted(s.(callers := s.callers[n := Local(call, Asking, false)]));
    forall a, b | a in t.callers && Opened(t.callers[a].point) ensures !Rival(t, a, b) {
      assert !Rival(s, a, b);
    }
    forall a | a in t.callers && Opened(t.callers[a].point) ensures RowStarted(t, t.callers[a].call) {
      assert RowStarted(s, s.callers[a].call);
    }
  }

  lemma RestoreAlone(s: System, t: System, disciplined: bool)
    requires CallersSound(s, disciplined) && Alone(s) && t.callers == s.callers
    requires t.kernel.db.generation.Some? && t.kernel.db.generation.value !in s.kernel.generations
    ensures Alone(t)
  {
    forall a, b | a in t.callers && Opened(t.callers[a].point) ensures !Rival(t, a, b) {
      assert !Rival(s, a, b);
    }
    forall a | a in t.callers && Opened(t.callers[a].point) ensures RowStarted(t, t.callers[a].call) {
      assert LocalSound(s, s.callers[a], disciplined);
    }
  }

  lemma ForeignAlone(s: System, command: Option<Kernel.Command>, after: Domain, draw: Kernel.Draw)
    requires Alone(s) && Rely(Store(s), after) && (command.Some? ==> Outside(command.value.key))
    ensures Alone(Noted(Others(s, command, after, draw)))
  {
    OthersDisturb(s, command, after, draw);
    RowsAlone(s, Noted(Others(s, command, after, draw)));
  }

  lemma StepAlone(s: System, action: Action, disciplined: bool)
    requires Faithful(s.scheme) && Sound(s, disciplined) && Alone(s) && Orderly(s, action)
    ensures Alone(Step(s, action, disciplined))
  {
    IdleKeeps(s, disciplined);
    if !disciplined || Keeps(s, action) {
      match action {
        case Begin(n, call) => if n !in s.callers && Admissible(s, call) { BeginAlone(s, n, call); }
        case Continue(n, input) => if n in s.callers { ContinueAlone(s, n, input, disciplined); }
        case Foreign(command, after, draw) =>
          if Rely(Store(s), after) && (command.Some? ==> Outside(command.value.key)) {
            ForeignAlone(s, command, after, draw);
          }
        case Restore(snapshot, generation, epoch) =>
          var kernel := Kernel.Restored(s.kernel, snapshot, generation, epoch);
          RestoredFacts(s.kernel, snapshot, generation, epoch);
          if kernel != s.kernel { RestoreAlone(s, Noted(s.(kernel := kernel, frozen := map[])), disciplined); }
        case Write(tree) => RowsAlone(s, Noted(s.(tree := tree)));
      }
    }
  }

  lemma {:induction false} RunAlone(start: System, actions: seq<Action>, disciplined: bool)
    requires Faithful(start.scheme) && Invariant(start, disciplined) && Alone(start)
    requires AllOrderly(start, actions, disciplined)
    ensures Alone(Run(start, actions, disciplined))
  {
    if actions != [] {
      var rest := actions[..|actions| - 1];
      OrderlyEarlier(start, actions, disciplined);
      RunAlone(start, rest, disciplined);
      RunKeeps(start, rest, disciplined);
      StepAlone(Run(start, rest, disciplined), actions[|actions| - 1], disciplined);
    }
  }

  lemma OrderlyEarlier(start: System, actions: seq<Action>, disciplined: bool)
    requires actions != [] && AllOrderly(start, actions, disciplined)
    ensures var rest := actions[..|actions| - 1];
      && AllOrderly(start, rest, disciplined)
      && Orderly(Run(start, rest, disciplined), actions[|actions| - 1])
  {
    var rest := actions[..|actions| - 1];
    forall i | 0 <= i < |rest| ensures Orderly(Run(start, rest[..i], disciplined), rest[i]) {
      assert rest[..i] == actions[..i] && rest[i] == actions[i];
    }
  }

  lemma OrderlyCaller(x: Scheme, generation: Text, epoch: Text, d: Domain, tree: Tree, actions: seq<Action>,
      disciplined: bool, n: nat)
    requires Faithful(x) && Blank(d) && AllOrderly(Installed(x, generation, epoch, d, tree), actions, disciplined)
    requires n in Run(Installed(x, generation, epoch, d, tree), actions, disciplined).callers
    ensures var s := Run(Installed(x, generation, epoch, d, tree), actions, disciplined);
      && LedgerSound(s, disciplined) && LocalSound(s, s.callers[n], disciplined)
      && (Opened(s.callers[n].point) ==> RowStarted(s, s.callers[n].call))
  {
    var start := Installed(x, generation, epoch, d, tree);
    InstalledSound(x, generation, epoch, d, tree, disciplined);
    RunKeeps(start, actions, disciplined);
    RunAlone(start, actions, disciplined);
  }

  /** In every run in which calls of one request do not overlap, crashes and retries included, an answer
      `Executed` is what the request's row records. */
  lemma OrderlyAnswered(x: Scheme, generation: Text, epoch: Text, d: Domain, tree: Tree, actions: seq<Action>,
      disciplined: bool, n: nat, input: Input)
    requires Faithful(x) && Blank(d) && AllOrderly(Installed(x, generation, epoch, d, tree), actions, disciplined)
    requires var s := Run(Installed(x, generation, epoch, d, tree), actions, disciplined);
      n in s.callers && s.callers[n].point.Completing?
    ensures var s := Run(Installed(x, generation, epoch, d, tree), actions, disciplined);
      var (t, after) := Turn(s, s.callers[n], input);
      AnswersExecuted(after) ==> Answered(t, s.callers[n].call, after.point.answer.name)
  {
    OrderlyCaller(x, generation, epoch, d, tree, actions, disciplined, n);
    var s := Run(Installed(x, generation, epoch, d, tree), actions, disciplined);
    AnsweredIff(s, s.callers[n], disciplined, input);
  }
}
