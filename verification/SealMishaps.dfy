/** Two calls of one seal request that go wrong, as one run of the protocol: the retry captures after
    the Workspace row has moved on, its publication replays, and the request row comes to name an
    Artifact nobody stored; the first call then answers with an Artifact the row does not record. No
    worker breaks the fence and nobody crashes. */
module SealMishaps {
  import opened Wrappers
  import opened SealIdentity
  import opened SealProtocol
  import Canonical
  import Content = Artifact
  import Kernel = CommandKernel

  const GENERATION := "gggggggggggggggggggggggggggggggg"
  const GRANT := Authority("r", 1)
  const BEARER := Verifier(GENERATION, 0)
  const ONCE := Call("a", BEARER, "q", "s", [], "out", GENERATION, GRANT)
  const EMPTY: Tree := map[]
  const GONE: Tree := map[[1] := Content.Absent]
  const OPENING := Freeze(1, GRANT)
  const CHECKING := Validate(2, GRANT)
  const SEALING := Publish(2, GRANT)
  const MUTABLE := Row(Ready, true, 1)
  const FENCE := Row(Frozen, true, 2)
  const OPEN_ROW: map<(Text, Text), Request> := map[("a", "q") := Request([], Started)]

  predicate Granted(operation: Operation) {
    operation.revision < 10 && !operation.Failure? && operation.authority == GRANT
  }

  /** A scheme under which `ONCE` is an admissible call with usable identities. */
  ghost predicate Suits(x: Scheme) {
    && Faithful(x) && x.slotOf([]) == "out"
    && forall o | Granted(o) :: 1 <= |x.id("a", "s", o)| <= MAX_COMMAND_ID
  }

  lemma DerivationSuits()
    ensures Suits(Derivation((h: Kernel.Hash) => "out"))
  {
    var x := Derivation((h: Kernel.Hash) => "out");
    DerivationFaithful(x.slotOf);
    forall o | Granted(o) ensures 1 <= |x.id("a", "s", o)| <= MAX_COMMAND_ID {
      assert |Canonical.Natural(o.revision)| == 1 && |Canonical.Natural(1)| == 1;
      assert |Facts(o)| == 5;
    }
  }

  // ---------------------------------------------------------------- single steps

  /** Reached by workers that keep the fence, under a scheme that suits. */
  ghost predicate Arrived(s: System) {
    Reached(s, true) && Suits(s.scheme)
  }

  lemma Next(s: System, action: Action)
    requires Arrived(s)
    ensures Arrived(Step(s, action, true)) && Step(s, action, true).scheme == s.scheme
  {
    var generation, epoch, d, tree, actions :|
      Blank(d) && s == Run(Installed(s.scheme, generation, epoch, d, tree), actions, true);
    var longer := actions + [action];
    assert longer[..|actions|] == actions;
    StepScheme(s, action, true);
    assert Step(s, action, true) == Run(Installed(s.scheme, generation, epoch, d, tree), longer, true);
  }

  /** A step of caller `n` that leaves the tree alone and moves nobody else. */
  ghost predicate Moves(s: System, u: System, n: nat, l: Local) {
    Arrived(u) && u.scheme == s.scheme && u.tree == s.tree && u.callers == s.callers[n := l]
  }

  lemma Moved(s: System, n: nat, input: Input) returns (u: System)
    requires Arrived(s) && n in s.callers
    ensures var (t, l) := Turn(s, s.callers[n], input); Moves(s, u, n, l) && u.kernel == t.kernel
  {
    u := Step(s, Continue(n, input), true);
    Next(s, Continue(n, input));
    TurnScheme(s, s.callers[n], input);
  }

  function Plainly(k: nat): Input {
    Go(Drawn(k), true, GRANT)
  }

  function At(point: Point): Local {
    Local(ONCE, point, false)
  }

  /** A caller begins; nothing else happens. */
  lemma Begins(s: System, n: nat) returns (u: System)
    requires Arrived(s) && n !in s.callers && s.kernel.db.generation == Some(GENERATION)
    ensures Moves(s, u, n, At(Asking)) && u.kernel == s.kernel
  {
    u := Step(s, Begin(n, ONCE), true);
    Next(s, Begin(n, ONCE));
    assert Admissible(s, ONCE);
  }

  /** With its row open, the caller reads on to the Workspace row. */
  lemma Approaches(s: System, n: nat) returns (u: System)
    requires Arrived(s) && n in s.callers && s.callers[n] == At(Describing) && Authorized(s.kernel.db, ONCE)
    ensures Moves(s, u, n, At(Quiescing(Store(s).row))) && u.kernel == s.kernel
  {
    var s1 := Moved(s, n, Plainly(0));
    assert s1.callers[n] == At(Reading);
    var s2 := Moved(s1, n, Plainly(0));
    assert s2.callers[n] == At(Starting);
    u := Moved(s2, n, Plainly(0));
  }

  lemma Rereads(s: System, n: nat) returns (u: System)
    requires Arrived(s) && n in s.callers && s.callers[n] == At(Rereading) && Store(s).row == FENCE
    ensures Moves(s, u, n, At(Capturing(2))) && u.kernel == s.kernel
  {
    u := Moved(s, n, Plainly(0));
  }

  lemma Captures(s: System, n: nat) returns (u: System)
    requires Arrived(s) && n in s.callers && s.callers[n] == At(Capturing(2))
    ensures Moves(s, u, n, At(Committing(2, s.tree, Store(s).row.revision == 2))) && u.kernel == s.kernel
  {
    u := Moved(s, n, Plainly(0));
  }

  lemma Runs(s: System, n: nat, k: nat) returns (u: System)
    requires Arrived(s) && n in s.callers && Drives(s.callers[n].point) && s.callers[n].call == ONCE
    requires Granted(OperationAt(s.callers[n]))
    ensures var l := s.callers[n]; var (t, outcome) := Commit(s, ONCE, OperationAt(l), TreeAt(l), Drawn(k));
      Moves(s, u, n, Led(l, outcome)) && u.kernel == t.kernel
  {
    u := Moved(s, n, Plainly(k));
  }

  // ---------------------------------------------------------------- stages of the database

  /** Room for one more Event, given a longer id than any before. */
  ghost predicate Tidy(db: Db, k: nat) {
    && db.generation == Some(GENERATION) && db.current == Some("e")
    && "e" in db.allocators && db.allocators["e"] == k && k < 9
    && forall c | c in db.journal :: c.sequence < k && |db.journal[c].id| < k
  }

  function Drawn(k: nat): Kernel.Draw {
    Kernel.Draw(seq(k, _ => 'x'), 0)
  }

  /** One Event more. */
  lemma TidyAppend(db: Db, eventType: Text, provenance: Option<Kernel.Key>, k: nat)
    requires Tidy(db, k) && k < 8 && 1 <= |eventType| <= 128
    ensures var appended := Kernel.Appended(db, eventType, provenance, Drawn(k));
      && appended.Ok? && Tidy(appended.value.0, k + 1)
      && appended.value.0.ledger == db.ledger && appended.value.0.domain == db.domain
  {
    assert Kernel.NextCursor(db) == Ok(Kernel.Cursor("e", k));
    assert Kernel.EventAdmitted(db, eventType, Drawn(k));
  }

  /** A derived command seen for the first time, whose mutation passes, is executed. */
  lemma CommitsOnce(s: System, operation: Operation, tree: Tree, k: nat)
    requires Suits(s.scheme) && Tidy(s.kernel.db, k) && k < 8
    requires KeyOf(s.scheme, ONCE, operation) !in s.kernel.db.ledger
    requires Granted(operation) && Mutator(ONCE, operation, tree)(Store(s)).Ok?
    ensures var (t, outcome) := Commit(s, ONCE, operation, tree, Drawn(k));
      Ran(outcome) && Tidy(t.kernel.db, k + 1)
  {
    var mutated := s.kernel.db.(domain := Mutator(ONCE, operation, tree)(Store(s)).value.0);
    TidyAppend(mutated, EventType(operation), Some(KeyOf(s.scheme, ONCE, operation)), k);
    assert Kernel.KeyAdmitted(KeyOf(s.scheme, ONCE, operation)) by { assert |GENERATION| == 32; }
  }

  /** The database after exactly these operations of `ONCE`, its request row open. */
  ghost predicate Stage(s: System, k: nat, row: Row, operations: seq<Operation>, artifacts: set<Name>) {
    && Tidy(s.kernel.db, k) && Ledger(s, operations)
    && Store(s).row == row && GRANT in Store(s).authority && Store(s).artifacts == artifacts
    && (artifacts == {} ==> Store(s).production == map[])
    && Store(s).requests == OPEN_ROW && Store(s).sessions == map["a" := BEARER]
  }

  ghost predicate Ledger(s: System, operations: seq<Operation>) {
    && (forall o | o in operations :: Granted(o))
    && (forall o | o in operations :: Performed(s, o))
    && (forall key | key in s.kernel.db.ledger :: exists o :: o in operations && key == KeyOf(s.scheme, ONCE, o))
  }

  ghost predicate Performed(s: System, operation: Operation) {
    var key := KeyOf(s.scheme, ONCE, operation); key in s.kernel.db.ledger && s.kernel.db.ledger[key].hash == []
  }

  lemma Unseen(s: System, operations: seq<Operation>, operation: Operation)
    requires Suits(s.scheme) && Ledger(s, operations) && operation !in operations && Granted(operation)
    ensures KeyOf(s.scheme, ONCE, operation) !in s.kernel.db.ledger
  {
    if KeyOf(s.scheme, ONCE, operation) in s.kernel.db.ledger {
      var o :| o in operations && KeyOf(s.scheme, ONCE, operation) == KeyOf(s.scheme, ONCE, o);
      assert Clash(s.scheme, ONCE, operation, ONCE, o);
    }
  }

  lemma LedgerOn(s: System, t: System, operations: seq<Operation>, operation: Operation, row: Kernel.Row)
    requires Ledger(s, operations) && Granted(operation) && t.scheme == s.scheme && row.hash == []
    requires t.kernel.db.ledger == s.kernel.db.ledger[KeyOf(s.scheme, ONCE, operation) := row]
    ensures Ledger(t, operations + [operation])
  {
    var all := operations + [operation];
    forall o | o in all ensures Performed(t, o) {
      if o in operations { assert Performed(s, o); }
    }
    forall key | key in t.kernel.db.ledger ensures exists o :: o in all && key == KeyOf(s.scheme, ONCE, o) {
      if key in s.kernel.db.ledger {
        var o :| o in operations && key == KeyOf(s.scheme, ONCE, o);
        assert o in all;
      } else {
        assert operation in all;
      }
    }
  }

  /** The next operation of `ONCE` commits. */
  lemma StageOn(s: System, k: nat, row: Row, operations: seq<Operation>, artifacts: set<Name>,
      operation: Operation, tree: Tree, row': Row, artifacts': set<Name>)
    requires Suits(s.scheme) && Stage(s, k, row, operations, artifacts) && k < 8
    requires operation !in operations && Granted(operation)
    requires var answer := Mutator(ONCE, operation, tree)(Store(s));
      && answer.Ok? && answer.value.0.row == row' && answer.value.0.artifacts == artifacts'
      && (artifacts' == {} ==> answer.value.0.production == map[])
    ensures var (t, outcome) := Commit(s, ONCE, operation, tree, Drawn(k));
      Ran(outcome) && Stage(t, k + 1, row', operations + [operation], artifacts')
  {
    Unseen(s, operations, operation);
    CommitsOnce(s, operation, tree, k);
    CommitEffect(s, ONCE, operation, tree, Drawn(k));
    var (t, outcome) := Commit(s, ONCE, operation, tree, Drawn(k));
    LedgerOn(s, t, operations, operation, Kernel.Row([], outcome.value.cursor, 0));
  }

  lemma StageMoves(s: System, t: System, k: nat, row: Row, operations: seq<Operation>, artifacts: set<Name>)
    requires Stage(s, k, row, operations, artifacts) && t.kernel == s.kernel && t.scheme == s.scheme
    ensures Stage(t, k, row, operations, artifacts)
  {
    forall o | o in operations ensures Performed(t, o) {
      assert Performed(s, o);
    }
  }

  // ---------------------------------------------------------------- the run

  /** A blank installation with one live session and one valid claim. */
  function Start(x: Scheme): System {
    Installed(x, GENERATION, "e", Domain(MUTABLE, {GRANT}, map["a" := BEARER], map[], {}, map[]), EMPTY)
  }

  /** The first call opens its request row. */
  lemma FirstOpens(x: Scheme) returns (s: System)
    requires Suits(x)
    ensures Arrived(s) && s.scheme == x && s.tree == EMPTY && s.callers == map[0 := At(Describing)]
    ensures Stage(s, 1, MUTABLE, [], {})
  {
    var s0 := Start(x);
    assert Run(s0, [], true) == s0;
    assert Arrived(s0);
    var s1 := Begins(s0, 0);
    s := Moved(s1, 0, Plainly(0));
    assert map[][("a", "q") := Request([], Started)] == OPEN_ROW;
  }

  /** It freezes the Workspace at revision 2. */
  lemma FirstFreezes(x: Scheme) returns (s: System)
    requires Suits(x)
    ensures Arrived(s) && s.scheme == x && s.tree == EMPTY && s.callers == map[0 := At(Rereading)]
    ensures Stage(s, 2, FENCE, [OPENING], {})
  {
    var s0 := FirstOpens(x);
    var s1 := Approaches(s0, 0);
    StageMoves(s0, s1, 1, MUTABLE, [], {});
    StageOn(s1, 1, MUTABLE, [], {}, OPENING, EMPTY, FENCE, {});
    assert [] + [OPENING] == [OPENING];
    s := Runs(s1, 0, 1);
    StageMoves(Commit(s1, ONCE, OPENING, EMPTY, Drawn(1)).0, s, 2, FENCE, [OPENING], {});
  }

  /** It captures the empty tree under its fence. */
  lemma FirstCaptures(x: Scheme) returns (s: System)
    requires Suits(x)
    ensures Arrived(s) && s.scheme == x && s.tree == EMPTY && s.callers == map[0 := At(Committing(2, EMPTY, true))]
    ensures Stage(s, 2, FENCE, [OPENING], {})
  {
    var s0 := FirstFreezes(x);
    var s1 := Rereads(s0, 0);
    s := Captures(s1, 0);
    StageMoves(s0, s, 2, FENCE, [OPENING], {});
  }

  /** The first call with its publication executed, about to complete its request. */
  const PUBLISHED := Local(ONCE, Completing(2, EMPTY, true), true)

  lemma FirstPublishes(x: Scheme) returns (s: System)
    requires Suits(x)
    ensures Arrived(s) && s.scheme == x && s.tree == EMPTY && s.callers == map[0 := PUBLISHED]
    ensures Stage(s, 3, FENCE, [OPENING, SEALING], {Named(EMPTY)})
  {
    var s0 := FirstCaptures(x);
    StageOn(s0, 2, FENCE, [OPENING], {}, SEALING, EMPTY, FENCE, {Named(EMPTY)});
    assert [OPENING] + [SEALING] == [OPENING, SEALING];
    s := Runs(s0, 0, 2);
    StageMoves(Commit(s0, ONCE, SEALING, EMPTY, Drawn(2)).0, s, 3, FENCE, [OPENING, SEALING], {Named(EMPTY)});
  }

  /** A retry finds the row STARTED and reads on. */
  lemma RetryApproaches(x: Scheme) returns (s: System)
    requires Suits(x)
    ensures Arrived(s) && s.scheme == x && s.callers == map[0 := PUBLISHED, 1 := At(Quiescing(FENCE))]
    ensures Stage(s, 3, FENCE, [OPENING, SEALING], {Named(EMPTY)})
  {
    var s0 := FirstPublishes(x);
    var s1 := Begins(s0, 1);
    var s2 := Moved(s1, 1, Plainly(0));
    assert s2.callers[1] == At(Describing) && s2.kernel == s0.kernel;
    s := Approaches(s2, 1);
    StageMoves(s0, s, 3, FENCE, [OPENING, SEALING], {Named(EMPTY)});
  }

  /** It finds the fence, is validated and goes on to capture. */
  lemma RetryIsValidated(x: Scheme) returns (s: System)
    requires Suits(x)
    ensures Arrived(s) && s.scheme == x && s.callers == map[0 := PUBLISHED, 1 := At(Capturing(2))]
    ensures Stage(s, 4, FENCE, [OPENING, SEALING, CHECKING], {Named(EMPTY)})
  {
    var s0 := RetryApproaches(x);
    StageOn(s0, 3, FENCE, [OPENING, SEALING], {Named(EMPTY)}, CHECKING, EMPTY, FENCE, {Named(EMPTY)});
    assert [OPENING, SEALING] + [CHECKING] == [OPENING, SEALING, CHECKING];
    s := Runs(s0, 1, 3);
    var t := Commit(s0, ONCE, CHECKING, EMPTY, Drawn(3)).0;
    StageMoves(t, s, 4, FENCE, [OPENING, SEALING, CHECKING], {Named(EMPTY)});
  }

  /** Another transaction moves the row on. */
  lemma RowMovesOn(s: System, after: Domain, k: nat)
    requires Tidy(s.kernel.db, k) && k < 8 && Rely(Store(s), after)
    ensures var t := Step(s, Foreign(None, after, Drawn(k)), true);
      && t.kernel.db.generation == s.kernel.db.generation && t.kernel.db.ledger == s.kernel.db.ledger
      && Store(t) == after && t.tree == s.tree && t.callers == s.callers
  {
    OthersLand(s, after, k);
  }

  lemma OthersLand(s: System, after: Domain, k: nat)
    requires Tidy(s.kernel.db, k) && k < 8
    ensures var t := Others(s, None, after, Drawn(k));
      && t == s.(kernel := t.kernel) && t.kernel.db.generation == s.kernel.db.generation
      && t.kernel.db.ledger == s.kernel.db.ledger && Store(t) == after
  {
    TidyAppend(s.kernel.db.(domain := after), "other", None, k);
  }

  /** ... and then the tree on disk changes. */
  lemma TreeGoes(s0: System, k: nat) returns (s: System)
    requires Arrived(s0) && Tidy(s0.kernel.db, k) && k < 8 && Store(s0).row == FENCE
    ensures Arrived(s) && s.scheme == s0.scheme && s.tree == GONE && s.callers == s0.callers
    ensures s.kernel.db.generation == s0.kernel.db.generation && s.kernel.db.ledger == s0.kernel.db.ledger
    ensures Store(s) == Store(s0).(row := Row(Elsewhere, false, 3))
  {
    var after := Store(s0).(row := Row(Elsewhere, false, 3));
    RowMovesOn(s0, after, k);
    Next(s0, Foreign(None, after, Drawn(k)));
    var s1 := Step(s0, Foreign(None, after, Drawn(k)), true);
    Next(s1, Write(GONE));
    s := Step(s1, Write(GONE), true);
  }

  lemma CommitReplays(s: System, tree: Tree, k: nat)
    requires s.kernel.db.generation == Some(GENERATION) && Performed(s, SEALING)
    ensures var (t, outcome) := Commit(s, ONCE, SEALING, tree, Drawn(k));
      outcome.Ok? && !Ran(outcome) && t.kernel.db == s.kernel.db
  {
  }

  /** The database as the mishap finds it: the row STARTED, only the empty tree's Artifact stored. */
  ghost predicate Poised(s: System) {
    && s.kernel.db.generation == Some(GENERATION) && Performed(s, SEALING)
    && Store(s).artifacts == {Named(EMPTY)} && Store(s).requests == OPEN_ROW && Store(s).sessions == map["a" := BEARER]
  }

  /** The retry captures what is there then. */
  lemma RetryCapturesLate(x: Scheme) returns (s: System)
    requires Suits(x)
    ensures Arrived(s) && s.callers == map[0 := PUBLISHED, 1 := At(Committing(2, GONE, false))] && Poised(s)
  {
    var s0 := RetryIsValidated(x);
    assert Performed(s0, SEALING) by { assert SEALING in [OPENING, SEALING, CHECKING]; }
    var s1 := TreeGoes(s0, 4);
    s := Captures(s1, 1);
  }

  /** Its publication replays. */
  lemma RetryReplays(x: Scheme) returns (s: System)
    requires Suits(x)
    ensures Arrived(s) && s.callers == map[0 := PUBLISHED, 1 := At(Completing(2, GONE, false))] && Poised(s)
  {
    var s0 := RetryCapturesLate(x);
    CommitReplays(s0, GONE, 5);
    s := Runs(s0, 1, 5);
    assert Performed(s, SEALING);
  }

  /** And its request succeeds, with a name nobody stored. */
  lemma RetrySucceeds(x: Scheme) returns (s: System)
    requires Suits(x)
    ensures Arrived(s) && 0 in s.callers && s.callers[0] == PUBLISHED
    ensures 1 in s.callers && s.callers[1] == At(Ended(Executed(Named(GONE))))
    ensures Store(s).artifacts == {Named(EMPTY)} && Answered(s, ONCE, Named(GONE))
    ensures Store(s).sessions == map["a" := BEARER] && s.kernel.db.generation == Some(GENERATION)
  {
    var s0 := RetryReplays(x);
    s := Moved(s0, 1, Plainly(0));
  }

  lemma TreesDiffer()
    ensures Named(GONE) != Named(EMPTY)
  {
    assert [1] in GONE && [1] !in EMPTY;
  }

  /** Even with workers that keep the fence and nobody crashing, a call can answer `Executed`, and its
      row record SUCCEEDED, with an Artifact nobody stored. */
  lemma SucceededNamesNothing()
    ensures exists s, n, name :: Reached(s, true) && n in s.callers && s.callers[n].point == Ended(Executed(name))
                                 && Answered(s, s.callers[n].call, name) && name !in Store(s).artifacts
  {
    DerivationSuits();
    TreesDiffer();
    var s := RetrySucceeds(Derivation((h: Kernel.Hash) => "out"));
    assert s.callers[1].point == Ended(Executed(Named(GONE)));
  }

  /** ... and the other call can answer `Executed` with an Artifact the row does not record. */
  lemma ExecutedUnanswered()
    ensures exists s, n, name :: Reached(s, true) && n in s.callers && s.callers[n].point == Ended(Executed(name))
                                 && !Answered(s, s.callers[n].call, name)
  {
    DerivationSuits();
    TreesDiffer();
    var s := RetrySucceeds(Derivation((h: Kernel.Hash) => "out"));
    var u := Moved(s, 0, Plainly(0));
    assert u.callers[0].point == Ended(Executed(Named(EMPTY)));
  }
}
