/** What one call of `seal_artifact` achieves when nothing comes between its steps: `SealProtocol` says
    what no interleaving breaks, this says that a seal gets done, and how one that cannot be done ends. */
module SealPasses {
  import opened Wrappers
  import opened MachineIntegers
  import opened SealIdentity
  import opened SealProtocol
  import Kernel = CommandKernel

  /** One caller's steps, one after the other. */
  function Turns(s: System, l: Local, inputs: seq<Input>): (System, Local) {
    if inputs == [] then (s, l)
    else
      var (t, k) := Turns(s, l, inputs[..|inputs| - 1]);
      Turn(t, k, inputs[|inputs| - 1])
  }

  lemma OneMore(s: System, l: Local, inputs: seq<Input>, input: Input, t: System, k: Local)
    requires Turns(s, l, inputs) == (t, k)
    ensures Turns(s, l, inputs + [input]) == Turn(t, k, input)
  {
    assert (inputs + [input])[..|inputs|] == inputs;
  }

  lemma {:induction false} Joined(s: System, l: Local, a: seq<Input>, b: seq<Input>, t: System, k: Local)
    requires Turns(s, l, a) == (t, k)
    ensures Turns(s, l, a + b) == Turns(t, k, b)
  {
    if b == [] {
      assert a + b == a;
    } else {
      var rest := b[..|b| - 1];
      Joined(s, l, a, rest, t, k);
      assert (a + b)[..|a + b| - 1] == a + rest;
    }
  }

  // ---------------------------------------------------------------- one derived command

  /** Nothing stands in the way of a new command: its identity is free and can be stored, its Event too. */
  ghost predicate Free(s: System, call: Call, operation: Operation, draw: Kernel.Draw) {
    var db, key := s.kernel.db, KeyOf(s.scheme, call, operation);
    && Kernel.Consistent(db) && db.generation == Some(call.epoch) && key !in db.ledger
    && |call.epoch| == 32 && 1 <= |key.id| <= MAX_COMMAND_ID
    && (forall c | c in db.journal :: db.journal[c].id != draw.eventId)
    && db.allocators[db.current.value] < I64_MAX
  }

  /** One Event of the step's type was journaled under its command, and nothing else but the domain, the
      ledger row and the allocator changed. */
  ghost predicate Journaled(before: Db, after: Db, key: Kernel.Key, eventType: Text, draw: Kernel.Draw) {
    exists cursor ::
      && Kernel.OneEventMore(before, after, cursor, Kernel.Event(draw.eventId, eventType, draw.now, Some(key)))
      && key in after.ledger && after.ledger[key].cursor == cursor
  }

  /** A new command whose mutation agrees is executed. */
  lemma Executes(s: System, call: Call, operation: Operation, tree: Tree, draw: Kernel.Draw, d: Domain)
    requires Free(s, call, operation, draw) && Mutator(call, operation, tree)(Store(s)) == Ok((d, ()))
    ensures var (t, answer) := Commit(s, call, operation, tree, draw);
      && Ran(answer) && Store(t) == d && t.tree == s.tree && t.scheme == s.scheme
      && Kernel.Consistent(t.kernel.db) && t.kernel.db.generation == s.kernel.db.generation
      && Journaled(s.kernel.db, t.kernel.db, KeyOf(s.scheme, call, operation), EventType(operation), draw)
      && t.kernel.db.ledger.Keys == s.kernel.db.ledger.Keys + {KeyOf(s.scheme, call, operation)}
  {
    var db, command, mutation := s.kernel.db, CommandOf(s.scheme, call, operation), Mutator(call, operation, tree);
    Kernel.ExecutingAnswers(db, command, mutation, draw);
    Kernel.ExecutingCommits(db, command, mutation, draw);
    Kernel.ExecutingKeepsConsistent(db, command, mutation, draw);
    var t := Commit(s, call, operation, tree, draw).0;
    var (after, outcome) := Kernel.Executing(db, command, mutation, draw);
    assert t.kernel.db == after;
    assert Kernel.OneEventMore(db, after, outcome.value.cursor,
      Kernel.Event(draw.eventId, EventType(operation), draw.now, Some(command.key)));
  }

  // ---------------------------------------------------------------- how a seal that fails ends

  /** The report of a failure under a fence. */
  lemma ReportTurn(s: System, l: Local, go: Input) returns (t: System)
    requires go.Go? && l.point.Reporting? && Free(s, l.call, Failure(l.point.fence), go.draw)
    requires Store(s).row.phase == Frozen && Store(s).row.revision == l.point.fence
    ensures Turn(s, l, go) == (t, l.(point := Refusing)) && Store(t) == Store(s)
    ensures t.kernel.db.generation == s.kernel.db.generation
    ensures Journaled(s.kernel.db, t.kernel.db, KeyOf(s.scheme, l.call, Failure(l.point.fence)),
      "workspace.capture-failed", go.draw)
  {
    Executes(s, l.call, Failure(l.point.fence), map[], go.draw, Store(s));
    t := Commit(s, l.call, Failure(l.point.fence), map[], go.draw).0;
  }

  /** The refusal on the request's row. */
  lemma RefuseTurn(s: System, l: Local, go: Input) returns (t: System)
    requires go.Go? && l.point == Refusing && Authorized(s.kernel.db, l.call)
    requires RowKey(l.call) in Store(s).requests && Store(s).requests[RowKey(l.call)].state == Started
    ensures Turn(s, l, go) == (t, l.(point := Ended(Failed)))
    ensures t.kernel.db == s.kernel.db.(domain := Store(t))
    ensures var row := Store(s).requests[RowKey(l.call)];
      Store(t) == WithRow(Store(s), RowKey(l.call), Request(row.hash, Refused))
  {
    t := Turn(s, l, go).0;
  }

  /** A seal whose capture fails under a fence: the failure is reported as one Event, the request row is
      refused, and nothing else of the store changes. */
  lemma FailedCaptureTold(s: System, l: Local, draw: Kernel.Draw, authority: Authority) returns (t: System, k: Local)
    requires l.point.Capturing? && Free(s, l.call, Failure(l.point.fence), draw)
    requires Store(s).row.phase == Frozen && Store(s).row.revision == l.point.fence
    requires Authorized(s.kernel.db, l.call)
    requires RowKey(l.call) in Store(s).requests && Store(s).requests[RowKey(l.call)].state == Started
    ensures var go := Go(draw, false, authority); Turns(s, l, [go, go, go]) == (t, k) && k.point == Ended(Failed)
    ensures var row := Store(s).requests[RowKey(l.call)];
      Store(t) == Store(s).(requests := Store(s).requests[RowKey(l.call) := Request(row.hash, Refused)])
    ensures Journaled(s.kernel.db, t.kernel.db, KeyOf(s.scheme, l.call, Failure(l.point.fence)),
      "workspace.capture-failed", draw)
  {
    var go, at := Go(draw, false, authority), l.(point := Reporting(l.point.fence));
    assert Turns(s, l, []) == (s, l);
    OneMore(s, l, [], go, s, l);
    assert [] + [go] == [go] && [go] + [go] == [go, go] && [go, go] + [go] == [go, go, go];
    OneMore(s, l, [go], go, s, at);
    var reported := ReportTurn(s, at, go);
    OneMore(s, l, [go, go], go, reported, l.(point := Refusing));
    t := RefuseTurn(reported, l.(point := Refusing), go);
    k := l.(point := Ended(Failed));
    StaysJournaled(s.kernel.db, reported.kernel.db, t.kernel.db, KeyOf(s.scheme, l.call, Failure(l.point.fence)),
      "workspace.capture-failed", draw);
  }

  lemma StaysJournaled(before: Db, after: Db, later: Db, key: Kernel.Key, eventType: Text, draw: Kernel.Draw)
    requires Journaled(before, after, key, eventType, draw) && later == after.(domain := later.domain)
    ensures Journaled(before, later, key, eventType, draw)
  {
    var event := Kernel.Event(draw.eventId, eventType, draw.now, Some(key));
    var cursor :| Kernel.OneEventMore(before, after, cursor, event) && key in after.ledger
      && after.ledger[key].cursor == cursor;
    assert Kernel.OneEventMore(before, later, cursor, event);
  }

  /** A publication the store refuses is reported like a failed capture, under the same fence. */
  lemma RefusedPublicationReported(s: System, l: Local, go: Input)
    requires go.Go? && l.point.Committing?
    requires TooLong(s, l) || Commit(s, l.call, OperationAt(l), l.point.tree, go.draw).1.Err?
    ensures var (t, k) := Turn(s, l, go);
      t.kernel.db == s.kernel.db && k == l.(point := Reporting(l.point.fence))
  {
    if !TooLong(s, l) { CommitEffect(s, l.call, OperationAt(l), l.point.tree, go.draw); }
  }

  // ---------------------------------------------------------------- a seal that nothing disturbs

  /** The call as it goes on once generation and authority are read. */
  function Claimed(s: System, l: Local, authority: Authority): Call
    requires s.kernel.db.generation.Some?
  {
    l.call.(epoch := s.kernel.db.generation.value, authority := authority)
  }

  /** What the call finds: a session, no row of its request, a Ready Workspace, and valid authority. */
  ghost predicate Welcome(s: System, l: Local, authority: Authority) {
    && s.kernel.db.generation.Some? && l.point == Asking && Authorized(s.kernel.db, l.call)
    && RowKey(l.call) !in Store(s).requests
    && Store(s).row.phase == Ready && Store(s).row.present
    && authority in Store(s).authority && Plain(authority.run)
  }

  /** With its request row open. */
  function Opened(s: System, l: Local): System {
    Written(s, WithRow(Store(s), RowKey(l.call), Request(l.call.hash, Started)))
  }

  lemma OpenTurn(s: System, l: Local, go: Input)
    requires go.Go? && go.well && Welcome(s, l, go.authority)
    ensures Turn(s, l, go) == (Opened(s, l), l.(point := Describing))
  {
  }

  /** What is read before the fence: the session, the generation with the authority, the Workspace row. */
  lemma ReadTurns(s: System, l: Local, go: Input)
    requires go.Go? && go.well && s.kernel.db.generation.Some? && Authorized(s.kernel.db, l.call)
    requires Plain(go.authority.run)
    ensures l.point == Describing ==> Turn(s, l, go) == (s, l.(point := Reading))
    ensures l.point == Reading ==> Turn(s, l, go) == (s, l.(call := Claimed(s, l, go.authority), point := Starting))
    ensures l.point == Starting ==> Turn(s, l, go) == (s, l.(point := Quiescing(Store(s).row)))
  {
  }

  /** From the request to the fence: the row is durable before anything else happens. */
  lemma Approaches(s: System, l: Local, go: Input) returns (inputs: seq<Input>)
    requires go.Go? && go.well && Welcome(s, l, go.authority)
    ensures forall i | i in inputs :: i == go
    ensures Turns(s, l, inputs) ==
      (Opened(s, l), l.(call := Claimed(s, l, go.authority), point := Quiescing(Store(s).row)))
  {
    var t, claimed := Opened(s, l), l.(call := Claimed(s, l, go.authority), point := Starting);
    assert Turns(s, l, []) == (s, l);
    OneMore(s, l, [], go, s, l);
    OpenTurn(s, l, go);
    inputs := [] + [go];
    OneMore(s, l, inputs, go, t, l.(point := Describing));
    ReadTurns(t, l.(point := Describing), go);
    inputs := inputs + [go];
    OneMore(s, l, inputs, go, t, l.(point := Reading));
    ReadTurns(t, l.(point := Reading), go);
    inputs := inputs + [go];
    OneMore(s, l, inputs, go, t, claimed);
    ReadTurns(t, claimed, go);
    inputs := inputs + [go];
  }

  /** The fence: the row is Frozen one revision on, and a second free command stays free. */
  lemma FenceTurn(s: System, l: Local, go: Input, publish: Kernel.Draw) returns (t: System)
    requires go.Go? && l.point == Quiescing(Store(s).row)
    requires Store(s).row.phase == Ready && Store(s).row.present && l.call.authority in Store(s).authority
    requires TwoFree(s, l.call, Store(s).row.revision, go.draw, publish)
    ensures Turn(s, l, go) == (t, l.(point := Rereading))
    ensures Store(t) == Store(s).(row := Row(Frozen, true, Store(s).row.revision + 1)) && t.tree == s.tree
    ensures t.kernel.db.generation == s.kernel.db.generation
    ensures Free(t, l.call, Publish(Store(s).row.revision + 1, l.call.authority), publish)
  {
    var r := Store(s).row.revision;
    var freeze, d := Freeze(r, l.call.authority), Store(s).(row := Row(Frozen, true, r + 1));
    assert Mutator(l.call, freeze, map[])(Store(s)) == Ok((d, ()));
    t := StaysFree(s, l.call, freeze, go.draw, d, Publish(r + 1, l.call.authority), publish);
  }

  /** The re-read: the fence holds. */
  lemma RereadTurn(s: System, l: Local, go: Input)
    requires go.Go? && l.point == Rereading && Store(s).row.phase == Frozen && Store(s).row.present
    ensures Turn(s, l, go) == (s, l.(point := Capturing(Store(s).row.revision)))
  {
  }

  /** The capture: the tree is the one on disk. */
  lemma CaptureTurn(s: System, l: Local, go: Input)
    requires go.Go? && go.well && l.point == Capturing(Store(s).row.revision)
    ensures Turn(s, l, go) == (s, l.(point := Committing(Store(s).row.revision, s.tree, true)))
  {
  }

  /** What a publication leaves. */
  function Produced(d: Domain, call: Call, tree: Tree): Domain {
    d.(artifacts := d.artifacts + {Named(tree)},
       production := d.production[(call.authority.run, call.slot) := Record(call.attempt, Named(tree))])
  }

  /** The publication, under its fence. */
  lemma PublishTurn(s: System, l: Local, go: Input) returns (t: System)
    requires go.Go? && l.point.Committing?
    requires Store(s).row.phase == Frozen && Store(s).row.revision == l.point.fence
    requires l.call.authority in Store(s).authority && (l.call.authority.run, l.call.slot) !in Store(s).production
    requires Free(s, l.call, Publish(l.point.fence, l.call.authority), go.draw)
    ensures Turn(s, l, go) ==
      (t, l.(point := Completing(l.point.fence, l.point.tree, l.point.held), published := true))
    ensures Store(t) == Produced(Store(s), l.call, l.point.tree)
    ensures t.kernel.db.generation == s.kernel.db.generation
  {
    var tree, publish := l.point.tree, Publish(l.point.fence, l.call.authority);
    Executes(s, l.call, publish, tree, go.draw, Produced(Store(s), l.call, tree));
    t := Commit(s, l.call, publish, tree, go.draw).0;
  }

  /** The answer is recorded on the request's row. */
  lemma CompleteTurn(s: System, l: Local, go: Input) returns (t: System)
    requires go.Go? && l.point.Completing? && Authorized(s.kernel.db, l.call)
    requires RowKey(l.call) in Store(s).requests && Store(s).requests[RowKey(l.call)].state == Started
    ensures Turn(s, l, go) == (t, l.(point := Ended(Executed(Named(l.point.tree)))))
    ensures var row := Store(s).requests[RowKey(l.call)];
      Store(t) == WithRow(Store(s), RowKey(l.call), Request(row.hash, Succeeded(Named(l.point.tree))))
  {
    t := Turn(s, l, go).0;
  }

  /** The fence's command and the publication's are new, with identities and Events that can be stored. */
  ghost predicate TwoFree(s: System, c: Call, r: nat, freeze: Kernel.Draw, publish: Kernel.Draw) {
    && Free(s, c, Freeze(r, c.authority), freeze) && Free(s, c, Publish(r + 1, c.authority), publish)
    && KeyOf(s.scheme, c, Freeze(r, c.authority)) != KeyOf(s.scheme, c, Publish(r + 1, c.authority))
    && freeze.eventId != publish.eventId
    && s.kernel.db.allocators[s.kernel.db.current.value] + 1 < I64_MAX
  }

  /** Opening the request row takes no command's place. */
  lemma OpenedStaysFree(s: System, l: Local, call: Call, r: nat, freeze: Kernel.Draw, publish: Kernel.Draw)
    requires TwoFree(s, call, r, freeze, publish)
    ensures TwoFree(Opened(s, l), call, r, freeze, publish)
  {
    Kernel.MutatedConsistent(s.kernel.db, Opened(s, l).kernel.db);
  }

  /** One executed command leaves room for another. */
  lemma StaysFree(s: System, call: Call, first: Operation, draw: Kernel.Draw, d: Domain, second: Operation,
      next: Kernel.Draw)
    returns (t: System)
    requires Free(s, call, first, draw) && Free(s, call, second, next)
    requires Mutator(call, first, map[])(Store(s)) == Ok((d, ()))
    requires KeyOf(s.scheme, call, first) != KeyOf(s.scheme, call, second) && draw.eventId != next.eventId
    requires s.kernel.db.allocators[s.kernel.db.current.value] + 1 < I64_MAX
    ensures var (after, answer) := Commit(s, call, first, map[], draw); t == after && Ran(answer)
    ensures Store(t) == d && t.tree == s.tree && t.kernel.db.generation == s.kernel.db.generation
    ensures Free(t, call, second, next)
  {
    Executes(s, call, first, map[], draw, d);
    t := Commit(s, call, first, map[], draw).0;
    var key := KeyOf(s.scheme, call, first);
    var cursor :| Kernel.OneEventMore(s.kernel.db, t.kernel.db, cursor,
        Kernel.Event(draw.eventId, EventType(first), draw.now, Some(key)))
      && key in t.kernel.db.ledger && t.kernel.db.ledger[key].cursor == cursor;
  }

  /** From the claim to the captured tree under a fence. */
  lemma GetsFenced(s: System, l: Local, freeze: Kernel.Draw, publish: Kernel.Draw)
    returns (inputs: seq<Input>, t: System)
    requires l.point == Quiescing(Store(s).row) && Store(s).row.phase == Ready && Store(s).row.present
    requires l.call.authority in Store(s).authority
    requires TwoFree(s, l.call, Store(s).row.revision, freeze, publish)
    ensures forall i | i in inputs :: i.Go? && i.well
    ensures Turns(s, l, inputs) == (t, l.(point := Committing(Store(s).row.revision + 1, s.tree, true)))
    ensures Store(t) == Store(s).(row := Row(Frozen, true, Store(s).row.revision + 1))
    ensures t.kernel.db.generation == s.kernel.db.generation
    ensures Free(t, l.call, Publish(Store(s).row.revision + 1, l.call.authority), publish)
  {
    var go := Go(freeze, true, l.call.authority);
    t := FenceTurn(s, l, go, publish);
    assert Turns(s, l, []) == (s, l);
    OneMore(s, l, [], go, s, l);
    inputs := [] + [go];
    OneMore(s, l, inputs, go, t, l.(point := Rereading));
    RereadTurn(t, l.(point := Rereading), go);
    inputs := inputs + [go];
    OneMore(s, l, inputs, go, t, l.(point := Capturing(Store(t).row.revision)));
    CaptureTurn(t, l.(point := Capturing(Store(t).row.revision)), go);
    inputs := inputs + [go];
  }

  /** From the captured tree to the recorded answer. */
  lemma GetsPublished(s: System, l: Local, go: Input) returns (t: System, k: Local)
    requires go.Go? && l.point.Committing?
    requires Store(s).row.phase == Frozen && Store(s).row.revision == l.point.fence
    requires l.call.authority in Store(s).authority && (l.call.authority.run, l.call.slot) !in Store(s).production
    requires Free(s, l.call, Publish(l.point.fence, l.call.authority), go.draw) && Authorized(s.kernel.db, l.call)
    requires RowKey(l.call) in Store(s).requests && Store(s).requests[RowKey(l.call)].state == Started
    ensures Turns(s, l, [go, go]) == (t, k) && k.point == Ended(Executed(Named(l.point.tree)))
    ensures var (key, name) := (RowKey(l.call), Named(l.point.tree));
      Store(t) == WithRow(Produced(Store(s), l.call, l.point.tree), key,
        Request(Store(s).requests[key].hash, Succeeded(name)))
  {
    var published := PublishTurn(s, l, go);
    var at := l.(point := Completing(l.point.fence, l.point.tree, l.point.held), published := true);
    assert Turns(s, l, []) == (s, l);
    OneMore(s, l, [], go, s, l);
    assert [] + [go] == [go] && [go] + [go] == [go, go];
    OneMore(s, l, [go], go, published, at);
    t := CompleteTurn(published, at, go);
    k := at.(point := Ended(Executed(Named(l.point.tree))));
  }

  lemma RowTwice(requests: map<(Text, Text), Request>, key: (Text, Text), first: Request, second: Request)
    ensures requests[key := first][key := second] == requests[key := second]
  {
  }

  /** From the claim to the end. */
  lemma ClaimedSealGetsDone(s: System, l: Local, freeze: Kernel.Draw, publish: Kernel.Draw)
    returns (inputs: seq<Input>, t: System, k: Local)
    requires l.point == Quiescing(Store(s).row) && Store(s).row.phase == Ready && Store(s).row.present
    requires l.call.authority in Store(s).authority && Authorized(s.kernel.db, l.call)
    requires TwoFree(s, l.call, Store(s).row.revision, freeze, publish)
    requires (l.call.authority.run, l.call.slot) !in Store(s).production
    requires RowKey(l.call) in Store(s).requests && Store(s).requests[RowKey(l.call)].state == Started
    ensures forall i | i in inputs :: i.Go? && i.well
    ensures Turns(s, l, inputs) == (t, k) && k.point == Ended(Executed(Named(s.tree)))
    ensures var (d, key) := (Store(s).(row := Row(Frozen, true, Store(s).row.revision + 1)), RowKey(l.call));
      Store(t) == WithRow(Produced(d, l.call, s.tree), key, Request(d.requests[key].hash, Succeeded(Named(s.tree))))
  {
    var fencing, fenced := GetsFenced(s, l, freeze, publish);
    var at := l.(point := Committing(Store(s).row.revision + 1, s.tree, true));
    var last := Go(publish, true, l.call.authority);
    t, k := GetsPublished(fenced, at, last);
    Joined(s, l, fencing, [last, last], fenced, at);
    inputs := fencing + [last, last];
  }

  /** A call that finds its session, a Ready Workspace and valid authority, and that nothing disturbs, is
      answered with the Artifact of the tree as it is: the Workspace is fenced one revision on, the
      Artifact is stored and recorded as the slot's production, and the request row records the answer. */
  lemma SealGetsDone(s: System, l: Local, authority: Authority, freeze: Kernel.Draw, publish: Kernel.Draw)
    returns (inputs: seq<Input>)
    requires Welcome(s, l, authority) && (authority.run, l.call.slot) !in Store(s).production
    requires TwoFree(s, Claimed(s, l, authority), Store(s).row.revision, freeze, publish)
    ensures forall i | i in inputs :: i.Go? && i.well
    ensures var (t, k) := Turns(s, l, inputs);
      var (d, after, name) := (Store(s), Store(t), Named(s.tree));
      && k.point == Ended(Executed(name))
      && after.row == Row(Frozen, true, d.row.revision + 1)
      && after.artifacts == d.artifacts + {name}
      && after.production == d.production[(authority.run, l.call.slot) := Record(l.call.attempt, name)]
      && after.requests == d.requests[RowKey(l.call) := Request(l.call.hash, Succeeded(name))]
      && after.authority == d.authority && after.sessions == d.sessions
  {
    var c := Claimed(s, l, authority);
    var opening := Approaches(s, l, Go(freeze, true, authority));
    var s1, l1 := Opened(s, l), l.(call := c, point := Quiescing(Store(s).row));
    OpenedStaysFree(s, l, c, Store(s).row.revision, freeze, publish);
    var rest, t, k := ClaimedSealGetsDone(s1, l1, freeze, publish);
    Joined(s, l, opening, rest, s1, l1);
    inputs := opening + rest;
    RowTwice(Store(s).requests, RowKey(l.call), Request(l.call.hash, Started),
      Request(l.call.hash, Succeeded(Named(s.tree))));
  }
}
