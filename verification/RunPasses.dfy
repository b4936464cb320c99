/** What one undisturbed pass of the Run Controller achieves, from every state a run can reach: the
    safety theorems of `RunController` say what it never does, these say what it does. */
module RunPasses {
  import opened Wrappers
  import opened RunController

  function Iterate<S>(f: S -> S, s: S, n: nat): S {
    if n == 0 then s else f(Iterate(f, s, n - 1))
  }

  lemma {:induction false} IterateSplit<S>(f: S -> S, s: S, m: nat, n: nat)
    ensures Iterate(f, s, m + n) == Iterate(f, Iterate(f, s, m), n)
  {
    if n > 0 { IterateSplit(f, s, m, n - 1); }
  }

  /** A pass left alone: the same input, `n` times. */
  function After(w: World, l: Local, input: Input, max: nat, n: nat): (World, Local) {
    Iterate((s: (World, Local)) => Step(s.0, s.1, input, max), (w, l), n)
  }

  lemma OneMore(w: World, l: Local, input: Input, max: nat, n: nat, v: World, k: Local)
    requires After(w, l, input, max, n) == (v, k)
    ensures After(w, l, input, max, n + 1) == Step(v, k, input, max)
  {
  }

  lemma Then(w: World, l: Local, input: Input, max: nat, m: nat, v: World, k: Local, n: nat)
    requires After(w, l, input, max, m) == (v, k)
    ensures After(w, l, input, max, m + n) == After(v, k, input, max, n)
  {
    IterateSplit((s: (World, Local)) => Step(s.0, s.1, input, max), (w, l), m, n);
  }

  lemma First(w: World, l: Local, input: Input, max: nat)
    ensures After(w, l, input, max, 0) == (w, l)
  {
  }

  /** Nothing is left to do for a Run that is not Active. */
  lemma {:induction false} PassRests(w: World, l: Local, input: Input, max: nat, n: nat)
    requires input.Go? && l.point.Idle? && !w.durable.active
    ensures After(w, l, input, max, n) == (w, l)
  {
    if n > 0 {
      PassRests(w, l, input, max, n - 1);
      OneMore(w, l, input, max, n - 1, w, l);
    }
  }

  /** An Active Run without a live Attempt, when the gates pass: one Attempt more, uncontacted, its session
      active under the drawn verifier, whose bearer the controller holds. */
  lemma PassCreates(w: World, l: Local, draw: Bearer, answer: Answer, max: nat) returns (n: nat)
    requires Invariant(w, l) && l.point.Idle? && w.durable.active && AllTerminal(w.durable)
    ensures var (v, k) := After(w, l, Go(draw, true, answer), max, n);
      && v.durable.active && v.durable.revision == w.durable.revision + 1
      && v.durable.attempts == w.durable.attempts + [Attempt(false, false, 1, 1, draw, true, Absent)]
      && v.trace == w.trace + [Created(|w.durable.attempts|, draw)]
      && k == Local(l.bearers[|w.durable.attempts| := Held(draw, 1)], Idle)
  {
    var go, ordinal := Go(draw, true, answer), |w.durable.attempts|;
    n := Approach(w, l, go, max);
    OneMore(w, l, go, max, n, w, l.(point := Preparing(w.durable.revision)));
    var at := l.(point := Creating(w.durable.revision, ordinal + 1));
    OneMore(w, l, go, max, n + 1, w, at);
    var v := Step(w, at, go, max).0;
    OneMore(w, l, go, max, n + 2, v, l.(point := Adopting(ordinal, Held(draw, 1))));
    n := n + 3;
  }

  /** The first step of a pass: the dispatch. */
  lemma Approach(w: World, l: Local, go: Input, max: nat) returns (n: nat)
    requires l.point.Idle? && go.Go?
    ensures n == 1 && After(w, l, go, max, n) == (w, l.(point := Dispatch(w.durable)))
  {
    First(w, l, go, max);
    n := 0;
    OneMore(w, l, go, max, n, w, l);
    n := n + 1;
  }

  /** When a gate fails the Run is concluded, its Attempts untouched. */
  lemma PassConcludes(w: World, l: Local, draw: Bearer, answer: Answer, max: nat) returns (n: nat)
    requires Invariant(w, l) && l.point.Idle? && w.durable.active && AllTerminal(w.durable)
    ensures var (v, k) := After(w, l, Go(draw, false, answer), max, n);
      && v == World(Durable(false, w.durable.revision + 1, w.durable.attempts), w.trace + [Concluded]) && k == l
  {
    var go := Go(draw, false, answer);
    n := Approach(w, l, go, max);
    OneMore(w, l, go, max, n, w, l.(point := Preparing(w.durable.revision)));
    OneMore(w, l, go, max, n + 1, w, l.(point := Concluding(w.durable.revision)));
    n := n + 2;
  }

  /** The controller holds the bearer of the credential revision that is stored. */
  predicate Holds(d: Durable, l: Local, a: nat)
    requires a < |d.attempts|
  {
    a in l.bearers && l.bearers[a].revision == d.attempts[a].credentialRevision
  }

  /** Only the row of `a` differs, and it is `row` now. */
  ghost predicate OnlyRow(before: Durable, after: Durable, a: nat, row: Attempt)
    requires a < |before.attempts|
  {
    after == before.(attempts := before.attempts[a := row])
  }

  /** A live Attempt of an Active Run, as an idle controller finds it. */
  ghost predicate Finds(w: World, l: Local, a: nat, contacted: bool) {
    && Invariant(w, l) && l.point.Idle? && w.durable.active && IsLive(w.durable, a)
    && w.durable.attempts[a].contacted == contacted
  }

  function Rekeyings(row: Attempt, draw: Bearer): Attempt {
    row.(credentialRevision := row.credentialRevision + 1, verifier := draw)
  }

  /** Without a usable bearer the pass rekeys first; rows and trace still agree. */
  lemma RekeysFirst(w: World, l: Local, draw: Bearer, answer: Answer, max: nat, a: nat)
    returns (n: nat, v: World, k: Local)
    requires Finds(w, l, a, false) && !Holds(w.durable, l, a)
    ensures After(w, l, Go(draw, true, answer), max, n) == (v, k) && Agrees(v)
    ensures var row := w.durable.attempts[a];
      && OnlyRow(w.durable, v.durable, a, Rekeyings(row, draw)) && v.trace == w.trace + [Rekeyed(a, draw)]
      && k == Local(l.bearers[a := Held(draw, row.credentialRevision + 1)], Refreshing(a))
  {
    var row, go := w.durable.attempts[a], Go(draw, true, answer);
    assert RowAgrees(row, Summary(w.trace, a));
    n := Approach(w, l, go, max);
    var at := l.(point := NeedBearer(a, row.credentialRevision));
    OneMore(w, l, go, max, n, w, at);
    v := Step(w, at, go, max).0;
    OneMore(w, l, go, max, n + 1, v, l.(point := Rekeying(a, Held(draw, row.credentialRevision + 1))));
    k := Local(l.bearers[a := Held(draw, row.credentialRevision + 1)], Refreshing(a));
    n := n + 2;
    RekeyCommits(w, l, a, draw);
    assert v == World(w.durable.(attempts := w.durable.attempts[a := Rekeyings(row, draw)]),
      w.trace + [Rekeyed(a, draw)]);
  }

  lemma KeepsBearer(w: World, l: Local, draw: Bearer, answer: Answer, max: nat, a: nat) returns (n: nat)
    requires Finds(w, l, a, false) && Holds(w.durable, l, a)
    ensures After(w, l, Go(draw, true, answer), max, n) == (w, l.(point := Refreshing(a)))
  {
    var go := Go(draw, true, answer);
    n := Approach(w, l, go, max);
    OneMore(w, l, go, max, n, w, l.(point := NeedBearer(a, w.durable.attempts[a].credentialRevision)));
    n := n + 1;
  }

  /** How a launched Attempt is recorded. */
  function Recorded(row: Attempt, answer: Answer): Attempt {
    Attempt(answer == Observed(Exited), true, row.statusRevision + 2, row.credentialRevision, row.verifier,
      answer != Observed(Exited), Seen(answer))
  }

  /** Marker, then contact. */
  lemma Contacts(w: World, l: Local, draw: Bearer, answer: Answer, max: nat, a: nat) returns (n: nat)
    requires Agrees(w) && w.durable.active && IsLive(w.durable, a) && !w.durable.attempts[a].contacted
    requires l.point == Refreshing(a) && a in l.bearers
    ensures var (row, bearer) := (w.durable.attempts[a], l.bearers[a].bearer);
      var (v, k) := After(w, l, Go(draw, true, answer), max, n);
      && OnlyRow(w.durable, v.durable, a, row.(contacted := true, statusRevision := row.statusRevision + 1))
      && v.trace == w.trace + [Marked(a), Launched(a, bearer, answer)]
      && k == l.(point := RecordingLaunch(a, Seen(answer)))
  {
    var row, go, bearer := w.durable.attempts[a], Go(draw, true, answer), l.bearers[a].bearer;
    assert RowAgrees(row, Summary(w.trace, a));
    First(w, l, go, max);
    n := 0;
    OneMore(w, l, go, max, n, w, l);
    var at := l.(point := Launching(a, row.statusRevision, row.credentialRevision));
    OneMore(w, l, go, max, n + 1, w, at);
    var v := Step(w, at, go, max).0;
    OneMore(w, l, go, max, n + 2, v, l.(point := Contacting(a, bearer)));
    assert w.trace + [Marked(a)] + [Launched(a, bearer, answer)] == w.trace + [Marked(a), Launched(a, bearer, answer)];
    n := n + 3;
  }

  /** What the launch answered is recorded. */
  lemma Records(v: World, k: Local, draw: Bearer, answer: Answer, max: nat, a: nat, row: Attempt)
    requires a < |v.durable.attempts| && k.point == RecordingLaunch(a, Seen(answer))
    requires row.sessionActive && !row.terminal
    requires v.durable.attempts[a] == row.(contacted := true, statusRevision := row.statusRevision + 1)
    ensures Step(v, k, Go(draw, true, answer), max) ==
      (World(v.durable.(attempts := v.durable.attempts[a := Recorded(row, answer)]),
             v.trace + (if answer == Observed(Exited) then [Terminated(a)] else [])),
       k.(point := Idle))
  {
    assert v.trace + [] == v.trace;
  }

  /** What a pass over an uncontacted Attempt leaves, given the row as it was keyed when launched. */
  ghost predicate LaunchedOnce(before: Durable, trace: seq<Event>, v: World, a: nat, keyed: Attempt, answer: Answer)
    requires a < |before.attempts|
  {
    && OnlyRow(before, v.durable, a, Recorded(keyed, answer))
    && v.trace == trace + [Marked(a), Launched(a, keyed.verifier, answer)]
         + (if answer == Observed(Exited) then [Terminated(a)] else [])
  }

  /** From the refreshed view to the recorded launch. */
  lemma LaunchTail(w: World, l: Local, draw: Bearer, answer: Answer, max: nat, a: nat) returns (n: nat)
    requires Agrees(w) && w.durable.active && IsLive(w.durable, a) && !w.durable.attempts[a].contacted
    requires l.point == Refreshing(a) && a in l.bearers && l.bearers[a].bearer == w.durable.attempts[a].verifier
    ensures var (v, k) := After(w, l, Go(draw, true, answer), max, n);
      k == l.(point := Idle) && LaunchedOnce(w.durable, w.trace, v, a, w.durable.attempts[a], answer)
  {
    var row, go := w.durable.attempts[a], Go(draw, true, answer);
    assert RowAgrees(row, Summary(w.trace, a));
    n := Contacts(w, l, draw, answer, max, a);
    var (v, k) := After(w, l, go, max, n);
    OneMore(w, l, go, max, n, v, k);
    Records(v, k, draw, answer, max, a, row);
    assert v.durable.attempts[a := Recorded(row, answer)] == w.durable.attempts[a := Recorded(row, answer)];
    n := n + 1;
  }

  /** An Active Run with a live Attempt that was never contacted and whose bearer is held: one pass marks it,
      launches it once with that bearer, and records what the launch said. */
  lemma PassLaunches(w: World, l: Local, draw: Bearer, answer: Answer, max: nat, a: nat) returns (n: nat)
    requires Finds(w, l, a, false) && Holds(w.durable, l, a)
    ensures var (v, k) := After(w, l, Go(draw, true, answer), max, n);
      k == l && LaunchedOnce(w.durable, w.trace, v, a, w.durable.attempts[a], answer)
  {
    assert HeldIsTrue(w.durable, a, l.bearers[a]);
    var at := l.(point := Refreshing(a));
    var m := KeepsBearer(w, l, draw, answer, max, a);
    var tail := LaunchTail(w, at, draw, answer, max, a);
    Then(w, l, Go(draw, true, answer), max, m, w, at, tail);
    n := m + tail;
  }

  /** When the bearer is lost the Attempt is rekeyed first, and launched with the new one. */
  lemma PassRekeysAndLaunches(w: World, l: Local, draw: Bearer, answer: Answer, max: nat, a: nat) returns (n: nat)
    requires Finds(w, l, a, false) && !Holds(w.durable, l, a)
    ensures var (v, k) := After(w, l, Go(draw, true, answer), max, n);
      && k.point == Idle
      && LaunchedOnce(w.durable, w.trace + [Rekeyed(a, draw)], v, a, Rekeyings(w.durable.attempts[a], draw), answer)
  {
    var m, v, k := RekeysFirst(w, l, draw, answer, max, a);
    var tail := LaunchTail(v, k, draw, answer, max, a);
    Then(w, l, Go(draw, true, answer), max, m, v, k, tail);
    n := m + tail;
    RowTwice(w.durable, v.durable, a, Rekeyings(w.durable.attempts[a], draw), answer);
  }

  lemma RowTwice(w: Durable, v: Durable, a: nat, keyed: Attempt, answer: Answer)
    requires a < |w.attempts| && OnlyRow(w, v, a, keyed)
    ensures v.(attempts := v.attempts[a := Recorded(keyed, answer)])
         == w.(attempts := w.attempts[a := Recorded(keyed, answer)])
  {
    assert v.attempts[a := Recorded(keyed, answer)] == w.attempts[a := Recorded(keyed, answer)];
  }

  predicate Over(answer: Answer) {
    answer == Observed(Exited) || answer == Observed(Absent)
  }

  /** How an inspected Attempt is recorded: exited or gone, it is over and its session with it. */
  function Judged(row: Attempt, answer: Answer): Attempt {
    Attempt(Over(answer), true, row.statusRevision + 1, row.credentialRevision, row.verifier, !Over(answer),
      Seen(answer))
  }

  lemma InspectTail(w: World, l: Local, draw: Bearer, answer: Answer, max: nat, a: nat) returns (n: nat)
    requires Finds(w, l, a, true)
    ensures var (v, k) := After(w, l, Go(draw, true, answer), max, n);
      && OnlyRow(w.durable, v.durable, a, Judged(w.durable.attempts[a], answer))
      && v.trace == w.trace + [Inspected(a, answer)] + (if Over(answer) then [Terminated(a)] else [])
      && k == l.(point := if Over(answer) then Deciding(a) else Idle)
  {
    var go := Go(draw, true, answer);
    assert RowAgrees(w.durable.attempts[a], Summary(w.trace, a));
    n := Approach(w, l, go, max);
    OneMore(w, l, go, max, n, w, l.(point := Inspecting(a)));
    OneMore(w, l, go, max, n + 1, w.(trace := w.trace + [Inspected(a, answer)]),
      l.(point := RecordingInspection(a, Seen(answer))));
    assert w.trace + [Inspected(a, answer)] + [] == w.trace + [Inspected(a, answer)];
    n := n + 2;
  }

  /** An Active Run with a contacted Attempt: one pass inspects it and records what was seen. One that is
      over ends, and with the limit used up the Run is concluded; otherwise the Run stays as it is. */
  lemma PassInspects(w: World, l: Local, draw: Bearer, answer: Answer, max: nat, a: nat) returns (n: nat)
    requires Finds(w, l, a, true)
    ensures var ends := Over(answer) && |w.durable.attempts| >= max;
      var (v, k) := After(w, l, Go(draw, true, answer), max, n);
      && k == l
      && v.durable.attempts == w.durable.attempts[a := Judged(w.durable.attempts[a], answer)]
      && v.durable.active == !ends && v.durable.revision == w.durable.revision + (if ends then 1 else 0)
      && v.trace == w.trace + [Inspected(a, answer)] + (if Over(answer) then [Terminated(a)] else [])
           + (if ends then [Concluded] else [])
  {
    var go := Go(draw, true, answer);
    n := InspectTail(w, l, draw, answer, max, a);
    var (v, k) := After(w, l, go, max, n);
    assert v.trace + [] == v.trace;
    if Over(answer) {
      OneMore(w, l, go, max, n, v, k);
      DecideStep(v, k, go, max);
      n := n + 1;
      if |w.durable.attempts| >= max {
        var at := l.(point := Concluding(w.durable.revision));
        OneMore(w, l, go, max, n, v, at);
        ConcludeStep(v, at, go, max);
        n := n + 1;
      }
    }
  }

  lemma DecideStep(w: World, l: Local, go: Input, max: nat)
    requires go.Go? && l.point.Deciding?
    ensures Step(w, l, go, max) ==
      (w, l.(point := if |w.durable.attempts| < max then Idle else Concluding(w.durable.revision)))
  {
  }

  lemma ConcludeStep(w: World, l: Local, go: Input, max: nat)
    requires go.Go? && l.point == Concluding(w.durable.revision)
    ensures Step(w, l, go, max) ==
      (World(w.durable.(active := false, revision := w.durable.revision + 1), w.trace + [Concluded]),
       l.(point := Idle))
  {
  }
}
