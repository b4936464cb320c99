/** The service order over durable scheduling state, the walk that serves it, and why no Goal
    waits longer than one round. */
module Scheduling {
  import opened ByteOrder
  import opened Wrappers
  import opened MachineIntegers
  import opened Sorting

  type Sequence = x: int | I64_MIN <= x <= I64_MAX witness 0

  datatype GoalFairness = GoalFairness(goal: Bytes, lastServed: Option<Sequence>)

  datatype SchedulableTask = SchedulableTask(task: Bytes, goal: Bytes, eligibleSince: int)

  /** The tuple the source sorts. */
  datatype Decision = Decision(served: int, goal: Bytes, since: int, task: Bytes)

  /** Lexicographic order on the tuple. */
  predicate DecisionLe(a: Decision, b: Decision) {
    || a.served < b.served
    || (a.served == b.served && Lt(a.goal, b.goal))
    || (a.served == b.served && a.goal == b.goal && a.since < b.since)
    || (a.served == b.served && a.goal == b.goal && a.since == b.since && Le(a.task, b.task))
  }

  lemma DecisionOrder()
    ensures TotalPreorder(DecisionLe)
    ensures forall a, b :: DecisionLe(a, b) && DecisionLe(b, a) ==> a == b
  {
    LeIsTotalOrder();
    forall a, b, c | DecisionLe(a, b) && DecisionLe(b, c) ensures DecisionLe(a, c) {
      if Lt(a.goal, b.goal) && Lt(b.goal, c.goal) { LtLe(a.goal, b.goal, c.goal); }
    }
  }

  /** The first fairness row of a Goal, as `find` returns it. */
  function LastServed(goals: seq<GoalFairness>, goal: Bytes): Option<Sequence> {
    if goals == [] then None
    else if goals[0].goal == goal then goals[0].lastServed
    else LastServed(goals[1..], goal)
  }

  function Position(last: Option<Sequence>): int {
    if last.None? then I64_MIN else last.value
  }

  function DecisionOf(goals: seq<GoalFairness>, task: SchedulableTask): Decision {
    Decision(Position(LastServed(goals, task.goal)), task.goal, task.eligibleSince, task.task)
  }

  function Decisions(goals: seq<GoalFairness>, tasks: seq<SchedulableTask>): seq<Decision> {
    Map(tasks, (t: SchedulableTask) => DecisionOf(goals, t))
  }

  function Order(goals: seq<GoalFairness>, tasks: seq<SchedulableTask>): seq<Decision> {
    Sort(Decisions(goals, tasks), DecisionLe)
  }

  // ---------------------------------------------------------------- what the order means

  /** Goal `a` was served longer ago than `b`, or never while `b` was. */
  predicate LongerUnserved(a: Option<Sequence>, b: Option<Sequence>) {
    b.Some? && (if a.Some? then a.value < b.value else I64_MIN < b.value)
  }

  /** Longer eligible; of two eligible equally long, the smaller id. */
  predicate Older(t: SchedulableTask, u: SchedulableTask) {
    t.eligibleSince < u.eligibleSince || (t.eligibleSince == u.eligibleSince && Lt(t.task, u.task))
  }

  /** Nothing is in favour of serving `u` before `t`: its Goal was not served longer ago, and among Goals
      served equally long ago does not come first by id; within one Goal it is not older. */
  ghost predicate MayPrecede(goals: seq<GoalFairness>, t: SchedulableTask, u: SchedulableTask) {
    var a, b := LastServed(goals, t.goal), LastServed(goals, u.goal);
    if t.goal == u.goal then !Older(u, t)
    else !LongerUnserved(b, a) && (LongerUnserved(a, b) || Lt(t.goal, u.goal))
  }

  /** `LastServed` looks at the first row of the Goal. */
  lemma {:induction false} FirstRow(goals: seq<GoalFairness>, goal: Bytes) returns (i: nat)
    ensures i <= |goals| && forall j | 0 <= j < i :: goals[j].goal != goal
    ensures if i == |goals| then LastServed(goals, goal) == None
      else goals[i].goal == goal && LastServed(goals, goal) == goals[i].lastServed
  {
    i := 0;
    if goals != [] && goals[0].goal != goal {
      var k := FirstRow(goals[1..], goal);
      i := k + 1;
      assert forall j | 1 <= j < i :: goals[j] == goals[1..][j - 1];
    }
  }

  function TaskOf(d: Decision): SchedulableTask {
    SchedulableTask(d.task, d.goal, d.since)
  }

  /** The Tasks themselves in service order. */
  function Queue(goals: seq<GoalFairness>, tasks: seq<SchedulableTask>): seq<SchedulableTask> {
    Map(Order(goals, tasks), TaskOf)
  }

  lemma DecisionTold(goals: seq<GoalFairness>, t: SchedulableTask, u: SchedulableTask)
    requires DecisionLe(DecisionOf(goals, t), DecisionOf(goals, u))
    ensures MayPrecede(goals, t, u)
  {
    LeIsTotalOrder();
  }

  /** Each decision of the order is that of a Task, and each Task's is among them. */
  lemma OrderMembers(goals: seq<GoalFairness>, tasks: seq<SchedulableTask>)
    ensures forall d | d in Order(goals, tasks) :: TaskOf(d) in tasks && d == DecisionOf(goals, TaskOf(d))
    ensures forall t | t in tasks :: DecisionOf(goals, t) in Order(goals, tasks)
    ensures |Order(goals, tasks)| == |tasks| && Sorted(Order(goals, tasks), DecisionLe)
  {
    var decisions := Decisions(goals, tasks);
    DecisionOrder();
    SortSorted(decisions, DecisionLe);
    SortMembers(decisions, DecisionLe);
    SortPermutes(decisions, DecisionLe);
    assert |multiset(decisions)| == |decisions|;
    forall d | d in decisions ensures TaskOf(d) in tasks && d == DecisionOf(goals, TaskOf(d)) {
      var i :| 0 <= i < |decisions| && decisions[i] == d;
      assert TaskOf(d) == tasks[i];
    }
    forall t | t in tasks ensures DecisionOf(goals, t) in decisions {
      var i :| 0 <= i < |tasks| && tasks[i] == t;
      assert decisions[i] == DecisionOf(goals, t);
    }
  }

  /** A permutation of the Tasks in which nothing speaks for serving a later one first. */
  ghost predicate Fair(goals: seq<GoalFairness>, tasks: seq<SchedulableTask>, queue: seq<SchedulableTask>) {
    && multiset(queue) == multiset(tasks)
    && forall i, j | 0 <= i < j < |queue| :: MayPrecede(goals, queue[i], queue[j])
  }

  lemma QueueFair(goals: seq<GoalFairness>, tasks: seq<SchedulableTask>)
    ensures Fair(goals, tasks, Queue(goals, tasks))
  {
    var decisions, order, queue := Decisions(goals, tasks), Order(goals, tasks), Queue(goals, tasks);
    OrderMembers(goals, tasks);
    SortPermutes(decisions, DecisionLe);
    MapPermuted(order, decisions, TaskOf);
    assert Map(decisions, TaskOf) == tasks;
    forall i, j | 0 <= i < j < |queue| ensures MayPrecede(goals, queue[i], queue[j]) {
      assert order[i] in order && order[j] in order && DecisionLe(order[i], order[j]);
      DecisionTold(goals, queue[i], queue[j]);
    }
  }

  /** `service_order`: every eligible Task once, those of the Goal longest unserved first and within a
      Goal the longest eligible first. */
  method ServiceOrder(goals: seq<GoalFairness>, tasks: seq<SchedulableTask>) returns (order: seq<(Bytes, Bytes)>)
    ensures |order| == |tasks| == |Queue(goals, tasks)| && Fair(goals, tasks, Queue(goals, tasks))
    ensures forall i | 0 <= i < |order| :: order[i] == (Queue(goals, tasks)[i].goal, Queue(goals, tasks)[i].task)
  {
    var candidates := [];
    for i := 0 to |tasks|
      invariant |candidates| == i
      invariant forall k | 0 <= k < i :: candidates[k] == DecisionOf(goals, tasks[k])
    {
      candidates := candidates + [DecisionOf(goals, tasks[i])];
    }
    assert candidates == Decisions(goals, tasks);
    var sorted := Sort(candidates, DecisionLe);
    OrderMembers(goals, tasks);
    QueueFair(goals, tasks);
    order := seq(|sorted|, i requires 0 <= i < |sorted| => (sorted[i].goal, sorted[i].task));
  }

  // ---------------------------------------------------------------- independence of input order

  /** Rows that name the same Goal put it at the same position, as they do when Goal ids are distinct. */
  ghost predicate Agreeing(goals: seq<GoalFairness>) {
    forall a, b | a in goals && b in goals && a.goal == b.goal :: Position(a.lastServed) == Position(b.lastServed)
  }

  lemma {:induction false} LastServedFound(goals: seq<GoalFairness>, goal: Bytes)
    ensures (forall row | row in goals :: row.goal != goal) ==> LastServed(goals, goal).None?
    ensures (exists row :: row in goals && row.goal == goal) ==> GoalFairness(goal, LastServed(goals, goal)) in goals
  {
    if goals != [] {
      LastServedFound(goals[1..], goal);
      assert forall row :: row in goals <==> row == goals[0] || row in goals[1..];
    }
  }

  lemma LastServedPermuted(a: seq<GoalFairness>, b: seq<GoalFairness>, goal: Bytes)
    requires Agreeing(a) && multiset(a) == multiset(b)
    ensures Position(LastServed(a, goal)) == Position(LastServed(b, goal))
  {
    LastServedFound(a, goal);
    LastServedFound(b, goal);
    assert forall row :: row in a <==> row in multiset(a);
    assert forall row :: row in b <==> row in multiset(b);
  }

  /** The same snapshot yields the same order, however its rows were collected. */
  lemma OrderCanonical(g: seq<GoalFairness>, h: seq<GoalFairness>, a: seq<SchedulableTask>, b: seq<SchedulableTask>)
    requires Agreeing(g) && multiset(g) == multiset(h) && multiset(a) == multiset(b)
    ensures Order(g, a) == Order(h, b)
  {
    forall t: SchedulableTask ensures DecisionOf(g, t) == DecisionOf(h, t) {
      LastServedPermuted(g, h, t.goal);
    }
    assert Decisions(g, b) == Decisions(h, b);
    MapPermuted(a, b, (t: SchedulableTask) => DecisionOf(g, t));
    DecisionOrder();
    SortCanonical(Decisions(g, a), Decisions(h, b), DecisionLe);
  }

  /** No permutation of the fairness rows changes any service order. */
  ghost predicate RowOrderIrrelevant(g: seq<GoalFairness>) {
    forall h, tasks: seq<SchedulableTask> | multiset(g) == multiset(h) :: Order(g, tasks) == Order(h, tasks)
  }

  /** Exactly when rows agree does their order not show: `find` takes whichever row comes first. */
  lemma RowOrderIrrelevantIff(g: seq<GoalFairness>)
    ensures RowOrderIrrelevant(g) <==> Agreeing(g)
  {
    if Agreeing(g) {
      forall h, tasks: seq<SchedulableTask> | multiset(g) == multiset(h) ensures Order(g, tasks) == Order(h, tasks) {
        OrderCanonical(g, h, tasks, tasks);
      }
    } else {
      var a, b :| a in g && b in g && a.goal == b.goal && Position(a.lastServed) != Position(b.lastServed);
      var row := if Position(LastServed(g, a.goal)) == Position(a.lastServed) then b else a;
      MovedToFront(g, row);
    }
  }

  /** A row of another position, moved to the front, is seen in the order of a single Task. */
  lemma MovedToFront(g: seq<GoalFairness>, row: GoalFairness)
    requires row in g && Position(LastServed(g, row.goal)) != Position(row.lastServed)
    ensures !RowOrderIrrelevant(g)
  {
    var i :| 0 <= i < |g| && g[i] == row;
    WithoutPermutes(g, i);
    var h, tasks := [row] + Without(g, i), [SchedulableTask([], row.goal, 0)];
    assert multiset(h) == multiset{row} + multiset(Without(g, i));
    OneTask(g, tasks[0]);
    OneTask(h, tasks[0]);
    assert Order(g, tasks)[0].served != Order(h, tasks)[0].served;
  }

  lemma OneTask(goals: seq<GoalFairness>, task: SchedulableTask)
    ensures Order(goals, [task]) == [DecisionOf(goals, task)]
  {
    var decisions := Decisions(goals, [task]);
    assert decisions == [DecisionOf(goals, task)] && decisions[1..] == [];
    assert Sort(decisions[1..], DecisionLe) == [];
    assert Sort(decisions, DecisionLe) == Insert(decisions[0], [], DecisionLe);
    assert [decisions[0]] + [] == [decisions[0]];
  }

  // ---------------------------------------------------------------- one scheduling cycle

  datatype Gate = ConfigurationUnavailable | OperatorPause | SlotHeld

  datatype Outcome =
    | Suppressed(gate: Gate)
    | Idle
    | Deferred(task: Bytes, reason: string)
    | Chosen(goal: Bytes, task: Bytes)
    | Failed(task: Bytes)

  /** A Task routes, or is refused; a refusal that will not correct itself has a backoff code. */
  datatype Routing = Routes | Refuses(code: Option<string>)

  const MOVED := "routing-state-moved"

  /** What a cycle finds before it selects anything. */
  datatype Gates = Gates(configured: bool, paused: bool, slotHeld: bool)

  /** The first decision of the order whose Task routes. */
  function FirstRoutable(order: seq<Decision>, routable: Bytes -> bool): Option<Decision> {
    if order == [] then None
    else if routable(order[0].task) then Some(order[0])
    else FirstRoutable(order[1..], routable)
  }

  /** The walk goes on past a refused Task once its backoff, if it deserves one, is recorded. */
  predicate Passes(route: Bytes -> Routing, records: Bytes -> bool, task: Bytes) {
    route(task).Refuses? && (route(task).code.Some? ==> records(task))
  }

  /** How many decisions are passed over. */
  function Passed(order: seq<Decision>, route: Bytes -> Routing, records: Bytes -> bool): (n: nat)
    ensures n <= |order|
    ensures forall k | 0 <= k < n :: Passes(route, records, order[k].task)
    ensures n < |order| ==> !Passes(route, records, order[n].task)
  {
    if order == [] || !Passes(route, records, order[0].task) then 0 else 1 + Passed(order[1..], route, records)
  }

  /** The backoffs recorded for passed-over Tasks, in order. */
  function Backoffs(passed: seq<Decision>, route: Bytes -> Routing): seq<(Bytes, string)> {
    if passed == [] then []
    else
      var earlier, last := Backoffs(passed[..|passed| - 1], route), passed[|passed| - 1].task;
      if route(last).Refuses? && route(last).code.Some? then earlier + [(last, route(last).code.value)] else earlier
  }

  /** What a deferral is put down to: the refusal's own code, or that the state moved. */
  function Reason(routing: Routing): (reason: string)
    ensures forall code :: routing == Refuses(Some(code)) ==> reason == code
    ensures routing == Refuses(None) ==> reason == "routing-state-moved"
  {
    if routing.Refuses? && routing.code.Some? then routing.code.value else MOVED
  }

  lemma BackoffsOn(order: seq<Decision>, route: Bytes -> Routing, i: nat)
    requires i < |order|
    ensures var earlier, task := Backoffs(order[..i], route), order[i].task;
      Backoffs(order[..i + 1], route) ==
        if route(task).Refuses? && route(task).code.Some? then earlier + [(task, route(task).code.value)] else earlier
  {
    assert order[..i + 1][..i] == order[..i];
  }

  /** What the walk over an order answers and records, given how far it gets. */
  ghost predicate Walked(order: seq<Decision>, route: Bytes -> Routing, n: nat, outcome: Outcome,
      recorded: seq<(Bytes, string)>)
    requires n <= |order|
  {
    && recorded == Backoffs(order[..n], route)
    && if n < |order| then outcome ==
         (if route(order[n].task).Routes? then Chosen(order[n].goal, order[n].task) else Failed(order[n].task))
       else if n == 0 then outcome == Idle
       else outcome == Deferred(order[n - 1].task, Reason(route(order[n - 1].task)))
  }

  lemma PassedIs(order: seq<Decision>, route: Bytes -> Routing, records: Bytes -> bool, n: nat)
    requires n <= |order| && (forall k | 0 <= k < n :: Passes(route, records, order[k].task))
    requires n < |order| ==> !Passes(route, records, order[n].task)
    ensures Passed(order, route, records) == n
  {
  }

  method WalkOrder(order: seq<(Bytes, Bytes)>, route: Bytes -> Routing, records: Bytes -> bool,
      ghost decisions: seq<Decision>)
    returns (outcome: Outcome, recorded: seq<(Bytes, string)>)
    requires |decisions| == |order| && forall i | 0 <= i < |order| :: order[i] == (decisions[i].goal, decisions[i].task)
    ensures Walked(decisions, route, Passed(decisions, route, records), outcome, recorded)
  {
    recorded := [];
    outcome := Idle;
    for i := 0 to |order|
      invariant forall k | 0 <= k < i :: Passes(route, records, decisions[k].task)
      invariant recorded == Backoffs(decisions[..i], route)
      invariant outcome == if i == 0 then Idle
        else Deferred(decisions[i - 1].task, Reason(route(decisions[i - 1].task)))
    {
      var task := order[i].1;
      BackoffsOn(decisions, route, i);
      if route(task).Routes? {
        PassedIs(decisions, route, records, i);
        return Chosen(order[i].0, task), recorded;
      }
      if route(task).code.Some? {
        if !records(task) {
          PassedIs(decisions, route, records, i);
          return Failed(task), recorded;
        }
        recorded := recorded + [(task, route(task).code.value)];
      }
      outcome := Deferred(task, Reason(route(task)));
    }
    PassedIs(decisions, route, records, |order|);
  }

  /** `schedule_once` up to T3: a closed gate suppresses it; otherwise the walk records a backoff for
      each Task it passes over and ends at the first that routes, or at a backoff it cannot record. */
  method ScheduleOnce(gates: Gates, goals: seq<GoalFairness>, tasks: seq<SchedulableTask>, route: Bytes -> Routing,
      records: Bytes -> bool)
    returns (outcome: Outcome, recorded: seq<(Bytes, string)>)
    ensures !gates.configured ==> outcome == Suppressed(ConfigurationUnavailable)
    ensures gates.configured && gates.paused ==> outcome == Suppressed(OperatorPause)
    ensures gates.configured && !gates.paused && gates.slotHeld ==> outcome == Suppressed(SlotHeld)
    ensures outcome.Suppressed? ==> recorded == []
    ensures gates.configured && !gates.paused && !gates.slotHeld ==>
      Walked(Order(goals, tasks), route, Passed(Order(goals, tasks), route, records), outcome, recorded)
    ensures outcome.Chosen? ==> exists t ::
      && t in tasks && t.goal == outcome.goal && t.task == outcome.task && route(t.task).Routes?
      && forall u | u in tasks && route(u.task).Routes? :: MayPrecede(goals, t, u)
  {
    if !gates.configured {
      return Suppressed(ConfigurationUnavailable), [];
    }
    if gates.paused {
      return Suppressed(OperatorPause), [];
    }
    if gates.slotHeld {
      return Suppressed(SlotHeld), [];
    }
    var order := ServiceOrder(goals, tasks);
    if order == [] {
      return Idle, [];
    }
    outcome, recorded := WalkOrder(order, route, records, Order(goals, tasks));
    if outcome.Chosen? { ChosenHasPrecedence(goals, tasks, route, records); }
  }

  /** A Task taken to T3 yields to no other that routes: of its own Goal none has been eligible longer,
      and no other Goal with a routable Task has been unserved longer. */
  lemma ChosenHasPrecedence(goals: seq<GoalFairness>, tasks: seq<SchedulableTask>, route: Bytes -> Routing,
      records: Bytes -> bool)
    requires var order := Order(goals, tasks);
      var n := Passed(order, route, records); n < |order| && route(order[n].task).Routes?
    ensures var order := Order(goals, tasks);
      var t := TaskOf(order[Passed(order, route, records)]);
      && t in tasks
      && forall u | u in tasks && route(u.task).Routes? :: MayPrecede(goals, t, u)
  {
    var order := Order(goals, tasks);
    var n := Passed(order, route, records);
    OrderMembers(goals, tasks);
    assert order[n] in order;
    forall u | u in tasks && route(u.task).Routes? ensures MayPrecede(goals, TaskOf(order[n]), u) {
      assert DecisionOf(goals, u) in order;
      var m :| 0 <= m < |order| && order[m] == DecisionOf(goals, u);
      assert m < n ==> Passes(route, records, order[m].task);
      DecisionOrder();
      DecisionTold(goals, TaskOf(order[n]), u);
    }
  }

  /** A backoff is recorded exactly for the passed-over Tasks whose refusal has a code, with that code. */
  lemma {:induction false} BackoffsExactly(passed: seq<Decision>, route: Bytes -> Routing, task: Bytes, code: string)
    ensures (task, code) in Backoffs(passed, route) <==>
      (exists d :: d in passed && d.task == task) && route(task) == Refuses(Some(code))
  {
    if passed != [] {
      var rest, last := passed[..|passed| - 1], passed[|passed| - 1];
      BackoffsExactly(rest, route, task, code);
      assert forall d :: d in passed <==> d in rest || d == last;
    }
  }

  /** The Task a cycle takes to T3 is the first of the order that routes; a cycle that takes none has
      none, or stopped ahead of it at a backoff it could not record. */
  lemma ChosenIsFirst(order: seq<Decision>, route: Bytes -> Routing, records: Bytes -> bool)
    ensures var n, first := Passed(order, route, records), FirstRoutable(order, task => route(task).Routes?);
      if n < |order| && route(order[n].task).Routes? then first == Some(order[n])
      else first.None? || (n < |order| && !records(order[n].task))
  {
    var n := Passed(order, route, records);
    FirstFrom(order, task => route(task).Routes?, n);
    if n == |order| { assert order[n..] == []; }
  }

  lemma {:induction false} FirstFrom(order: seq<Decision>, routable: Bytes -> bool, n: nat)
    requires n <= |order| && forall k | 0 <= k < n :: !routable(order[k].task)
    ensures FirstRoutable(order, routable) == FirstRoutable(order[n..], routable)
  {
    if n > 0 {
      FirstFrom(order[1..], routable, n - 1);
      assert order[1..][n - 1..] == order[n..];
    } else {
      assert order[0..] == order;
    }
  }

  lemma {:induction false} FirstRoutableIsLeast(order: seq<Decision>, routable: Bytes -> bool, d: Decision)
    requires Sorted(order, DecisionLe) && d in order && routable(d.task)
    ensures FirstRoutable(order, routable).Some?
    ensures var first := FirstRoutable(order, routable).value;
      && first in order && routable(first.task)
      && DecisionLe(first, d)
  {
    if routable(order[0].task) {
      var i :| 0 <= i < |order| && order[i] == d;
      if i == 0 { DecisionOrder(); } else { assert DecisionLe(order[0], order[i]); }
    } else {
      assert d in order[1..];
      FirstRoutableIsLeast(order[1..], routable, d);
    }
  }

  // ---------------------------------------------------------------- bounded waiting

  /** Durable fairness: the sequence each Goal was last charged, and the next one to charge. */
  datatype Fairness = Fairness(last: map<Bytes, int>, next: int)

  ghost predicate WellCharged(f: Fairness) {
    1 <= f.next <= I64_MAX && forall g | g in f.last :: 1 <= f.last[g] < f.next
  }

  function Charged(f: Fairness, goal: Bytes): int {
    if goal in f.last then f.last[goal] else I64_MIN
  }

  /** T3 charges the served Goal the next sequence. */
  function Charge(f: Fairness, goal: Bytes): Fairness {
    Fairness(f.last[goal := f.next], f.next + 1)
  }

  /** The rows a cycle reads, in any order. */
  ghost predicate Reads(goals: seq<GoalFairness>, f: Fairness) {
    forall g :: Position(LastServed(goals, g)) == Charged(f, g)
  }

  /** What one cycle sees, and whether its T3 commits or loses to contention. */
  datatype Cycle = Cycle(goals: seq<GoalFairness>, tasks: seq<SchedulableTask>, routable: Bytes -> bool, commits: bool)

  function Selected(c: Cycle): Option<Decision> {
    FirstRoutable(Order(c.goals, c.tasks), c.routable)
  }

  /** T3 lands, unless the cycle loses or the next sequence would leave the stored range. */
  predicate Lands(f: Fairness, c: Cycle) {
    c.commits && Selected(c).Some? && f.next < I64_MAX
  }

  function After(f: Fairness, c: Cycle): Fairness {
    if Lands(f, c) then Charge(f, Selected(c).value.goal) else f
  }

  /** The Goals served by a run, in order, and the fairness it ends in. */
  function Served(f: Fairness, cycles: seq<Cycle>): (seq<Bytes>, Fairness) {
    if cycles == [] then ([], f)
    else
      var (served, before) := Served(f, cycles[..|cycles| - 1]);
      var c := cycles[|cycles| - 1];
      (if Lands(before, c) then served + [Selected(c).value.goal] else served, After(before, c))
  }

  /** Throughout the run the cycles read current fairness, Goals come from a fixed set, and `goal`
      keeps an eligible Task that routes. */
  ghost predicate Contends(f: Fairness, cycles: seq<Cycle>, all: set<Bytes>, goal: Bytes) {
    forall i | 0 <= i < |cycles| ::
      && Reads(cycles[i].goals, Served(f, cycles[..i]).1)
      && (forall t | t in cycles[i].tasks :: t.goal in all)
      && (exists t :: t in cycles[i].tasks && t.goal == goal && cycles[i].routable(t.task))
  }

  /** The Goals that would be served before `goal`. */
  function Ahead(f: Fairness, all: set<Bytes>, goal: Bytes): set<Bytes> {
    set h | h in all && h != goal
      && (Charged(f, h) < Charged(f, goal) || (Charged(f, h) == Charged(f, goal) && Lt(h, goal)))
  }

  /** A cycle that serves another Goal serves one that was ahead. */
  lemma ServesFromAhead(f: Fairness, c: Cycle, all: set<Bytes>, goal: Bytes)
    requires Reads(c.goals, f) && (forall t | t in c.tasks :: t.goal in all)
    requires exists t :: t in c.tasks && t.goal == goal && c.routable(t.task)
    ensures Selected(c).Some?
    ensures Selected(c).value.goal == goal || Selected(c).value.goal in Ahead(f, all, goal)
  {
    var t :| t in c.tasks && t.goal == goal && c.routable(t.task);
    var decisions, order := Decisions(c.goals, c.tasks), Order(c.goals, c.tasks);
    DecisionOrder();
    SortSorted(decisions, DecisionLe);
    SortMembers(decisions, DecisionLe);
    var i :| 0 <= i < |c.tasks| && c.tasks[i] == t;
    assert decisions[i] in order;
    FirstRoutableIsLeast(order, c.routable, decisions[i]);
    var first := Selected(c).value;
    assert first in decisions;
    var k :| 0 <= k < |decisions| && decisions[k] == first;
    assert first == DecisionOf(c.goals, c.tasks[k]) && c.tasks[k] in c.tasks;
  }

  /** Once served, a Goal is no longer ahead of one that is still waiting. */
  lemma ChargeLeavesAhead(f: Fairness, all: set<Bytes>, goal: Bytes, served: Bytes)
    requires WellCharged(f) && f.next < I64_MAX && served in Ahead(f, all, goal)
    ensures WellCharged(Charge(f, served)) && Ahead(Charge(f, served), all, goal) == Ahead(f, all, goal) - {served}
  {
  }

  /** Every commit so far went to a different Goal that had been ahead and no longer is. */
  ghost predicate Shrunk(f: Fairness, served: seq<Bytes>, after: Fairness, all: set<Bytes>, goal: Bytes) {
    && WellCharged(after)
    && |served| + |Ahead(after, all, goal)| == |Ahead(f, all, goal)|
    && (forall i, j | 0 <= i < j < |served| :: served[i] != served[j])
    && (forall h | h in served :: h !in Ahead(after, all, goal))
  }

  lemma ShrinkStep(f: Fairness, served: seq<Bytes>, before: Fairness, all: set<Bytes>, goal: Bytes, next: Bytes)
    requires Shrunk(f, served, before, all, goal) && before.next < I64_MAX && next in Ahead(before, all, goal)
    ensures Shrunk(f, served + [next], Charge(before, next), all, goal)
  {
    ChargeLeavesAhead(before, all, goal, next);
  }

  lemma {:induction false} AheadShrinks(f: Fairness, cycles: seq<Cycle>, all: set<Bytes>, goal: Bytes)
    requires WellCharged(f) && Contends(f, cycles, all, goal) && goal !in Served(f, cycles).0
    ensures Shrunk(f, Served(f, cycles).0, Served(f, cycles).1, all, goal)
  {
    if cycles != [] {
      var rest, c := cycles[..|cycles| - 1], cycles[|cycles| - 1];
      ContendsEarlier(f, cycles, all, goal);
      AheadShrinks(f, rest, all, goal);
      var (served, before) := Served(f, rest);
      ServesFromAhead(before, c, all, goal);
      if Lands(before, c) {
        ShrinkStep(f, served, before, all, goal, Selected(c).value.goal);
      }
    }
  }

  lemma ContendsEarlier(f: Fairness, cycles: seq<Cycle>, all: set<Bytes>, goal: Bytes)
    requires cycles != [] && Contends(f, cycles, all, goal)
    ensures Contends(f, cycles[..|cycles| - 1], all, goal)
  {
    var rest := cycles[..|cycles| - 1];
    assert forall i | 0 <= i < |rest| :: rest[i] == cycles[i] && rest[..i] == cycles[..i];
  }

  /** A Goal that keeps a routable eligible Task is served after at most N - 1 commits to others,
      each to a different Goal, whatever is deferred, lost to contention or newly eligible. */
  lemma BoundedWaiting(f: Fairness, cycles: seq<Cycle>, all: set<Bytes>, goal: Bytes)
    requires WellCharged(f) && goal in all && Contends(f, cycles, all, goal) && goal !in Served(f, cycles).0
    ensures |Served(f, cycles).0| <= |all| - 1
    ensures forall i, j | 0 <= i < j < |Served(f, cycles).0| :: Served(f, cycles).0[i] != Served(f, cycles).0[j]
  {
    AheadShrinks(f, cycles, all, goal);
    Included(Ahead(f, all, goal), all - {goal});
  }

  lemma {:induction false} Included<T>(a: set<T>, b: set<T>)
    requires a <= b
    ensures |a| <= |b|
    decreases |a|
  {
    if a != {} {
      var x :| x in a;
      Included(a - {x}, b - {x});
    }
  }

  // ---------------------------------------------------------------- bounded waiting of a Task

  /** The Tasks taken by a run, in order. */
  function Starts(f: Fairness, cycles: seq<Cycle>): seq<SchedulableTask> {
    if cycles == [] then []
    else
      var rest, c := cycles[..|cycles| - 1], cycles[|cycles| - 1];
      if Lands(Served(f, rest).1, c) then Starts(f, rest) + [TaskOf(Selected(c).value)] else Starts(f, rest)
  }

  /** Throughout the run the cycles read current fairness, Goals come from a fixed set and `task` stays
      eligible and routable. A Task of its Goal that was eligible earlier is one of `older`, and having been
      served its interval is over: T3 ends it, and a new one begins later. */
  ghost predicate TaskContends(f: Fairness, cycles: seq<Cycle>, all: set<Bytes>, task: SchedulableTask,
      older: set<SchedulableTask>) {
    forall i | 0 <= i < |cycles| ::
      && Reads(cycles[i].goals, Served(f, cycles[..i]).1)
      && (forall t | t in cycles[i].tasks :: t.goal in all)
      && task in cycles[i].tasks && cycles[i].routable(task.task)
      && (forall u | u in cycles[i].tasks && u.goal == task.goal && Older(u, task) ::
            u in older && u !in Starts(f, cycles[..i]))
  }

  lemma TaskContendsEarlier(f: Fairness, cycles: seq<Cycle>, all: set<Bytes>, task: SchedulableTask,
      older: set<SchedulableTask>)
    requires cycles != [] && TaskContends(f, cycles, all, task, older)
    ensures TaskContends(f, cycles[..|cycles| - 1], all, task, older)
  {
    var rest := cycles[..|cycles| - 1];
    assert forall i | 0 <= i < |rest| :: rest[i] == cycles[i] && rest[..i] == cycles[..i];
  }

  /** What a cycle selects has precedence over every Task that routes. */
  lemma SelectedHasPrecedence(c: Cycle, t: SchedulableTask)
    requires t in c.tasks && c.routable(t.task)
    ensures Selected(c).Some? && TaskOf(Selected(c).value) in c.tasks
    ensures MayPrecede(c.goals, TaskOf(Selected(c).value), t)
  {
    OrderMembers(c.goals, c.tasks);
    FirstRoutableIsLeast(Order(c.goals, c.tasks), c.routable, DecisionOf(c.goals, t));
    DecisionTold(c.goals, TaskOf(Selected(c).value), t);
  }

  function Left(older: set<SchedulableTask>, starts: seq<SchedulableTask>): set<SchedulableTask> {
    set u | u in older && u !in starts
  }

  /** How many commits can still come first: a round for each older Task left, and the Goals now ahead. */
  function Wait(f: Fairness, all: set<Bytes>, goal: Bytes, older: set<SchedulableTask>, starts: seq<SchedulableTask>)
    : nat
  {
    |Left(older, starts)| * |all| + |Ahead(f, all, goal)|
  }

  /** Services of the waiting Task's Goal go to different older Tasks. */
  ghost predicate ToOlder(starts: seq<SchedulableTask>, task: SchedulableTask, older: set<SchedulableTask>) {
    && (forall u | u in starts && u.goal == task.goal :: u in older && Older(u, task))
    && (forall i, j | 0 <= i < j < |starts| && starts[i].goal == task.goal :: starts[i] != starts[j])
  }

  /** Serving another Goal takes one Goal from ahead. */
  lemma WaitOther(f: Fairness, all: set<Bytes>, task: SchedulableTask, older: set<SchedulableTask>,
      starts: seq<SchedulableTask>, next: SchedulableTask)
    requires WellCharged(f) && f.next < I64_MAX && next.goal in Ahead(f, all, task.goal)
    ensures Wait(Charge(f, next.goal), all, task.goal, older, starts + [next]) +
      1 <= Wait(f, all, task.goal, older, starts)
  {
    ChargeLeavesAhead(f, all, task.goal, next.goal);
    Fewer(Left(older, starts + [next]), Left(older, starts), |all|);
  }

  /** Serving an older Task of the Goal takes a whole round. */
  lemma WaitOwn(f: Fairness, all: set<Bytes>, task: SchedulableTask, older: set<SchedulableTask>,
      starts: seq<SchedulableTask>, next: SchedulableTask)
    requires task.goal in all && next in older && next !in starts
    ensures Wait(Charge(f, task.goal), all, task.goal, older, starts + [next]) + 1
      <= Wait(f, all, task.goal, older, starts)
  {
    assert Left(older, starts + [next]) == Left(older, starts) - {next};
    var left := |Left(older, starts)|;
    assert (left - 1) * |all| == left * |all| - |all|;
    Included(Ahead(Charge(f, task.goal), all, task.goal), all - {task.goal});
  }

  lemma Fewer(a: set<SchedulableTask>, b: set<SchedulableTask>, n: nat)
    requires a <= b
    ensures |a| * n <= |b| * n
  {
    Included(a, b);
    assert (|b| - |a|) * n >= 0;
  }

  lemma {:induction false} TaskWait(f: Fairness, cycles: seq<Cycle>, all: set<Bytes>, task: SchedulableTask,
      older: set<SchedulableTask>)
    requires WellCharged(f) && TaskContends(f, cycles, all, task, older) && task !in Starts(f, cycles)
    ensures WellCharged(Served(f, cycles).1) && ToOlder(Starts(f, cycles), task, older)
    ensures |Starts(f, cycles)| + Wait(Served(f, cycles).1, all, task.goal, older, Starts(f, cycles))
      <= Wait(f, all, task.goal, older, [])
  {
    if cycles != [] {
      var rest, c := cycles[..|cycles| - 1], cycles[|cycles| - 1];
      TaskContendsEarlier(f, cycles, all, task, older);
      TaskWait(f, rest, all, task, older);
      var before, starts := Served(f, rest).1, Starts(f, rest);
      SelectedHasPrecedence(c, task);
      if Lands(before, c) {
        var next := TaskOf(Selected(c).value);
        if next.goal == task.goal {
          LeIsTotalOrder();
          assert Older(next, task) && next in older && next !in starts;
          WaitOwn(before, all, task, older, starts, next);
        } else {
          ServesFromAhead(before, c, all, task.goal);
          WaitOther(before, all, task, older, starts, next);
        }
      }
    }
  }

  lemma AtFirst(f: Fairness, all: set<Bytes>, goal: Bytes, older: set<SchedulableTask>)
    requires goal in all
    ensures Wait(f, all, goal, older, []) <= (|older| + 1) * |all| - 1
  {
    assert Left(older, []) == older;
    Included(Ahead(f, all, goal), all - {goal});
    assert (|older| + 1) * |all| == |older| * |all| + |all|;
  }

  /** A Task that stays eligible and routable waits for at most a round per older Task of its Goal and one
      more: every service of its Goal before its own goes to a different older Task, and with N Goals at
      most (k + 1) N - 1 commits come first when k Tasks are older. */
  lemma BoundedTaskWaiting(f: Fairness, cycles: seq<Cycle>, all: set<Bytes>, task: SchedulableTask,
      older: set<SchedulableTask>)
    requires WellCharged(f) && task.goal in all && TaskContends(f, cycles, all, task, older)
    requires task !in Starts(f, cycles)
    ensures ToOlder(Starts(f, cycles), task, older)
    ensures |Starts(f, cycles)| <= (|older| + 1) * |all| - 1
  {
    TaskWait(f, cycles, all, task, older);
    AtFirst(f, all, task.goal, older);
  }

  /** The Tasks taken are those of the Goals served. */
  lemma {:induction false} StartsServed(f: Fairness, cycles: seq<Cycle>)
    ensures |Starts(f, cycles)| == |Served(f, cycles).0|
    ensures forall i | 0 <= i < |Starts(f, cycles)| :: Starts(f, cycles)[i].goal == Served(f, cycles).0[i]
  {
    if cycles != [] {
      StartsServed(f, cycles[..|cycles| - 1]);
    }
  }
}
