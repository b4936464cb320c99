/** The durable command kernel: fence, ledger, sequence allocator and Event Journal, committed
    together or not at all.

    `D` is the rest of the authoritative database, which a command's mutation may change. */
module CommandKernel {
  import opened Wrappers
  import opened MachineIntegers

  type Text = string
  type Hash = seq<bv8>

  datatype Cursor = Cursor(epoch: Text, sequence: int)

  datatype Key = Key(epoch: Text, id: Text)

  datatype Row = Row(hash: Hash, cursor: Cursor, recordedAt: int)

  datatype Event = Event(id: Text, eventType: Text, recordedAt: int, provenance: Option<Key>)

  datatype Command = Command(key: Key, hash: Hash, eventType: Text)

  /** What the database engine draws for one Event: a random id and the clock. */
  datatype Draw = Draw(eventId: Text, now: int)

  datatype Outcome<T> = Executed(value: T, cursor: Cursor) | Replayed(cursor: Cursor, recordedAt: int)

  datatype Error =
    | NoInstallation
    | StaleCommandEpoch(supplied: Text, current: Text)
    | CommandConflict(id: Text)
    | NoCurrentEpoch
    | SlotOccupied(cursor: Cursor)
    | Storage
    | Mutation(code: int)

  /** One committed state of the database. */
  datatype Db<D> = Db(
    generation: Option<Text>,
    ledger: map<Key, Row>,
    allocators: map<Text, int>,
    current: Option<Text>,
    journal: map<Cursor, Event>,
    domain: D)

  type Mutator<!D, T> = D -> Result<(D, T), Error>

  // ---------------------------------------------------------------- transactions on values

  predicate EventAdmitted<D>(db: Db<D>, eventType: Text, draw: Draw) {
    1 <= |eventType| <= 128 && forall c | c in db.journal :: db.journal[c].id != draw.eventId
  }

  /** The cursor the allocator would hand out, when it can. */
  function NextCursor<D>(db: Db<D>): Result<Cursor, Error> {
    if db.current.None? || db.current.value !in db.allocators then Err(NoCurrentEpoch)
    else if db.allocators[db.current.value] >= I64_MAX then Err(Storage)
    else Ok(Cursor(db.current.value, db.allocators[db.current.value]))
  }

  /** How a taken journal slot is reported: only a command's own Event calls it a broken invariant. */
  function Taken(cursor: Cursor, provenance: Option<Key>): Error {
    if provenance.Some? then SlotOccupied(cursor) else Storage
  }

  /** One more Event at the allocator's position. */
  function Appended<D>(db: Db<D>, eventType: Text, provenance: Option<Key>, draw: Draw)
    : Result<(Db<D>, Cursor), Error>
  {
    var next := NextCursor(db);
    if next.Err? then Err(next.error)
    else if !EventAdmitted(db, eventType, draw) then Err(Storage)
    else if next.value in db.journal then Err(Taken(next.value, provenance))
    else
      Ok((db.(allocators := db.allocators[next.value.epoch := next.value.sequence + 1],
              journal := db.journal[next.value := Event(draw.eventId, eventType, draw.now, provenance)]),
          next.value))
  }

  predicate KeyAdmitted(key: Key) {
    |key.epoch| == 32 && 1 <= |key.id| <= 128
  }

  /** A new command: its mutation, its Event and its ledger row, or nothing. */
  function Fresh<D, T>(db: Db<D>, command: Command, mutation: Mutator<D, T>, draw: Draw)
    : (Db<D>, Result<Outcome<T>, Error>)
  {
    var mutated := mutation(db.domain);
    if mutated.Err? then (db, Err(mutated.error))
    else
      var appended := Appended(db.(domain := mutated.value.0), command.eventType, Some(command.key), draw);
      if appended.Err? then (db, Err(appended.error))
      else if !KeyAdmitted(command.key) then (db, Err(Storage))
      else
        var (after, cursor) := appended.value;
        (after.(ledger := after.ledger[command.key := Row(command.hash, cursor, draw.now)]),
         Ok(Executed(mutated.value.1, cursor)))
  }

  /** `execute` as a transaction: what is committed and what is answered. */
  function Executing<D, T>(db: Db<D>, command: Command, mutation: Mutator<D, T>, draw: Draw)
    : (Db<D>, Result<Outcome<T>, Error>)
  {
    if db.generation.None? then (db, Err(NoInstallation))
    else if command.key.epoch != db.generation.value then
      (db, Err(StaleCommandEpoch(command.key.epoch, db.generation.value)))
    else if command.key in db.ledger then
      var row := db.ledger[command.key];
      (db, if row.hash != command.hash then Err(CommandConflict(command.key.id))
        else Ok(Replayed(row.cursor, row.recordedAt)))
    else Fresh(db, command, mutation, draw)
  }

  /** A transaction without operator identity that appends one internal Event. */
  function Bookkeeping<D, T>(db: Db<D>, eventType: Text, mutation: Mutator<D, T>, draw: Draw)
    : (Db<D>, Result<Cursor, Error>)
  {
    var mutated := mutation(db.domain);
    if mutated.Err? then (db, Err(mutated.error))
    else
      var appended := Appended(db.(domain := mutated.value.0), eventType, None, draw);
      if appended.Err? then (db, Err(appended.error)) else (appended.value.0, Ok(appended.value.1))
  }

  // ---------------------------------------------------------------- transactions in place

  class Store<D> {
    var generation: Option<Text>
    var ledger: map<Key, Row>
    var allocators: map<Text, int>
    var current: Option<Text>
    var journal: map<Cursor, Event>
    var domain: D

    constructor (db: Db<D>)
      ensures Contents() == db
    {
      generation, ledger, allocators := db.generation, db.ledger, db.allocators;
      current, journal, domain := db.current, db.journal, db.domain;
    }

    function Contents(): Db<D>
      reads this
    {
      Db(generation, ledger, allocators, current, journal, domain)
    }

    /** What the engine does with an uncommitted transaction. */
    method Rollback(snapshot: Db<D>)
      modifies this
      ensures Contents() == snapshot
    {
      generation, ledger, allocators := snapshot.generation, snapshot.ledger, snapshot.allocators;
      current, journal, domain := snapshot.current, snapshot.journal, snapshot.domain;
    }

    method FenceEpoch(supplied: Text) returns (fenced: Result<(), Error>)
      ensures fenced.Ok? <==> generation == Some(supplied)
      ensures generation.None? ==> fenced == Err(NoInstallation)
      ensures generation.Some? && fenced.Err? ==> fenced.error == StaleCommandEpoch(supplied, generation.value)
    {
      if generation.None? {
        return Err(NoInstallation);
      }
      if supplied != generation.value {
        return Err(StaleCommandEpoch(supplied, generation.value));
      }
      return Ok(());
    }

    /** `allocate_sequence`: advances the singleton allocator. */
    method AllocateSequence() returns (cursor: Result<Cursor, Error>)
      modifies this`allocators
      ensures cursor == old(NextCursor(Contents()))
      ensures allocators ==
        if cursor.Ok? then old(allocators)[cursor.value.epoch := cursor.value.sequence + 1] else old(allocators)
    {
      if current.None? || current.value !in allocators {
        return Err(NoCurrentEpoch);
      }
      var sequence := allocators[current.value];
      if sequence >= I64_MAX {
        return Err(Storage);
      }
      allocators := allocators[current.value := sequence + 1];
      return Ok(Cursor(current.value, sequence));
    }

    /** The journal insert: `event_journal`'s CHECK, PRIMARY KEY and UNIQUE constraints. */
    method InsertEvent(cursor: Cursor, event: Event) returns (inserted: Result<(), Error>)
      modifies this`journal
      ensures inserted.Ok? <==>
        1 <= |event.eventType| <= 128 && (forall c | c in old(journal) :: old(journal)[c].id != event.id)
          && cursor !in old(journal)
      ensures inserted.Ok? ==> journal == old(journal)[cursor := event]
      ensures inserted.Err? ==> journal == old(journal)
      ensures inserted.Err? && EventAdmitted(Contents(), event.eventType, Draw(event.id, event.recordedAt)) ==>
        inserted.error == Taken(cursor, event.provenance)
      ensures !EventAdmitted(old(Contents()), event.eventType, Draw(event.id, event.recordedAt)) ==>
        inserted == Err(Storage)
    {
      if !(1 <= |event.eventType| <= 128) {
        return Err(Storage);
      }
      if exists c :: c in journal && journal[c].id == event.id {
        return Err(Storage);
      }
      if cursor in journal {
        return Err(Taken(cursor, event.provenance));
      }
      journal := journal[cursor := event];
      return Ok(());
    }

    /** Steps 3 to 6 of the envelope, leaving whatever an error leaves for the rollback. */
    method RunNew<T>(command: Command, mutation: Mutator<D, T>, draw: Draw) returns (outcome: Result<Outcome<T>, Error>)
      requires command.key !in ledger
      modifies this
      ensures outcome == Fresh(old(Contents()), command, mutation, draw).1
      ensures outcome.Ok? ==> Contents() == Fresh(old(Contents()), command, mutation, draw).0
    {
      var mutated := mutation(domain);
      if mutated.Err? {
        return Err(mutated.error);
      }
      domain := mutated.value.0;
      var cursor := AllocateSequence();
      if cursor.Err? {
        return Err(cursor.error);
      }
      var inserted := InsertEvent(cursor.value, Event(draw.eventId, command.eventType, draw.now, Some(command.key)));
      if inserted.Err? {
        return Err(inserted.error);
      }
      if !KeyAdmitted(command.key) {
        return Err(Storage);
      }
      ledger := ledger[command.key := Row(command.hash, cursor.value, draw.now)];
      return Ok(Executed(mutated.value.1, cursor.value));
    }

    /** `execute` inside `Store::write`. */
    method Execute<T>(command: Command, mutation: Mutator<D, T>, draw: Draw)
      returns (outcome: Result<Outcome<T>, Error>)
      modifies this
      ensures (Contents(), outcome) == Executing(old(Contents()), command, mutation, draw)
    {
      var fenced := FenceEpoch(command.key.epoch);
      if fenced.Err? {
        return Err(fenced.error);
      }
      if command.key in ledger {
        var row := ledger[command.key];
        if row.hash != command.hash {
          return Err(CommandConflict(command.key.id));
        }
        return Ok(Replayed(row.cursor, row.recordedAt));
      }
      var snapshot := Contents();
      outcome := RunNew(command, mutation, draw);
      if outcome.Err? {
        Rollback(snapshot);
      }
    }

    /** `append_internal_event` at the end of a bookkeeping transaction. */
    method Record<T>(eventType: Text, mutation: Mutator<D, T>, draw: Draw) returns (recorded: Result<Cursor, Error>)
      modifies this
      ensures (Contents(), recorded) == Bookkeeping(old(Contents()), eventType, mutation, draw)
    {
      var snapshot := Contents();
      var mutated := mutation(domain);
      if mutated.Err? {
        return Err(mutated.error);
      }
      domain := mutated.value.0;
      recorded := AllocateSequence();
      if recorded.Err? {
        Rollback(snapshot);
        return;
      }
      var inserted := InsertEvent(recorded.value, Event(draw.eventId, eventType, draw.now, None));
      if inserted.Err? {
        Rollback(snapshot);
        return Err(inserted.error);
      }
    }
  }

  // ---------------------------------------------------------------- what every transaction keeps

  /** The journal of each epoch is exactly the range below its allocator; ledger rows and the Events
      that carry a command identity name each other. */
  ghost predicate Consistent<D>(db: Db<D>) {
    && db.generation.Some?
    && db.current.Some? && db.current.value in db.allocators
    && (forall c :: c in db.journal <==> c.epoch in db.allocators && 1 <= c.sequence < db.allocators[c.epoch])
    && (forall e | e in db.allocators :: 1 <= db.allocators[e] <= I64_MAX)
    && (forall a, b | a in db.journal && b in db.journal && db.journal[a].id == db.journal[b].id :: a == b)
    && (forall k | k in db.ledger :: RowBacked(db, k))
    && (forall c | c in db.journal && db.journal[c].provenance.Some? :: EventBacked(db, c))
  }

  ghost predicate RowBacked<D>(db: Db<D>, key: Key)
    requires key in db.ledger
  {
    var row := db.ledger[key];
    && row.cursor in db.journal
    && db.journal[row.cursor].provenance == Some(key)
    && db.journal[row.cursor].recordedAt == row.recordedAt
  }

  ghost predicate EventBacked<D>(db: Db<D>, cursor: Cursor)
    requires cursor in db.journal && db.journal[cursor].provenance.Some?
  {
    var key := db.journal[cursor].provenance.value;
    key in db.ledger && db.ledger[key].cursor == cursor
  }

  /** The allocator never hands out a taken slot: the `SlotOccupied` answer is unreachable. */
  lemma SlotNeverOccupied<D>(db: Db<D>, eventType: Text, provenance: Option<Key>, draw: Draw)
    requires Consistent(db)
    ensures Appended(db, eventType, provenance, draw).Ok? <==>
      db.allocators[db.current.value] < I64_MAX && EventAdmitted(db, eventType, draw)
    ensures Appended(db, eventType, provenance, draw).Err? ==>
      Appended(db, eventType, provenance, draw).error == Storage
  {
  }

  /** One Event more, at the allocator's position, keeps the journal contiguous. */
  lemma AppendedContiguous<D>(db: Db<D>, eventType: Text, provenance: Option<Key>, draw: Draw)
    requires Consistent(db) && Appended(db, eventType, provenance, draw).Ok?
    ensures var (after, cursor) := Appended(db, eventType, provenance, draw).value;
      && (forall c :: c in after.journal <==>
            c.epoch in after.allocators && 1 <= c.sequence < after.allocators[c.epoch])
      && (forall e | e in after.allocators :: 1 <= after.allocators[e] <= I64_MAX)
      && (forall a, b | a in after.journal && b in after.journal && after.journal[a].id == after.journal[b].id ::
            a == b)
      && cursor !in db.journal
         && after.journal == db.journal[cursor := Event(draw.eventId, eventType, draw.now, provenance)]
      && after.current == db.current && after.generation == db.generation && after.current.value in after.allocators
      && after.ledger == db.ledger
  {
  }

  lemma FreshKeepsConsistent<D, T>(db: Db<D>, command: Command, mutation: Mutator<D, T>, draw: Draw)
    requires Consistent(db) && command.key !in db.ledger
    ensures Consistent(Fresh(db, command, mutation, draw).0)
  {
    var (after, outcome) := Fresh(db, command, mutation, draw);
    if outcome.Ok? {
      var mutated := db.(domain := mutation(db.domain).value.0);
      assert Consistent(mutated) by { MutatedConsistent(db, mutated); }
      AppendedContiguous(mutated, command.eventType, Some(command.key), draw);
      RowsRecorded(db, after, command, outcome.value.cursor, draw);
    }
  }

  lemma MutatedConsistent<D>(db: Db<D>, mutated: Db<D>)
    requires Consistent(db) && mutated == db.(domain := mutated.domain)
    ensures Consistent(mutated)
  {
  }

  /** The new row and the new Event name each other; the others still do. */
  lemma RowsRecorded<D>(db: Db<D>, after: Db<D>, command: Command, cursor: Cursor, draw: Draw)
    requires Consistent(db) && command.key !in db.ledger && cursor !in db.journal
    requires after.journal == db.journal[cursor := Event(draw.eventId, command.eventType, draw.now, Some(command.key))]
    requires after.ledger == db.ledger[command.key := Row(command.hash, cursor, draw.now)]
    ensures forall k | k in after.ledger :: RowBacked(after, k)
    ensures forall c | c in after.journal && after.journal[c].provenance.Some? :: EventBacked(after, c)
  {
  }

  lemma ExecutingKeepsConsistent<D, T>(db: Db<D>, command: Command, mutation: Mutator<D, T>, draw: Draw)
    requires Consistent(db)
    ensures Consistent(Executing(db, command, mutation, draw).0)
  {
    if command.key !in db.ledger {
      FreshKeepsConsistent(db, command, mutation, draw);
    }
  }

  /** An Event without a command identity leaves rows and Events naming each other. */
  lemma RowsUntouched<D>(db: Db<D>, after: Db<D>, cursor: Cursor, event: Event)
    requires Consistent(db) && cursor !in db.journal && event.provenance.None?
    requires after.journal == db.journal[cursor := event] && after.ledger == db.ledger
    ensures forall k | k in after.ledger :: RowBacked(after, k)
    ensures forall c | c in after.journal && after.journal[c].provenance.Some? :: EventBacked(after, c)
  {
    forall k | k in after.ledger ensures RowBacked(after, k) {
      assert RowBacked(db, k);
    }
    forall c | c in after.journal && after.journal[c].provenance.Some? ensures EventBacked(after, c) {
      assert EventBacked(db, c);
    }
  }

  lemma BookkeepingKeepsConsistent<D, T>(db: Db<D>, eventType: Text, mutation: Mutator<D, T>, draw: Draw)
    requires Consistent(db)
    ensures Consistent(Bookkeeping(db, eventType, mutation, draw).0)
  {
    var (after, answer) := Bookkeeping(db, eventType, mutation, draw);
    if answer.Ok? {
      var mutated := db.(domain := mutation(db.domain).value.0);
      assert Consistent(mutated) by { MutatedConsistent(db, mutated); }
      AppendedContiguous(mutated, eventType, None, draw);
      RowsUntouched(db, after, answer.value, Event(draw.eventId, eventType, draw.now, None));
    }
  }

  // ---------------------------------------------------------------- whole runs, across restores

  /** One execution of a mutation and the Event type its command was issued with, remembered forever,
      whatever the database forgets. */
  datatype Execution = Execution(key: Key, hash: Hash, cursor: Cursor, recordedAt: int, eventType: Text)

  /** The database, every state it ever committed, every generation ever in force, and every
      mutation that ever ran to commitment. */
  datatype World<D> = World(db: Db<D>, past: seq<Db<D>>, generations: set<Text>, executions: seq<Execution>)

  datatype Action<!D, !T> =
    | Call(command: Command, mutation: Mutator<D, T>, draw: Draw)
    | Internal(eventType: Text, mutation: Mutator<D, T>, draw: Draw)
    | Restore(snapshot: nat, generation: Text, journalEpoch: Option<Text>)

  function Install<D>(generation: Text, epoch: Text, domain: D): World<D> {
    var db := Db(Some(generation), map[], map[epoch := 1], Some(epoch), map[], domain);
    World(db, [db], {generation}, [])
  }

  function Advance<D>(w: World<D>, db: Db<D>): World<D> {
    w.(db := db, past := w.past + [db])
  }

  /** A disaster restore of `snapshot`, under a RestoreGeneration and optionally a new journal
      epoch; one that reuses a generation or an epoch, or names no past state, does nothing. */
  function Restored<D>(w: World<D>, snapshot: nat, generation: Text, journalEpoch: Option<Text>): World<D> {
    if snapshot >= |w.past| || generation in w.generations then w
    else
      var from := w.past[snapshot];
      if journalEpoch.Some? && journalEpoch.value in from.allocators then w
      else
        var fenced := from.(generation := Some(generation));
        var db :=
          if journalEpoch.None? then fenced
          else fenced.(current := journalEpoch, allocators := fenced.allocators[journalEpoch.value := 1]);
        Advance(w, db).(generations := w.generations + {generation})
  }

  function Step<D, T>(w: World<D>, action: Action<D, T>): World<D> {
    match action
    case Call(command, mutation, draw) =>
      var (db, outcome) := Executing(w.db, command, mutation, draw);
      var next := Advance(w, db);
      if outcome.Ok? && outcome.value.Executed? then
        var run := Execution(command.key, command.hash, outcome.value.cursor, draw.now, command.eventType);
        next.(executions := w.executions + [run])
      else next
    case Internal(eventType, mutation, draw) => Advance(w, Bookkeeping(w.db, eventType, mutation, draw).0)
    case Restore(snapshot, generation, journalEpoch) => Restored(w, snapshot, generation, journalEpoch)
  }

  function Run<D, T>(w: World<D>, actions: seq<Action<D, T>>): World<D> {
    if actions == [] then w else Step(Run(w, actions[..|actions| - 1]), actions[|actions| - 1])
  }

  /** A ledger row and the Event at its cursor are what one remembered execution left. */
  ghost predicate Remembered<D>(db: Db<D>, executions: seq<Execution>, key: Key)
    requires key in db.ledger
  {
    var row := db.ledger[key];
    && row.cursor in db.journal
    && Execution(key, row.hash, row.cursor, row.recordedAt, db.journal[row.cursor].eventType) in executions
  }

  ghost predicate Sound<D>(db: Db<D>, generations: set<Text>, executions: seq<Execution>) {
    && Consistent(db)
    && db.generation.value in generations
    && (forall k | k in db.ledger :: Remembered(db, executions, k))
  }

  /** While a generation is in force no command executed under it is ever lost. */
  ghost predicate Complete<D>(db: Db<D>, executions: seq<Execution>) {
    forall x | x in executions && db.generation == Some(x.key.epoch) ::
      x.key in db.ledger && db.ledger[x.key] == Row(x.hash, x.cursor, x.recordedAt)
  }

  ghost predicate Invariant<D>(w: World<D>) {
    && Sound(w.db, w.generations, w.executions)
    && Complete(w.db, w.executions)
    && (forall i | 0 <= i < |w.past| :: Sound(w.past[i], w.generations, w.executions))
    && (forall x | x in w.executions :: x.key.epoch in w.generations)
    && (forall i, j | 0 <= i < j < |w.executions| :: w.executions[i].key != w.executions[j].key)
  }

  lemma SoundGrows<D>(db: Db<D>, generations: set<Text>, executions: seq<Execution>, more: set<Text>,
      extra: seq<Execution>)
    requires Sound(db, generations, executions)
    ensures Sound(db, generations + more, executions + extra)
  {
    forall k | k in db.ledger ensures Remembered(db, executions + extra, k) {
      assert Remembered(db, executions, k);
    }
  }

  lemma PastGrows<D>(w: World<D>, more: set<Text>, extra: seq<Execution>)
    requires forall i | 0 <= i < |w.past| :: Sound(w.past[i], w.generations, w.executions)
    ensures forall i | 0 <= i < |w.past| :: Sound(w.past[i], w.generations + more, w.executions + extra)
  {
    forall i | 0 <= i < |w.past| ensures Sound(w.past[i], w.generations + more, w.executions + extra) {
      SoundGrows(w.past[i], w.generations, w.executions, more, extra);
    }
  }

  /** Every Event stays as it was journaled. */
  ghost predicate JournalGrows<D>(before: Db<D>, after: Db<D>) {
    forall c | c in before.journal :: c in after.journal && after.journal[c] == before.journal[c]
  }

  /** The row and the Event one execution leaves. */
  ghost predicate Leaves<D>(before: Db<D>, after: Db<D>, run: Execution) {
    && after.ledger == before.ledger[run.key := Row(run.hash, run.cursor, run.recordedAt)]
    && JournalGrows(before, after)
    && run.cursor in after.journal && after.journal[run.cursor].eventType == run.eventType
  }

  /** The state a first execution commits remembers it, and everything remembered before. */
  lemma SoundAppend<D>(w: World<D>, db: Db<D>, run: Execution)
    requires Invariant(w) && Consistent(db) && db.generation == w.db.generation && Leaves(w.db, db, run)
    ensures Sound(db, w.generations, w.executions + [run])
  {
    forall k | k in db.ledger ensures Remembered(db, w.executions + [run], k) {
      if k != run.key {
        assert Remembered(w.db, w.executions, k);
      } else {
        assert (w.executions + [run])[|w.executions|] == run;
      }
    }
  }

  lemma CompleteAppend<D>(w: World<D>, db: Db<D>, run: Execution)
    requires Complete(w.db, w.executions) && db.generation == w.db.generation == Some(run.key.epoch)
    requires run.key !in w.db.ledger
    requires db.ledger == w.db.ledger[run.key := Row(run.hash, run.cursor, run.recordedAt)]
    ensures Complete(db, w.executions + [run])
    ensures forall x | x in w.executions :: x.key != run.key
  {
    forall x | x in w.executions + [run] && db.generation == Some(x.key.epoch)
      ensures x.key in db.ledger && db.ledger[x.key] == Row(x.hash, x.cursor, x.recordedAt)
    {
      assert x in w.executions || x == run;
    }
  }

  /** Remembering one execution of a key the current generation never executed keeps the invariant. */
  lemma AppendExecution<D>(w: World<D>, db: Db<D>, run: Execution)
    requires Invariant(w) && Consistent(db)
    requires db.generation == w.db.generation == Some(run.key.epoch) && run.key !in w.db.ledger
    requires Leaves(w.db, db, run)
    ensures Invariant(Advance(w, db).(executions := w.executions + [run]))
  {
    PastGrows(w, {}, [run]);
    assert w.generations + {} == w.generations;
    SoundAppend(w, db, run);
    CompleteAppend(w, db, run);
  }

  /** A commitment that leaves the ledger alone keeps the invariant. */
  lemma AdvanceKeepsInvariant<D>(w: World<D>, db: Db<D>)
    requires Invariant(w) && Consistent(db) && db.ledger == w.db.ledger && db.generation == w.db.generation
    requires JournalGrows(w.db, db)
    ensures Invariant(Advance(w, db))
  {
    forall k | k in db.ledger ensures Remembered(db, w.executions, k) {
      assert Remembered(w.db, w.executions, k);
    }
    assert Sound(db, w.generations, w.executions);
  }

  /** Exactly one Event more, where the allocator stood. */
  ghost predicate OneEventMore<D>(before: Db<D>, after: Db<D>, cursor: Cursor, event: Event) {
    && cursor !in before.journal && after.journal == before.journal[cursor := event]
    && before.current == after.current == Some(cursor.epoch)
    && cursor.epoch in before.allocators && before.allocators[cursor.epoch] == cursor.sequence
    && after.allocators == before.allocators[cursor.epoch := cursor.sequence + 1]
  }

  /** What an executed command commits, and what any other answer leaves alone: the domain and the value
      its mutation gives, one Event of its own type and identity with the drawn id and time, and a row. */
  lemma ExecutingCommits<D, T>(db: Db<D>, command: Command, mutation: Mutator<D, T>, draw: Draw)
    ensures var (after, outcome) := Executing(db, command, mutation, draw);
      if outcome.Ok? && outcome.value.Executed? then
        && after.generation == db.generation == Some(command.key.epoch) && command.key !in db.ledger
        && after.ledger == db.ledger[command.key := Row(command.hash, outcome.value.cursor, draw.now)]
        && OneEventMore(db, after, outcome.value.cursor,
             Event(draw.eventId, command.eventType, draw.now, Some(command.key)))
        && mutation(db.domain) == Ok((after.domain, outcome.value.value))
      else after == db
  {
  }

  /** What the schema can store: a named Event type, an unused Event id, a well-formed identity, and a
      next sequence that is still a 64-bit integer. */
  ghost predicate Storable<D>(db: Db<D>, command: Command, draw: Draw)
    requires db.current.Some? && db.current.value in db.allocators
  {
    && 1 <= |command.eventType| <= 128 && (forall c | c in db.journal :: db.journal[c].id != draw.eventId)
    && |command.key.epoch| == 32 && 1 <= |command.key.id| <= 128
    && db.allocators[db.current.value] < I64_MAX
  }

  /** Which answer a command gets, told by the database it meets and what its mutation says. */
  lemma ExecutingAnswers<D, T>(db: Db<D>, command: Command, mutation: Mutator<D, T>, draw: Draw)
    requires Consistent(db)
    ensures var answer := Executing(db, command, mutation, draw).1;
      if db.generation != Some(command.key.epoch) then
        answer == Err(StaleCommandEpoch(command.key.epoch, db.generation.value))
      else if command.key in db.ledger && db.ledger[command.key].hash == command.hash then
        answer == Ok(Replayed(db.ledger[command.key].cursor, db.ledger[command.key].recordedAt))
      else if command.key in db.ledger then answer == Err(CommandConflict(command.key.id))
      else if mutation(db.domain).Err? then answer == Err(mutation(db.domain).error)
      else if Storable(db, command, draw) then answer.Ok? && answer.value.Executed?
      else answer == Err(Storage)
  {
  }

  lemma CallKeepsInvariant<D, T>(w: World<D>, command: Command, mutation: Mutator<D, T>, draw: Draw)
    requires Invariant(w)
    ensures Invariant(Step(w, Call(command, mutation, draw)))
  {
    ExecutingKeepsConsistent(w.db, command, mutation, draw);
    ExecutingCommits(w.db, command, mutation, draw);
    var (db, outcome) := Executing(w.db, command, mutation, draw);
    if outcome.Ok? && outcome.value.Executed? {
      var run := Execution(command.key, command.hash, outcome.value.cursor, draw.now, command.eventType);
      AppendExecution(w, db, run);
    } else {
      AdvanceKeepsInvariant(w, db);
    }
  }

  /** What a bookkeeping transaction commits: the domain its mutation gives and one Event of its type
      that carries no command identity, or nothing. */
  lemma BookkeepingCommits<D, T>(db: Db<D>, eventType: Text, mutation: Mutator<D, T>, draw: Draw)
    ensures var (after, recorded) := Bookkeeping(db, eventType, mutation, draw);
      if recorded.Ok? then
        && after.ledger == db.ledger && after.generation == db.generation
        && OneEventMore(db, after, recorded.value, Event(draw.eventId, eventType, draw.now, None))
        && mutation(db.domain).Ok? && mutation(db.domain).value.0 == after.domain
      else after == db
  {
  }

  lemma InternalKeepsInvariant<D, T>(w: World<D>, eventType: Text, mutation: Mutator<D, T>, draw: Draw)
    requires Invariant(w)
    ensures Invariant(Step(w, Internal(eventType, mutation, draw)))
  {
    BookkeepingKeepsConsistent(w.db, eventType, mutation, draw);
    BookkeepingCommits(w.db, eventType, mutation, draw);
    var db := Bookkeeping(w.db, eventType, mutation, draw).0;
    assert Step(w, Internal(eventType, mutation, draw)) == Advance(w, db);
    AdvanceKeepsInvariant(w, db);
  }

  lemma RestoreKeepsInvariant<D>(w: World<D>, snapshot: nat, generation: Text, journalEpoch: Option<Text>)
    requires Invariant(w)
    ensures Invariant(Restored(w, snapshot, generation, journalEpoch))
  {
    var next := Restored(w, snapshot, generation, journalEpoch);
    if next != w {
      var from := w.past[snapshot];
      PastGrows(w, {generation}, []);
      assert w.executions + [] == w.executions;
      assert Sound(from, w.generations, w.executions);
      forall k | k in next.db.ledger ensures RowBacked(next.db, k) && Remembered(next.db, w.executions, k) {
        assert RowBacked(from, k) && Remembered(from, w.executions, k);
      }
      forall c | c in next.db.journal && next.db.journal[c].provenance.Some? ensures EventBacked(next.db, c) {
        assert EventBacked(from, c);
      }
    }
  }

  lemma {:induction false} RunKeepsInvariant<D, T>(w: World<D>, actions: seq<Action<D, T>>)
    requires Invariant(w)
    ensures Invariant(Run(w, actions))
  {
    if actions != [] {
      RunKeepsInvariant(w, actions[..|actions| - 1]);
      var before, last := Run(w, actions[..|actions| - 1]), actions[|actions| - 1];
      match last {
        case Call(command, mutation, draw) => CallKeepsInvariant(before, command, mutation, draw);
        case Internal(eventType, mutation, draw) => InternalKeepsInvariant(before, eventType, mutation, draw);
        case Restore(snapshot, generation, journalEpoch) =>
          RestoreKeepsInvariant(before, snapshot, generation, journalEpoch);
      }
    }
  }

  lemma InstallInvariant<D>(generation: Text, epoch: Text, domain: D)
    ensures Invariant(Install(generation, epoch, domain))
  {
  }

  lemma {:induction false} ExecutionsGrow<D, T>(w: World<D>, actions: seq<Action<D, T>>)
    ensures w.executions <= Run(w, actions).executions
  {
    if actions != [] {
      ExecutionsGrow(w, actions[..|actions| - 1]);
    }
  }

  /** In every run each command identity runs its mutation at most once in total. */
  lemma ExactlyOnce<D, T>(generation: Text, epoch: Text, domain: D, actions: seq<Action<D, T>>, i: nat, j: nat)
    requires i < j < |Run(Install(generation, epoch, domain), actions).executions|
    ensures var executions := Run(Install(generation, epoch, domain), actions).executions;
            executions[i].key != executions[j].key
  {
    InstallInvariant(generation, epoch, domain);
    RunKeepsInvariant(Install(generation, epoch, domain), actions);
  }

  /** Re-issuing any command that once executed, at any later point, changes nothing: it is answered
      with the first execution's cursor while its generation lasts, and fenced for ever after. A
      different request under the same identity is refused either way. */
  lemma RetryReplaysForever<D, T>(generation: Text, epoch: Text, domain: D,
      actions: seq<Action<D, T>>, later: seq<Action<D, T>>, first: Execution, retry: Command, mutation: Mutator<D, T>,
      draw: Draw)
    requires first in Run(Install(generation, epoch, domain), actions).executions
    requires retry.key == first.key
    ensures var db := Run(Run(Install(generation, epoch, domain), actions), later).db;
            var (after, answer) := Executing(db, retry, mutation, draw);
            && after == db
            && (db.generation != Some(first.key.epoch) ==> answer.Err? && answer.error.StaleCommandEpoch?)
            && (db.generation == Some(first.key.epoch) && retry.hash == first.hash ==>
                  answer == Ok(Replayed(first.cursor, first.recordedAt)))
            && (db.generation == Some(first.key.epoch) && retry.hash != first.hash ==>
                  answer == Err(CommandConflict(first.key.id)))
  {
    var start := Install(generation, epoch, domain);
    InstallInvariant(generation, epoch, domain);
    RunKeepsInvariant(start, actions);
    RunKeepsInvariant(Run(start, actions), later);
    ExecutionsGrow(Run(start, actions), later);
    var w := Run(Run(start, actions), later);
    assert first in w.executions;
  }

  /** The Event at a cursor and the row of its command are those of one execution. */
  ghost predicate Left<D>(db: Db<D>, cursor: Cursor, run: Execution)
    requires cursor in db.journal
  {
    var event := db.journal[cursor];
    && event.provenance == Some(run.key) && event.eventType == run.eventType && event.recordedAt == run.recordedAt
    && run.key in db.ledger && db.ledger[run.key] == Row(run.hash, cursor, run.recordedAt) && run.cursor == cursor
  }

  /** In every reachable state: the journal is contiguous per epoch, command rows correspond one to one
      with the Events that carry their identity and cursor, and each row with its Event is what one
      execution left: its hash, its time and the type its command was issued with. */
  lemma JournalAndLedgerAgree<D, T>(generation: Text, epoch: Text, domain: D, actions: seq<Action<D, T>>)
    ensures var w := Run(Install(generation, epoch, domain), actions);
      var db := w.db;
      && (forall c :: c in db.journal <==> c.epoch in db.allocators && 1 <= c.sequence < db.allocators[c.epoch])
      && (forall k, c :: k in db.ledger && db.ledger[k].cursor == c <==>
            c in db.journal && db.journal[c].provenance == Some(k))
      && (forall c | c in db.journal && db.journal[c].provenance.Some? ::
            exists x :: x in w.executions && Left(db, c, x))
  {
    var start := Install(generation, epoch, domain);
    InstallInvariant(generation, epoch, domain);
    RunKeepsInvariant(start, actions);
    var db := Run(start, actions).db;
    forall k, c ensures k in db.ledger && db.ledger[k].cursor == c <==>
      c in db.journal && db.journal[c].provenance == Some(k) {
      if k in db.ledger { assert RowBacked(db, k); }
      if c in db.journal && db.journal[c].provenance == Some(k) { assert EventBacked(db, c); }
    }
    forall c | c in db.journal && db.journal[c].provenance.Some?
      ensures exists x :: x in Run(start, actions).executions && Left(db, c, x)
    {
      var k := db.journal[c].provenance.value;
      assert EventBacked(db, c) && RowBacked(db, k) && Remembered(db, Run(start, actions).executions, k);
      var row := db.ledger[k];
      assert Left(db, c, Execution(k, row.hash, c, row.recordedAt, db.journal[c].eventType));
    }
  }
}
