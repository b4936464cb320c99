/** Sealing a captured Workspace into a `code.changeset`.

    Everything outside the controller is a port. An answer may depend on when it is asked, so each
    port call carries the number of calls made before it; any call may fault. What a well-behaved
    repository and object store answer is collected in `Trusted`. */
module Sealing {
  import opened ByteOrder
  import opened Wrappers
  import opened MachineIntegers
  import opened Sorting
  import opened Artifact
  import PathCodec

  const MAX_ENTRIES := 100_000
  const MAX_TOTAL_BYTES := 0x4000_0000

  datatype CapturedEntry = CapturedEntry(path: Bytes, kind: EntryKind, bytes: Bytes)

  datatype BaseObject = BaseObject(kind: EntryKind, oid: Bytes, size: nat)

  datatype ObjectRef = ObjectRef(digest: Digest, size: nat)

  datatype Fault = External | CaptureCeiling | CasVerifyFailed | BaseUnavailable | ScopeFault(path: Bytes)

  datatype SealError = Capture(fault: Fault) | ScopeViolated(path: Bytes) | Construction(error: ChangesetError)

  /** One captured path as the diff sees it: kind, content digest, size. */
  datatype Content = Content(kind: EntryKind, digest: Digest, size: nat)

  /** One object handed to the CAS for the sake of one path, and what the CAS answered. */
  datatype Publication = Publication(path: Bytes, bytes: Bytes, answer: Result<ObjectRef, Fault>)

  datatype Ports = Ports(
    captured: seq<CapturedEntry>,
    captureFault: Option<Fault>,
    names: (nat, seq<Bytes>) -> Result<seq<Bytes>, Fault>,
    blob: (nat, Bytes) -> Result<Bytes, Fault>,
    publish: (nat, Bytes) -> Result<ObjectRef, Fault>,
    authorizes: Bytes -> bool)

  /** The source repository: the object name of every payload and the payload of every name. */
  datatype Repository = Repository(name: Bytes -> Bytes, content: Bytes -> Bytes)

  type BaseTree = map<Bytes, BaseObject>

  /** Object names are collision-free, the base tree records true names, and a port that answers,
      answers the truth. A wrong number of names is not excluded: the seal must notice it. */
  ghost predicate Trusted(ports: Ports, base: BaseTree, repo: Repository) {
    && (forall a, b :: repo.name(a) == repo.name(b) ==> a == b)
    && (forall p | p in base :: repo.name(repo.content(base[p].oid)) == base[p].oid)
    && TruthfulNames(ports, repo)
    && (forall n, oid :: ports.blob(n, oid).Ok? ==> ports.blob(n, oid).value == repo.content(oid))
    && (forall n, bytes :: ports.publish(n, bytes).Ok?
          ==> ports.publish(n, bytes).value == ObjectRef(Of(Payload(bytes)), |bytes|))
  }

  ghost predicate TruthfulNames(ports: Ports, repo: Repository) {
    forall n, contents :: ports.names(n, contents).Ok? && |ports.names(n, contents).value| == |contents|
      ==> ports.names(n, contents).value == NamesOf(contents, repo)
  }

  /** No port faults, no ceiling is reached and every path is representable. */
  ghost predicate Smooth(ports: Ports, base: BaseTree) {
    && ports.captureFault.None?
    && |ports.captured| <= MAX_ENTRIES
    && TotalBytes(ports.captured) <= MAX_TOTAL_BYTES
    && (forall n, contents :: ports.names(n, contents).Ok? && |ports.names(n, contents).value| == |contents|)
    && (forall n, p | p in base :: ports.blob(n, base[p].oid).Ok? && |ports.blob(n, base[p].oid).value| == base[p].size)
    && (forall n, bytes :: ports.publish(n, bytes).Ok?)
    && (forall p | p in base :: PathCodec.FromBytes(p).Ok?)
    && (forall e | e in ports.captured :: PathCodec.FromBytes(e.path).Ok?)
  }

  function NamesOf(contents: seq<Bytes>, repo: Repository): seq<Bytes> {
    seq(|contents|, i requires 0 <= i < |contents| => repo.name(contents[i]))
  }

  function TotalBytes(entries: seq<CapturedEntry>): nat {
    if entries == [] then 0 else TotalBytes(entries[..|entries| - 1]) + |entries[|entries| - 1].bytes|
  }

  /** The captured logical state; a path captured twice is what it was last. */
  function Final(seen: seq<CapturedEntry>): map<Bytes, Content> {
    if seen == [] then map[]
    else
      var e := seen[|seen| - 1];
      Final(seen[..|seen| - 1])[e.path := Content(e.kind, Of(Payload(e.bytes)), |e.bytes|)]
  }

  /** A same-kind, same-size entry of the base: only its content can still tell it apart. */
  predicate Comparable(base: BaseTree, path: Bytes, kind: EntryKind, size: nat) {
    path in base && base[path].kind == kind && base[path].size == size
  }

  /** The identity map built one entry at a time, with no batch in between. */
  function NameEach(seen: seq<CapturedEntry>, base: BaseTree, repo: Repository): map<Bytes, Bytes> {
    if seen == [] then map[]
    else
      var e := seen[|seen| - 1];
      var rest := NameEach(seen[..|seen| - 1], base, repo);
      if Comparable(base, e.path, e.kind, |e.bytes|) then rest[e.path := repo.name(e.bytes)] else rest
  }

  /** What the identity map becomes once `batch` has been converted, in order. */
  function Drained(identities: map<Bytes, Bytes>, batch: seq<(Bytes, Bytes)>, repo: Repository): map<Bytes, Bytes> {
    if batch == [] then identities
    else
      var last := batch[|batch| - 1];
      Drained(identities, batch[..|batch| - 1], repo)[last.0 := repo.name(last.1)]
  }

  function BatchBytes(batch: seq<(Bytes, Bytes)>): nat {
    if batch == [] then 0 else BatchBytes(batch[..|batch| - 1]) + |batch[|batch| - 1].1|
  }

  function Payloads(batch: seq<(Bytes, Bytes)>): seq<Bytes> {
    seq(|batch|, i requires 0 <= i < |batch| => batch[i].1)
  }

  function LogicalBase(base: BaseTree, repo: Repository): Tree {
    map p | p in base :: Present(base[p].kind, Of(Payload(repo.content(base[p].oid))), base[p].size)
  }

  function LogicalFinal(final: map<Bytes, Content>): Tree {
    map p | p in final :: Present(final[p].kind, final[p].digest, final[p].size)
  }

  // ---------------------------------------------------------------- lemmas about the captured state

  lemma UpdateGrowsByOne(m: map<Bytes, Content>, path: Bytes, content: Content)
    ensures |m[path := content]| <= |m| + 1
  {
  }

  lemma {:induction false} FinalSize(seen: seq<CapturedEntry>)
    ensures |Final(seen)| <= |seen|
  {
    if seen != [] {
      var e, rest := seen[|seen| - 1], seen[..|seen| - 1];
      FinalSize(rest);
      UpdateGrowsByOne(Final(rest), e.path, Content(e.kind, Of(Payload(e.bytes)), |e.bytes|));
    }
  }

  /** For every comparable captured path the one-at-a-time map names exactly the captured bytes. */
  lemma {:induction false} NameEachNames(seen: seq<CapturedEntry>, base: BaseTree, repo: Repository, path: Bytes)
    requires path in Final(seen)
    ensures exists bytes :: Final(seen)[path].digest == Of(Payload(bytes)) && Final(seen)[path].size == |bytes|
    ensures Comparable(base, path, Final(seen)[path].kind, Final(seen)[path].size) ==>
      path in NameEach(seen, base, repo)
        && NameEach(seen, base, repo)[path] == repo.name(Final(seen)[path].digest.document.bytes)
  {
    var e, rest := seen[|seen| - 1], seen[..|seen| - 1];
    if path != e.path {
      NameEachNames(rest, base, repo, path);
    } else {
      assert Final(seen)[path].digest == Of(Payload(e.bytes));
    }
  }

  /** `unchanged`: same kind, same size, and the captured bytes carry the recorded name. */
  predicate Unchanged(before: BaseObject, after: Content, identities: map<Bytes, Bytes>, path: Bytes) {
    && before.kind == after.kind
    && before.size == after.size
    && path in identities
    && identities[path] == before.oid
  }

  /** The name test decides equality of logical states, though no base blob was read. */
  lemma UnchangedIsEqualState(seen: seq<CapturedEntry>, ports: Ports, base: BaseTree, repo: Repository, path: Bytes)
    requires Trusted(ports, base, repo) && path in base && path in Final(seen)
    ensures Unchanged(base[path], Final(seen)[path], NameEach(seen, base, repo), path)
       <==> StateAt(LogicalBase(base, repo), path) == StateAt(LogicalFinal(Final(seen)), path)
  {
  }

  lemma {:induction false} DrainedAppend(identities: map<Bytes, Bytes>, batch: seq<(Bytes, Bytes)>,
      item: (Bytes, Bytes), repo: Repository)
    ensures Drained(identities, batch + [item], repo) == Drained(identities, batch, repo)[item.0 := repo.name(item.1)]
  {
  }

  // ---------------------------------------------------------------- the seal

  /** The keys in strictly ascending byte order. */
  ghost predicate Lists(ks: seq<Bytes>, keys: set<Bytes>) {
    (forall k :: k in ks <==> k in keys) && forall i, j | 0 <= i < j < |ks| :: Lt(ks[i], ks[j])
  }

  /** A key set in ascending byte order, as a `BTreeMap` iterates. */
  method Ascending(keys: set<Bytes>) returns (ks: seq<Bytes>)
    ensures forall k :: k in ks <==> k in keys
    ensures forall i, j | 0 <= i < j < |ks| :: Lt(ks[i], ks[j])
  {
    var rest, found := keys, [];
    while rest != {}
      invariant forall k :: k in keys <==> k in rest || k in found
      invariant forall i, j | 0 <= i < j < |found| :: found[i] != found[j]
      invariant forall i | 0 <= i < |found| :: found[i] !in rest
      decreases |rest|
    {
      var k :| k in rest;
      rest, found := rest - {k}, found + [k];
    }
    ks := Sort(found, Le);
    LeIsTotalOrder();
    SortSorted(found, Le);
    SortMembers(found, Le);
    SortPermutes(found, Le);
    DistinctPermuted(found, ks, (k: Bytes) => k);
  }

  /** Bytes are published only for the sake of authorized paths. */
  ghost predicate Confined(published: seq<Publication>, ports: Ports) {
    forall p | p in published :: ports.authorizes(p.path)
  }

  /** The CAS accepted an object under this digest. */
  ghost predicate Retained(published: seq<Publication>, digest: Digest) {
    exists p :: p in published && p.answer.Ok? && p.answer.value.digest == digest
  }

  /** What holds of the entries however the ports behave: authorized representable paths, states
      that fit the operation, and every named blob already in the CAS. */
  ghost predicate Lawful(entry: ChangesetEntry, published: seq<Publication>, ports: Ports) {
    && ports.authorizes(entry.path)
    && PathCodec.FromBytes(entry.path).Ok?
    && OperationAgrees(entry)
    && (entry.before.Present? ==> Retained(published, entry.before.blob))
    && (entry.after.Present? ==> Retained(published, entry.after.blob))
  }

  ghost predicate AllLawful(entries: seq<ChangesetEntry>, published: seq<Publication>, ports: Ports) {
    forall i | 0 <= i < |entries| :: Lawful(entries[i], published, ports)
  }

  lemma AllLawfulGrows(entries: seq<ChangesetEntry>, published: seq<Publication>, more: seq<Publication>, ports: Ports)
    requires AllLawful(entries, published, ports) && published <= more
    ensures AllLawful(entries, more, ports)
  {
  }

  lemma RetainedGrows(published: seq<Publication>, more: seq<Publication>)
    requires published <= more
    ensures forall d :: Retained(published, d) ==> Retained(more, d)
  {
  }

  /** The blob a state names is a payload of exactly the size it claims. */
  ghost predicate Sized(state: EntryState) {
    state.Present? ==> state.blob.document.Payload? && |state.blob.document.bytes| == state.size
  }

  ghost predicate AllSized(entries: seq<ChangesetEntry>) {
    forall e | e in entries :: Sized(e.before) && Sized(e.after)
  }

  /** The diff restricted to the paths in `done`. */
  ghost predicate ExactOn(done: set<Bytes>, entries: seq<ChangesetEntry>, base: Tree, target: Tree) {
    && Distinct(entries, EntryPath)
    && (forall i | 0 <= i < |entries| :: entries[i].path in done && Faithful(entries[i], base, target))
    && (forall p | p in done && StateAt(base, p) != StateAt(target, p) :: Mentions(entries, p))
  }

  ghost predicate Faithful(entry: ChangesetEntry, base: Tree, target: Tree) {
    && entry.before == StateAt(base, entry.path)
    && entry.after == StateAt(target, entry.path)
    && entry.before != entry.after
    && OperationAgrees(entry)
  }

  lemma ExactOnAppend(done: set<Bytes>, entries: seq<ChangesetEntry>, entry: ChangesetEntry, base: Tree, target: Tree)
    requires ExactOn(done, entries, base, target) && entry.path !in done && Faithful(entry, base, target)
    ensures ExactOn(done + {entry.path}, entries + [entry], base, target)
  {
    var longer := entries + [entry];
    assert longer[|entries|] == entry;
    forall p | p in done + {entry.path} && StateAt(base, p) != StateAt(target, p) ensures Mentions(longer, p) {
      if p != entry.path {
        var i :| 0 <= i < |entries| && entries[i].path == p;
        assert longer[i].path == p;
      }
    }
  }

  lemma ExactOnEverything(done: set<Bytes>, entries: seq<ChangesetEntry>, base: Tree, target: Tree)
    requires ExactOn(done, entries, base, target) && base.Keys <= done && target.Keys <= done
    ensures Exact(entries, base, target)
  {
  }

  // ---------------------------------------------------------------- the order entries are built in

  /** A path-ordered run of entries that all delete, or that none of them does. */
  ghost predicate InRun(entries: seq<ChangesetEntry>, deletes: bool) {
    && (forall i, j | 0 <= i < j < |entries| :: Lt(entries[i].path, entries[j].path))
    && (forall i | 0 <= i < |entries| :: entries[i].operation.Delete? == deletes)
  }

  ghost predicate DrawnFrom(entries: seq<ChangesetEntry>, paths: seq<Bytes>) {
    forall i | 0 <= i < |entries| :: entries[i].path in paths
  }

  /** One turn of a loop adds nothing, or one entry for its own path. */
  ghost predicate AtMostOneMore(before: seq<ChangesetEntry>, after: seq<ChangesetEntry>, path: Bytes, deletes: bool) {
    || after == before
    || (|after| == |before| + 1 && after == before + [after[|before|]] && after[|before|].path == path
        && after[|before|].operation.Delete? == deletes)
  }

  lemma RunGrows(before: seq<ChangesetEntry>, after: seq<ChangesetEntry>, paths: seq<Bytes>, i: nat, deletes: bool)
    requires i < |paths| && forall j, k | 0 <= j < k < |paths| :: Lt(paths[j], paths[k])
    requires InRun(before, deletes) && DrawnFrom(before, paths[..i]) && AtMostOneMore(before, after, paths[i], deletes)
    ensures InRun(after, deletes) && DrawnFrom(after, paths[..i + 1])
  {
    forall k | 0 <= k < |before| ensures Lt(before[k].path, paths[i]) && before[k].path in paths[..i + 1] {
      var j :| 0 <= j < i && paths[..i][j] == before[k].path;
      assert paths[..i + 1][j] == before[k].path && paths[j] == before[k].path;
    }
    assert paths[..i + 1][i] == paths[i];
  }

  lemma TailGrows(kept: seq<ChangesetEntry>, sofar: seq<ChangesetEntry>, after: seq<ChangesetEntry>, path: Bytes)
    requires AtMostOneMore(kept + sofar, after, path, true)
    ensures kept <= after && after == kept + after[|kept|..] && AtMostOneMore(sofar, after[|kept|..], path, true)
  {
    if after == kept + sofar {
      assert after[|kept|..] == sofar;
    } else {
      assert after[|kept|..] == sofar + [after[|kept + sofar|]];
    }
  }

  /** What the second loop has appended after `kept`, having seen `paths`. */
  ghost predicate DeletedRun(kept: seq<ChangesetEntry>, entries: seq<ChangesetEntry>, paths: seq<Bytes>) {
    kept <= entries && InRun(entries[|kept|..], true) && DrawnFrom(entries[|kept|..], paths)
  }

  lemma DeletedRunGrows(kept: seq<ChangesetEntry>, before: seq<ChangesetEntry>, after: seq<ChangesetEntry>,
      paths: seq<Bytes>, i: nat)
    requires i < |paths| && forall j, k | 0 <= j < k < |paths| :: Lt(paths[j], paths[k])
    requires DeletedRun(kept, before, paths[..i]) && AtMostOneMore(before, after, paths[i], true)
    ensures DeletedRun(kept, after, paths[..i + 1])
  {
    var sofar := before[|kept|..];
    assert before == kept + sofar;
    TailGrows(kept, sofar, after, paths[i]);
    RunGrows(sofar, after[|kept|..], paths, i, true);
  }

  /** The order the diff builds entries in: what is added or modified by path, then what is deleted by
      path. */
  ghost predicate AddsThenDeletes(entries: seq<ChangesetEntry>) {
    exists n :: 0 <= n <= |entries| && InRun(entries[..n], false) && InRun(entries[n..], true)
  }

  /** Entries so built are in path order if and only if no deletion sorts before an addition or a
      modification. */
  lemma BuiltOrderIff(entries: seq<ChangesetEntry>)
    requires AddsThenDeletes(entries)
    ensures Sorted(entries, EntryLe) <==>
      forall a, d | a in entries && d in entries && !a.operation.Delete? && d.operation.Delete? :: Le(a.path, d.path)
  {
    var n :| 0 <= n <= |entries| && InRun(entries[..n], false) && InRun(entries[n..], true);
    forall i | 0 <= i < |entries| ensures entries[i].operation.Delete? <==> n <= i {
      if i < n { assert entries[..n][i] == entries[i]; } else { assert entries[n..][i - n] == entries[i]; }
    }
    forall i, j | 0 <= i < j < |entries| && (j < n || n <= i) ensures Le(entries[i].path, entries[j].path) {
      if j < n { assert entries[..n][i] == entries[i] && entries[..n][j] == entries[j]; }
      else { assert entries[n..][i - n] == entries[i] && entries[n..][j - n] == entries[j]; }
    }
    if Sorted(entries, EntryLe) {
      forall a, d | a in entries && d in entries && !a.operation.Delete?
        && d.operation.Delete? ensures Le(a.path, d.path) {
        var i :| 0 <= i < |entries| && entries[i] == a;
        var j :| 0 <= j < |entries| && entries[j] == d;
        assert i < j && EntryLe(entries[i], entries[j]);
      }
    }
  }

  /** A path the target still has, with another state than the base. */
  ghost predicate Written(base: Tree, target: Tree, path: Bytes) {
    StateAt(target, path).Present? && StateAt(base, path) != StateAt(target, path)
  }

  ghost predicate Vanished(base: Tree, target: Tree, path: Bytes) {
    StateAt(base, path).Present? && StateAt(target, path).Absent?
  }

  /** A written path has a non-deleting entry, a vanished one a deleting entry, and conversely. */
  lemma EntriesByPath(entries: seq<ChangesetEntry>, base: Tree, target: Tree)
    requires Exact(entries, base, target)
    ensures forall p :: Written(base, target, p) <==> exists e :: e in entries && e.path == p && !e.operation.Delete?
    ensures forall p :: Vanished(base, target, p) <==> exists e :: e in entries && e.path == p && e.operation.Delete?
  {
    forall e | e in entries
      ensures if e.operation.Delete? then Vanished(base, target, e.path) else Written(base, target, e.path)
    {
      var i :| 0 <= i < |entries| && entries[i] == e;
      assert OperationAgrees(entries[i]);
    }
    forall p | StateAt(base, p) != StateAt(target, p) ensures exists e :: e in entries && e.path == p {
      var i :| 0 <= i < |entries| && entries[i].path == p;
      assert entries[i] in entries;
    }
  }

  /** Told by the two trees alone: the diff is in path order if and only if every added or modified
      path sorts before every deleted one. */
  lemma DiffOrderIff(entries: seq<ChangesetEntry>, base: Tree, target: Tree)
    requires AddsThenDeletes(entries) && Exact(entries, base, target)
    ensures Sorted(entries, EntryLe) <==> forall p, q | Written(base, target, p) && Vanished(base, target, q) ::
      Le(p, q)
  {
    BuiltOrderIff(entries);
    EntriesByPath(entries, base, target);
    if !Sorted(entries, EntryLe) {
      var a, d :| a in entries && d in entries && !a.operation.Delete? && d.operation.Delete? && !Le(a.path, d.path);
      assert Written(base, target, a.path) && Vanished(base, target, d.path);
    }
  }

  /** A base with the one file `a` and a capture with the one file `b`: every diff the two loops can
      build deletes `a` after adding `b`, out of path order. */
  lemma DiffOutOfOrder(entries: seq<ChangesetEntry>, repo: Repository)
    requires AddsThenDeletes(entries)
    requires Exact(entries, LogicalBase(map[[97] := BaseObject(Regular, [1], 0)], repo),
      LogicalFinal(Final([CapturedEntry([98], Regular, [])])))
    ensures !Sorted(entries, EntryLe)
  {
    var base, target := LogicalBase(map[[97] := BaseObject(Regular, [1], 0)], repo),
      LogicalFinal(Final([CapturedEntry([98], Regular, [])]));
    assert [CapturedEntry([98], Regular, [])][..0] == [];
    assert Final([CapturedEntry([98], Regular, [])]) == map[[98] := Content(Regular, Of(Payload([])), 0)];
    DiffOrderIff(entries, base, target);
    assert Written(base, target, [98]) && Vanished(base, target, [97]) && !Le([98], [97]);
  }

  // ---------------------------------------------------------------- which refusal a seal gives

  ghost predicate WrittenOutside(base: Tree, target: Tree, ports: Ports, path: Bytes) {
    Written(base, target, path) && !ports.authorizes(path)
  }

  ghost predicate VanishedOutside(base: Tree, target: Tree, ports: Ports, path: Bytes) {
    Vanished(base, target, path) && !ports.authorizes(path)
  }

  ghost predicate LeastWritten(base: Tree, target: Tree, ports: Ports, path: Bytes) {
    && WrittenOutside(base, target, ports, path)
    && forall q | WrittenOutside(base, target, ports, q) :: Le(path, q)
  }

  ghost predicate LeastVanished(base: Tree, target: Tree, ports: Ports, path: Bytes) {
    && VanishedOutside(base, target, ports, path)
    && forall q | VanishedOutside(base, target, ports, q) :: Le(path, q)
  }

  /** The path a scope violation is reported for: the least path written outside the scope or, when
      there is none, the least path that vanished outside it. */
  ghost predicate FirstBreach(base: Tree, target: Tree, ports: Ports, path: Bytes) {
    || LeastWritten(base, target, ports, path)
    || ((forall q :: !WrittenOutside(base, target, ports, q)) && LeastVanished(base, target, ports, path))
  }

  /** A fault the repository or the object store answered, or one raised on a wrong answer. */
  ghost predicate PortFault(ports: Ports, fault: Fault) {
    || fault.CasVerifyFailed? || fault.BaseUnavailable?
    || (exists n, oid :: ports.blob(n, oid) == Err(fault))
    || (exists n, bytes :: ports.publish(n, bytes) == Err(fault))
    || (exists n, contents :: ports.names(n, contents) == Err(fault))
  }

  /** Why the diff may refuse a path: it is not representable, the scope does not authorize it, or the
      preimage of an authorized path could not be had. */
  ghost predicate DiffRefusal(error: SealError, path: Bytes, ports: Ports, base: BaseTree) {
    match error
    case Construction(e) => e == InvalidPath && PathCodec.FromBytes(path).Err?
    case ScopeViolated(p) => p == path && !ports.authorizes(path) && PathCodec.FromBytes(path).Ok?
    case Capture(fault) =>
      path in base && ports.authorizes(path) && PathCodec.FromBytes(path).Ok? && PortFault(ports, fault)
  }

  /** How a fault of the walk or of its sink surfaces. */
  function Surfaced(fault: Fault): SealError {
    if fault.ScopeFault? then ScopeViolated(fault.path) else SealError.Capture(fault)
  }

  /** The sink refuses what would exceed a ceiling, and otherwise only what a port refuses. */
  ghost predicate SinkRefusal(fault: Fault, paths: nat, bytes: nat, ports: Ports) {
    if paths < MAX_ENTRIES && bytes <= MAX_TOTAL_BYTES then PortFault(ports, fault) else fault == CaptureCeiling
  }

  lemma SinkRefuses(fault: Fault, ports: Ports, i: nat)
    requires i < |ports.captured|
    requires var seen, e := ports.captured[..i], ports.captured[i];
      SinkRefusal(fault, |Final(seen)|, TotalBytes(seen) + |e.bytes|, ports)
    ensures CaptureRefusal(Surfaced(fault), ports)
  {
    var seen, e := ports.captured[..i], ports.captured[i];
    assert ports.captured[..i + 1] == seen + [e];
    OneMore(seen, e);
    assert TooMuch(ports.captured, i) || PortFault(ports, fault);
  }

  /** Why the capture may refuse: the walk's own fault, a ceiling, or a port. The last batch is converted
      after the walk, and its fault is never read as a scope violation. */
  ghost predicate CaptureRefusal(error: SealError, ports: Ports) {
    || (ports.captureFault.Some? && error == Surfaced(ports.captureFault.value))
    || (error == SealError.Capture(CaptureCeiling) && OverCeiling(ports))
    || (exists fault :: PortFault(ports, fault) && (error == Surfaced(fault) || error == SealError.Capture(fault)))
  }

  /** Some prefix of what was captured has too many paths or too many bytes. */
  ghost predicate OverCeiling(ports: Ports) {
    exists i :: 0 <= i < |ports.captured| && TooMuch(ports.captured, i)
  }

  ghost predicate TooMuch(captured: seq<CapturedEntry>, i: nat)
    requires i < |captured|
  {
    |Final(captured[..i])| >= MAX_ENTRIES || TotalBytes(captured[..i + 1]) > MAX_TOTAL_BYTES
  }

  /** Some path changed that the scope does not authorize. */
  ghost predicate Breach(base: Tree, target: Tree, ports: Ports) {
    exists p :: StateAt(base, p) != StateAt(target, p) && !ports.authorizes(p)
  }

  /** A seal refused at the first breach was right to refuse. */
  lemma FirstBreachIsBreach(base: Tree, target: Tree, ports: Ports, path: Bytes)
    requires FirstBreach(base, target, ports, path)
    ensures Breach(base, target, ports)
  {
  }

  lemma NoBreach(entries: seq<ChangesetEntry>, published: seq<Publication>, base: Tree, target: Tree, ports: Ports)
    requires Describes(entries, base, target) && AllLawful(entries, published, ports)
    ensures !Breach(base, target, ports)
  {
  }

  class SealRun {
    const ports: Ports
    const base: BaseTree
    const budget: nat
    ghost const repo: Repository

    var finalState: map<Bytes, Content>
    var unpublished: set<Bytes>
    var totalBytes: nat
    var identityBatch: seq<(Bytes, Bytes)>
    var identityBatchBytes: nat
    var capturedIdentities: map<Bytes, Bytes>
    var entries: seq<ChangesetEntry>
    var calls: nat
    var published: seq<Publication>
    ghost var seen: seq<CapturedEntry>

    /** The bookkeeping of retention: what is in scope is in the CAS, the rest is noted. */
    ghost predicate Gated()
      reads this
    {
      && Confined(published, ports)
      && (forall p :: p in unpublished <==> p in finalState && !ports.authorizes(p))
      && (forall p | p in finalState && ports.authorizes(p) :: Retained(published, finalState[p].digest))
    }

    /** Identities and pending batch together name each comparable entry of `seen`. */
    ghost predicate Named()
      reads this
    {
      TruthfulNames(ports, repo) ==> Drained(capturedIdentities, identityBatch, repo) == NameEach(seen, base, repo)
    }

    /** The batch holds at most the budget: it is converted as soon as it reaches it. */
    ghost predicate Bounded()
      reads this
    {
      identityBatchBytes == BatchBytes(identityBatch) && (identityBatch == [] || identityBatchBytes < budget)
    }

    /** The closure's variables after the entries `seen` have been captured. */
    ghost predicate Capturing()
      reads this
    {
      && Gated() && Named() && Bounded() && finalState == Final(seen) && totalBytes == TotalBytes(seen)
      && |finalState| <= MAX_ENTRIES && totalBytes <= MAX_TOTAL_BYTES
    }

    constructor (ports: Ports, base: BaseTree, budget: nat, ghost repo: Repository)
      ensures this.ports == ports && this.base == base && this.budget == budget && this.repo == repo
      ensures Capturing() && seen == [] && entries == []
    {
      this.ports, this.base, this.budget, this.repo := ports, base, budget, repo;
      finalState, unpublished, totalBytes := map[], {}, 0;
      identityBatch, identityBatchBytes, capturedIdentities := [], 0, map[];
      entries, calls, published, seen := [], 0, [], [];
    }

    /** `flush_identity_batch`: a wrong number of names fails the seal. */
    method FlushIdentityBatch() returns (flushed: Result<(), Fault>)
      modifies this`calls, this`identityBatch, this`capturedIdentities
      ensures flushed.Ok? ==> identityBatch == []
      ensures old(identityBatch) == [] ==> flushed.Ok? && calls == old(calls)
      ensures old(identityBatch) != [] ==>
        var answer := ports.names(old(calls), Payloads(old(identityBatch)));
        match answer
        case Err(fault) => flushed == Err(fault)
        case Ok(names) => if |names| == |old(identityBatch)| then flushed.Ok? else flushed == Err(BaseUnavailable)
      ensures flushed.Err? ==> PortFault(ports, flushed.error)
      ensures flushed.Ok? && TruthfulNames(ports, repo) ==>
        capturedIdentities == Drained(old(capturedIdentities), old(identityBatch), repo)
      ensures Smooth(ports, base) ==> flushed.Ok?
    {
      if identityBatch == [] {
        return Ok(());
      }
      var contents := Payloads(identityBatch);
      var answer := ports.names(calls, contents);
      calls := calls + 1;
      if answer.Err? {
        return Err(answer.error);
      }
      var names := answer.value;
      if |names| != |contents| {
        return Err(BaseUnavailable);
      }
      for i := 0 to |identityBatch|
        invariant identityBatch == old(identityBatch)
        invariant TruthfulNames(ports, repo) ==>
          capturedIdentities == Drained(old(capturedIdentities), identityBatch[..i], repo)
      {
        DrainedAppend(old(capturedIdentities), identityBatch[..i], identityBatch[i], repo);
        assert identityBatch[..i + 1] == identityBatch[..i] + [identityBatch[i]];
        capturedIdentities := capturedIdentities[identityBatch[i].0 := names[i]];
      }
      assert identityBatch[..|identityBatch|] == identityBatch;
      identityBatch := [];
      return Ok(());
    }

    /** Hands `bytes` to the CAS on behalf of `path`. */
    method Publish(path: Bytes, bytes: Bytes) returns (answer: Result<ObjectRef, Fault>)
      requires ports.authorizes(path) && Confined(published, ports)
      modifies this`calls, this`published
      ensures Confined(published, ports)
      ensures answer == ports.publish(old(calls), bytes)
      ensures published == old(published) + [Publication(path, bytes, answer)]
      ensures answer.Ok? ==> Retained(published, answer.value.digest)
    {
      answer := ports.publish(calls, bytes);
      calls := calls + 1;
      published := published + [Publication(path, bytes, answer)];
      assert published[|published| - 1] in published;
    }

    /** The two ceilings; the byte count saturates. */
    method Admit(size: nat) returns (admitted: bool)
      modifies this`totalBytes
      ensures admitted <==> |finalState| < MAX_ENTRIES && old(totalBytes) + size <= MAX_TOTAL_BYTES
      ensures admitted ==> totalBytes == old(totalBytes) + size
    {
      if |finalState| >= MAX_ENTRIES {
        return false;
      }
      totalBytes := if totalBytes + size > U64_MAX then U64_MAX else totalBytes + size;
      return totalBytes <= MAX_TOTAL_BYTES;
    }

    /** The sink's first half: hash the entry, retain its bytes when the scope authorizes it. */
    method Retain(entry: CapturedEntry) returns (taken: Result<(), Fault>)
      requires Gated()
      modifies this`calls, this`published, this`unpublished, this`finalState
      ensures Confined(published, ports)
      ensures taken.Ok? ==>
        && Gated()
        && finalState == old(finalState)[entry.path := Content(entry.kind, Of(Payload(entry.bytes)), |entry.bytes|)]
      ensures !ports.authorizes(entry.path) ==> taken.Ok?
      ensures ports.authorizes(entry.path) ==>
        match ports.publish(old(calls), entry.bytes)
        case Err(fault) => taken == Err(fault)
        case Ok(ref) =>
          if ref == ObjectRef(Of(Payload(entry.bytes)), |entry.bytes|) then taken.Ok? else taken == Err(CasVerifyFailed)
      ensures taken.Err? ==> PortFault(ports, taken.error)
      ensures Trusted(ports, base, repo) && Smooth(ports, base) ==> taken.Ok?
    {
      var digest, size := Of(Payload(entry.bytes)), |entry.bytes|;
      if ports.authorizes(entry.path) {
        var answer := Publish(entry.path, entry.bytes);
        if answer.Err? {
          return Err(answer.error);
        }
        if answer.value.size != size || answer.value.digest != digest {
          return Err(CasVerifyFailed);
        }
      } else {
        unpublished := unpublished + {entry.path};
      }
      RetainedGrows(old(published), published);
      finalState := finalState[entry.path := Content(entry.kind, digest, size)];
      return Ok(());
    }

    /** The sink's second half: only content can still tell a comparable entry apart. */
    method Batch(entry: CapturedEntry) returns (taken: Result<(), Fault>)
      requires Named() && Bounded()
      modifies this`calls, this`identityBatch, this`identityBatchBytes, this`capturedIdentities, this`seen
      ensures taken.Ok? ==> Named() && Bounded() && seen == old(seen) + [entry]
      ensures taken.Err? ==> PortFault(ports, taken.error)
      ensures Smooth(ports, base) ==> taken.Ok?
    {
      assert (seen + [entry])[..|seen|] == seen;
      seen := seen + [entry];
      if Comparable(base, entry.path, entry.kind, |entry.bytes|) {
        DrainedAppend(capturedIdentities, identityBatch, (entry.path, entry.bytes), repo);
        assert (identityBatch + [(entry.path, entry.bytes)])[..|identityBatch|] == identityBatch;
        identityBatch := identityBatch + [(entry.path, entry.bytes)];
        identityBatchBytes := identityBatchBytes + |entry.bytes|;
        if identityBatchBytes >= budget {
          var flushed := FlushIdentityBatch();
          if flushed.Err? {
            return Err(flushed.error);
          }
          identityBatchBytes := 0;
        }
      }
      return Ok(());
    }

    /** The capture sink. */
    method Sink(entry: CapturedEntry) returns (taken: Result<(), Fault>)
      requires Capturing()
      modifies this`calls, this`published, this`unpublished, this`finalState, this`totalBytes
      modifies this`identityBatch, this`identityBatchBytes, this`capturedIdentities, this`seen
      ensures Confined(published, ports)
      ensures taken.Ok? ==> Capturing() && seen == old(seen) + [entry]
      ensures taken.Err? ==> SinkRefusal(taken.error, |old(finalState)|, old(totalBytes) + |entry.bytes|, ports)
      ensures |old(seen)| < MAX_ENTRIES && TotalBytes(old(seen)) + |entry.bytes| <= MAX_TOTAL_BYTES ==>
        (Trusted(ports, base, repo) && Smooth(ports, base) ==> taken.Ok?)
    {
      FinalSize(seen);
      OneMore(seen, entry);
      var admitted := Admit(|entry.bytes|);
      if !admitted {
        return Err(CaptureCeiling);
      }
      taken := Retain(entry);
      if taken.Ok? {
        taken := Batch(entry);
      }
    }

    /** The last batch, converted when the walk is over. */
    method LastFlush() returns (captured: Result<(), SealError>)
      requires Capturing() && seen == ports.captured
      modifies this`calls, this`identityBatch, this`identityBatchBytes, this`capturedIdentities
      ensures captured.Ok? ==> Settled()
      ensures captured.Err? ==> captured.error.Capture? && PortFault(ports, captured.error.fault)
      ensures Smooth(ports, base) ==> captured.Ok?
    {
      var flushed := FlushIdentityBatch();
      identityBatchBytes := 0;
      return if flushed.Err? then Err(SealError.Capture(flushed.error)) else Ok(());
    }

    /** `capture_tree` feeds the sink until it refuses, then the last batch is converted. */
    method Capture() returns (captured: Result<(), SealError>)
      requires Capturing() && seen == []
      modifies this`calls, this`published, this`unpublished, this`finalState, this`totalBytes
      modifies this`identityBatch, this`identityBatchBytes, this`capturedIdentities, this`seen
      ensures Confined(published, ports)
      ensures captured.Ok? ==> Settled() && ports.captureFault.None?
      ensures captured.Ok? ==> |finalState| <= MAX_ENTRIES && TotalBytes(ports.captured) <= MAX_TOTAL_BYTES
      ensures captured.Err? ==> CaptureRefusal(captured.error, ports)
      ensures Trusted(ports, base, repo) && Smooth(ports, base) ==> captured.Ok?
    {
      for i := 0 to |ports.captured|
        invariant Capturing() && seen == ports.captured[..i]
      {
        assert ports.captured[..i + 1] == ports.captured[..i] + [ports.captured[i]];
        TotalBytesBelow(ports.captured, i);
        var taken := Sink(ports.captured[i]);
        if taken.Err? {
          SinkRefuses(taken.error, ports, i);
          return Err(Surfaced(taken.error));
        }
      }
      assert ports.captured[..|ports.captured|] == ports.captured;
      if ports.captureFault.Some? {
        return Err(Surfaced(ports.captureFault.value));
      }
      captured := LastFlush();
    }

    // -------------------------------------------------------------- the diff

    /** Capture is over: the two logical states are settled. */
    ghost predicate Settled()
      reads this
    {
      && Gated() && (TruthfulNames(ports, repo) ==> capturedIdentities == NameEach(ports.captured, base, repo))
      && finalState == Final(ports.captured)
    }

    ghost function Before(): Tree {
      LogicalBase(base, repo)
    }

    ghost function After(): Tree
      reads this
    {
      LogicalFinal(finalState)
    }

    /** The entries built so far are lawful and, when the ports are honest, exactly the diff on `done`. */
    ghost predicate Diffed(done: set<Bytes>)
      reads this
    {
      && AllLawful(entries, published, ports)
      && (Trusted(ports, base, repo) ==> ExactOn(done, entries, Before(), After()) && AllSized(entries))
    }

    /** Honest ports that never fault. */
    ghost predicate Calm() {
      Trusted(ports, base, repo) && Smooth(ports, base)
    }

    /** Why one path is refused; with calm ports it changed and lies outside the scope. */
    ghost predicate Refuses(error: SealError, path: Bytes)
      reads this
    {
      && DiffRefusal(error, path, ports, base)
      && (Calm() ==> error == ScopeViolated(path) && StateAt(Before(), path) != StateAt(After(), path))
    }

    /** `before_state`: the preimage goes into the CAS before anything names it. */
    method BeforeState(path: Bytes) returns (state: Result<EntryState, SealError>)
      requires path in base && ports.authorizes(path) && Gated()
      modifies this`calls, this`published
      ensures Gated() && old(published) <= published
      ensures state.Ok? ==> state.value.Present? && Retained(published, state.value.blob)
      ensures state.Ok? && Trusted(ports, base, repo) ==> state.value == StateAt(Before(), path) && Sized(state.value)
      ensures state.Err? ==> state.error.Capture? && PortFault(ports, state.error.fault)
      ensures Trusted(ports, base, repo) && Smooth(ports, base) ==> state.Ok?
    {
      var bytes := ports.blob(calls, base[path].oid);
      calls := calls + 1;
      if bytes.Err? {
        return Err(SealError.Capture(bytes.error));
      }
      var answer := Publish(path, bytes.value);
      RetainedGrows(old(published), published);
      if answer.Err? {
        return Err(SealError.Capture(answer.error));
      }
      if answer.value.size != |bytes.value| || answer.value.size != base[path].size {
        return Err(SealError.Capture(CasVerifyFailed));
      }
      return Ok(Present(base[path].kind, answer.value.digest, answer.value.size));
    }

    /** Appends one entry of the diff. */
    method Emit(entry: ChangesetEntry, ghost done: set<Bytes>)
      requires Diffed(done) && entry.path !in done && Lawful(entry, published, ports)
      requires Trusted(ports, base, repo) ==>
        Faithful(entry, Before(), After()) && Sized(entry.before) && Sized(entry.after)
      modifies this`entries
      ensures Diffed(done + {entry.path}) && entries == old(entries) + [entry]
    {
      if Trusted(ports, base, repo) {
        ExactOnAppend(done, entries, entry, Before(), After());
      }
      entries := entries + [entry];
    }

    /** One turn of the loop over the captured state: an addition, a modification, or nothing. */
    method DiffCaptured(path: Bytes, ghost done: set<Bytes>) returns (step: Result<(), SealError>)
      requires Settled() && Diffed(done) && path in finalState && path !in done
      modifies this`calls, this`published, this`entries
      ensures Settled()
      ensures step.Ok? ==> Diffed(done + {path}) && AtMostOneMore(old(entries), entries, path, false)
      ensures step.Err? ==> Refuses(step.error, path)
    {
      ghost var honest := Trusted(ports, base, repo);
      if PathCodec.FromBytes(path).Err? {
        CapturedPath(ports.captured, path);
        return Err(Construction(InvalidPath));
      }
      var after := finalState[path];
      var afterState := Present(after.kind, after.digest, after.size);
      assert afterState == StateAt(After(), path);
      NameEachNames(ports.captured, base, repo, path);
      if path in base && Unchanged(base[path], after, capturedIdentities, path) {
        if honest { UnchangedIsEqualState(ports.captured, ports, base, repo, path); }
        return Ok(());
      }
      if honest && path in base { UnchangedIsEqualState(ports.captured, ports, base, repo, path); }
      assert honest ==> StateAt(Before(), path) != StateAt(After(), path);
      if path in unpublished {
        return Err(ScopeViolated(path));
      }
      if path !in base {
        Emit(ChangesetEntry(path, Add, Absent, afterState), done);
        return Ok(());
      }
      step := Replace(path, afterState, done);
    }

    /** A changed path the base also has: its preimage first, then the entry. */
    method Replace(path: Bytes, afterState: EntryState, ghost done: set<Bytes>) returns (step: Result<(), SealError>)
      requires Settled() && Diffed(done) && path in base && path !in done && ports.authorizes(path)
      requires PathCodec.FromBytes(path).Ok?
      requires afterState.Present? && afterState == StateAt(After(), path) && Sized(afterState)
      requires Retained(published, afterState.blob)
      requires Trusted(ports, base, repo) ==> StateAt(Before(), path) != afterState
      modifies this`calls, this`published, this`entries
      ensures Settled()
      ensures step.Ok? ==> Diffed(done + {path}) && AtMostOneMore(old(entries), entries, path, false)
      ensures step.Err? ==> Refuses(step.error, path)
    {
      var before := BeforeState(path);
      AllLawfulGrows(entries, old(published), published, ports);
      RetainedGrows(old(published), published);
      if before.Err? {
        return Err(before.error);
      }
      var entry := NewEntry(path, Modify, before.value, afterState);
      Emit(entry.value, done);
      return Ok(());
    }

    /** One turn of the loop over the base: a path that is gone. */
    method DiffDeleted(path: Bytes, ghost done: set<Bytes>) returns (step: Result<(), SealError>)
      requires Settled() && Diffed(done) && path in base && path !in finalState && path !in done
      modifies this`calls, this`published, this`entries
      ensures Settled()
      ensures step.Ok? ==> Diffed(done + {path}) && AtMostOneMore(old(entries), entries, path, true)
      ensures step.Err? ==> Refuses(step.error, path)
    {
      if PathCodec.FromBytes(path).Err? {
        return Err(Construction(InvalidPath));
      }
      assert StateAt(Before(), path) != StateAt(After(), path);
      if !ports.authorizes(path) {
        return Err(ScopeViolated(path));
      }
      var before := BeforeState(path);
      AllLawfulGrows(entries, old(published), published, ports);
      if before.Err? {
        return Err(before.error);
      }
      Emit(ChangesetEntry(path, Delete, before.value, Absent), done);
      return Ok(());
    }

    /** The first loop refuses a captured path; with calm ports, the least one written outside the scope. */
    ghost predicate CapturedRefused(error: SealError)
      reads this
    {
      && (exists path :: path in finalState && DiffRefusal(error, path, ports, base))
      && (Calm() ==> error.ScopeViolated? && LeastWritten(Before(), After(), ports, error.path))
    }

    /** The second loop refuses a path of the base; with calm ports nothing is written outside the scope
        and this is the least path that vanished outside it. */
    ghost predicate DeletedRefused(error: SealError)
      reads this
    {
      && (exists path :: path in base && DiffRefusal(error, path, ports, base))
      && (Calm() ==>
            && error.ScopeViolated? && LeastVanished(Before(), After(), ports, error.path)
            && forall q :: !WrittenOutside(Before(), After(), ports, q))
    }

    /** One turn of the first loop. */
    method CapturedTurn(paths: seq<Bytes>, i: nat, ghost done: set<Bytes>) returns (step: Result<(), SealError>)
      requires Settled() && Diffed(done) && i < |paths| && Lists(paths, finalState.Keys)
      requires InRun(entries, false) && DrawnFrom(entries, paths[..i]) && forall p :: p in done <==> p in paths[..i]
      modifies this`calls, this`published, this`entries
      ensures Settled()
      ensures step.Ok? ==>
        Diffed(done + {paths[i]}) && InRun(entries, false) && DrawnFrom(entries, paths[..i + 1])
      ensures step.Err? ==> CapturedRefused(step.error)
    {
      ghost var sofar, kept := entries, published;
      assert paths[i] in paths;
      NotYet(paths, i);
      step := DiffCaptured(paths[i], done);
      if step.Ok? {
        RunGrows(sofar, entries, paths, i, false);
      } else if Calm() {
        LeastOfWritten(done, sofar, kept, Before(), After(), ports, paths, i);
      }
    }

    /** The first loop. */
    method DiffAllCaptured() returns (diffed: Result<(), SealError>)
      requires Settled() && entries == []
      modifies this`calls, this`published, this`entries
      ensures Settled()
      ensures diffed.Ok? ==> Diffed(finalState.Keys) && InRun(entries, false)
      ensures diffed.Err? ==> CapturedRefused(diffed.error)
    {
      var paths := Ascending(finalState.Keys);
      ghost var done: set<Bytes> := {};
      for i := 0 to |paths|
        invariant Settled() && Diffed(done)
        invariant InRun(entries, false) && DrawnFrom(entries, paths[..i])
        invariant forall p :: p in done <==> p in paths[..i]
      {
        assert paths[..i + 1] == paths[..i] + [paths[i]];
        diffed := CapturedTurn(paths, i, done);
        if diffed.Err? {
          return;
        }
        done := done + {paths[i]};
      }
      assert paths[..|paths|] == paths;
      assert done == finalState.Keys;
      return Ok(());
    }

    /** One turn of the second loop: paths the capture still has are passed over. */
    method DeleteTurn(paths: seq<Bytes>, i: nat, ghost kept: seq<ChangesetEntry>, ghost done: set<Bytes>)
      returns (step: Result<(), SealError>)
      requires Settled() && Diffed(done) && i < |paths| && Lists(paths, base.Keys)
      requires DeletedRun(kept, entries, paths[..i])
      requires forall p :: p in done <==> p in finalState || p in paths[..i]
      modifies this`calls, this`published, this`entries
      ensures Settled()
      ensures step.Ok? ==> Diffed(done + {paths[i]}) && DeletedRun(kept, entries, paths[..i + 1])
      ensures step.Err? ==> DeletedRefused(step.error)
    {
      var path := paths[i];
      ghost var sofar, retained := entries, published;
      assert path in paths;
      NotYet(paths, i);
      if path in finalState {
        assert done + {path} == done;
        DeletedRunGrows(kept, sofar, entries, paths, i);
        return Ok(());
      }
      step := DiffDeleted(path, done);
      if step.Ok? {
        DeletedRunGrows(kept, sofar, entries, paths, i);
      } else if Calm() {
        assert VanishedOutside(Before(), After(), ports, path);
        LeastOfVanished(done, sofar, retained, Before(), After(), ports, paths, i);
      }
    }

    /** The second loop, over what the first one left unread. */
    method DiffAllDeleted() returns (diffed: Result<(), SealError>)
      requires Settled() && Diffed(finalState.Keys)
      modifies this`calls, this`published, this`entries
      ensures Settled()
      ensures diffed.Ok? ==> Diffed(finalState.Keys + base.Keys)
      ensures diffed.Ok? ==> old(entries) <= entries && InRun(entries[|old(entries)|..], true)
      ensures diffed.Err? ==> DeletedRefused(diffed.error)
    {
      var paths := Ascending(base.Keys);
      ghost var done := finalState.Keys;
      for i := 0 to |paths|
        invariant Settled() && Diffed(done)
        invariant DeletedRun(old(entries), entries, paths[..i])
        invariant forall p :: p in done <==> p in finalState || p in paths[..i]
      {
        assert paths[..i + 1] == paths[..i] + [paths[i]];
        diffed := DeleteTurn(paths, i, old(entries), done);
        if diffed.Err? {
          return;
        }
        done := done + {paths[i]};
      }
      assert paths[..|paths|] == paths;
      assert done == finalState.Keys + base.Keys;
      return Ok(());
    }

    // -------------------------------------------------------------- what is committed

    /** The captured state in the form the revision document stores it. */
    method CapturedRevision() returns (revision: RevisionState)
      requires Settled()
      ensures IsRevisionOf(revision, finalState)
    {
      var paths := Ascending(finalState.Keys);
      var finals := [];
      for i := 0 to |paths|
        invariant |finals| == i
        invariant forall k | 0 <= k < i :: finals[k] == FinalOf(finalState, paths[k])
      {
        finals := finals + [FinalOf(finalState, paths[i])];
      }
      assert Distinct(finals, FinalPath);
      var state := NewRevisionState(finals);
      revision := state.value;
      SortMembers(finals, FinalLe);
      forall e: FinalEntry | e.path in finalState && finalState[e.path] == Content(e.kind, e.blob, e.size)
        ensures e in finals
      {
        var k :| 0 <= k < |paths| && paths[k] == e.path;
        assert finals[k] == e;
      }
    }

    /** The manifest, its identity, the captured revision and the member list. */
    method Name(repository: Bytes, baseCommit: Bytes) returns (sealed: Sealed)
      requires Settled() && Diffed(finalState.Keys + base.Keys)
      ensures AllLawful(sealed.manifest.entries, published, ports)
      ensures Carries(sealed.members, sealed.manifest.entries)
      ensures IsRevisionOf(sealed.revision, Final(ports.captured))
      ensures sealed.artifact == Of(ManifestDocument(sealed.manifest))
      ensures sealed.manifest.entries == Sort(entries, EntryLe)
      ensures Trusted(ports, base, repo) ==>
        && TrueSizes(sealed.members)
        && SealOf(sealed, repository, baseCommit, Before(), Final(ports.captured))
        && !Breach(Before(), LogicalFinal(Final(ports.captured)), ports)
    {
      var revision := CapturedRevision();
      var manifest := ChangesetManifest(repository, baseCommit, revision.digest, entries);
      var members := UniqueMembers(entries);
      SortMembers(entries, EntryLe);
      LawfulPermuted(entries, manifest.entries, published, ports);
      CarriesPermuted(members, entries, manifest.entries);
      if Trusted(ports, base, repo) {
        ExactOnEverything(finalState.Keys + base.Keys, entries, Before(), After());
        NoBreach(entries, published, Before(), After(), ports);
        SortKeepsExact(entries, Before(), After());
      }
      return Sealed(manifest, Of(ManifestDocument(manifest)), revision, members);
    }

    /** Everything after the fence: capture, retain, diff, name. What is returned is what the
        store is asked to commit. */
    method CaptureAndSeal(repository: Bytes, baseCommit: Bytes) returns (sealed: Result<Sealed, SealError>)
      requires Capturing() && seen == [] && entries == []
      modifies this
      ensures Confined(published, ports)
      ensures sealed.Ok? ==> ports.captureFault.None?
      ensures sealed.Ok? ==>
        && AllLawful(sealed.value.manifest.entries, published, ports)
        && Carries(sealed.value.members, sealed.value.manifest.entries)
        && IsRevisionOf(sealed.value.revision, Final(ports.captured))
        && sealed.value.artifact == Of(ManifestDocument(sealed.value.manifest))
        && sealed.value.manifest.entries == Sort(entries, EntryLe)
        && AddsThenDeletes(entries)
      ensures sealed.Ok? && Trusted(ports, base, repo) ==>
        && TrueSizes(sealed.value.members)
        && SealOf(sealed.value, repository, baseCommit, Before(), Final(ports.captured))
        && Apply(Before(), sealed.value.manifest.entries) == Some(LogicalFinal(Final(ports.captured)))
        && capturedIdentities == NameEach(ports.captured, base, repo)
      ensures sealed.Ok? ==> |Final(ports.captured)| <= MAX_ENTRIES && TotalBytes(ports.captured) <= MAX_TOTAL_BYTES
      ensures sealed.Err? ==>
        CaptureRefusal(sealed.error, ports) || exists path :: DiffRefusal(sealed.error, path, ports, base)
      ensures Calm() ==> (sealed.Ok? <==> !Breach(Before(), LogicalFinal(Final(ports.captured)), ports))
      ensures Calm() && sealed.Err? ==>
        && sealed.error.ScopeViolated?
        && FirstBreach(Before(), LogicalFinal(Final(ports.captured)), ports, sealed.error.path)
    {
      var captured := Capture();
      if captured.Err? {
        return Err(captured.error);
      }
      var diffed := DiffAllCaptured();
      if diffed.Err? {
        if Calm() { FirstBreachIsBreach(Before(), After(), ports, diffed.error.path); }
        return Err(diffed.error);
      }
      ghost var added := entries;
      diffed := DiffAllDeleted();
      if diffed.Err? {
        if Calm() { FirstBreachIsBreach(Before(), After(), ports, diffed.error.path); }
        return Err(diffed.error);
      }
      assert AddsThenDeletes(entries) by { assert entries[..|added|] == added; }
      var named := Name(repository, baseCommit);
      if Trusted(ports, base, repo) {
        DescribesApplies(named.manifest.entries, Before(), After());
      }
      return Ok(named);
    }
  }

  /** What is compared and described lies inside the scope. */
  lemma DoneInside(done: set<Bytes>, entries: seq<ChangesetEntry>, published: seq<Publication>, base: Tree,
      target: Tree, ports: Ports)
    requires AllLawful(entries, published, ports) && ExactOn(done, entries, base, target)
    ensures forall p | p in done && StateAt(base, p) != StateAt(target, p) :: ports.authorizes(p)
  {
    forall p | p in done && StateAt(base, p) != StateAt(target, p) ensures ports.authorizes(p) {
      var i :| 0 <= i < |entries| && entries[i].path == p;
      assert Lawful(entries[i], published, ports);
    }
  }

  /** In ascending order the first written path outside the scope is the least one. */
  lemma LeastOfWritten(done: set<Bytes>, entries: seq<ChangesetEntry>, published: seq<Publication>, base: Tree,
      target: Tree, ports: Ports, paths: seq<Bytes>, i: nat)
    requires AllLawful(entries, published, ports) && ExactOn(done, entries, base, target)
    requires i < |paths| && (forall j, k | 0 <= j < k < |paths| :: Lt(paths[j], paths[k]))
    requires (forall p | p in target :: p in paths) && (forall p | p in paths[..i] :: p in done)
    requires WrittenOutside(base, target, ports, paths[i])
    ensures LeastWritten(base, target, ports, paths[i])
  {
    DoneInside(done, entries, published, base, target, ports);
    forall q | WrittenOutside(base, target, ports, q) ensures Le(paths[i], q) {
      NotEarlier(paths, i, q);
    }
  }

  /** And so is the first vanished one, once everything captured is described. */
  lemma LeastOfVanished(done: set<Bytes>, entries: seq<ChangesetEntry>, published: seq<Publication>, base: Tree,
      target: Tree, ports: Ports, paths: seq<Bytes>, i: nat)
    requires AllLawful(entries, published, ports) && ExactOn(done, entries, base, target)
    requires i < |paths| && (forall j, k | 0 <= j < k < |paths| :: Lt(paths[j], paths[k]))
    requires (forall p | p in base :: p in paths) && (forall p | p in paths[..i] :: p in done)
    requires (forall p | p in target :: p in done) && VanishedOutside(base, target, ports, paths[i])
    ensures LeastVanished(base, target, ports, paths[i])
    ensures forall q :: !WrittenOutside(base, target, ports, q)
  {
    DoneInside(done, entries, published, base, target, ports);
    forall q | VanishedOutside(base, target, ports, q) ensures Le(paths[i], q) {
      NotEarlier(paths, i, q);
    }
  }

  lemma NotYet(paths: seq<Bytes>, i: nat)
    requires i < |paths| && (forall j, k | 0 <= j < k < |paths| :: Lt(paths[j], paths[k]))
    ensures paths[i] !in paths[..i]
  {
    forall j | 0 <= j < i ensures paths[..i][j] != paths[i] {
      assert Lt(paths[j], paths[i]);
    }
  }

  lemma NotEarlier(paths: seq<Bytes>, i: nat, q: Bytes)
    requires i < |paths| && (forall j, k | 0 <= j < k < |paths| :: Lt(paths[j], paths[k]))
    requires q in paths && q !in paths[..i]
    ensures Le(paths[i], q)
  {
    forall j | 0 <= j < i ensures paths[j] != q {
      assert paths[..i][j] == paths[j];
    }
    LeIsTotalOrder();
  }

  /** What one more captured entry adds. */
  lemma OneMore(seen: seq<CapturedEntry>, e: CapturedEntry)
    ensures Final(seen + [e]) == Final(seen)[e.path := Content(e.kind, Of(Payload(e.bytes)), |e.bytes|)]
    ensures TotalBytes(seen + [e]) == TotalBytes(seen) + |e.bytes|
  {
  }

  lemma TotalBytesBelow(entries: seq<CapturedEntry>, i: nat)
    requires i < |entries|
    ensures TotalBytes(entries[..i]) + |entries[i].bytes| <= TotalBytes(entries)
  {
    TotalBytesMonotone(entries, i + 1);
    assert entries[..i + 1][..i] == entries[..i];
  }

  lemma {:induction false} TotalBytesMonotone(entries: seq<CapturedEntry>, k: nat)
    requires k <= |entries|
    ensures TotalBytes(entries[..k]) <= TotalBytes(entries)
    decreases |entries| - k
  {
    if k < |entries| {
      TotalBytesMonotone(entries, k + 1);
      assert entries[..k + 1][..k] == entries[..k];
    } else {
      assert entries[..k] == entries;
    }
  }

  /** Every path of the captured state was captured. */
  lemma {:induction false} CapturedPath(seen: seq<CapturedEntry>, path: Bytes)
    requires path in Final(seen)
    ensures exists e :: e in seen && e.path == path
  {
    var e, rest := seen[|seen| - 1], seen[..|seen| - 1];
    if path != e.path {
      CapturedPath(rest, path);
      var earlier :| earlier in rest && earlier.path == path;
      assert earlier in seen;
    }
  }

  datatype Sealed = Sealed(manifest: Manifest, artifact: Digest, revision: RevisionState, members: seq<(Digest, nat)>)

  function FinalOf(final: map<Bytes, Content>, path: Bytes): FinalEntry
    requires path in final
  {
    FinalEntry(path, final[path].kind, final[path].digest, final[path].size)
  }

  /** The canonical listing of a captured state. */
  ghost predicate IsRevisionOf(revision: RevisionState, final: map<Bytes, Content>) {
    && Sorted(revision.entries, FinalLe)
    && Distinct(revision.entries, FinalPath)
    && revision.digest == Of(RevisionDocument(revision.entries))
    && (forall e :: e in revision.entries <==> e.path in final && final[e.path] == Content(e.kind, e.blob, e.size))
  }

  /** The manifest names this blob on one of its sides. */
  ghost predicate Names(entries: seq<ChangesetEntry>, digest: Digest) {
    exists e :: e in entries
      && ((e.before.Present? && e.before.blob == digest) || (e.after.Present? && e.after.blob == digest))
  }

  /** A member list holds each named blob once, and no other. */
  ghost predicate Carries(members: seq<(Digest, nat)>, entries: seq<ChangesetEntry>) {
    && Distinct(members, MemberDigest)
    && (forall d :: Listed(members, d) <==> Names(entries, d))
  }

  function MemberDigest(member: (Digest, nat)): Digest {
    member.0
  }

  predicate Listed(members: seq<(Digest, nat)>, digest: Digest) {
    exists m :: m in members && m.0 == digest
  }

  lemma LawfulPermuted(a: seq<ChangesetEntry>, b: seq<ChangesetEntry>, published: seq<Publication>, ports: Ports)
    requires AllLawful(a, published, ports) && forall e :: e in b <==> e in a
    ensures AllLawful(b, published, ports)
  {
    forall i | 0 <= i < |b| ensures Lawful(b[i], published, ports) {
      assert b[i] in a;
    }
  }

  lemma CarriesPermuted(members: seq<(Digest, nat)>, a: seq<ChangesetEntry>, b: seq<ChangesetEntry>)
    requires Carries(members, a) && forall e :: e in b <==> e in a
    ensures Carries(members, b)
  {
  }

  /** The blobs of the before-sides, then of the after-sides. */
  function Blobs(entries: seq<ChangesetEntry>): seq<(Digest, nat)> {
    Sides(entries, (e: ChangesetEntry) => e.before) + Sides(entries, (e: ChangesetEntry) => e.after)
  }

  function Sides(entries: seq<ChangesetEntry>, side: ChangesetEntry -> EntryState): seq<(Digest, nat)> {
    if entries == [] then []
    else
      var state := side(entries[0]);
      (if state.Present? then [(state.blob, state.size)] else []) + Sides(entries[1..], side)
  }

  lemma {:induction false} SidesListed(entries: seq<ChangesetEntry>, side: ChangesetEntry -> EntryState, digest: Digest)
    ensures Listed(Sides(entries, side), digest) <==> exists e ::
      e in entries && side(e).Present? && side(e).blob == digest
  {
    if entries != [] {
      SidesListed(entries[1..], side, digest);
      assert entries == [entries[0]] + entries[1..];
      var state := side(entries[0]);
      if state.Present? {
        assert (state.blob, state.size) in Sides(entries, side);
      }
    }
  }

  lemma ListedAppend(members: seq<(Digest, nat)>, member: (Digest, nat))
    ensures forall d :: Listed(members + [member], d) <==> Listed(members, d) || d == member.0
  {
  }

  /** Each member is a payload listed with its own length. */
  ghost predicate TrueSizes(members: seq<(Digest, nat)>) {
    forall m | m in members :: m.0.document.Payload? && |m.0.document.bytes| == m.1
  }

  lemma {:induction false} SidesSized(entries: seq<ChangesetEntry>, side: ChangesetEntry -> EntryState)
    requires forall e | e in entries :: Sized(side(e))
    ensures TrueSizes(Sides(entries, side))
  {
    if entries != [] {
      SidesSized(entries[1..], side);
    }
  }

  /** The member list: blobs in order, each digest kept where it first occurs. */
  method UniqueMembers(entries: seq<ChangesetEntry>) returns (members: seq<(Digest, nat)>)
    ensures Carries(members, entries)
    ensures AllSized(entries) ==> TrueSizes(members)
  {
    var all := Blobs(entries);
    if AllSized(entries) {
      SidesSized(entries, (e: ChangesetEntry) => e.before);
      SidesSized(entries, (e: ChangesetEntry) => e.after);
    }
    members := [];
    for i := 0 to |all|
      invariant Distinct(members, MemberDigest)
      invariant forall m | m in members :: m in all
      invariant forall d :: Listed(members, d) <==> Listed(all[..i], d)
    {
      assert all[..i + 1] == all[..i] + [all[i]];
      ListedAppend(all[..i], all[i]);
      ListedAppend(members, all[i]);
      if !Listed(members, all[i].0) {
        members := members + [all[i]];
      }
    }
    assert all[..|all|] == all;
    BlobsNamed(entries);
  }

  lemma BlobsNamed(entries: seq<ChangesetEntry>)
    ensures forall d :: Listed(Blobs(entries), d) <==> Names(entries, d)
  {
    forall d ensures Listed(Blobs(entries), d) <==> Names(entries, d) {
      SidesListed(entries, (e: ChangesetEntry) => e.before, d);
      SidesListed(entries, (e: ChangesetEntry) => e.after, d);
    }
  }

  // ---------------------------------------------------------------- what a sealed changeset means

  /** The promises `CaptureAndSeal` makes of its result against two logical trees. */
  ghost predicate SealOf(sealed: Sealed, repository: Bytes, baseCommit: Bytes, base: Tree, final: map<Bytes, Content>) {
    && sealed.artifact == Of(ManifestDocument(sealed.manifest))
    && sealed.manifest.repository == repository
    && sealed.manifest.baseCommit == baseCommit
    && sealed.manifest.workspaceRevision == sealed.revision.digest
    && IsRevisionOf(sealed.revision, final)
    && Sorted(sealed.manifest.entries, EntryLe)
    && Exact(sealed.manifest.entries, base, LogicalFinal(final))
  }

  /** A sealed manifest is a patch from base to captured state and, read backwards, from captured
      state to base. */
  lemma SealedPatchRoundTrip(sealed: Sealed, repository: Bytes, baseCommit: Bytes, base: BaseTree, repo: Repository,
      final: map<Bytes, Content>)
    requires SealOf(sealed, repository, baseCommit, LogicalBase(base, repo), final)
    ensures Apply(LogicalBase(base, repo), sealed.manifest.entries) == Some(LogicalFinal(final))
    ensures Apply(LogicalFinal(final), UndoAll(sealed.manifest.entries)) == Some(LogicalBase(base, repo))
  {
    var before, after := LogicalBase(base, repo), LogicalFinal(final);
    DescribesApplies(sealed.manifest.entries, before, after);
    DescribesReversed(sealed.manifest.entries, before, after);
    DescribesApplies(UndoAll(sealed.manifest.entries), after, before);
  }

  /** Two seals of one captured state over one base name the same Artifact and the same revision,
      however each of them batched, interleaved and retried. */
  lemma ArtifactDeterministic(a: Sealed, b: Sealed, repository: Bytes, baseCommit: Bytes, base: Tree,
      final: map<Bytes, Content>)
    requires SealOf(a, repository, baseCommit, base, final) && SealOf(b, repository, baseCommit, base, final)
    ensures a.artifact == b.artifact && a.revision == b.revision
  {
    PathOrders();
    var after := LogicalFinal(final);
    ExactIncluded(a.manifest.entries, b.manifest.entries, base, after);
    ExactIncluded(b.manifest.entries, a.manifest.entries, base, after);
    SameElementsSameMultiset(a.manifest.entries, b.manifest.entries, EntryPath);
    assert Separates(EntryLe, a.manifest.entries) by { LeIsTotalOrder(); }
    SortedUnique(a.manifest.entries, b.manifest.entries, EntryLe);
    SameElementsSameMultiset(a.revision.entries, b.revision.entries, FinalPath);
    assert Separates(FinalLe, a.revision.entries) by { LeIsTotalOrder(); }
    SortedUnique(a.revision.entries, b.revision.entries, FinalLe);
  }

  function CapturedAt(entry: CapturedEntry): Bytes {
    entry.path
  }

  /** The captured state does not depend on the order a tree was walked in. */
  lemma CaptureOrderIrrelevant(a: seq<CapturedEntry>, b: seq<CapturedEntry>)
    requires multiset(a) == multiset(b) && Distinct(a, CapturedAt)
    ensures Final(a) == Final(b)
  {
    DistinctPermuted(a, b, CapturedAt);
    FinalIsEach(a);
    FinalIsEach(b);
    assert forall e :: e in a <==> e in multiset(a);
    assert forall e :: e in b <==> e in multiset(b);
    forall p ensures p in Final(a) <==> p in Final(b) {
      if p in Final(a) { CapturedPath(a, p); }
      if p in Final(b) { CapturedPath(b, p); }
    }
    forall p | p in Final(a) ensures Final(a)[p] == Final(b)[p] {
      CapturedPath(a, p);
    }
  }

  lemma {:induction false} FinalIsEach(seen: seq<CapturedEntry>)
    requires Distinct(seen, CapturedAt)
    ensures forall e | e in seen ::
      e.path in Final(seen) && Final(seen)[e.path] == Content(e.kind, Of(Payload(e.bytes)), |e.bytes|)
  {
    forall e | e in seen
      ensures e.path in Final(seen) && Final(seen)[e.path] == Content(e.kind, Of(Payload(e.bytes)), |e.bytes|)
    {
      var i :| 0 <= i < |seen| && seen[i] == e;
      FinalAt(seen, i);
    }
  }

  /** An entry whose path is not captured again decides the state there. */
  lemma {:induction false} FinalAt(seen: seq<CapturedEntry>, i: nat)
    requires Distinct(seen, CapturedAt) && i < |seen|
    ensures var e := seen[i];
      && e.path in Final(seen)
      && Final(seen)[e.path] == Content(e.kind, Of(Payload(e.bytes)), |e.bytes|)
  {
    if i < |seen| - 1 {
      var rest := seen[..|seen| - 1];
      assert CapturedAt(seen[i]) != CapturedAt(seen[|seen| - 1]);
      assert forall j, k | 0 <= j < k < |rest| ::
        CapturedAt(rest[j]) == CapturedAt(seen[j]) && CapturedAt(rest[k]) == CapturedAt(seen[k]);
      FinalAt(rest, i);
    }
  }
}
