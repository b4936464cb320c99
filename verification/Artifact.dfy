/** The immutable Artifact vocabulary: changed-path entries, the captured revision state, the
    canonical manifest, and what a manifest means as a patch.

    `Digest::of` is modelled as a collision-free name: a digest is the document it was taken over,
    so equal digests are equal documents and nothing else is known about them. */
module Artifact {
  import opened ByteOrder
  import opened Wrappers
  import opened Sorting

  datatype EntryKind = Regular | Executable | Symlink

  datatype Document =
    | Payload(bytes: Bytes)
    | RevisionDocument(entries: seq<FinalEntry>)
    | ManifestDocument(manifest: Manifest)

  datatype Digest = Of(document: Document)

  datatype EntryState = Absent | Present(kind: EntryKind, blob: Digest, size: nat)

  datatype Operation = Add | Modify | Delete

  datatype ChangesetEntry =
    ChangesetEntry(path: Bytes, operation: Operation, before: EntryState, after: EntryState)

  datatype FinalEntry = FinalEntry(path: Bytes, kind: EntryKind, blob: Digest, size: nat)

  datatype RevisionState = RevisionState(entries: seq<FinalEntry>, digest: Digest)

  datatype Manifest = Manifest(
    repository: Bytes,
    baseCommit: Bytes,
    workspaceRevision: Digest,
    entries: seq<ChangesetEntry>)

  datatype ChangesetError = DuplicatePath(path: Bytes) | OperationStateMismatch | InvalidPath

  // ---------------------------------------------------------------- ChangesetEntry

  /** The operation a pair of states calls for, when there is one. */
  ghost predicate OperationAgrees(entry: ChangesetEntry) {
    match entry.operation
    case Add => entry.before.Absent? && entry.after.Present?
    case Modify => entry.before.Present? && entry.after.Present?
    case Delete => entry.before.Present? && entry.after.Absent?
  }

  /** `ChangesetEntry::new`: an entry exists only when its operation agrees with its states. */
  function NewEntry(path: Bytes, operation: Operation, before: EntryState, after: EntryState)
    : (entry: Result<ChangesetEntry, ChangesetError>)
    ensures entry.Ok? <==> OperationAgrees(ChangesetEntry(path, operation, before, after))
    ensures entry.Ok? ==> entry.value == ChangesetEntry(path, operation, before, after)
  {
    var agrees :=
      match operation
      case Add => !before.Present? && after.Present?
      case Modify => before.Present? && after.Present?
      case Delete => before.Present? && !after.Present?;
    if agrees then Ok(ChangesetEntry(path, operation, before, after)) else Err(OperationStateMismatch)
  }

  // ---------------------------------------------------------------- RevisionState

  predicate FinalLe(a: FinalEntry, b: FinalEntry) {
    Le(a.path, b.path)
  }

  predicate EntryLe(a: ChangesetEntry, b: ChangesetEntry) {
    Le(a.path, b.path)
  }

  lemma PathOrders()
    ensures TotalPreorder(FinalLe) && TotalPreorder(EntryLe)
  {
    LeIsTotalOrder();
  }

  function FinalPath(entry: FinalEntry): Bytes {
    entry.path
  }

  function EntryPath(entry: ChangesetEntry): Bytes {
    entry.path
  }

  /** `RevisionState::new`: sort by path bytes, then refuse when two neighbours share a path. */
  method NewRevisionState(entries: seq<FinalEntry>) returns (state: Result<RevisionState, ChangesetError>)
    ensures state.Ok? <==> Distinct(entries, FinalPath)
    ensures state.Ok? ==>
      && state.value.entries == Sort(entries, FinalLe)
      && state.value.digest == Of(RevisionDocument(state.value.entries))
      && Sorted(state.value.entries, FinalLe)
      && Distinct(state.value.entries, FinalPath)
    ensures state.Err? ==>
      exists i, j :: 0 <= i < j < |entries| && entries[i].path == entries[j].path
        && state == Err(DuplicatePath(entries[i].path))
  {
    var sorted := Sort(entries, FinalLe);
    PathOrders();
    SortSorted(entries, FinalLe);
    SortPermutes(entries, FinalLe);
    var i := 0;
    while i + 1 < |sorted|
      invariant 0 <= i
      invariant i <= |sorted|
      invariant forall k | 0 < k <= i && k < |sorted| :: sorted[k - 1].path != sorted[k].path
    {
      if sorted[i].path == sorted[i + 1].path {
        DuplicateTransfers(entries, sorted, FinalPath, i, i + 1);
        return Err(DuplicatePath(sorted[i + 1].path));
      }
      i := i + 1;
    }
    NeighboursDiffer(sorted);
    DistinctPermuted(sorted, entries, FinalPath);
    return Ok(RevisionState(sorted, Of(RevisionDocument(sorted))));
  }

  lemma NeighboursDiffer(sorted: seq<FinalEntry>)
    requires Sorted(sorted, FinalLe)
    requires forall k | 0 < k < |sorted| :: sorted[k - 1].path != sorted[k].path
    ensures Distinct(sorted, FinalPath)
  {
    forall i, j | 0 <= i < j < |sorted| ensures sorted[i].path != sorted[j].path {
      if sorted[i].path == sorted[j].path {
        assert FinalLe(sorted[i], sorted[j - 1]) || i == j - 1;
        assert FinalLe(sorted[j - 1], sorted[j]);
        LeReflexive(sorted[i].path);
        LeAntisymmetric(sorted[j - 1].path, sorted[j].path);
      }
    }
  }

  /** The state is a function of what was captured, never of the order it was captured in. */
  lemma RevisionStateCanonical(a: seq<FinalEntry>, b: seq<FinalEntry>)
    requires multiset(a) == multiset(b)
    ensures Distinct(a, FinalPath) <==> Distinct(b, FinalPath)
    ensures Distinct(a, FinalPath) ==> Sort(a, FinalLe) == Sort(b, FinalLe)
  {
    PathOrders();
    if Distinct(a, FinalPath) {
      DistinctPermuted(a, b, FinalPath);
      assert Separates(FinalLe, a) by { LeIsTotalOrder(); }
      SortCanonical(a, b, FinalLe);
    } else if Distinct(b, FinalPath) {
      DistinctPermuted(b, a, FinalPath);
    }
  }

  /** Lookup by walking the entries: what the binary search must agree with. */
  function Lookup(entries: seq<FinalEntry>, path: Bytes): Option<FinalEntry> {
    if entries == [] then None
    else if entries[0].path == path then Some(entries[0])
    else Lookup(entries[1..], path)
  }

  lemma {:induction false} LookupIs(entries: seq<FinalEntry>, k: nat, path: Bytes)
    requires Distinct(entries, FinalPath) && k < |entries| && entries[k].path == path
    ensures Lookup(entries, path) == Some(entries[k])
  {
    if k > 0 {
      assert Distinct(entries[1..], FinalPath);
      LookupIs(entries[1..], k - 1, path);
    }
  }

  lemma {:induction false} LookupAbsent(entries: seq<FinalEntry>, path: Bytes)
    requires forall i | 0 <= i < |entries| :: entries[i].path != path
    ensures Lookup(entries, path).None?
  {
    if entries != [] {
      LookupAbsent(entries[1..], path);
    }
  }

  /** `RevisionState::entry`: a binary search that agrees with the linear one. */
  method FindEntry(state: RevisionState, path: Bytes) returns (found: Option<FinalEntry>)
    requires Sorted(state.entries, FinalLe) && Distinct(state.entries, FinalPath)
    ensures found == Lookup(state.entries, path)
  {
    var entries := state.entries;
    var low, high := 0, |entries|;
    while low < high
      invariant 0 <= low <= high <= |entries|
      invariant forall i | 0 <= i < low :: Lt(entries[i].path, path)
      invariant forall i | high <= i < |entries| :: Lt(path, entries[i].path)
    {
      var mid := low + (high - low) / 2;
      if entries[mid].path == path {
        LookupIs(entries, mid, path);
        return Some(entries[mid]);
      } else if Le(entries[mid].path, path) {
        forall i | 0 <= i < mid ensures Lt(entries[i].path, path) {
          assert FinalLe(entries[i], entries[mid]);
          LeLt(entries[i].path, entries[mid].path, path);
        }
        low := mid + 1;
      } else {
        LeTotal(entries[mid].path, path);
        forall i | mid < i < |entries| ensures Lt(path, entries[i].path) {
          assert FinalLe(entries[mid], entries[i]);
          LtLe(path, entries[mid].path, entries[i].path);
        }
        high := mid;
      }
    }
    LookupAbsent(entries, path);
    return None;
  }

  // ---------------------------------------------------------------- manifests as patches

  /** `changeset_manifest`: canonical order comes only from the sort made here. */
  function ChangesetManifest(repository: Bytes, baseCommit: Bytes, revision: Digest, entries: seq<ChangesetEntry>)
    : Manifest
  {
    Manifest(repository, baseCommit, revision, Sort(entries, EntryLe))
  }

  type Tree = map<Bytes, EntryState>

  ghost predicate WellFormed(tree: Tree) {
    forall p | p in tree :: tree[p].Present?
  }

  function StateAt(tree: Tree, path: Bytes): EntryState {
    if path in tree then tree[path] else Absent
  }

  function Put(tree: Tree, path: Bytes, state: EntryState): Tree {
    if state.Absent? then tree - {path} else tree[path := state]
  }

  /** Applies a patch strictly: an entry whose `before` is not what the tree holds refuses it. */
  function Apply(tree: Tree, entries: seq<ChangesetEntry>): Option<Tree>
    decreases |entries|
  {
    if entries == [] then Some(tree)
    else if StateAt(tree, entries[0].path) != entries[0].before then None
    else Apply(Put(tree, entries[0].path, entries[0].after), entries[1..])
  }

  function Undo(entry: ChangesetEntry): ChangesetEntry {
    ChangesetEntry(entry.path,
                   match entry.operation case Add => Delete case Modify => Modify case Delete => Add,
                   entry.after, entry.before)
  }

  function UndoAll(entries: seq<ChangesetEntry>): seq<ChangesetEntry> {
    seq(|entries|, i requires 0 <= i < |entries| => Undo(entries[i]))
  }

  ghost predicate Mentions(entries: seq<ChangesetEntry>, path: Bytes) {
    exists i :: 0 <= i < |entries| && entries[i].path == path
  }

  /** The entries say, once per path, what each side holds wherever the two trees differ. */
  ghost predicate Describes(entries: seq<ChangesetEntry>, base: Tree, target: Tree) {
    && Distinct(entries, EntryPath)
    && (forall i | 0 <= i < |entries| ::
          && entries[i].before == StateAt(base, entries[i].path)
          && entries[i].after == StateAt(target, entries[i].path))
    && (forall p :: StateAt(base, p) != StateAt(target, p) ==> Mentions(entries, p))
  }

  /** ... and says nothing else, each time under the operation its states call for. */
  ghost predicate Exact(entries: seq<ChangesetEntry>, base: Tree, target: Tree) {
    && Describes(entries, base, target)
    && (forall i | 0 <= i < |entries| ::
          entries[i].before != entries[i].after && OperationAgrees(entries[i]))
  }

  lemma {:induction false} DescribesApplies(entries: seq<ChangesetEntry>, base: Tree, target: Tree)
    requires WellFormed(base) && WellFormed(target) && Describes(entries, base, target)
    ensures Apply(base, entries) == Some(target)
    decreases |entries|
  {
    if entries == [] {
      assert forall p :: StateAt(base, p) == StateAt(target, p);
      forall p ensures p in base <==> p in target {
        assert StateAt(base, p) == StateAt(target, p);
      }
      forall p | p in base ensures base[p] == target[p] {
        assert StateAt(base, p) == StateAt(target, p);
      }
      assert base == target;
    } else {
      var e, rest := entries[0], entries[1..];
      var next := Put(base, e.path, e.after);
      assert forall p :: StateAt(next, p) == if p == e.path then e.after else StateAt(base, p);
      assert Describes(rest, next, target) by {
        forall p | StateAt(next, p) != StateAt(target, p) ensures Mentions(rest, p) {
          assert p != e.path;
          var i :| 0 <= i < |entries| && entries[i].path == p;
          assert rest[i - 1].path == p;
        }
        forall i | 0 <= i < |rest| ensures rest[i].before == StateAt(next, rest[i].path) {
          assert rest[i] == entries[i + 1];
        }
      }
      DescribesApplies(rest, next, target);
    }
  }

  /** The undone patch describes the way back. */
  lemma DescribesReversed(entries: seq<ChangesetEntry>, base: Tree, target: Tree)
    requires Describes(entries, base, target)
    ensures Describes(UndoAll(entries), target, base)
  {
    forall p | StateAt(target, p) != StateAt(base, p) ensures Mentions(UndoAll(entries), p) {
      var i :| 0 <= i < |entries| && entries[i].path == p;
      assert UndoAll(entries)[i].path == p;
    }
  }

  /** Sorting the entries of a patch keeps what it describes. */
  lemma SortKeepsExact(entries: seq<ChangesetEntry>, base: Tree, target: Tree)
    requires Exact(entries, base, target)
    ensures Exact(Sort(entries, EntryLe), base, target)
    ensures Sorted(Sort(entries, EntryLe), EntryLe)
  {
    var sorted := Sort(entries, EntryLe);
    PathOrders();
    SortSorted(entries, EntryLe);
    SortMembers(entries, EntryLe);
    SortPermutes(entries, EntryLe);
    DistinctPermuted(entries, sorted, EntryPath);
    forall p | StateAt(base, p) != StateAt(target, p) ensures Mentions(sorted, p) {
      var i :| 0 <= i < |entries| && entries[i].path == p;
      assert entries[i] in sorted;
    }
    forall i | 0 <= i < |sorted|
      ensures sorted[i].before == StateAt(base, sorted[i].path) && sorted[i].after == StateAt(target, sorted[i].path)
      ensures sorted[i].before != sorted[i].after && OperationAgrees(sorted[i])
    {
      assert sorted[i] in entries;
    }
  }

  /** The manifest a pair of trees has is unique: whoever computes it, in whatever order, under
      whatever batching, names the same document. */
  lemma ManifestCanonical(a: seq<ChangesetEntry>, b: seq<ChangesetEntry>, base: Tree, target: Tree)
    requires Exact(a, base, target) && Exact(b, base, target)
    ensures Sort(a, EntryLe) == Sort(b, EntryLe)
  {
    PathOrders();
    ExactIncluded(a, b, base, target);
    ExactIncluded(b, a, base, target);
    SameElementsSameMultiset(a, b, EntryPath);
    assert Separates(EntryLe, a) by { LeIsTotalOrder(); }
    SortCanonical(a, b, EntryLe);
  }

  lemma ExactIncluded(a: seq<ChangesetEntry>, b: seq<ChangesetEntry>, base: Tree, target: Tree)
    requires Exact(a, base, target) && Exact(b, base, target)
    ensures forall e | e in a :: e in b
  {
  }
}
