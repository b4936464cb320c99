/** The confined tree walk over a file tree as the walk comes to see it.

    A node is what one inspection found under one name. Workers may change the tree meanwhile: an
    entry that has vanished, was swapped between inspection and open, fails its identity check or
    changes size while it is read is seen as `Special`, like a device or a socket. */
module Capture {
  import opened ByteOrder
  import opened Wrappers
  import opened Sorting
  import opened Artifact
  import opened Sealing
  import PathCodec

  const MAX_DEPTH := 64
  const MAX_OBJECT_BYTES := 0x2000_0000

  const SLASH := PathCodec.SLASH

  /** ".git" */
  const GIT: Bytes := [46, 103, 105, 116]

  /** Children are listed as the directory enumeration happens to return them. */
  datatype Node =
    | Directory(device: nat, children: seq<Child>)
    | File(executable: bool, bytes: Bytes)
    | Link(target: Bytes)
    | Special

  datatype Child = Child(name: Bytes, node: Node)

  function ChildName(child: Child): Bytes {
    child.name
  }

  /** What every file system guarantees of one directory. */
  ghost predicate ProperNames(dir: Node)
    requires dir.Directory?
  {
    Distinct(dir.children, ChildName) && forall c | c in dir.children :: SLASH !in c.name
  }

  ghost predicate Proper(node: Node)
    decreases node
  {
    node.Directory? ==> ProperNames(node) && forall i | 0 <= i < |node.children| :: Proper(node.children[i].node)
  }

  /** A child's path. */
  function Under(prefix: Bytes, name: Bytes): Bytes {
    if prefix == [] then name else prefix + [SLASH] + name
  }

  function Names(dir: Node): seq<Bytes>
    requires dir.Directory?
  {
    Map(dir.children, ChildName)
  }

  /** Position of the child of this name. */
  function Find(children: seq<Child>, name: Bytes, from: nat): (found: Option<nat>)
    requires from <= |children|
    ensures found.Some? ==> from <= found.value < |children| && children[found.value].name == name
    ensures found.None? ==> forall i | from <= i < |children| :: children[i].name != name
    decreases |children| - from
  {
    if from == |children| then None
    else if children[from].name == name then Some(from)
    else Find(children, name, from + 1)
  }

  /** What the sink received, and the fault that ended the walk, if one did. */
  datatype Outcome = Outcome(emitted: seq<CapturedEntry>, fault: Option<Fault>)

  const NOTHING := Outcome([], None)

  function Fails(fault: Fault): Outcome {
    Outcome([], Some(fault))
  }

  function Joined(first: Outcome, rest: Outcome): Outcome {
    Outcome(first.emitted + rest.emitted, rest.fault)
  }

  /** The checks made on an entry before its type matters. */
  predicate Admissible(prefix: Bytes, name: Bytes) {
    name != [] && 0 !in name && PathCodec.FromBytes(Under(prefix, name)).Ok? && name != GIT
  }

  function Kind(executable: bool): EntryKind {
    if executable then Executable else Regular
  }

  function Width(node: Node): nat {
    if node.Directory? then |node.children| else 0
  }

  /** One entry of a directory on `device`. */
  function Visit(node: Node, prefix: Bytes, name: Bytes, device: nat, depth: nat): Outcome
    decreases node, Width(node) + 3
  {
    var path := Under(prefix, name);
    if prefix == [] && name == GIT then NOTHING
    else if !Admissible(prefix, name) then Fails(External)
    else
      match node
      case Directory(d, _) => if d != device then Fails(External) else Walk(node, path, depth + 1)
      case Link(target) => Outcome([CapturedEntry(path, Symlink, target)], None)
      case File(executable, bytes) =>
        if |bytes| > MAX_OBJECT_BYTES then Fails(CaptureCeiling)
          else Outcome([CapturedEntry(path, Kind(executable), bytes)], None)
      case Special => Fails(External)
  }

  /** `walk_directory`: names are sorted before any entry is processed. */
  function Walk(dir: Node, prefix: Bytes, depth: nat): Outcome
    requires dir.Directory?
    decreases dir, |dir.children| + 2
  {
    if depth > MAX_DEPTH then Fails(CaptureCeiling)
    else
      SortPermutes(Names(dir), Le);
      WalkNames(dir, Sort(Names(dir), Le), prefix, depth)
  }

  function WalkNames(dir: Node, names: seq<Bytes>, prefix: Bytes, depth: nat): Outcome
    requires dir.Directory?
    decreases dir, |names| + 1
  {
    if names == [] then NOTHING
    else
      var at := Find(dir.children, names[0], 0);
      if at.None? then Fails(External)
      else
        var first := Visit(dir.children[at.value].node, prefix, names[0], dir.device, depth);
        if first.fault.Some? then first else Joined(first, WalkNames(dir, names[1..], prefix, depth))
  }

  lemma JoinedLaws(a: Outcome, b: Outcome, c: Outcome)
    ensures Joined(NOTHING, c) == c
    ensures Joined(a, Joined(b, c)) == Joined(Joined(a, b), c)
  {
  }

  /** The walk as the source writes it: a loop over the sorted names, recursing into directories and
      feeding the sink. */
  method WalkDirectory(dir: Node, prefix: Bytes, depth: nat) returns (outcome: Outcome)
    requires dir.Directory?
    ensures outcome == Walk(dir, prefix, depth)
    decreases dir, 1
  {
    if depth > MAX_DEPTH {
      return Fails(CaptureCeiling);
    }
    var names := Sort(Names(dir), Le);
    var emitted := [];
    assert names[0..] == names;
    JoinedLaws(NOTHING, NOTHING, WalkNames(dir, names, prefix, depth));
    for i := 0 to |names|
      invariant WalkNames(dir, names, prefix, depth) ==
        Joined(Outcome(emitted, None), WalkNames(dir, names[i..], prefix, depth))
    {
      assert names[i..][0] == names[i] && names[i..][1..] == names[i + 1..];
      var at := Find(dir.children, names[i], 0);
      if at.None? {
        return Outcome(emitted, Some(External));
      }
      var one := VisitEntry(dir.children[at.value].node, prefix, names[i], dir.device, depth);
      if one.fault.Some? {
        return Outcome(emitted + one.emitted, one.fault);
      }
      JoinedLaws(Outcome(emitted, None), one, WalkNames(dir, names[i + 1..], prefix, depth));
      emitted := emitted + one.emitted;
    }
    assert emitted + [] == emitted;
    return Outcome(emitted, None);
  }

  method VisitEntry(node: Node, prefix: Bytes, name: Bytes, device: nat, depth: nat) returns (outcome: Outcome)
    ensures outcome == Visit(node, prefix, name, device, depth)
    decreases node, 2
  {
    if prefix == [] && name == GIT {
      return NOTHING;
    }
    if !Admissible(prefix, name) {
      return Fails(External);
    }
    match node {
      case Directory(d, _) =>
        if d != device {
          return Fails(External);
        }
        outcome := WalkDirectory(node, Under(prefix, name), depth + 1);
      case Link(target) => return Outcome([CapturedEntry(Under(prefix, name), Symlink, target)], None);
      case File(executable, bytes) =>
        if |bytes| > MAX_OBJECT_BYTES {
          return Fails(CaptureCeiling);
        }
        return Outcome([CapturedEntry(Under(prefix, name), Kind(executable), bytes)], None);
      case Special => return Fails(External);
    }
  }

  // ---------------------------------------------------------------- which trees, which leaves

  /** The tree can be captured: bounded, representable, one device, nothing special, no nested
      repository. */
  ghost predicate CapturableEntry(node: Node, prefix: Bytes, name: Bytes, device: nat, depth: nat)
    decreases node, 2
  {
    || (prefix == [] && name == GIT)
    || (&& name != [] && name != GIT && 0 !in name && PathCodec.FromBytes(Under(prefix, name)).Ok?
        && match node
           case Directory(d, _) => d == device && Capturable(node, Under(prefix, name), depth + 1)
           case Link(_) => true
           case File(_, bytes) => |bytes| <= MAX_OBJECT_BYTES
           case Special => false)
  }

  ghost predicate Capturable(dir: Node, prefix: Bytes, depth: nat)
    requires dir.Directory?
    decreases dir, 1
  {
    && depth <= MAX_DEPTH
    && forall i | 0 <= i < |dir.children| ::
         CapturableEntry(dir.children[i].node, prefix, dir.children[i].name, dir.device, depth)
  }

  /** `e` is what one leaf of this entry is captured as. */
  ghost predicate LeafOf(node: Node, prefix: Bytes, name: Bytes, e: CapturedEntry)
    decreases node, 2
  {
    && !(prefix == [] && name == GIT)
    && match node
       case Directory(_, _) => Leaf(node, Under(prefix, name), e)
       case Link(target) => e == CapturedEntry(Under(prefix, name), Symlink, target)
       case File(executable, bytes) =>
         e == CapturedEntry(Under(prefix, name), if executable then Executable else Regular, bytes)
       case Special => false
  }

  ghost predicate Leaf(dir: Node, prefix: Bytes, e: CapturedEntry)
    requires dir.Directory?
    decreases dir, 1
  {
    exists i :: 0 <= i < |dir.children| && LeafOf(dir.children[i].node, prefix, dir.children[i].name, e)
  }

  /** The walk of a proper tree succeeds exactly on capturable trees, and then emits exactly the
      leaves outside the root's `.git`. */
  ghost predicate Faithful(outcome: Outcome, capturable: bool, leaf: CapturedEntry -> bool) {
    && (outcome.fault.None? <==> capturable)
    && (capturable ==> forall e :: e in outcome.emitted <==> leaf(e))
  }

  lemma {:induction false} VisitFaithful(node: Node, prefix: Bytes, name: Bytes, device: nat, depth: nat)
    requires Proper(node)
    ensures Faithful(Visit(node, prefix, name, device, depth), CapturableEntry(node, prefix, name, device, depth),
      e => LeafOf(node, prefix, name, e))
    decreases node, Width(node) + 3
  {
    if !(prefix == [] && name == GIT) && Admissible(prefix, name) && node.Directory? && node.device == device {
      WalkFaithful(node, Under(prefix, name), depth + 1);
    }
  }

  lemma {:induction false} WalkFaithful(dir: Node, prefix: Bytes, depth: nat)
    requires dir.Directory? && Proper(dir)
    ensures Faithful(Walk(dir, prefix, depth), Capturable(dir, prefix, depth), e => Leaf(dir, prefix, e))
    decreases dir, |dir.children| + 2
  {
    if depth <= MAX_DEPTH {
      var names := Sort(Names(dir), Le);
      SortMembers(Names(dir), Le);
      SortPermutes(Names(dir), Le);
      WalkNamesFaithful(dir, names, prefix, depth);
      AllNamesCovered(dir, names);
    }
  }

  /** Some child whose name is in `names`, with a property. */
  ghost predicate Among(dir: Node, names: seq<Bytes>, i: int)
    requires dir.Directory?
  {
    0 <= i < |dir.children| && dir.children[i].name in names
  }

  lemma AllNamesCovered(dir: Node, names: seq<Bytes>)
    requires dir.Directory? && forall n :: n in names <==> n in Names(dir)
    ensures forall i :: Among(dir, names, i) <==> 0 <= i < |dir.children|
  {
  }

  lemma {:induction false} WalkNamesFaithful(dir: Node, names: seq<Bytes>, prefix: Bytes, depth: nat)
    requires dir.Directory? && Proper(dir) && forall n | n in names :: n in Names(dir)
    ensures Faithful(WalkNames(dir, names, prefix, depth),
      forall i | Among(dir, names, i) ::
        CapturableEntry(dir.children[i].node, prefix, dir.children[i].name, dir.device, depth),
      e => exists i :: Among(dir, names, i) && LeafOf(dir.children[i].node, prefix, dir.children[i].name, e))
    decreases dir, |names| + 1
  {
    if names != [] {
      var name, rest := names[0], names[1..];
      FindIs(dir, name);
      var k := Find(dir.children, name, 0).value;
      VisitFaithful(dir.children[k].node, prefix, name, dir.device, depth);
      WalkNamesFaithful(dir, rest, prefix, depth);
      assert forall i :: Among(dir, names, i) <==> i == k || Among(dir, rest, i);
    }
  }

  // ---------------------------------------------------------------- which fault a refused walk ends with

  /** Somewhere in the tree a directory lies too deep or a file is too large. */
  ghost predicate Oversized(node: Node, prefix: Bytes, name: Bytes, depth: nat)
    decreases node, 2
  {
    && !(prefix == [] && name == GIT)
    && match node
       case Directory(_, _) => HasOversized(node, Under(prefix, name), depth + 1)
       case File(_, bytes) => |bytes| > MAX_OBJECT_BYTES
       case _ => false
  }

  ghost predicate HasOversized(dir: Node, prefix: Bytes, depth: nat)
    requires dir.Directory?
    decreases dir, 1
  {
    depth > MAX_DEPTH
    || exists i :: 0 <= i < |dir.children| && Oversized(dir.children[i].node, prefix, dir.children[i].name, depth)
  }

  /** Somewhere in the tree a name is not representable or is a nested repository's, another device is
      mounted, or something is neither file, link nor directory. */
  ghost predicate Hostile(node: Node, prefix: Bytes, name: Bytes, device: nat)
    decreases node, 2
  {
    && !(prefix == [] && name == GIT)
    && (|| name == [] || name == GIT || 0 in name || PathCodec.FromBytes(Under(prefix, name)).Err?
        || node.Special?
        || (node.Directory? && (node.device != device || HasHostile(node, Under(prefix, name)))))
  }

  ghost predicate HasHostile(dir: Node, prefix: Bytes)
    requires dir.Directory?
    decreases dir, 1
  {
    exists i :: 0 <= i < |dir.children| && Hostile(dir.children[i].node, prefix, dir.children[i].name, dir.device)
  }

  /** A ceiling is reported only for something oversized, anything else only for something hostile. */
  ghost predicate Explained(fault: Option<Fault>, oversized: bool, hostile: bool) {
    match fault
    case None => true
    case Some(CaptureCeiling) => oversized
    case Some(External) => hostile
    case Some(_) => false
  }

  lemma {:induction false} VisitExplained(node: Node, prefix: Bytes, name: Bytes, device: nat, depth: nat)
    requires Proper(node)
    ensures Explained(Visit(node, prefix, name, device, depth).fault, Oversized(node, prefix, name, depth),
      Hostile(node, prefix, name, device))
    decreases node, Width(node) + 3
  {
    if !(prefix == [] && name == GIT) && Admissible(prefix, name) && node.Directory? && node.device == device {
      WalkExplained(node, Under(prefix, name), depth + 1);
    }
  }

  /** Why a walk is refused: with nothing oversized in the tree it is hostile content, with nothing hostile
      it is a ceiling. */
  lemma {:induction false} WalkExplained(dir: Node, prefix: Bytes, depth: nat)
    requires dir.Directory? && Proper(dir)
    ensures Explained(Walk(dir, prefix, depth).fault, HasOversized(dir, prefix, depth), HasHostile(dir, prefix))
    decreases dir, |dir.children| + 2
  {
    if depth <= MAX_DEPTH {
      var names := Sort(Names(dir), Le);
      SortMembers(Names(dir), Le);
      SortPermutes(Names(dir), Le);
      WalkNamesExplained(dir, names, prefix, depth);
    }
  }

  lemma {:induction false} WalkNamesExplained(dir: Node, names: seq<Bytes>, prefix: Bytes, depth: nat)
    requires dir.Directory? && Proper(dir) && forall n | n in names :: n in Names(dir)
    ensures Explained(WalkNames(dir, names, prefix, depth).fault, HasOversized(dir, prefix, depth),
      HasHostile(dir, prefix))
    decreases dir, |names| + 1
  {
    if names != [] {
      var name := names[0];
      FindIs(dir, name);
      var k := Find(dir.children, name, 0).value;
      VisitExplained(dir.children[k].node, prefix, name, dir.device, depth);
      WalkNamesExplained(dir, names[1..], prefix, depth);
    }
  }

  /** Names are distinct, so a name finds its own child. */
  lemma FindIs(dir: Node, name: Bytes)
    requires dir.Directory? && ProperNames(dir) && name in Names(dir)
    ensures Find(dir.children, name, 0).Some?
    ensures forall i | 0 <= i < |dir.children| :: dir.children[i].name == name <==>
      i == Find(dir.children, name, 0).value
  {
  }

  // ---------------------------------------------------------------- each path once, and representable

  /** `path` is the entry `name` of `prefix` or lies beneath it. */
  ghost predicate Beneath(path: Bytes, prefix: Bytes, name: Bytes) {
    exists rest: Bytes :: path == Under(prefix, name) + rest && (rest == [] || rest[0] == SLASH)
  }

  lemma BeneathDeeper(path: Bytes, prefix: Bytes, name: Bytes, inner: Bytes)
    requires name != [] && Beneath(path, Under(prefix, name), inner)
    ensures Beneath(path, prefix, name)
  {
    var rest: Bytes :| path == Under(Under(prefix, name), inner) + rest && (rest == [] || rest[0] == SLASH);
    assert path == Under(prefix, name) + ([SLASH] + inner + rest);
  }

  /** A path lies beneath at most one of several slash-free names. */
  lemma BeneathOne(path: Bytes, prefix: Bytes, a: Bytes, b: Bytes)
    requires SLASH !in a && SLASH !in b && Beneath(path, prefix, a) && Beneath(path, prefix, b)
    ensures a == b
  {
    var r: Bytes :| path == Under(prefix, a) + r && (r == [] || r[0] == SLASH);
    var s: Bytes :| path == Under(prefix, b) + s && (s == [] || s[0] == SLASH);
    AfterBase(prefix, a, r);
    AfterBase(prefix, b, s);
    SlashFreePrefix(a, r, b, s);
  }

  /** What stands before a child's own name. */
  function Base(prefix: Bytes): Bytes {
    if prefix == [] then [] else prefix + [SLASH]
  }

  lemma AfterBase(prefix: Bytes, name: Bytes, rest: Bytes)
    ensures |Base(prefix)| <= |Under(prefix, name) + rest|
    ensures (Under(prefix, name) + rest)[|Base(prefix)|..] == name + rest
  {
  }

  lemma SlashFreePrefix(a: Bytes, r: Bytes, b: Bytes, s: Bytes)
    requires SLASH !in a && SLASH !in b && a + r == b + s
    requires (r == [] || r[0] == SLASH) && (s == [] || s[0] == SLASH)
    ensures a == b
  {
    if |a| < |b| { SlashFollows(a, r, b, s); }
    if |b| < |a| { SlashFollows(b, s, a, r); }
    assert (a + r)[..|a|] == a && (b + s)[..|b|] == b;
  }

  /** Where the shorter of two prefixes ends, the longer one holds the slash that follows. */
  lemma SlashFollows(a: Bytes, r: Bytes, b: Bytes, s: Bytes)
    requires a + r == b + s && |a| < |b| && (r == [] || r[0] == SLASH)
    ensures SLASH in b
  {
    assert |a| + |r| == |b| + |s|;
    assert (a + r)[|a|] == r[0] && (b + s)[|a|] == b[|a|];
  }

  ghost predicate AllBeneath(entries: seq<CapturedEntry>, prefix: Bytes, names: seq<Bytes>) {
    forall e | e in entries :: exists n :: n in names && Beneath(e.path, prefix, n)
  }

  ghost predicate AllValid(entries: seq<CapturedEntry>) {
    Distinct(entries, CapturedAt) && forall e | e in entries :: PathCodec.FromBytes(e.path).Ok?
  }

  lemma {:induction false} VisitValid(node: Node, prefix: Bytes, name: Bytes, device: nat, depth: nat)
    requires Proper(node)
    ensures AllValid(Visit(node, prefix, name, device, depth).emitted)
    ensures forall e | e in Visit(node, prefix, name, device, depth).emitted :: Beneath(e.path, prefix, name)
    decreases node, Width(node) + 3
  {
    var emitted := Visit(node, prefix, name, device, depth).emitted;
    if !(prefix == [] && name == GIT) && Admissible(prefix, name) {
      if node.Directory? {
        if node.device == device {
          WalkValid(node, Under(prefix, name), depth + 1);
          forall e | e in emitted ensures Beneath(e.path, prefix, name) {
            var n :| n in Names(node) && Beneath(e.path, Under(prefix, name), n);
            BeneathDeeper(e.path, prefix, name, n);
          }
        }
      } else {
        assert Under(prefix, name) == Under(prefix, name) + [];
      }
    }
  }

  /** Whether or not the walk faults, what it emitted has representable, pairwise distinct paths. */
  lemma {:induction false} WalkValid(dir: Node, prefix: Bytes, depth: nat)
    requires dir.Directory? && Proper(dir)
    ensures AllValid(Walk(dir, prefix, depth).emitted)
    ensures AllBeneath(Walk(dir, prefix, depth).emitted, prefix, Names(dir))
    decreases dir, |dir.children| + 2
  {
    if depth <= MAX_DEPTH {
      var names := Sort(Names(dir), Le);
      SortMembers(Names(dir), Le);
      SortPermutes(Names(dir), Le);
      NamesDistinct(dir);
      DistinctPermuted(Names(dir), names, Itself);
      WalkNamesValid(dir, names, prefix, depth);
    }
  }

  function Itself(name: Bytes): Bytes {
    name
  }

  lemma NamesDistinct(dir: Node)
    requires dir.Directory? && ProperNames(dir)
    ensures Distinct(Names(dir), Itself)
    ensures forall n | n in Names(dir) :: SLASH !in n
  {
  }

  lemma {:induction false} WalkNamesValid(dir: Node, names: seq<Bytes>, prefix: Bytes, depth: nat)
    requires dir.Directory? && Proper(dir) && Distinct(names, Itself) && forall n | n in names :: n in Names(dir)
    ensures AllValid(WalkNames(dir, names, prefix, depth).emitted)
    ensures AllBeneath(WalkNames(dir, names, prefix, depth).emitted, prefix, names)
    decreases dir, |names| + 1
  {
    if names != [] {
      var name, rest := names[0], names[1..];
      assert forall n :: n in names <==> n == name || n in rest;
      FindIs(dir, name);
      var k := Find(dir.children, name, 0).value;
      VisitValid(dir.children[k].node, prefix, name, dir.device, depth);
      var first := Visit(dir.children[k].node, prefix, name, dir.device, depth);
      assert forall i, j | 0 <= i < j < |rest| ::
        Itself(rest[i]) == Itself(names[i + 1]) && Itself(rest[j]) == Itself(names[j + 1]);
      WalkNamesValid(dir, rest, prefix, depth);
      NamesDistinct(dir);
      assert name !in rest by {
        forall i | 0 <= i < |rest| ensures rest[i] != name {
          assert Itself(names[0]) != Itself(names[i + 1]);
        }
      }
      if first.fault.None? {
        PartsDiffer(first.emitted, WalkNames(dir, rest, prefix, depth).emitted, prefix, name, rest);
      }
    }
  }

  /** Entries beneath one name and entries beneath others share no path. */
  lemma PartsDiffer(a: seq<CapturedEntry>, b: seq<CapturedEntry>, prefix: Bytes, name: Bytes, others: seq<Bytes>)
    requires AllValid(a) && AllValid(b) && SLASH !in name && name !in others && (forall n | n in others :: SLASH !in n)
    requires (forall e | e in a :: Beneath(e.path, prefix, name)) && AllBeneath(b, prefix, others)
    ensures AllValid(a + b)
  {
    var both := a + b;
    forall i, j | 0 <= i < j < |both| ensures CapturedAt(both[i]) != CapturedAt(both[j]) {
      if i < |a| && j >= |a| {
        assert a[i] in a && b[j - |a|] in b;
        var n :| n in others && Beneath(b[j - |a|].path, prefix, n);
        if a[i].path == b[j - |a|].path { BeneathOne(a[i].path, prefix, name, n); }
      } else if j < |a| {
        assert CapturedAt(a[i]) != CapturedAt(a[j]);
      } else {
        assert CapturedAt(b[i - |a|]) != CapturedAt(b[j - |a|]);
      }
    }
  }

  // ---------------------------------------------------------------- independence of enumeration order

  /** The same tree, its directories enumerated in whatever order. */
  ghost predicate Same(a: Node, b: Node)
    decreases a
  {
    if a.Directory? then
      && b.Directory? && a.device == b.device
      && (forall n :: n in Names(a) <==> n in Names(b))
      && (forall i, j | 0 <= i < |a.children| && 0 <= j < |b.children| && a.children[i].name == b.children[j].name ::
            Same(a.children[i].node, b.children[j].node))
    else a == b
  }

  lemma {:induction false} VisitSame(a: Node, b: Node, prefix: Bytes, name: Bytes, device: nat, depth: nat)
    requires Proper(a) && Proper(b) && Same(a, b)
    ensures Visit(a, prefix, name, device, depth) == Visit(b, prefix, name, device, depth)
    decreases a, Width(a) + 3
  {
    if a.Directory? && a.device == device && Admissible(prefix, name) && !(prefix == [] && name == GIT) {
      WalkSame(a, b, Under(prefix, name), depth + 1);
    }
  }

  /** The walk is a function of the tree, not of the order its directories are enumerated in. */
  lemma {:induction false} WalkSame(a: Node, b: Node, prefix: Bytes, depth: nat)
    requires a.Directory? && b.Directory? && Proper(a) && Proper(b) && Same(a, b)
    ensures Walk(a, prefix, depth) == Walk(b, prefix, depth)
    decreases a, |a.children| + 2
  {
    NamesDistinct(a);
    NamesDistinct(b);
    SameElementsSameMultiset(Names(a), Names(b), Itself);
    LeIsTotalOrder();
    SortCanonical(Names(a), Names(b), Le);
    SortMembers(Names(a), Le);
    SortPermutes(Names(a), Le);
    WalkNamesSame(a, b, Sort(Names(a), Le), prefix, depth);
  }

  lemma {:induction false} WalkNamesSame(a: Node, b: Node, names: seq<Bytes>, prefix: Bytes, depth: nat)
    requires a.Directory? && b.Directory? && Proper(a) && Proper(b) && Same(a, b)
    requires forall n | n in names :: n in Names(a)
    ensures WalkNames(a, names, prefix, depth) == WalkNames(b, names, prefix, depth)
    decreases a, |names| + 1
  {
    if names != [] {
      FindIs(a, names[0]);
      FindIs(b, names[0]);
      var i, j := Find(a.children, names[0], 0).value, Find(b.children, names[0], 0).value;
      VisitSame(a.children[i].node, b.children[j].node, prefix, names[0], a.device, depth);
      WalkNamesSame(a, b, names[1..], prefix, depth);
    }
  }

  // ---------------------------------------------------------------- the capture root

  /** `capture_tree`: the root is opened once, without following it, and must be a directory. */
  function CaptureRoot(root: Node): Outcome {
    if root.Directory? then Walk(root, [], 0) else Fails(External)
  }

  /** Capturing a whole tree: success exactly on capturable directories; then every leaf outside the
      root's `.git` once, under a representable path, in an order that only the tree decides. */
  lemma CaptureTree(root: Node, again: Node)
    requires Proper(root) && Proper(again) && Same(root, again)
    ensures var outcome := CaptureRoot(root);
      && (outcome.fault.None? <==> root.Directory? && Capturable(root, [], 0))
      && (outcome.fault.None? ==> forall e :: e in outcome.emitted <==> Leaf(root, [], e))
      && AllValid(outcome.emitted)
      && CaptureRoot(again) == outcome
  {
    if root.Directory? {
      WalkFaithful(root, [], 0);
      WalkValid(root, [], 0);
      WalkSame(root, again, [], 0);
    }
  }

  /** The captured state the diff reads is the tree itself: a path is in it with some content exactly
      when the tree has that leaf there. */
  lemma CapturedStateIsTree(root: Node, e: CapturedEntry)
    requires root.Directory? && Proper(root) && Capturable(root, [], 0)
    ensures var final := Final(Walk(root, [], 0).emitted);
      Leaf(root, [], e) <==> e.path in final && final[e.path] == Content(e.kind, Of(Payload(e.bytes)), |e.bytes|)
  {
    var emitted := Walk(root, [], 0).emitted;
    CaptureSame(root);
    FinalIsEach(emitted);
    if e.path in Final(emitted) {
      CapturedPath(emitted, e.path);
      var f :| f in emitted && f.path == e.path;
      assert Final(emitted)[f.path] == Content(f.kind, Of(Payload(f.bytes)), |f.bytes|);
    }
  }

  lemma CaptureSame(root: Node)
    requires root.Directory? && Proper(root) && Capturable(root, [], 0)
    ensures AllValid(Walk(root, [], 0).emitted) && forall e :: e in Walk(root, [], 0).emitted <==> Leaf(root, [], e)
  {
    WalkFaithful(root, [], 0);
    WalkValid(root, [], 0);
  }

  // ---------------------------------------------------------------- from the tree to the Artifact

  function StateOf(e: CapturedEntry): EntryState {
    Present(e.kind, Of(Payload(e.bytes)), |e.bytes|)
  }

  /** A logical tree with the directory tree's leaves and nothing else. */
  ghost predicate Holds(tree: Tree, root: Node)
    requires root.Directory?
  {
    && (forall e :: Leaf(root, [], e) <==> e.path in tree && tree[e.path] == StateOf(e))
    && (forall p | p in tree :: exists e :: Leaf(root, [], e) && e.path == p && tree[p] == StateOf(e))
  }

  lemma WalkHolds(root: Node)
    requires root.Directory? && Proper(root) && Capturable(root, [], 0)
    ensures Holds(LogicalFinal(Final(Walk(root, [], 0).emitted)), root)
  {
    var emitted := Walk(root, [], 0).emitted;
    var final := Final(emitted);
    var tree := LogicalFinal(final);
    forall e ensures Leaf(root, [], e) <==> e.path in tree && tree[e.path] == StateOf(e) {
      CapturedStateIsTree(root, e);
    }
    forall p | p in tree ensures exists e :: Leaf(root, [], e) && e.path == p && tree[p] == StateOf(e) {
      CaptureSame(root);
      CapturedPath(emitted, p);
      FinalIsEach(emitted);
      var e :| e in emitted && e.path == p;
      assert Leaf(root, [], e) && tree[p] == StateOf(e);
    }
  }

  /** Sealing the walk of a capturable tree: the manifest, applied to the base, gives exactly the
      tree's leaves, and undone from there gives the base back. */
  lemma SealedTree(sealed: Sealed, repository: Bytes, baseCommit: Bytes, base: BaseTree, repo: Repository, root: Node)
    requires root.Directory? && Proper(root) && Capturable(root, [], 0)
    requires SealOf(sealed, repository, baseCommit, LogicalBase(base, repo), Final(Walk(root, [], 0).emitted))
    ensures var applied := Apply(LogicalBase(base, repo), sealed.manifest.entries);
      && applied.Some? && Holds(applied.value, root)
      && Apply(applied.value, UndoAll(sealed.manifest.entries)) == Some(LogicalBase(base, repo))
  {
    SealedPatchRoundTrip(sealed, repository, baseCommit, base, repo, Final(Walk(root, [], 0).emitted));
    WalkHolds(root);
  }

  /** However a tree's directories are enumerated, its seals over one base name one Artifact. */
  lemma TreeNamesArtifact(a: Sealed, b: Sealed, repository: Bytes, baseCommit: Bytes, base: Tree, root: Node,
      again: Node)
    requires root.Directory? && again.Directory? && Proper(root) && Proper(again) && Same(root, again)
    requires SealOf(a, repository, baseCommit, base, Final(Walk(root, [], 0).emitted))
    requires SealOf(b, repository, baseCommit, base, Final(Walk(again, [], 0).emitted))
    ensures a.artifact == b.artifact && a.revision == b.revision
  {
    WalkSame(root, again, [], 0);
    ArtifactDeterministic(a, b, repository, baseCommit, base, Final(Walk(root, [], 0).emitted));
  }

  /** The sealer run over a directory tree: it succeeds only on a capturable tree, and then its
      manifest carries the base to exactly that tree. */
  method SealDirectory(run: SealRun, root: Node, repository: Bytes, baseCommit: Bytes)
    returns (sealed: Result<Sealed, SealError>)
    requires run.Capturing() && run.seen == [] && run.entries == []
    requires root.Directory? && Proper(root)
    requires run.ports.captured == Walk(root, [], 0).emitted && run.ports.captureFault == Walk(root, [], 0).fault
    modifies run
    ensures sealed.Ok? ==> Capturable(root, [], 0)
    ensures sealed.Ok? && Trusted(run.ports, run.base, run.repo) ==>
      var applied := Apply(run.Before(), sealed.value.manifest.entries); applied.Some? && Holds(applied.value, root)
  {
    sealed := run.CaptureAndSeal(repository, baseCommit);
    if sealed.Ok? {
      WalkFaithful(root, [], 0);
      if Trusted(run.ports, run.base, run.repo) { WalkHolds(root); }
    }
  }

  // ---------------------------------------------------------------- walk order

  lemma {:induction false} OneComponent(name: Bytes)
    requires SLASH !in name
    ensures PathCodec.Components(name) == [name]
  {
    if name != [] {
      OneComponent(name[1..]);
      assert name == [name[0]] + name[1..];
    }
  }

  lemma {:induction false} FirstComponent(name: Bytes, rest: Bytes)
    requires SLASH !in name
    ensures PathCodec.Components(name + [SLASH] + rest) == [name] + PathCodec.Components(rest)
  {
    var path := name + [SLASH] + rest;
    if name == [] {
      assert path[1..] == rest;
    } else {
      FirstComponent(name[1..], rest);
      assert path[1..] == name[1..] + [SLASH] + rest;
      assert name == [name[0]] + name[1..];
    }
  }

  lemma PlainPaths()
    ensures PathCodec.FromBytes([97]).Ok? && PathCodec.FromBytes([97, 46, 98]).Ok?
    ensures PathCodec.FromBytes([97, SLASH, 120]).Ok?
  {
    OneComponent([97]);
    OneComponent([97, 46, 98]);
    OneComponent([120]);
    FirstComponent([97], [120]);
    assert [97] + [SLASH] + [120] == [97, SLASH, 120];
    assert [[97 as byte]] + [[120]] == [[97], [120]] && [[97 as byte], [120]][1..] == [[120]];
  }

  const EMPTY_FILE := File(false, [])
  const INNER_DIR := Directory(0, [Child([120], EMPTY_FILE)])
  const TWO_NAMES := Directory(0, [Child([97], INNER_DIR), Child([97, 46, 98], EMPTY_FILE)])
  const ENTRY_X := CapturedEntry([97, SLASH, 120], Regular, [])
  const ENTRY_B := CapturedEntry([97, 46, 98], Regular, [])

  lemma SortOne(name: Bytes)
    ensures Sort([name], Le) == [name]
  {
  }

  lemma InnerWalk()
    ensures Walk(INNER_DIR, [97], 1) == Outcome([ENTRY_X], None)
  {
    PlainPaths();
    SortOne([120]);
    assert Names(INNER_DIR) == [[120]];
    assert Under([97], [120]) == [97, SLASH, 120];
    var names: seq<Bytes> := [[120]];
    assert Visit(EMPTY_FILE, [97], names[0], 0, 1) == Outcome([ENTRY_X], None);
    assert names[1..] == [] && [ENTRY_X] + [] == [ENTRY_X];
    assert Find(INNER_DIR.children, names[0], 0) == Some(0);
    assert WalkNames(INNER_DIR, names, [97], 1) == Outcome([ENTRY_X], None);
  }

  lemma SortedNames()
    ensures Sort(Names(TWO_NAMES), Le) == [[97], [97, 46, 98]]
  {
    var names: seq<Bytes> := [[97], [97, 46, 98]];
    assert Names(TWO_NAMES) == names && names[1..] == [[97, 46, 98]];
    SortOne([97, 46, 98]);
    PrefixLe([97], [46, 98]);
    assert [97] + [46, 98] == [97, 46, 98];
    assert Sort(names, Le) == [[97]] + [[97, 46, 98]];
  }

  /** Walk order is not path order: `a/x` is captured before `a.b`, yet sorts after it, so the order
      of every canonical form has to come from its own sort. */
  lemma WalkOrderIsNotPathOrder()
    ensures Walk(TWO_NAMES, [], 0) == Outcome([ENTRY_X, ENTRY_B], None) && !Le(ENTRY_X.path, ENTRY_B.path)
  {
    PlainPaths();
    InnerWalk();
    SortedNames();
    var names: seq<Bytes> := [[97], [97, 46, 98]];
    assert Visit(INNER_DIR, [], [97], 0, 0) == Outcome([ENTRY_X], None);
    assert Visit(EMPTY_FILE, [], [97, 46, 98], 0, 0) == Outcome([ENTRY_B], None);
    LastName([97, 46, 98]);
    assert names[1..] == [[97, 46, 98]];
    assert WalkNames(TWO_NAMES, names, [], 0).emitted == [ENTRY_X] + [ENTRY_B];
    assert ENTRY_X.path[1..] == [SLASH, 120] && ENTRY_B.path[1..] == [46, 98];
  }

  lemma LastName(name: Bytes)
    requires name == [97, 46, 98] && Visit(EMPTY_FILE, [], name, 0, 0) == Outcome([ENTRY_B], None)
    ensures WalkNames(TWO_NAMES, [name], [], 0) == Outcome([ENTRY_B], None)
  {
    assert [name][1..] == [] && [ENTRY_B] + [] == [ENTRY_B];
    assert Find(TWO_NAMES.children, name, 0) == Some(1);
  }
}
