/** The local content-addressed store as a protocol over a shared directory: any number of
    publishers interleave step by step, any of them may die, and power may be lost.

    The file system is abstract. Names map to inodes; a file sync makes an inode's bytes stable; a
    directory sync makes the present names certain. After a power loss each name is as it was last
    made certain or as it last was, and bytes never synced are arbitrary. */
module Cas {
  import opened ByteOrder
  import opened Wrappers
  import opened Artifact
  import Sealing

  datatype Name = Object(digest: Digest) | Incoming(pid: nat, number: nat)

  datatype Inode = Inode(bytes: Bytes, synced: bool)

  datatype Fs = Fs(dir: map<Name, nat>, certain: map<Name, nat>, inodes: seq<Inode>)

  type ObjectRef = Sealing.ObjectRef

  datatype CasFault = Unavailable | Corrupt

  function RefOf(bytes: Bytes): ObjectRef {
    Sealing.ObjectRef(Of(Payload(bytes)), |bytes|)
  }

  function NameOf(bytes: Bytes): Name {
    Object(Of(Payload(bytes)))
  }

  /** `read_verified`: size and digest are checked on the bytes that are returned. */
  function ReadVerified(fs: Fs, reference: ObjectRef): (read: Result<Bytes, CasFault>)
    ensures read.Ok? ==> RefOf(read.value) == reference
  {
    var name := Object(reference.digest);
    if name !in fs.dir || fs.dir[name] >= |fs.inodes| then Err(Unavailable)
    else
      var bytes := fs.inodes[fs.dir[name]].bytes;
      if |bytes| != reference.size then Err(Corrupt)
      else if Of(Payload(bytes)) != reference.digest then Err(Corrupt)
      else Ok(bytes)
  }

  /** The file a reference leads to, if its name is there. */
  ghost predicate Stored(fs: Fs, digest: Digest, bytes: Bytes) {
    && Object(digest) in fs.dir && fs.dir[Object(digest)] < |fs.inodes|
    && fs.inodes[fs.dir[Object(digest)]].bytes == bytes
  }

  /** A read answers exactly the stored bytes when they are the referenced ones; other bytes under the name
      are corruption, and no file there is absence. */
  lemma ReadIff(fs: Fs, reference: ObjectRef)
    ensures forall bytes :: ReadVerified(fs, reference) == Ok(bytes) <==>
      Stored(fs, reference.digest, bytes) && Of(Payload(bytes)) == reference.digest && |bytes| == reference.size
    ensures ReadVerified(fs, reference) == Err(Corrupt) <==>
      exists bytes :: Stored(fs, reference.digest, bytes) && RefOf(bytes) != reference
    ensures ReadVerified(fs, reference) == Err(Unavailable) <==> forall bytes :: !Stored(fs, reference.digest, bytes)
  {
    if Object(reference.digest) in fs.dir && fs.dir[Object(reference.digest)] < |fs.inodes| {
      assert Stored(fs, reference.digest, fs.inodes[fs.dir[Object(reference.digest)]].bytes);
    }
  }

  // ---------------------------------------------------------------- one publisher

  datatype Point =
    | Checking(bytes: Bytes)
    | VerifyingExisting(bytes: Bytes)
    | Staging(bytes: Bytes)
    | Writing(bytes: Bytes, name: Name, inode: nat, written: nat)
    | Linking(bytes: Bytes, name: Name, inode: nat)
    | VerifyingRival(bytes: Bytes, name: Name)
    | UnlinkingRival(bytes: Bytes, name: Name)
    | Unlinking(bytes: Bytes, name: Name)
    | SyncingDir(bytes: Bytes)

  /** `acknowledged`: publications answered Ok since power was last lost. `durable`: those answered
      Ok after their own directory sync, ever. */
  datatype World = World(fs: Fs, points: map<nat, Point>, acknowledged: seq<Bytes>, durable: seq<Bytes>)

  datatype Action =
    | Begin(publisher: nat, bytes: Bytes)
    | Go(publisher: nat, pid: nat, number: nat, chunk: nat)
    | Die(publisher: nat)
    | PowerLoss(dir: map<Name, nat>, garbage: seq<Bytes>)

  function Leave(points: map<nat, Point>, p: nat): map<nat, Point> {
    points - {p}
  }

  function Acknowledge(w: World, p: nat, bytes: Bytes): World {
    w.(points := Leave(w.points, p), acknowledged := w.acknowledged + [bytes])
  }

  function Move(w: World, p: nat, fs: Fs, point: Point): World {
    w.(fs := fs, points := w.points[p := point])
  }

  /** One system call of publisher `p`. A call that fails is `Die`: the error is returned and the
      scratch file stays. */
  function Advance(w: World, p: nat, pid: nat, number: nat, chunk: nat): World
    requires p in w.points
  {
    var fs := w.fs;
    match w.points[p]
    case Checking(bytes) =>
      Move(w, p, fs, if NameOf(bytes) in fs.dir then VerifyingExisting(bytes) else Staging(bytes))
    case VerifyingExisting(bytes) =>
      if ReadVerified(fs, RefOf(bytes)).Ok? then Acknowledge(w, p, bytes) else w.(points := Leave(w.points, p))
    case Staging(bytes) =>
      var name := Incoming(pid, number);
      if name in fs.dir then w
      else
        Move(w, p, fs.(dir := fs.dir[name := |fs.inodes|], inodes := fs.inodes + [Inode([], false)]),
             Writing(bytes, name, |fs.inodes|, 0))
    case Writing(bytes, name, i, written) =>
      if i >= |fs.inodes| then w
      else if written < |bytes| then
        var more := if written + chunk + 1 <= |bytes| then written + chunk + 1 else |bytes|;
        Move(w, p, fs.(inodes := fs.inodes[i := Inode(bytes[..more], false)]), Writing(bytes, name, i, more))
      else Move(w, p, fs.(inodes := fs.inodes[i := fs.inodes[i].(synced := true)]), Linking(bytes, name, i))
    case Linking(bytes, name, i) =>
      if NameOf(bytes) in fs.dir then Move(w, p, fs, VerifyingRival(bytes, name))
      else if name !in fs.dir then w.(points := Leave(w.points, p))
      else Move(w, p, fs.(dir := fs.dir[NameOf(bytes) := fs.dir[name]]), Unlinking(bytes, name))
    case VerifyingRival(bytes, name) =>
      if ReadVerified(fs, RefOf(bytes)).Ok? then Move(w, p, fs, UnlinkingRival(bytes, name))
        else w.(points := Leave(w.points, p))
    case UnlinkingRival(bytes, name) =>
      Acknowledge(w.(fs := fs.(dir := fs.dir - {name})), p, bytes)
    case Unlinking(bytes, name) => Move(w, p, fs.(dir := fs.dir - {name}), SyncingDir(bytes))
    case SyncingDir(bytes) =>
      Acknowledge(w.(fs := fs.(certain := fs.dir), durable := w.durable + [bytes]), p, bytes)
  }

  /** What a power loss may leave behind. */
  ghost predicate Survives(fs: Fs, dir: map<Name, nat>, garbage: seq<Bytes>) {
    && |garbage| == |fs.inodes|
    && (forall n | n in dir :: (n in fs.dir && dir[n] == fs.dir[n]) || (n in fs.certain && dir[n] == fs.certain[n]))
    && (forall n | n in fs.dir && n in fs.certain :: n in dir)
  }

  function Rebooted(fs: Fs, dir: map<Name, nat>, garbage: seq<Bytes>): Fs
    requires |garbage| == |fs.inodes|
  {
    Fs(dir, dir, seq(|fs.inodes|, i requires 0 <= i < |fs.inodes| =>
      if fs.inodes[i].synced then fs.inodes[i] else Inode(garbage[i], true)))
  }

  ghost function Step(w: World, action: Action): World {
    match action
    case Begin(p, bytes) => if p in w.points then w else w.(points := w.points[p := Checking(bytes)])
    case Go(p, pid, number, chunk) => if p in w.points then Advance(w, p, pid, number, chunk) else w
    case Die(p) => w.(points := Leave(w.points, p))
    case PowerLoss(dir, garbage) =>
      if Survives(w.fs, dir, garbage) then World(Rebooted(w.fs, dir, garbage), map[], [], w.durable) else w
  }

  /** An object directory that holds nothing but leftovers of crashed stagings. */
  ghost predicate Scratch(w: World) {
    && w.points == map[] && w.acknowledged == [] && w.durable == []
    && w.fs.certain == w.fs.dir
    && (forall n | n in w.fs.dir :: n.Incoming? && w.fs.dir[n] < |w.fs.inodes|)
  }

  ghost function Run(w: World, actions: seq<Action>): World {
    if actions == [] then w else Step(Run(w, actions[..|actions| - 1]), actions[|actions| - 1])
  }

  // ---------------------------------------------------------------- the invariant

  /** A digest-named entry holds stable, complete bytes that hash to its name. */
  ghost predicate Whole(fs: Fs, n: Name, i: nat) {
    i < |fs.inodes| && (n.Object? ==> fs.inodes[i].synced && Of(Payload(fs.inodes[i].bytes)) == n.digest)
  }

  ghost predicate Integrity(fs: Fs) {
    && (forall n | n in fs.dir :: Whole(fs, n, fs.dir[n]))
    && (forall n | n in fs.certain :: Whole(fs, n, fs.certain[n]))
    && (forall n | n in fs.certain && n.Object? :: n in fs.dir)
  }

  /** The inode a publisher is still filling or about to link. */
  predicate Owns(point: Point, i: nat) {
    (point.Writing? || point.Linking?) && point.inode == i
  }

  ghost predicate PointHolds(fs: Fs, point: Point) {
    match point
    case Checking(_) => true
    case Staging(_) => true
    case VerifyingExisting(bytes) => NameOf(bytes) in fs.dir
    case Writing(bytes, name, i, written) =>
      && i < |fs.inodes| && name.Incoming? && name in fs.dir && fs.dir[name] == i
      && written <= |bytes| && fs.inodes[i] == Inode(bytes[..written], false)
    case Linking(bytes, name, i) =>
      i < |fs.inodes| && name.Incoming? && name in fs.dir && fs.dir[name] == i && fs.inodes[i] == Inode(bytes, true)
    case VerifyingRival(bytes, name) => name.Incoming? && name in fs.dir && NameOf(bytes) in fs.dir
    case UnlinkingRival(bytes, name) => name.Incoming? && name in fs.dir && NameOf(bytes) in fs.dir
    case Unlinking(bytes, name) => name.Incoming? && name in fs.dir && NameOf(bytes) in fs.dir
    case SyncingDir(bytes) => NameOf(bytes) in fs.dir
  }

  predicate Stages(point: Point, name: Name) {
    (point.Writing? || point.Linking? || point.VerifyingRival? || point.UnlinkingRival? || point.Unlinking?)
      && point.name == name
  }

  /** No two live publishers share a scratch name, hence none shares an inode. */
  ghost predicate Private(points: map<nat, Point>) {
    forall p, q, name | p in points && q in points && Stages(points[p], name) && Stages(points[q], name) :: p == q
  }

  ghost predicate Invariant(w: World) {
    && Integrity(w.fs)
    && (forall p | p in w.points :: PointHolds(w.fs, w.points[p]))
    && Private(w.points)
    && Apart(w)
    && (forall b | b in w.acknowledged :: NameOf(b) in w.fs.dir)
    && (forall b | b in w.durable :: NameOf(b) in w.fs.certain)
  }

  /** Inodes being filled are reached by no other name in use. */
  ghost predicate Apart(w: World) {
    forall p, q, i | p in w.points && q in w.points && Owns(w.points[p], i) && Owns(w.points[q], i) :: p == q
  }

  /** Another publisher's step leaves what `point` relies on: its names and the inode it owns. */
  ghost predicate Undisturbed(fs: Fs, after: Fs, point: Point) {
    && (forall n | n in fs.dir && (n.Object? || Stages(point, n)) :: n in after.dir && after.dir[n] == fs.dir[n])
    && |fs.inodes| <= |after.inodes|
    && (forall i | 0 <= i < |fs.inodes| && Owns(point, i) :: after.inodes[i] == fs.inodes[i])
  }

  lemma PointKept(fs: Fs, after: Fs, point: Point)
    requires PointHolds(fs, point) && Undisturbed(fs, after, point)
    ensures PointHolds(after, point)
  {
  }

  /** The invariant after publisher `p` moved to `point`, given what the move did to the files. */
  lemma Moved(w: World, p: nat, after: Fs, point: Point)
    requires Invariant(w) && p in w.points && Integrity(after) && PointHolds(after, point)
    requires forall q | q in w.points && q != p :: Undisturbed(w.fs, after, w.points[q])
    requires forall n | n in w.fs.dir && n.Object? :: n in after.dir
    requires forall n | n in w.fs.certain :: n in after.certain || n.Incoming?
    requires forall q, name | q in w.points && q != p && Stages(w.points[q], name) :: !Stages(point, name)
    requires forall q, i | q in w.points && q != p && Owns(w.points[q], i) :: !Owns(point, i)
    ensures Invariant(Move(w, p, after, point))
  {
    forall q | q in w.points && q != p ensures PointHolds(after, w.points[q]) {
      PointKept(w.fs, after, w.points[q]);
    }
  }

  /** Likewise when `p` is done or gone. */
  lemma Left(w: World, p: nat, after: Fs)
    requires Invariant(w) && Integrity(after)
    requires forall q | q in w.points && q != p :: Undisturbed(w.fs, after, w.points[q])
    requires forall n | n in w.fs.dir && n.Object? :: n in after.dir
    requires forall n | n in w.fs.certain :: n in after.certain || n.Incoming?
    ensures Invariant(w.(fs := after, points := Leave(w.points, p)))
  {
  }

  /** Without tampering a digest-named object always verifies. */
  lemma ObjectsVerify(fs: Fs, bytes: Bytes)
    requires Integrity(fs) && NameOf(bytes) in fs.dir
    ensures ReadVerified(fs, RefOf(bytes)) == Ok(bytes)
  {
  }

  lemma StageKeeps(w: World, p: nat, pid: nat, number: nat)
    requires Invariant(w) && p in w.points && w.points[p].Staging?
    ensures Invariant(Advance(w, p, pid, number, 0))
  {
    var fs, name, i := w.fs, Incoming(pid, number), |w.fs.inodes|;
    if name !in fs.dir {
      var after := fs.(dir := fs.dir[name := i], inodes := fs.inodes + [Inode([], false)]);
      var point := Writing(w.points[p].bytes, name, i, 0);
      forall q, n | q in w.points && q != p && Stages(w.points[q], n) ensures !Stages(point, n) {
        assert PointHolds(fs, w.points[q]);
      }
      forall q, k | q in w.points && q != p && Owns(w.points[q], k) ensures !Owns(point, k) {
        assert PointHolds(fs, w.points[q]);
      }
      forall n | n in after.dir ensures Whole(after, n, after.dir[n]) {
        if n != name { assert Whole(fs, n, fs.dir[n]); }
      }
      forall n | n in after.certain ensures Whole(after, n, after.certain[n]) {
        assert Whole(fs, n, fs.certain[n]);
      }
      Moved(w, p, after, point);
    }
  }

  /** Filling or syncing an inode nobody else owns and no object name reaches. */
  lemma InodeKeeps(w: World, p: nat, content: Inode, point: Point)
    requires Invariant(w) && p in w.points && w.points[p].Writing?
    requires var before := w.points[p];
      (point.Writing? || point.Linking?) && point.name == before.name && point.inode == before.inode
    requires PointHolds(w.fs.(inodes := w.fs.inodes[w.points[p].inode := content]), point)
    ensures Invariant(Move(w, p, w.fs.(inodes := w.fs.inodes[w.points[p].inode := content]), point))
  {
    var fs, i := w.fs, w.points[p].inode;
    var after := fs.(inodes := fs.inodes[i := content]);
    assert PointHolds(fs, w.points[p]);
    assert Owns(w.points[p], i) && Stages(w.points[p], w.points[p].name);
    forall n | n in after.dir ensures Whole(after, n, after.dir[n]) {
      assert Whole(fs, n, fs.dir[n]);
    }
    forall n | n in after.certain ensures Whole(after, n, after.certain[n]) {
      assert Whole(fs, n, fs.certain[n]);
    }
    forall q, k | q in w.points && q != p && Owns(w.points[q], k) ensures !Owns(point, k) {
      assert k != i;
    }
    Moved(w, p, after, point);
  }

  lemma WriteKeeps(w: World, p: nat, pid: nat, number: nat, chunk: nat)
    requires Invariant(w) && p in w.points && w.points[p].Writing?
    ensures Invariant(Advance(w, p, pid, number, chunk))
  {
    var fs := w.fs;
    var Writing(bytes, name, i, written) := w.points[p];
    assert PointHolds(fs, w.points[p]);
    if written < |bytes| {
      var more := if written + chunk + 1 <= |bytes| then written + chunk + 1 else |bytes|;
      InodeKeeps(w, p, Inode(bytes[..more], false), Writing(bytes, name, i, more));
    } else {
      assert bytes[..written] == bytes;
      InodeKeeps(w, p, fs.inodes[i].(synced := true), Linking(bytes, name, i));
    }
  }

  lemma LinkKeeps(w: World, p: nat, pid: nat, number: nat, chunk: nat)
    requires Invariant(w) && p in w.points && w.points[p].Linking?
    ensures Invariant(Advance(w, p, pid, number, chunk))
  {
  }

  /** Removing a publisher's own scratch name. */
  lemma UnlinkFs(w: World, p: nat, name: Name)
    requires Invariant(w) && p in w.points && Stages(w.points[p], name) && name.Incoming?
    ensures var after := w.fs.(dir := w.fs.dir - {name});
      && Integrity(after)
      && (forall q | q in w.points && q != p :: Undisturbed(w.fs, after, w.points[q]))
  {
  }

  /** Answering Ok for bytes whose object is in the directory. */
  lemma AcknowledgeKeeps(w: World, p: nat, bytes: Bytes)
    requires Invariant(w.(points := Leave(w.points, p))) && NameOf(bytes) in w.fs.dir
    ensures Invariant(Acknowledge(w, p, bytes))
  {
  }

  lemma UnlinkKeeps(w: World, p: nat, pid: nat, number: nat, chunk: nat)
    requires Invariant(w) && p in w.points && (w.points[p].UnlinkingRival? || w.points[p].Unlinking?)
    ensures Invariant(Advance(w, p, pid, number, chunk))
  {
    var bytes, name := w.points[p].bytes, w.points[p].name;
    assert PointHolds(w.fs, w.points[p]);
    assert Stages(w.points[p], name);
    var after := w.fs.(dir := w.fs.dir - {name});
    UnlinkFs(w, p, name);
    if w.points[p].Unlinking? {
      Moved(w, p, after, SyncingDir(bytes));
    } else {
      Left(w, p, after);
      AcknowledgeKeeps(w.(fs := after), p, bytes);
    }
  }

  lemma SyncKeeps(w: World, p: nat, pid: nat, number: nat, chunk: nat)
    requires Invariant(w) && p in w.points && w.points[p].SyncingDir?
    ensures Invariant(Advance(w, p, pid, number, chunk))
  {
  }

  lemma ReadKeeps(w: World, p: nat, pid: nat, number: nat, chunk: nat)
    requires Invariant(w) && p in w.points
    requires w.points[p].Checking? || w.points[p].VerifyingExisting? || w.points[p].VerifyingRival?
    ensures Invariant(Advance(w, p, pid, number, chunk))
  {
  }

  lemma PowerLossKeeps(w: World, dir: map<Name, nat>, garbage: seq<Bytes>)
    requires Invariant(w) && Survives(w.fs, dir, garbage)
    ensures Invariant(World(Rebooted(w.fs, dir, garbage), map[], [], w.durable))
  {
  }

  lemma StepKeeps(w: World, action: Action)
    requires Invariant(w)
    ensures Invariant(Step(w, action))
  {
    match action {
      case Begin(_, _) =>
      case Die(p) => Left(w, p, w.fs);
      case PowerLoss(dir, garbage) => if Survives(w.fs, dir, garbage) { PowerLossKeeps(w, dir, garbage); }
      case Go(p, pid, number, chunk) =>
        if p in w.points {
          match w.points[p] {
            case Checking(_) | VerifyingExisting(_) | VerifyingRival(_, _) => ReadKeeps(w, p, pid, number, chunk);
            case Staging(_) => StageKeeps(w, p, pid, number);
            case Writing(_, _, _, _) => WriteKeeps(w, p, pid, number, chunk);
            case Linking(_, _, _) => LinkKeeps(w, p, pid, number, chunk);
            case UnlinkingRival(_, _) | Unlinking(_, _) => UnlinkKeeps(w, p, pid, number, chunk);
            case SyncingDir(_) => SyncKeeps(w, p, pid, number, chunk);
          }
        }
    }
  }

  lemma {:induction false} RunKeeps(start: World, actions: seq<Action>)
    requires Scratch(start)
    ensures Invariant(Run(start, actions))
  {
    if actions != [] {
      RunKeeps(start, actions[..|actions| - 1]);
      StepKeeps(Run(start, actions[..|actions| - 1]), actions[|actions| - 1]);
    }
  }

  // ---------------------------------------------------------------- theorems over every interleaving

  /** In every reachable state each digest-named object holds the complete bytes that hash to its
      name, whoever is writing, linking or dying meanwhile, and reading it back succeeds. */
  lemma ObjectIntegrity(start: World, actions: seq<Action>, digest: Digest)
    requires Scratch(start) && Object(digest) in Run(start, actions).fs.dir
    ensures digest.document.Payload?
    ensures ReadVerified(Run(start, actions).fs, RefOf(digest.document.bytes)) == Ok(digest.document.bytes)
  {
    RunKeeps(start, actions);
    var fs := Run(start, actions).fs;
    assert Whole(fs, Object(digest), fs.dir[Object(digest)]);
    ObjectsVerify(fs, digest.document.bytes);
  }

  /** An answered publication is readable as exactly its bytes until power is lost; one that went
      through its own directory sync is readable for ever, across any number of power losses. */
  lemma PublishedReadable(start: World, actions: seq<Action>, bytes: Bytes)
    requires Scratch(start)
    requires bytes in Run(start, actions).acknowledged || bytes in Run(start, actions).durable
    ensures ReadVerified(Run(start, actions).fs, RefOf(bytes)) == Ok(bytes)
  {
    RunKeeps(start, actions);
    ObjectsVerify(Run(start, actions).fs, bytes);
  }

  /** A durable acknowledgement is never taken back. */
  lemma {:induction false} DurableForever(start: World, actions: seq<Action>, later: seq<Action>, bytes: Bytes)
    requires Scratch(start) && bytes in Run(start, actions).durable
    ensures bytes in Run(Run(start, actions), later).durable
    ensures ReadVerified(Run(Run(start, actions), later).fs, RefOf(bytes)) == Ok(bytes)
  {
    InvariantLater(start, actions, later);
    DurableGrows(Run(start, actions), later);
    ObjectsVerify(Run(Run(start, actions), later).fs, bytes);
  }

  lemma {:induction false} InvariantLater(start: World, actions: seq<Action>, later: seq<Action>)
    requires Scratch(start)
    ensures Invariant(Run(Run(start, actions), later))
  {
    if later == [] {
      RunKeeps(start, actions);
    } else {
      InvariantLater(start, actions, later[..|later| - 1]);
      StepKeeps(Run(Run(start, actions), later[..|later| - 1]), later[|later| - 1]);
    }
  }

  lemma {:induction false} DurableGrows(w: World, later: seq<Action>)
    ensures w.durable <= Run(w, later).durable
  {
    if later != [] {
      DurableGrows(w, later[..|later| - 1]);
    }
  }

  // ---------------------------------------------------------------- what a publication achieves

  lemma OneMore(w: World, actions: seq<Action>, action: Action)
    ensures Run(w, actions + [action]) == Step(Run(w, actions), action)
  {
    assert (actions + [action])[..|actions|] == actions;
  }

  /** Every action is this publisher's own. */
  ghost predicate Alone(actions: seq<Action>, p: nat) {
    forall a | a in actions :: (a.Begin? || a.Go?) && a.publisher == p
  }

  /** Bytes whose object is there are acknowledged after one verified read; no file changes. */
  lemma PublishExisting(w: World, p: nat, bytes: Bytes) returns (actions: seq<Action>)
    requires Invariant(w) && p !in w.points && NameOf(bytes) in w.fs.dir
    ensures Alone(actions, p)
    ensures Run(w, actions) == w.(acknowledged := w.acknowledged + [bytes])
  {
    var go := Go(p, 0, 0, 0);
    ObjectsVerify(w.fs, bytes);
    OneMore(w, [], Begin(p, bytes));
    OneMore(w, [Begin(p, bytes)], go);
    actions := [Begin(p, bytes)] + [go];
    assert Run(w, actions).points == w.points[p := VerifyingExisting(bytes)];
    OneMore(w, actions, go);
    actions := actions + [go];
    assert Leave(w.points[p := VerifyingExisting(bytes)], p) == w.points;
  }

  /** Staging begins with an empty scratch file under a name nobody uses. */
  lemma StagesEmpty(w: World, p: nat, bytes: Bytes, pid: nat, number: nat) returns (actions: seq<Action>)
    requires p !in w.points && NameOf(bytes) !in w.fs.dir && Incoming(pid, number) !in w.fs.dir
    ensures Alone(actions, p)
    ensures var (scratch, i) := (Incoming(pid, number), |w.fs.inodes|);
      Run(w, actions) == w.(
        fs := w.fs.(dir := w.fs.dir[scratch := i], inodes := w.fs.inodes + [Inode([], false)]),
        points := w.points[p := Writing(bytes, scratch, i, 0)])
  {
    var go := Go(p, pid, number, |bytes|);
    OneMore(w, [], Begin(p, bytes));
    OneMore(w, [Begin(p, bytes)], go);
    actions := [Begin(p, bytes)] + [go];
    assert Run(w, actions) == w.(points := w.points[p := Staging(bytes)]);
    OneMore(w, actions, go);
    actions := actions + [go];
  }

  /** The bytes are written and synced before anything is linked. */
  lemma Fills(w: World, p: nat, bytes: Bytes, scratch: Name, i: nat) returns (actions: seq<Action>)
    requires p in w.points && w.points[p] == Writing(bytes, scratch, i, 0)
    requires i < |w.fs.inodes| && w.fs.inodes[i] == Inode([], false)
    ensures Alone(actions, p)
    ensures Run(w, actions) == w.(fs := w.fs.(inodes := w.fs.inodes[i := Inode(bytes, true)]),
      points := w.points[p := Linking(bytes, scratch, i)])
  {
    var go := Go(p, 0, 0, |bytes|);
    actions := [];
    if bytes != [] {
      OneMore(w, actions, go);
      actions := [go];
      assert bytes[..|bytes|] == bytes;
    }
    var full := w.fs.(inodes := w.fs.inodes[i := Inode(bytes, false)]);
    assert Run(w, actions) == w.(fs := full, points := w.points[p := Writing(bytes, scratch, i, |bytes|)]);
    OneMore(w, actions, go);
    actions := actions + [go];
  }

  /** Staging: a scratch file of the publisher's own holds all the bytes, synced, before it is linked. */
  lemma StagesAll(w: World, p: nat, bytes: Bytes, pid: nat, number: nat) returns (actions: seq<Action>)
    requires p !in w.points && NameOf(bytes) !in w.fs.dir && Incoming(pid, number) !in w.fs.dir
    ensures Alone(actions, p)
    ensures var (scratch, i) := (Incoming(pid, number), |w.fs.inodes|);
      Run(w, actions) == w.(
        fs := w.fs.(dir := w.fs.dir[scratch := i], inodes := w.fs.inodes + [Inode(bytes, true)]),
        points := w.points[p := Linking(bytes, scratch, i)])
  {
    var i := |w.fs.inodes|;
    var staged := StagesEmpty(w, p, bytes, pid, number);
    var begun := Run(w, staged);
    var filled := Fills(begun, p, bytes, Incoming(pid, number), i);
    RunJoined(w, staged, filled);
    actions := staged + filled;
    assert begun.fs.inodes[i := Inode(bytes, true)] == w.fs.inodes + [Inode(bytes, true)];
  }

  /** Linking: from the staged file to the answer, nothing of the staging is left. */
  lemma LinksAndSyncs(w: World, p: nat, bytes: Bytes, scratch: Name, i: nat) returns (actions: seq<Action>)
    requires p in w.points && w.points[p] == Linking(bytes, scratch, i) && scratch.Incoming?
    requires NameOf(bytes) !in w.fs.dir && scratch in w.fs.dir && w.fs.dir[scratch] == i
    ensures Alone(actions, p)
    ensures var dir := w.fs.dir[NameOf(bytes) := i] - {scratch};
      Run(w, actions) == World(w.fs.(dir := dir, certain := dir), w.points - {p}, w.acknowledged + [bytes],
        w.durable + [bytes])
  {
    var go := Go(p, 0, 0, 0);
    OneMore(w, [], go);
    actions := [go];
    OneMore(w, actions, go);
    actions := actions + [go];
    var dir := w.fs.dir[NameOf(bytes) := i] - {scratch};
    assert Run(w, actions).fs == w.fs.(dir := dir);
    assert Run(w, actions).points == w.points[p := SyncingDir(bytes)];
    OneMore(w, actions, go);
    actions := actions + [go];
    assert w.points[p := SyncingDir(bytes)] - {p} == w.points - {p};
  }

  lemma {:induction false} RunJoined(w: World, a: seq<Action>, b: seq<Action>)
    ensures Run(w, a + b) == Run(Run(w, a), b)
  {
    if b == [] {
      assert a + b == a;
    } else {
      assert (a + b)[..|a + b| - 1] == a + b[..|b| - 1];
      RunJoined(w, a, b[..|b| - 1]);
    }
  }

  /** New bytes, left alone: the object is stored complete and synced, its name is certain, no other name is
      added, changed or left behind, and the publication is answered as durable. */
  lemma PublishNew(w: World, p: nat, bytes: Bytes, pid: nat, number: nat) returns (actions: seq<Action>)
    requires p !in w.points && NameOf(bytes) !in w.fs.dir && Incoming(pid, number) !in w.fs.dir
    ensures Alone(actions, p)
    ensures var dir := w.fs.dir[NameOf(bytes) := |w.fs.inodes|];
      Run(w, actions) == World(Fs(dir, dir, w.fs.inodes + [Inode(bytes, true)]), w.points, w.acknowledged + [bytes],
        w.durable + [bytes])
  {
    var scratch, i := Incoming(pid, number), |w.fs.inodes|;
    var staged := StagesAll(w, p, bytes, pid, number);
    var ready := Run(w, staged);
    var linked := LinksAndSyncs(ready, p, bytes, scratch, i);
    RunJoined(w, staged, linked);
    actions := staged + linked;
    assert ready.fs.dir[NameOf(bytes) := i] - {scratch} == w.fs.dir[NameOf(bytes) := i];
    assert ready.points - {p} == w.points;
  }

  // ---------------------------------------------------------------- what an early answer does not promise

  const EMPTY_STORE := World(Fs(map[], map[], []), map[], [], [])

  lemma Next(actions: seq<Action>, action: Action)
    ensures Run(EMPTY_STORE, actions + [action]) == Step(Run(EMPTY_STORE, actions), action)
  {
  }

  /** One publisher stages and links the empty object, and has not yet synced the directory. */
  lemma LinkedUnsynced() returns (actions: seq<Action>)
    ensures var w := Run(EMPTY_STORE, actions);
      && w.fs == Fs(map[Incoming(1, 0) := 0, NameOf([]) := 0], map[], [Inode([], true)])
      && w.points == map[1 := Unlinking([], Incoming(1, 0))] && w.acknowledged == [] && w.durable == []
  {
    var go := Go(1, 1, 0, 0);
    Next([], Begin(1, []));
    actions := [] + [Begin(1, [])];
    Next(actions, go);
    actions := actions + [go];
    assert Run(EMPTY_STORE, actions).points == map[1 := Staging([])];
    Next(actions, go);
    actions := actions + [go];
    assert Run(EMPTY_STORE, actions).fs == Fs(map[Incoming(1, 0) := 0], map[], [Inode([], false)]);
    assert Run(EMPTY_STORE, actions).points == map[1 := Writing([], Incoming(1, 0), 0, 0)];
    Next(actions, go);
    actions := actions + [go];
    assert Run(EMPTY_STORE, actions).fs == Fs(map[Incoming(1, 0) := 0], map[], [Inode([], true)]);
    assert Run(EMPTY_STORE, actions).points == map[1 := Linking([], Incoming(1, 0), 0)];
    Next(actions, go);
    actions := actions + [go];
  }

  /** A second publisher that finds the object already there is answered Ok without any directory
      sync: the answer holds, and a power loss can still take the object away. */
  lemma EarlyAnswerNotDurable()
    ensures exists actions, loss ::
      && [] in Run(EMPTY_STORE, actions).acknowledged
      && NameOf([]) !in Step(Run(EMPTY_STORE, actions), loss).fs.dir
  {
    var actions := LinkedUnsynced();
    var go := Go(2, 2, 0, 0);
    Next(actions, Begin(2, []));
    actions := actions + [Begin(2, [])];
    Next(actions, go);
    actions := actions + [go];
    var w := Run(EMPTY_STORE, actions);
    assert 2 in w.points && w.points[2] == VerifyingExisting([]);
    assert ReadVerified(w.fs, RefOf([])).Ok?;
    Next(actions, go);
    actions := actions + [go];
    w := Run(EMPTY_STORE, actions);
    assert w.acknowledged == [[]];
    assert Survives(w.fs, map[], [[]]);
    assert NameOf([]) !in Step(w, PowerLoss(map[], [[]])).fs.dir;
  }

  /** Exactly which answered publications no power loss can take away: those whose name a directory
      sync has made certain. */
  lemma SurvivesPowerLossIff(start: World, actions: seq<Action>, bytes: Bytes)
    requires Scratch(start) && bytes in Run(start, actions).acknowledged
    ensures var fs := Run(start, actions).fs;
      (forall dir, garbage | Survives(fs, dir, garbage) :: NameOf(bytes) in dir) <==> NameOf(bytes) in fs.certain
  {
    RunKeeps(start, actions);
    var fs := Run(start, actions).fs;
    if NameOf(bytes) !in fs.certain {
      var dir, garbage := fs.dir - {NameOf(bytes)}, seq(|fs.inodes|, _ => []);
      LosesOne(fs, NameOf(bytes), dir, garbage);
    }
  }

  /** A name that is not certain may be the only one to vanish. */
  lemma LosesOne(fs: Fs, name: Name, dir: map<Name, nat>, garbage: seq<Bytes>)
    requires name !in fs.certain && dir == fs.dir - {name} && |garbage| == |fs.inodes|
    ensures Survives(fs, dir, garbage) && name !in dir
  {
  }

  /** Which branch answers with which promise: the one that synced the directory makes the name
      certain; the two that found the object already there, before staging or when linking, answer
      with a certain name if and only if somebody's sync already made it so. */
  lemma AnswerCertainIff(start: World, actions: seq<Action>, p: nat, pid: nat, number: nat, chunk: nat)
    requires Scratch(start) && p in Run(start, actions).points
    requires var w := Run(start, actions); |Step(w, Go(p, pid, number, chunk)).acknowledged| > |w.acknowledged|
    ensures var w := Run(start, actions);
      var point := w.points[p];
      var after := Step(w, Go(p, pid, number, chunk));
      && (point.VerifyingExisting? || point.UnlinkingRival? || point.SyncingDir?)
      && after.acknowledged[|after.acknowledged| - 1] == point.bytes
      && (NameOf(point.bytes) in after.fs.certain <==> point.SyncingDir? || NameOf(point.bytes) in w.fs.certain)
  {
    RunKeeps(start, actions);
    assert PointHolds(Run(start, actions).fs, Run(start, actions).points[p]);
  }

  // ---------------------------------------------------------------- the staging loop

  /** Staging names of one process that are taken and not yet passed by its counter. */
  function TakenFrom(taken: set<Name>, pid: nat, counter: nat): set<Name> {
    set n | n in taken && n.Incoming? && n.pid == pid && n.number >= counter
  }

  /** The staging loop: it ends for every finite set of leftovers, at the first free number. */
  method StagingName(taken: set<Name>, pid: nat, start: nat) returns (number: nat)
    ensures start <= number && Incoming(pid, number) !in taken
    ensures forall k | start <= k < number :: Incoming(pid, k) in taken
  {
    number := start;
    while Incoming(pid, number) in taken
      invariant start <= number
      invariant forall k | start <= k < number :: Incoming(pid, k) in taken
      decreases |TakenFrom(taken, pid, number)|
    {
      assert TakenFrom(taken, pid, number) == TakenFrom(taken, pid, number + 1) + {Incoming(pid, number)};
      number := number + 1;
    }
  }
}
