/** From a changeset manifest to the text its digest is taken over, and back: the symbolic digests of
    the other modules stand for digests of this text, which loses nothing.

    How a byte string or a digest is spelled as characters is a parameter; spellings are only
    assumed to be faithful. */
module ManifestText {
  import opened ByteOrder
  import opened Wrappers
  import opened Artifact
  import opened Canonical
  import opened MachineIntegers
  import Parse
  import Sealing
  import PathCodec

  const SCHEMA_VERSION := 1
  const KIND := "code.changeset"

  /** `text` spells UTF-8 bytes as characters, `digest` displays a digest, `digestOf` reads one. */
  datatype Spelling = Spelling(text: Bytes -> string, digest: Digest -> string, digestOf: string -> Option<Digest>)

  ghost predicate Faithful(sp: Spelling) {
    && (forall a, b :: sp.text(a) == sp.text(b) ==> a == b)
    && (forall d :: sp.digestOf(sp.digest(d)) == Some(d))
  }

  function ModeText(kind: EntryKind): string {
    match kind case Regular => "regular" case Executable => "executable" case Symlink => "symlink"
  }

  function OperationText(operation: Operation): string {
    match operation case Add => "add" case Modify => "modify" case Delete => "delete"
  }

  /** A size as it is written: cast to a signed 64-bit integer, which wraps. */
  function AsI64(size: nat): (written: int)
    ensures I64_MIN <= written <= I64_MAX
    ensures size <= I64_MAX ==> written == size
  {
    var low := size % (U64_MAX + 1);
    if low <= I64_MAX then low else low - (U64_MAX + 1)
  }

  /** Sizes are unsigned 64-bit integers, and no two of them are written alike. */
  lemma AsI64Injective(a: nat, b: nat)
    requires a <= U64_MAX && b <= U64_MAX && AsI64(a) == AsI64(b)
    ensures a == b
  {
  }

  /** Objects in key order, as the canonical form lists them. */
  function StateValue(sp: Spelling, state: EntryState): Value {
    match state
    case Absent => Object([Entry("state", Text("absent"))])
    case Present(kind, blob, size) =>
      Object([Entry("blob", Text(sp.digest(blob))), Entry("mode", Text(ModeText(kind))),
              Entry("size", Integer(AsI64(size))), Entry("state", Text("present"))])
  }

  function EntryValue(sp: Spelling, e: ChangesetEntry): Value {
    Object([Entry("after", StateValue(sp, e.after)), Entry("before", StateValue(sp, e.before)),
            Entry("operation", Text(OperationText(e.operation))),
            Entry("path", Text(sp.text(PathCodec.Encode(e.path))))])
  }

  function EntryValues(sp: Spelling, entries: seq<ChangesetEntry>): seq<Value> {
    seq(|entries|, i requires 0 <= i < |entries| => EntryValue(sp, entries[i]))
  }

  /** The value `changeset_manifest` returns. */
  function ManifestValue(sp: Spelling, m: Manifest): Value {
    Object([Entry("artifactKind", Text(KIND)), Entry("baseCommit", Text(sp.text(m.baseCommit))),
            Entry("entries", Array(EntryValues(sp, m.entries))), Entry("repository", Text(sp.text(m.repository))),
            Entry("schemaVersion", Integer(SCHEMA_VERSION)),
            Entry("workspaceRevision", Text(sp.digest(m.workspaceRevision)))])
  }

  function ManifestJson(sp: Spelling, m: Manifest): string {
    Write(ManifestValue(sp, m))
  }

  // ---------------------------------------------------------------- nothing is lost

  /** A size of the width the source gives it. */
  predicate Narrow(state: EntryState) {
    state.Present? ==> state.size <= U64_MAX
  }

  predicate NarrowEntry(e: ChangesetEntry) {
    Narrow(e.before) && Narrow(e.after)
  }

  lemma DigestInjective(sp: Spelling, a: Digest, b: Digest)
    requires Faithful(sp) && sp.digest(a) == sp.digest(b)
    ensures a == b
  {
    assert sp.digestOf(sp.digest(a)) == Some(a) && sp.digestOf(sp.digest(b)) == Some(b);
  }

  lemma StateValueInjective(sp: Spelling, a: EntryState, b: EntryState)
    requires Faithful(sp) && Narrow(a) && Narrow(b) && StateValue(sp, a) == StateValue(sp, b)
    ensures a == b
  {
    if a.Present? && b.Present? {
      var x, y := StateValue(sp, a).entries, StateValue(sp, b).entries;
      assert x[0] == y[0] && x[1] == y[1] && x[2] == y[2];
      DigestInjective(sp, a.blob, b.blob);
      AsI64Injective(a.size, b.size);
      assert ModeText(a.kind)[0] == ModeText(b.kind)[0];
    }
  }

  lemma EntryValueInjective(sp: Spelling, a: ChangesetEntry, b: ChangesetEntry)
    requires Faithful(sp) && NarrowEntry(a) && NarrowEntry(b) && EntryValue(sp, a) == EntryValue(sp, b)
    ensures a == b
  {
    var x, y := EntryValue(sp, a).entries, EntryValue(sp, b).entries;
    assert x[0] == y[0] && x[1] == y[1] && x[2] == y[2] && x[3] == y[3];
    StateValueInjective(sp, a.after, b.after);
    StateValueInjective(sp, a.before, b.before);
    assert OperationText(a.operation)[0] == OperationText(b.operation)[0];
    PathCodec.EncodeInjective(a.path, b.path);
  }

  /** Two manifests with the same text are the same manifest. */
  lemma ManifestTextInjective(sp: Spelling, a: Manifest, b: Manifest)
    requires Faithful(sp) && ManifestJson(sp, a) == ManifestJson(sp, b)
    requires forall e | e in a.entries || e in b.entries :: NarrowEntry(e)
    ensures a == b
  {
    CanonicalInjective(ManifestValue(sp, a), ManifestValue(sp, b));
    var x, y := ManifestValue(sp, a).entries, ManifestValue(sp, b).entries;
    assert x[1] == y[1] && x[2] == y[2] && x[3] == y[3] && x[5] == y[5];
    DigestInjective(sp, a.workspaceRevision, b.workspaceRevision);
    var v, w := EntryValues(sp, a.entries), EntryValues(sp, b.entries);
    assert v == w && |v| == |a.entries| && |w| == |b.entries|;
    forall i | 0 <= i < |a.entries| ensures a.entries[i] == b.entries[i] {
      assert v[i] == w[i] && a.entries[i] in a.entries && b.entries[i] in b.entries;
      EntryValueInjective(sp, a.entries[i], b.entries[i]);
    }
  }

  // ---------------------------------------------------------------- and it reads back

  lemma StateWellFormed(sp: Spelling, state: EntryState)
    ensures Parse.WellFormed(StateValue(sp, state))
  {
  }

  lemma EntryWellFormed(sp: Spelling, e: ChangesetEntry)
    ensures Parse.WellFormed(EntryValue(sp, e))
  {
    StateWellFormed(sp, e.before);
    StateWellFormed(sp, e.after);
  }

  lemma ManifestWellFormed(sp: Spelling, m: Manifest)
    ensures Parse.WellFormed(ManifestValue(sp, m))
  {
    forall i | 0 <= i < |m.entries| ensures Parse.WellFormed(EntryValues(sp, m.entries)[i]) {
      assert m.entries[i] in m.entries;
      EntryWellFormed(sp, m.entries[i]);
    }
    assert Parse.WellFormed(Array(EntryValues(sp, m.entries)));
    var fields := ManifestValue(sp, m).entries;
    assert fields[2].value == Array(EntryValues(sp, m.entries));
    assert forall i | 0 <= i < |fields| :: Parse.WellFormed(fields[i].value);
    KeysAscend(sp, m);
  }

  lemma KeysAscend(sp: Spelling, m: Manifest)
    ensures var fields := ManifestValue(sp, m).entries;
      forall i, j | 0 <= i < j < |fields| :: Parse.KeyLt(fields[i].key, fields[j].key)
  {
    var fields := ManifestValue(sp, m).entries;
    assert forall i, j | 0 <= i < j < |fields| :: fields[i].key[0] < fields[j].key[0];
  }

  /** The stored manifest parses, and parses to the value that was stored: the completeness check of
      a submission can always read what the sealer published. */
  lemma ManifestReadsBack(sp: Spelling, m: Manifest)
    ensures Parse.ReadDocument(ManifestJson(sp, m)) == Ok(ManifestValue(sp, m))
  {
    ManifestWellFormed(sp, m);
    Parse.DocumentRoundTrip(ManifestValue(sp, m));
  }

  // ---------------------------------------------------------------- the payloads a stored manifest names

  datatype Incomplete = Unparsable | NoEntries | BadReference | Missing

  /** `Json::get`: only an object has a value under a key. */
  function Get(v: Value, key: string): Option<Value> {
    if v.Object? then Lookup(v.entries, key) else None
  }

  function Lookup(entries: seq<Entry>, key: string): Option<Value> {
    if entries == [] then None else if entries[0].key == key then Some(entries[0].value) else Lookup(entries[1..], key)
  }

  /** A stored state, read by its keys: what it says of a path. */
  ghost predicate SaysState(sp: Spelling, v: Value, state: EntryState) {
    match state
    case Absent => Get(v, "state") == Some(Text("absent")) && Get(v, "blob") == None
    case Present(kind, blob, size) =>
      && Get(v, "state") == Some(Text("present"))
      && Get(v, "blob") == Some(Text(sp.digest(blob)))
      && Get(v, "size") == Some(Integer(AsI64(size)))
      && Get(v, "mode") == Some(Text(
           match kind case Regular => "regular" case Executable => "executable" case Symlink => "symlink"))
  }

  ghost predicate SaysEntry(sp: Spelling, v: Value, e: ChangesetEntry) {
    && Get(v, "path") == Some(Text(sp.text(PathCodec.Encode(e.path))))
    && Get(v, "operation") == Some(Text(
         match e.operation case Add => "add" case Modify => "modify" case Delete => "delete"))
    && Get(v, "before").Some? && SaysState(sp, Get(v, "before").value, e.before)
    && Get(v, "after").Some? && SaysState(sp, Get(v, "after").value, e.after)
  }

  lemma {:induction false} KeyAt(entries: seq<Entry>, i: nat)
    requires i < |entries| && forall j | 0 <= j < i :: entries[j].key != entries[i].key
    ensures Lookup(entries, entries[i].key) == Some(entries[i].value)
    decreases i
  {
    if i > 0 {
      assert entries[1..][i - 1] == entries[i];
      KeyAt(entries[1..], i - 1);
    }
  }

  lemma {:induction false} KeyMissing(entries: seq<Entry>, key: string)
    requires forall e | e in entries :: e.key != key
    ensures Lookup(entries, key) == None
  {
    if entries != [] { KeyMissing(entries[1..], key); }
  }

  lemma StateSays(sp: Spelling, state: EntryState)
    ensures SaysState(sp, StateValue(sp, state), state)
  {
    var fields := StateValue(sp, state).entries;
    if state.Present? {
      assert fields[0].key[0] == 'b' && fields[1].key[0] == 'm' && fields[2].key[1] == 'i' && fields[3].key[1] == 't';
      KeyAt(fields, 0);
      KeyAt(fields, 1);
      KeyAt(fields, 2);
      KeyAt(fields, 3);
    } else {
      KeyAt(fields, 0);
      assert forall e | e in fields :: e.key[0] == 's';
      KeyMissing(fields, "blob");
    }
  }

  lemma EntrySays(sp: Spelling, e: ChangesetEntry)
    ensures SaysEntry(sp, EntryValue(sp, e), e)
  {
    var fields := EntryValue(sp, e).entries;
    assert fields[0].key[0] == 'a' && fields[1].key[0] == 'b' && fields[2].key[0] == 'o' && fields[3].key[0] == 'p';
    KeyAt(fields, 0);
    KeyAt(fields, 1);
    KeyAt(fields, 2);
    KeyAt(fields, 3);
    StateSays(sp, e.before);
    StateSays(sp, e.after);
  }

  /** Read back by key, the stored text says what was sealed: its kind and schema, the repository, the base
      commit, the captured revision, and for each entry in order its path, operation and two states. */
  lemma ManifestSays(sp: Spelling, m: Manifest)
    ensures Parse.ReadDocument(ManifestJson(sp, m)).Ok?
    ensures var v := Parse.ReadDocument(ManifestJson(sp, m)).value;
      && Get(v, "artifactKind") == Some(Text("code.changeset")) && Get(v, "schemaVersion") == Some(Integer(1))
      && Get(v, "repository") == Some(Text(sp.text(m.repository)))
      && Get(v, "baseCommit") == Some(Text(sp.text(m.baseCommit)))
      && Get(v, "workspaceRevision") == Some(Text(sp.digest(m.workspaceRevision)))
      && Get(v, "entries").Some? && Get(v, "entries").value.Array?
      && var items := Get(v, "entries").value.items;
         |items| == |m.entries| && forall i | 0 <= i < |items| :: SaysEntry(sp, items[i], m.entries[i])
  {
    ManifestReadsBack(sp, m);
    var fields := ManifestValue(sp, m).entries;
    assert fields[0].key[0] == 'a' && fields[1].key[0] == 'b' && fields[2].key[0] == 'e';
    assert fields[3].key[0] == 'r' && fields[4].key[0] == 's' && fields[5].key[0] == 'w';
    KeyAt(fields, 0);
    KeyAt(fields, 1);
    KeyAt(fields, 2);
    KeyAt(fields, 3);
    KeyAt(fields, 4);
    KeyAt(fields, 5);
    forall i | 0 <= i < |m.entries| ensures SaysEntry(sp, EntryValues(sp, m.entries)[i], m.entries[i]) {
      EntrySays(sp, m.entries[i]);
    }
  }

  /** The string under one side's `blob`, if there is one. */
  function BlobText(entry: Value, side: string): Option<string> {
    var state := Get(entry, side);
    if state.None? then None
    else match Get(state.value, "blob") case Some(Text(blob)) => Some(blob) case _ => None
  }

  /** What one side contributes: nothing, a digest, or a refusal. */
  function SideReference(sp: Spelling, entry: Value, side: string): Option<seq<Digest>> {
    match BlobText(entry, side)
    case None => Some([])
    case Some(blob) => if sp.digestOf(blob).None? then None else Some([sp.digestOf(blob).value])
  }

  function EntryReferences(sp: Spelling, entry: Value): Option<seq<Digest>> {
    var before, after := SideReference(sp, entry, "before"), SideReference(sp, entry, "after");
    if before.None? || after.None? then None else Some(before.value + after.value)
  }

  function AllReferences(sp: Spelling, entries: seq<Value>): Option<seq<Digest>> {
    if entries == [] then Some([])
    else
      var earlier, last := AllReferences(sp, entries[..|entries| - 1]), EntryReferences(sp, entries[|entries| - 1]);
      if earlier.None? || last.None? then None else Some(earlier.value + last.value)
  }

  function References(sp: Spelling, json: string): Result<seq<Digest>, Incomplete> {
    var parsed := Parse.ReadDocument(json);
    if parsed.Err? then Err(Unparsable)
    else match Get(parsed.value, "entries")
      case Some(Array(entries)) =>
        var found := AllReferences(sp, entries);
        if found.None? then Err(BadReference) else Ok(found.value)
      case _ => Err(NoEntries)
  }

  /** The loops of `ensure_artifact_complete`: parse, collect both sides of every entry, look each up. */
  method EnsureArtifactComplete(sp: Spelling, json: string, members: seq<Digest>)
    returns (complete: Result<(), Incomplete>)
    ensures complete == match References(sp, json)
      case Err(error) => Err(error)
      case Ok(referenced) => if forall d | d in referenced :: d in members then Ok(()) else Err(Missing)
  {
    var parsed := Parse.ReadDocument(json);
    if parsed.Err? {
      return Err(Unparsable);
    }
    var under := Get(parsed.value, "entries");
    if under.None? || !under.value.Array? {
      return Err(NoEntries);
    }
    var referenced := CollectReferences(sp, under.value.items);
    if referenced.None? {
      return Err(BadReference);
    }
    for i := 0 to |referenced.value|
      invariant forall k | 0 <= k < i :: referenced.value[k] in members
    {
      if referenced.value[i] !in members {
        return Err(Missing);
      }
    }
    return Ok(());
  }

  method CollectReferences(sp: Spelling, entries: seq<Value>) returns (referenced: Option<seq<Digest>>)
    ensures referenced == AllReferences(sp, entries)
  {
    var found: seq<Digest> := [];
    assert entries[..0] == [];
    for i := 0 to |entries|
      invariant AllReferences(sp, entries[..i]) == Some(found)
    {
      assert entries[..i + 1][..i] == entries[..i];
      var more := EntryReferences(sp, entries[i]);
      if more.None? {
        RefusedEarlier(sp, entries, i + 1);
        return None;
      }
      found := found + more.value;
    }
    assert entries[..|entries|] == entries;
    return Some(found);
  }

  /** One bad reference refuses the whole list. */
  lemma {:induction false} RefusedEarlier(sp: Spelling, entries: seq<Value>, i: nat)
    requires i <= |entries| && AllReferences(sp, entries[..i]).None?
    ensures AllReferences(sp, entries).None?
    decreases |entries|
  {
    if i < |entries| {
      assert entries[..|entries| - 1][..i] == entries[..i];
      RefusedEarlier(sp, entries[..|entries| - 1], i);
    } else {
      assert entries[..i] == entries;
    }
  }

  lemma StateReference(sp: Spelling, e: ChangesetEntry)
    ensures BlobText(EntryValue(sp, e), "before") == if e.before.Present? then Some(sp.digest(e.before.blob)) else None
    ensures BlobText(EntryValue(sp, e), "after") == if e.after.Present? then Some(sp.digest(e.after.blob)) else None
  {
    LookupBlob(sp, e.before);
    LookupBlob(sp, e.after);
    var fields := EntryValue(sp, e).entries;
    assert fields[1..][0] == fields[1];
    assert Lookup(fields, "after") == Some(fields[0].value);
    assert Lookup(fields, "before") == Lookup(fields[1..], "before") == Some(fields[1].value);
  }

  lemma LookupBlob(sp: Spelling, state: EntryState)
    ensures Get(StateValue(sp, state), "blob") == if state.Present? then Some(Text(sp.digest(state.blob))) else None
  {
    var fields := StateValue(sp, state).entries;
    if state.Absent? {
      assert fields[1..] == [];
    }
  }

  /** The digests one entry contributes are those its two states name. */
  lemma EntryReferencesNamed(sp: Spelling, e: ChangesetEntry)
    requires Faithful(sp)
    ensures var found := EntryReferences(sp, EntryValue(sp, e));
      found.Some? && forall d :: d in found.value <==> Sealing.Names([e], d)
  {
    StateReference(sp, e);
    var found := EntryReferences(sp, EntryValue(sp, e));
    forall d ensures d in found.value <==> Sealing.Names([e], d) {
      assert e in [e];
    }
  }

  lemma {:induction false} AllReferencesNamed(sp: Spelling, entries: seq<ChangesetEntry>)
    requires Faithful(sp)
    ensures var found := AllReferences(sp, EntryValues(sp, entries));
      found.Some? && forall d :: d in found.value <==> Sealing.Names(entries, d)
  {
    if entries != [] {
      var n := |entries| - 1;
      assert EntryValues(sp, entries)[..n] == EntryValues(sp, entries[..n]);
      AllReferencesNamed(sp, entries[..n]);
      EntryReferencesNamed(sp, entries[n]);
      forall d ensures Sealing.Names(entries, d) <==> Sealing.Names(entries[..n], d) || Sealing.Names([entries[n]], d) {
        NamesLast(entries, d);
      }
    }
  }

  lemma NamesLast(entries: seq<ChangesetEntry>, d: Digest)
    requires entries != []
    ensures Sealing.Names(entries, d) <==>
      Sealing.Names(entries[..|entries| - 1], d) || Sealing.Names([entries[|entries| - 1]], d)
  {
    var n := |entries| - 1;
    assert entries == entries[..n] + [entries[n]];
    assert forall e :: e in entries <==> e in entries[..n] || e in [entries[n]];
  }

  /** From the text of a sealed manifest exactly the blobs of its entries are read, both sides, and
      never a bad reference: the text check decides what the structured one decides. */
  lemma ReferencesExact(sp: Spelling, m: Manifest)
    requires Faithful(sp)
    ensures var found := References(sp, ManifestJson(sp, m));
      found.Ok? && forall d :: d in found.value <==> Sealing.Names(m.entries, d)
  {
    ManifestReadsBack(sp, m);
    var fields := ManifestValue(sp, m).entries;
    assert fields[1..][0] == fields[1] && fields[1..][1..][0] == fields[2];
    assert Lookup(fields, "entries") == Lookup(fields[1..], "entries") == Lookup(fields[1..][1..], "entries") ==
      Some(fields[2].value);
    AllReferencesNamed(sp, m.entries);
  }
}
