/** One Run's proposed answer: a normalized mapping from output slots to Artifacts. */
module Candidate {
  import opened ByteOrder
  import opened Wrappers
  import opened Sorting
  import opened Artifact

  const MAX_OUTPUT_SLOT_BYTES := 128

  datatype Output = Output(slot: Bytes, artifact: Digest)

  datatype CandidateResult = CandidateResult(task: string, run: string, outputs: seq<Output>)

  datatype TaskOutput = TaskOutput(name: Bytes, kind: string, required: bool)

  datatype TaskSpec = TaskSpec(outputs: seq<TaskOutput>)

  datatype CandidateError =
    | DuplicateOutputSlot(slot: Bytes)
    | InvalidOutputSlot(slot: Bytes)
    | MissingRequiredOutput(slot: Bytes)
    | UndeclaredOutputSlot(slot: Bytes)

  predicate SlotLe(a: Output, b: Output) {
    Le(a.slot, b.slot)
  }

  function Slot(output: Output): Bytes {
    output.slot
  }

  predicate ValidSlot(slot: Bytes) {
    0 < |slot| <= MAX_OUTPUT_SLOT_BYTES
  }

  ghost predicate AllValid(outputs: seq<Output>) {
    forall o | o in outputs :: ValidSlot(o.slot)
  }

  ghost predicate Repeated(outputs: seq<Output>, slot: Bytes) {
    exists i, j :: 0 <= i < j < |outputs| && outputs[i].slot == outputs[j].slot == slot
  }

  ghost predicate Acceptable(outputs: seq<Output>) {
    AllValid(outputs) && Distinct(outputs, Slot)
  }

  /** What every constructed Candidate is: its slots bounded, unique and in byte order. */
  ghost predicate Normal(candidate: CandidateResult) {
    Acceptable(candidate.outputs) && Sorted(candidate.outputs, SlotLe)
  }

  /** The Candidate an unordered mapping stands for, when it stands for one. */
  ghost function Built(task: string, run: string, outputs: seq<Output>): Option<CandidateResult> {
    if Acceptable(outputs) then Some(CandidateResult(task, run, Sort(outputs, SlotLe))) else None
  }

  lemma SlotOrder()
    ensures TotalPreorder(SlotLe)
  {
    LeIsTotalOrder();
  }

  /** `CandidateResult::new`. */
  method NewCandidate(task: string, run: string, outputs: seq<Output>)
    returns (built: Result<CandidateResult, CandidateError>)
    ensures built.Ok? <==> Acceptable(outputs)
    ensures built.Ok? ==> Built(task, run, outputs) == Some(built.value) && Normal(built.value)
    ensures built.Err? ==>
      match built.error
      case InvalidOutputSlot(slot) =>
        !ValidSlot(slot) && exists i :: 0 <= i < |outputs| && outputs[i].slot == slot && AllValid(outputs[..i])
      case DuplicateOutputSlot(slot) =>
        AllValid(outputs) && Repeated(outputs, slot) && forall other | Repeated(outputs, other) :: Le(slot, other)
      case _ => false
  {
    for i := 0 to |outputs|
      invariant forall k | 0 <= k < i :: ValidSlot(outputs[k].slot)
    {
      if outputs[i].slot == [] || |outputs[i].slot| > MAX_OUTPUT_SLOT_BYTES {
        assert AllValid(outputs[..i]);
        return Err(InvalidOutputSlot(outputs[i].slot));
      }
    }
    var sorted := Sort(outputs, SlotLe);
    SlotOrder();
    SortSorted(outputs, SlotLe);
    SortPermutes(outputs, SlotLe);
    SortMembers(outputs, SlotLe);
    var i := 1;
    while i < |sorted|
      invariant 1 <= i
      invariant forall k | 0 < k < i && k < |sorted| :: sorted[k - 1].slot != sorted[k].slot
    {
      if sorted[i - 1].slot == sorted[i].slot {
        DuplicateTransfers(outputs, sorted, Slot, i - 1, i);
        LeastRepeated(outputs, sorted, i);
        return Err(DuplicateOutputSlot(sorted[i - 1].slot));
      }
      i := i + 1;
    }
    SlotsDiffer(sorted);
    DistinctPermuted(sorted, outputs, Slot);
    return Ok(CandidateResult(task, run, sorted));
  }

  /** In sorted outputs the first equal neighbours carry the least slot that is repeated anywhere. */
  lemma LeastRepeated(outputs: seq<Output>, sorted: seq<Output>, i: nat)
    requires Sorted(sorted, SlotLe) && multiset(sorted) == multiset(outputs) && 1 <= i < |sorted|
    requires forall k | 0 < k < i :: sorted[k - 1].slot != sorted[k].slot
    ensures forall other | Repeated(outputs, other) :: Le(sorted[i].slot, other)
  {
    forall other | Repeated(outputs, other) ensures Le(sorted[i].slot, other) {
      var a, b :| 0 <= a < b < |outputs| && outputs[a].slot == outputs[b].slot == other;
      DuplicateTransfers(sorted, outputs, Slot, a, b);
      var x, y :| 0 <= x < y < |sorted| && sorted[x].slot == sorted[y].slot == other;
      PrefixDiffers(sorted, i);
      LeReflexive(other);
      assert y == i || SlotLe(sorted[i], sorted[y]);
    }
  }

  lemma PrefixDiffers(sorted: seq<Output>, i: nat)
    requires Sorted(sorted, SlotLe) && i <= |sorted| && forall k | 0 < k < i :: sorted[k - 1].slot != sorted[k].slot
    ensures forall x, y | 0 <= x < y < i :: sorted[x].slot != sorted[y].slot
  {
    var prefix := sorted[..i];
    SlotsDiffer(prefix);
    assert forall x, y | 0 <= x < y < |prefix| :: Slot(prefix[x]) != Slot(prefix[y]);
    assert forall x | 0 <= x < i :: prefix[x] == sorted[x];
  }

  lemma SlotsDiffer(sorted: seq<Output>)
    requires Sorted(sorted, SlotLe)
    requires forall k | 0 < k < |sorted| :: sorted[k - 1].slot != sorted[k].slot
    ensures Distinct(sorted, Slot)
  {
    forall i, j | 0 <= i < j < |sorted| ensures sorted[i].slot != sorted[j].slot {
      if sorted[i].slot == sorted[j].slot {
        assert SlotLe(sorted[i], sorted[j - 1]) || i == j - 1;
        assert SlotLe(sorted[j - 1], sorted[j]);
        LeReflexive(sorted[i].slot);
        LeAntisymmetric(sorted[j - 1].slot, sorted[j].slot);
      }
    }
  }

  /** Output order never reaches identity, and nothing else is lost: two mappings are the same
      Candidate exactly when they hold the same outputs. */
  lemma CandidateIdentity(task: string, run: string, a: seq<Output>, b: seq<Output>)
    requires Acceptable(a) && Acceptable(b)
    ensures Built(task, run, a) == Built(task, run, b) <==> multiset(a) == multiset(b)
  {
    SlotOrder();
    SortPermutes(a, SlotLe);
    SortPermutes(b, SlotLe);
    if multiset(a) == multiset(b) {
      assert Separates(SlotLe, a) by { LeIsTotalOrder(); }
      SortCanonical(a, b, SlotLe);
    }
  }

  /** Whether a mapping is acceptable does not depend on its order either. */
  lemma AcceptablePermuted(a: seq<Output>, b: seq<Output>)
    requires multiset(a) == multiset(b) && Acceptable(a)
    ensures Acceptable(b)
  {
    DistinctPermuted(a, b, Slot);
    forall o | o in b ensures ValidSlot(o.slot) {
      assert o in multiset(a);
    }
  }

  // ---------------------------------------------------------------- against the specification

  /** The first declared output of this name. */
  function Declared(outputs: seq<TaskOutput>, name: Bytes): (found: Option<TaskOutput>)
    ensures found.Some? <==> exists o :: o in outputs && o.name == name
    ensures found.Some? ==> found.value in outputs && found.value.name == name
  {
    if outputs == [] then None
    else if outputs[0].name == name then Some(outputs[0])
    else
      var rest := Declared(outputs[1..], name);
      assert forall o :: o in outputs <==> o == outputs[0] || o in outputs[1..];
      rest
  }

  /** A name declared twice means its first declaration. */
  lemma {:induction false} FirstDeclared(outputs: seq<TaskOutput>, name: Bytes) returns (i: nat)
    ensures i <= |outputs| && NotNamed(outputs[..i], name)
    ensures if i == |outputs| then Declared(outputs, name) == None
      else outputs[i].name == name && Declared(outputs, name) == Some(outputs[i])
  {
    i := 0;
    if outputs != [] && outputs[0].name != name {
      var k := FirstDeclared(outputs[1..], name);
      i := k + 1;
      assert outputs[..i] == [outputs[0]] + outputs[1..][..k];
    }
  }

  ghost predicate NotNamed(outputs: seq<TaskOutput>, name: Bytes) {
    forall o | o in outputs :: o.name != name
  }

  predicate Supplies(candidate: CandidateResult, slot: Bytes) {
    exists o :: o in candidate.outputs && o.slot == slot
  }

  ghost predicate AllSupplied(candidate: CandidateResult, declared: seq<TaskOutput>) {
    forall d | d in declared && d.required :: Supplies(candidate, d.name)
  }

  ghost predicate AllDeclared(outputs: seq<Output>, spec: TaskSpec) {
    forall o | o in outputs :: Declared(spec.outputs, o.slot).Some?
  }

  /** Every required slot is supplied and every supplied slot is declared. */
  ghost predicate FitsSpec(candidate: CandidateResult, spec: TaskSpec) {
    AllSupplied(candidate, spec.outputs) && AllDeclared(candidate.outputs, spec)
  }

  /** `validate_against_spec`: omissions are reported before extras, each in order. */
  method ValidateAgainstSpec(candidate: CandidateResult, spec: TaskSpec) returns (valid: Result<(), CandidateError>)
    ensures valid.Ok? <==> FitsSpec(candidate, spec)
    ensures valid.Err? ==>
      match valid.error
      case MissingRequiredOutput(slot) =>
        && !Supplies(candidate, slot)
        && exists i :: 0 <= i < |spec.outputs| && spec.outputs[i].name == slot && spec.outputs[i].required
             && AllSupplied(candidate, spec.outputs[..i])
      case UndeclaredOutputSlot(slot) =>
        && AllSupplied(candidate, spec.outputs) && NotNamed(spec.outputs, slot)
        && exists i :: 0 <= i < |candidate.outputs| && candidate.outputs[i].slot == slot
             && AllDeclared(candidate.outputs[..i], spec)
      case _ => false
  {
    for i := 0 to |spec.outputs|
      invariant forall k | 0 <= k < i && spec.outputs[k].required :: Supplies(candidate, spec.outputs[k].name)
    {
      if spec.outputs[i].required && !Supplies(candidate, spec.outputs[i].name) {
        assert AllSupplied(candidate, spec.outputs[..i]);
        return Err(MissingRequiredOutput(spec.outputs[i].name));
      }
    }
    for i := 0 to |candidate.outputs|
      invariant forall k | 0 <= k < i :: Declared(spec.outputs, candidate.outputs[k].slot).Some?
    {
      if Declared(spec.outputs, candidate.outputs[i].slot).None? {
        assert candidate.outputs[i] in candidate.outputs && AllDeclared(candidate.outputs[..i], spec);
        return Err(UndeclaredOutputSlot(candidate.outputs[i].slot));
      }
    }
    return Ok(());
  }
}
