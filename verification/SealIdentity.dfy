/** The command identities a seal derives from its request, its step and the authority it claims. */
module SealIdentity {
  import Canonical

  type Text = string

  const MAX_COMMAND_ID := 128

  /** A claimed Run and the status revision it was read at. */
  datatype Authority = Authority(run: Text, revision: nat)

  datatype Operation =
    | Freeze(revision: nat, authority: Authority)
    | Validate(revision: nat, authority: Authority)
    | Publish(revision: nat, authority: Authority)
    | Failure(revision: nat)

  /** Identifiers the store draws: no colon, no at sign. */
  predicate Plain(id: Text) {
    ':' !in id && '@' !in id
  }

  function Tag(authority: Authority): Text {
    authority.run + (['@'] + Canonical.Natural(authority.revision))
  }

  function Label(operation: Operation): Text {
    match operation
    case Freeze(_, _) => "freeze"
    case Validate(_, _) => "validated"
    case Publish(_, _) => "sealed"
    case Failure(_) => "capture-failed"
  }

  /** The Event a step is journaled as. */
  function EventType(operation: Operation): (eventType: Text)
    ensures 1 <= |eventType| <= 128
  {
    match operation
    case Freeze(_, _) => "workspace.frozen"
    case Validate(_, _) => "workspace.seal-authority.validated"
    case Publish(_, _) => "workspace.sealed"
    case Failure(_) => "workspace.capture-failed"
  }

  function Facts(operation: Operation): Text {
    Canonical.Natural(operation.revision) + if operation.Failure? then [] else [':'] + Tag(operation.authority)
  }

  /** `internal_command_id` and `derive`. */
  function Derived(attempt: Text, short: Text, operation: Operation): Text {
    "acs:" + (attempt + ([':'] + (short + ([':'] + ("seal:" + (Label(operation) + ([':'] + Facts(operation))))))))
  }

  lemma MarkInside(a: Text, b: Text, r: Text, s: Text, mark: char)
    requires a + ([mark] + r) == b + s && |a| < |b|
    ensures mark in b
  {
    assert (a + ([mark] + r))[|a|] == mark && (b + s)[|a|] == b[|a|];
  }

  /** A text is cut at its first mark in one way. */
  lemma FirstMark(a: Text, b: Text, r: Text, s: Text, mark: char)
    requires a + ([mark] + r) == b + ([mark] + s) && mark !in a && mark !in b
    ensures a == b && r == s
  {
    if |a| < |b| { MarkInside(a, b, r, [mark] + s, mark); }
    if |b| < |a| { MarkInside(b, a, s, [mark] + r, mark); }
    Canonical.Cut(a, [mark] + r);
    Canonical.Cut(b, [mark] + s);
    Canonical.Cut([mark], r);
    Canonical.Cut([mark], s);
  }

  lemma NaturalPlain(n: nat)
    ensures Plain(Canonical.Natural(n)) && Canonical.NaturalOf(Canonical.Natural(n)) == n
  {
    Canonical.NaturalRead(n);
  }

  lemma TagInjective(a: Authority, b: Authority)
    requires Plain(a.run) && Plain(b.run) && Tag(a) == Tag(b)
    ensures a == b
  {
    FirstMark(a.run, b.run, Canonical.Natural(a.revision), Canonical.Natural(b.revision), '@');
    NaturalPlain(a.revision);
    NaturalPlain(b.revision);
  }

  lemma LabelInjective(a: Operation, b: Operation)
    ensures ':' !in Label(a)
    ensures Label(a) == Label(b) ==>
      && (a.Freeze? <==> b.Freeze?) && (a.Validate? <==> b.Validate?)
      && (a.Publish? <==> b.Publish?) && (a.Failure? <==> b.Failure?)
  {
    if Label(a) == Label(b) { assert Label(a)[0] == Label(b)[0]; }
  }

  ghost predicate PlainOperation(operation: Operation) {
    operation.Failure? || Plain(operation.authority.run)
  }

  lemma FactsInjective(a: Operation, b: Operation)
    requires (a.Failure? <==> b.Failure?) && PlainOperation(a) && PlainOperation(b) && Facts(a) == Facts(b)
    ensures a.revision == b.revision && (a.Failure? || a.authority == b.authority)
  {
    NaturalPlain(a.revision);
    NaturalPlain(b.revision);
    if a.Failure? {
      assert Facts(a) == Canonical.Natural(a.revision) && Facts(b) == Canonical.Natural(b.revision);
    } else {
      FirstMark(Canonical.Natural(a.revision), Canonical.Natural(b.revision), Tag(a.authority), Tag(b.authority), ':');
      TagInjective(a.authority, b.authority);
    }
  }

  lemma OperationInjective(a: Operation, b: Operation)
    requires PlainOperation(a) && PlainOperation(b)
    requires Label(a) + ([':'] + Facts(a)) == Label(b) + ([':'] + Facts(b))
    ensures a == b
  {
    LabelInjective(a, b);
    LabelInjective(b, a);
    FirstMark(Label(a), Label(b), Facts(a), Facts(b), ':');
    FactsInjective(a, b);
  }

  lemma OpeningCut(opening: Text, a: Text, b: Text)
    requires opening + a == opening + b
    ensures a == b
  {
    Canonical.Cut(opening, a);
    Canonical.Cut(opening, b);
  }

  /** Two steps share a command identity only when they are the same step of the same request under
      the same claimed authority: other authority executes afresh and is validated afresh. */
  lemma DerivedInjective(attempt: Text, short: Text, a: Operation, attempt': Text, short': Text, b: Operation)
    requires Plain(attempt) && Plain(attempt') && Plain(short) && Plain(short')
    requires PlainOperation(a) && PlainOperation(b)
    requires Derived(attempt, short, a) == Derived(attempt', short', b)
    ensures attempt == attempt' && short == short' && a == b
  {
    var x, y := Label(a) + ([':'] + Facts(a)), Label(b) + ([':'] + Facts(b));
    var u, v := short + ([':'] + ("seal:" + x)), short' + ([':'] + ("seal:" + y));
    OpeningCut("acs:", attempt + ([':'] + u), attempt' + ([':'] + v));
    FirstMark(attempt, attempt', u, v, ':');
    FirstMark(short, short', "seal:" + x, "seal:" + y, ':');
    OpeningCut("seal:", x, y);
    OperationInjective(a, b);
  }
}
