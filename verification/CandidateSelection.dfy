/** Routing one Task: validating backend offers, comparing the resulting candidates and selecting
    one, independently of the order anything arrived in.

    Digests are given by functions assumed collision-free (`CollisionFree`); their byte order is
    whatever it is. String lists that the source sorts and deduplicates before hashing are sets in
    the hashed value. */
module CandidateSelection {
  import opened ByteOrder
  import opened Wrappers
  import opened Sorting

  type Text = Bytes

  datatype Agent = Agent(name: Text, version: nat)

  datatype RoutePolicy = RoutePolicy(name: Text, priority: int, ordering: seq<Text>, tieBreak: Text)

  datatype LaunchSemantics = KeyedIdempotent | Observational

  datatype LaunchSafety = KeyedRequired | ObservationalAllowed

  datatype Request = Request(
    task: Text, agent: Agent, policyDigest: Bytes, profileDigest: Bytes,
    features: set<Text>, minContext: int, placement: set<Text>, isolation: set<Text>,
    launchSafety: LaunchSafety, resources: seq<(Text, int)>)

  datatype Descriptor = Descriptor(
    backend: Text, revision: nat, available: bool, features: set<Text>, capacity: int,
    placement: set<Text>, isolation: set<Text>, resources: seq<(Text, int)>, launch: LaunchSemantics)

  datatype Offer = Offer(
    requestDigest: Bytes, backend: Text, revision: nat, descriptorDigest: Bytes,
    features: seq<Text>, capacity: int, placement: seq<Text>, isolation: seq<Text>,
    resources: seq<(Text, int)>, launch: LaunchSemantics, reference: Text)

  /** What an offer's digest is taken over: lists lose order and repetition. */
  datatype OfferValue = OfferValue(
    requestDigest: Bytes, backend: Text, revision: nat, descriptorDigest: Bytes,
    features: set<Text>, capacity: int, placement: set<Text>, isolation: set<Text>,
    resources: multiset<(Text, int)>, launch: LaunchSemantics, reference: Text)

  datatype ResolvedAgent = ResolvedAgent(identity: Agent, policy: RoutePolicy)

  datatype Safety = Safety(isolation: set<Text>, observationalSafe: bool)

  datatype ExecutionCandidate =
    ExecutionCandidate(agent: Agent, requestDigest: Bytes, offer: Offer, policy: RoutePolicy, profileDigest: Bytes)

  datatype Digests = Digests(
    request: Request -> Bytes, offer: OfferValue -> Bytes, policy: RoutePolicy -> Bytes,
    descriptor: Descriptor -> Bytes)

  ghost predicate CollisionFree(h: Digests) {
    && (forall a, b :: h.request(a) == h.request(b) ==> a == b)
    && (forall a, b :: h.offer(a) == h.offer(b) ==> a == b)
    && (forall a, b :: h.policy(a) == h.policy(b) ==> a == b)
    && (forall a, b :: h.descriptor(a) == h.descriptor(b) ==> a == b)
  }

  function ValueOf(o: Offer): OfferValue {
    OfferValue(o.requestDigest, o.backend, o.revision, o.descriptorDigest, (set f | f in o.features), o.capacity,
               (set p | p in o.placement), (set i | i in o.isolation), multiset(o.resources), o.launch, o.reference)
  }

  function OfferDigest(h: Digests, o: Offer): Bytes {
    h.offer(ValueOf(o))
  }

  // ---------------------------------------------------------------- validation

  datatype Rejection =
    | BackendDisabled | BackendUnavailable | BackendMismatch | DescriptorRevisionMismatch | OfferRequestMismatch
    | RoutePolicyMismatch | MissingExecutionFeatures | ContextCapacityTooSmall | PlacementIncompatible
    | IsolationNotProven | LaunchSemanticsMismatch | UnsafeLaunchSemantics | ResourceIncompatible

  /** `registration` is what the configuration says of the backend: enabled or not, if it is known. */
  datatype Backend = Backend(descriptor: Descriptor, registration: Option<bool>, safety: Safety,
      offers: Request -> Result<seq<Offer>, int>)

  predicate Enabled(b: Backend) {
    b.registration == Some(true)
  }

  /** The first quantity listed under a name. */
  function Quantity(resources: seq<(Text, int)>, name: Text): Option<int> {
    if resources == [] then None
    else if resources[0].0 == name then Some(resources[0].1)
    else Quantity(resources[1..], name)
  }

  predicate Supplies(resources: seq<(Text, int)>, required: (Text, int)) {
    var offered := Quantity(resources, required.0);
    offered.Some? && offered.value >= required.1
  }

  /** What is supplied under a name is the first quantity listed there; a later one is not looked at. */
  lemma {:induction false} FirstQuantity(resources: seq<(Text, int)>, name: Text) returns (i: nat)
    ensures i <= |resources| && forall j | 0 <= j < i :: resources[j].0 != name
    ensures if i == |resources| then Quantity(resources, name) == None
      else resources[i].0 == name && Quantity(resources, name) == Some(resources[i].1)
  {
    i := 0;
    if resources != [] && resources[0].0 != name {
      var k := FirstQuantity(resources[1..], name);
      i := k + 1;
      assert forall j | 1 <= j < i :: resources[j] == resources[1..][j - 1];
    }
  }

  /** Everything a candidate must satisfy. */
  ghost predicate Compatible(h: Digests, r: Request, a: ResolvedAgent, b: Backend, o: Offer) {
    var d := b.descriptor;
    && Enabled(b) && d.available
    && d.backend == o.backend && d.revision == o.revision && h.descriptor(d) == o.descriptorDigest
    && h.request(r) == o.requestDigest
    && a.identity == r.agent && h.policy(a.policy) == r.policyDigest
    && r.features <= d.features && (forall f | f in r.features :: f in o.features)
    && d.capacity >= r.minContext && o.capacity >= r.minContext
    && r.placement <= d.placement && (forall p | p in r.placement :: p in o.placement)
    && (forall i | i in r.isolation :: i in b.safety.isolation && i in d.isolation && i in o.isolation)
    && d.launch == o.launch
    && (r.launchSafety.KeyedRequired? ==> o.launch.KeyedIdempotent?)
    && (r.launchSafety.ObservationalAllowed? && o.launch.Observational? ==> b.safety.observationalSafe)
    && (forall q | q in r.resources :: Supplies(d.resources, q) && Supplies(o.resources, q))
  }

  /** What each reason to reject an offer means. */
  ghost predicate Applies(h: Digests, r: Request, a: ResolvedAgent, b: Backend, o: Offer, reason: Rejection) {
    var d := b.descriptor;
    match reason
    case BackendDisabled => b.registration != Some(true)
    case BackendUnavailable => !d.available
    case BackendMismatch => d.backend != o.backend
    case DescriptorRevisionMismatch => d.revision != o.revision || h.descriptor(d) != o.descriptorDigest
    case OfferRequestMismatch => h.request(r) != o.requestDigest
    case RoutePolicyMismatch => a.identity != r.agent || h.policy(a.policy) != r.policyDigest
    case MissingExecutionFeatures => exists f :: f in r.features && (f !in d.features || f !in o.features)
    case ContextCapacityTooSmall => d.capacity < r.minContext || o.capacity < r.minContext
    case PlacementIncompatible => exists p :: p in r.placement && (p !in d.placement || p !in o.placement)
    case IsolationNotProven =>
      exists i :: i in r.isolation && (i !in b.safety.isolation || i !in d.isolation || i !in o.isolation)
    case LaunchSemanticsMismatch => d.launch != o.launch
    case UnsafeLaunchSemantics =>
      o.launch.Observational? && (r.launchSafety.KeyedRequired? || !b.safety.observationalSafe)
    case ResourceIncompatible =>
      exists q :: q in r.resources && !(Supplies(d.resources, q) && Supplies(o.resources, q))
  }

  /** The place of each reason in the order the checks are made. */
  function Rank(reason: Rejection): nat {
    match reason
    case BackendDisabled => 0
    case BackendUnavailable => 1
    case BackendMismatch => 2
    case DescriptorRevisionMismatch => 3
    case OfferRequestMismatch => 4
    case RoutePolicyMismatch => 5
    case MissingExecutionFeatures => 6
    case ContextCapacityTooSmall => 7
    case PlacementIncompatible => 8
    case IsolationNotProven => 9
    case LaunchSemanticsMismatch => 10
    case UnsafeLaunchSemantics => 11
    case ResourceIncompatible => 12
  }

  /** An offer is compatible exactly when no reason to reject it applies. */
  lemma CompatibleIff(h: Digests, r: Request, a: ResolvedAgent, b: Backend, o: Offer)
    ensures Compatible(h, r, a, b, o) <==> forall reason :: !Applies(h, r, a, b, o, reason)
  {
    if forall reason :: !Applies(h, r, a, b, o, reason) {
      assert !Applies(h, r, a, b, o, BackendDisabled) && !Applies(h, r, a, b, o, BackendUnavailable);
      assert !Applies(h, r, a, b, o, BackendMismatch) && !Applies(h, r, a, b, o, DescriptorRevisionMismatch);
      assert !Applies(h, r, a, b, o, OfferRequestMismatch) && !Applies(h, r, a, b, o, RoutePolicyMismatch);
      assert !Applies(h, r, a, b, o, MissingExecutionFeatures) && !Applies(h, r, a, b, o, ContextCapacityTooSmall);
      assert !Applies(h, r, a, b, o, PlacementIncompatible) && !Applies(h, r, a, b, o, IsolationNotProven);
      assert !Applies(h, r, a, b, o, LaunchSemanticsMismatch) && !Applies(h, r, a, b, o, UnsafeLaunchSemantics);
      assert !Applies(h, r, a, b, o, ResourceIncompatible);
    }
  }

  /** `validate_execution_candidate`: a compatible offer becomes a candidate, any other is rejected for the
      first reason that applies. */
  method ValidateCandidate(h: Digests, r: Request, a: ResolvedAgent, b: Backend, o: Offer)
    returns (validated: Result<ExecutionCandidate, Rejection>)
    ensures validated.Ok? <==> Compatible(h, r, a, b, o)
    ensures validated.Err? ==>
      && Applies(h, r, a, b, o, validated.error)
      && forall reason | Rank(reason) < Rank(validated.error) :: !Applies(h, r, a, b, o, reason)
    ensures validated.Ok? ==> validated.value == CandidateOf(h, r, a, o)
  {
    var d := b.descriptor;
    if !Enabled(b) { return Err(BackendDisabled); }
    if !d.available { return Err(BackendUnavailable); }
    if d.backend != o.backend { return Err(BackendMismatch); }
    if d.revision != o.revision { return Err(DescriptorRevisionMismatch); }
    if h.descriptor(d) != o.descriptorDigest { return Err(DescriptorRevisionMismatch); }
    if h.request(r) != o.requestDigest { return Err(OfferRequestMismatch); }
    if a.identity != r.agent || h.policy(a.policy) != r.policyDigest { return Err(RoutePolicyMismatch); }
    if !(r.features <= d.features) { return Err(MissingExecutionFeatures); }
    if exists f :: f in r.features && f !in o.features { return Err(MissingExecutionFeatures); }
    if d.capacity < r.minContext || o.capacity < r.minContext { return Err(ContextCapacityTooSmall); }
    if !(r.placement <= d.placement) { return Err(PlacementIncompatible); }
    if exists p :: p in r.placement && p !in o.placement { return Err(PlacementIncompatible); }
    if exists i :: i in r.isolation && (i !in b.safety.isolation || i !in d.isolation || i !in o.isolation) {
      return Err(IsolationNotProven);
    }
    if d.launch != o.launch { return Err(LaunchSemanticsMismatch); }
    if r.launchSafety.KeyedRequired? && !o.launch.KeyedIdempotent? { return Err(UnsafeLaunchSemantics); }
    if r.launchSafety.ObservationalAllowed? && o.launch.Observational? && !b.safety.observationalSafe {
      return Err(UnsafeLaunchSemantics);
    }
    for k := 0 to |r.resources|
      invariant forall i | 0 <= i < k :: Supplies(d.resources, r.resources[i]) && Supplies(o.resources, r.resources[i])
    {
      if !Supplies(d.resources, r.resources[k]) || !Supplies(o.resources, r.resources[k]) {
        assert r.resources[k] in r.resources;
        return Err(ResourceIncompatible);
      }
    }
    return Ok(CandidateOf(h, r, a, o));
  }

  function CandidateOf(h: Digests, r: Request, a: ResolvedAgent, o: Offer): ExecutionCandidate {
    ExecutionCandidate(a.identity, h.request(r), o, a.policy, r.profileDigest)
  }

  // ---------------------------------------------------------------- comparison

  function IntCmp(a: int, b: int): int {
    if a < b then -1 else if a == b then 0 else 1
  }

  function ByteCmp(a: Bytes, b: Bytes): int {
    if a == b then 0 else if Le(a, b) then -1 else 1
  }

  function Then(first: int, second: int): int {
    if first != 0 then first else second
  }

  /** "contextCapacity" and the two known tie-breaks, as bytes of their names. */
  datatype Vocabulary = Vocabulary(contextCapacity: Text, backendId: Text, agentId: Text)

  const WORDS := Vocabulary([99, 111, 110, 116, 101, 120, 116, 67, 97, 112, 97, 99, 105, 116, 121],
                            [98, 97, 99, 107, 101, 110, 100, 73, 100],
                            [97, 103, 101, 110, 116, 73, 100])

  /** The loop over the configured ordering keys; unknown keys decide nothing. */
  function OrderingCmp(ordering: seq<Text>, a: ExecutionCandidate, b: ExecutionCandidate): int {
    if ordering == [] then 0
    else
      var order := if ordering[0] == WORDS.contextCapacity then IntCmp(b.offer.capacity, a.offer.capacity) else 0;
      if order != 0 then order else OrderingCmp(ordering[1..], a, b)
  }

  function AgentCmp(a: ExecutionCandidate, b: ExecutionCandidate): int {
    Then(ByteCmp(a.agent.name, b.agent.name), IntCmp(a.agent.version, b.agent.version))
  }

  function BackendCmp(a: ExecutionCandidate, b: ExecutionCandidate): int {
    ByteCmp(a.offer.backend, b.offer.backend)
  }

  function TieCmp(tieBreak: Text, a: ExecutionCandidate, b: ExecutionCandidate): int {
    if tieBreak == WORDS.backendId then BackendCmp(a, b)
    else if tieBreak == WORDS.agentId then AgentCmp(a, b)
    else 0
  }

  function RevisionDigestCmp(h: Digests, a: ExecutionCandidate, b: ExecutionCandidate): int {
    Then(IntCmp(a.offer.revision, b.offer.revision), ByteCmp(OfferDigest(h, a.offer), OfferDigest(h, b.offer)))
  }

  function IdentityCmp(h: Digests, a: ExecutionCandidate, b: ExecutionCandidate): int {
    Then(AgentCmp(a, b), Then(BackendCmp(a, b), RevisionDigestCmp(h, a, b)))
  }

  /** What a policy decides between two candidates that both carry it. */
  function PolicyCmp(h: Digests, p: RoutePolicy, a: ExecutionCandidate, b: ExecutionCandidate): int {
    Then(OrderingCmp(p.ordering, a, b), Then(TieCmp(p.tieBreak, a, b), IdentityCmp(h, a, b)))
  }

  /** `compare_candidates`. The left candidate's policy is the one consulted. */
  function Compare(h: Digests, a: ExecutionCandidate, b: ExecutionCandidate): int {
    Then(IntCmp(b.policy.priority, a.policy.priority),
         if a.policy.name != b.policy.name then ByteCmp(a.policy.name, b.policy.name) else PolicyCmp(h, a.policy, a, b))
  }

  // ---------------------------------------------------------------- comparisons that are orders

  /** A three-way comparison: signs mirror, and `<= 0` is transitive. */
  ghost predicate Comparison<T(!new)>(f: (T, T) -> int) {
    && (forall a, b :: f(a, b) == -f(b, a) && -1 <= f(a, b) <= 1)
    && (forall a, b, c :: f(a, b) <= 0 && f(b, c) <= 0 ==> f(a, c) <= 0)
  }

  /** One comparison refined by another is a comparison. */
  lemma Refined<T(!new)>(f: (T, T) -> int, g: (T, T) -> int, fg: (T, T) -> int)
    requires Comparison(f) && Comparison(g)
    requires forall a, b :: fg(a, b) == Then(f(a, b), g(a, b))
    ensures Comparison(fg)
  {
  }

  lemma ByteComparison()
    ensures Comparison(ByteCmp) && Comparison(IntCmp)
  {
    LeIsTotalOrder();
  }

  lemma AgentComparison()
    ensures Comparison(AgentCmp) && Comparison(BackendCmp)
  {
    ByteComparison();
    var names := (a: ExecutionCandidate, b: ExecutionCandidate) => ByteCmp(a.agent.name, b.agent.name);
    var versions := (a: ExecutionCandidate, b: ExecutionCandidate) => IntCmp(a.agent.version, b.agent.version);
    assert Comparison(names) && Comparison(versions);
    Refined(names, versions, AgentCmp);
  }

  lemma IdentityComparison(h: Digests)
    ensures Comparison((a, b) => IdentityCmp(h, a, b))
  {
    ByteComparison();
    AgentComparison();
    var revisions := (a: ExecutionCandidate, b: ExecutionCandidate) => IntCmp(a.offer.revision, b.offer.revision);
    var digests := (a: ExecutionCandidate, b: ExecutionCandidate) =>
      ByteCmp(OfferDigest(h, a.offer), OfferDigest(h, b.offer));
    var last := (a: ExecutionCandidate, b: ExecutionCandidate) => RevisionDigestCmp(h, a, b);
    assert Comparison(revisions) && Comparison(digests);
    Refined(revisions, digests, last);
    var tail := (a: ExecutionCandidate, b: ExecutionCandidate) => Then(BackendCmp(a, b), RevisionDigestCmp(h, a, b));
    Refined(BackendCmp, last, tail);
    Refined(AgentCmp, tail, (a, b) => IdentityCmp(h, a, b));
  }

  lemma {:induction false} OrderingIsCapacity(ordering: seq<Text>, a: ExecutionCandidate, b: ExecutionCandidate)
    ensures OrderingCmp(ordering, a, b) == if WORDS.contextCapacity in ordering
      then IntCmp(b.offer.capacity, a.offer.capacity) else 0
  {
    if ordering != [] {
      OrderingIsCapacity(ordering[1..], a, b);
    }
  }

  lemma PolicyComparison(h: Digests, p: RoutePolicy)
    ensures Comparison((a, b) => PolicyCmp(h, p, a, b))
  {
    AgentComparison();
    IdentityComparison(h);
    var ordering := (a: ExecutionCandidate, b: ExecutionCandidate) => OrderingCmp(p.ordering, a, b);
    var tie := (a: ExecutionCandidate, b: ExecutionCandidate) => TieCmp(p.tieBreak, a, b);
    var identity := (a: ExecutionCandidate, b: ExecutionCandidate) => IdentityCmp(h, a, b);
    forall a, b ensures ordering(a, b) == if WORDS.contextCapacity in p.ordering
      then IntCmp(b.offer.capacity, a.offer.capacity) else 0 {
      OrderingIsCapacity(p.ordering, a, b);
    }
    assert Comparison(ordering) && Comparison(tie);
    var tail := (a: ExecutionCandidate, b: ExecutionCandidate) => Then(TieCmp(p.tieBreak, a, b), IdentityCmp(h, a, b));
    Refined(tie, identity, tail);
    Refined(ordering, tail, (a, b) => PolicyCmp(h, p, a, b));
  }

  // ---------------------------------------------------------------- exactly when it is an order

  /** The two things a policy can still decide between candidates of its name and priority: whether
      capacity counts, and whether the backend is asked before the agent. An agent tie-break decides
      what the identity comparison decides anyway. */
  predicate SameRule(p: RoutePolicy, q: RoutePolicy) {
    && (WORDS.contextCapacity in p.ordering <==> WORDS.contextCapacity in q.ordering)
    && (p.tieBreak == WORDS.backendId <==> q.tieBreak == WORDS.backendId)
  }

  predicate Alike(p: RoutePolicy, q: RoutePolicy) {
    p.name == q.name && p.priority == q.priority
  }

  /** Policies of one name and priority have one rule. */
  ghost predicate RulesAgree(policies: set<RoutePolicy>) {
    forall p, q | p in policies && q in policies && Alike(p, q) :: SameRule(p, q)
  }

  ghost function PoliciesOf(candidates: seq<ExecutionCandidate>): set<RoutePolicy> {
    set c | c in candidates :: c.policy
  }

  lemma SameRuleSameComparison(h: Digests, p: RoutePolicy, q: RoutePolicy, a: ExecutionCandidate, b: ExecutionCandidate)
    requires SameRule(p, q)
    ensures PolicyCmp(h, p, a, b) == PolicyCmp(h, q, a, b)
  {
    OrderingIsCapacity(p.ordering, a, b);
    OrderingIsCapacity(q.ordering, a, b);
  }

  /** The signs of a comparison mirror under agreeing rules. */
  lemma CompareMirrors(h: Digests, policies: set<RoutePolicy>, a: ExecutionCandidate, b: ExecutionCandidate)
    requires RulesAgree(policies) && a.policy in policies && b.policy in policies
    ensures Compare(h, a, b) == -Compare(h, b, a)
  {
    ByteComparison();
    if Alike(a.policy, b.policy) {
      SameRuleSameComparison(h, a.policy, b.policy, b, a);
      PolicyComparison(h, a.policy);
      var policy := (x: ExecutionCandidate, y: ExecutionCandidate) => PolicyCmp(h, a.policy, x, y);
      assert Comparison(policy) && policy(a, b) == -policy(b, a);
    }
  }

  lemma CompareChains(h: Digests, policies: set<RoutePolicy>, a: ExecutionCandidate, b: ExecutionCandidate,
      c: ExecutionCandidate)
    requires RulesAgree(policies) && a.policy in policies && b.policy in policies && c.policy in policies
    requires Compare(h, a, b) <= 0 && Compare(h, b, c) <= 0
    ensures Compare(h, a, c) <= 0
  {
    LeIsTotalOrder();
    if Alike(a.policy, b.policy) && Alike(b.policy, c.policy) {
      SameRuleSameComparison(h, a.policy, b.policy, b, c);
      PolicyComparison(h, a.policy);
      var policy := (x: ExecutionCandidate, y: ExecutionCandidate) => PolicyCmp(h, a.policy, x, y);
      assert Comparison(policy) && policy(a, b) <= 0 && policy(b, c) <= 0 && policy(a, c) <= 0;
    }
  }

  /** The comparison orders every set of candidates that carry these policies. */
  ghost predicate OrdersAll(h: Digests, policies: set<RoutePolicy>) {
    && (forall a: ExecutionCandidate, b: ExecutionCandidate | a.policy in policies && b.policy in policies ::
          Compare(h, a, b) == -Compare(h, b, a))
    && (forall a: ExecutionCandidate, b: ExecutionCandidate, c: ExecutionCandidate |
          a.policy in policies && b.policy in policies && c.policy in policies ::
          Compare(h, a, b) <= 0 && Compare(h, b, c) <= 0 ==> Compare(h, a, c) <= 0)
  }

  /** `compare_candidates` is a total preorder if and only if policies of one name and priority agree on
      whether capacity counts and on whether the backend breaks ties. */
  lemma ComparePreorderIff(h: Digests, policies: set<RoutePolicy>)
    ensures OrdersAll(h, policies) <==> RulesAgree(policies)
  {
    if RulesAgree(policies) {
      forall a: ExecutionCandidate, b: ExecutionCandidate | a.policy in policies && b.policy in policies
        ensures Compare(h, a, b) == -Compare(h, b, a)
      {
        CompareMirrors(h, policies, a, b);
      }
      forall a: ExecutionCandidate, b: ExecutionCandidate, c: ExecutionCandidate |
        a.policy in policies && b.policy in policies && c.policy in policies && Compare(h, a, b) <= 0
          && Compare(h, b, c) <= 0
        ensures Compare(h, a, c) <= 0
      {
        CompareChains(h, policies, a, b, c);
      }
    } else {
      var p, q :| p in policies && q in policies && Alike(p, q) && !SameRule(p, q);
      var a, b := Quarrel(h, p, q);
      assert Compare(h, a, b) != -Compare(h, b, a);
    }
  }

  /** One candidate per policy, given by what the comparison looks at. */
  function Bare(p: RoutePolicy, agent: byte, backend: byte, capacity: int): ExecutionCandidate {
    ExecutionCandidate(Agent([agent], 1), [],
      Offer([], [backend], 0, [], [], capacity, [], [], [], KeyedIdempotent, []), p, [])
  }

  /** The first of two policies counts capacity, the second does not: each candidate comes before the
      other. */
  lemma QuarrelOverCapacity(h: Digests, p: RoutePolicy, q: RoutePolicy)
    requires Alike(p, q) && WORDS.contextCapacity in p.ordering && WORDS.contextCapacity !in q.ordering
    ensures Compare(h, Bare(p, 2, 2, 10), Bare(q, 1, 1, 5)) == -1
    ensures Compare(h, Bare(q, 1, 1, 5), Bare(p, 2, 2, 10)) == -1
  {
    var a, b := Bare(p, 2, 2, 10), Bare(q, 1, 1, 5);
    OrderingIsCapacity(p.ordering, a, b);
    OrderingIsCapacity(q.ordering, b, a);
    assert ByteCmp([1], [2]) == -1;
  }

  /** Capacity decides for neither, but only the first breaks ties by backend. */
  lemma QuarrelOverBackend(h: Digests, p: RoutePolicy, q: RoutePolicy)
    requires Alike(p, q) && p.tieBreak == WORDS.backendId && q.tieBreak != WORDS.backendId
    ensures Compare(h, Bare(p, 2, 1, 5), Bare(q, 1, 2, 5)) == -1 && Compare(h, Bare(q, 1, 2, 5), Bare(p, 2, 1, 5)) == -1
  {
    var a, b := Bare(p, 2, 1, 5), Bare(q, 1, 2, 5);
    OrderingIsCapacity(p.ordering, a, b);
    OrderingIsCapacity(q.ordering, b, a);
    assert ByteCmp([1], [2]) == -1;
  }

  lemma Quarrel(h: Digests, p: RoutePolicy, q: RoutePolicy) returns (a: ExecutionCandidate, b: ExecutionCandidate)
    requires Alike(p, q) && !SameRule(p, q)
    ensures a.policy in {p, q} && b.policy in {p, q} && Compare(h, a, b) == -1 && Compare(h, b, a) == -1
  {
    if WORDS.contextCapacity in p.ordering && WORDS.contextCapacity !in q.ordering {
      QuarrelOverCapacity(h, p, q);
      a, b := Bare(p, 2, 2, 10), Bare(q, 1, 1, 5);
    } else if WORDS.contextCapacity in q.ordering && WORDS.contextCapacity !in p.ordering {
      QuarrelOverCapacity(h, q, p);
      a, b := Bare(q, 2, 2, 10), Bare(p, 1, 1, 5);
    } else if p.tieBreak == WORDS.backendId {
      QuarrelOverBackend(h, p, q);
      a, b := Bare(p, 2, 1, 5), Bare(q, 1, 2, 5);
    } else {
      QuarrelOverBackend(h, q, p);
      a, b := Bare(q, 2, 1, 5), Bare(p, 1, 2, 5);
    }
  }

  /** What a candidate's own digest is taken over. */
  function IdentityOf(h: Digests, c: ExecutionCandidate): (Agent, Bytes, Bytes, Bytes, Bytes) {
    (c.agent, c.requestDigest, OfferDigest(h, c.offer), h.policy(c.policy), c.profileDigest)
  }

  /** What validation leaves true of a candidate: its request is the one its offer answers. */
  ghost predicate Sourced(h: Digests, c: ExecutionCandidate, requests: seq<(ResolvedAgent, Request)>) {
    exists r :: r in requests && c.requestDigest == h.request(r.1) == c.offer.requestDigest
      && c.profileDigest == r.1.profileDigest && h.policy(c.policy) == r.1.policyDigest
  }

  /** Two offers that differ at most in how their lists are written. */
  ghost predicate SameTerms(a: Offer, b: Offer) {
    && a.requestDigest == b.requestDigest && a.backend == b.backend && a.revision == b.revision
    && a.descriptorDigest == b.descriptorDigest && a.capacity == b.capacity
    && a.launch == b.launch && a.reference == b.reference
    && (forall f :: f in a.features <==> f in b.features) && (forall p :: p in a.placement <==> p in b.placement)
    && (forall i :: i in a.isolation <==> i in b.isolation) && multiset(a.resources) == multiset(b.resources)
  }

  lemma SameValueSameTerms(a: Offer, b: Offer)
    requires ValueOf(a) == ValueOf(b)
    ensures SameTerms(a, b)
  {
    assert forall f :: f in a.features <==> f in ValueOf(a).features;
    assert forall f :: f in b.features <==> f in ValueOf(b).features;
    assert forall f :: f in a.placement <==> f in ValueOf(a).placement;
    assert forall f :: f in b.placement <==> f in ValueOf(b).placement;
    assert forall f :: f in a.isolation <==> f in ValueOf(a).isolation;
    assert forall f :: f in b.isolation <==> f in ValueOf(b).isolation;
  }

  /** Candidates that compare equal are the same candidate, as far as any digest can tell. */
  lemma EqualMeansSame(h: Digests, requests: seq<(ResolvedAgent, Request)>, a: ExecutionCandidate,
      b: ExecutionCandidate)
    requires CollisionFree(h) && Sourced(h, a, requests) && Sourced(h, b, requests) && Compare(h, a, b) == 0
    ensures IdentityOf(h, a) == IdentityOf(h, b) && a.policy == b.policy && SameTerms(a.offer, b.offer)
  {
    assert IdentityCmp(h, a, b) == 0;
    assert ValueOf(a.offer) == ValueOf(b.offer);
    SameValueSameTerms(a.offer, b.offer);
  }

  // ---------------------------------------------------------------- selection

  ghost predicate Least(h: Digests, candidates: seq<ExecutionCandidate>, c: ExecutionCandidate) {
    c in candidates && forall d | d in candidates :: Compare(h, c, d) <= 0
  }

  /** A candidate that beats the best so far is least among those seen. */
  lemma BetterThanAll(h: Digests, candidates: seq<ExecutionCandidate>, best: ExecutionCandidate, i: nat)
    requires RulesAgree(PoliciesOf(candidates)) && best in candidates && i < |candidates|
    requires Compare(h, best, candidates[i]) > 0
    requires forall k | 0 <= k < i :: Compare(h, best, candidates[k]) <= 0
    ensures forall k | 0 <= k <= i :: Compare(h, candidates[i], candidates[k]) <= 0
  {
    CompareMirrors(h, PoliciesOf(candidates), candidates[i], candidates[i]);
    CompareMirrors(h, PoliciesOf(candidates), best, candidates[i]);
    forall k | 0 <= k < i ensures Compare(h, candidates[i], candidates[k]) <= 0 {
      CompareChains(h, PoliciesOf(candidates), candidates[i], best, candidates[k]);
    }
  }

  /** No candidate has a higher priority, nor at this priority an earlier policy name. */
  ghost predicate Foremost(candidates: seq<ExecutionCandidate>, c: ExecutionCandidate) {
    && c in candidates
    && (forall d | d in candidates :: d.policy.priority <= c.policy.priority)
    && (forall d | d in candidates && d.policy.priority == c.policy.priority :: Le(c.policy.name, d.policy.name))
  }

  /** `d` has the policy name and priority of `c` and, when that policy counts capacity, its capacity. */
  ghost predicate TiesToCapacity(c: ExecutionCandidate, d: ExecutionCandidate) {
    && d.policy.priority == c.policy.priority && d.policy.name == c.policy.name
    && (WORDS.contextCapacity in c.policy.ordering ==> d.offer.capacity == c.offer.capacity)
  }

  /** And, when the policy breaks ties by backend, its backend. */
  ghost predicate TiesToBreak(c: ExecutionCandidate, d: ExecutionCandidate) {
    TiesToCapacity(c, d) && (c.policy.tieBreak == WORDS.backendId ==> d.offer.backend == c.offer.backend)
  }

  ghost predicate TiesToAgent(c: ExecutionCandidate, d: ExecutionCandidate) {
    TiesToBreak(c, d) && d.agent == c.agent
  }

  ghost predicate TiesToBackend(c: ExecutionCandidate, d: ExecutionCandidate) {
    TiesToAgent(c, d) && d.offer.backend == c.offer.backend
  }

  /** The preferred candidate, field by field: the highest priority, the first policy name, the greatest
      capacity when the policy counts it, the first backend when the policy breaks ties by it; then the
      first agent, the lowest version, the first backend, the lowest descriptor revision and the first
      offer digest. Breaking ties by agent asks for what comes next anyway. */
  ghost predicate Best(h: Digests, candidates: seq<ExecutionCandidate>, c: ExecutionCandidate) {
    && Foremost(candidates, c)
    && (forall d | d in candidates && d.policy.priority == c.policy.priority && d.policy.name == c.policy.name ::
          WORDS.contextCapacity in c.policy.ordering ==> d.offer.capacity <= c.offer.capacity)
    && (forall d | d in candidates && TiesToCapacity(c, d) ::
          c.policy.tieBreak == WORDS.backendId ==> Le(c.offer.backend, d.offer.backend))
    && (forall d | d in candidates && TiesToBreak(c, d) ::
          && Le(c.agent.name, d.agent.name)
          && (d.agent.name == c.agent.name ==> c.agent.version <= d.agent.version))
    && (forall d | d in candidates && TiesToAgent(c, d) :: Le(c.offer.backend, d.offer.backend))
    && (forall d | d in candidates && TiesToBackend(c, d) ::
          && c.offer.revision <= d.offer.revision
          && (d.offer.revision == c.offer.revision ==> Le(OfferDigest(h, c.offer), OfferDigest(h, d.offer))))
  }

  /** Being least under the comparison is being best on the fields. */
  lemma LeastIsBestIff(h: Digests, candidates: seq<ExecutionCandidate>, c: ExecutionCandidate)
    ensures Least(h, candidates, c) <==> Best(h, candidates, c)
  {
    LeIsTotalOrder();
    forall d ensures OrderingCmp(c.policy.ordering, c, d) == if WORDS.contextCapacity in c.policy.ordering
      then IntCmp(d.offer.capacity, c.offer.capacity) else 0 {
      OrderingIsCapacity(c.policy.ordering, c, d);
    }
  }

  /** `min_by`. Priority and policy name decide whatever the policies say; the rest is settled by the rule
      that policies of one name and priority share. */
  method SelectCandidate(h: Digests, candidates: seq<ExecutionCandidate>) returns (selected: Option<ExecutionCandidate>)
    ensures selected.None? <==> candidates == []
    ensures selected.Some? ==> Foremost(candidates, selected.value)
    ensures selected.Some? && RulesAgree(PoliciesOf(candidates)) ==> Best(h, candidates, selected.value)
  {
    if candidates == [] {
      return None;
    }
    var best := candidates[0];
    ghost var agree := RulesAgree(PoliciesOf(candidates));
    if agree { CompareMirrors(h, PoliciesOf(candidates), best, best); }
    CompareOutranks(h, best, best);
    for i := 1 to |candidates|
      invariant best in candidates
      invariant forall k | 0 <= k < i :: Outranks(best, candidates[k])
      invariant agree ==> forall k | 0 <= k < i :: Compare(h, best, candidates[k]) <= 0
    {
      CompareOutranks(h, best, candidates[i]);
      if Compare(h, best, candidates[i]) > 0 {
        if agree { BetterThanAll(h, candidates, best, i); }
        OutranksAll(candidates, best, i);
        best := candidates[i];
      }
    }
    if agree { LeastIsBestIff(h, candidates, best); }
    return Some(best);
  }

  ghost predicate Outranks(c: ExecutionCandidate, d: ExecutionCandidate) {
    d.policy.priority < c.policy.priority
    || (d.policy.priority == c.policy.priority && Le(c.policy.name, d.policy.name))
  }

  /** Whatever the policies say, the comparison never goes against priority and name. */
  lemma CompareOutranks(h: Digests, c: ExecutionCandidate, d: ExecutionCandidate)
    ensures if Compare(h, c, d) > 0 then Outranks(d, c) else Outranks(c, d)
  {
    LeIsTotalOrder();
  }

  lemma OutranksAll(candidates: seq<ExecutionCandidate>, best: ExecutionCandidate, i: nat)
    requires i < |candidates| && Outranks(candidates[i], best)
    requires forall k | 0 <= k < i :: Outranks(best, candidates[k])
    ensures forall k | 0 <= k <= i :: Outranks(candidates[i], candidates[k])
  {
    LeIsTotalOrder();
  }

  /** Whichever permutation of the candidates is searched, whatever is selected has the same digest. */
  lemma SelectionCanonical(h: Digests, candidates: seq<ExecutionCandidate>, permuted: seq<ExecutionCandidate>,
      requests: seq<(ResolvedAgent, Request)>, a: ExecutionCandidate, b: ExecutionCandidate)
    requires CollisionFree(h) && RulesAgree(PoliciesOf(candidates)) && multiset(candidates) == multiset(permuted)
    requires forall c | c in candidates :: Sourced(h, c, requests)
    requires Best(h, candidates, a) && Best(h, permuted, b)
    ensures IdentityOf(h, a) == IdentityOf(h, b) && a.policy == b.policy && SameTerms(a.offer, b.offer)
  {
    LeastIsBestIff(h, candidates, a);
    LeastIsBestIff(h, permuted, b);
    assert a in multiset(permuted) && b in multiset(candidates);
    CompareMirrors(h, PoliciesOf(candidates), a, b);
    EqualMeansSame(h, requests, a, b);
  }

  // ---------------------------------------------------------------- routing

  predicate BackendLe(a: Backend, b: Backend) {
    Lt(a.descriptor.backend, b.descriptor.backend)
    || (a.descriptor.backend == b.descriptor.backend && a.descriptor.revision <= b.descriptor.revision)
  }

  function BackendName(b: Backend): Text {
    b.descriptor.backend
  }

  datatype RoutingError =
    | DuplicateBackend(backend: Text) | UnregisteredBackend(backend: Text)
    | BackendOffer(backend: Text, code: int) | NoCompatibleOffers | RequestLost | StaleConfiguration

  type Requests = seq<(ResolvedAgent, Request)>

  /** One of the offers a backend makes for a request passes validation, as this candidate. Validation
      itself demands an enabled and available backend. */
  ghost predicate Yields(h: Digests, r: (ResolvedAgent, Request), b: Backend, c: ExecutionCandidate) {
    b.offers(r.1).Ok? && exists o ::
      o in b.offers(r.1).value && Compatible(h, r.1, r.0, b, o) && c == CandidateOf(h, r.1, r.0, o)
  }

  /** A candidate together with everything it was validated against. */
  ghost predicate Validated(h: Digests, requests: Requests, backends: seq<Backend>, c: ExecutionCandidate) {
    exists r, b :: r in requests && b in backends && Yields(h, r, b, c)
  }

  lemma ValidatedIsSourced(h: Digests, requests: seq<(ResolvedAgent, Request)>, backends: seq<Backend>,
      c: ExecutionCandidate)
    requires Validated(h, requests, backends, c)
    ensures Sourced(h, c, requests)
  {
  }

  /** Agents' policies of one name and priority have one rule, as they do when the configuration names
      each policy once. */
  ghost predicate AgentsAgree(requests: seq<(ResolvedAgent, Request)>) {
    forall r, s | r in requests && s in requests && Alike(r.0.policy, s.0.policy) :: SameRule(r.0.policy, s.0.policy)
  }

  type Collection = Result<seq<ExecutionCandidate>, RoutingError>

  function Joined(first: seq<ExecutionCandidate>, rest: Collection): Collection {
    if rest.Err? then rest else Ok(first + rest.value)
  }

  lemma JoinedLaws(a: seq<ExecutionCandidate>, b: seq<ExecutionCandidate>, rest: Collection)
    ensures Joined([], rest) == rest
    ensures Joined(a, Joined(b, rest)) == Joined(a + b, rest)
    ensures Joined(a, Ok([])) == Ok(a)
  {
    assert a + [] == a;
    if rest.Ok? {
      assert [] + rest.value == rest.value;
      assert a + (b + rest.value) == (a + b) + rest.value;
    }
  }

  /** The offers that validate, in the order they came. */
  ghost function Passing(h: Digests, r: (ResolvedAgent, Request), b: Backend, offers: seq<Offer>)
    : seq<ExecutionCandidate>
  {
    if offers == [] then []
    else
      var first := if Compatible(h, r.1, r.0, b, offers[0]) then [CandidateOf(h, r.1, r.0, offers[0])] else [];
      first + Passing(h, r, b, offers[1..])
  }

  /** What one backend contributes to one request; a disabled or unavailable one is not asked. */
  ghost function FromBackend(h: Digests, r: (ResolvedAgent, Request), b: Backend): Collection {
    if !Enabled(b) || !b.descriptor.available then Ok([])
    else if b.offers(r.1).Err? then Err(BackendOffer(BackendName(b), b.offers(r.1).error))
    else Ok(Passing(h, r, b, b.offers(r.1).value))
  }

  ghost function FromBackends(h: Digests, r: (ResolvedAgent, Request), backends: seq<Backend>): Collection {
    if backends == [] then Ok([])
    else
      var first := FromBackend(h, r, backends[0]);
      if first.Err? then first else Joined(first.value, FromBackends(h, r, backends[1..]))
  }

  ghost function FromRequests(h: Digests, requests: seq<(ResolvedAgent, Request)>, backends: seq<Backend>): Collection {
    if requests == [] then Ok([])
    else
      var first := FromBackends(h, requests[0], backends);
      if first.Err? then first else Joined(first.value, FromRequests(h, requests[1..], backends))
  }

  method CollectFromBackend(h: Digests, r: (ResolvedAgent, Request), b: Backend) returns (collected: Collection)
    ensures collected == FromBackend(h, r, b)
  {
    if !Enabled(b) || !b.descriptor.available {
      return Ok([]);
    }
    var answer := b.offers(r.1);
    if answer.Err? {
      return Err(BackendOffer(b.descriptor.backend, answer.error));
    }
    var candidates := [];
    for k := 0 to |answer.value|
      invariant Passing(h, r, b, answer.value) == candidates + Passing(h, r, b, answer.value[k..])
    {
      assert answer.value[k..][0] == answer.value[k] && answer.value[k..][1..] == answer.value[k + 1..];
      var validated := ValidateCandidate(h, r.1, r.0, b, answer.value[k]);
      if validated.Ok? {
        candidates := candidates + [validated.value];
      }
    }
    assert candidates + [] == candidates;
    return Ok(candidates);
  }

  method CollectFromBackends(h: Digests, r: (ResolvedAgent, Request), backends: seq<Backend>)
    returns (collected: Collection)
    ensures collected == FromBackends(h, r, backends)
  {
    var candidates := [];
    JoinedLaws([], [], FromBackends(h, r, backends));
    assert backends[0..] == backends;
    for k := 0 to |backends|
      invariant FromBackends(h, r, backends) == Joined(candidates, FromBackends(h, r, backends[k..]))
    {
      assert backends[k..][0] == backends[k] && backends[k..][1..] == backends[k + 1..];
      var more := CollectFromBackend(h, r, backends[k]);
      if more.Err? {
        return more;
      }
      JoinedLaws(candidates, more.value, FromBackends(h, r, backends[k + 1..]));
      candidates := candidates + more.value;
    }
    JoinedLaws(candidates, [], Ok([]));
    return Ok(candidates);
  }

  /** The nested loops of `route_ready_task` over requests and sorted backends. */
  method Collect(h: Digests, requests: seq<(ResolvedAgent, Request)>, backends: seq<Backend>)
    returns (collected: Collection)
    ensures collected == FromRequests(h, requests, backends)
  {
    var candidates := [];
    JoinedLaws([], [], FromRequests(h, requests, backends));
    assert requests[0..] == requests;
    for k := 0 to |requests|
      invariant FromRequests(h, requests, backends) == Joined(candidates, FromRequests(h, requests[k..], backends))
    {
      assert requests[k..][0] == requests[k] && requests[k..][1..] == requests[k + 1..];
      var more := CollectFromBackends(h, requests[k], backends);
      if more.Err? {
        return more;
      }
      JoinedLaws(candidates, more.value, FromRequests(h, requests[k + 1..], backends));
      candidates := candidates + more.value;
    }
    JoinedLaws(candidates, [], Ok([]));
    return Ok(candidates);
  }

  lemma {:induction false} PassingExactly(h: Digests, r: (ResolvedAgent, Request), b: Backend, offers: seq<Offer>,
      c: ExecutionCandidate)
    ensures c in Passing(h, r, b, offers) <==>
      exists o :: o in offers && Compatible(h, r.1, r.0, b, o) && c == CandidateOf(h, r.1, r.0, o)
  {
    if offers != [] {
      PassingExactly(h, r, b, offers[1..], c);
      assert forall o :: o in offers <==> o == offers[0] || o in offers[1..];
    }
  }

  lemma FromBackendExactly(h: Digests, r: (ResolvedAgent, Request), b: Backend, c: ExecutionCandidate)
    requires FromBackend(h, r, b).Ok?
    ensures c in FromBackend(h, r, b).value <==> Yields(h, r, b, c)
  {
    if b.offers(r.1).Ok? { PassingExactly(h, r, b, b.offers(r.1).value, c); }
  }

  lemma {:induction false} FromBackendsExactly(h: Digests, r: (ResolvedAgent, Request), backends: seq<Backend>,
      c: ExecutionCandidate)
    requires FromBackends(h, r, backends).Ok?
    ensures c in FromBackends(h, r, backends).value <==> exists b :: b in backends && Yields(h, r, b, c)
  {
    if backends != [] {
      FromBackendExactly(h, r, backends[0], c);
      FromBackendsExactly(h, r, backends[1..], c);
      assert forall b :: b in backends <==> b == backends[0] || b in backends[1..];
    }
  }

  lemma {:induction false} RequestsExactly(h: Digests, requests: Requests, backends: seq<Backend>,
      c: ExecutionCandidate)
    requires FromRequests(h, requests, backends).Ok?
    ensures c in FromRequests(h, requests, backends).value <==> Validated(h, requests, backends, c)
  {
    if requests != [] {
      FromBackendsExactly(h, requests[0], backends, c);
      RequestsExactly(h, requests[1..], backends, c);
      assert forall r :: r in requests <==> r == requests[0] || r in requests[1..];
    }
  }

  /** When no backend fails, exactly the offers that validate are collected: for every request, every
      enabled and available backend and every compatible offer it makes. */
  lemma CollectedExactly(h: Digests, requests: Requests, backends: seq<Backend>)
    requires FromRequests(h, requests, backends).Ok?
    ensures forall c :: c in FromRequests(h, requests, backends).value <==> Validated(h, requests, backends, c)
  {
    forall c ensures c in FromRequests(h, requests, backends).value <==> Validated(h, requests, backends, c) {
      RequestsExactly(h, requests, backends, c);
    }
  }

  /** An enabled and available backend that answers this request with an error. */
  ghost predicate Fails(r: (ResolvedAgent, Request), b: Backend) {
    b.registration == Some(true) && b.descriptor.available && b.offers(r.1).Err?
  }

  /** No backend fails for the first `n` requests. */
  ghost predicate NoneFails(requests: Requests, n: nat, backends: seq<Backend>)
    requires n <= |requests|
  {
    forall i, j | 0 <= i < n && 0 <= j < |backends| :: !Fails(requests[i], backends[j])
  }

  lemma {:induction false} BackendsFail(h: Digests, r: (ResolvedAgent, Request), backends: seq<Backend>)
    returns (j: nat)
    ensures j <= |backends| && forall l | 0 <= l < j :: !Fails(r, backends[l])
    ensures FromBackends(h, r, backends).Err? <==> j < |backends|
    ensures j < |backends| ==>
      && Fails(r, backends[j])
      && FromBackends(h, r, backends).error == BackendOffer(BackendName(backends[j]), backends[j].offers(r.1).error)
  {
    if backends == [] || Fails(r, backends[0]) {
      j := 0;
    } else {
      var k := BackendsFail(h, r, backends[1..]);
      j := k + 1;
      assert forall l | 1 <= l < j :: backends[l] == backends[1..][l - 1];
    }
  }

  /** Collecting fails exactly when some asked backend fails, and with the first failure: of the first
      request that meets one, the backend walked first. */
  lemma {:induction false} CollectionFails(h: Digests, requests: Requests, backends: seq<Backend>)
    returns (i: nat, j: nat)
    ensures i <= |requests| && NoneFails(requests, i, backends)
    ensures FromRequests(h, requests, backends).Err? <==> i < |requests|
    ensures i < |requests| ==>
      && j < |backends| && Fails(requests[i], backends[j])
      && (forall l | 0 <= l < j :: !Fails(requests[i], backends[l]))
      && FromRequests(h, requests, backends).error
           == BackendOffer(BackendName(backends[j]), backends[j].offers(requests[i].1).error)
  {
    i, j := 0, 0;
    if requests != [] {
      j := BackendsFail(h, requests[0], backends);
      if j == |backends| {
        var k;
        k, j := CollectionFails(h, requests[1..], backends);
        i := k + 1;
        assert forall m | 1 <= m < i :: requests[m] == requests[1..][m - 1];
      }
    }
  }

  /** The request a candidate names by digest. */
  method FindRequest(h: Digests, requests: seq<(ResolvedAgent, Request)>, digest: Bytes)
    returns (found: Option<Request>)
    ensures found.Some? <==> exists r :: r in requests && h.request(r.1) == digest
    ensures found.Some? ==> h.request(found.value) == digest && exists r :: r in requests && r.1 == found.value
  {
    for i := 0 to |requests|
      invariant forall k | 0 <= k < i :: h.request(requests[k].1) != digest
    {
      if h.request(requests[i].1) == digest {
        assert requests[i] in requests;
        return Some(requests[i].1);
      }
    }
    return None;
  }

  type Answer = Result<(Request, ExecutionCandidate), RoutingError>

  /** Each backend is known to the configuration and described once. */
  ghost predicate Admitted(backends: seq<Backend>) {
    Distinct(backends, BackendName) && forall b | b in backends :: b.registration.Some?
  }

  ghost predicate Repeats(backends: seq<Backend>, i: nat)
    requires i < |backends|
  {
    exists j :: 0 <= j < i && BackendName(backends[j]) == BackendName(backends[i])
  }

  /** The first refusal from a position on: a repeated id is refused before an unregistered one. */
  ghost function RefusalFrom(backends: seq<Backend>, i: nat): Option<RoutingError>
    requires i <= |backends|
    decreases |backends| - i
  {
    if i == |backends| then None
    else if Repeats(backends, i) then Some(DuplicateBackend(BackendName(backends[i])))
    else if backends[i].registration.None? then Some(UnregisteredBackend(BackendName(backends[i])))
    else RefusalFrom(backends, i + 1)
  }

  /** The loop over the described backends. */
  method AdmitBackends(backends: seq<Backend>) returns (refusal: Option<RoutingError>)
    ensures refusal == RefusalFrom(backends, 0)
    ensures refusal.None? <==> Admitted(backends)
    ensures refusal.Some? ==> refusal.value.DuplicateBackend? || refusal.value.UnregisteredBackend?
  {
    for i := 0 to |backends|
      invariant RefusalFrom(backends, 0) == RefusalFrom(backends, i)
      invariant forall j, k | 0 <= j < k < i :: BackendName(backends[j]) != BackendName(backends[k])
      invariant forall k | 0 <= k < i :: backends[k].registration.Some?
    {
      if exists j :: 0 <= j < i && backends[j].descriptor.backend == backends[i].descriptor.backend {
        assert Repeats(backends, i);
        return Some(DuplicateBackend(backends[i].descriptor.backend));
      }
      if backends[i].registration.None? {
        assert backends[i] in backends;
        return Some(UnregisteredBackend(backends[i].descriptor.backend));
      }
    }
    return None;
  }

  /** Registration is looked up by id, so backends of one id share it. */
  ghost predicate OneRegistration(backends: seq<Backend>) {
    forall i, j | 0 <= i < |backends| && 0 <= j < |backends| && BackendName(backends[i]) == BackendName(backends[j]) ::
      backends[i].registration == backends[j].registration
  }

  /** An id that is not registered, or registered and described twice. */
  ghost predicate Offends(backends: seq<Backend>, id: Text) {
    Unknown(backends, id) || Twice(backends, id)
  }

  ghost predicate Unknown(backends: seq<Backend>, id: Text) {
    exists b :: b in backends && BackendName(b) == id && b.registration.None?
  }

  ghost predicate Twice(backends: seq<Backend>, id: Text) {
    exists i, j :: 0 <= i < j < |backends| && BackendName(backends[i]) == BackendName(backends[j]) == id
                   && backends[i].registration.Some?
  }

  /** How one offending id is refused, wherever it stands. */
  ghost function RefusalOf(backends: seq<Backend>, id: Text): RoutingError {
    if Unknown(backends, id) then UnregisteredBackend(id) else DuplicateBackend(id)
  }

  lemma {:induction false} RefusalNames(backends: seq<Backend>, i: nat)
    requires i <= |backends| && OneRegistration(backends)
    requires forall k | 0 <= k < i :: backends[k].registration.Some?
    ensures var refusal := RefusalFrom(backends, i);
      refusal.Some? ==> exists id :: Offends(backends, id) && refusal.value == RefusalOf(backends, id)
    decreases |backends| - i
  {
    if i < |backends| {
      var id := BackendName(backends[i]);
      if Repeats(backends, i) {
        var j :| 0 <= j < i && BackendName(backends[j]) == id;
        assert Twice(backends, id);
        KnownNotUnknown(backends, j);
        assert Offends(backends, id) && RefusalOf(backends, id) == DuplicateBackend(id);
      } else if backends[i].registration.None? {
        assert backends[i] in backends;
        assert Unknown(backends, id);
        assert Offends(backends, id) && RefusalOf(backends, id) == UnregisteredBackend(id);
      } else {
        RefusalNames(backends, i + 1);
      }
    }
  }

  lemma KnownNotUnknown(backends: seq<Backend>, j: nat)
    requires j < |backends| && OneRegistration(backends) && backends[j].registration.Some?
    ensures !Unknown(backends, BackendName(backends[j]))
  {
    forall b | b in backends && BackendName(b) == BackendName(backends[j]) ensures b.registration.Some? {
      var k :| 0 <= k < |backends| && backends[k] == b;
      assert backends[k].registration == backends[j].registration;
    }
  }

  /** Nothing offends exactly when the backends are admitted. */
  lemma AdmittedIff(backends: seq<Backend>)
    ensures Admitted(backends) <==> forall id :: !Offends(backends, id)
  {
    if !Admitted(backends) {
      if exists b :: b in backends && b.registration.None? {
        var b :| b in backends && b.registration.None?;
        assert Offends(backends, BackendName(b)) by { assert Unknown(backends, BackendName(b)); }
      } else {
        var i, j :| 0 <= i < j < |backends| && BackendName(backends[i]) == BackendName(backends[j]);
        assert backends[i] in backends;
        assert Offends(backends, BackendName(backends[i])) by { assert Twice(backends, BackendName(backends[i])); }
      }
    }
  }

  lemma OffendsPermuted(a: seq<Backend>, b: seq<Backend>, id: Text)
    requires multiset(a) == multiset(b) && Offends(a, id)
    ensures Offends(b, id)
  {
    if Unknown(a, id) {
      UnknownPermuted(a, b, id);
    } else {
      var i, j :| 0 <= i < j < |a| && BackendName(a[i]) == BackendName(a[j]) == id && a[i].registration.Some?;
      DuplicateTransfers(b, a, BackendName, i, j);
      var x, y :| 0 <= x < y < |b| && BackendName(b[x]) == BackendName(b[y]) == id;
      assert b[x] in b;
      assert Unknown(b, id) || Twice(b, id);
    }
  }

  lemma UnknownPermuted(a: seq<Backend>, b: seq<Backend>, id: Text)
    requires multiset(a) == multiset(b) && Unknown(a, id)
    ensures Unknown(b, id)
  {
    var x :| x in a && BackendName(x) == id && x.registration.None?;
    assert x in multiset(b);
  }

  lemma OneRegistrationPermuted(a: seq<Backend>, b: seq<Backend>)
    requires multiset(a) == multiset(b) && OneRegistration(a)
    ensures OneRegistration(b)
  {
    forall i, j | 0 <= i < |b| && 0 <= j < |b| && BackendName(b[i]) == BackendName(b[j])
      ensures b[i].registration == b[j].registration
    {
      assert b[i] in multiset(a) && b[j] in multiset(a);
      var x :| 0 <= x < |a| && a[x] == b[i];
      var y :| 0 <= y < |a| && a[y] == b[j];
      assert a[x].registration == a[y].registration;
    }
  }

  lemma UnknownForward(backends: seq<Backend>, id: Text) returns (order: seq<Backend>)
    requires Unknown(backends, id)
    ensures multiset(order) == multiset(backends) && RefusalFrom(order, 0) == Some(UnregisteredBackend(id))
  {
    var b :| b in backends && BackendName(b) == id && b.registration.None?;
    var i :| 0 <= i < |backends| && backends[i] == b;
    order := [b] + Without(backends, i);
    WithoutPermutes(backends, i);
  }

  lemma TwiceForward(backends: seq<Backend>, id: Text) returns (order: seq<Backend>)
    requires Twice(backends, id)
    ensures multiset(order) == multiset(backends) && RefusalFrom(order, 0) == Some(DuplicateBackend(id))
  {
    var i, j :| 0 <= i < j < |backends| && BackendName(backends[i]) == BackendName(backends[j]) == id
                && backends[i].registration.Some?;
    order := TwoForward(backends, i, j);
    assert Repeats(order, 1) by { assert BackendName(order[0]) == BackendName(order[1]); }
    assert RefusalFrom(order, 0) == RefusalFrom(order, 1);
  }

  lemma TwoForward(backends: seq<Backend>, i: nat, j: nat) returns (order: seq<Backend>)
    requires i < j < |backends|
    ensures multiset(order) == multiset(backends) && |order| >= 2 && order[0] == backends[i] && order[1] == backends[j]
  {
    var rest := Without(backends, j);
    assert rest[i] == backends[i];
    var others := Without(rest, i);
    order := [backends[i]] + ([backends[j]] + others);
    WithoutPermutes(backends, j);
    WithoutPermutes(rest, i);
    assert multiset([backends[j]] + others) == multiset{backends[j]} + multiset(others);
  }

  /** Some order of the backends reports a given offending id. */
  lemma BroughtForward(backends: seq<Backend>, id: Text) returns (order: seq<Backend>)
    requires Offends(backends, id)
    ensures multiset(order) == multiset(backends) && RefusalFrom(order, 0) == Some(RefusalOf(backends, id))
  {
    if Unknown(backends, id) {
      order := UnknownForward(backends, id);
    } else {
      order := TwiceForward(backends, id);
    }
  }

  ghost predicate SameInEveryOrder(backends: seq<Backend>) {
    forall order | multiset(order) == multiset(backends) :: RefusalFrom(order, 0) == RefusalFrom(backends, 0)
  }

  ghost predicate OneOffender(backends: seq<Backend>) {
    forall x, y | Offends(backends, x) && Offends(backends, y) :: x == y
  }

  /** Every registration order is refused alike, or admitted alike, if and only if at most one id
      offends: with two, the first one described decides. */
  lemma RefusalCanonicalIff(backends: seq<Backend>)
    requires OneRegistration(backends)
    ensures SameInEveryOrder(backends) <==> OneOffender(backends)
  {
    if OneOffender(backends) {
      forall order | multiset(order) == multiset(backends) ensures RefusalFrom(order, 0) == RefusalFrom(backends, 0) {
        SameRefusal(backends, order);
      }
    } else {
      var x, y :| Offends(backends, x) && Offends(backends, y) && x != y;
      var first := BroughtForward(backends, x);
      var second := BroughtForward(backends, y);
    }
  }

  lemma SameRefusal(a: seq<Backend>, b: seq<Backend>)
    requires OneRegistration(a) && OneOffender(a) && multiset(a) == multiset(b)
    ensures RefusalFrom(b, 0) == RefusalFrom(a, 0)
  {
    OneRegistrationPermuted(a, b);
    Refused(a);
    Refused(b);
    RefusalNames(a, 0);
    RefusalNames(b, 0);
    if RefusalFrom(a, 0).Some? {
      var x :| Offends(a, x) && RefusalFrom(a, 0).value == RefusalOf(a, x);
      OffendsPermuted(a, b, x);
    }
    if RefusalFrom(b, 0).Some? {
      var y :| Offends(b, y) && RefusalFrom(b, 0).value == RefusalOf(b, y);
      OffendsPermuted(b, a, y);
      if Unknown(a, y) { UnknownPermuted(a, b, y); }
      if Unknown(b, y) { UnknownPermuted(b, a, y); }
    }
  }

  /** An offending id anywhere is refused. */
  lemma Refused(backends: seq<Backend>)
    ensures RefusalFrom(backends, 0).Some? <==> exists id :: Offends(backends, id)
  {
    AdmittedIff(backends);
    RefusalExactly(backends, 0);
  }

  lemma {:induction false} RefusalExactly(backends: seq<Backend>, i: nat)
    requires i <= |backends|
    requires forall j, k | 0 <= j < k < i :: BackendName(backends[j]) != BackendName(backends[k])
    requires forall k | 0 <= k < i :: backends[k].registration.Some?
    ensures RefusalFrom(backends, i).None? <==> Admitted(backends)
    decreases |backends| - i
  {
    if i < |backends| && !Repeats(backends, i) && backends[i].registration.Some? {
      RefusalExactly(backends, i + 1);
    } else if i < |backends| {
      assert backends[i] in backends;
    }
  }

  /** What routing answers for admitted backends: exactly the collection decides, and a configuration
      that moved meanwhile refuses what was selected under it. */
  ghost predicate Answers(h: Digests, requests: seq<(ResolvedAgent, Request)>, backends: seq<Backend>, current: bool,
      routed: Answer) {
    match FromRequests(h, requests, Sort(backends, BackendLe))
    case Err(error) => routed == Err(error)
    case Ok(candidates) =>
      if candidates == [] then routed == Err(NoCompatibleOffers)
      else if !current then routed == Err(StaleConfiguration)
      else
        && routed.Ok? && Foremost(candidates, routed.value.1)
        && (AgentsAgree(requests) ==> Best(h, candidates, routed.value.1))
  }

  /** From requests and backends to one candidate and the request it was validated against: the
      final lookup never fails. `current` says whether the captured configuration is still in force. */
  method Route(h: Digests, requests: seq<(ResolvedAgent, Request)>, backends: seq<Backend>, current: bool)
    returns (routed: Answer)
    requires CollisionFree(h)
    ensures !Admitted(backends) ==> RefusalFrom(backends, 0).Some? && routed == Err(RefusalFrom(backends, 0).value)
    ensures Admitted(backends) ==> Answers(h, requests, backends, current, routed)
    ensures routed != Err(RequestLost)
    ensures routed.Ok? ==> current
    ensures routed.Ok? ==>
      exists r, b, o ::
        && r in requests && b in backends && Compatible(h, r.1, r.0, b, o)
        && routed.value == (r.1, CandidateOf(h, r.1, r.0, o))
  {
    var refusal := AdmitBackends(backends);
    if refusal.Some? {
      return Err(refusal.value);
    }
    var sorted := Sort(backends, BackendLe);
    SortMembers(backends, BackendLe);
    var collected := Collect(h, requests, sorted);
    if collected.Err? {
      NeverLost(h, requests, sorted);
      return Err(collected.error);
    }
    CollectedExactly(h, requests, sorted);
    if AgentsAgree(requests) { PoliciesFromAgents(h, requests, sorted, collected.value); }
    var selected := SelectCandidate(h, collected.value);
    if selected.None? {
      return Err(NoCompatibleOffers);
    }
    var candidate := selected.value;
    assert Validated(h, requests, sorted, candidate);
    ghost var r, b :| r in requests && b in sorted && Yields(h, r, b, candidate);
    ghost var o :| o in b.offers(r.1).value && Compatible(h, r.1, r.0, b, o)
      && candidate == CandidateOf(h, r.1, r.0, o);
    var request := FindRequest(h, requests, candidate.requestDigest);
    if request.None? {
      return Err(RequestLost);
    }
    if !current {
      return Err(StaleConfiguration);
    }
    assert request.value == r.1;
    return Ok((request.value, candidate));
  }

  lemma {:induction false} BackendsNeverLost(h: Digests, r: (ResolvedAgent, Request), backends: seq<Backend>)
    ensures FromBackends(h, r, backends).Err? ==> FromBackends(h, r, backends).error.BackendOffer?
  {
    if backends != [] { BackendsNeverLost(h, r, backends[1..]); }
  }

  lemma {:induction false} NeverLost(h: Digests, requests: seq<(ResolvedAgent, Request)>, backends: seq<Backend>)
    ensures FromRequests(h, requests, backends).Err? ==> FromRequests(h, requests, backends).error.BackendOffer?
  {
    if requests != [] {
      BackendsNeverLost(h, requests[0], backends);
      NeverLost(h, requests[1..], backends);
    }
  }

  /** Registering admitted backends in another order changes no answer: the same error, or a candidate
      with the same digest. When refused ones are told apart by order, `RefusalCanonicalIff` says. */
  lemma RoutingCanonical(h: Digests, requests: seq<(ResolvedAgent, Request)>, a: seq<Backend>, b: seq<Backend>,
      current: bool, first: Answer, second: Answer)
    requires CollisionFree(h) && AgentsAgree(requests) && multiset(a) == multiset(b) && Admitted(a)
    requires Answers(h, requests, a, current, first) && Answers(h, requests, b, current, second)
    ensures first.Err? ==> first == second
    ensures first.Ok? ==>
      && second.Ok? && IdentityOf(h, first.value.1) == IdentityOf(h, second.value.1)
      && first.value.1.policy == second.value.1.policy && SameTerms(first.value.1.offer, second.value.1.offer)
  {
    BackendOrderCanonical(a, b);
    var sorted := Sort(a, BackendLe);
    if first.Ok? {
      var candidates := FromRequests(h, requests, sorted).value;
      CollectedExactly(h, requests, sorted);
      PoliciesFromAgents(h, requests, sorted, candidates);
      forall c | c in candidates ensures Sourced(h, c, requests) {
        ValidatedIsSourced(h, requests, sorted, c);
      }
      SelectionCanonical(h, candidates, candidates, requests, first.value.1, second.value.1);
    }
  }

  lemma PoliciesFromAgents(h: Digests, requests: seq<(ResolvedAgent, Request)>, backends: seq<Backend>,
      candidates: seq<ExecutionCandidate>)
    requires AgentsAgree(requests) && forall c | c in candidates :: Validated(h, requests, backends, c)
    ensures RulesAgree(PoliciesOf(candidates))
  {
  }

  /** With distinct backend ids the walk sees the same backends in the same order, however they were
      registered. */
  lemma BackendOrderCanonical(a: seq<Backend>, b: seq<Backend>)
    requires multiset(a) == multiset(b) && Distinct(a, BackendName)
    ensures Sort(a, BackendLe) == Sort(b, BackendLe)
  {
    LeIsTotalOrder();
    assert TotalPreorder(BackendLe) by {
      forall x, y, z | BackendLe(x, y) && BackendLe(y, z) ensures BackendLe(x, z) {
        if Lt(x.descriptor.backend, y.descriptor.backend) && Lt(y.descriptor.backend, z.descriptor.backend) {
          LtLe(x.descriptor.backend, y.descriptor.backend, z.descriptor.backend);
        }
      }
    }
    forall i, j | 0 <= i < |a| && 0 <= j < |a| && BackendLe(a[i], a[j]) && BackendLe(a[j], a[i]) ensures a[i] == a[j] {
      assert a[i].descriptor.backend == a[j].descriptor.backend;
      assert i < j ==> BackendName(a[i]) != BackendName(a[j]);
      assert j < i ==> BackendName(a[j]) != BackendName(a[i]);
    }
    SortCanonical(a, b, BackendLe);
  }
}
