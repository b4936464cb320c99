/** The optional drop of a context plan: preload sections leave, whole kinds in policy order and
    least important first, until the plan fits. */
module ContextDrop {
  import opened ByteOrder
  import opened Wrappers
  import opened Sorting

  datatype Inclusion = Mandatory | Preload | OnDemand

  datatype Kind =
    | TaskContract | GoalContract | AgentSoul | AgentBehavior | WorkspaceOrientation | ReferenceInput
    | Other(name: Bytes)

  /** `stratum` is the precedence rank, `content` whatever the section carries. */
  datatype Section = Section(kind: Kind, key: Bytes, inclusion: Inclusion, stratum: nat, content: Bytes)

  datatype Pair = Pair(kind: Kind, key: Bytes)

  function PairOf(s: Section): Pair {
    Pair(s.kind, s.key)
  }

  function KindRank(kind: Kind): nat {
    match kind
    case TaskContract => 0
    case GoalContract => 1
    case AgentSoul => 2
    case AgentBehavior => 3
    case WorkspaceOrientation => 4
    case ReferenceInput => 5
    case Other(_) => 255
  }

  function KindName(kind: Kind): Bytes {
    if kind.Other? then kind.name else []
  }

  function InclusionRank(inclusion: Inclusion): nat {
    match inclusion case Mandatory => 0 case Preload => 1 case OnDemand => 2
  }

  /** `compare_sections`: inclusion, stratum, kind order, kind name, key. */
  predicate SectionLe(a: Section, b: Section) {
    if InclusionRank(a.inclusion) != InclusionRank(b.inclusion)
      then InclusionRank(a.inclusion) < InclusionRank(b.inclusion)
    else if a.stratum != b.stratum then a.stratum < b.stratum
    else if KindRank(a.kind) != KindRank(b.kind) then KindRank(a.kind) < KindRank(b.kind)
    else if KindName(a.kind) != KindName(b.kind) then Le(KindName(a.kind), KindName(b.kind))
    else Le(a.key, b.key)
  }

  lemma SectionOrder()
    ensures TotalPreorder(SectionLe)
    ensures forall a, b :: SectionLe(a, b) && SectionLe(b, a) ==> PairOf(a) == PairOf(b)
  {
    LeIsTotalOrder();
  }

  // ---------------------------------------------------------------- the drop as a function

  predicate Droppable(s: Section, kind: Kind) {
    s.inclusion.Preload? && s.kind == kind
  }

  /** The last greatest droppable section of a kind, as `max_by` returns it. */
  function Victim(kept: seq<Section>, kind: Kind): Option<Section> {
    if kept == [] then None
    else
      var last, best := kept[|kept| - 1], Victim(kept[..|kept| - 1], kind);
      if Droppable(last, kind) && (best.None? || SectionLe(best.value, last)) then Some(last) else best
  }

  lemma {:induction false} VictimFound(kept: seq<Section>, kind: Kind)
    ensures Victim(kept, kind).Some? ==> Victim(kept, kind).value in kept && Droppable(Victim(kept, kind).value, kind)
    ensures Victim(kept, kind).None? <==> forall s | s in kept :: !Droppable(s, kind)
  {
    if kept != [] {
      VictimFound(kept[..|kept| - 1], kind);
      assert forall s :: s in kept <==> s in kept[..|kept| - 1] || s == kept[|kept| - 1];
    }
  }

  /** `retain`: every section with this kind and key leaves, of whatever inclusion class. */
  function Retain(kept: seq<Section>, pair: Pair): seq<Section> {
    if kept == [] then []
    else (if PairOf(kept[0]) == pair then [] else [kept[0]]) + Retain(kept[1..], pair)
  }

  lemma {:induction false} RetainMembers(kept: seq<Section>, pair: Pair)
    ensures forall s :: s in Retain(kept, pair) <==> s in kept && PairOf(s) != pair
  {
    if kept != [] {
      RetainMembers(kept[1..], pair);
      assert forall s :: s in kept <==> s == kept[0] || s in kept[1..];
    }
  }

  lemma {:induction false} RetainShrinks(kept: seq<Section>, pair: Pair)
    ensures |Retain(kept, pair)| <= |kept|
    ensures (exists s :: s in kept && PairOf(s) == pair) ==> |Retain(kept, pair)| < |kept|
  {
    if kept != [] {
      RetainShrinks(kept[1..], pair);
      assert forall s :: s in kept <==> s == kept[0] || s in kept[1..];
    }
  }

  /** The section that goes next, with the promise that its going makes the plan shorter. */
  function Next(kept: seq<Section>, kind: Kind): (pair: Option<Pair>)
    ensures pair.Some? ==> |Retain(kept, pair.value)| < |kept|
  {
    var victim := Victim(kept, kind);
    if victim.None? then None
    else
      VictimFound(kept, kind);
      RetainShrinks(kept, PairOf(victim.value));
      Some(PairOf(victim.value))
  }

  type Measure = seq<Section> -> bool

  /** One kind's turn: survivors, and what left in order. */
  function Tier(kept: seq<Section>, kind: Kind, exceeded: Measure): (seq<Section>, seq<Pair>)
    decreases |kept|
  {
    var next := Next(kept, kind);
    if !exceeded(kept) || next.None? then (kept, [])
    else
      var (survivors, dropped) := Tier(Retain(kept, next.value), kind, exceeded);
      (survivors, [next.value] + dropped)
  }

  function Drop(kept: seq<Section>, order: seq<Kind>, exceeded: Measure): (seq<Section>, seq<Pair>)
    decreases |order|
  {
    if order == [] then (kept, [])
    else
      var (after, first) := Tier(kept, order[0], exceeded);
      var (survivors, rest) := Drop(after, order[1..], exceeded);
      (survivors, first + rest)
  }

  /** `apply_optional_drop`: the two nested loops. */
  method ApplyOptionalDrop(sections: seq<Section>, order: seq<Kind>, exceeded: Measure)
    returns (kept: seq<Section>, dropped: seq<Pair>)
    ensures (kept, dropped) == Drop(sections, order, exceeded)
    ensures Lawful(sections, order, exceeded, dropped) && kept == Except(sections, dropped)
  {
    kept, dropped := sections, [];
    assert order[0..] == order;
    assert dropped + Drop(sections, order, exceeded).1 == Drop(sections, order, exceeded).1;
    for i := 0 to |order|
      invariant Drop(sections, order, exceeded) ==
        (Drop(kept, order[i..], exceeded).0, dropped + Drop(kept, order[i..], exceeded).1)
    {
      assert order[i..][0] == order[i] && order[i..][1..] == order[i + 1..];
      kept, dropped := DropKind(kept, dropped, order[i], exceeded, order[i + 1..]);
    }
    assert dropped + [] == dropped;
    DropExcept(sections, order, exceeded);
    DropUniqueIff(sections, order, exceeded, dropped);
  }

  /** One tier of the outer loop. */
  method DropKind(start: seq<Section>, before: seq<Pair>, kind: Kind, exceeded: Measure, ghost later: seq<Kind>)
    returns (kept: seq<Section>, dropped: seq<Pair>)
    ensures kept == Tier(start, kind, exceeded).0 && dropped == before + Tier(start, kind, exceeded).1
    ensures before + Drop(start, [kind] + later, exceeded).1 == dropped + Drop(kept, later, exceeded).1
    ensures Drop(start, [kind] + later, exceeded).0 == Drop(kept, later, exceeded).0
  {
    kept, dropped := start, before;
    while exceeded(kept)
      invariant Tier(start, kind, exceeded).0 == Tier(kept, kind, exceeded).0
      invariant before + Tier(start, kind, exceeded).1 == dropped + Tier(kept, kind, exceeded).1
      decreases |kept|
    {
      var victim := Next(kept, kind);
      if victim.None? {
        break;
      }
      var pair := victim.value;
      OneLeaves(dropped, pair, Tier(Retain(kept, pair), kind, exceeded).1);
      kept := Retain(kept, pair);
      dropped := dropped + [pair];
    }
    assert dropped + [] == dropped;
    TurnThenRest(start, before, kind, exceeded, later);
  }

  lemma OneLeaves(dropped: seq<Pair>, pair: Pair, rest: seq<Pair>)
    ensures dropped + ([pair] + rest) == dropped + [pair] + rest
  {
  }

  /** A kind's turn, then the others'. */
  lemma TurnThenRest(start: seq<Section>, before: seq<Pair>, kind: Kind, exceeded: Measure, later: seq<Kind>)
    ensures var (kept, dropped) := Tier(start, kind, exceeded);
      && Drop(start, [kind] + later, exceeded).0 == Drop(kept, later, exceeded).0
      && before + Drop(start, [kind] + later, exceeded).1 == before + dropped + Drop(kept, later, exceeded).1
  {
    assert ([kind] + later)[1..] == later;
  }

  // ---------------------------------------------------------------- conservation

  /** Survivors are exactly the sections whose kind and key were not dropped, in place. */
  function Except(sections: seq<Section>, dropped: seq<Pair>): seq<Section>
    decreases |dropped|
  {
    if dropped == [] then sections else Except(Retain(sections, dropped[0]), dropped[1..])
  }

  lemma {:induction false} ExceptMembers(sections: seq<Section>, dropped: seq<Pair>)
    ensures forall s :: s in Except(sections, dropped) <==> s in sections && PairOf(s) !in dropped
    decreases |dropped|
  {
    if dropped != [] {
      ExceptMembers(Retain(sections, dropped[0]), dropped[1..]);
      RetainMembers(sections, dropped[0]);
      assert forall p :: p in dropped <==> p == dropped[0] || p in dropped[1..];
    }
  }

  lemma {:induction false} ExceptAppend(sections: seq<Section>, a: seq<Pair>, b: seq<Pair>)
    ensures Except(sections, a + b) == Except(Except(sections, a), b)
    decreases |a|
  {
    if a == [] {
      assert a + b == b;
    } else {
      assert (a + b)[1..] == a[1..] + b;
      ExceptAppend(Retain(sections, a[0]), a[1..], b);
    }
  }

  lemma {:induction false} TierExcept(kept: seq<Section>, kind: Kind, exceeded: Measure)
    ensures Tier(kept, kind, exceeded).0 == Except(kept, Tier(kept, kind, exceeded).1)
    decreases |kept|
  {
    if exceeded(kept) && Next(kept, kind).Some? {
      var pair := Next(kept, kind).value;
      TierExcept(Retain(kept, pair), kind, exceeded);
      assert ([pair] + Tier(Retain(kept, pair), kind, exceeded).1)[1..] == Tier(Retain(kept, pair), kind, exceeded).1;
    }
  }

  lemma {:induction false} DropExcept(sections: seq<Section>, order: seq<Kind>, exceeded: Measure)
    ensures Drop(sections, order, exceeded).0 == Except(sections, Drop(sections, order, exceeded).1)
    decreases |order|
  {
    if order != [] {
      var (after, first) := Tier(sections, order[0], exceeded);
      TierExcept(sections, order[0], exceeded);
      DropExcept(after, order[1..], exceeded);
      ExceptAppend(sections, first, Drop(after, order[1..], exceeded).1);
    }
  }

  // ---------------------------------------------------------------- what is dropped, and in which order

  /** A preload section of this kind and key is among the sections. */
  ghost predicate Names(sections: seq<Section>, kind: Kind, pair: Pair) {
    exists s :: s in sections && Droppable(s, kind) && PairOf(s) == pair
  }

  /** `s` stands last among the preload sections that share its kind and key (with distinct pairs, it
      is the only one). */
  ghost predicate Top(s: Section, sections: seq<Section>) {
    forall u | u in sections && u.inclusion.Preload? && PairOf(u) == PairOf(s) :: SectionLe(u, s)
  }

  lemma {:induction false} VictimGreatest(kept: seq<Section>, kind: Kind, s: Section)
    requires s in kept && Droppable(s, kind)
    ensures Victim(kept, kind).Some? && SectionLe(s, Victim(kept, kind).value)
  {
    SectionOrder();
    var last, rest := kept[|kept| - 1], kept[..|kept| - 1];
    assert s in rest || s == last;
    if s in rest { VictimGreatest(rest, kind, s); }
  }

  /** The pair that goes next names a preload section of the kind. */
  lemma NextNamed(kept: seq<Section>, kind: Kind)
    requires Next(kept, kind).Some?
    ensures Next(kept, kind).value.kind == kind && Names(kept, kind, Next(kept, kind).value)
  {
    VictimFound(kept, kind);
  }

  /** Each pair was the next to go when its turn came. */
  ghost predicate Trail(kept: seq<Section>, kind: Kind, dropped: seq<Pair>)
    decreases |dropped|
  {
    dropped == [] || (Next(kept, kind) == Some(dropped[0]) && Trail(Retain(kept, dropped[0]), kind, dropped[1..]))
  }

  lemma {:induction false} TierTrail(kept: seq<Section>, kind: Kind, exceeded: Measure)
    ensures Trail(kept, kind, Tier(kept, kind, exceeded).1)
    decreases |kept|
  {
    if exceeded(kept) && Next(kept, kind).Some? {
      var pair := Next(kept, kind).value;
      TierTrail(Retain(kept, pair), kind, exceeded);
      assert ([pair] + Tier(Retain(kept, pair), kind, exceeded).1)[1..] == Tier(Retain(kept, pair), kind, exceeded).1;
    }
  }

  /** Within a kind, every dropped pair names a preload section of it. */
  lemma {:induction false} TrailNames(kept: seq<Section>, kind: Kind, dropped: seq<Pair>, i: nat)
    requires Trail(kept, kind, dropped) && i < |dropped|
    ensures dropped[i].kind == kind && Names(kept, kind, dropped[i])
    decreases i
  {
    if i == 0 {
      NextNamed(kept, kind);
    } else {
      TrailNames(Retain(kept, dropped[0]), kind, dropped[1..], i - 1);
      NamesWider(kept, dropped[0], kind, dropped[i]);
    }
  }

  lemma NamesWider(kept: seq<Section>, pair: Pair, kind: Kind, p: Pair)
    requires Names(Retain(kept, pair), kind, p)
    ensures Names(kept, kind, p) && p != pair
  {
    RetainMembers(kept, pair);
  }

  /** The first pair to go is not dropped again. */
  lemma TrailHead(kept: seq<Section>, kind: Kind, dropped: seq<Pair>, j: nat)
    requires Trail(kept, kind, dropped) && 0 < j < |dropped|
    ensures dropped[j] != dropped[0]
  {
    TrailNames(Retain(kept, dropped[0]), kind, dropped[1..], j - 1);
    NamesWider(kept, dropped[0], kind, dropped[j]);
  }

  /** Within a kind no pair leaves twice. */
  lemma {:induction false} TrailDistinct(kept: seq<Section>, kind: Kind, dropped: seq<Pair>, i: nat, j: nat)
    requires Trail(kept, kind, dropped) && i < j < |dropped|
    ensures dropped[i] != dropped[j]
    decreases i
  {
    if i == 0 {
      TrailHead(kept, kind, dropped, j);
    } else {
      TrailDistinct(Retain(kept, dropped[0]), kind, dropped[1..], i - 1, j - 1);
    }
  }

  /** Nothing of the kind stands after the section that goes next. */
  lemma NextIsLast(kept: seq<Section>, kind: Kind, s: Section, t: Section)
    requires Next(kept, kind) == Some(PairOf(s)) && Top(s, kept) && t in kept && Droppable(t, kind)
    ensures SectionLe(t, s)
  {
    SectionOrder();
    VictimFound(kept, kind);
    VictimGreatest(kept, kind, t);
  }

  lemma StillThere(kept: seq<Section>, pair: Pair, s: Section)
    requires s in kept && PairOf(s) != pair
    ensures s in Retain(kept, pair) && (Top(s, kept) ==> Top(s, Retain(kept, pair)))
  {
    RetainMembers(kept, pair);
  }

  /** Within a kind sections leave in reverse total order: what leaves later stands earlier. */
  lemma {:induction false} TrailOrder(kept: seq<Section>, kind: Kind, dropped: seq<Pair>, i: nat, j: nat, s: Section,
      t: Section)
    requires Trail(kept, kind, dropped) && i < j < |dropped| && Top(s, kept)
    requires s in kept && Droppable(s, kind) && PairOf(s) == dropped[i]
    requires t in kept && Droppable(t, kind) && PairOf(t) == dropped[j]
    ensures SectionLe(t, s)
    decreases i
  {
    if i == 0 {
      NextIsLast(kept, kind, s, t);
    } else {
      var left, rest := Retain(kept, dropped[0]), dropped[1..];
      TrailHead(kept, kind, dropped, i);
      TrailHead(kept, kind, dropped, j);
      StillThere(kept, dropped[0], s);
      StillThere(kept, dropped[0], t);
      assert Trail(left, kind, rest) && rest[i - 1] == dropped[i] && rest[j - 1] == dropped[j];
      TrailOrder(left, kind, rest, i - 1, j - 1, s, t);
    }
  }

  /** What one tier drops: no pair twice, each naming a preload section of the kind, least important
      first. */
  lemma TierOrder(kept: seq<Section>, kind: Kind, exceeded: Measure, i: nat, j: nat, s: Section, t: Section)
    requires i < j < |Tier(kept, kind, exceeded).1| && Top(s, kept)
    requires s in kept && Droppable(s, kind) && PairOf(s) == Tier(kept, kind, exceeded).1[i]
    requires t in kept && Droppable(t, kind) && PairOf(t) == Tier(kept, kind, exceeded).1[j]
    ensures SectionLe(t, s) && PairOf(s) != PairOf(t)
  {
    var dropped := Tier(kept, kind, exceeded).1;
    TierTrail(kept, kind, exceeded);
    TrailDistinct(kept, kind, dropped, i, j);
    TrailOrder(kept, kind, dropped, i, j, s, t);
  }

  /** The kinds of the dropped pairs follow the policy: split where a kind's turn begins. */
  ghost predicate FollowsPolicy(dropped: seq<Pair>, order: seq<Kind>)
    decreases |order|
  {
    if order == [] then dropped == []
    else
      exists n ::
        && 0 <= n <= |dropped| && (forall i | 0 <= i < n :: dropped[i].kind == order[0])
        && FollowsPolicy(dropped[n..], order[1..])
  }

  lemma {:induction false} DropFollowsPolicy(sections: seq<Section>, order: seq<Kind>, exceeded: Measure)
    ensures FollowsPolicy(Drop(sections, order, exceeded).1, order)
    decreases |order|
  {
    if order != [] {
      var (after, first) := Tier(sections, order[0], exceeded);
      DropFollowsPolicy(after, order[1..], exceeded);
      var dropped := Drop(sections, order, exceeded).1;
      assert dropped == first + Drop(after, order[1..], exceeded).1;
      assert dropped[|first|..] == Drop(after, order[1..], exceeded).1;
      forall i | 0 <= i < |first| ensures dropped[i].kind == order[0] {
        TierTrail(sections, order[0], exceeded);
        TrailNames(sections, order[0], first, i);
        assert dropped[i] == first[i];
      }
    }
  }

  /** Every dropped pair names a preload section of a listed kind. */
  lemma {:induction false} DroppedIsPreload(sections: seq<Section>, order: seq<Kind>, exceeded: Measure, pair: Pair)
    requires pair in Drop(sections, order, exceeded).1
    ensures pair.kind in order && Names(sections, pair.kind, pair)
    decreases |order|
  {
    var (after, first) := Tier(sections, order[0], exceeded);
    if pair in first {
      var i :| 0 <= i < |first| && first[i] == pair;
      TierTrail(sections, order[0], exceeded);
      TrailNames(sections, order[0], first, i);
    } else {
      DroppedIsPreload(after, order[1..], exceeded, pair);
      TierExcept(sections, order[0], exceeded);
      ExceptMembers(sections, first);
    }
  }

  // ---------------------------------------------------------------- how it ends

  lemma {:induction false} TierEnds(kept: seq<Section>, kind: Kind, exceeded: Measure)
    ensures var after := Tier(kept, kind, exceeded).0; !exceeded(after) || forall s | s in after :: !Droppable(s, kind)
    decreases |kept|
  {
    VictimFound(kept, kind);
    if exceeded(kept) && Next(kept, kind).Some? {
      TierEnds(Retain(kept, Next(kept, kind).value), kind, exceeded);
    }
  }

  /** Once the plan fits, nothing more leaves. */
  lemma {:induction false} FittingStays(kept: seq<Section>, order: seq<Kind>, exceeded: Measure)
    requires !exceeded(kept)
    ensures Drop(kept, order, exceeded) == (kept, [])
    decreases |order|
  {
    if order != [] {
      FittingStays(kept, order[1..], exceeded);
      var none: seq<Pair> := [];
      assert Tier(kept, order[0], exceeded) == (kept, none) && none + none == none;
    }
  }

  /** What a later tier drops has another kind: an earlier tier ended with its kind exhausted or with
      a plan that fits. */
  lemma LaterTiersDiffer(sections: seq<Section>, order: seq<Kind>, exceeded: Measure, p: Pair)
    requires order != [] && p in Drop(Tier(sections, order[0], exceeded).0, order[1..], exceeded).1
    ensures p.kind != order[0]
  {
    var after := Tier(sections, order[0], exceeded).0;
    TierEnds(sections, order[0], exceeded);
    if !exceeded(after) {
      FittingStays(after, order[1..], exceeded);
    } else {
      DroppedIsPreload(after, order[1..], exceeded, p);
    }
  }

  /** In the end the plan fits, or no preload section of a listed kind is left. */
  lemma {:induction false} FitsOrExhausted(sections: seq<Section>, order: seq<Kind>, exceeded: Measure)
    ensures var kept := Drop(sections, order, exceeded).0;
      !exceeded(kept) || forall s | s in kept && s.inclusion.Preload? :: s.kind !in order
    decreases |order|
  {
    if order != [] {
      var (after, first) := Tier(sections, order[0], exceeded);
      TierEnds(sections, order[0], exceeded);
      FitsOrExhausted(after, order[1..], exceeded);
      DropExcept(after, order[1..], exceeded);
      ExceptMembers(after, Drop(after, order[1..], exceeded).1);
      if !exceeded(after) {
        FittingStays(after, order[1..], exceeded);
      } else {
        forall s | s in after && s.inclusion.Preload? ensures s.kind != order[0] {
          assert !Droppable(s, order[0]);
        }
      }
    }
  }

  // ---------------------------------------------------------------- every drop has its reason

  /** In a plan that is still too large, `s` is the section to go: a preload of the first listed kind that
      has any left, and of that kind the one of weakest stratum, then of greatest key. */
  ghost predicate Weakest(kept: seq<Section>, order: seq<Kind>, s: Section) {
    && s in kept && s.inclusion.Preload?
    && (exists n :: 0 <= n < |order| && s.kind == order[n] && Exhausted(kept, order[..n]))
    && (forall t | t in kept && t.inclusion.Preload? && t.kind == s.kind ::
          t.stratum < s.stratum || (t.stratum == s.stratum && Le(t.key, s.key)))
  }

  ghost predicate Exhausted(kept: seq<Section>, kinds: seq<Kind>) {
    forall s | s in kept && s.inclusion.Preload? :: s.kind !in kinds
  }

  ghost predicate Justified(kept: seq<Section>, order: seq<Kind>, exceeded: Measure, pair: Pair) {
    exceeded(kept) && exists s :: Weakest(kept, order, s) && PairOf(s) == pair
  }

  /** Each step of a tier, told by what is left when it is taken. */
  lemma {:induction false} TierStep(kept: seq<Section>, kind: Kind, exceeded: Measure, i: nat)
    requires i < |Tier(kept, kind, exceeded).1|
    ensures var dropped := Tier(kept, kind, exceeded).1;
      && exceeded(Except(kept, dropped[..i]))
      && Next(Except(kept, dropped[..i]), kind) == Some(dropped[i])
    decreases i
  {
    var pair := Next(kept, kind).value;
    if i > 0 {
      TierStep(Retain(kept, pair), kind, exceeded, i - 1);
      var dropped := Tier(kept, kind, exceeded).1;
      assert dropped == [pair] + dropped[1..];
      assert dropped[..i][1..] == dropped[1..][..i - 1];
    }
  }

  lemma NextIsWeakest(kept: seq<Section>, kind: Kind, later: seq<Kind>)
    requires Next(kept, kind).Some?
    ensures exists s :: Weakest(kept, [kind] + later, s) && PairOf(s) == Next(kept, kind).value
  {
    var s := Victim(kept, kind).value;
    VictimFound(kept, kind);
    forall t | t in kept && t.inclusion.Preload? && t.kind == s.kind
      ensures t.stratum < s.stratum || (t.stratum == s.stratum && Le(t.key, s.key))
    {
      VictimGreatest(kept, kind, t);
    }
    assert ([kind] + later)[0] == s.kind && Exhausted(kept, ([kind] + later)[..0]);
    assert Weakest(kept, [kind] + later, s);
  }

  lemma WeakestLater(kept: seq<Section>, order: seq<Kind>, s: Section)
    requires order != [] && Weakest(kept, order[1..], s) && Exhausted(kept, [order[0]])
    ensures Weakest(kept, order, s)
  {
    var n :| 0 <= n < |order[1..]| && s.kind == order[1..][n] && Exhausted(kept, order[1..][..n]);
    assert order[..n + 1] == [order[0]] + order[1..][..n];
    assert order[n + 1] == s.kind && Exhausted(kept, order[..n + 1]);
  }

  lemma TierJustified(sections: seq<Section>, order: seq<Kind>, exceeded: Measure, i: nat)
    requires order != [] && i < |Tier(sections, order[0], exceeded).1|
    ensures var first := Tier(sections, order[0], exceeded).1;
      Justified(Except(sections, first[..i]), order, exceeded, first[i])
  {
    var first := Tier(sections, order[0], exceeded).1;
    TierStep(sections, order[0], exceeded, i);
    NextIsWeakest(Except(sections, first[..i]), order[0], order[1..]);
    assert order == [order[0]] + order[1..];
  }

  /** While sections leave after a kind's turn, that kind is exhausted. */
  lemma TurnOver(sections: seq<Section>, order: seq<Kind>, exceeded: Measure, gone: seq<Pair>)
    requires order != []
    requires Drop(Tier(sections, order[0], exceeded).0, order[1..], exceeded).1 != []
    ensures Exhausted(Except(Tier(sections, order[0], exceeded).0, gone), [order[0]])
  {
    var after := Tier(sections, order[0], exceeded).0;
    TierEnds(sections, order[0], exceeded);
    if !exceeded(after) { FittingStays(after, order[1..], exceeded); }
    ExceptMembers(after, gone);
    assert forall t | t in Except(after, gone) :: !Droppable(t, order[0]);
  }

  /** A section leaves only while the plan is still too large, and it is then the one to go. */
  lemma {:induction false} DropJustified(sections: seq<Section>, order: seq<Kind>, exceeded: Measure, i: nat)
    requires i < |Drop(sections, order, exceeded).1|
    ensures var dropped := Drop(sections, order, exceeded).1;
      Justified(Except(sections, dropped[..i]), order, exceeded, dropped[i])
    decreases |order|
  {
    var (after, first) := Tier(sections, order[0], exceeded);
    var rest := Drop(after, order[1..], exceeded).1;
    var dropped := Drop(sections, order, exceeded).1;
    assert dropped == first + rest;
    if i < |first| {
      assert dropped[..i] == first[..i] && dropped[i] == first[i];
      TierJustified(sections, order, exceeded, i);
    } else {
      var k := i - |first|;
      DropJustified(after, order[1..], exceeded, k);
      assert dropped[..i] == first + rest[..k];
      TierExcept(sections, order[0], exceeded);
      ExceptAppend(sections, first, rest[..k]);
      TurnOver(sections, order, exceeded, rest[..k]);
      JustifiedLater(Except(after, rest[..k]), order, exceeded, rest[k]);
    }
  }

  lemma JustifiedLater(kept: seq<Section>, order: seq<Kind>, exceeded: Measure, pair: Pair)
    requires order != [] && Justified(kept, order[1..], exceeded, pair) && Exhausted(kept, [order[0]])
    ensures Justified(kept, order, exceeded, pair)
  {
    var s :| Weakest(kept, order[1..], s) && PairOf(s) == pair;
    WeakestLater(kept, order, s);
  }

  lemma NotBefore(kept: seq<Section>, order: seq<Kind>, s: Section, n: nat)
    requires s in kept && s.inclusion.Preload? && n <= |order| && Exhausted(kept, order[..n])
    ensures forall m | 0 <= m < n :: order[m] != s.kind
  {
    forall m | 0 <= m < n ensures order[m] != s.kind {
      assert order[..n][m] == order[m];
    }
  }

  lemma JustifiedUnique(kept: seq<Section>, order: seq<Kind>, exceeded: Measure, p: Pair, q: Pair)
    requires Justified(kept, order, exceeded, p) && Justified(kept, order, exceeded, q)
    ensures p == q
  {
    LeIsTotalOrder();
    var s :| Weakest(kept, order, s) && PairOf(s) == p;
    var t :| Weakest(kept, order, t) && PairOf(t) == q;
    var m :| 0 <= m < |order| && s.kind == order[m] && Exhausted(kept, order[..m]);
    var n :| 0 <= n < |order| && t.kind == order[n] && Exhausted(kept, order[..n]);
    NotBefore(kept, order, s, n);
    NotBefore(kept, order, t, m);
  }

  /** Every step justified, and nothing left to do at the end. */
  ghost predicate Lawful(sections: seq<Section>, order: seq<Kind>, exceeded: Measure, dropped: seq<Pair>) {
    && (forall i | 0 <= i < |dropped| :: Justified(Except(sections, dropped[..i]), order, exceeded, dropped[i]))
    && (!exceeded(Except(sections, dropped)) || Exhausted(Except(sections, dropped), order))
  }

  lemma NotOver(kept: seq<Section>, order: seq<Kind>, exceeded: Measure, pair: Pair)
    requires Justified(kept, order, exceeded, pair)
    ensures exceeded(kept) && !Exhausted(kept, order)
  {
  }

  /** Sequences whose every step is determined by the steps before it agree as far as both go. */
  lemma {:induction false} StepsDetermined<T(!new)>(a: seq<T>, b: seq<T>, step: (seq<T>, T) -> bool, n: nat)
    requires forall i | 0 <= i < |a| :: step(a[..i], a[i])
    requires forall i | 0 <= i < |b| :: step(b[..i], b[i])
    requires forall before, x, y :: step(before, x) && step(before, y) ==> x == y
    requires n <= |a| && n <= |b|
    ensures a[..n] == b[..n]
  {
    if n > 0 {
      StepsDetermined(a, b, step, n - 1);
      assert step(a[..n - 1], a[n - 1]) && step(b[..n - 1], b[n - 1]);
      assert a[..n] == a[..n - 1] + [a[n - 1]] && b[..n] == b[..n - 1] + [b[n - 1]];
    }
  }

  lemma LawfulPrefix(sections: seq<Section>, order: seq<Kind>, exceeded: Measure, a: seq<Pair>, b: seq<Pair>, n: nat)
    requires Lawful(sections, order, exceeded, a) && Lawful(sections, order, exceeded, b)
    requires n <= |a| && n <= |b|
    ensures a[..n] == b[..n]
  {
    ghost var step := (before: seq<Pair>, pair: Pair) => Justified(Except(sections, before), order, exceeded, pair);
    forall before, x, y | step(before, x) && step(before, y) ensures x == y {
      JustifiedUnique(Except(sections, before), order, exceeded, x, y);
    }
    StepsDetermined(a, b, step, n);
  }

  /** A lawful drop does not stop before another one does. */
  lemma NoShorter(sections: seq<Section>, order: seq<Kind>, exceeded: Measure, a: seq<Pair>, b: seq<Pair>)
    requires Lawful(sections, order, exceeded, a) && Lawful(sections, order, exceeded, b)
    ensures |b| <= |a|
  {
    if |a| < |b| {
      LawfulPrefix(sections, order, exceeded, a, b, |a|);
      assert a[..|a|] == a;
      NotOver(Except(sections, a), order, exceeded, b[|a|]);
    }
  }

  /** The nested loops compute the one lawful drop there is: `dropped` is their answer if and only if
      each of its sections left a plan that was still too large, as the weakest of the first kind with
      any left, and in the end the plan fits or no listed kind has a preload section left. */
  lemma DropUniqueIff(sections: seq<Section>, order: seq<Kind>, exceeded: Measure, dropped: seq<Pair>)
    ensures dropped == Drop(sections, order, exceeded).1 <==> Lawful(sections, order, exceeded, dropped)
  {
    var answer := Drop(sections, order, exceeded).1;
    forall i | 0 <= i < |answer| ensures Justified(Except(sections, answer[..i]), order, exceeded, answer[i]) {
      DropJustified(sections, order, exceeded, i);
    }
    FitsOrExhausted(sections, order, exceeded);
    DropExcept(sections, order, exceeded);
    if Lawful(sections, order, exceeded, dropped) {
      NoShorter(sections, order, exceeded, dropped, answer);
      NoShorter(sections, order, exceeded, answer, dropped);
      LawfulPrefix(sections, order, exceeded, dropped, answer, |answer|);
      assert dropped[..|answer|] == dropped && answer[..|answer|] == answer;
    }
  }

  // ---------------------------------------------------------------- who is safe

  /** A mandatory or on-demand section shares kind and key with a preload section that may leave. */
  ghost predicate Clash(sections: seq<Section>, order: seq<Kind>) {
    exists s, t :: s in sections && t in sections && !s.inclusion.Preload? && t.inclusion.Preload? && t.kind in order
      && PairOf(s) == PairOf(t)
  }

  ghost predicate ProtectedSurvive(sections: seq<Section>, order: seq<Kind>, exceeded: Measure) {
    forall s | s in sections && !s.inclusion.Preload? :: s in Drop(sections, order, exceeded).0
  }

  /** Mandatory and on-demand sections survive every measurement exactly when none of them shares
      kind and key with a droppable section: `retain` does not look at the inclusion class. */
  lemma ProtectedSurviveIff(sections: seq<Section>, order: seq<Kind>)
    ensures (forall exceeded: Measure :: ProtectedSurvive(sections, order, exceeded)) <==> !Clash(sections, order)
  {
    if Clash(sections, order) {
      ClashLosesProtected(sections, order);
    } else {
      forall exceeded: Measure ensures ProtectedSurvive(sections, order, exceeded) {
        NoClashProtects(sections, order, exceeded);
      }
    }
  }

  lemma NoClashProtects(sections: seq<Section>, order: seq<Kind>, exceeded: Measure)
    requires !Clash(sections, order)
    ensures ProtectedSurvive(sections, order, exceeded)
  {
    DropExcept(sections, order, exceeded);
    ExceptMembers(sections, Drop(sections, order, exceeded).1);
    forall s | s in sections && !s.inclusion.Preload? ensures s in Drop(sections, order, exceeded).0 {
      if PairOf(s) in Drop(sections, order, exceeded).1 {
        DroppedIsPreload(sections, order, exceeded, PairOf(s));
      }
    }
  }

  lemma ClashLosesProtected(sections: seq<Section>, order: seq<Kind>)
    requires Clash(sections, order)
    ensures exists exceeded: Measure :: !ProtectedSurvive(sections, order, exceeded)
  {
    var never: Measure := (kept: seq<Section>) => true;
    var s, t :| s in sections && t in sections && !s.inclusion.Preload? && t.inclusion.Preload? && t.kind in order
      && PairOf(s) == PairOf(t);
    FitsOrExhausted(sections, order, never);
    DropExcept(sections, order, never);
    ExceptMembers(sections, Drop(sections, order, never).1);
    assert t !in Drop(sections, order, never).0;
    assert s !in Drop(sections, order, never).0;
    assert !ProtectedSurvive(sections, order, never);
  }

  /** With distinct kind-and-key pairs, survivors and dropped partition the input: each input
      section survives or is named among the dropped, never both, and each dropped pair names
      exactly one input section, which was a preload. */
  lemma Partition(sections: seq<Section>, order: seq<Kind>, exceeded: Measure)
    requires Distinct(sections, PairOf)
    ensures var (kept, dropped) := Drop(sections, order, exceeded);
      && (forall s | s in sections :: s in kept <==> PairOf(s) !in dropped)
      && (forall s | s in kept :: s in sections)
      && (forall p | p in dropped :: exists s :: s in sections && PairOf(s) == p && s.inclusion.Preload?)
      && (forall s, t | s in sections && t in sections && PairOf(s) == PairOf(t) :: s == t)
  {
    var (kept, dropped) := Drop(sections, order, exceeded);
    DropExcept(sections, order, exceeded);
    ExceptMembers(sections, dropped);
    forall p | p in dropped ensures exists s :: s in sections && PairOf(s) == p && s.inclusion.Preload? {
      DroppedIsPreload(sections, order, exceeded, p);
    }
    forall s, t | s in sections && t in sections && PairOf(s) == PairOf(t) ensures s == t {
      var i :| 0 <= i < |sections| && sections[i] == s;
      var j :| 0 <= j < |sections| && sections[j] == t;
      assert i < j || j < i || i == j;
    }
  }

  // ---------------------------------------------------------------- independence of input order

  /** A measurement of the sections, not of how they are listed. */
  ghost predicate Symmetric(exceeded: Measure) {
    forall a, b :: multiset(a) == multiset(b) ==> exceeded(a) == exceeded(b)
  }

  lemma {:induction false} RetainCount(kept: seq<Section>, pair: Pair, s: Section)
    ensures multiset(Retain(kept, pair))[s] == if PairOf(s) == pair then 0 else multiset(kept)[s]
  {
    if kept != [] {
      RetainCount(kept[1..], pair, s);
      assert kept == [kept[0]] + kept[1..];
    }
  }

  lemma RetainPermuted(a: seq<Section>, b: seq<Section>, pair: Pair)
    requires multiset(a) == multiset(b)
    ensures multiset(Retain(a, pair)) == multiset(Retain(b, pair))
  {
    forall s ensures multiset(Retain(a, pair))[s] == multiset(Retain(b, pair))[s] {
      RetainCount(a, pair, s);
      RetainCount(b, pair, s);
    }
  }

  lemma NextPermuted(a: seq<Section>, b: seq<Section>, kind: Kind)
    requires multiset(a) == multiset(b)
    ensures Next(a, kind) == Next(b, kind)
  {
    assert forall s :: s in a <==> s in multiset(a);
    assert forall s :: s in b <==> s in multiset(b);
    VictimFound(a, kind);
    VictimFound(b, kind);
    if Next(a, kind).Some? {
      VictimGreatest(a, kind, Victim(b, kind).value);
      VictimGreatest(b, kind, Victim(a, kind).value);
      SectionOrder();
    }
  }

  lemma {:induction false} TierPermuted(a: seq<Section>, b: seq<Section>, kind: Kind, exceeded: Measure)
    requires Symmetric(exceeded) && multiset(a) == multiset(b)
    ensures multiset(Tier(a, kind, exceeded).0) == multiset(Tier(b, kind, exceeded).0)
    ensures Tier(a, kind, exceeded).1 == Tier(b, kind, exceeded).1
    decreases |a|
  {
    NextPermuted(a, b, kind);
    if exceeded(a) && Next(a, kind).Some? {
      var pair := Next(a, kind).value;
      RetainPermuted(a, b, pair);
      TierPermuted(Retain(a, pair), Retain(b, pair), kind, exceeded);
    }
  }

  /** The same sections, policy and measurement drop the same sections in the same order, whatever
      order they were supplied in. */
  lemma {:induction false} DropPermuted(a: seq<Section>, b: seq<Section>, order: seq<Kind>, exceeded: Measure)
    requires Symmetric(exceeded) && multiset(a) == multiset(b)
    ensures multiset(Drop(a, order, exceeded).0) == multiset(Drop(b, order, exceeded).0)
    ensures Drop(a, order, exceeded).1 == Drop(b, order, exceeded).1
    decreases |order|
  {
    if order != [] {
      TierPermuted(a, b, order[0], exceeded);
      DropPermuted(Tier(a, order[0], exceeded).0, Tier(b, order[0], exceeded).0, order[1..], exceeded);
    }
  }
}
