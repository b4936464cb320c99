/** Sorting by an arbitrary comparison, as `sort`/`sort_by` do, and why its result is canonical.

    `Sort` is one stable sort. `SortedUnique` shows that whatever algorithm a library uses, a
    sorted permutation is the same sequence as soon as the comparison identifies no two distinct
    elements of the input. */
module Sorting {
  ghost predicate TotalPreorder<T(!new)>(le: (T, T) -> bool) {
    && (forall a, b :: le(a, b) || le(b, a))
    && (forall a, b, c :: le(a, b) && le(b, c) ==> le(a, c))
  }

  /** No two distinct elements of `s` are equivalent under `le`. */
  ghost predicate Separates<T>(le: (T, T) -> bool, s: seq<T>) {
    forall i, j | 0 <= i < |s| && 0 <= j < |s| && le(s[i], s[j]) && le(s[j], s[i]) :: s[i] == s[j]
  }

  ghost predicate Sorted<T>(s: seq<T>, le: (T, T) -> bool) {
    forall i, j | 0 <= i < j < |s| :: le(s[i], s[j])
  }

  function Insert<T>(x: T, s: seq<T>, le: (T, T) -> bool): seq<T> {
    if s == [] || le(x, s[0]) then [x] + s else [s[0]] + Insert(x, s[1..], le)
  }

  function Sort<T>(s: seq<T>, le: (T, T) -> bool): seq<T> {
    if s == [] then [] else Insert(s[0], Sort(s[1..], le), le)
  }

  lemma {:induction false} InsertPermutes<T>(x: T, s: seq<T>, le: (T, T) -> bool)
    ensures multiset(Insert(x, s, le)) == multiset(s) + multiset{x}
  {
    if s == [] || le(x, s[0]) {
    } else {
      InsertPermutes(x, s[1..], le);
      assert s == [s[0]] + s[1..];
    }
  }

  lemma {:induction false} SortPermutes<T>(s: seq<T>, le: (T, T) -> bool)
    ensures multiset(Sort(s, le)) == multiset(s)
    ensures |Sort(s, le)| == |s|
  {
    if s != [] {
      SortPermutes(s[1..], le);
      InsertPermutes(s[0], Sort(s[1..], le), le);
      assert s == [s[0]] + s[1..];
    }
    assert |multiset(Sort(s, le))| == |multiset(s)|;
  }

  lemma SortMembers<T>(s: seq<T>, le: (T, T) -> bool)
    ensures forall x :: x in Sort(s, le) <==> x in s
  {
    SortPermutes(s, le);
    forall x ensures x in Sort(s, le) <==> x in s {
      assert x in s <==> x in multiset(s);
      assert x in Sort(s, le) <==> x in multiset(Sort(s, le));
    }
  }

  lemma {:induction false} InsertSorted<T(!new)>(x: T, s: seq<T>, le: (T, T) -> bool)
    requires TotalPreorder(le) && Sorted(s, le)
    ensures Sorted(Insert(x, s, le), le)
  {
    if s == [] || le(x, s[0]) {
    } else {
      var rest := Insert(x, s[1..], le);
      InsertSorted(x, s[1..], le);
      InsertPermutes(x, s[1..], le);
      forall i | 0 <= i < |rest| ensures le(s[0], rest[i]) {
        assert rest[i] in multiset(rest);
        assert rest[i] in multiset(s[1..]) || rest[i] == x;
      }
    }
  }

  lemma {:induction false} SortSorted<T(!new)>(s: seq<T>, le: (T, T) -> bool)
    requires TotalPreorder(le)
    ensures Sorted(Sort(s, le), le)
  {
    if s != [] {
      SortSorted(s[1..], le);
      InsertSorted(s[0], Sort(s[1..], le), le);
    }
  }

  lemma SortedHead<T(!new)>(s: seq<T>, t: seq<T>, le: (T, T) -> bool)
    requires TotalPreorder(le) && Sorted(t, le) && multiset(s) == multiset(t) && s != [] && t != []
    ensures le(t[0], s[0])
  {
    assert s[0] in multiset(t);
    var j :| 0 <= j < |t| && t[j] == s[0];
    assert le(t[0], t[j]);
  }

  lemma SortedHeads<T(!new)>(s: seq<T>, t: seq<T>, le: (T, T) -> bool)
    requires TotalPreorder(le) && Separates(le, s) && Sorted(s, le) && Sorted(t, le)
    requires multiset(s) == multiset(t) && s != [] && t != []
    ensures s[0] == t[0]
  {
    SortedHead(s, t, le);
    SortedHead(t, s, le);
    assert t[0] in multiset(s);
    var i :| 0 <= i < |s| && s[i] == t[0];
    assert le(s[0], s[i]) && le(s[i], s[0]);
  }

  lemma TailPermutes<T>(s: seq<T>)
    requires s != []
    ensures multiset(s[1..]) == multiset(s) - multiset{s[0]}
  {
    assert s == [s[0]] + s[1..];
  }

  lemma TailSorted<T>(s: seq<T>, le: (T, T) -> bool)
    requires s != [] && Sorted(s, le)
    ensures Sorted(s[1..], le)
  {
    forall i, j | 0 <= i < j < |s[1..]| ensures le(s[1..][i], s[1..][j]) {
      assert le(s[i + 1], s[j + 1]);
    }
  }

  lemma SameLength<T>(s: seq<T>, t: seq<T>)
    requires multiset(s) == multiset(t)
    ensures |s| == |t|
  {
    assert |s| == |multiset(s)| == |multiset(t)| == |t|;
  }

  lemma SameParts<T>(s: seq<T>, t: seq<T>)
    requires s != [] && t != [] && s[0] == t[0] && s[1..] == t[1..]
    ensures s == t
  {
    assert s == [s[0]] + s[1..] && t == [t[0]] + t[1..];
  }

  lemma TailSeparates<T>(s: seq<T>, le: (T, T) -> bool)
    requires s != [] && Separates(le, s)
    ensures Separates(le, s[1..])
  {
    var t := s[1..];
    forall i, j | 0 <= i < |t| && 0 <= j < |t| && le(t[i], t[j]) && le(t[j], t[i]) ensures t[i] == t[j] {
      assert t[i] == s[i + 1] && t[j] == s[j + 1];
    }
  }

  /** Two sorted sequences with the same elements are the same sequence. */
  lemma {:induction false} SortedUnique<T(!new)>(s: seq<T>, t: seq<T>, le: (T, T) -> bool)
    requires TotalPreorder(le) && Separates(le, s)
    requires Sorted(s, le) && Sorted(t, le) && multiset(s) == multiset(t)
    ensures s == t
  {
    SameLength(s, t);
    if s != [] {
      SortedHeads(s, t, le);
      TailPermutes(s);
      TailPermutes(t);
      TailSeparates(s, le);
      TailSorted(s, le);
      TailSorted(t, le);
      SortedUnique(s[1..], t[1..], le);
      SameParts(s, t);
    }
  }

  /** The sort of a permuted input is the same sequence. */
  lemma SortCanonical<T(!new)>(s: seq<T>, t: seq<T>, le: (T, T) -> bool)
    requires TotalPreorder(le) && Separates(le, s) && multiset(s) == multiset(t)
    ensures Sort(s, le) == Sort(t, le)
  {
    SortSorted(s, le);
    SortSorted(t, le);
    SortPermutes(s, le);
    SortPermutes(t, le);
    SeparatesPermuted(s, Sort(s, le), le);
    SortedUnique(Sort(s, le), Sort(t, le), le);
  }

  lemma SeparatesPermuted<T>(s: seq<T>, t: seq<T>, le: (T, T) -> bool)
    requires Separates(le, s) && multiset(s) == multiset(t)
    ensures Separates(le, t)
  {
    forall i, j | 0 <= i < |t| && 0 <= j < |t| && le(t[i], t[j]) && le(t[j], t[i])
      ensures t[i] == t[j]
    {
      assert t[i] in multiset(s) && t[j] in multiset(s);
      var a :| 0 <= a < |s| && s[a] == t[i];
      var b :| 0 <= b < |s| && s[b] == t[j];
      assert le(s[a], s[b]) && le(s[b], s[a]);
    }
  }

  /** No two positions of `s` share a key. */
  ghost predicate Distinct<T, K>(s: seq<T>, key: T -> K) {
    forall i, j | 0 <= i < j < |s| :: key(s[i]) != key(s[j])
  }

  lemma TwoOccurrences<T>(s: seq<T>, x: T)
    requires multiset(s)[x] >= 2
    ensures exists i, j :: 0 <= i < j < |s| && s[i] == x && s[j] == x
  {
    var i :| 0 <= i < |s| && s[i] == x;
    assert s == s[..i] + [s[i]] + s[i + 1..];
    if x in s[..i] {
      var k :| 0 <= k < i && s[..i][k] == x;
      assert s[k] == x;
    } else {
      assert x in multiset(s[i + 1..]);
      assert x in s[i + 1..];
      var k :| 0 <= k < |s[i + 1..]| && s[i + 1..][k] == x;
      assert s[i + 1 + k] == x;
    }
  }

  /** A repeated key of a sequence is repeated in each of its permutations. */
  lemma DuplicateTransfers<T, K>(a: seq<T>, b: seq<T>, key: T -> K, i: nat, j: nat)
    requires multiset(a) == multiset(b) && i < j < |b| && key(b[i]) == key(b[j])
    ensures exists x, y :: 0 <= x < y < |a| && key(a[x]) == key(a[y]) == key(b[i])
  {
    assert b[i] in multiset(a) && b[j] in multiset(a);
    if b[i] == b[j] {
      assert b == b[..j] + [b[j]] + b[j + 1..];
      assert b[i] in b[..j];
      TwoOccurrences(a, b[i]);
    } else {
      var x :| 0 <= x < |a| && a[x] == b[i];
      var y :| 0 <= y < |a| && a[y] == b[j];
      assert x < y || y < x;
    }
  }

  lemma DistinctPermuted<T, K>(a: seq<T>, b: seq<T>, key: T -> K)
    requires multiset(a) == multiset(b) && Distinct(a, key)
    ensures Distinct(b, key)
  {
    forall i, j | 0 <= i < j < |b| && key(b[i]) == key(b[j])
      ensures false
    {
      DuplicateTransfers(a, b, key, i, j);
    }
  }

  /** Repetition-free sequences with the same elements are permutations of each other. */
  lemma SameElementsSameMultiset<T, K>(a: seq<T>, b: seq<T>, key: T -> K)
    requires Distinct(a, key) && Distinct(b, key)
    requires forall e :: e in a <==> e in b
    ensures multiset(a) == multiset(b)
  {
    forall e ensures multiset(a)[e] == multiset(b)[e] {
      if multiset(a)[e] >= 2 { TwoOccurrences(a, e); }
      if multiset(b)[e] >= 2 { TwoOccurrences(b, e); }
      assert e in a <==> e in multiset(a);
      assert e in b <==> e in multiset(b);
    }
  }

  /** Element by element. */
  function Map<T, U>(s: seq<T>, f: T -> U): (mapped: seq<U>)
    ensures |mapped| == |s| && forall i | 0 <= i < |s| :: mapped[i] == f(s[i])
  {
    if s == [] then [] else [f(s[0])] + Map(s[1..], f)
  }

  /** A sequence without its element at `i`. */
  function Without<T>(s: seq<T>, i: nat): seq<T>
    requires i < |s|
  {
    s[..i] + s[i + 1..]
  }

  lemma WithoutPermutes<T>(s: seq<T>, i: nat)
    requires i < |s|
    ensures multiset(s) == multiset{s[i]} + multiset(Without(s, i))
    ensures multiset(Without(s, i)) == multiset(s) - multiset{s[i]}
  {
    assert s == s[..i] + [s[i]] + s[i + 1..];
    assert multiset(s) == multiset{s[i]} + multiset(Without(s, i));
  }

  lemma MapWithout<T, U>(s: seq<T>, f: T -> U, i: nat)
    requires i < |s|
    ensures Map(Without(s, i), f) == Without(Map(s, f), i)
  {
    MapSplit(s[..i], s[i + 1..], f);
    MapPieces(s, f, i);
    MapPieces(s, f, i + 1);
  }

  lemma MapPieces<T, U>(s: seq<T>, f: T -> U, i: nat)
    requires i <= |s|
    ensures Map(s, f)[..i] == Map(s[..i], f) && Map(s, f)[i..] == Map(s[i..], f)
  {
    assert s[..i] + s[i..] == s;
    MapSplit(s[..i], s[i..], f);
  }

  lemma MapSplit<T, U>(a: seq<T>, b: seq<T>, f: T -> U)
    ensures Map(a + b, f) == Map(a, f) + Map(b, f)
  {
    var joined, parts := Map(a + b, f), Map(a, f) + Map(b, f);
    forall k | 0 <= k < |joined| ensures joined[k] == parts[k] {
      assert joined[k] == f((a + b)[k]);
    }
  }

  /** Mapping permuted inputs gives permuted outputs. */
  lemma {:induction false} MapPermuted<T, U>(a: seq<T>, b: seq<T>, f: T -> U)
    requires multiset(a) == multiset(b)
    ensures multiset(Map(a, f)) == multiset(Map(b, f))
    decreases |a|
  {
    assert |a| == |multiset(a)| == |multiset(b)| == |b|;
    if a != [] {
      assert a[0] in multiset(b);
      var i :| 0 <= i < |b| && b[i] == a[0];
      WithoutPermutes(a, 0);
      WithoutPermutes(b, i);
      MapPermuted(Without(a, 0), Without(b, i), f);
      MapWithout(a, f, 0);
      MapWithout(b, f, i);
      WithoutPermutes(Map(a, f), 0);
      WithoutPermutes(Map(b, f), i);
    }
  }
}
