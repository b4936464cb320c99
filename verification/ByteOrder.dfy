/** Byte strings and the order every canonical form in Pantheon is sorted by.

    Rust compares `Vec<u8>`, `[u8]` and `String` by their bytes, lexicographically, so one order
    serves repository paths, slot names, Goal ids and digests alike. */
module ByteOrder {
  newtype byte = b: int | 0 <= b < 256

  type Bytes = seq<byte>

  /** Lexicographic `<=`. */
  predicate Le(a: Bytes, b: Bytes) {
    a == [] || (b != [] && (a[0] < b[0] || (a[0] == b[0] && Le(a[1..], b[1..]))))
  }

  predicate Lt(a: Bytes, b: Bytes) {
    Le(a, b) && a != b
  }

  lemma {:induction false} LeTotal(a: Bytes, b: Bytes)
    ensures Le(a, b) || Le(b, a)
  {
    if a != [] && b != [] && a[0] == b[0] {
      LeTotal(a[1..], b[1..]);
    }
  }

  lemma {:induction false} LeAntisymmetric(a: Bytes, b: Bytes)
    requires Le(a, b) && Le(b, a)
    ensures a == b
  {
    if a != [] && b != [] {
      LeAntisymmetric(a[1..], b[1..]);
      assert a == [a[0]] + a[1..] && b == [b[0]] + b[1..];
    }
  }

  lemma {:induction false} LeTransitive(a: Bytes, b: Bytes, c: Bytes)
    requires Le(a, b) && Le(b, c)
    ensures Le(a, c)
  {
    if a != [] && a[0] == b[0] && b[0] == c[0] {
      LeTransitive(a[1..], b[1..], c[1..]);
    }
  }

  lemma LtLe(a: Bytes, b: Bytes, c: Bytes)
    requires Lt(a, b) && Le(b, c)
    ensures Lt(a, c)
  {
    LeTransitive(a, b, c);
    if a == c { LeAntisymmetric(a, b); }
  }

  lemma LeLt(a: Bytes, b: Bytes, c: Bytes)
    requires Le(a, b) && Lt(b, c)
    ensures Lt(a, c)
  {
    LeTransitive(a, b, c);
    if a == c { LeAntisymmetric(b, c); }
  }

  lemma LeReflexive(a: Bytes)
    ensures Le(a, a)
  {
  }

  /** The three laws at once, for callers that hand `Le` to the sorting lemmas. */
  lemma LeIsTotalOrder()
    ensures forall a, b :: Le(a, b) || Le(b, a)
    ensures forall a, b :: Le(a, b) && Le(b, a) ==> a == b
    ensures forall a, b, c :: Le(a, b) && Le(b, c) ==> Le(a, c)
  {
    forall a: Bytes, b: Bytes ensures Le(a, b) || Le(b, a) { LeTotal(a, b); }
    forall a: Bytes, b: Bytes | Le(a, b) && Le(b, a) ensures a == b { LeAntisymmetric(a, b); }
    forall a: Bytes, b: Bytes, c: Bytes | Le(a, b) && Le(b, c) ensures Le(a, c) { LeTransitive(a, b, c); }
  }

  /** Equal up to a position where `a` has the smaller byte. */
  ghost predicate SmallerAt(a: Bytes, b: Bytes, i: nat) {
    i < |a| && i < |b| && a[..i] == b[..i] && a[i] < b[i]
  }

  lemma SameFirst(a: Bytes, b: Bytes, i: nat)
    requires SmallerAt(a, b, i)
    ensures i > 0 ==> a[0] == b[0]
  {
    if i > 0 { assert a[..i][0] == a[0] && b[..i][0] == b[0]; }
  }

  /** The order without recursion: a proper prefix comes first, and otherwise the first difference
      decides. */
  lemma {:induction false} LtIff(a: Bytes, b: Bytes)
    ensures Lt(a, b) <==> a < b || exists i :: SmallerAt(a, b, i)
  {
    if a != [] && b != [] && a[0] == b[0] {
      LtIff(a[1..], b[1..]);
      assert a == [a[0]] + a[1..] && b == [b[0]] + b[1..];
      forall i: nat | SmallerAt(a[1..], b[1..], i) ensures SmallerAt(a, b, i + 1) {
        assert a[..i + 1] == [a[0]] + a[1..][..i] && b[..i + 1] == [b[0]] + b[1..][..i];
      }
      forall i: nat | SmallerAt(a, b, i) ensures i > 0 && SmallerAt(a[1..], b[1..], i - 1) {
        assert a[1..][..i - 1] == a[..i][1..] && b[1..][..i - 1] == b[..i][1..];
      }
    } else if a != [] && b != [] {
      assert a[..0] == b[..0];
      if a[0] < b[0] { assert SmallerAt(a, b, 0); }
      forall i: nat | SmallerAt(a, b, i) ensures i == 0 {
        SameFirst(a, b, i);
      }
    }
  }

  /** A byte string extended by a suffix is not smaller. */
  lemma {:induction false} PrefixLe(a: Bytes, b: Bytes)
    ensures Le(a, a + b)
  {
    if a != [] {
      PrefixLe(a[1..], b);
      assert (a + b)[1..] == a[1..] + b;
    }
  }
}
