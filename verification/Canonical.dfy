/** The canonical value form every digest is taken over, and why a digest of the text is a digest of
    the value: no two values are written alike. */
module Canonical {
  /** Objects list their entries in key order, each key once, as a `BTreeMap` iterates. */
  datatype Value =
    | Null
    | Bool(flag: bool)
    | Integer(number: int)
    | Text(text: string)
    | Array(items: seq<Value>)
    | Object(entries: seq<Entry>)

  datatype Entry = Entry(key: string, value: Value)

  lemma Assoc(a: string, b: string, c: string)
    ensures (a + b) + c == a + (b + c)
  {
  }

  /** A concatenation taken apart again. */
  lemma Cut(a: string, r: string)
    ensures (a + r)[..|a|] == a && (a + r)[|a|..] == r
  {
  }

  lemma OpenedCut(first: char, inside: string, r: string)
    ensures (([first] + inside) + r)[1..] == inside + r
  {
  }

  lemma PrefixesGrow<T>(a: seq<T>, b: seq<T>, i: nat)
    requires i < |a| && i < |b| && a[..i] == b[..i] && a[i] == b[i]
    ensures a[..i + 1] == b[..i + 1]
  {
    assert a[..i + 1] == a[..i] + [a[i]] && b[..i + 1] == b[..i] + [b[i]];
  }

  // ---------------------------------------------------------------- writing

  const DIGITS: seq<char> := ['0', '1', '2', '3', '4', '5', '6', '7', '8', '9']
  const HEX_DIGITS: seq<char> := ['0', '1', '2', '3', '4', '5', '6', '7', '8', '9', 'a', 'b', 'c', 'd', 'e', 'f']

  function Natural(n: nat): string {
    if n < 10 then [DIGITS[n]] else Natural(n / 10) + [DIGITS[n % 10]]
  }

  function Magnitude(n: int): nat {
    if n < 0 then -n else n
  }

  function Decimal(n: int): string {
    (if n < 0 then ['-'] else []) + Natural(Magnitude(n))
  }

  /** One fixed escape form per escaped character. */
  function Escape(c: char): string {
    if c == '"' then ['\\', '"']
    else if c == '\\' then ['\\', '\\']
    else if c == '\n' then ['\\', 'n']
    else if c == '\r' then ['\\', 'r']
    else if c == '\t' then ['\\', 't']
    else if c as int < 0x20 then ['\\', 'u', '0', '0', HEX_DIGITS[c as int / 16], HEX_DIGITS[c as int % 16]]
    else [c]
  }

  function Body(s: string): string {
    if s == [] then [] else Escape(s[0]) + Body(s[1..])
  }

  function Quote(s: string): string {
    ['"'] + Body(s) + ['"']
  }

  function Width(v: Value): nat {
    match v case Array(items) => |items| case Object(entries) => |entries| case _ => 0
  }

  function Write(v: Value): string
    decreases v, Width(v) + 1
  {
    match v
    case Null => "null"
    case Bool(flag) => if flag then "true" else "false"
    case Integer(number) => Decimal(number)
    case Text(text) => Quote(text)
    case Array(items) => ['['] + Items(v, 0)
    case Object(entries) => ['{'] + Entries(v, 0)
  }

  /** A comma before every item but the first. */
  function Separator(i: nat): string {
    if i > 0 then [','] else []
  }

  /** What follows the opening bracket, from item `i` on. */
  function Items(v: Value, i: nat): string
    requires v.Array? && i <= |v.items|
    decreases v, |v.items| - i
  {
    if i == |v.items| then [']']
    else Separator(i) + (Write(v.items[i]) + Items(v, i + 1))
  }

  function Entries(v: Value, i: nat): string
    requires v.Object? && i <= |v.entries|
    decreases v, |v.entries| - i
  {
    if i == |v.entries| then ['}']
    else Separator(i) + (Quote(v.entries[i].key) + ([':'] + (Write(v.entries[i].value) + Entries(v, i + 1))))
  }

  /** `write_canonical`: the same text, pushed piece by piece onto an output. */
  method WriteOnto(v: Value, out: string) returns (longer: string)
    ensures longer == out + Write(v)
    decreases v, 1
  {
    match v {
      case Null => longer := out + "null";
      case Bool(flag) => longer := out + if flag then "true" else "false";
      case Integer(number) => longer := out + Decimal(number);
      case Text(text) => longer := QuoteOnto(text, out);
      case Array(items) => longer := ItemsOnto(v, out + ['[']);
      case Object(entries) => longer := EntriesOnto(v, out + ['{']);
    }
  }

  method QuoteOnto(s: string, out: string) returns (longer: string)
    ensures longer == out + Quote(s)
  {
    longer := out + ['"'];
    assert s[0..] == s;
    for i := 0 to |s|
      invariant longer + Body(s[i..]) == out + ['"'] + Body(s)
    {
      assert s[i..][0] == s[i] && s[i..][1..] == s[i + 1..];
      Assoc(longer, Escape(s[i]), Body(s[i + 1..]));
      longer := longer + Escape(s[i]);
    }
    assert longer + [] == longer;
    Assoc(out, ['"'], Body(s));
    Assoc(out, ['"'] + Body(s), ['"']);
    longer := longer + ['"'];
  }

  method ItemsOnto(v: Value, out: string) returns (longer: string)
    requires v.Array?
    ensures longer == out + Items(v, 0)
    decreases v, 0
  {
    longer := out;
    for i := 0 to |v.items|
      invariant longer + Items(v, i) == out + Items(v, 0)
    {
      ItemsStep(v, i, longer);
      longer := longer + Separator(i);
      longer := WriteOnto(v.items[i], longer);
    }
    longer := longer + [']'];
  }

  lemma ItemsStep(v: Value, i: nat, out: string)
    requires v.Array? && i < |v.items|
    ensures ((out + Separator(i)) + Write(v.items[i])) + Items(v, i + 1) == out + Items(v, i)
  {
    Assoc(out + Separator(i), Write(v.items[i]), Items(v, i + 1));
    Assoc(out, Separator(i), Write(v.items[i]) + Items(v, i + 1));
  }

  lemma EntriesStep(v: Value, i: nat, out: string)
    requires v.Object? && i < |v.entries|
    ensures ((((out + Separator(i)) + Quote(v.entries[i].key)) + [':']) + Write(v.entries[i].value)) +
      Entries(v, i + 1) == out + Entries(v, i)
  {
    var key, value, rest := Quote(v.entries[i].key), Write(v.entries[i].value), Entries(v, i + 1);
    Assoc(((out + Separator(i)) + key) + [':'], value, rest);
    Assoc((out + Separator(i)) + key, [':'], value + rest);
    Assoc(out + Separator(i), key, [':'] + (value + rest));
    Assoc(out, Separator(i), key + ([':'] + (value + rest)));
  }

  method EntriesOnto(v: Value, out: string) returns (longer: string)
    requires v.Object?
    ensures longer == out + Entries(v, 0)
    decreases v, 0
  {
    longer := out;
    for i := 0 to |v.entries|
      invariant longer + Entries(v, i) == out + Entries(v, 0)
    {
      EntriesStep(v, i, longer);
      longer := longer + Separator(i);
      longer := QuoteOnto(v.entries[i].key, longer);
      longer := longer + [':'];
      longer := WriteOnto(v.entries[i].value, longer);
    }
    longer := longer + ['}'];
  }

  // ---------------------------------------------------------------- numbers are read back uniquely

  predicate IsDigit(c: char) {
    '0' <= c <= '9'
  }

  function NaturalOf(s: string): nat {
    if s == [] then 0
    else
      var last := s[|s| - 1];
      10 * NaturalOf(s[..|s| - 1]) + if IsDigit(last) then last as int - '0' as int else 0
  }

  lemma {:induction false} NaturalRead(n: nat)
    ensures NaturalOf(Natural(n)) == n && Natural(n) != [] && forall c | c in Natural(n) :: IsDigit(c)
  {
    if n >= 10 {
      NaturalRead(n / 10);
      assert Natural(n)[..|Natural(n)| - 1] == Natural(n / 10);
    } else {
      assert Natural(n)[..0] == [];
    }
  }

  function IntegerOf(s: string): int {
    if s != [] && s[0] == '-' then 0 - NaturalOf(s[1..]) else NaturalOf(s)
  }

  predicate IsNumeral(c: char) {
    c == '-' || IsDigit(c)
  }

  lemma NegativeRead(n: nat)
    ensures IntegerOf(['-'] + Natural(n)) == 0 - n && forall c | c in ['-'] + Natural(n) :: IsNumeral(c)
  {
    NaturalRead(n);
    assert (['-'] + Natural(n))[1..] == Natural(n);
  }

  lemma UnsignedRead(n: nat)
    ensures IntegerOf(Natural(n)) == n && forall c | c in Natural(n) :: IsNumeral(c)
  {
    NaturalRead(n);
    assert Natural(n)[0] in Natural(n);
  }

  lemma DecimalRead(n: int)
    ensures IntegerOf(Decimal(n)) == n && forall c | c in Decimal(n) :: IsNumeral(c)
  {
    var size := Magnitude(n);
    if n < 0 {
      NegativeRead(size);
    } else {
      UnsignedRead(size);
      assert Decimal(n) == Natural(size);
    }
  }

  ghost predicate Stops(r: string) {
    r == [] || r[0] == ',' || r[0] == ']' || r[0] == '}'
  }

  /** A run of numerals ends where the numerals end. */
  lemma NumeralsEnd(a: string, r: string, b: string, s: string)
    requires a + r == b + s && |a| < |b| && (forall c | c in b :: IsNumeral(c))
    ensures r != [] && IsNumeral(r[0])
  {
    assert |a| + |r| == |b| + |s|;
    assert (a + r)[|a|] == r[0] && (b + s)[|a|] == b[|a|];
    assert b[|a|] in b;
  }

  lemma NumeralsUnique(a: string, r: string, b: string, s: string)
    requires a + r == b + s && Stops(r) && Stops(s)
    requires (forall c | c in a :: IsNumeral(c)) && (forall c | c in b :: IsNumeral(c))
    ensures a == b && r == s
  {
    if |a| < |b| { NumeralsEnd(a, r, b, s); }
    if |b| < |a| { NumeralsEnd(b, s, a, r); }
    Cut(a, r);
    Cut(b, s);
  }

  lemma DecimalUnique(n: int, m: int, r: string, s: string)
    requires Decimal(n) + r == Decimal(m) + s && Stops(r) && Stops(s)
    ensures n == m && r == s
  {
    DecimalRead(n);
    DecimalRead(m);
    NumeralsUnique(Decimal(n), r, Decimal(m), s);
  }

  // ---------------------------------------------------------------- strings are read back uniquely

  lemma HexUnique(i: nat, j: nat)
    requires i < 16 && j < 16 && HEX_DIGITS[i] == HEX_DIGITS[j]
    ensures i == j
  {
  }

  lemma HexEscapeUnique(c: char, d: char)
    requires c as int < 0x20 && d as int < 0x20
    requires HEX_DIGITS[c as int / 16] == HEX_DIGITS[d as int / 16]
    requires HEX_DIGITS[c as int % 16] == HEX_DIGITS[d as int % 16]
    ensures c == d
  {
    HexUnique(c as int / 16, d as int / 16);
    HexUnique(c as int % 16, d as int % 16);
  }

  /** The first two characters, and for `\\u` the last two, tell an escape. */
  lemma EscapeLetter(c: char, d: char)
    requires Escape(c)[0] == Escape(d)[0] == '\\' && Escape(c)[1] == Escape(d)[1]
    requires Escape(c)[1] == 'u' ==> Escape(c)[4] == Escape(d)[4] && Escape(c)[5] == Escape(d)[5]
    ensures c == d
  {
    if Escape(c)[1] == 'u' {
      assert c as int < 0x20 && d as int < 0x20;
      HexEscapeUnique(c, d);
    }
  }

  lemma EscapeUnique(c: char, d: char, r: string, s: string)
    requires Escape(c) + r == Escape(d) + s
    ensures c == d && r == s
  {
    var x := Escape(c) + r;
    assert x[0] == Escape(c)[0] == Escape(d)[0];
    if x[0] == '\\' {
      assert x[1] == Escape(c)[1] == Escape(d)[1];
      if x[1] == 'u' {
        assert x[4] == Escape(c)[4] == Escape(d)[4] && x[5] == Escape(c)[5] == Escape(d)[5];
      }
      EscapeLetter(c, d);
    }
    Cut(Escape(c), r);
    Cut(Escape(d), s);
  }

  /** Only the closing quote is a bare quote. */
  lemma BodyHead(a: string, r: string)
    ensures var x := Body(a) + (['"'] + r); x != [] && (x[0] == '"' <==> a == [])
  {
    if a != [] {
      BodyStep(a, ['"'] + r);
      EscapeHead(a[0], Body(a[1..]) + (['"'] + r));
    }
  }

  lemma EscapeHead(c: char, r: string)
    ensures Escape(c) != [] && (Escape(c) + r)[0] == Escape(c)[0] && Escape(c)[0] != '"'
  {
  }

  lemma BodyStep(a: string, r: string)
    requires a != []
    ensures Body(a) + r == Escape(a[0]) + (Body(a[1..]) + r)
  {
    Assoc(Escape(a[0]), Body(a[1..]), r);
  }

  lemma {:induction false} BodyUnique(a: string, b: string, r: string, s: string)
    requires Body(a) + (['"'] + r) == Body(b) + (['"'] + s)
    ensures a == b && r == s
  {
    BodyHead(a, r);
    BodyHead(b, s);
    if a == [] {
      assert Body(a) + (['"'] + r) == ['"'] + r && Body(b) + (['"'] + s) == ['"'] + s;
      Cut(['"'], r);
      Cut(['"'], s);
    } else {
      BodyStep(a, ['"'] + r);
      BodyStep(b, ['"'] + s);
      EscapeUnique(a[0], b[0], Body(a[1..]) + (['"'] + r), Body(b[1..]) + (['"'] + s));
      BodyUnique(a[1..], b[1..], r, s);
      assert a == [a[0]] + a[1..] && b == [b[0]] + b[1..];
    }
  }

  lemma QuoteSplit(a: string, r: string)
    ensures (Quote(a) + r)[1..] == Body(a) + (['"'] + r)
  {
    Assoc(['"'] + Body(a), ['"'], r);
    OpenedCut('"', Body(a), ['"'] + r);
  }

  lemma QuoteUnique(a: string, b: string, r: string, s: string)
    requires Quote(a) + r == Quote(b) + s
    ensures a == b && r == s
  {
    QuoteSplit(a, r);
    QuoteSplit(b, s);
    BodyUnique(a, b, r, s);
  }

  // ---------------------------------------------------------------- values are read back uniquely

  /** The first character of a written value tells its constructor. */
  function Sort(v: Value): nat {
    match v
    case Null => 0
    case Bool(flag) => if flag then 1 else 2
    case Integer(_) => 3
    case Text(_) => 4
    case Array(_) => 5
    case Object(_) => 6
  }

  function SortOf(c: char): nat {
    if c == 'n' then 0 else if c == 't' then 1 else if c == 'f' then 2 else if c == '-' || IsDigit(c) then 3
    else if c == '"' then 4 else if c == '[' then 5 else if c == '{' then 6 else 7
  }

  lemma FirstCharacter(v: Value)
    ensures Write(v) != [] && SortOf(Write(v)[0]) == Sort(v)
  {
    if v.Integer? {
      var digits := Natural(Magnitude(v.number));
      NaturalRead(Magnitude(v.number));
      assert digits[0] in digits;
    }
  }

  lemma SameSort(v: Value, w: Value, r: string, s: string)
    requires Write(v) + r == Write(w) + s
    ensures Sort(v) == Sort(w)
  {
    FirstCharacter(v);
    FirstCharacter(w);
    assert (Write(v) + r)[0] == Write(v)[0] && (Write(w) + s)[0] == Write(w)[0];
  }

  /** What was written can be told apart from what follows it, and names one value. */
  lemma {:induction false} WriteUnique(v: Value, w: Value, r: string, s: string)
    requires Write(v) + r == Write(w) + s && Stops(r) && Stops(s)
    ensures v == w && r == s
    decreases v, Width(v) + 1
  {
    SameSort(v, w, r, s);
    match v {
      case Null | Bool(_) =>
        Cut(Write(v), r);
        Cut(Write(w), s);
      case Integer(n) => DecimalUnique(n, w.number, r, s);
      case Text(t) => QuoteUnique(t, w.text, r, s);
      case Array(_) =>
        OpenedCut('[', Items(v, 0), r);
        OpenedCut('[', Items(w, 0), s);
        ItemsUnique(v, w, 0, r, s);
      case Object(_) =>
        OpenedCut('{', Entries(v, 0), r);
        OpenedCut('{', Entries(w, 0), s);
        EntriesUnique(v, w, 0, r, s);
    }
  }

  /** The rest of an array stops whatever stands before it. */
  lemma ItemsStop(v: Value, i: nat, r: string)
    requires v.Array? && 0 < i <= |v.items|
    ensures Stops(Items(v, i) + r)
  {
  }

  lemma EntriesStop(v: Value, i: nat, r: string)
    requires v.Object? && 0 < i <= |v.entries|
    ensures Stops(Entries(v, i) + r)
  {
  }

  /** Both end here, or neither does. */
  lemma ItemsEndTogether(v: Value, w: Value, i: nat, r: string, s: string)
    requires v.Array? && w.Array? && i <= |v.items| && i <= |w.items| && Items(v, i) + r == Items(w, i) + s
    ensures i == |v.items| <==> i == |w.items|
  {
    if i < |v.items| { ItemsHead(v, i, r); }
    if i < |w.items| { ItemsHead(w, i, s); }
    assert i == |v.items| ==> (Items(v, i) + r)[0] == ']';
    assert i == |w.items| ==> (Items(w, i) + s)[0] == ']';
  }

  lemma ItemsHead(v: Value, i: nat, r: string)
    requires v.Array? && i < |v.items|
    ensures Items(v, i) != [] && (Items(v, i) + r)[0] != ']'
  {
    FirstCharacter(v.items[i]);
  }

  /** What remains of an array after its separator. */
  lemma ItemsSplit(v: Value, i: nat, r: string)
    requires v.Array? && i < |v.items|
    ensures (Items(v, i) + r)[|Separator(i)|..] == Write(v.items[i]) + (Items(v, i + 1) + r)
  {
    Assoc(Separator(i), Write(v.items[i]) + Items(v, i + 1), r);
    Assoc(Write(v.items[i]), Items(v, i + 1), r);
    Cut(Separator(i), Write(v.items[i]) + (Items(v, i + 1) + r));
  }

  lemma {:induction false} ItemsUnique(v: Value, w: Value, i: nat, r: string, s: string)
    requires v.Array? && w.Array? && i <= |v.items| && i <= |w.items|
    requires v.items[..i] == w.items[..i] && Items(v, i) + r == Items(w, i) + s
    ensures v == w && r == s
    decreases v, |v.items| - i
  {
    ItemsEndTogether(v, w, i, r, s);
    if i == |v.items| {
      assert v.items == v.items[..i] && w.items == w.items[..i];
      assert (Items(v, i) + r)[1..] == r && (Items(w, i) + s)[1..] == s;
    } else {
      ItemsSplit(v, i, r);
      ItemsSplit(w, i, s);
      ItemsStop(v, i + 1, r);
      ItemsStop(w, i + 1, s);
      WriteUnique(v.items[i], w.items[i], Items(v, i + 1) + r, Items(w, i + 1) + s);
      PrefixesGrow(v.items, w.items, i);
      ItemsUnique(v, w, i + 1, r, s);
    }
  }

  lemma EntriesEndTogether(v: Value, w: Value, i: nat, r: string, s: string)
    requires v.Object? && w.Object? && i <= |v.entries| && i <= |w.entries| && Entries(v, i) + r == Entries(w, i) + s
    ensures i == |v.entries| <==> i == |w.entries|
  {
    assert i == |v.entries| <==> (Entries(v, i) + r)[0] == '}';
    assert i == |w.entries| <==> (Entries(w, i) + s)[0] == '}';
  }

  lemma EntriesSplit(v: Value, i: nat, r: string)
    requires v.Object? && i < |v.entries|
    ensures (Entries(v, i) + r)[|Separator(i)|..] ==
      Quote(v.entries[i].key) + ([':'] + (Write(v.entries[i].value) + (Entries(v, i + 1) + r)))
  {
    var key, value, rest := Quote(v.entries[i].key), Write(v.entries[i].value), Entries(v, i + 1);
    Assoc(Separator(i), key + ([':'] + (value + rest)), r);
    Assoc(key, [':'] + (value + rest), r);
    Assoc([':'], value + rest, r);
    Assoc(value, rest, r);
    Cut(Separator(i), key + ([':'] + (value + (rest + r))));
  }

  /** The key of an entry is told apart from its value. */
  lemma EntryUnique(a: Entry, b: Entry, r: string, s: string)
    requires Quote(a.key) + ([':'] + (Write(a.value) + r)) == Quote(b.key) + ([':'] + (Write(b.value) + s))
    ensures a.key == b.key && Write(a.value) + r == Write(b.value) + s
  {
    QuoteUnique(a.key, b.key, [':'] + (Write(a.value) + r), [':'] + (Write(b.value) + s));
    Cut([':'], Write(a.value) + r);
    Cut([':'], Write(b.value) + s);
  }

  lemma KeysUnique(v: Value, w: Value, i: nat, r: string, s: string)
    requires v.Object? && w.Object? && i < |v.entries| && i < |w.entries| && Entries(v, i) + r == Entries(w, i) + s
    ensures v.entries[i].key == w.entries[i].key
    ensures Write(v.entries[i].value) + (Entries(v, i + 1) + r) == Write(w.entries[i].value) + (Entries(w, i + 1) + s)
  {
    EntriesSplit(v, i, r);
    EntriesSplit(w, i, s);
    EntryUnique(v.entries[i], w.entries[i], Entries(v, i + 1) + r, Entries(w, i + 1) + s);
  }

  lemma EntriesFinish(v: Value, w: Value, r: string, s: string)
    requires v.Object? && w.Object? && |v.entries| == |w.entries|
    requires v.entries[..|v.entries|] == w.entries[..|w.entries|]
    requires Entries(v, |v.entries|) + r == Entries(w, |w.entries|) + s
    ensures v == w && r == s
  {
    assert v.entries == v.entries[..|v.entries|] && w.entries == w.entries[..|w.entries|];
    assert ((['}'] + r)[1..] == r) && ((['}'] + s)[1..] == s);
  }

  lemma {:induction false} EntriesUnique(v: Value, w: Value, i: nat, r: string, s: string)
    requires v.Object? && w.Object? && i <= |v.entries| && i <= |w.entries|
    requires v.entries[..i] == w.entries[..i] && Entries(v, i) + r == Entries(w, i) + s
    ensures v == w && r == s
    decreases v, |v.entries| - i
  {
    EntriesEndTogether(v, w, i, r, s);
    if i == |v.entries| {
      EntriesFinish(v, w, r, s);
    } else {
      KeysUnique(v, w, i, r, s);
      EntriesStop(v, i + 1, r);
      EntriesStop(w, i + 1, s);
      WriteUnique(v.entries[i].value, w.entries[i].value, Entries(v, i + 1) + r, Entries(w, i + 1) + s);
      assert v.entries[i] == w.entries[i];
      PrefixesGrow(v.entries, w.entries, i);
      EntriesUnique(v, w, i + 1, r, s);
    }
  }

  /** Two values with the same canonical text are the same value. */
  lemma CanonicalInjective(v: Value, w: Value)
    requires Write(v) == Write(w)
    ensures v == w
  {
    assert Write(v) + [] == Write(v) && Write(w) + [] == Write(w);
    WriteUnique(v, w, [], []);
  }
}
