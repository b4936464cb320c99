/** Reading canonical text back: the strict JSON reader, and the round trip through the writer.

    The reader's offset into the source is modelled by the suffix that is still unread. */
module Parse {
  import opened Wrappers
  import opened MachineIntegers
  import opened Canonical

  datatype ParseError =
    | UnexpectedEnd | Unexpected | Control | UnknownEscape | BadNumber | OutOfRange | DuplicateKey | TrailingText

  datatype Read<T> = Read(value: T, rest: string)

  predicate Blank(c: char) {
    c == ' ' || c == '\t' || c == '\n' || c == '\r'
  }

  function SkipBlanks(s: string): (rest: string)
    ensures |rest| <= |s|
  {
    if s != [] && Blank(s[0]) then SkipBlanks(s[1..]) else s
  }

  predicate StartsWith(s: string, word: string) {
    |word| <= |s| && s[..|word|] == word
  }

  function Literal(s: string, word: string, value: Value): Result<Read<Value>, ParseError> {
    if StartsWith(s, word) then Ok(Read(value, s[|word|..])) else Err(Unexpected)
  }

  // ---------------------------------------------------------------- numbers

  function DigitsLength(s: string): (n: nat)
    ensures n <= |s|
  {
    if s != [] && IsDigit(s[0]) then 1 + DigitsLength(s[1..]) else 0
  }

  /** Digits, no fraction, no leading zero. */
  function ReadNatural(s: string): (r: Result<Read<nat>, ParseError>)
    ensures r.Ok? ==> |r.value.rest| < |s|
  {
    var n := DigitsLength(s);
    if n == 0 then Err(Unexpected)
    else
      var digits, rest := s[..n], s[n..];
      if rest != [] && (rest[0] == '.' || rest[0] == 'e' || rest[0] == 'E') then Err(BadNumber)
      else if n > 1 && digits[0] == '0' then Err(BadNumber)
      else Ok(Read(NaturalOf(digits), rest))
  }

  /** `integer`: an optional sign, and in range. */
  function ReadInteger(s: string): (r: Result<Read<Value>, ParseError>)
    ensures r.Ok? ==> |r.value.rest| < |s|
  {
    var negative := s != [] && s[0] == '-';
    var unsigned := ReadNatural(if negative then s[1..] else s);
    if unsigned.Err? then Err(unsigned.error)
    else
      var value: int := if negative then -(unsigned.value.value as int) else unsigned.value.value;
      if I64_MIN <= value <= I64_MAX then Ok(Read(Integer(value), unsigned.value.rest)) else Err(OutOfRange)
  }

  // ---------------------------------------------------------------- strings

  function HexValue(c: char): Option<nat> {
    if '0' <= c <= '9' then Some(c as int - '0' as int)
    else if 'a' <= c <= 'f' then Some(c as int - 'a' as int + 10)
    else if 'A' <= c <= 'F' then Some(c as int - 'A' as int + 10)
    else None
  }

  /** Four hexadecimal digits that name a scalar value. The number parser the source calls also
      takes a plus sign for the first of them. */
  function UnicodeEscape(s: string): Option<char> {
    if |s| < 4 then None
    else
      match (if s[0] == '+' then Some(0) else HexValue(s[0]), HexValue(s[1]), HexValue(s[2]), HexValue(s[3]))
      case (Some(a), Some(b), Some(c), Some(d)) =>
        var code := ((a * 16 + b) * 16 + c) * 16 + d;
        if code < 0xD800 || 0xE000 <= code < 0x1_0000 then Some(code as char) else None
      case _ => None
  }

  /** One escape after its backslash: the character and what is left. */
  function ReadEscape(s: string): (r: Result<Read<char>, ParseError>)
    ensures r.Ok? ==> |r.value.rest| < |s|
  {
    if s == [] then Err(UnexpectedEnd)
    else
      match s[0]
      case '"' => Ok(Read('"', s[1..]))
      case '\\' => Ok(Read('\\', s[1..]))
      case '/' => Ok(Read('/', s[1..]))
      case 'n' => Ok(Read('\n', s[1..]))
      case 'r' => Ok(Read('\r', s[1..]))
      case 't' => Ok(Read('\t', s[1..]))
      case 'b' => Ok(Read(8 as char, s[1..]))
      case 'f' => Ok(Read(12 as char, s[1..]))
      case 'u' =>
        var c := UnicodeEscape(s[1..]);
        if c.None? then Err(UnknownEscape) else Ok(Read(c.value, s[5..]))
      case _ => Err(UnknownEscape)
  }

  /** The rest of a string after its opening quote. */
  function ReadString(s: string): (r: Result<Read<string>, ParseError>)
    ensures r.Ok? ==> |r.value.rest| < |s|
    decreases |s|
  {
    if s == [] then Err(UnexpectedEnd)
    else if s[0] == '"' then Ok(Read([], s[1..]))
    else if s[0] == '\\' then
      var escape := ReadEscape(s[1..]);
      if escape.Err? then Err(escape.error)
      else
        var more := ReadString(escape.value.rest);
        if more.Err? then more else Ok(Read([escape.value.value] + more.value.value, more.value.rest))
    else if s[0] as int < 0x20 then Err(Control)
    else
      var more := ReadString(s[1..]);
      if more.Err? then more else Ok(Read([s[0]] + more.value.value, more.value.rest))
  }

  // ---------------------------------------------------------------- values

  /** Strings in the order a `BTreeMap` keeps them. */
  predicate KeyLt(a: string, b: string) {
    b != [] && (a == [] || a[0] < b[0] || (a[0] == b[0] && KeyLt(a[1..], b[1..])))
  }

  function InsertEntry(entries: seq<Entry>, e: Entry): seq<Entry> {
    if entries == [] || KeyLt(e.key, entries[0].key) then [e] + entries
    else [entries[0]] + InsertEntry(entries[1..], e)
  }

  predicate HasKey(entries: seq<Entry>, key: string) {
    exists i :: 0 <= i < |entries| && entries[i].key == key
  }

  function ReadValue(s: string): (r: Result<Read<Value>, ParseError>)
    ensures r.Ok? ==> |r.value.rest| < |s|
    decreases |s|, 0
  {
    if s == [] then Err(UnexpectedEnd)
    else if s[0] == 'n' then Literal(s, "null", Null)
    else if s[0] == 't' then Literal(s, "true", Bool(true))
    else if s[0] == 'f' then Literal(s, "false", Bool(false))
    else if s[0] == '"' then
      var text := ReadString(s[1..]);
      if text.Err? then Err(text.error) else Ok(Read(Text(text.value.value), text.value.rest))
    else if s[0] == '[' then
      var rest := SkipBlanks(s[1..]);
      if rest != [] && rest[0] == ']' then Ok(Read(Array([]), rest[1..])) else ReadItems(rest, [])
    else if s[0] == '{' then
      var rest := SkipBlanks(s[1..]);
      if rest != [] && rest[0] == '}' then Ok(Read(Object([]), rest[1..])) else ReadEntries(rest, [])
    else if s[0] == '-' || IsDigit(s[0]) then ReadInteger(s)
    else Err(Unexpected)
  }

  /** The loop of `array`, at the start of an item. */
  function ReadItems(s: string, items: seq<Value>): (r: Result<Read<Value>, ParseError>)
    ensures r.Ok? ==> |r.value.rest| < |s|
    decreases |s|, 1
  {
    var item := ReadValue(SkipBlanks(s));
    if item.Err? then item
    else
      var rest := SkipBlanks(item.value.rest);
      if rest != [] && rest[0] == ',' then ReadItems(rest[1..], items + [item.value.value])
      else if rest != [] && rest[0] == ']' then Ok(Read(Array(items + [item.value.value]), rest[1..]))
      else Err(Unexpected)
  }

  /** A key, after blanks. */
  function ReadKey(s: string): (r: Result<Read<string>, ParseError>)
    ensures r.Ok? ==> |r.value.rest| < |s|
  {
    var at := SkipBlanks(s);
    if at == [] || at[0] != '"' then Err(Unexpected) else ReadString(at[1..])
  }

  /** A colon, with blanks on both sides. */
  function ReadColon(s: string): (r: Result<string, ParseError>)
    ensures r.Ok? ==> |r.value| < |s|
  {
    var colon := SkipBlanks(s);
    if colon == [] || colon[0] != ':' then Err(Unexpected) else Ok(SkipBlanks(colon[1..]))
  }

  /** The loop of `object`, at the start of an entry. */
  function ReadEntries(s: string, entries: seq<Entry>): (r: Result<Read<Value>, ParseError>)
    ensures r.Ok? ==> |r.value.rest| < |s|
    decreases |s|, 1
  {
    var key := ReadKey(s);
    if key.Err? then Err(key.error)
    else if HasKey(entries, key.value.value) then Err(DuplicateKey)
    else
      var at := ReadColon(key.value.rest);
      if at.Err? then Err(at.error)
      else
        var value := ReadValue(at.value);
        if value.Err? then value
        else
          var more := InsertEntry(entries, Entry(key.value.value, value.value.value));
          var rest := SkipBlanks(value.value.rest);
          if rest != [] && rest[0] == ',' then ReadEntries(rest[1..], more)
          else if rest != [] && rest[0] == '}' then Ok(Read(Object(more), rest[1..]))
          else Err(Unexpected)
  }

  /** `parse`: one value and nothing after it. */
  function ReadDocument(s: string): Result<Value, ParseError> {
    var value := ReadValue(SkipBlanks(s));
    if value.Err? then Err(value.error)
    else if SkipBlanks(value.value.rest) != [] then Err(TrailingText)
    else Ok(value.value.value)
  }

  // ---------------------------------------------------------------- the round trip

  /** What the source's types already say of a value: 64-bit integers, keys in strict order. */
  ghost predicate WellFormed(v: Value)
    decreases v
  {
    match v
    case Integer(n) => I64_MIN <= n <= I64_MAX
    case Array(items) => forall i | 0 <= i < |items| :: WellFormed(items[i])
    case Object(entries) =>
      && (forall i | 0 <= i < |entries| :: WellFormed(entries[i].value))
      && (forall i, j | 0 <= i < j < |entries| :: KeyLt(entries[i].key, entries[j].key))
    case _ => true
  }

  lemma {:induction false} DigitsLengthIs(d: string, r: string)
    requires (forall c | c in d :: IsDigit(c)) && (r == [] || !IsDigit(r[0]))
    ensures DigitsLength(d + r) == |d|
  {
    if d == [] {
      assert d + r == r;
    } else {
      assert d[0] in d && (d + r)[1..] == d[1..] + r;
      DigitsLengthIs(d[1..], r);
    }
  }

  lemma {:induction false} NoLeadingZero(n: nat)
    ensures |Natural(n)| > 1 ==> Natural(n)[0] != '0'
  {
    if n >= 10 {
      NoLeadingZero(n / 10);
      NaturalRead(n / 10);
      if n / 10 < 10 { assert Natural(n / 10) == [DIGITS[n / 10]]; }
    }
  }

  lemma NaturalReadBack(n: nat, r: string)
    requires Stops(r)
    ensures ReadNatural(Natural(n) + r) == Ok(Read(n, r))
    ensures Natural(n) != [] && IsDigit((Natural(n) + r)[0])
  {
    NaturalRead(n);
    DigitsLengthIs(Natural(n), r);
    NoLeadingZero(n);
    Cut(Natural(n), r);
    assert Natural(n)[0] in Natural(n);
    assert (Natural(n) + r)[0] == Natural(n)[0];
  }

  /** A number in range, with or without its sign. */
  lemma SignedRead(text: string, n: nat, r: string)
    requires text != [] && text[0] != '-' && ReadNatural(text) == Ok(Read(n, r))
    ensures n <= I64_MAX ==> ReadInteger(text) == Ok(Read(Integer(n), r))
    ensures -(n as int) >= I64_MIN ==> ReadInteger(['-'] + text) == Ok(Read(Integer(-(n as int)), r))
  {
  }

  lemma IntegerRead(n: int, r: string)
    requires I64_MIN <= n <= I64_MAX && Stops(r)
    ensures ReadInteger(Decimal(n) + r) == Ok(Read(Integer(n), r))
  {
    var size := Magnitude(n);
    NaturalReadBack(size, r);
    SignedRead(Natural(size) + r, size, r);
    if n < 0 {
      Assoc(['-'], Natural(size), r);
    } else {
      assert Decimal(n) == Natural(size);
    }
  }

  lemma HexValueOf(i: nat)
    requires i < 16
    ensures HexValue(HEX_DIGITS[i]) == Some(i)
  {
  }

  /** Two low hexadecimal digits after `\\u00`. */
  lemma HexEscapeRead(c: char, r: string)
    requires c as int < 0x20
    ensures UnicodeEscape(['0', '0', HEX_DIGITS[c as int / 16], HEX_DIGITS[c as int % 16]] + r) == Some(c)
  {
    var s := ['0', '0', HEX_DIGITS[c as int / 16], HEX_DIGITS[c as int % 16]] + r;
    HexValueOf(c as int / 16);
    HexValueOf(c as int % 16);
    assert s[0] == s[1] == '0' && HexValue('0') == Some(0);
    assert s[2] == HEX_DIGITS[c as int / 16] && s[3] == HEX_DIGITS[c as int % 16];
  }

  /** An escape is read back as the character it stands for. */
  lemma EscapeRead(c: char, r: string)
    requires Escape(c)[0] == '\\'
    ensures ReadEscape((Escape(c) + r)[1..]) == Ok(Read(c, r))
  {
    var s := (Escape(c) + r)[1..];
    assert s[0] == Escape(c)[1];
    if Escape(c)[1] == 'u' {
      assert s == ['u'] + (['0', '0', HEX_DIGITS[c as int / 16], HEX_DIGITS[c as int % 16]] + r);
      HexEscapeRead(c, r);
      assert s[5..] == r;
    } else {
      assert s[1..] == r;
    }
  }

  function Prepend(c: char, more: Result<Read<string>, ParseError>): Result<Read<string>, ParseError> {
    if more.Err? then more else Ok(Read([c] + more.value.value, more.value.rest))
  }

  /** One written character is read back, however it is written. */
  lemma CharacterRead(c: char, tail: string)
    ensures ReadString(Escape(c) + tail) == Prepend(c, ReadString(tail))
  {
    EscapeHead(c, tail);
    if Escape(c)[0] == '\\' {
      EscapeRead(c, tail);
    } else {
      Cut([c], tail);
    }
  }

  lemma {:induction false} StringRead(t: string, r: string)
    ensures ReadString(Body(t) + (['"'] + r)) == Ok(Read(t, r))
  {
    if t == [] {
      assert Body(t) + (['"'] + r) == ['"'] + r;
      Cut(['"'], r);
    } else {
      BodyStep(t, ['"'] + r);
      CharacterRead(t[0], Body(t[1..]) + (['"'] + r));
      StringRead(t[1..], r);
      assert t == [t[0]] + t[1..];
    }
  }

  lemma QuoteRead(t: string, r: string)
    ensures Quote(t) + r != [] && (Quote(t) + r)[0] == '"' && ReadString((Quote(t) + r)[1..]) == Ok(Read(t, r))
  {
    QuoteSplit(t, r);
    StringRead(t, r);
  }

  lemma NoBlanks(v: Value, r: string)
    ensures SkipBlanks(Write(v) + r) == Write(v) + r
  {
    FirstCharacter(v);
    assert (Write(v) + r)[0] == Write(v)[0];
  }

  /** What was written is read back, and reading stops where writing stopped. */
  lemma {:induction false} ValueRead(v: Value, r: string)
    requires WellFormed(v) && Stops(r)
    ensures ReadValue(Write(v) + r) == Ok(Read(v, r))
    decreases v, Width(v) + 1
  {
    match v {
      case Null | Bool(_) | Integer(_) | Text(_) => LeafRead(v, r);
      case Array(_) => ArrayRead(v, r);
      case Object(_) => ObjectRead(v, r);
    }
  }

  lemma LeafRead(v: Value, r: string)
    requires WellFormed(v) && Stops(r) && !v.Array? && !v.Object?
    ensures ReadValue(Write(v) + r) == Ok(Read(v, r))
  {
    FirstCharacter(v);
    assert (Write(v) + r)[0] == Write(v)[0];
    match v {
      case Null | Bool(_) => Cut(Write(v), r);
      case Integer(n) => IntegerRead(n, r);
      case Text(t) => QuoteRead(t, r);
    }
  }

  lemma {:induction false} ArrayRead(v: Value, r: string)
    requires v.Array? && WellFormed(v)
    ensures ReadValue(Write(v) + r) == Ok(Read(v, r))
    decreases v, Width(v)
  {
    OpenedCut('[', Items(v, 0), r);
    if v.items == [] {
      assert Items(v, 0) + r == [']'] + r;
      Cut([']'], r);
    } else {
      ItemsOpen(v, r);
      ItemsRead(v, 0, r);
      assert v.items[..0] == [];
      ArrayOpens(Write(v) + r, ItemText(v, 0, r));
    }
  }

  lemma ArrayOpens(s: string, text: string)
    requires s != [] && s[0] == '[' && s[1..] == text && SkipBlanks(text) == text && text != [] && text[0] != ']'
    ensures ReadValue(s) == ReadItems(text, [])
  {
  }

  function ItemText(v: Value, i: nat, r: string): string
    requires v.Array? && i < |v.items|
  {
    Write(v.items[i]) + (Items(v, i + 1) + r)
  }

  /** After the opening bracket stands the first item. */
  lemma ItemsOpen(v: Value, r: string)
    requires v.Array? && v.items != []
    ensures var text := Items(v, 0) + r;
      && text == ItemText(v, 0, r)
      && SkipBlanks(text) == text && text != [] && text[0] != ']'
  {
    ItemsSplit(v, 0, r);
    ItemsHead(v, 0, r);
    NoBlanks(v.items[0], Items(v, 1) + r);
  }

  /** How the text after an item goes on. */
  lemma ItemsTail(v: Value, i: nat, r: string)
    requires v.Array? && 0 < i <= |v.items|
    ensures var tail := Items(v, i) + r;
      && tail != [] && Stops(tail)
      && (i == |v.items| ==> tail[0] == ']' && tail[1..] == r)
      && (i < |v.items| ==> tail[0] == ',' && tail[1..] == ItemText(v, i, r))
  {
  }

  /** One item is read back. */
  lemma ItemRead(item: Value, tail: string, before: seq<Value>)
    requires ReadValue(Write(item) + tail) == Ok(Read(item, tail)) && Stops(tail) && tail != []
    ensures ReadItems(Write(item) + tail, before) ==
      if tail[0] == ',' then ReadItems(tail[1..], before + [item])
      else if tail[0] == ']' then Ok(Read(Array(before + [item]), tail[1..]))
      else Err(Unexpected)
  {
    NoBlanks(item, tail);
    assert SkipBlanks(tail) == tail;
  }

  lemma NextItem(v: Value, i: nat)
    requires v.Array? && i < |v.items|
    ensures v.items[..i] + [v.items[i]] == v.items[..i + 1]
  {
  }

  lemma {:induction false} ItemsRead(v: Value, i: nat, r: string)
    requires v.Array? && WellFormed(v) && i < |v.items|
    ensures ReadItems(ItemText(v, i, r), v.items[..i]) == Ok(Read(v, r))
    decreases v, |v.items| - i - 1
  {
    var tail := Items(v, i + 1) + r;
    ItemsTail(v, i + 1, r);
    ValueRead(v.items[i], tail);
    NextItem(v, i);
    ItemRead(v.items[i], tail, v.items[..i]);
    if i + 1 == |v.items| {
      assert v.items[..i + 1] == v.items;
    } else {
      ItemsRead(v, i + 1, r);
    }
  }

  lemma {:induction false} KeyOrder(a: string, b: string)
    requires KeyLt(a, b)
    ensures a != b && !KeyLt(b, a)
  {
    if a != [] && a[0] == b[0] {
      KeyOrder(a[1..], b[1..]);
    }
  }

  /** Inserting a key above all others appends it. */
  lemma {:induction false} InsertLast(entries: seq<Entry>, e: Entry)
    requires forall i | 0 <= i < |entries| :: KeyLt(entries[i].key, e.key)
    ensures InsertEntry(entries, e) == entries + [e] && !HasKey(entries, e.key)
  {
    forall i | 0 <= i < |entries| ensures entries[i].key != e.key {
      KeyOrder(entries[i].key, e.key);
    }
    if entries != [] {
      KeyOrder(entries[0].key, e.key);
      InsertLast(entries[1..], e);
      assert entries == [entries[0]] + entries[1..];
    }
  }

  lemma {:induction false} ObjectRead(v: Value, r: string)
    requires v.Object? && WellFormed(v)
    ensures ReadValue(Write(v) + r) == Ok(Read(v, r))
    decreases v, Width(v)
  {
    OpenedCut('{', Entries(v, 0), r);
    if v.entries == [] {
      assert Entries(v, 0) + r == ['}'] + r;
      Cut(['}'], r);
    } else {
      EntriesOpen(v, r);
      EntriesRead(v, 0, r);
      assert v.entries[..0] == [];
      ObjectOpens(Write(v) + r, EntryText(v, 0, r));
    }
  }

  lemma ObjectOpens(s: string, text: string)
    requires s != [] && s[0] == '{' && s[1..] == text && SkipBlanks(text) == text && text != [] && text[0] != '}'
    ensures ReadValue(s) == ReadEntries(text, [])
  {
  }

  /** After the opening brace stands the first entry. */
  lemma EntriesOpen(v: Value, r: string)
    requires v.Object? && v.entries != []
    ensures var text := Entries(v, 0) + r;
      && text == EntryText(v, 0, r)
      && SkipBlanks(text) == text && text != [] && text[0] != '}'
  {
    EntriesSplit(v, 0, r);
    assert Entries(v, 0) + r == EntryText(v, 0, r);
    QuoteRead(v.entries[0].key, [':'] + (Write(v.entries[0].value) + (Entries(v, 1) + r)));
  }

  function EntryText(v: Value, i: nat, r: string): string
    requires v.Object? && i < |v.entries|
  {
    Quote(v.entries[i].key) + ([':'] + (Write(v.entries[i].value) + (Entries(v, i + 1) + r)))
  }

  /** One entry: its key, its colon and its value are read back. */
  lemma EntryRead(e: Entry, tail: string, before: seq<Entry>)
    requires ReadValue(Write(e.value) + tail) == Ok(Read(e.value, tail)) && Stops(tail) && tail != []
    requires !HasKey(before, e.key)
    ensures var more := InsertEntry(before, e);
      ReadEntries(Quote(e.key) + ([':'] + (Write(e.value) + tail)), before) ==
      if tail[0] == ',' then ReadEntries(tail[1..], more)
      else if tail[0] == '}' then Ok(Read(Object(more), tail[1..]))
      else Err(Unexpected)
  {
    var value := Write(e.value) + tail;
    KeyRead(e.key, value);
    ColonRead(e.value, tail);
    EntryReadFrom(Quote(e.key) + ([':'] + value), e, [':'] + value, value, tail, before);
  }

  /** One entry, given how its key, its colon and its value are read. */
  lemma EntryReadFrom(s: string, e: Entry, afterKey: string, afterColon: string, tail: string, before: seq<Entry>)
    requires ReadKey(s) == Ok(Read(e.key, afterKey)) && !HasKey(before, e.key)
    requires ReadColon(afterKey) == Ok(afterColon) && ReadValue(afterColon) == Ok(Read(e.value, tail))
    requires Stops(tail) && tail != []
    ensures var more := InsertEntry(before, e);
      ReadEntries(s, before) ==
      if tail[0] == ',' then ReadEntries(tail[1..], more)
      else if tail[0] == '}' then Ok(Read(Object(more), tail[1..]))
      else Err(Unexpected)
  {
    assert SkipBlanks(tail) == tail;
  }

  lemma KeyRead(key: string, rest: string)
    ensures ReadKey(Quote(key) + ([':'] + rest)) == Ok(Read(key, [':'] + rest))
  {
    QuoteRead(key, [':'] + rest);
  }

  lemma ColonRead(v: Value, tail: string)
    ensures ReadColon([':'] + (Write(v) + tail)) == Ok(Write(v) + tail)
  {
    Cut([':'], Write(v) + tail);
    NoBlanks(v, tail);
  }

  /** How the text after an entry goes on. */
  lemma EntriesTail(v: Value, i: nat, r: string)
    requires v.Object? && 0 < i <= |v.entries|
    ensures var tail := Entries(v, i) + r;
      && tail != [] && Stops(tail)
      && (i == |v.entries| ==> tail[0] == '}' && tail[1..] == r)
      && (i < |v.entries| ==> tail[0] == ',' && tail[1..] == EntryText(v, i, r))
  {
    if i == |v.entries| { Cut(['}'], r); } else { EntriesSplit(v, i, r); }
  }

  /** Keys come in order, so each entry is appended. */
  lemma NextKey(v: Value, i: nat)
    requires v.Object? && WellFormed(v) && i < |v.entries|
    ensures !HasKey(v.entries[..i], v.entries[i].key)
    ensures InsertEntry(v.entries[..i], v.entries[i]) == v.entries[..i + 1]
  {
    InsertLast(v.entries[..i], v.entries[i]);
    assert v.entries[..i] + [v.entries[i]] == v.entries[..i + 1];
  }

  lemma {:induction false} EntriesRead(v: Value, i: nat, r: string)
    requires v.Object? && WellFormed(v) && i < |v.entries|
    ensures ReadEntries(EntryText(v, i, r), v.entries[..i]) == Ok(Read(v, r))
    decreases v, |v.entries| - i - 1
  {
    var e, tail := v.entries[i], Entries(v, i + 1) + r;
    EntriesTail(v, i + 1, r);
    ValueRead(e.value, tail);
    NextKey(v, i);
    EntryRead(e, tail, v.entries[..i]);
    if i + 1 == |v.entries| {
      assert v.entries[..i + 1] == v.entries;
    } else {
      EntriesRead(v, i + 1, r);
    }
  }

  /** Every value survives writing and reading. */
  lemma DocumentRoundTrip(v: Value)
    requires WellFormed(v)
    ensures ReadDocument(Write(v)) == Ok(v)
  {
    assert Write(v) + [] == Write(v);
    NoBlanks(v, []);
    ValueRead(v, []);
  }

  // ---------------------------------------------------------------- other spellings

  /** The escapes the writer makes: five letters, and lower-case `\\u00` forms of the other controls. */
  predicate CanonicalEscape(s: string) {
    && s != []
    && (|| s[0] in {'"', '\\', 'n', 'r', 't'}
        || (&& s[0] == 'u' && |s| >= 5 && s[1] == s[2] == '0' && s[3] in {'0', '1'}
            && (IsDigit(s[4]) || 'a' <= s[4] <= 'f')
            && (s[3] == '0' ==> s[4] !in {'9', 'a', 'd'})))
  }

  lemma HexDigitCanonical(i: nat, c: char)
    requires i < 16 && HexValue(c) == Some(i)
    ensures HEX_DIGITS[i] == c <==> IsDigit(c) || 'a' <= c <= 'f'
  {
  }

  /** The six-character escapes the writer makes. */
  lemma HexForm(c: char)
    requires |Escape(c)| == 6
    ensures c as int < 0x20
    ensures Escape(c)[2] == Escape(c)[3] == '0' && Escape(c)[4] in {'0', '1'}
  {
    assert Escape(c)[4] == HEX_DIGITS[c as int / 16];
  }

  lemma LowHexIff(c: char, high: char, low: char)
    requires high in {'0', '1'} && HexValue(low).Some?
    requires c as int == (if high == '1' then 16 else 0) + HexValue(low).value
    ensures Escape(c) == ['\\', 'u', '0', '0', high, low] <==>
      (IsDigit(low) || 'a' <= low <= 'f') && (high == '0' ==> low !in {'9', 'a', 'd'})
  {
    var digit := HexValue(low).value;
    assert c as int / 16 == (if high == '1' then 1 else 0) && c as int % 16 == digit;
    HexDigitCanonical(digit, low);
    assert ['\\', 'u', '0', '0', high, low][5] == low;
  }

  lemma HexEscapeIff(s: string, c: char)
    requires |s| >= 5 && s[0] == 'u' && UnicodeEscape(s[1..]) == Some(c)
    ensures Escape(c) == ['\\'] + s[..5] <==> CanonicalEscape(s)
  {
    var text, d := ['\\'] + s[..5], s[1..];
    assert text == ['\\', 'u', s[1], s[2], s[3], s[4]];
    if s[1] == s[2] == '0' && s[3] in {'0', '1'} {
      assert d[0] == s[1] && d[1] == s[2] && d[2] == s[3] && d[3] == s[4];
      LowHexIff(c, s[3], s[4]);
    } else if Escape(c) == text {
      HexForm(c);
    }
  }

  lemma LetterEscapeIff(s: string, c: char, r: string)
    requires ReadEscape(s) == Ok(Read(c, r)) && s[0] != 'u'
    ensures Escape(c) == ['\\'] + s[..1] <==> CanonicalEscape(s)
  {
    assert ['\\'] + s[..1] == ['\\', s[0]];
  }

  lemma SameTail(a: string, b: string, r: string)
    ensures a + r == b + r <==> a == b
  {
    if a + r == b + r {
      Cut(a, r);
      Cut(b, r);
      assert |a| == |b|;
    }
  }

  /** An escape that is read is spelled as the writer spells it exactly when it is canonical. The
      others are `\\/`, `\\b`, `\\f`, and every `\\u` form of a character written otherwise, of which
      those with capital digits or a plus sign are some. */
  lemma EscapeCanonicalIff(s: string, c: char, r: string)
    requires ReadEscape(s) == Ok(Read(c, r))
    ensures ['\\'] + s == Escape(c) + r <==> CanonicalEscape(s)
  {
    var n := if s[0] == 'u' then 5 else 1;
    if s[0] == 'u' { HexEscapeIff(s, c); } else { LetterEscapeIff(s, c, r); }
    assert s == s[..n] + r;
    Assoc(['\\'], s[..n], r);
    SameTail(['\\'] + s[..n], Escape(c), r);
  }

  /** Every escape up to the closing quote is canonical. */
  predicate CanonicalSpelling(s: string)
    decreases |s|
  {
    if s == [] || s[0] == '"' then true
    else if s[0] == '\\' then
      var escape := ReadEscape(s[1..]);
      escape.Ok? && CanonicalEscape(s[1..]) && CanonicalSpelling(escape.value.rest)
    else CanonicalSpelling(s[1..])
  }

  /** A string that is read is spelled as the writer spells it exactly when all its escapes are. */
  lemma {:induction false} StringCanonicalIff(s: string, t: string, r: string)
    requires ReadString(s) == Ok(Read(t, r))
    ensures s == Body(t) + (['"'] + r) <==> CanonicalSpelling(s)
    decreases |s|
  {
    if s[0] == '"' {
      assert s == ['"'] + r && Body(t) + (['"'] + r) == ['"'] + r;
    } else if s[0] == '\\' {
      var escape := ReadEscape(s[1..]).value;
      EscapedCanonicalIff(s, t, r, escape.value, escape.rest);
      StringCanonicalIff(escape.rest, t[1..], r);
    } else {
      assert s == [s[0]] + s[1..] && t[0] == s[0];
      BodyStep(t, ['"'] + r);
      Cut([s[0]], Body(t[1..]) + (['"'] + r));
      StringCanonicalIff(s[1..], t[1..], r);
    }
  }

  lemma EscapedCanonicalIff(s: string, t: string, r: string, c: char, rest: string)
    requires s != [] && s[0] == '\\' && ReadEscape(s[1..]) == Ok(Read(c, rest)) && t != [] && t[0] == c
    ensures s == Body(t) + (['"'] + r) <==> CanonicalEscape(s[1..]) && rest == Body(t[1..]) + (['"'] + r)
  {
    var tail := Body(t[1..]) + (['"'] + r);
    assert s == ['\\'] + s[1..];
    BodyStep(t, ['"'] + r);
    EscapeCanonicalIff(s[1..], c, rest);
    if s == Escape(c) + tail {
      EscapeHead(c, tail);
      EscapeRead(c, tail);
    }
  }
}
