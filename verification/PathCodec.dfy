/** Repository paths and their lossless manifest spelling.

    A manifest string is a Rust `str`, that is, a byte string that is valid UTF-8; it is modelled
    by those bytes. Validity follows the grammar in section 4 of RFC 3629. */
module PathCodec {
  import opened ByteOrder
  import opened Wrappers

  const PERCENT: byte := 0x25
  const SLASH: byte := 0x2f
  const DOT: byte := 0x2e

  const MAX_PATH_BYTES := 4096
  const MAX_COMPONENT_BYTES := 255

  // ---------------------------------------------------------------- UTF-8

  predicate Tail(b: byte) {
    0x80 <= b <= 0xBF
  }

  /** The length of the well-formed character `s` starts with, or 0 when there is none. */
  function CharLength(s: Bytes): (n: nat)
    ensures n <= |s|
  {
    if s == [] then 0
    else if s[0] <= 0x7F then 1
    else if |s| < 2 then 0
    else if 0xC2 <= s[0] <= 0xDF then if Tail(s[1]) then 2 else 0
    else if |s| < 3 then 0
    else if s[0] == 0xE0 then if 0xA0 <= s[1] <= 0xBF && Tail(s[2]) then 3 else 0
    else if s[0] == 0xED then if 0x80 <= s[1] <= 0x9F && Tail(s[2]) then 3 else 0
    else if 0xE1 <= s[0] <= 0xEF then if Tail(s[1]) && Tail(s[2]) then 3 else 0
    else if |s| < 4 then 0
    else if s[0] == 0xF0 then if 0x90 <= s[1] <= 0xBF && Tail(s[2]) && Tail(s[3]) then 4 else 0
    else if s[0] == 0xF4 then if 0x80 <= s[1] <= 0x8F && Tail(s[2]) && Tail(s[3]) then 4 else 0
    else if 0xF1 <= s[0] <= 0xF3 then if Tail(s[1]) && Tail(s[2]) && Tail(s[3]) then 4 else 0
    else 0
  }

  predicate Utf8(s: Bytes) {
    s == [] || (CharLength(s) > 0 && Utf8(s[CharLength(s)..]))
  }

  // ---------------------------------------------------------------- spelling

  /** Bytes that spell themselves. */
  predicate Literal(bytes: Bytes) {
    Utf8(bytes) && PERCENT !in bytes
  }

  function HexDigit(n: int): byte
    requires 0 <= n < 16
  {
    if n < 10 then (0x30 + n) as byte else (0x61 + n - 10) as byte
  }

  /** `char::to_digit(16)`: both cases are accepted. */
  function DigitValue(c: byte): (v: Option<int>)
    ensures v.Some? ==> 0 <= v.value < 16
  {
    if 0x30 <= c <= 0x39 then Some(c as int - 0x30)
    else if 0x61 <= c <= 0x66 then Some(c as int - 0x61 + 10)
    else if 0x41 <= c <= 0x46 then Some(c as int - 0x41 + 10)
    else None
  }

  function HexPair(b: byte): Bytes {
    [HexDigit(b as int / 16), HexDigit(b as int % 16)]
  }

  function Hex(bytes: Bytes): (h: Bytes)
    ensures |h| == 2 * |bytes|
  {
    if bytes == [] then [] else HexPair(bytes[0]) + Hex(bytes[1..])
  }

  function Unhex(hex: Bytes): Option<Bytes>
    requires |hex| % 2 == 0
  {
    if hex == [] then Some([])
    else
      match (DigitValue(hex[0]), DigitValue(hex[1]), Unhex(hex[2..]))
      case (Some(high), Some(low), Some(rest)) => Some([(16 * high + low) as byte] + rest)
      case _ => None
  }

  function Encode(bytes: Bytes): Bytes {
    if Literal(bytes) then bytes else [PERCENT] + Hex(bytes)
  }

  function Decode(text: Bytes): Option<Bytes> {
    if text == [] || text[0] != PERCENT then Some(text)
    else if |text[1..]| % 2 != 0 then None
    else Unhex(text[1..])
  }

  lemma {:induction false} HexAppend(a: Bytes, b: byte)
    ensures Hex(a + [b]) == Hex(a) + HexPair(b)
  {
    if a == [] {
      assert (a + [b])[1..] == [] && Hex([b]) == HexPair(b) + Hex([]);
    } else {
      HexAppend(a[1..], b);
      assert (a + [b])[1..] == a[1..] + [b];
    }
  }

  lemma {:induction false} UnhexAppend(hex: Bytes, high: byte, low: byte)
    requires |hex| % 2 == 0
    ensures |hex + [high, low]| % 2 == 0
    ensures Unhex(hex + [high, low]) ==
            match (Unhex(hex), DigitValue(high), DigitValue(low))
            case (Some(bytes), Some(h), Some(l)) => Some(bytes + [(16 * h + l) as byte])
            case _ => None
  {
    var longer := hex + [high, low];
    if hex == [] {
      assert longer[2..] == [] && Unhex(longer[2..]) == Some([]);
      if DigitValue(high).Some? && DigitValue(low).Some? {
        var last := (16 * DigitValue(high).value + DigitValue(low).value) as byte;
        assert [last] + [] == [] + [last];
      }
    } else {
      UnhexAppend(hex[2..], high, low);
      assert longer[2..] == hex[2..] + [high, low];
      if Unhex(hex).Some? && Unhex(longer).Some? {
        var last := (16 * DigitValue(high).value + DigitValue(low).value) as byte;
        var rest := Unhex(hex[2..]).value;
        assert Unhex(longer).value == [Unhex(hex).value[0]] + (rest + [last]);
        assert [Unhex(hex).value[0]] + (rest + [last]) == Unhex(hex).value + [last];
      }
    }
  }

  /** `encode_path`: the hexadecimal form is pushed byte by byte. */
  method EncodePath(bytes: Bytes) returns (out: Bytes)
    ensures out == Encode(bytes)
  {
    if Literal(bytes) {
      return bytes;
    }
    out := [PERCENT];
    for i := 0 to |bytes|
      invariant out == [PERCENT] + Hex(bytes[..i])
    {
      HexAppend(bytes[..i], bytes[i]);
      assert bytes[..i + 1] == bytes[..i] + [bytes[i]];
      out := out + [HexDigit(bytes[i] as int / 16)] + [HexDigit(bytes[i] as int % 16)];
    }
    assert bytes[..|bytes|] == bytes;
  }

  /** `decode_manifest_string`: pairs are read until one is not a pair of digits. */
  method DecodeManifestString(text: Bytes) returns (decoded: Option<Bytes>)
    ensures decoded == Decode(text)
  {
    if text == [] || text[0] != PERCENT {
      return Some(text);
    }
    var hex := text[1..];
    if |hex| % 2 != 0 {
      return None;
    }
    var bytes: Bytes := [];
    var i := 0;
    while i < |hex|
      invariant 0 <= i <= |hex| && i % 2 == 0
      invariant Unhex(hex[..i]) == Some(bytes)
    {
      UnhexAppend(hex[..i], hex[i], hex[i + 1]);
      assert hex[..i + 2] == hex[..i] + [hex[i], hex[i + 1]];
      var high, low := DigitValue(hex[i]), DigitValue(hex[i + 1]);
      if high.None? || low.None? {
        UnhexPrefix(hex, i + 2);
        return None;
      }
      bytes := bytes + [(16 * high.value + low.value) as byte];
      i := i + 2;
    }
    assert hex[..i] == hex;
    return Some(bytes);
  }

  lemma {:induction false} UnhexPrefix(hex: Bytes, n: nat)
    requires |hex| % 2 == 0 && n % 2 == 0 && n <= |hex| && Unhex(hex[..n]).None?
    ensures Unhex(hex).None?
    decreases |hex| - n
  {
    if n == |hex| {
      assert hex[..n] == hex;
    } else {
      UnhexAppend(hex[..n], hex[n], hex[n + 1]);
      assert hex[..n + 2] == hex[..n] + [hex[n], hex[n + 1]];
      UnhexPrefix(hex, n + 2);
    }
  }

  lemma {:induction false} UnhexHex(bytes: Bytes)
    ensures Unhex(Hex(bytes)) == Some(bytes)
  {
    if bytes != [] {
      UnhexHex(bytes[1..]);
      assert Hex(bytes)[2..] == Hex(bytes[1..]);
      assert bytes == [bytes[0]] + bytes[1..];
    }
  }

  /** Nothing a Workspace can name is lost by its spelling. */
  lemma RoundTrip(bytes: Bytes)
    ensures Decode(Encode(bytes)) == Some(bytes)
  {
    if !Literal(bytes) {
      UnhexHex(bytes);
      assert Encode(bytes)[1..] == Hex(bytes);
    }
  }

  /** The literal and the hexadecimal form never meet. */
  lemma EncodeInjective(a: Bytes, b: Bytes)
    requires Encode(a) == Encode(b)
    ensures a == b
  {
    RoundTrip(a);
    RoundTrip(b);
  }

  lemma {:induction false} AsciiIsUtf8(s: Bytes)
    requires forall i | 0 <= i < |s| :: s[i] <= 0x7F
    ensures Utf8(s)
  {
    if s != [] {
      AsciiIsUtf8(s[1..]);
    }
  }

  lemma {:induction false} HexIsLowercase(bytes: Bytes)
    ensures LowercaseHex(Hex(bytes))
  {
    if bytes != [] {
      HexIsLowercase(bytes[1..]);
    }
  }

  predicate LowercaseHex(s: Bytes) {
    forall i | 0 <= i < |s| :: 0x30 <= s[i] <= 0x39 || 0x61 <= s[i] <= 0x66
  }

  /** Every spelling is itself a legal string. */
  lemma EncodeIsUtf8(bytes: Bytes)
    ensures Utf8(Encode(bytes))
  {
    if !Literal(bytes) {
      HexIsLowercase(bytes);
      AsciiIsUtf8(Encode(bytes));
    }
  }

  /** A lowercase pair of digits is what its byte is written as. */
  lemma PairRewritten(high: byte, low: byte)
    requires 0x30 <= high <= 0x39 || 0x61 <= high <= 0x66
    requires 0x30 <= low <= 0x39 || 0x61 <= low <= 0x66
    ensures DigitValue(high).Some? && DigitValue(low).Some?
    ensures HexPair((16 * DigitValue(high).value + DigitValue(low).value) as byte) == [high, low]
  {
  }

  lemma {:induction false} HexUnhex(hex: Bytes, bytes: Bytes)
    requires |hex| % 2 == 0 && LowercaseHex(hex) && Unhex(hex) == Some(bytes)
    ensures Hex(bytes) == hex
  {
    if hex != [] {
      PairRewritten(hex[0], hex[1]);
      HexUnhex(hex[2..], bytes[1..]);
      assert hex == [hex[0], hex[1]] + hex[2..];
    }
  }

  /** The spellings that are written, told apart from the ones that are merely read. */
  predicate CanonicalSpelling(text: Bytes, bytes: Bytes) {
    if text == [] || text[0] != PERCENT then PERCENT !in text
    else LowercaseHex(text[1..]) && !Literal(bytes)
  }

  /** `decode` also accepts uppercase digits, needless escapes and an inner `%`; exactly the
      canonical spellings survive the reverse round trip. */
  lemma ReverseRoundTrip(text: Bytes, bytes: Bytes)
    requires Utf8(text) && Decode(text) == Some(bytes)
    ensures Encode(bytes) == text <==> CanonicalSpelling(text, bytes)
  {
    if text != [] && text[0] == PERCENT {
      assert text == [PERCENT] + text[1..];
      if LowercaseHex(text[1..]) {
        HexUnhex(text[1..], bytes);
      }
      HexIsLowercase(bytes);
      if Encode(bytes) == text {
        assert !Literal(bytes);
        assert text[1..] == Hex(bytes);
      }
    }
  }

  /** A spelling that decodes but is never written: `%41` for the path `A`. */
  lemma NeedlessEscapeDecodes()
    ensures Decode([PERCENT, 0x34, 0x31]) == Some([0x41])
    ensures Encode([0x41]) == [0x41]
  {
    var text: Bytes := [PERCENT, 0x34, 0x31];
    var hex: Bytes := text[1..];
    assert hex == [0x34, 0x31] && hex[2..] == [] && Unhex(hex[2..]) == Some([]);
    assert [0x41 as byte] + [] == [0x41];
    assert Unhex(hex) == Some([0x41]);
    assert Utf8([0x41]) by { AsciiIsUtf8([0x41]); }
  }

  // ---------------------------------------------------------------- RepositoryPath

  datatype PathRefusal =
    | EmptyPath
    | PathTooLong
    | ContainsNul
    | Absolute
    | EmptyComponent
    | DotComponent
    | DotDotComponent
    | ComponentTooLong
    | NotASpelling

  /** The components of a path, split at every `/`. */
  function Components(bytes: Bytes): (cs: seq<Bytes>)
    ensures cs != []
  {
    if bytes == [] then [[]]
    else
      var rest := Components(bytes[1..]);
      if bytes[0] == SLASH then [[]] + rest else [[bytes[0]] + rest[0]] + rest[1..]
  }

  function Join(components: seq<Bytes>): Bytes
    requires components != []
  {
    if |components| == 1 then components[0] else components[0] + [SLASH] + Join(components[1..])
  }

  function ComponentRefusal(component: Bytes): Option<PathRefusal> {
    if component == [] then Some(EmptyComponent)
    else if component == [DOT] then Some(DotComponent)
    else if component == [DOT, DOT] then Some(DotDotComponent)
    else if |component| > MAX_COMPONENT_BYTES then Some(ComponentTooLong)
    else None
  }

  function FirstRefusal(components: seq<Bytes>): Option<PathRefusal> {
    if components == [] then None
    else if ComponentRefusal(components[0]).Some? then ComponentRefusal(components[0])
    else FirstRefusal(components[1..])
  }

  /** `RepositoryPath::from_bytes`. */
  function FromBytes(bytes: Bytes): (path: Result<Bytes, PathRefusal>)
    ensures path.Ok? ==> path.value == bytes
  {
    if bytes == [] then Err(EmptyPath)
    else if |bytes| > MAX_PATH_BYTES then Err(PathTooLong)
    else if 0 in bytes then Err(ContainsNul)
    else if bytes[0] == SLASH then Err(Absolute)
    else match FirstRefusal(Components(bytes))
         case Some(reason) => Err(reason)
         case None => Ok(bytes)
  }

  function FromManifestString(text: Bytes): Result<Bytes, PathRefusal> {
    match Decode(text)
    case None => Err(NotASpelling)
    case Some(bytes) => FromBytes(bytes)
  }

  /** What an accepted path is, said without the order in which the rules are tried. */
  ghost predicate ValidPath(bytes: Bytes) {
    && 0 < |bytes| <= MAX_PATH_BYTES
    && 0 !in bytes
    && forall c | c in Components(bytes) :: c !in {[], [DOT], [DOT, DOT]} && |c| <= MAX_COMPONENT_BYTES
  }

  lemma {:induction false} ComponentsSlashFree(bytes: Bytes)
    ensures forall c | c in Components(bytes) :: SLASH !in c
  {
    if bytes != [] {
      ComponentsSlashFree(bytes[1..]);
      var rest := Components(bytes[1..]);
      assert rest[0] in rest;
    }
  }

  /** Splitting loses nothing. */
  lemma {:induction false} JoinComponents(bytes: Bytes)
    ensures Join(Components(bytes)) == bytes
  {
    if bytes != [] {
      JoinComponents(bytes[1..]);
      var rest := Components(bytes[1..]);
      assert bytes == [bytes[0]] + bytes[1..];
      assert Components(bytes)[1..] == if bytes[0] == SLASH then rest else rest[1..];
    }
  }

  lemma {:induction false} FirstRefusalNone(components: seq<Bytes>)
    ensures FirstRefusal(components).None?
       <==> forall c | c in components :: c !in {[], [DOT], [DOT, DOT]} && |c| <= MAX_COMPONENT_BYTES
  {
    if components != [] {
      FirstRefusalNone(components[1..]);
      assert components == [components[0]] + components[1..];
    }
  }

  /** A path is accepted exactly when it is a nonempty relative path of ordinary components. */
  lemma AcceptsExactlyValidPaths(bytes: Bytes)
    ensures FromBytes(bytes).Ok? <==> ValidPath(bytes)
  {
    FirstRefusalNone(Components(bytes));
    if bytes != [] && bytes[0] == SLASH {
      assert Components(bytes)[0] == [];
      assert [] in Components(bytes);
    }
  }

  predicate Ordinary(component: Bytes) {
    component !in {[], [DOT], [DOT, DOT]} && |component| <= MAX_COMPONENT_BYTES
  }

  lemma {:induction false} FirstBadComponent(components: seq<Bytes>) returns (i: nat)
    ensures i <= |components| && forall k | 0 <= k < i :: Ordinary(components[k])
    ensures if i == |components| then FirstRefusal(components) == None
      else !Ordinary(components[i]) && FirstRefusal(components) == ComponentRefusal(components[i])
  {
    i := 0;
    if components != [] && Ordinary(components[0]) {
      var k := FirstBadComponent(components[1..]);
      i := k + 1;
      assert forall j | 1 <= j < i :: components[j] == components[1..][j - 1];
    }
  }

  /** Why a path is refused: told by the whole path first, then by its first component that is not
      ordinary. */
  lemma RefusedFor(bytes: Bytes) returns (i: nat)
    requires FromBytes(bytes).Err?
    ensures FromBytes(bytes).error == EmptyPath <==> bytes == []
    ensures FromBytes(bytes).error == PathTooLong <==> |bytes| > 4096
    ensures FromBytes(bytes).error == ContainsNul <==> 0 < |bytes| <= 4096 && 0 in bytes
    ensures FromBytes(bytes).error == Absolute <==> 0 < |bytes| <= 4096 && 0 !in bytes && bytes[0] == SLASH
    ensures 0 < |bytes| <= 4096 && 0 !in bytes && bytes[0] != SLASH ==>
      var (cs, why) := (Components(bytes), FromBytes(bytes).error);
      && i < |cs| && !Ordinary(cs[i]) && (forall k | 0 <= k < i :: Ordinary(cs[k]))
      && (why == EmptyComponent <==> cs[i] == []) && (why == DotComponent <==> cs[i] == [DOT])
      && (why == DotDotComponent <==> cs[i] == [DOT, DOT]) && (why == ComponentTooLong <==> |cs[i]| > 255)
  {
    i := FirstBadComponent(Components(bytes));
  }

  /** Every valid path survives capture, spelling and rereading. */
  lemma ManifestRoundTrip(bytes: Bytes)
    requires ValidPath(bytes)
    ensures FromManifestString(Encode(bytes)) == Ok(bytes)
  {
    RoundTrip(bytes);
    AcceptsExactlyValidPaths(bytes);
  }
}
