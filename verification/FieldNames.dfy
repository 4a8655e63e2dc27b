/** How a form names its fields and files: percent-encoding of names, quoted-pair escaping of file
    names, and what undoes each of them. */
module FieldNames {
  import opened Wrappers

  datatype PercentEncoding = PathSegment | AttrChar | NoOp

  // ----- the encode sets

  predicate IsControl(b: byte) {
    b as int < 0x20 || b as int == 0x7F
  }

  predicate IsAlphanumeric(b: byte) {
    IsDigit(b) || 'a' <= b <= 'z' || 'A' <= b <= 'Z'
  }

  predicate InFragmentSet(b: byte) {
    IsControl(b) || b in [' ', '"', '<', '>', '`']
  }

  predicate InPathSet(b: byte) {
    InFragmentSet(b) || b in ['#', '?', '{', '}']
  }

  predicate InPathSegmentSet(b: byte) {
    InPathSet(b) || b in ['/', '%']
  }

  predicate InAttrCharSet(b: byte) {
    !IsAlphanumeric(b) && b !in ['!', '#', '$', '&', '+', '-', '.', '^', '_', '`', '|', '~']
  }

  /** Bytes outside ASCII are encoded whatever the set says. */
  predicate MustEncode(mode: PercentEncoding, b: byte) {
    match mode
    case PathSegment => b as int >= 0x80 || InPathSegmentSet(b)
    case AttrChar => b as int >= 0x80 || InAttrCharSet(b)
    case NoOp => false
  }

  function EncodeByte(mode: PercentEncoding, b: byte): Bytes {
    if MustEncode(mode, b) then ['%', Digit(b as int / 16), Digit(b as int % 16)] else [b]
  }

  function PercentEncode(mode: PercentEncoding, s: Bytes): Bytes {
    if s == [] then [] else EncodeByte(mode, s[0]) + PercentEncode(mode, s[1..])
  }

  // ----- percent-decoding

  function HexValue(b: byte): Option<nat> {
    if IsDigit(b) then Some(b as int - '0' as int)
    else if 'A' <= b <= 'F' then Some(b as int - 'A' as int + 10)
    else if 'a' <= b <= 'f' then Some(b as int - 'a' as int + 10)
    else None
  }

  /** A percent sign that two hexadecimal digits do not follow stands for itself. */
  function PercentDecode(s: Bytes): Bytes {
    if s == [] then []
    else if |s| >= 3 && s[0] == '%' && HexValue(s[1]).Some? && HexValue(s[2]).Some?
         && HexValue(s[1]).value * 16 + HexValue(s[2]).value < 256 then
      [(HexValue(s[1]).value * 16 + HexValue(s[2]).value) as char] + PercentDecode(s[3..])
    else [s[0]] + PercentDecode(s[1..])
  }

  lemma HexDigits(n: nat)
    requires n < 256
    ensures HexValue(Digit(n / 16)) == Some(n / 16) && HexValue(Digit(n % 16)) == Some(n % 16)
    ensures n / 16 * 16 + n % 16 == n
  {
  }

  /** Byte by byte: a capital hexadecimal number behind a percent sign for what must be encoded, and the byte
      itself for all else. */
  lemma {:induction false} EncodedByteByByte(mode: PercentEncoding, a: Bytes, b: byte)
    ensures PercentEncode(mode, a + [b])
            == PercentEncode(mode, a)
               + if MustEncode(mode, b)
                 then ['%', "0123456789ABCDEF"[b as int / 16], "0123456789ABCDEF"[b as int % 16]] else [b]
  {
    if a == [] {
      assert [] + [b] == [b] && [b][1..] == [];
      HexDigit(b as int / 16);
      HexDigit(b as int % 16);
    } else {
      hide EncodeByte, MustEncode;
      assert (a + [b])[1..] == a[1..] + [b];
      EncodedByteByByte(mode, a[1..], b);
    }
  }

  lemma HexDigit(n: nat)
    requires n < 16
    ensures Digit(n) == "0123456789ABCDEF"[n]
  {
  }

  /** The bytes that the path-segment set encodes: all but visible ASCII characters, and of these ten. */
  lemma PathSegmentEncodes(b: byte)
    ensures MustEncode(PathSegment, b)
            <==> b as int <= 0x20 || b as int >= 0x7F || b in "\"#%/<>?`{}"
  {
  }

  lemma PercentIsEncoded(mode: PercentEncoding)
    requires !mode.NoOp?
    ensures MustEncode(mode, '%')
  {
  }

  /** Percent-decoding undoes percent-encoding, for both sets that encode the percent sign. */
  lemma {:induction false} DecodeUndoesEncode(mode: PercentEncoding, s: Bytes)
    requires !mode.NoOp?
    ensures PercentDecode(PercentEncode(mode, s)) == s
  {
    hide MustEncode, HexValue, Digit;
    if s != [] {
      PercentIsEncoded(mode);
      DecodeUndoesEncode(mode, s[1..]);
      var e, rest := EncodeByte(mode, s[0]), PercentEncode(mode, s[1..]);
      HexDigits(s[0] as int);
      assert (e + rest)[|e|..] == rest;
      assert [s[0]] + s[1..] == s;
    }
  }

  /** What is emitted is ASCII without quotes and control bytes, except under `NoOp`. */
  lemma {:induction false} EncodedIsSafe(mode: PercentEncoding, s: Bytes)
    requires !mode.NoOp?
    ensures forall b :: b in PercentEncode(mode, s) ==> b as int < 0x80 && !IsControl(b) && b != '"'
  {
    if s != [] {
      EncodedIsSafe(mode, s[1..]);
      assert forall b :: b in EncodeByte(mode, s[0]) ==> b as int < 0x80 && !IsControl(b) && b != '"';
    }
  }

  lemma {:induction false} UnchangedIff(mode: PercentEncoding, s: Bytes)
    ensures PercentEncode(mode, s) == s <==> forall b :: b in s ==> !MustEncode(mode, b)
    ensures |PercentEncode(mode, s)| >= |s|
  {
    if s != [] {
      UnchangedIff(mode, s[1..]);
      var e, rest := EncodeByte(mode, s[0]), PercentEncode(mode, s[1..]);
      assert s == [s[0]] + s[1..];
      if MustEncode(mode, s[0]) {
        assert |e + rest| > |s|;
      } else {
        assert (e + rest)[1..] == rest;
      }
    }
  }

  // ----- the name parameter

  /** The name as it stands in quotes, or the extended notation once anything had to be encoded. */
  function NameParameter(mode: PercentEncoding, name: Bytes): Bytes {
    var value := PercentEncode(mode, name);
    if value == name then "name=\"" + value + "\"" else "name*=utf-8''" + value
  }

  /** A name stands in quotes exactly if none of its bytes must be encoded. */
  lemma ParameterForm(mode: PercentEncoding, name: Bytes)
    ensures NameParameter(mode, name)
            == if forall b :: b in name ==> !MustEncode(mode, b) then "name=\"" + name + "\""
               else "name*=utf-8''" + PercentEncode(mode, name)
  {
    hide MustEncode, PercentEncode;
    UnchangedIff(mode, name);
  }

  predicate IsPlain(mode: PercentEncoding, name: Bytes) {
    PercentEncode(mode, name) == name
  }

  predicate QuotesSafely(name: Bytes) {
    forall b :: b in name ==> b != '"' && !IsControl(b)
  }

  lemma {:induction false} NoOpChangesNothing(s: Bytes)
    ensures PercentEncode(NoOp, s) == s
  {
    if s != [] {
      NoOpChangesNothing(s[1..]);
    }
  }

  /** A name emitted in plain quotes has no quote and no control byte, unless percent-encoding is
      switched off and the name has one. */
  lemma PlainNameSafety(mode: PercentEncoding, name: Bytes)
    ensures (IsPlain(mode, name) ==> QuotesSafely(name)) <==> (!mode.NoOp? || QuotesSafely(name))
  {
    if mode.NoOp? {
      NoOpChangesNothing(name);
    } else {
      EncodedIsSafe(mode, name);
    }
  }

  /** `tchar` of section 5.6.2 of RFC 9110. */
  predicate IsTokenChar(b: byte) {
    IsAlphanumeric(b) || b in "!#$%&'*+-.^_`|~"
  }

  /** `attr-char` of section 3.2.1 of RFC 8187, which with percent-encoded bytes makes up an
      extended value. */
  predicate IsAttrChar(b: byte) {
    IsTokenChar(b) && b != '*' && b != '\'' && b != '%'
  }

  predicate IsValueChar(b: byte) {
    IsAttrChar(b) || b == '%'
  }

  /** An extended value ends where no value character follows. */
  function ReadExtended(s: Bytes): Bytes {
    if s != [] && IsValueChar(s[0]) then [s[0]] + ReadExtended(s[1..]) else []
  }

  /** How much of the name comes before the first byte that is emitted as it is although an extended
      value may not hold it. */
  function Readable(mode: PercentEncoding, name: Bytes): (k: nat)
    ensures k <= |name|
    ensures k == |name| <==> forall b :: b in name ==> MustEncode(mode, b) || IsAttrChar(b)
  {
    if name == [] then 0
    else if MustEncode(mode, name[0]) || IsAttrChar(name[0]) then
      assert name == [name[0]] + name[1..];
      1 + Readable(mode, name[1..])
    else 0
  }

  /** The encode set of the source is the complement of the `attr-char` grammar. */
  lemma AttrCharSetIsComplete()
    ensures forall b: byte :: InAttrCharSet(b) <==> !IsAttrChar(b)
  {
  }

  lemma ReadOne(b: byte, x: Bytes)
    requires IsValueChar(b)
    ensures ReadExtended([b] + x) == [b] + ReadExtended(x)
  {
    assert ([b] + x)[1..] == x;
  }

  lemma DigitIsValueChar(n: nat)
    requires n < 16
    ensures IsValueChar(Digit(n))
  {
  }

  lemma ReadHead(mode: PercentEncoding, b: byte, x: Bytes)
    requires !mode.NoOp?
    ensures ReadExtended(EncodeByte(mode, b) + x)
            == if MustEncode(mode, b) || IsAttrChar(b) then EncodeByte(mode, b) + ReadExtended(x) else []
  {
    hide MustEncode, IsAttrChar, Digit;
    var s := EncodeByte(mode, b) + x;
    PercentIsEncoded(mode);
    if MustEncode(mode, b) {
      var high, low := Digit(b as int / 16), Digit(b as int % 16);
      DigitIsValueChar(b as int / 16);
      DigitIsValueChar(b as int % 16);
      ReadOne(low, x);
      ReadOne(high, [low] + x);
      ReadOne('%', [high] + ([low] + x));
      assert s == ['%'] + ([high] + ([low] + x));
    } else {
      assert s[1..] == x;
    }
  }

  lemma NothingToRead(mode: PercentEncoding, rest: Bytes)
    requires rest == [] || !IsValueChar(rest[0])
    ensures PercentEncode(mode, []) == [] && Readable(mode, []) == 0 && ReadExtended([] + rest) == []
  {
    assert [] + rest == rest;
  }

  lemma FirstByte(mode: PercentEncoding, name: Bytes)
    requires name != []
    ensures PercentEncode(mode, name) == EncodeByte(mode, name[0]) + PercentEncode(mode, name[1..])
    ensures Readable(mode, name)
            == if MustEncode(mode, name[0]) || IsAttrChar(name[0]) then 1 + Readable(mode, name[1..]) else 0
  {
  }

  lemma EncodePrefix(mode: PercentEncoding, name: Bytes, k: nat)
    requires 0 < k <= |name|
    ensures PercentEncode(mode, name[..k]) == EncodeByte(mode, name[0]) + PercentEncode(mode, name[1..][..k - 1])
  {
    assert name[..k][1..] == name[1..][..k - 1];
  }

  lemma {:induction false} ReaderStops(mode: PercentEncoding, name: Bytes, rest: Bytes)
    requires !mode.NoOp?
    requires rest == [] || !IsValueChar(rest[0])
    ensures ReadExtended(PercentEncode(mode, name) + rest) == PercentEncode(mode, name[..Readable(mode, name)])
  {
    hide ReadExtended, PercentEncode, Readable, EncodeByte, MustEncode, IsAttrChar;
    if name == [] {
      NothingToRead(mode, rest);
    } else {
      FirstByte(mode, name);
      var e, tail := EncodeByte(mode, name[0]), PercentEncode(mode, name[1..]);
      ReaderStops(mode, name[1..], rest);
      ReadHead(mode, name[0], tail + rest);
      Concat(e, tail, rest);
      var k := Readable(mode, name);
      if k > 0 {
        EncodePrefix(mode, name, k);
      } else {
        NothingToRead(mode, rest);
        assert name[..k] == [];
      }
    }
  }

  lemma Concat(a: Bytes, b: Bytes, c: Bytes)
    ensures a + b + c == a + (b + c)
  {
  }

  /** A reader of extended values gets the whole name back: always for the `attr-char` set, and for
      the path-segment set exactly when the name has no byte that this set leaves alone although
      an extended value may not hold it, such as a semicolon. */
  lemma ExtendedNameReadBack(mode: PercentEncoding, name: Bytes, rest: Bytes)
    requires !mode.NoOp?
    requires rest == [] || !IsValueChar(rest[0])
    ensures PercentDecode(ReadExtended(PercentEncode(mode, name) + rest)) == name
            <==> mode.AttrChar? || forall b :: b in name ==> InPathSegmentSet(b) || b as int >= 0x80 || IsAttrChar(b)
  {
    hide IsAttrChar, PercentEncode, PercentDecode, ReadExtended, Readable;
    var k := Readable(mode, name);
    ReaderStops(mode, name, rest);
    DecodeUndoesEncode(mode, name[..k]);
    AttrCharSetIsComplete();
    assert name[..k] == name <==> k == |name|;
  }

  // ----- file names

  /** `str::replace` of one character. */
  function Replace(s: Bytes, c: byte, replacement: Bytes): Bytes {
    if s == [] then [] else (if s[0] == c then replacement else [s[0]]) + Replace(s[1..], c, replacement)
  }

  function LegalFilename(name: Bytes): Bytes {
    Replace(Replace(Replace(Replace(name, '\\', "\\\\"), '"', "\\\""), '\r', "\\\r"), '\n', "\\\n")
  }

  predicate NeedsEscape(b: byte) {
    b == '\\' || b == '"' || b == '\r' || b == '\n'
  }

  /** Quoted-pair escaping in a single pass. */
  function QuotedPairs(s: Bytes): Bytes {
    if s == [] then [] else (if NeedsEscape(s[0]) then ['\\', s[0]] else [s[0]]) + QuotedPairs(s[1..])
  }

  /** Reads the inside of a quoted-string up to the closing quote: the unescaped text and what follows the
      quote. Takes any bytes in it, as a lenient receiver does. */
  function ReadQuoted(s: Bytes): Option<(Bytes, Bytes)> {
    if s == [] then None
    else if s[0] == '"' then Some(([], s[1..]))
    else if s[0] == '\\' then
      if |s| == 1 then None else
      var (text, rest) :- ReadQuoted(s[2..]);
      Some(([s[1]] + text, rest))
    else
      var (text, rest) :- ReadQuoted(s[1..]);
      Some(([s[0]] + text, rest))
  }

  lemma {:induction false} ReplaceConcat(a: Bytes, b: Bytes, c: byte, replacement: Bytes)
    ensures Replace(a + b, c, replacement) == Replace(a, c, replacement) + Replace(b, c, replacement)
  {
    if a == [] {
      assert a + b == b;
    } else {
      assert (a + b)[1..] == a[1..] + b;
      ReplaceConcat(a[1..], b, c, replacement);
    }
  }

  /** The four replacements one after another come to a single pass: later ones do not touch what
      earlier ones put in. */
  lemma {:induction false} ReplacementsAreOnePass(name: Bytes)
    ensures LegalFilename(name) == QuotedPairs(name)
  {
    if name != [] {
      var b, rest := name[0], name[1..];
      ReplacementsAreOnePass(rest);
      var r1 := Replace(rest, '\\', "\\\\");
      var r2 := Replace(r1, '"', "\\\"");
      var r3 := Replace(r2, '\r', "\\\r");
      var h1 := Replace([b], '\\', "\\\\");
      var h2 := Replace(h1, '"', "\\\"");
      var h3 := Replace(h2, '\r', "\\\r");
      assert name == [b] + rest;
      ReplaceConcat([b], rest, '\\', "\\\\");
      ReplaceConcat(h1, r1, '"', "\\\"");
      ReplaceConcat(h2, r2, '\r', "\\\r");
      ReplaceConcat(h3, r3, '\n', "\\\n");
      HeadReplaced(b);
    }
  }

  lemma ReplaceOne(b: byte, c: byte, replacement: Bytes)
    ensures Replace([b], c, replacement) == if b == c then replacement else [b]
  {
    assert [b][1..] == [];
  }

  lemma ReplaceTwo(a: byte, b: byte, c: byte, replacement: Bytes)
    ensures Replace([a, b], c, replacement) == (if a == c then replacement else [a]) + (if b == c then replacement else [b])
  {
    assert [a, b][1..] == [b];
    ReplaceOne(b, c, replacement);
  }

  lemma HeadReplaced(b: byte)
    ensures LegalFilename([b]) == if NeedsEscape(b) then ['\\', b] else [b]
  {
    ReplaceOne(b, '\\', "\\\\");
    ReplaceOne(b, '"', "\\\"");
    ReplaceOne(b, '\r', "\\\r");
    ReplaceOne(b, '\n', "\\\n");
    ReplaceTwo('\\', b, '"', "\\\"");
    ReplaceTwo('\\', b, '\r', "\\\r");
    ReplaceTwo('\\', b, '\n', "\\\n");
  }

  /** Any file name at all, escaped and closed with a quote, is read back whole, and the reader stops
      at that very quote. */
  lemma {:induction false} FilenameReadBack(name: Bytes, rest: Bytes)
    ensures ReadQuoted(LegalFilename(name) + "\"" + rest) == Some((name, rest))
  {
    ReplacementsAreOnePass(name);
    QuotedPairsReadBack(name, rest);
  }

  lemma {:induction false} QuotedPairsReadBack(name: Bytes, rest: Bytes)
    ensures ReadQuoted(QuotedPairs(name) + "\"" + rest) == Some((name, rest))
  {
    var s := QuotedPairs(name) + "\"" + rest;
    if name == [] {
      assert s[1..] == rest;
    } else {
      QuotedPairsReadBack(name[1..], rest);
      var tail := QuotedPairs(name[1..]) + "\"" + rest;
      assert s == (if NeedsEscape(name[0]) then ['\\', name[0]] else [name[0]]) + tail;
      assert [name[0]] + name[1..] == name;
    }
  }

  // ----- the whole disposition

  function Disposition(mode: PercentEncoding, name: Bytes, fileName: Option<Bytes>): Bytes {
    NameParameter(mode, name) + FileNamePart(fileName)
  }

  function FileNamePart(fileName: Option<Bytes>): Bytes {
    match fileName
    case None => []
    case Some(file) => "; filename=\"" + LegalFilename(file) + "\""
  }
}
