/** Reading a disposition: which field names and file names a receiver gets back. */
module Dispositions {
  import opened Wrappers
  import opened FieldNames

  // ----- a strict reader of quoted-strings

  /** Tab, space, visible characters and bytes outside ASCII. */
  predicate IsFieldByte(b: byte) {
    b == '\t' || !IsControl(b)
  }

  predicate IsFieldText(s: Bytes) {
    forall b :: b in s ==> IsFieldByte(b)
  }

  /** The same as `ReadQuoted` for no more than section 5.6.4 of RFC 9110 allows: neither quoted text nor
      a quoted pair may hold other bytes. */
  function ReadQuotedStrictly(s: Bytes): Option<(Bytes, Bytes)> {
    if s == [] then None
    else if s[0] == '"' then Some(([], s[1..]))
    else if s[0] == '\\' then
      if |s| == 1 || !IsFieldByte(s[1]) then None else
      var (text, rest) :- ReadQuotedStrictly(s[2..]);
      Some(([s[1]] + text, rest))
    else if !IsFieldByte(s[0]) then None
    else
      var (text, rest) :- ReadQuotedStrictly(s[1..]);
      Some(([s[0]] + text, rest))
  }

  function ReadText(strict: bool, s: Bytes): Option<(Bytes, Bytes)> {
    if strict then ReadQuotedStrictly(s) else ReadQuoted(s)
  }

  /** The strict reader gives what the lenient one does, or nothing if that text is not fit for a field. */
  lemma {:induction false} StrictIsFiltered(s: Bytes)
    ensures ReadQuotedStrictly(s)
            == var r := ReadQuoted(s); if r.Some? && IsFieldText(r.value.0) then r else None
  {
    if s != [] && s[0] != '"' && !(s[0] == '\\' && |s| == 1) {
      var step := if s[0] == '\\' then 2 else 1;
      StrictIsFiltered(s[step..]);
      var r := ReadQuoted(s[step..]);
      if r.Some? {
        TextOneMore(s[step - 1], r.value.0);
      }
    }
  }

  lemma TextOneMore(b: byte, text: Bytes)
    ensures IsFieldText([b] + text) <==> IsFieldByte(b) && IsFieldText(text)
  {
    assert b == ([b] + text)[0];
    assert forall c :: c in text ==> c in [b] + text;
  }

  /** Every file name fit for a field is read back, whole and up to its closing quote; any other is
      refused by a strict receiver. */
  lemma StrictFilename(name: Bytes, rest: Bytes)
    ensures ReadQuotedStrictly(LegalFilename(name) + "\"" + rest)
            == if IsFieldText(name) then Some((name, rest)) else None
  {
    FilenameReadBack(name, rest);
    StrictIsFiltered(LegalFilename(name) + "\"" + rest);
  }

  // ----- the whole disposition

  predicate StartsWith(s: Bytes, prefix: Bytes) {
    |prefix| <= |s| && forall i :: 0 <= i < |prefix| ==> s[i] == prefix[i]
  }

  const PLAIN_NAME: Bytes := "name=\""
  const EXTENDED_NAME: Bytes := "name*=utf-8''"
  const FILE_NAME: Bytes := "; filename=\""

  function ReadName(strict: bool, s: Bytes): Option<(Bytes, Bytes)> {
    if StartsWith(s, PLAIN_NAME) then ReadText(strict, s[|PLAIN_NAME|..])
    else if StartsWith(s, EXTENDED_NAME) then
      var value := ReadExtended(s[|EXTENDED_NAME|..]);
      ReadExtendedShort(s[|EXTENDED_NAME|..]);
      Some((PercentDecode(value), s[|EXTENDED_NAME| + |value|..]))
    else None
  }

  lemma {:induction false} ReadExtendedShort(s: Bytes)
    ensures |ReadExtended(s)| <= |s|
  {
    if s != [] && IsValueChar(s[0]) {
      ReadExtendedShort(s[1..]);
    }
  }

  /** The field name and the file name of a disposition, and what follows them. */
  function ReadDisposition(strict: bool, s: Bytes): Option<(Bytes, Option<Bytes>, Bytes)> {
    var (name, rest) :- ReadName(strict, s);
    if StartsWith(rest, FILE_NAME) then
      var (file, after) :- ReadText(strict, rest[|FILE_NAME|..]);
      Some((name, Some(file), after))
    else Some((name, None, rest))
  }

  /** What a quoted-string leaves as it is. */
  predicate IsVerbatim(name: Bytes) {
    '"' !in name && '\\' !in name
  }

  /** A plain name is emitted without escaping, so a quoted-string reader gets it back exactly when it
      has nothing to escape. */
  lemma {:induction false} PlainReadBack(name: Bytes, rest: Bytes)
    ensures var r := ReadQuoted(name + "\"" + rest);
            && (IsVerbatim(name) ==> r == Some((name, rest)))
            && (r.Some? && r.value.0 == name ==> IsVerbatim(name))
  {
    var s := name + "\"" + rest;
    if name == [] {
      assert s[1..] == rest;
    } else if name[0] == '\\' {
      if |name| >= 2 && name[1] == '\\' {
        BackslashesRunOut(name, s, 1);
      }
    } else if name[0] != '"' {
      assert s[1..] == name[1..] + "\"" + rest;
      PlainReadBack(name[1..], rest);
      assert [name[0]] + name[1..] == name;
    }
  }

  /** After the first backslash each byte of text costs two: were the text the name, the name would be
      nothing but backslashes, and still end in a quote. */
  lemma {:induction false} BackslashesRunOut(name: Bytes, s: Bytes, j: nat)
    requires name < s && s[|name|] == '"'
    requires 0 < j && 2 * j <= |name| && forall i :: 0 <= i < 2 * j ==> name[i] == '\\'
    ensures var r := ReadQuoted(s[2 * j..]); r.Some? ==> r.value.0 != name[j..]
    decreases |name| - j
  {
    var tail := s[2 * j..];
    assert name[j..][0] == '\\';
    if |tail| >= 2 && tail[0] == '\\' && tail[1] == '\\' {
      assert s[2 * j] == s[2 * j + 1] == '\\' && tail[2..] == s[2 * (j + 1)..];
      BackslashesRunOut(name, s, j + 1);
      assert name[j..][1..] == name[j + 1..];
    }
  }

  lemma PrefixOf(a: Bytes, b: Bytes)
    ensures StartsWith(a + b, a) && (a + b)[|a|..] == b
  {
  }

  /** Either reader gets a plain name back exactly when there is nothing in it to escape, and, if it is
      strict, nothing unfit for a field. */
  lemma PlainTextRead(strict: bool, name: Bytes, rest: Bytes)
    ensures var r := ReadText(strict, name + "\"" + rest);
            if IsVerbatim(name) && (strict ==> IsFieldText(name)) then r == Some((name, rest))
            else r.Some? ==> r.value.0 != name
  {
    PlainReadBack(name, rest);
    StrictIsFiltered(name + "\"" + rest);
  }

  lemma PlainNameRead(strict: bool, name: Bytes, rest: Bytes)
    ensures ReadName(strict, "name=\"" + name + "\"" + rest) == ReadText(strict, name + "\"" + rest)
  {
    hide ReadText;
    var s := name + "\"" + rest;
    assert "name=\"" + name + "\"" + rest == PLAIN_NAME + s;
    PrefixOf(PLAIN_NAME, s);
  }

  lemma ExtendedRead(strict: bool, s: Bytes)
    ensures |ReadExtended(s)| <= |s|
    ensures ReadName(strict, EXTENDED_NAME + s) == Some((PercentDecode(ReadExtended(s)), s[|ReadExtended(s)|..]))
  {
    hide ReadText;
    ReadExtendedShort(s);
    PrefixOf(EXTENDED_NAME, s);
    var all := EXTENDED_NAME + s;
    assert all[4] != PLAIN_NAME[4];
    assert all[13 + |ReadExtended(s)|..] == s[|ReadExtended(s)|..];
  }

  /** An extended name is read up to the first byte that an extended value may not hold. */
  lemma ExtendedParameterRead(strict: bool, mode: PercentEncoding, name: Bytes, rest: Bytes)
    requires !mode.NoOp? && !IsPlain(mode, name)
    requires rest == [] || !IsValueChar(rest[0])
    ensures var r := ReadName(strict, NameParameter(mode, name) + rest);
            && r.Some? && r.value.0 == name[..Readable(mode, name)]
            && (Readable(mode, name) == |name| ==> r.value.1 == rest)
  {
    var value := PercentEncode(mode, name);
    assert NameParameter(mode, name) + rest == EXTENDED_NAME + (value + rest);
    ExtendedRead(strict, value + rest);
    ReaderStops(mode, name, rest);
    DecodeUndoesEncode(mode, name[..Readable(mode, name)]);
    assert (value + rest)[|value|..] == rest;
    assert name[..|name|] == name;
  }

  /** The names that a receiver gets back: in plain quotes those with nothing to escape and, for a strict
      receiver, nothing unfit for a field; in the extended notation those that leave no byte bare that
      an extended value may not hold. */
  predicate ReadsBack(strict: bool, mode: PercentEncoding, name: Bytes) {
    if IsPlain(mode, name) then IsVerbatim(name) && (strict ==> IsFieldText(name))
    else Readable(mode, name) == |name|
  }

  /** The file names that it gets back: all of them, unless it is strict. */
  predicate FileReadsBack(strict: bool, fileName: Option<Bytes>) {
    strict && fileName.Some? ==> IsFieldText(fileName.value)
  }

  lemma ParameterReadBack(strict: bool, mode: PercentEncoding, name: Bytes, rest: Bytes)
    requires rest == [] || !IsValueChar(rest[0])
    ensures var r := ReadName(strict, NameParameter(mode, name) + rest);
            if ReadsBack(strict, mode, name) then r == Some((name, rest)) else r.Some? ==> r.value.0 != name
  {
    hide ReadText;
    if IsPlain(mode, name) {
      PlainNameRead(strict, name, rest);
      PlainTextRead(strict, name, rest);
    } else {
      if mode.NoOp? {
        NoOpChangesNothing(name);
      }
      ExtendedParameterRead(strict, mode, name, rest);
      assert |name[..Readable(mode, name)]| == Readable(mode, name);
      assert name[..|name|] == name;
    }
  }

  /** The `attr-char` set encodes quotes, backslashes and all else that an extended value may not hold. */
  lemma AttrCharReadsBack(strict: bool, name: Bytes)
    ensures ReadsBack(strict, AttrChar, name)
  {
    hide PercentEncode, Readable, IsAttrChar;
    AttrCharSetIsComplete();
    UnchangedIff(AttrChar, name);
    EncodedIsSafe(AttrChar, name);
  }

  /** A receiver of the disposition gets the field name and the file name back, and stops where they end,
      exactly for the names of `ReadsBack` and `FileReadsBack`: in every mode, whether it is strict or lenient
      about bytes in quoted-strings, and for every field name in the `attr-char` mode. */
  lemma DispositionReadBack(strict: bool, mode: PercentEncoding, name: Bytes, fileName: Option<Bytes>, rest: Bytes)
    requires rest == [] || rest[0] == '\r'
    ensures ReadDisposition(strict, Disposition(mode, name, fileName) + rest) == Some((name, fileName, rest))
            <==> ReadsBack(strict, mode, name) && FileReadsBack(strict, fileName)
    ensures mode.AttrChar? ==> ReadsBack(strict, mode, name)
  {
    hide NameParameter, ReadsBack, PercentEncode, LegalFilename, ReadDisposition, ReadName;
    var tail := FileNamePart(fileName) + rest;
    var s := NameParameter(mode, name) + tail;
    assert Disposition(mode, name, fileName) + rest == s;
    assert tail == [] || !IsValueChar(tail[0]);
    ParameterReadBack(strict, mode, name, tail);
    RestReadBack(strict, s, name, fileName, rest);
    if mode.AttrChar? {
      AttrCharReadsBack(strict, name);
    }
  }

  /** Given what the name is read as, the rest depends on the file name alone. */
  lemma RestReadBack(strict: bool, s: Bytes, name: Bytes, fileName: Option<Bytes>, rest: Bytes)
    requires rest == [] || rest[0] == '\r'
    requires var r := ReadName(strict, s); r.Some? && r.value.0 == name ==> r.value.1 == FileNamePart(fileName) + rest
    ensures ReadDisposition(strict, s) == Some((name, fileName, rest))
            <==> var r := ReadName(strict, s); r.Some? && r.value.0 == name && FileReadsBack(strict, fileName)
  {
    hide ReadName;
    match fileName
    case None =>
      assert FileNamePart(fileName) + rest == rest;
      assert rest == [] || rest[0] != FILE_NAME[0];
    case Some(file) =>
      var tail := LegalFilename(file) + "\"" + rest;
      assert FileNamePart(fileName) + rest == FILE_NAME + tail;
      PrefixOf(FILE_NAME, tail);
      FilenameReadBack(file, rest);
      StrictFilename(file, rest);
  }

  // ----- names that are lost

  /** A trailing backslash, which the path-segment set leaves alone, escapes the closing quote. */
  const BACKSLASH: Bytes := "a\\"
  /** A non-ASCII character forces the extended notation, in which the semicolon stays bare. */
  const SEMICOLON: Bytes := [0xC3 as char, 0xA9 as char, ';']
  const QUOTE: Bytes := "a\"b"
  const NEWLINE: Bytes := "a\nb"

  lemma LostNames(strict: bool, fileName: Option<Bytes>, rest: Bytes)
    requires rest == [] || rest[0] == '\r'
    ensures ReadDisposition(strict, Disposition(PathSegment, BACKSLASH, fileName) + rest)
            != Some((BACKSLASH, fileName, rest))
    ensures ReadDisposition(strict, Disposition(PathSegment, SEMICOLON, fileName) + rest)
            != Some((SEMICOLON, fileName, rest))
    ensures ReadDisposition(strict, Disposition(NoOp, QUOTE, fileName) + rest) != Some((QUOTE, fileName, rest))
  {
    hide Disposition, ReadDisposition, PercentEncode;
    DispositionReadBack(strict, PathSegment, BACKSLASH, fileName, rest);
    DispositionReadBack(strict, PathSegment, SEMICOLON, fileName, rest);
    DispositionReadBack(strict, NoOp, QUOTE, fileName, rest);
    LostUnderPathSegment(strict);
    NoOpChangesNothing(QUOTE);
    assert QUOTE[1] == '"';
  }

  lemma LostUnderPathSegment(strict: bool)
    ensures !ReadsBack(strict, PathSegment, BACKSLASH) && !ReadsBack(strict, PathSegment, SEMICOLON)
  {
    hide PercentEncode;
    UnchangedIff(PathSegment, BACKSLASH);
    UnchangedIff(PathSegment, SEMICOLON);
    assert BACKSLASH[1] == '\\';
    assert MustEncode(PathSegment, SEMICOLON[0]) && SEMICOLON[0] in SEMICOLON;
    assert !MustEncode(PathSegment, SEMICOLON[2]) && !IsAttrChar(SEMICOLON[2]) && SEMICOLON[2] in SEMICOLON;
  }

  /** A file name with a newline is lost to a strict receiver in every mode: nothing encodes it. */
  lemma LostFileName(mode: PercentEncoding, name: Bytes, rest: Bytes)
    requires rest == [] || rest[0] == '\r'
    ensures ReadDisposition(true, Disposition(mode, name, Some(NEWLINE)) + rest) != Some((name, Some(NEWLINE), rest))
    ensures ReadQuotedStrictly(LegalFilename(NEWLINE) + "\"" + rest) == None
  {
    hide Disposition, ReadDisposition, LegalFilename;
    assert NEWLINE[1] == '\n';
    DispositionReadBack(true, mode, name, Some(NEWLINE), rest);
    StrictFilename(NEWLINE, rest);
  }
}
