/** Taking a form apart again at its delimiters (section 5.1.1 of RFC 2046): when a receiver gets the header
    blocks and the contents of all parts back. */
module FormSplitting {
  import opened Wrappers
  import opened FieldNames
  import opened Dispositions
  import opened Multipart
  import opened MultipartReader
  import opened Receiver

  const BLANK_LINE: Bytes := "\r\n\r\n"

  // ----- the receiver

  function DelimiterLine(boundary: Bytes): Bytes {
    CRLF + "--" + boundary
  }

  /** A part in two, at its first blank line. */
  function CutPart(part: Bytes): Option<(Bytes, Bytes)> {
    var k :- Find(BLANK_LINE, part);
    Some((part[..k], part[k + |BLANK_LINE|..]))
  }

  /** The parts up to the closing delimiter. Any line that starts with the delimiter ends a part. */
  function ReadParts(delimiter: Bytes, s: Bytes): Option<seq<(Bytes, Bytes)>>
    decreases |s|
  {
    var k :- Find(delimiter, s);
    var part :- CutPart(s[..k]);
    var after := s[k + |delimiter|..];
    if StartsWith(after, "--") then Some([part])
    else if StartsWith(after, CRLF) then
      var parts :- ReadParts(delimiter, after[|CRLF|..]);
      Some([part] + parts)
    else None
  }

  /** Header block and content of each part; an empty body is a form without parts. */
  function ReadForm(boundary: Bytes, s: Bytes): Option<seq<(Bytes, Bytes)>> {
    if s == [] then Some([])
    else if StartsWith(s, "--" + boundary + CRLF) then
      ReadParts(DelimiterLine(boundary), s[|"--" + boundary + CRLF|..])
    else None
  }

  // ----- the form as the receiver sees it

  function Payload(mode: PercentEncoding, f: Field): Bytes {
    HeaderOf(mode, f) + (BLANK_LINE + f.content)
  }

  /** The form behind its first delimiter. */
  function Body(boundary: Bytes, mode: PercentEncoding, fields: seq<Field>): Bytes
    requires fields != []
    decreases |fields|, 0
  {
    Payload(mode, fields[0]) + (DelimiterLine(boundary) + Following(boundary, mode, fields[1..]))
  }

  function Following(boundary: Bytes, mode: PercentEncoding, fields: seq<Field>): Bytes
    decreases |fields|, 1
  {
    if fields == [] then "--" + CRLF else CRLF + Body(boundary, mode, fields)
  }

  lemma {:induction false} EncodingIsBody(boundary: Bytes, mode: PercentEncoding, fields: seq<Field>)
    requires fields != []
    ensures Encoding(boundary, mode, fields) == Delimiter(boundary) + Body(boundary, mode, fields)
  {
    hide HeaderOf, Encoding;
    var header, content, rest := HeaderOf(mode, fields[0]), fields[0].content, fields[1..];
    EncodingStep(boundary, mode, fields);
    if rest == [] {
      PartThenClose(boundary, header, content);
    } else {
      EncodingIsBody(boundary, mode, rest);
      PartThenBody(boundary, header, content, Body(boundary, mode, rest));
    }
  }

  lemma PartThenClose(boundary: Bytes, header: Bytes, content: Bytes)
    ensures Delimiter(boundary) + (header + "\r\n\r\n") + content + "\r\n" + CloseDelimiter(boundary)
            == Delimiter(boundary) + (header + (BLANK_LINE + content) + (DelimiterLine(boundary) + ("--" + CRLF)))
  {
  }

  lemma PartThenBody(boundary: Bytes, header: Bytes, content: Bytes, body: Bytes)
    ensures Delimiter(boundary) + (header + "\r\n\r\n") + content + "\r\n" + (Delimiter(boundary) + body)
            == Delimiter(boundary) + (header + (BLANK_LINE + content) + (DelimiterLine(boundary) + (CRLF + body)))
  {
  }

  // ----- when it can be taken apart

  /** The header block ends at its first blank line, and the part at the first delimiter. */
  predicate Separable(boundary: Bytes, mode: PercentEncoding, f: Field) {
    && Find(BLANK_LINE, HeaderOf(mode, f) + BLANK_LINE) == Some(|HeaderOf(mode, f)|)
    && Find(DelimiterLine(boundary), Payload(mode, f) + DelimiterLine(boundary)) == Some(|Payload(mode, f)|)
  }

  function Pairs(mode: PercentEncoding, fields: seq<Field>): (pairs: seq<(Bytes, Bytes)>)
    ensures |pairs| == |fields|
  {
    if fields == [] then [] else [(HeaderOf(mode, fields[0]), fields[0].content)] + Pairs(mode, fields[1..])
  }

  lemma NoPairs(mode: PercentEncoding)
    ensures Pairs(mode, []) == []
  {
  }

  lemma CutPartIff(header: Bytes, content: Bytes)
    ensures CutPart(header + (BLANK_LINE + content)) == Some((header, content))
            <==> Find(BLANK_LINE, header + BLANK_LINE) == Some(|header|)
  {
    hide Find;
    FindBehind(BLANK_LINE, header, content);
    var part := header + (BLANK_LINE + content);
    assert part[..|header|] == header && part[|header| + |BLANK_LINE|..] == content;
  }

  /** A part that ends too early is not the part that was meant. */
  lemma CutPartOfLess(part: Bytes, k: nat, header: Bytes, content: Bytes)
    requires part == header + (BLANK_LINE + content) && k < |part|
    ensures CutPart(part[..k]) != Some((header, content))
  {
  }

  /** A first part that can be separated is read as it is, and reading goes on behind it. */
  lemma SeparableIsRead(delimiter: Bytes, header: Bytes, content: Bytes, following: Bytes)
    requires var payload := header + (BLANK_LINE + content);
             && Find(BLANK_LINE, header + BLANK_LINE) == Some(|header|)
             && Find(delimiter, payload + delimiter) == Some(|payload|)
    ensures var s := header + (BLANK_LINE + content) + (delimiter + following);
            ReadParts(delimiter, s)
            == if StartsWith(following, "--") then Some([(header, content)])
               else if StartsWith(following, CRLF) then
                 var more := ReadParts(delimiter, following[|CRLF|..]);
                 if more.Some? then Some([(header, content)] + more.value) else None
               else None
  {
    hide Find, CutPart, StartsWith;
    var payload := header + (BLANK_LINE + content);
    var s := payload + (delimiter + following);
    FindBehind(delimiter, payload, following);
    CutPartIff(header, content);
    assert s[..|payload|] == payload && s[|payload| + |delimiter|..] == following;
  }

  /** One that cannot is read as something else, or the reading fails. */
  lemma InseparableIsLost(delimiter: Bytes, header: Bytes, content: Bytes, following: Bytes)
    requires var payload := header + (BLANK_LINE + content);
             !(&& Find(BLANK_LINE, header + BLANK_LINE) == Some(|header|)
               && Find(delimiter, payload + delimiter) == Some(|payload|))
    ensures var r := ReadParts(delimiter, header + (BLANK_LINE + content) + (delimiter + following));
            r.Some? ==> r.value != [] && r.value[0] != (header, content)
  {
    hide Find, CutPart, StartsWith;
    var payload := header + (BLANK_LINE + content);
    var s := payload + (delimiter + following);
    FindBehind(delimiter, payload, following);
    CutPartIff(header, content);
    var k := Find(delimiter, s).value;
    assert s[..k] == payload[..k];
    if k < |payload| {
      CutPartOfLess(payload, k, header, content);
    } else {
      assert payload[..k] == payload;
    }
  }

  lemma {:induction false} PartsReadBack(boundary: Bytes, mode: PercentEncoding, fields: seq<Field>)
    requires fields != []
    ensures ReadParts(DelimiterLine(boundary), Body(boundary, mode, fields)) == Some(Pairs(mode, fields))
            <==> forall i :: 0 <= i < |fields| ==> Separable(boundary, mode, fields[i])
  {
    hide HeaderOf, Find, ReadParts, DelimiterLine;
    var header, content, rest := HeaderOf(mode, fields[0]), fields[0].content, fields[1..];
    var following := Following(boundary, mode, rest);
    HeadAndTail(boundary, mode, fields);
    if !Separable(boundary, mode, fields[0]) {
      InseparableIsLost(DelimiterLine(boundary), header, content, following);
    } else {
      SeparableIsRead(DelimiterLine(boundary), header, content, following);
      if rest != [] {
        PartsReadBack(boundary, mode, rest);
        assert following[0] == '\r' != "--"[0] && following[|CRLF|..] == Body(boundary, mode, rest);
        assert ([(header, content)] + Pairs(mode, rest))[1..] == Pairs(mode, rest);
      } else {
        NoPairs(mode);
        assert StartsWith(following, "--");
        assert [(header, content)] + Pairs(mode, rest) == [(header, content)];
      }
    }
  }

  lemma HeadAndTail(boundary: Bytes, mode: PercentEncoding, fields: seq<Field>)
    requires fields != []
    ensures (forall i :: 0 <= i < |fields| ==> Separable(boundary, mode, fields[i]))
            <==> Separable(boundary, mode, fields[0])
                 && forall i :: 0 <= i < |fields| - 1 ==> Separable(boundary, mode, fields[1..][i])
  {
    hide Separable;
    assert forall i :: 0 <= i < |fields| - 1 ==> fields[1..][i] == fields[i + 1];
    if forall i :: 0 <= i < |fields| - 1 ==> Separable(boundary, mode, fields[1..][i]) {
      forall i | 0 < i < |fields| ensures Separable(boundary, mode, fields[i]) {
        assert fields[i] == fields[1..][i - 1];
      }
    }
  }

  /** The header blocks and the contents of all parts are recovered exactly if each of them is separable. */
  lemma FormReadBack(boundary: Bytes, mode: PercentEncoding, fields: seq<Field>)
    ensures ReadForm(boundary, Encoding(boundary, mode, fields)) == Some(Pairs(mode, fields))
            <==> forall i :: 0 <= i < |fields| ==> Separable(boundary, mode, fields[i])
  {
    hide Separable, Pairs, ReadParts, Body, Delimiter;
    if fields != [] {
      EncodingIsBody(boundary, mode, fields);
      PartsReadBack(boundary, mode, fields);
      var body := Body(boundary, mode, fields);
      PrefixOf(Delimiter(boundary), body);
      DelimiterText(boundary);
      NonEmptyEncoding(boundary, body);
    } else {
      NoPairs(mode);
    }
  }

  lemma DelimiterText(boundary: Bytes)
    ensures Delimiter(boundary) == "--" + boundary + CRLF
  {
  }

  lemma NonEmptyEncoding(boundary: Bytes, body: Bytes)
    ensures Delimiter(boundary) + body != []
  {
  }

  // ----- when parts are separable

  /** Every line break has something else than another one behind it. */
  predicate HasNoBlankLine(s: Bytes) {
    forall i :: 0 < i < |s| && s[i - 1] == '\r' && s[i] == '\n' ==> i + 1 < |s| && s[i + 1] != '\r'
  }

  lemma BlankLinesConcat(a: Bytes, b: Bytes)
    requires HasNoBlankLine(a) && HasNoBlankLine(b) && (b == [] || b[0] != '\n')
    ensures HasNoBlankLine(a + b)
  {
    var s := a + b;
    forall i | 0 < i < |s| && s[i - 1] == '\r' && s[i] == '\n' ensures i + 1 < |s| && s[i + 1] != '\r' {
      if i > |a| {
        assert b[i - |a| - 1] == '\r' && b[i - |a|] == '\n';
      }
    }
  }

  lemma EndsAtBlankLine(header: Bytes)
    requires HasNoBlankLine(header)
    ensures Find(BLANK_LINE, header + BLANK_LINE) == Some(|header|)
  {
    var s := header + BLANK_LINE;
    hide Find;
    forall i: nat | i < |header| ensures !OccursAt(BLANK_LINE, s, i) {
      if OccursAt(BLANK_LINE, s, i) {
        BlankLineAt(s, i);
      }
      var j := i + 1;
      assert j < |header| && header[j - 1] == '\r' && header[j] == '\n' ==> j + 1 < |header| && header[j + 1] != '\r';
    }
    assert OccursAt(BLANK_LINE, s, |header|);
  }

  lemma BlankLineAt(s: Bytes, i: nat)
    requires OccursAt(BLANK_LINE, s, i)
    ensures i + 3 < |s| && s[i] == '\r' && s[i + 1] == '\n' && s[i + 2] == '\r'
  {
    var found := s[i..i + 4];
    assert found[0] == s[i] && found[1] == s[i + 1] && found[2] == s[i + 2];
  }

  lemma HeaderLineHasNoBlankLine(h: (Bytes, Bytes))
    requires '\r' !in h.0 && '\r' !in h.1
    ensures HasNoBlankLine(HeaderLine(h)) && HeaderLine(h)[0] != '\n'
  {
    var line := HeaderLine(h);
    var text := h.0 + ": " + h.1;
    assert line == CRLF + text;
    forall j | 1 <= j < |line| ensures line[j] != '\r' {
      if j >= 2 {
        assert line[j] == text[j - 2] && text[j - 2] in text;
      }
    }
    assert line[2] == text[0] && text[0] in text;
  }

  lemma {:induction false} HeaderLinesHaveNoBlankLine(headers: seq<(Bytes, Bytes)>)
    requires forall h :: h in headers ==> '\r' !in h.0 && '\r' !in h.1
    ensures HasNoBlankLine(HeaderLines(headers)) && (headers != [] ==> HeaderLines(headers)[0] != '\n')
  {
    if headers != [] {
      var last := headers[|headers| - 1];
      HeaderLinesHaveNoBlankLine(headers[..|headers| - 1]);
      HeaderLineHasNoBlankLine(last);
      BlankLinesConcat(HeaderLines(headers[..|headers| - 1]), HeaderLine(last));
    }
  }

  lemma MimeLineHasNoBlankLine(mime: Option<Bytes>)
    requires mime.Some? ==> '\r' !in mime.value
    ensures HasNoBlankLine(MimeLine(mime)) && (mime.Some? ==> MimeLine(mime)[0] != '\n')
  {
    if mime.Some? {
      assert MimeLine(mime) == HeaderLine(("Content-Type", mime.value));
      HeaderLineHasNoBlankLine(("Content-Type", mime.value));
    }
  }

  /** The header block of a part has no blank line in it, unless its field name brings one along. */
  lemma HeaderBlockEnds(mode: PercentEncoding, f: Field)
    requires IsWellTyped(f.meta) && (mode.NoOp? ==> NoLineBreak(f.name))
    ensures Find(BLANK_LINE, HeaderOf(mode, f) + BLANK_LINE) == Some(|HeaderOf(mode, f)|)
  {
    hide Disposition, Find, HasNoBlankLine;
    var d := Disposition(mode, f.name, f.meta.fileName);
    DispositionHasNoBreak(mode, f.name, f.meta.fileName);
    OneLineHasNoBlankLine(FORM_DATA + d, d);
    MimeLineHasNoBlankLine(f.meta.mime);
    HeaderLinesHaveNoBlankLine(f.meta.headers);
    BlankLinesConcat(FORM_DATA + d, MimeLine(f.meta.mime));
    BlankLinesConcat(FORM_DATA + d + MimeLine(f.meta.mime), HeaderLines(f.meta.headers));
    EndsAtBlankLine(HeaderOf(mode, f));
  }

  lemma OneLineHasNoBlankLine(line: Bytes, d: Bytes)
    requires line == FORM_DATA + d && NoLineBreak(d)
    ensures HasNoBlankLine(line)
  {
    NoBreakConcat(FORM_DATA, d);
  }

  /** With no carriage return in the boundary, a part ends where it should exactly if the delimiter does not
      occur in it, the blank line behind its headers included. */
  lemma PartEndsIff(boundary: Bytes, payload: Bytes)
    requires '\r' !in boundary
    ensures var delimiter := DelimiterLine(boundary);
            Find(delimiter, payload + delimiter) == Some(|payload|) <==> !Occurs(delimiter, payload)
  {
    hide Find, OccursAt, DelimiterLine;
    var delimiter := DelimiterLine(boundary);
    var s := payload + delimiter;
    OccursAtEnd(delimiter, payload);
    DelimiterLineIsLong(boundary);
    forall i: nat | i <= |payload|
      ensures i < |payload| ==> (OccursAt(delimiter, s, i) <==> OccursAt(delimiter, payload, i))
      ensures i + |delimiter| > |payload| ==> !OccursAt(delimiter, payload, i)
    {
      if i + |delimiter| <= |payload| {
        OccursInFront(delimiter, payload, delimiter, i);
      } else {
        TooLate(delimiter, payload, i);
        if i < |payload| {
          NoOverlap(boundary, payload, i);
        }
      }
    }
  }

  lemma OccursAtEnd(p: Bytes, a: Bytes)
    ensures OccursAt(p, a + p, |a|)
  {
  }

  lemma TooLate(p: Bytes, s: Bytes, i: nat)
    requires i + |p| > |s|
    ensures !OccursAt(p, s, i)
  {
  }

  lemma DelimiterLineIsLong(boundary: Bytes)
    ensures |DelimiterLine(boundary)| == |boundary| + 4
  {
  }

  lemma NoOverlap(boundary: Bytes, payload: Bytes, i: nat)
    requires '\r' !in boundary && i < |payload| < i + |DelimiterLine(boundary)|
    ensures !OccursAt(DelimiterLine(boundary), payload + DelimiterLine(boundary), i)
  {
    var delimiter := DelimiterLine(boundary);
    var s, j := payload + delimiter, |payload| - i;
    assert s[i + j] == '\r';
    assert delimiter[j] != '\r' by {
      if j >= 4 {
        assert delimiter[j] in boundary;
      }
    }
    if i + |delimiter| <= |s| {
      assert s[i..i + |delimiter|][j] == s[i + j];
    }
  }

  /** Percent-encoded forms, and others without line breaks in field names, are taken apart into the header
      blocks and contents they were put together from exactly if the delimiter occurs in no part. */
  lemma FormIsTakenApartIff(boundary: Bytes, mode: PercentEncoding, fields: seq<Field>)
    requires '\r' !in boundary
    requires forall f :: f in fields ==> IsWellTyped(f.meta) && (mode.NoOp? ==> NoLineBreak(f.name))
    ensures ReadForm(boundary, Encoding(boundary, mode, fields)) == Some(Pairs(mode, fields))
            <==> forall i :: 0 <= i < |fields| ==> !Occurs(DelimiterLine(boundary), Payload(mode, fields[i]))
  {
    hide IsWellTyped, NoLineBreak, Find, Payload, HeaderOf, Encoding, ReadForm, Pairs, DelimiterLine;
    FormReadBack(boundary, mode, fields);
    forall i | 0 <= i < |fields|
      ensures Separable(boundary, mode, fields[i]) <==> !Occurs(DelimiterLine(boundary), Payload(mode, fields[i]))
    {
      HeaderBlockEnds(mode, fields[i]);
      PartEndsIff(boundary, Payload(mode, fields[i]));
    }
  }

  /** Nothing keeps the boundary out of the parts: a form with a part that starts with the delimiter is not
      taken apart, whatever its boundary and its other parts. */
  lemma DelimiterInContent(boundary: Bytes, mode: PercentEncoding, fields: seq<Field>, i: nat)
    requires i < |fields| && fields[i].content == "--" + boundary
    ensures ReadForm(boundary, Encoding(boundary, mode, fields)) != Some(Pairs(mode, fields))
  {
    hide ReadForm, Encoding, Pairs, HeaderOf;
    FormReadBack(boundary, mode, fields);
    EarlyDelimiter(boundary, HeaderOf(mode, fields[i]), fields[i].content);
    assert !Separable(boundary, mode, fields[i]);
  }

  lemma EarlyDelimiter(boundary: Bytes, header: Bytes, content: Bytes)
    requires content == "--" + boundary
    ensures var (payload, delimiter) := (header + (BLANK_LINE + content), DelimiterLine(boundary));
            Find(delimiter, payload + delimiter) != Some(|payload|)
  {
    hide Find;
    var payload, delimiter := header + (BLANK_LINE + content), DelimiterLine(boundary);
    assert payload == header + CRLF + delimiter;
    assert OccursAt(delimiter, payload + delimiter, |header| + 2);
  }

  // ----- generated boundaries

  function LowerDigit(n: nat): (b: byte)
    requires n < 16
    ensures IsDigit(b) || 'a' <= b <= 'f'
  {
    if n < 10 then (('0' as int + n) as char) else (('a' as int + n - 10) as char)
  }

  /** At least `width` digits, with zeros in front. */
  function LowerHex(n: nat, width: nat): (s: Bytes)
    ensures forall b :: b in s ==> IsDigit(b) || 'a' <= b <= 'f'
    decreases n + width
  {
    if n == 0 && width == 0 then []
    else LowerHex(n / 16, if width == 0 then 0 else width - 1) + [LowerDigit(n % 16)]
  }

  function GenBoundary(a: nat, b: nat, c: nat, d: nat): Bytes {
    LowerHex(a, 16) + "-" + LowerHex(b, 16) + "-" + LowerHex(c, 16) + "-" + LowerHex(d, 16)
  }

  lemma {:induction false} HexWidth(n: nat, width: nat, bound: nat)
    requires n < bound && bound == Power16(width)
    ensures |LowerHex(n, width)| == width
  {
    if width > 0 {
      HexWidth(n / 16, width - 1, Power16(width - 1));
    }
  }

  function Power16(n: nat): nat {
    if n == 0 then 1 else 16 * Power16(n - 1)
  }

  /** A generated boundary has 67 characters, of the 70 that are allowed, none of them a carriage return. */
  lemma GeneratedBoundary(a: nat, b: nat, c: nat, d: nat)
    requires a < TWO_64 && b < TWO_64 && c < TWO_64 && d < TWO_64
    ensures var boundary := GenBoundary(a, b, c, d);
            |boundary| == 67 && forall x :: x in boundary ==> IsDigit(x) || 'a' <= x <= 'f' || x == '-'
  {
    hide LowerHex;
    assert TWO_64 == Power16(16) by {
      assert Power16(4) == 0x1_0000 && Power16(8) == Power16(4) * 0x1_0000;
      assert Power16(12) == Power16(8) * 0x1_0000 && Power16(16) == Power16(12) * 0x1_0000;
    }
    HexWidth(a, 16, TWO_64);
    HexWidth(b, 16, TWO_64);
    HexWidth(c, 16, TWO_64);
    HexWidth(d, 16, TWO_64);
  }
}
