/** What a receiver makes of a header block: it cuts the block at line breaks before it reads a line. */
module Receiver {
  import opened Wrappers
  import opened FieldNames
  import opened Dispositions
  import opened Multipart

  const CRLF: Bytes := "\r\n"

  // ----- the first occurrence

  predicate OccursAt(p: Bytes, s: Bytes, i: nat) {
    i + |p| <= |s| && s[i..i + |p|] == p
  }

  predicate Occurs(p: Bytes, s: Bytes) {
    exists i :: 0 <= i <= |s| && OccursAt(p, s, i)
  }

  function Find(p: Bytes, s: Bytes): (k: Option<nat>)
    ensures k.Some? ==> OccursAt(p, s, k.value)
    ensures forall i :: 0 <= i <= |s| && (k.Some? ==> i < k.value) ==> !OccursAt(p, s, i)
  {
    if OccursAt(p, s, 0) then Some(0)
    else if s == [] then None
    else
      var rest := Find(p, s[1..]);
      assert forall i :: 0 < i <= |s| ==> (OccursAt(p, s, i) <==> OccursAt(p, s[1..], i - 1)) by {
        forall i | 0 < i <= |s| ensures OccursAt(p, s, i) <==> OccursAt(p, s[1..], i - 1) {
          OccursLater(p, s, i);
        }
      }
      if rest.None? then None else Some(rest.value + 1)
  }

  lemma OccursLater(p: Bytes, s: Bytes, i: nat)
    requires 0 < i <= |s|
    ensures OccursAt(p, s, i) <==> OccursAt(p, s[1..], i - 1)
  {
    if i + |p| <= |s| {
      assert s[i..i + |p|] == s[1..][i - 1..i - 1 + |p|];
    }
  }

  lemma OccursInFront(p: Bytes, a: Bytes, b: Bytes, i: nat)
    requires i + |p| <= |a|
    ensures OccursAt(p, a + b, i) <==> OccursAt(p, a, i)
  {
    assert (a + b)[i..i + |p|] == a[i..i + |p|];
  }

  /** What follows `a + p` does not matter to whether `p` occurs before the end of `a`. */
  lemma FindBehind(p: Bytes, a: Bytes, rest: Bytes)
    ensures var k := Find(p, a + (p + rest));
            && k.Some? && k.value <= |a|
            && (k.value == |a| <==> Find(p, a + p) == Some(|a|))
  {
    var s := a + (p + rest);
    assert s == a + p + rest;
    assert OccursAt(p, a + p, |a|);
    forall i: nat | i <= |a| ensures OccursAt(p, s, i) <==> OccursAt(p, a + p, i) {
      OccursInFront(p, a + p, rest, i);
    }
    assert OccursAt(p, s, |a|);
  }

  // ----- header lines

  predicate NoLineBreak(s: Bytes) {
    forall i :: 0 < i < |s| ==> !(s[i - 1] == '\r' && s[i] == '\n')
  }

  /** The first line, and the rest with the line break in front. */
  function CutLine(s: Bytes): (Bytes, Bytes) {
    var k := Find(CRLF, s);
    if k.None? then (s, []) else (s[..k.value], s[k.value..])
  }

  lemma LineBreakAt(s: Bytes, i: nat)
    ensures OccursAt(CRLF, s, i) <==> i + 1 < |s| && s[i] == '\r' && s[i + 1] == '\n'
  {
    if i + 1 < |s| {
      assert s[i..i + 2] == [s[i], s[i + 1]];
    }
  }

  lemma CutAtBreak(line: Bytes, more: Bytes)
    requires NoLineBreak(line) && (more == [] || (|more| >= 2 && more[0] == '\r' && more[1] == '\n'))
    ensures CutLine(line + more) == (line, more)
  {
    var s := line + more;
    forall i: nat | i < |line| ensures !OccursAt(CRLF, s, i) {
      LineBreakAt(s, i);
      assert i + 1 < |line| ==> !(line[i + 1 - 1] == '\r' && line[i + 1] == '\n');
    }
    LineBreakAt(s, |line|);
    assert more == [] ==> s == line && !OccursAt(CRLF, s, |line|);
  }

  /** A line break in what was meant as one line cuts it short. */
  lemma CutsShort(before: Bytes, broken: Bytes, more: Bytes)
    requires !NoLineBreak(broken)
    ensures |CutLine(before + broken + more).0| + 2 <= |before| + |broken|
  {
    var s := before + broken + more;
    var i :| 0 < i < |broken| && broken[i - 1] == '\r' && broken[i] == '\n';
    LineBreakAt(s, |before| + i - 1);
  }

  lemma NoBreakConcat(a: Bytes, b: Bytes)
    requires NoLineBreak(a) && NoLineBreak(b)
    requires a == [] || b == [] || a[|a| - 1] != '\r' || b[0] != '\n'
    ensures NoLineBreak(a + b)
  {
    var s := a + b;
    forall i | 0 < i < |s| ensures !(s[i - 1] == '\r' && s[i] == '\n') {
      if i > |a| {
        assert s[i - 1] == b[i - |a| - 1] && s[i] == b[i - |a|];
      }
    }
  }

  lemma {:induction false} QuotedPairsHaveNoBreak(s: Bytes)
    ensures NoLineBreak(QuotedPairs(s)) && (s != [] ==> QuotedPairs(s)[0] != '\n')
  {
    if s != [] {
      QuotedPairsHaveNoBreak(s[1..]);
      NoBreakConcat(if NeedsEscape(s[0]) then ['\\', s[0]] else [s[0]], QuotedPairs(s[1..]));
    }
  }

  lemma FileNamePartHasNoBreak(fileName: Option<Bytes>)
    ensures NoLineBreak(FileNamePart(fileName))
  {
    if fileName.Some? {
      var legal := LegalFilename(fileName.value);
      ReplacementsAreOnePass(fileName.value);
      QuotedPairsHaveNoBreak(fileName.value);
      NoBreakConcat(FILE_NAME, legal);
      NoBreakConcat(FILE_NAME + legal, "\"");
    }
  }

  lemma NameParameterHasNoBreak(mode: PercentEncoding, name: Bytes)
    requires mode.NoOp? ==> NoLineBreak(name)
    ensures NoLineBreak(NameParameter(mode, name))
  {
    hide PercentEncode;
    var value := PercentEncode(mode, name);
    if mode.NoOp? {
      NoOpChangesNothing(name);
    } else {
      EncodedIsSafe(mode, name);
      forall i | 0 < i < |value| ensures !(value[i - 1] == '\r' && value[i] == '\n') {
        assert value[i] in value;
      }
    }
    NoBreakConcat(PLAIN_NAME, value);
    NoBreakConcat(PLAIN_NAME + value, "\"");
    NoBreakConcat(EXTENDED_NAME, value);
  }

  lemma DispositionHasNoBreak(mode: PercentEncoding, name: Bytes, fileName: Option<Bytes>)
    requires mode.NoOp? ==> NoLineBreak(name)
    ensures NoLineBreak(Disposition(mode, name, fileName))
  {
    NameParameterHasNoBreak(mode, name);
    FileNamePartHasNoBreak(fileName);
    NoBreakConcat(NameParameter(mode, name), FileNamePart(fileName));
  }

  lemma {:induction false} TextIsShorter(s: Bytes)
    ensures ReadQuoted(s).Some? ==> |ReadQuoted(s).value.0| < |s|
  {
    if s != [] && s[0] != '"' && !(s[0] == '\\' && |s| == 1) {
      TextIsShorter(s[if s[0] == '\\' then 2 else 1..]);
    }
  }

  lemma {:induction false} DecodedIsNotLonger(s: Bytes)
    ensures |PercentDecode(s)| <= |s|
  {
    if s != [] {
      DecodedIsNotLonger(s[1..]);
      if |s| >= 3 {
        DecodedIsNotLonger(s[3..]);
      }
    }
  }

  lemma NameIsShorter(strict: bool, s: Bytes)
    ensures ReadName(strict, s).Some? ==> |ReadName(strict, s).value.0| + |PLAIN_NAME| < |s|
  {
    hide PercentDecode, ReadExtended, ReadQuoted, ReadQuotedStrictly;
    if StartsWith(s, PLAIN_NAME) {
      StrictIsFiltered(s[|PLAIN_NAME|..]);
      TextIsShorter(s[|PLAIN_NAME|..]);
    } else if StartsWith(s, EXTENDED_NAME) {
      ReadExtendedShort(s[|EXTENDED_NAME|..]);
      DecodedIsNotLonger(ReadExtended(s[|EXTENDED_NAME|..]));
    }
  }

  lemma {:induction false} HeaderLinesStart(headers: seq<(Bytes, Bytes)>)
    ensures var s := HeaderLines(headers); s == [] || (|s| >= 2 && s[0] == '\r' && s[1] == '\n')
  {
    if headers != [] {
      HeaderLinesStart(headers[..|headers| - 1]);
    }
  }

  lemma MoreLines(meta: Meta)
    ensures var s := MimeLine(meta.mime) + HeaderLines(meta.headers);
            s == [] || (|s| >= 2 && s[0] == '\r' && s[1] == '\n')
  {
    HeaderLinesStart(meta.headers);
  }

  /** From the first line of a header block a receiver gets field name and file name back exactly for the
      names of `ReadsBack` and `FileReadsBack` that do not break the line, which only a field name that is not
      percent-encoded can; and then what follows are the remaining header lines. */
  lemma HeaderBlockReadBack(strict: bool, mode: PercentEncoding, name: Bytes, meta: Meta)
    ensures var (line, more) := CutLine(HeaderBlock(mode, name, meta)[|FORM_DATA|..]);
            var survives := ReadsBack(strict, mode, name) && FileReadsBack(strict, meta.fileName)
                            && (mode.NoOp? ==> NoLineBreak(name));
            && (ReadDisposition(strict, line) == Some((name, meta.fileName, [])) <==> survives)
            && (survives ==> more == MimeLine(meta.mime) + HeaderLines(meta.headers))
  {
    hide Disposition, ReadDisposition, ReadsBack, CutLine, NoLineBreak;
    var d, more := Disposition(mode, name, meta.fileName), MimeLine(meta.mime) + HeaderLines(meta.headers);
    assert HeaderBlock(mode, name, meta) == FORM_DATA + (d + more);
    PrefixOf(FORM_DATA, d + more);
    if mode.NoOp? && !NoLineBreak(name) {
      BrokenNameIsLost(strict, name, meta.fileName, more);
    } else {
      MoreLines(meta);
      DispositionHasNoBreak(mode, name, meta.fileName);
      CutAtBreak(d, more);
      assert d + [] == d;
      DispositionReadBack(strict, mode, name, meta.fileName, []);
    }
  }

  lemma BrokenNameIsLost(strict: bool, name: Bytes, fileName: Option<Bytes>, more: Bytes)
    requires !NoLineBreak(name)
    ensures var (line, _) := CutLine(Disposition(NoOp, name, fileName) + more);
            ReadDisposition(strict, line) != Some((name, fileName, []))
  {
    hide Disposition, ReadName, CutLine, NoLineBreak, ReadText;
    var after := "\"" + FileNamePart(fileName) + more;
    UnencodedName(name, fileName, more);
    CutsShort(PLAIN_NAME, name, after);
    NameIsShorter(strict, CutLine(PLAIN_NAME + name + after).0);
  }

  lemma UnencodedName(name: Bytes, fileName: Option<Bytes>, more: Bytes)
    ensures Disposition(NoOp, name, fileName) + more == PLAIN_NAME + name + ("\"" + FileNamePart(fileName) + more)
  {
    hide PercentEncode, FileNamePart;
    NoOpChangesNothing(name);
  }

  const BROKEN: Bytes := "a\r\nb"

  /** A name with a line break survives in the value of the header, and is lost when its lines are cut. */
  lemma BrokenName(meta: Meta)
    ensures ReadsBack(false, NoOp, BROKEN)
    ensures var (line, _) := CutLine(HeaderBlock(NoOp, BROKEN, meta)[|FORM_DATA|..]);
            ReadDisposition(false, line) != Some((BROKEN, meta.fileName, []))
  {
    hide HeaderBlock, ReadDisposition, CutLine;
    NoOpChangesNothing(BROKEN);
    assert BROKEN[2 - 1] == '\r' && BROKEN[2] == '\n';
    HeaderBlockReadBack(false, NoOp, BROKEN, meta);
  }

  // ----- the whole block

  /** Media types, header names and header values cannot hold a carriage return. */
  predicate IsWellTyped(meta: Meta) {
    && (meta.mime.Some? ==> '\r' !in meta.mime.value)
    && forall h :: h in meta.headers ==> '\r' !in h.0 && '\r' !in h.1
  }

  /** Nor header names a colon. */
  predicate HasHeaderNames(meta: Meta) {
    forall h :: h in meta.headers ==> ':' !in h.0
  }

  /** What a part says of itself besides its disposition. */
  function Described(meta: Meta): seq<(Bytes, Bytes)> {
    (if meta.mime.Some? then [("Content-Type", meta.mime.value)] else []) + meta.headers
  }

  /** Each line in two, at its first colon with a space behind it. */
  function ReadHeaders(s: Bytes): Option<seq<(Bytes, Bytes)>>
    decreases |s|
  {
    if s == [] then Some([])
    else if !StartsWith(s, CRLF) then None
    else
      var (line, more) := CutLine(s[|CRLF|..]);
      var k :- Find(": ", line);
      var headers :- ReadHeaders(more);
      Some([(line[..k], line[k + 2..])] + headers)
  }

  /** The names of the disposition, which comes first, and all other headers. */
  function ReadBlock(strict: bool, block: Bytes): Option<(Bytes, Option<Bytes>, seq<(Bytes, Bytes)>)> {
    var (line, more) := CutLine(block);
    if !StartsWith(line, "Content-Disposition: form-data; ") then None else
    var (name, fileName, rest) :- ReadDisposition(strict, line[|"Content-Disposition: form-data; "|..]);
    if rest != [] then None else
    var headers :- ReadHeaders(more);
    Some((name, fileName, headers))
  }

  function Lines(headers: seq<(Bytes, Bytes)>): Bytes {
    if headers == [] then []
    else CRLF + (headers[0].0 + ": " + headers[0].1 + Lines(headers[1..]))
  }

  lemma {:induction false} LinesAppend(a: seq<(Bytes, Bytes)>, b: seq<(Bytes, Bytes)>)
    ensures Lines(a + b) == Lines(a) + Lines(b)
  {
    if a == [] {
      assert a + b == b;
    } else {
      assert (a + b)[1..] == a[1..] + b;
      LinesAppend(a[1..], b);
      ConcatLine(a[0].0 + ": " + a[0].1, Lines(a[1..]), Lines(b));
    }
  }

  lemma ConcatLine(line: Bytes, a: Bytes, b: Bytes)
    ensures CRLF + (line + (a + b)) == CRLF + (line + a) + b
  {
  }

  lemma LinesOfOne(h: (Bytes, Bytes))
    ensures Lines([h]) == HeaderLine(h)
  {
    assert [h][1..] == [];
  }

  lemma {:induction false} HeaderLinesAreLines(headers: seq<(Bytes, Bytes)>)
    ensures HeaderLines(headers) == Lines(headers)
  {
    if headers != [] {
      var n := |headers| - 1;
      HeaderLinesAreLines(headers[..n]);
      LinesOfOne(headers[n]);
      LinesAppend(headers[..n], [headers[n]]);
      assert headers[..n] + [headers[n]] == headers;
    }
  }

  lemma DescribedLines(meta: Meta)
    ensures MimeLine(meta.mime) + HeaderLines(meta.headers) == Lines(Described(meta))
  {
    hide HeaderLines, Lines, MimeLine, HeaderLine;
    HeaderLinesAreLines(meta.headers);
    MimeIsLine(meta.mime);
    if meta.mime.Some? {
      LinesOfOne(("Content-Type", meta.mime.value));
      LinesAppend([("Content-Type", meta.mime.value)], meta.headers);
    } else {
      assert Described(meta) == meta.headers && [] + Lines(meta.headers) == Lines(meta.headers);
    }
  }

  lemma MimeIsLine(mime: Option<Bytes>)
    ensures MimeLine(mime) == if mime.Some? then HeaderLine(("Content-Type", mime.value)) else []
  {
  }

  lemma NameIsFound(name: Bytes, value: Bytes)
    requires ':' !in name
    ensures Find(": ", name + ": " + value) == Some(|name|)
  {
    var line := name + ": " + value;
    forall i: nat | i < |name| ensures !OccursAt(": ", line, i) {
      assert line[i] == name[i] && name[i] in name;
      if i + 2 <= |line| {
        assert line[i..i + 2][0] == line[i];
      }
    }
    assert OccursAt(": ", line, |name|);
  }

  lemma LineHasNoBreak(h: (Bytes, Bytes))
    requires '\r' !in h.0 && '\r' !in h.1
    ensures NoLineBreak(h.0 + ": " + h.1)
  {
    var line := h.0 + ": " + h.1;
    forall j | 0 <= j < |line| ensures line[j] != '\r' {
      if j < |h.0| {
        assert line[j] in h.0;
      } else if j >= |h.0| + 2 {
        assert line[j] == h.1[j - |h.0| - 2];
      }
    }
  }

  lemma AnyLineIsRead(line: Bytes, more: Bytes)
    requires NoLineBreak(line) && Find(": ", line).Some?
    requires more == [] || (|more| >= 2 && more[0] == '\r' && more[1] == '\n')
    ensures var (k, r) := (Find(": ", line).value, ReadHeaders(more));
            ReadHeaders(CRLF + (line + more))
            == if r.Some? then Some([(line[..k], line[k + 2..])] + r.value) else None
  {
    hide Find, CutLine, NoLineBreak, StartsWith;
    CutAtBreak(line, more);
    PrefixOf(CRLF, line + more);
  }

  lemma LineIsRead(h: (Bytes, Bytes), more: Bytes)
    requires '\r' !in h.0 && '\r' !in h.1 && ':' !in h.0
    requires more == [] || (|more| >= 2 && more[0] == '\r' && more[1] == '\n')
    ensures ReadHeaders(CRLF + (h.0 + ": " + h.1 + more))
            == var r := ReadHeaders(more); if r.Some? then Some([h] + r.value) else None
  {
    hide Find, ReadHeaders, NoLineBreak;
    var line := h.0 + ": " + h.1;
    LineHasNoBreak(h);
    NameIsFound(h.0, h.1);
    AnyLineIsRead(line, more);
    assert line[..|h.0|] == h.0 && line[|h.0| + 2..] == h.1;
  }

  lemma {:induction false} HeadersReadBack(headers: seq<(Bytes, Bytes)>)
    requires forall h :: h in headers ==> '\r' !in h.0 && '\r' !in h.1 && ':' !in h.0
    ensures ReadHeaders(Lines(headers)) == Some(headers)
  {
    if headers != [] {
      hide ReadHeaders;
      HeadersReadBack(headers[1..]);
      LineIsRead(headers[0], Lines(headers[1..]));
      assert [headers[0]] + headers[1..] == headers;
    }
  }

  lemma CutLineParts(s: Bytes)
    ensures var (line, more) := CutLine(s);
            && line + more == s && NoLineBreak(line)
            && (more == [] || (|more| >= 2 && more[0] == '\r' && more[1] == '\n'))
  {
    var (line, more) := CutLine(s);
    forall i | 0 < i < |line| ensures !(line[i - 1] == '\r' && line[i] == '\n') {
      LineBreakAt(s, i - 1);
    }
    if more != [] {
      LineBreakAt(s, |line|);
    }
  }

  lemma CutBehind(before: Bytes, s: Bytes)
    requires NoLineBreak(before) && before != [] && before[|before| - 1] != '\r'
    ensures CutLine(before + s) == (before + CutLine(s).0, CutLine(s).1)
  {
    hide CutLine;
    var (line, more) := CutLine(s);
    CutLineParts(s);
    NoBreakConcat(before, line);
    CutAtBreak(before + line, more);
    Concat(before, line, more);
  }

  /** A receiver that cuts the block into lines gets back the names, the media type and all headers in order, under
      the condition of `HeaderBlockReadBack`. */
  lemma BlockReadBack(strict: bool, mode: PercentEncoding, name: Bytes, meta: Meta)
    requires IsWellTyped(meta) && HasHeaderNames(meta)
    ensures ReadBlock(strict, HeaderBlock(mode, name, meta)) == Some((name, meta.fileName, Described(meta)))
            <==> ReadsBack(strict, mode, name) && FileReadsBack(strict, meta.fileName)
                 && (mode.NoOp? ==> NoLineBreak(name))
  {
    hide ReadBlock, ReadDisposition, CutLine, ReadHeaders, HeaderBlock, ReadsBack, NoLineBreak;
    var block := HeaderBlock(mode, name, meta);
    BlockStart(mode, name, meta);
    var s := block[|FORM_DATA|..];
    CutBehind(FORM_DATA, s);
    HeaderBlockReadBack(strict, mode, name, meta);
    DescribedLines(meta);
    DescribedReadBack(meta);
    BlockParts(strict, block, CutLine(s).0, CutLine(s).1);
  }

  lemma BlockParts(strict: bool, block: Bytes, line: Bytes, more: Bytes)
    requires CutLine(block) == (FORM_DATA + line, more)
    ensures var (r, h) := (ReadDisposition(strict, line), ReadHeaders(more));
            ReadBlock(strict, block)
            == if r.Some? && r.value.2 == [] && h.Some? then Some((r.value.0, r.value.1, h.value)) else None
  {
    hide ReadDisposition, CutLine, ReadHeaders;
    PrefixOf(FORM_DATA, line);
    assert FORM_DATA == "Content-Disposition: form-data; ";
  }

  lemma DescribedReadBack(meta: Meta)
    requires IsWellTyped(meta) && HasHeaderNames(meta)
    ensures ReadHeaders(Lines(Described(meta))) == Some(Described(meta))
  {
    hide ReadHeaders;
    HeadersReadBack(Described(meta));
  }

  lemma BlockStart(mode: PercentEncoding, name: Bytes, meta: Meta)
    ensures var block := HeaderBlock(mode, name, meta);
            |block| >= |FORM_DATA| && block == FORM_DATA + block[|FORM_DATA|..]
    ensures NoLineBreak(FORM_DATA) && FORM_DATA[|FORM_DATA| - 1] != '\r'
    ensures FORM_DATA == "Content-Disposition: form-data; "
  {
    hide Disposition, HeaderLines, MimeLine;
  }
}
