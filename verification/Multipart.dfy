/** Multipart forms: the bytes of a form, its headers and their cache, its predicted length, and the
    asynchronous stream. */
module Multipart {
  import opened Wrappers
  import opened FieldNames

  datatype Meta = Meta(mime: Option<Bytes>, fileName: Option<Bytes>, headers: seq<(Bytes, Bytes)>)

  /** A field with the bytes its body yields, and the length its body declares. */
  datatype Field = Field(name: Bytes, meta: Meta, content: Bytes, declared: Option<nat>)

  // ----- the encoding (section 5.1.1 of RFC 2046)

  function Flatten(chunks: seq<Bytes>): Bytes {
    if chunks == [] then [] else chunks[0] + Flatten(chunks[1..])
  }

  function HeaderLine(h: (Bytes, Bytes)): Bytes {
    "\r\n" + h.0 + ": " + h.1
  }

  function HeaderLines(headers: seq<(Bytes, Bytes)>): Bytes {
    if headers == [] then [] else HeaderLines(headers[..|headers| - 1]) + HeaderLine(headers[|headers| - 1])
  }

  function MimeLine(mime: Option<Bytes>): Bytes {
    if mime.None? then [] else "\r\nContent-Type: " + mime.value
  }

  const FORM_DATA: Bytes := "Content-Disposition: form-data; "

  /** The headers of one part, without the blank line. */
  function HeaderBlock(mode: PercentEncoding, name: Bytes, meta: Meta): Bytes {
    FORM_DATA + Disposition(mode, name, meta.fileName) + MimeLine(meta.mime) + HeaderLines(meta.headers)
  }

  function HeaderOf(mode: PercentEncoding, f: Field): Bytes {
    HeaderBlock(mode, f.name, f.meta)
  }

  function Delimiter(boundary: Bytes): Bytes {
    "--" + boundary + "\r\n"
  }

  function CloseDelimiter(boundary: Bytes): Bytes {
    "--" + boundary + "--\r\n"
  }

  function PartBytes(boundary: Bytes, mode: PercentEncoding, f: Field): Bytes {
    var header: Bytes := HeaderOf(mode, f);
    Delimiter(boundary) + (header + "\r\n\r\n") + f.content + "\r\n"
  }

  function Parts(boundary: Bytes, mode: PercentEncoding, fields: seq<Field>): Bytes {
    if fields == [] then [] else PartBytes(boundary, mode, fields[0]) + Parts(boundary, mode, fields[1..])
  }

  /** The whole form; a form without fields has no bytes, not even a closing delimiter. */
  function Encoding(boundary: Bytes, mode: PercentEncoding, fields: seq<Field>): Bytes {
    if fields == [] then [] else Parts(boundary, mode, fields) + CloseDelimiter(boundary)
  }

  method AppendName(start: Bytes, mode: PercentEncoding, name: Bytes) returns (buf: Bytes)
    ensures buf == start + NameParameter(mode, name)
  {
    var value := PercentEncode(mode, name);
    if value == name {
      buf := start + "name=\"";
      buf := buf + value;
      buf := buf + "\"";
      Concat(start, "name=\"", value);
      Concat(start, "name=\"" + value, "\"");
    } else {
      buf := start + "name*=utf-8''";
      buf := buf + value;
      Concat(start, "name*=utf-8''", value);
    }
  }

  method AppendFileName(start: Bytes, fileName: Option<Bytes>) returns (buf: Bytes)
    ensures buf == start + FileNamePart(fileName)
  {
    buf := start;
    if fileName.Some? {
      var legal := LegalFilename(fileName.value);
      buf := buf + "; filename=\"";
      buf := buf + legal;
      buf := buf + "\"";
      Concat(start, "; filename=\"", legal);
      Concat(start, "; filename=\"" + legal, "\"");
    } else {
      assert buf == start + [];
    }
  }

  method AppendHeaderLines(start: Bytes, headers: seq<(Bytes, Bytes)>) returns (buf: Bytes)
    ensures buf == start + HeaderLines(headers)
  {
    buf := start;
    for i := 0 to |headers|
      invariant buf == start + HeaderLines(headers[..i])
    {
      var (k, v) := headers[i];
      assert headers[..i + 1][..i] == headers[..i];
      buf := buf + "\r\n";
      buf := buf + k;
      buf := buf + ": ";
      buf := buf + v;
      assert buf == start + HeaderLines(headers[..i]) + HeaderLine(headers[i]);
    }
    assert headers[..|headers|] == headers;
  }

  method EncodeHeaders(mode: PercentEncoding, name: Bytes, meta: Meta) returns (buf: Bytes)
    ensures buf == HeaderBlock(mode, name, meta)
  {
    buf := AppendName(FORM_DATA, mode, name);
    buf := AppendFileName(buf, meta.fileName);
    Concat(FORM_DATA, NameParameter(mode, name), FileNamePart(meta.fileName));
    if meta.mime.Some? {
      ghost var before := buf;
      buf := buf + "\r\nContent-Type: ";
      buf := buf + meta.mime.value;
      assert buf == before + MimeLine(meta.mime);
    } else {
      assert buf == buf + MimeLine(meta.mime);
    }
    buf := AppendHeaderLines(buf, meta.headers);
  }

  // ----- length and header cache

  /** Number of leading fields whose length is known. */
  function KnownPrefix(fields: seq<Field>): (k: nat)
    ensures k <= |fields|
    ensures forall i :: 0 <= i < k ==> fields[i].declared.Some?
    ensures k < |fields| ==> fields[k].declared.None?
  {
    if fields == [] || fields[0].declared.None? then 0 else 1 + KnownPrefix(fields[1..])
  }

  predicate AllKnown(fields: seq<Field>) {
    forall i :: 0 <= i < |fields| ==> fields[i].declared.Some?
  }

  predicate Honest(fields: seq<Field>) {
    forall i :: 0 <= i < |fields| && fields[i].declared.Some? ==> fields[i].declared.value == |fields[i].content|
  }

  /** What `compute_length` adds for one part. */
  function PredictedPart(boundary: Bytes, mode: PercentEncoding, f: Field): nat
    requires f.declared.Some?
  {
    2 + |boundary| + 2 + |HeaderOf(mode, f)| + 4 + f.declared.value + 2
  }

  function Sum(ns: seq<nat>): nat {
    if ns == [] then 0 else Sum(ns[..|ns| - 1]) + ns[|ns| - 1]
  }

  function PredictedEach(boundary: Bytes, mode: PercentEncoding, fields: seq<Field>): (ns: seq<nat>)
    requires AllKnown(fields)
    ensures |ns| == |fields|
  {
    seq(|fields|, i requires 0 <= i < |fields| => PredictedPart(boundary, mode, fields[i]))
  }

  /** The length that `compute_length` adds up when every part has one. */
  function Predicted(boundary: Bytes, mode: PercentEncoding, fields: seq<Field>): nat
    requires AllKnown(fields)
  {
    Sum(PredictedEach(boundary, mode, fields)) + if fields == [] then 0 else 2 + |boundary| + 4
  }

  /** Each cached header is the one its field would get, as far as there are both. */
  predicate CacheAgrees(mode: PercentEncoding, cached: seq<Bytes>, fields: seq<Field>) {
    forall i :: 0 <= i < |cached| && i < |fields| ==> cached[i] == HeaderOf(mode, fields[i])
  }

  predicate CacheIsPrefix(mode: PercentEncoding, cached: seq<Bytes>, fields: seq<Field>) {
    |cached| <= |fields| && CacheAgrees(mode, cached, fields)
  }

  /** The cache has grown by the headers of the first `k` fields. */
  predicate Cached(mode: PercentEncoding, before: seq<Bytes>, after: seq<Bytes>, fields: seq<Field>, k: nat) {
    && k <= |fields| && |after| == |before| + k && before <= after
    && forall i {:trigger after[i]} :: |before| <= i < |after| ==> after[i] == HeaderOf(mode, fields[i - |before|])
  }

  class FormParts {
    const boundary: Bytes
    const mode: PercentEncoding
    var computedHeaders: seq<Bytes>
    var fields: seq<Field>
    /** Whether a read of one of the parts has failed. */
    var partFailed: bool

    constructor (boundary: Bytes, mode: PercentEncoding, fields: seq<Field>)
      ensures this.boundary == boundary && this.mode == mode
      ensures this.fields == fields && computedHeaders == [] && !partFailed
    {
      this.boundary, this.mode, this.fields := boundary, mode, fields;
      computedHeaders, partFailed := [], false;
    }

    /** Whether a part is willing to be read: any of its reads may fail. */
    method TryPart() returns (ok: bool)
      modifies this`partFailed
      ensures partFailed == (old(partFailed) || !ok)
    {
      ok := *;
      partFailed := partFailed || !ok;
    }

    /** Adds up a `u64`, so the sum is taken modulo 2^64. Stops at the first part of unknown length, with
        the headers before it cached. */
    method ComputeLength() returns (length: Option<nat>)
      modifies this`computedHeaders
      ensures Cached(mode, old(computedHeaders), computedHeaders, fields, KnownPrefix(fields))
      ensures length.Some? <==> AllKnown(fields)
      ensures length.Some? ==> length.value == Wrap(Predicted(boundary, mode, fields))
    {
      hide HeaderBlock;
      var sum: nat := 0;
      ghost var parts: seq<nat> := [];
      for i := 0 to |fields|
        invariant forall j :: 0 <= j < i ==> fields[j].declared.Some?
        invariant Cached(mode, old(computedHeaders), computedHeaders, fields, i)
        invariant |parts| == i && forall j :: 0 <= j < i ==> parts[j] == PredictedPart(boundary, mode, fields[j])
        invariant sum == Wrap(Sum(parts))
      {
        var field := fields[i];
        if field.declared.None? {
          assert i == KnownPrefix(fields);
          return None;
        }
        var partLength := CacheHeader(field);
        sum := AddWrapping(sum, partLength, Sum(parts));
        SumAppend(parts, partLength);
        parts := parts + [partLength];
      }
      assert parts == PredictedEach(boundary, mode, fields);
      if fields != [] {
        sum := AddWrapping(sum, 2 + |boundary| + 4, Sum(parts));
      }
      length := Some(sum);
    }

    /** The header is constructed for its length, and kept so as not to construct it again. */
    method CacheHeader(field: Field) returns (partLength: nat)
      requires field.declared.Some?
      modifies this`computedHeaders
      ensures computedHeaders == old(computedHeaders) + [HeaderOf(mode, field)]
      ensures partLength == PredictedPart(boundary, mode, field)
    {
      var header := EncodeHeaders(mode, field.name, field.meta);
      computedHeaders := computedHeaders + [header];
      partLength := 2 + |boundary| + 2 + |header| + 4 + field.declared.value + 2;
    }
  }

  /** Unchecked `u64` arithmetic: the remainder modulo 2^64. */
  function Wrap(n: nat): (w: nat)
    ensures w < TWO_64
    ensures n < TWO_64 ==> w == n
  {
    if n < TWO_64 then n else Wrap(n - TWO_64)
  }

  lemma {:induction false} WrapIsRemainder(n: nat)
    ensures Wrap(n) == n % 0x1_0000_0000_0000_0000
  {
    if n >= TWO_64 {
      WrapIsRemainder(n - TWO_64);
    }
  }

  lemma {:induction false} WrapSum(a: nat, b: nat)
    ensures Wrap(Wrap(a) + b) == Wrap(a + b)
    decreases a
  {
    if a >= TWO_64 {
      WrapSum(a - TWO_64, b);
    }
  }

  method AddWrapping(a: nat, b: nat, ghost exact: nat) returns (c: nat)
    requires a == Wrap(exact)
    ensures c == Wrap(exact + b)
  {
    WrapSum(exact, b);
    c := Wrap(a + b);
  }

  lemma SumAppend(ns: seq<nat>, n: nat)
    ensures Sum(ns + [n]) == Sum(ns) + n
  {
    assert (ns + [n])[..|ns|] == ns;
  }

  // ----- properties

  lemma {:induction false} PartsAppend(boundary: Bytes, mode: PercentEncoding, a: seq<Field>, b: seq<Field>)
    ensures Parts(boundary, mode, a + b) == Parts(boundary, mode, a) + Parts(boundary, mode, b)
  {
    if a == [] {
      assert a + b == b;
    } else {
      assert (a + b)[1..] == a[1..] + b;
      PartsAppend(boundary, mode, a[1..], b);
    }
  }

  lemma PartLength(boundary: Bytes, mode: PercentEncoding, f: Field)
    ensures |PartBytes(boundary, mode, f)| == 2 + |boundary| + 2 + |HeaderOf(mode, f)| + 4 + |f.content| + 2
  {
  }

  lemma PartsAppendOne(boundary: Bytes, mode: PercentEncoding, fields: seq<Field>, last: Field)
    ensures Parts(boundary, mode, fields + [last]) == Parts(boundary, mode, fields) + PartBytes(boundary, mode, last)
  {
    PartsAppend(boundary, mode, fields, [last]);
    assert [last][1..] == [];
    var part := PartBytes(boundary, mode, last);
    assert part + [] == part;
  }

  lemma {:induction false} PartsLength(boundary: Bytes, mode: PercentEncoding, fields: seq<Field>)
    requires AllKnown(fields) && Honest(fields)
    ensures |Parts(boundary, mode, fields)| == Sum(PredictedEach(boundary, mode, fields))
  {
    hide HeaderBlock;
    if fields != [] {
      var n := |fields| - 1;
      PartsLength(boundary, mode, fields[..n]);
      assert fields == fields[..n] + [fields[n]];
      PartsAppendOne(boundary, mode, fields[..n], fields[n]);
      PartLength(boundary, mode, fields[n]);
      assert PredictedEach(boundary, mode, fields)[..n] == PredictedEach(boundary, mode, fields[..n]);
    }
  }

  /** With honest part lengths the predicted length is the length of the encoding, and so is the result
      of `compute_length` for every form shorter than 2^64 bytes. */
  lemma PredictionIsExact(boundary: Bytes, mode: PercentEncoding, fields: seq<Field>)
    requires AllKnown(fields) && Honest(fields)
    ensures Predicted(boundary, mode, fields) == |Encoding(boundary, mode, fields)|
  {
    PartsLength(boundary, mode, fields);
  }

  // ----- the asynchronous stream

  /** A part whose body is a stream of chunks. */
  datatype AsyncPart = AsyncPart(name: Bytes, meta: Meta, chunks: seq<Bytes>, declared: Option<nat>)

  function FieldOf(p: AsyncPart): Field {
    Field(p.name, p.meta, Flatten(p.chunks), p.declared)
  }

  function FieldsOf(parts: seq<AsyncPart>): (fields: seq<Field>)
    ensures |fields| == |parts|
    ensures forall i :: 0 <= i < |parts| ==> fields[i] == FieldOf(parts[i])
  {
    seq(|parts|, i requires 0 <= i < |parts| => FieldOf(parts[i]))
  }

  function PartStream(boundary: Bytes, mode: PercentEncoding, p: AsyncPart): seq<Bytes> {
    [Delimiter(boundary), HeaderBlock(mode, p.name, p.meta) + "\r\n\r\n"] + p.chunks + ["\r\n"]
  }

  /** The fold that chains one more stream for each remaining part. */
  function Chained(boundary: Bytes, mode: PercentEncoding, memo: seq<Bytes>, parts: seq<AsyncPart>): seq<Bytes>
    decreases parts
  {
    if parts == [] then memo
    else Chained(boundary, mode, memo + PartStream(boundary, mode, parts[0]), parts[1..])
  }

  function IntoStream(boundary: Bytes, mode: PercentEncoding, parts: seq<AsyncPart>): seq<Bytes> {
    if parts == [] then []
    else Chained(boundary, mode, PartStream(boundary, mode, parts[0]), parts[1..]) + [CloseDelimiter(boundary)]
  }

  lemma {:induction false} FlattenAppend(a: seq<Bytes>, b: seq<Bytes>)
    ensures Flatten(a + b) == Flatten(a) + Flatten(b)
  {
    if a == [] {
      assert a + b == b;
    } else {
      assert (a + b)[1..] == a[1..] + b;
      FlattenAppend(a[1..], b);
    }
  }

  lemma FlattenOne(a: Bytes)
    ensures Flatten([a]) == a
  {
    assert [a][1..] == [];
    assert a + [] == a;
  }

  lemma PartStreamBytes(boundary: Bytes, mode: PercentEncoding, p: AsyncPart)
    ensures Flatten(PartStream(boundary, mode, p)) == PartBytes(boundary, mode, FieldOf(p))
  {
    var d, h: Bytes := Delimiter(boundary), HeaderBlock(mode, p.name, p.meta) + "\r\n\r\n";
    FlattenAppend([d, h] + p.chunks, ["\r\n"]);
    FlattenAppend([d, h], p.chunks);
    FlattenOne("\r\n");
    FlattenOne(h);
    assert [d, h][1..] == [h];
  }

  lemma {:induction false} ChainedBytes(boundary: Bytes, mode: PercentEncoding, memo: seq<Bytes>, parts: seq<AsyncPart>)
    ensures Flatten(Chained(boundary, mode, memo, parts))
            == Flatten(memo) + Parts(boundary, mode, FieldsOf(parts))
    decreases parts
  {
    hide PartStream, PartBytes;
    if parts != [] {
      var s := PartStream(boundary, mode, parts[0]);
      ChainedBytes(boundary, mode, memo + s, parts[1..]);
      FlattenAppend(memo, s);
      PartStreamBytes(boundary, mode, parts[0]);
      assert FieldsOf(parts)[1..] == FieldsOf(parts[1..]);
    }
  }

  /** However the bodies are chunked, the stream yields the encoding of the form, as the blocking reader
      does; a form without parts yields nothing. */
  lemma StreamYieldsEncoding(boundary: Bytes, mode: PercentEncoding, parts: seq<AsyncPart>)
    ensures Flatten(IntoStream(boundary, mode, parts)) == Encoding(boundary, mode, FieldsOf(parts))
  {
    hide PartStream, PartBytes, CloseDelimiter;
    if parts != [] {
      var first := PartStream(boundary, mode, parts[0]);
      ChainedBytes(boundary, mode, first, parts[1..]);
      PartStreamBytes(boundary, mode, parts[0]);
      FlattenAppend(Chained(boundary, mode, first, parts[1..]), [CloseDelimiter(boundary)]);
      FlattenOne(CloseDelimiter(boundary));
      assert FieldsOf(parts)[1..] == FieldsOf(parts[1..]);
    }
  }
}
