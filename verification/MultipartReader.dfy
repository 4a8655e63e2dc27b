/** The blocking reader of a form: pulls the encoding into the caller's buffers, whatever their sizes
    and however little the part bodies yield at a time. */
module MultipartReader {
  import opened Wrappers
  import opened FieldNames
  import opened Multipart

  /** One part as chained readers, the last part with the closing delimiter behind it. */
  function Segments(boundary: Bytes, header: Bytes, content: Bytes, last: bool): seq<Bytes> {
    [Delimiter(boundary), header + "\r\n\r\n", content, "\r\n"] + if last then [CloseDelimiter(boundary)] else []
  }

  function ActiveBytes(active: Option<seq<Bytes>>): Bytes {
    if active.None? then [] else Flatten(active.value)
  }

  lemma SegmentsBytes(boundary: Bytes, header: Bytes, content: Bytes, last: bool)
    ensures Flatten(Segments(boundary, header, content, last))
            == Delimiter(boundary) + (header + "\r\n\r\n") + content + "\r\n"
               + if last then CloseDelimiter(boundary) else []
  {
    var head: seq<Bytes> := [Delimiter(boundary), header + "\r\n\r\n"];
    var tail: seq<Bytes> := [content, "\r\n"];
    var close: seq<Bytes> := if last then [CloseDelimiter(boundary)] else [];
    assert Segments(boundary, header, content, last) == head + tail + close;
    FlattenAppend(head + tail, close);
    FlattenAppend(head, tail);
    FlattenTwo(head[0], head[1]);
    FlattenTwo(content, "\r\n");
    FlattenOne(CloseDelimiter(boundary));
    Concat(Delimiter(boundary) + (header + "\r\n\r\n"), content, "\r\n");
  }

  lemma FlattenTwo(a: Bytes, b: Bytes)
    ensures Flatten([a, b]) == a + b
  {
    assert [a, b][1..] == [b];
    FlattenOne(b);
  }

  lemma EncodingStep(boundary: Bytes, mode: PercentEncoding, fields: seq<Field>)
    requires fields != []
    ensures Encoding(boundary, mode, fields)
            == PartBytes(boundary, mode, fields[0])
               + if |fields| == 1 then CloseDelimiter(boundary) else Encoding(boundary, mode, fields[1..])
  {
    hide PartBytes, CloseDelimiter;
    var part, rest := PartBytes(boundary, mode, fields[0]), Parts(boundary, mode, fields[1..]);
    Concat(part, rest, CloseDelimiter(boundary));
    if |fields| == 1 {
      assert rest + CloseDelimiter(boundary) == CloseDelimiter(boundary);
    }
  }

  lemma ActiveBytesOfPart(boundary: Bytes, mode: PercentEncoding, fields: seq<Field>)
    requires fields != []
    ensures ActiveBytes(Some(Segments(boundary, HeaderOf(mode, fields[0]), fields[0].content, fields[1..] == [])))
            + Encoding(boundary, mode, fields[1..])
            == Encoding(boundary, mode, fields)
  {
    hide HeaderBlock, Segments, CloseDelimiter;
    var part, rest := PartBytes(boundary, mode, fields[0]), Encoding(boundary, mode, fields[1..]);
    SegmentsBytes(boundary, HeaderOf(mode, fields[0]), fields[0].content, fields[1..] == []);
    EncodingStep(boundary, mode, fields);
    assert part + [] == part;
  }

  lemma TakeFromFirst(first: Bytes, rest: seq<Bytes>, n: nat)
    requires n <= |first|
    ensures Flatten([first[n..]] + rest) == Flatten([first] + rest)[n..]
    ensures Flatten([first] + rest)[..n] == first[..n]
  {
    assert ([first[n..]] + rest)[1..] == rest && ([first] + rest)[1..] == rest;
  }

  class Reader {
    const form: FormParts
    var active: Option<seq<Bytes>>

    /** The bytes still to be read. */
    ghost function Remaining(): Bytes
      reads this, form`fields, form`computedHeaders
    {
      ActiveBytes(active) + Encoding(form.boundary, form.mode, form.fields)
    }

    /** The header cache is a prefix of the headers of the remaining fields. */
    ghost predicate Valid()
      reads this, form`fields, form`computedHeaders
    {
      && CacheIsPrefix(form.mode, form.computedHeaders, form.fields)
      && (active.None? ==> form.fields == [])
    }

    constructor (form: FormParts)
      requires CacheIsPrefix(form.mode, form.computedHeaders, form.fields)
      modifies form`fields, form`computedHeaders
      ensures this.form == form && Valid()
      ensures Remaining() == old(Encoding(form.boundary, form.mode, form.fields))
    {
      this.form := form;
      active := None;
      new;
      assert [] + Encoding(form.boundary, form.mode, form.fields) == Encoding(form.boundary, form.mode, form.fields);
      NextReader();
    }

    /** A cached header if there is one left, else the header of the field. */
    method NextHeader(field: Field) returns (header: Bytes)
      requires form.computedHeaders != [] ==> form.computedHeaders[0] == HeaderOf(form.mode, field)
      modifies form`computedHeaders
      ensures header == HeaderOf(form.mode, field)
      ensures form.computedHeaders
              == if old(form.computedHeaders) == [] then [] else old(form.computedHeaders)[1..]
    {
      if form.computedHeaders != [] {
        header := form.computedHeaders[0];
        form.computedHeaders := form.computedHeaders[1..];
      } else {
        header := EncodeHeaders(form.mode, field.name, field.meta);
      }
    }

    method NextReader()
      requires CacheIsPrefix(form.mode, form.computedHeaders, form.fields) && ActiveBytes(active) == []
      modifies this, form`fields, form`computedHeaders
      ensures Valid() && Remaining() == old(Remaining())
      ensures if old(form.fields) == [] then active == None && form.fields == []
              else active.Some? && form.fields == old(form.fields)[1..]
    {
      hide HeaderBlock, PartBytes;
      ghost var before := form.fields;
      if form.fields != [] {
        var field := form.fields[0];
        form.fields := form.fields[1..];
        var header := NextHeader(field);
        active := Some(Segments(form.boundary, header, field.content, form.fields == []));
        ActiveBytesOfPart(form.boundary, form.mode, before);
      } else {
        active := None;
      }
    }

    /** The chained readers: each is read until it yields nothing. A read yields at least one byte if
        there is one and room for it, but maybe no more than that, or it fails and consumes nothing. */
    method ReadActive(buf: array<byte>, from: nat) returns (ok: bool, n: nat)
      requires active.Some? && from <= buf.Length
      modifies this`active, form`partFailed, buf
      ensures active.Some? && (!ok ==> n == 0)
      ensures form.partFailed == (old(form.partFailed) || !ok)
      ensures n <= buf.Length - from && n <= |old(ActiveBytes(active))|
      ensures ok && n == 0 ==> from == buf.Length || old(ActiveBytes(active)) == [] == ActiveBytes(active)
      ensures ActiveBytes(active) == old(ActiveBytes(active))[n..]
      ensures buf[..] == old(buf[..from]) + old(ActiveBytes(active))[..n] + old(buf[from + n..])
    {
      ok, n := true, 0;
      if from == buf.Length {
        return;
      }
      var segments := active.value;
      while segments != [] && segments[0] == []
        invariant Flatten(segments) == old(ActiveBytes(active))
      {
        segments := segments[1..];
      }
      if segments == [] {
        active := Some([]);
        return;
      }
      ok := form.TryPart();
      if !ok {
        active := Some(segments);
        return;
      }
      var first := segments[0];
      n :| 1 <= n <= |first| && n <= buf.Length - from;
      forall i | 0 <= i < n {
        buf[from + i] := first[i];
      }
      active := Some([first[n..]] + segments[1..]);
      TakeFromFirst(first, segments[1..], n);
      assert segments == [first] + segments[1..];
    }

    /** The same in terms of everything that remains. */
    method FillFrom(buf: array<byte>, from: nat) returns (ok: bool, n: nat)
      requires Valid() && active.Some? && from <= buf.Length
      modifies this`active, form`partFailed, buf
      ensures Valid() && active.Some?
      ensures form.partFailed == (old(form.partFailed) || !ok)
      ensures n <= buf.Length - from && (!ok ==> n == 0)
      ensures ok && n == 0 ==> from == buf.Length || ActiveBytes(active) == []
      ensures buf[..from] == old(buf[..from]) && buf[from + n..] == old(buf[from + n..])
      ensures old(Remaining()) == buf[from..from + n] + Remaining()
    {
      hide ActiveBytes, Encoding, CacheIsPrefix, Flatten;
      ghost var before, rest := ActiveBytes(active), Encoding(form.boundary, form.mode, form.fields);
      ok, n := ReadActive(buf, from);
      assert before == before[..n] + before[n..];
      Concat(before[..n], before[n..], rest);
      assert buf[from..from + n] == buf[..][from..from + n] == before[..n];
      assert buf[..from] == buf[..][..from];
      assert buf[from + n..] == buf[..][from + n..];
    }

    lemma NothingLeft()
      requires Valid() && active.None?
      ensures Remaining() == []
    {
    }

    /** Fills the buffer unless the encoding runs out or a part fails first. After a failure what was
        copied before it is in the buffer but not reported, and will not be read again. */
    method Read(buf: array<byte>) returns (ok: bool, total: nat)
      requires Valid()
      modifies this, form, buf
      ensures Valid()
      ensures form.partFailed == (old(form.partFailed) || !ok)
      ensures total <= buf.Length && (ok ==> total == Min(buf.Length, |old(Remaining())|))
      ensures old(Remaining()) == buf[..total] + Remaining()
      ensures buf[total..] == old(buf[total..])
    {
      hide HeaderBlock, Encoding, Flatten, CacheIsPrefix;
      ok, total := true, 0;
      while true
        invariant ok && total <= buf.Length && Valid() && form.partFailed == old(form.partFailed)
        invariant old(Remaining()) == buf[..total] + Remaining()
        invariant buf[total..] == old(buf[total..])
        decreases |form.fields| + (if active.Some? then 1 else 0), buf.Length - total
      {
        var last := 0;
        if active.Some? {
          ghost var left := Remaining();
          ghost var done := buf[..total];
          ok, last := FillFrom(buf, total);
          Concat(done, buf[total..total + last], Remaining());
          total := total + last;
          assert buf[..total] == done + buf[total - last..total];
          if !ok || total == buf.Length {
            return;
          }
        } else {
          NothingLeft();
          return;
        }
        if last == 0 && buf.Length != 0 {
          NextReader();
        }
      }
    }
  }

  /** A form as a request body: the length is computed first, which leaves the header cache behind, even
      when the scan stops at a part of unknown length; the reader then agrees with the encoding. */
  method FormReader(form: FormParts) returns (reader: Reader, length: Option<nat>)
    requires form.computedHeaders == []
    modifies form`fields, form`computedHeaders
    ensures fresh(reader) && reader.form == form && reader.Valid()
    ensures reader.Remaining() == old(Encoding(form.boundary, form.mode, form.fields))
    ensures length.Some? <==> AllKnown(old(form.fields))
    ensures length.Some? ==> length.value == Wrap(Predicted(form.boundary, form.mode, old(form.fields)))
  {
    length := form.ComputeLength();
    ScanLeavesPrefix(form.mode, form.computedHeaders, form.fields, KnownPrefix(form.fields));
    reader := new Reader(form);
  }

  lemma ScanLeavesPrefix(mode: PercentEncoding, cached: seq<Bytes>, fields: seq<Field>, k: nat)
    requires Cached(mode, [], cached, fields, k)
    ensures CacheIsPrefix(mode, cached, fields)
  {
    hide HeaderBlock;
    forall i | 0 <= i < |cached| && i < |fields| ensures cached[i] == HeaderOf(mode, fields[i]) {
      assert fields[i - 0] == fields[i];
    }
  }

  function SumOf(sizes: seq<nat>): (n: nat)
    ensures sizes == [] ==> n == 0
  {
    if sizes == [] then 0 else SumOf(sizes[..|sizes| - 1]) + sizes[|sizes| - 1]
  }

  lemma SumOfNext(sizes: seq<nat>, i: nat)
    requires i < |sizes|
    ensures SumOf(sizes[..i + 1]) == SumOf(sizes[..i]) + sizes[i]
  {
    assert sizes[..i + 1][..i] == sizes[..i];
  }

  /** Any sequence of reads, with buffers of any sizes, delivers the encoding from its start: as much as
      the buffers hold, or up to the first read that fails. */
  method Pull(reader: Reader, sizes: seq<nat>) returns (ok: bool, out: Bytes)
    requires reader.Valid()
    modifies reader, reader.form
    ensures reader.Valid()
    ensures reader.form.partFailed == (old(reader.form.partFailed) || !ok)
    ensures out <= old(reader.Remaining())
    ensures ok ==> old(reader.Remaining()) == out + reader.Remaining()
    ensures ok ==> |out| == Min(SumOf(sizes), |old(reader.Remaining())|)
  {
    hide SumOf, Reader.Valid, Reader.Remaining;
    ghost var all := reader.Remaining();
    ok, out := true, [];
    for i := 0 to |sizes|
      invariant ok && reader.Valid() && reader.form.partFailed == old(reader.form.partFailed)
      invariant all == out + reader.Remaining()
      invariant |out| == Min(SumOf(sizes[..i]), |all|)
    {
      SumOfNext(sizes, i);
      ghost var left := reader.Remaining();
      var buf := new byte[sizes[i]](_ => ' ');
      var n;
      ok, n := reader.Read(buf);
      if !ok {
        return;
      }
      Concat(out, buf[..n], reader.Remaining());
      assert left == buf[..n] + reader.Remaining();
      out := out + buf[..n];
    }
    assert sizes[..|sizes|] == sizes;
  }

  // ----- a second scan

  /** The field meets, in a cache filled twice, the header of the field `k` places before it. */
  predicate SharesHeader(mode: PercentEncoding, fields: seq<Field>, k: nat, i: nat)
    requires k <= i < |fields|
  {
    HeaderOf(mode, fields[i - k]) == HeaderOf(mode, fields[i])
  }

  /** Scanning the fields again appends the same headers once more. The cache then still agrees exactly
      when each field that meets a repeated header has that very header anyway. */
  lemma SecondScan(mode: PercentEncoding, once: seq<Bytes>, twice: seq<Bytes>, fields: seq<Field>)
    requires Cached(mode, [], once, fields, KnownPrefix(fields))
    requires Cached(mode, once, twice, fields, KnownPrefix(fields))
    ensures var k := KnownPrefix(fields);
            CacheAgrees(mode, twice, fields)
            <==> forall i :: k <= i < 2 * k && i < |fields| ==> SharesHeader(mode, fields, k, i)
  {
    hide Cached, CacheAgrees, SharesHeader, TwiceScanned;
    var k := KnownPrefix(fields);
    HeadersTwice(mode, once, twice, fields, k);
    if CacheAgrees(mode, twice, fields) {
      AgreeingShares(mode, twice, fields, k);
    }
    if forall i :: k <= i < 2 * k && i < |fields| ==> SharesHeader(mode, fields, k, i) {
      SharingAgrees(mode, twice, fields, k);
    }
  }

  /** It need not: a part of known length, then one of unknown length under another name. */
  lemma SecondScanSpoils(once: seq<Bytes>, twice: seq<Bytes>)
    requires Cached(NoOp, [], once, TWO_PARTS, 1) && Cached(NoOp, once, twice, TWO_PARTS, 1)
    ensures KnownPrefix(TWO_PARTS) == 1 && !CacheAgrees(NoOp, twice, TWO_PARTS)
  {
    HeaderOfBareName('a');
    HeaderOfBareName('b');
    assert twice[1] == HeaderOf(NoOp, TWO_PARTS[0]) != HeaderOf(NoOp, TWO_PARTS[1]);
  }

  const BARE := Meta(None, None, [])
  const TWO_PARTS := [Field("a", BARE, [], Some(0)), Field("b", BARE, [], None)]

  lemma HeaderOfBareName(b: byte)
    ensures |HeaderBlock(NoOp, [b], BARE)| > |FORM_DATA| + 6 && HeaderBlock(NoOp, [b], BARE)[|FORM_DATA| + 6] == b
  {
    NoOpChangesNothing([b]);
  }

  predicate TwiceScanned(mode: PercentEncoding, twice: seq<Bytes>, fields: seq<Field>, k: nat) {
    && k <= |fields| && |twice| == 2 * k
    && forall i {:trigger twice[i]} :: 0 <= i < 2 * k ==> twice[i] == HeaderOf(mode, fields[if i < k then i else i - k])
  }

  lemma AgreeingShares(mode: PercentEncoding, twice: seq<Bytes>, fields: seq<Field>, k: nat)
    requires TwiceScanned(mode, twice, fields, k) && CacheAgrees(mode, twice, fields)
    ensures forall i :: k <= i < 2 * k && i < |fields| ==> SharesHeader(mode, fields, k, i)
  {
    hide HeaderOf;
    forall i | k <= i < 2 * k && i < |fields| ensures SharesHeader(mode, fields, k, i) {
      assert twice[i] == HeaderOf(mode, fields[i]);
    }
  }

  lemma SharingAgrees(mode: PercentEncoding, twice: seq<Bytes>, fields: seq<Field>, k: nat)
    requires TwiceScanned(mode, twice, fields, k)
    requires forall i :: k <= i < 2 * k && i < |fields| ==> SharesHeader(mode, fields, k, i)
    ensures CacheAgrees(mode, twice, fields)
  {
    hide HeaderOf;
    forall i | 0 <= i < |twice| && i < |fields| ensures twice[i] == HeaderOf(mode, fields[i]) {
      assert i < k || SharesHeader(mode, fields, k, i);
    }
  }

  lemma HeadersTwice(mode: PercentEncoding, once: seq<Bytes>, twice: seq<Bytes>, fields: seq<Field>, k: nat)
    requires Cached(mode, [], once, fields, k) && Cached(mode, once, twice, fields, k)
    ensures TwiceScanned(mode, twice, fields, k)
  {
    hide HeaderOf;
    forall i {:trigger twice[i]} | 0 <= i < 2 * k
      ensures twice[i] == HeaderOf(mode, fields[if i < k then i else i - k])
    {
      if i < k {
        assert twice[i] == once[i];
      }
    }
  }
}
