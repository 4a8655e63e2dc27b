/** The blocking request body: pumps what a reader yields into the channel that the connection reads,
    one chunk per read. */
module BodyPump {
  import opened Wrappers
  import opened FieldNames
  import opened Multipart
  import opened MultipartReader
  import ResponseBodies

  const CHUNK := 8192

  /** Any reader: it yields its bytes in order, as few at a time as it likes, and may fail. Nothing is
      left once it yields nothing for a buffer with room. */
  class Source {
    var left: Bytes
    /** Whether a read has failed. */
    var failed: bool

    method Read(buf: array<byte>) returns (r: Option<nat>)
      modifies this, buf
      ensures failed == (old(failed) || r.None?)
      ensures r.None? ==> left == old(left)
      ensures r.Some? ==>
                && r.value <= buf.Length && r.value <= |old(left)|
                && (r.value == 0 ==> buf.Length == 0 || old(left) == [])
                && buf[..r.value] == old(left)[..r.value]
                && left == old(left)[r.value..]
    {
      var fails := *;
      if fails {
        failed := true;
        return None;
      }
      if buf.Length == 0 || left == [] {
        return Some(0);
      }
      var n :| 1 <= n <= |left| && n <= buf.Length;
      forall i | 0 <= i < n {
        buf[i] := left[i];
      }
      left := left[n..];
      r := Some(n);
    }
  }

  /** `Box<dyn Read>`: some reader, or the reader of a form. */
  datatype DynRead = Plain(source: Source) | Form(reader: Reader) {

    ghost function Repr(): set<object> {
      if Plain? then {source} else {reader, reader.form}
    }

    ghost predicate Valid()
      reads Repr()
    {
      Form? ==> reader.Valid()
    }

    ghost function Remaining(): Bytes
      reads Repr()
    {
      if Plain? then source.left else reader.Remaining()
    }

    /** Whether a read of the reader, or of a part of the form, has failed. */
    ghost predicate Failed()
      reads Repr()
    {
      if Plain? then source.failed else reader.form.partFailed
    }

    /** Callers must offer room, so that nothing read means the end. */
    method Read(buf: array<byte>) returns (r: Option<nat>)
      requires Valid() && buf.Length > 0 && buf !in Repr()
      modifies Repr(), buf
      ensures Valid()
      ensures Failed() == (old(Failed()) || r.None?)
      ensures r.Some? ==>
                && r.value <= buf.Length && r.value <= |old(Remaining())|
                && (r.value == 0 ==> old(Remaining()) == [])
                && buf[..r.value] == old(Remaining())[..r.value]
                && Remaining() == old(Remaining())[r.value..]
    {
      hide Reader.Valid, Reader.Remaining;
      match this
      case Plain(source) => r := source.Read(buf);
      case Form(reader) => r := ReadFormReader(reader, buf);
    }
  }

  method ReadFormReader(reader: Reader, buf: array<byte>) returns (r: Option<nat>)
    requires reader.Valid()
    modifies reader, reader.form, buf
    ensures reader.Valid()
    ensures reader.form.partFailed == (old(reader.form.partFailed) || r.None?)
    ensures var all := old(reader.Remaining());
            r.Some? ==>
              && r.value == Min(buf.Length, |all|)
              && buf[..r.value] == all[..r.value] && reader.Remaining() == all[r.value..]
  {
    hide Reader.Valid, Reader.Remaining;
    ghost var all := reader.Remaining();
    var ok, n := reader.Read(buf);
    if !ok {
      return None;
    }
    r := Some(n);
    assert all == buf[..n] + reader.Remaining();
  }

  /** The sending half of the channel, with what has gone through it; `gone` once the receiver has been
      found missing. */
  class Sender {
    var sent: seq<Bytes>
    var aborted: bool
    var gone: bool

    constructor ()
      ensures sent == [] && !aborted && !gone
    {
      sent, aborted, gone := [], false, false;
    }

    /** Fails if the receiver is gone. */
    method Send(chunk: Bytes) returns (ok: bool)
      modifies this`sent, this`gone
      ensures sent == if ok then old(sent) + [chunk] else old(sent)
      ensures gone == (old(gone) || !ok)
    {
      ok := *;
      if ok {
        sent := sent + [chunk];
      } else {
        gone := true;
      }
    }

    method TrySendAbort()
      modifies this`aborted
      ensures aborted
    {
      aborted := true;
    }
  }

  datatype Pumped = Done | ReadFailed | ReceiverGone

  predicate NonEmptyChunks(chunks: seq<Bytes>) {
    forall i :: 0 <= i < |chunks| ==> chunks[i] != []
  }

  // ----- what sequences of reads there are

  /** One successful read: the spare capacity it was offered, and how much it yielded. */
  datatype Read = Read(room: nat, size: nat)

  function Written(done: seq<Read>): nat {
    if done == [] then 0 else Written(done[..|done| - 1]) + done[|done| - 1].size
  }

  /** Spare capacity before the next read. */
  function Spare(declared: Option<nat>, done: seq<Read>): int {
    if done == [] then Min(if declared.Some? then declared.value else CHUNK, CHUNK)
    else done[|done| - 1].room - done[|done| - 1].size
  }

  /** The reads that the loop may make for a reader that yields `total` bytes. Each is offered what is
      spare, or at least another 8192 bytes when nothing is. */
  predicate Possible(declared: Option<nat>, total: nat, done: seq<Read>) {
    done == [] ||
    var (before, last) := (done[..|done| - 1], done[|done| - 1]);
    && Possible(declared, total, before)
    && declared != Some(Written(before))
    && 0 < last.size <= last.room && Written(done) <= total
    && (if Spare(declared, before) > 0 then last.room == Spare(declared, before) else last.room >= CHUNK)
  }

  lemma AnotherRead(declared: Option<nat>, total: nat, done: seq<Read>, next: Read)
    requires Possible(declared, total, done) && declared != Some(Written(done))
    requires 0 < next.size <= next.room && Written(done) + next.size <= total
    requires if Spare(declared, done) > 0 then next.room == Spare(declared, done) else next.room >= CHUNK
    ensures Possible(declared, total, done + [next])
    ensures Written(done + [next]) == Written(done) + next.size
    ensures Spare(declared, done + [next]) == next.room - next.size
  {
    assert (done + [next])[..|done|] == done;
  }

  /** A small declared length is the capacity to begin with, and reaching it ends the loop. */
  lemma {:induction false} SmallLengthIsRoom(declared: nat, total: nat, done: seq<Read>)
    requires declared <= CHUNK && Possible(Some(declared), total, done)
    ensures Written(done) + Spare(Some(declared), done) == declared && Spare(Some(declared), done) >= 0
  {
    if done != [] {
      SmallLengthIsRoom(declared, total, done[..|done| - 1]);
    }
  }

  lemma WrittenIsYielded(declared: Option<nat>, total: nat, done: seq<Read>)
    requires Possible(declared, total, done)
    ensures Written(done) <= total
  {
  }

  /** Whatever the reads yield, no more than the declared length is sent: exactly when that length is at
      most 8192, or the reader has no more than that. */
  lemma NeverTooMuchIff(declared: nat, total: nat)
    ensures (forall done :: Possible(Some(declared), total, done) ==> Written(done) <= declared)
            <==> declared <= CHUNK || total <= declared
  {
    if declared <= CHUNK || total <= declared {
      forall done | Possible(Some(declared), total, done) ensures Written(done) <= declared {
        WrittenIsYielded(Some(declared), total, done);
        if declared <= CHUNK {
          SmallLengthIsRoom(declared, total, done);
        }
      }
    } else {
      var first, second := Read(CHUNK, CHUNK), Read(Max(CHUNK, total - CHUNK), total - CHUNK);
      AnotherRead(Some(declared), total, [], first);
      AnotherRead(Some(declared), total, [first], second);
      assert [] + [first] == [first];
      assert Written([first] + [second]) == total;
    }
  }

  /** Fresh room is never more than the 8192 bytes asked for. */
  predicate InChunks(declared: Option<nat>, done: seq<Read>) {
    done == [] ||
    var (before, last) := (done[..|done| - 1], done[|done| - 1]);
    InChunks(declared, before) && (Spare(declared, before) == 0 ==> last.room == CHUNK)
  }

  predicate WholeChunks(n: int) {
    n % CHUNK == 0
  }

  /** Then each buffer ends at a multiple of its size. */
  lemma {:induction false} BuffersAreAligned(declared: nat, total: nat, done: seq<Read>)
    requires declared > CHUNK && Possible(Some(declared), total, done) && InChunks(Some(declared), done)
    ensures 0 <= Spare(Some(declared), done) <= CHUNK
    ensures WholeChunks(Written(done) + Spare(Some(declared), done))
  {
    if done != [] {
      BuffersAreAligned(declared, total, done[..|done| - 1]);
    }
  }

  /** A buffer cannot reach past a declared length that is itself such a multiple. */
  lemma {:induction false} AlignedLengthIsKept(declared: nat, total: nat, done: seq<Read>)
    requires declared > CHUNK && WholeChunks(declared)
    requires Possible(Some(declared), total, done) && InChunks(Some(declared), done)
    ensures Written(done) <= declared
  {
    if done != [] {
      var before := done[..|done| - 1];
      AlignedLengthIsKept(declared, total, before);
      BuffersAreAligned(declared, total, before);
      BuffersAreAligned(declared, total, done);
      NextMultiple(Written(done) + Spare(Some(declared), done), Written(before), declared);
    }
  }

  lemma NextMultiple(end: int, before: int, declared: int)
    requires WholeChunks(end) && WholeChunks(declared)
    requires before < declared && end <= before + CHUNK
    ensures end <= declared
  {
  }

  function FullReads(k: nat): (done: seq<Read>)
    ensures |done| == k
  {
    if k == 0 then [] else FullReads(k - 1) + [Read(CHUNK, CHUNK)]
  }

  lemma {:induction false} FullReadsArePossible(declared: nat, total: nat, k: nat)
    requires declared > CHUNK && !WholeChunks(declared) && k * CHUNK <= declared && k * CHUNK <= total
    ensures var done := FullReads(k);
            && Possible(Some(declared), total, done) && InChunks(Some(declared), done)
            && Written(done) == k * CHUNK && (Spare(Some(declared), done) == if k == 0 then CHUNK else 0)
  {
    if k > 0 {
      hide Possible, InChunks, Spare, Written;
      var done, next := FullReads(k - 1), Read(CHUNK, CHUNK);
      FullReadsArePossible(declared, total, k - 1);
      AnotherRead(Some(declared), total, done, next);
      AnotherInChunks(Some(declared), done, next);
    }
  }

  lemma AnotherInChunks(declared: Option<nat>, done: seq<Read>, next: Read)
    requires InChunks(declared, done) && (Spare(declared, done) == 0 ==> next.room == CHUNK)
    ensures InChunks(declared, done + [next])
  {
    assert (done + [next])[..|done|] == done;
  }

  /** Full buffers up to the declared length, and one more that crosses it. */
  lemma CrossingReads(declared: nat, total: nat) returns (done: seq<Read>)
    requires declared > CHUNK && !WholeChunks(declared) && total > declared
    ensures Possible(Some(declared), total, done) && InChunks(Some(declared), done) && Written(done) > declared
  {
    hide Possible, InChunks, Written;
    var k := declared / CHUNK;
    var last := Read(CHUNK, Min(CHUNK, total - k * CHUNK));
    FullReadsArePossible(declared, total, k);
    AnotherRead(Some(declared), total, FullReads(k), last);
    AnotherInChunks(Some(declared), FullReads(k), last);
    done := FullReads(k) + [last];
  }

  /** Where fresh room is exactly what is asked for, too much can be sent exactly when the declared length
      is over 8192 and no multiple of it, and the reader has more. */
  lemma TooMuchInChunksIff(declared: nat, total: nat)
    ensures (exists done :: Possible(Some(declared), total, done) && InChunks(Some(declared), done) && Written(done) > declared)
            <==> declared > CHUNK && !WholeChunks(declared) && total > declared
  {
    hide Possible, InChunks, Written;
    if declared > CHUNK && !WholeChunks(declared) && total > declared {
      var _ := CrossingReads(declared, total);
    } else {
      forall done | Possible(Some(declared), total, done) && InChunks(Some(declared), done)
        ensures Written(done) <= declared
      {
        if declared > CHUNK && total > declared {
          AlignedLengthIsKept(declared, total, done);
        } else {
          NeverTooMuchIff(declared, total);
        }
      }
    }
  }

  /** One byte too many: 8193 declared, 8194 there. */
  lemma OneByteTooMany()
    ensures var done := [Read(CHUNK, CHUNK), Read(CHUNK, 2)];
            Possible(Some(8193), 8194, done) && InChunks(Some(8193), done) && Written(done) == 8194
  {
    var first, second := Read(CHUNK, CHUNK), Read(CHUNK, 2);
    AnotherRead(Some(8193), 8194, [], first);
    AnotherRead(Some(8193), 8194, [first], second);
    AnotherInChunks(Some(8193), [], first);
    AnotherInChunks(Some(8193), [first], second);
    assert [] + [first] == [first] && [first] + [second] == [first, second];
  }

  // ----- the loop

  /** The chunks are nonempty, one for each read, and concatenate to the first of all the bytes. */
  predicate Delivers(declared: Option<nat>, all: Bytes, chunks: seq<Bytes>, done: seq<Read>) {
    && NonEmptyChunks(chunks) && Flatten(chunks) <= all
    && |done| == |chunks| && (forall i :: 0 <= i < |done| ==> done[i].size == |chunks[i]|)
    && Possible(declared, |all|, done) && Written(done) == |Flatten(chunks)|
  }

  lemma DeliversMore(
    declared: Option<nat>, all: Bytes, chunks: seq<Bytes>, done: seq<Read>, room: nat, chunk: Bytes, rest: Bytes)
    requires Delivers(declared, all, chunks, done) && declared != Some(|Flatten(chunks)|)
    requires all == Flatten(chunks) + (chunk + rest)
    requires 0 < |chunk| <= room
    requires if Spare(declared, done) > 0 then room == Spare(declared, done) else room >= CHUNK
    ensures Delivers(declared, all, chunks + [chunk], done + [Read(room, |chunk|)])
    ensures Spare(declared, done + [Read(room, |chunk|)]) == room - |chunk|
    ensures |Flatten(chunks + [chunk])| == |Flatten(chunks)| + |chunk|
    ensures all == Flatten(chunks + [chunk]) + rest
  {
    hide Flatten, Possible, Spare, Written;
    FlattenGrows(chunks, chunk);
    AnotherRead(declared, |all|, done, Read(room, |chunk|));
    Concat(Flatten(chunks), chunk, rest);
  }

  /** `chunks` lists what this call sent, and `done` the reads behind it; `readAt` notes how much had been
      written at each read, the last included. */
  method SendFuture(body: DynRead, conLen: Option<nat>, tx: Sender)
    returns (result: Pumped, ghost chunks: seq<Bytes>, ghost done: seq<Read>, ghost readAt: seq<nat>)
    requires body.Valid() && tx !in body.Repr() && !body.Failed() && !tx.gone
    modifies body.Repr(), tx
    ensures body.Valid()
    ensures tx.sent == old(tx.sent) + chunks
    ensures Delivers(conLen, old(body.Remaining()), chunks, done)
    ensures result.Done? ==> old(body.Remaining()) == Flatten(chunks) + body.Remaining()
    ensures result.Done? ==> body.Remaining() == [] || conLen == Some(|Flatten(chunks)|)
    ensures result.ReceiverGone? <==> tx.gone
    ensures result.ReadFailed? <==> body.Failed()
    ensures tx.aborted == (old(tx.aborted) || body.Failed())
    ensures !tx.gone && !body.Failed() ==>
              Flatten(chunks) == old(body.Remaining()) || conLen == Some(|Flatten(chunks)|)
    ensures forall w :: w in readAt ==> Some(w) != conLen
  {
    hide Delivers, Flatten, Spare, DynRead.Valid, DynRead.Remaining, DynRead.Failed;
    ghost var all := body.Remaining();
    var capacity := Min(if conLen.Some? then conLen.value else CHUNK, CHUNK);
    var written := 0;
    chunks, done, readAt := [], [], [];
    NothingYet(conLen, all);
    while true
      invariant body.Valid() && !body.Failed() && !tx.gone
      invariant tx.sent == old(tx.sent) + chunks && tx.aborted == old(tx.aborted)
      invariant Delivers(conLen, all, chunks, done) && written == |Flatten(chunks)|
      invariant all == Flatten(chunks) + body.Remaining()
      invariant 0 <= capacity == Spare(conLen, done)
      invariant forall w :: w in readAt ==> Some(w) != conLen
      decreases |body.Remaining()|
    {
      if Some(written) == conLen {
        return Done, chunks, done, readAt;
      }
      if capacity == 0 {
        capacity :| capacity >= CHUNK;
      }
      readAt := readAt + [written];
      var r := ReadSpare(body, capacity);
      if r.None? {
        tx.TrySendAbort();
        return ReadFailed, chunks, done, readAt;
      }
      var chunk := r.value;
      if chunk == [] {
        return Done, chunks, done, readAt;
      }
      var ok := tx.Send(chunk);
      if !ok {
        return ReceiverGone, chunks, done, readAt;
      }
      DeliversMore(conLen, all, chunks, done, capacity, chunk, body.Remaining());
      chunks, done := chunks + [chunk], done + [Read(capacity, |chunk|)];
      capacity := capacity - |chunk|;
      written := written + |chunk|;
    }
  }

  lemma NothingYet(declared: Option<nat>, all: Bytes)
    ensures Delivers(declared, all, [], []) && Flatten([]) == []
    ensures Spare(declared, []) == Min(if declared.Some? then declared.value else CHUNK, CHUNK)
  {
  }

  /** One read into the spare capacity of the buffer. */
  method ReadSpare(body: DynRead, capacity: nat) returns (r: Option<Bytes>)
    requires body.Valid() && capacity > 0
    modifies body.Repr()
    ensures body.Valid()
    ensures body.Failed() == (old(body.Failed()) || r.None?)
    ensures r.Some? ==>
              && |r.value| <= capacity && old(body.Remaining()) == r.value + body.Remaining()
              && (r.value == [] ==> old(body.Remaining()) == [])
  {
    hide DynRead.Valid, DynRead.Remaining, DynRead.Failed;
    ghost var all := body.Remaining();
    var spare := new byte[capacity](_ => ' ');
    var n := body.Read(spare);
    if n.None? {
      return None;
    }
    r := Some(spare[..n.value]);
    assert all == all[..n.value] + all[n.value..];
  }

  lemma FlattenGrows(chunks: seq<Bytes>, chunk: Bytes)
    ensures Flatten(chunks + [chunk]) == Flatten(chunks) + chunk
  {
    FlattenAppend(chunks, [chunk]);
    FlattenOne(chunk);
  }

  // ----- request bodies

  datatype Body = Reading(read: DynRead, len: Option<nat>) | Buffered(bytes: Bytes)

  /** The `Content-Length` that `into_async` leads to. */
  function ContentLength(body: Body): Option<nat> {
    match body
    case Reading(_, len) => len
    case Buffered(bytes) => Some(|bytes|)
  }

  /** A body of bytes, polled to its end: what comes out is as long as its `Content-Length` says. */
  method SendBuffered(bytes: Bytes) returns (contentLength: Option<nat>, frames: seq<Bytes>)
    ensures Flatten(frames) == bytes && NonEmptyChunks(frames)
    ensures contentLength == Some(|Flatten(frames)|)
  {
    contentLength := ContentLength(Buffered(bytes));
    var body := new ResponseBodies.ReusableBody(bytes);
    frames := [];
    while true
      invariant NonEmptyChunks(frames) && Flatten(frames) + body.bytes == bytes
      decreases |body.bytes|
    {
      var p := body.PollFrame();
      if p.End? {
        return;
      }
      FlattenGrows(frames, p.data);
      frames := frames + [p.data];
    }
  }

  /** A form as a body, sized if its length is known. */
  method FormBody(form: FormParts) returns (body: Body)
    requires form.computedHeaders == []
    modifies form`fields, form`computedHeaders
    ensures body.Reading? && body.read.Form? && fresh(body.read.reader) && body.read.reader.form == form
    ensures body.read.Valid()
    ensures body.read.Remaining() == old(Encoding(form.boundary, form.mode, form.fields))
    ensures body.len.Some? <==> AllKnown(old(form.fields))
    ensures body.len.Some? ==> body.len.value == Wrap(Predicted(form.boundary, form.mode, old(form.fields)))
  {
    var reader, length := FormReader(form);
    body := Reading(Form(reader), length);
  }

  /** A whole multipart upload. Whatever the parts say of their lengths, what is sent is a prefix of the
      encoding. While the receiver stays and no part fails, it is sent up to its end or the `Content-Length`; with
      honest lengths, and fewer than 2^64 bytes, that is all of it. */
  method Upload(form: FormParts, tx: Sender)
    returns (result: Pumped, contentLength: Option<nat>, ghost chunks: seq<Bytes>)
    requires form.computedHeaders == [] && !form.partFailed && !tx.gone
    modifies form, tx
    ensures tx.sent == old(tx.sent) + chunks && NonEmptyChunks(chunks)
    ensures result.ReceiverGone? <==> tx.gone
    ensures result.ReadFailed? <==> form.partFailed
    ensures tx.aborted == (old(tx.aborted) || form.partFailed)
    ensures contentLength.Some? <==> AllKnown(old(form.fields))
    ensures var all := old(Encoding(form.boundary, form.mode, form.fields));
            && Flatten(chunks) <= all
            && (!tx.gone && !form.partFailed ==> Flatten(chunks) == all || contentLength == Some(|Flatten(chunks)|))
            && (Honest(old(form.fields)) && |all| < TWO_64 ==>
                  && (contentLength.Some? ==> contentLength.value == |all|)
                  && (!tx.gone && !form.partFailed ==> Flatten(chunks) == all))
  {
    hide Flatten, Encoding, Predicted, AllKnown, Honest, DynRead.Valid, DynRead.Remaining;
    ghost var fields := form.fields;
    ghost var all := Encoding(form.boundary, form.mode, form.fields);
    var body := FormBody(form);
    contentLength := ContentLength(body);
    if contentLength.Some? && Honest(fields) {
      PredictionIsExact(form.boundary, form.mode, fields);
    }
    ghost var done, readAt;
    result, chunks, done, readAt := SendFuture(body.read, contentLength, tx);
  }
}
