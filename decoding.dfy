/** The decoder: framing detection on a byte stream, quotas, and the
    resolution of every buffer's bytes from the GLB binary chunk, an embedded
    data URI or the caller's resource callback (decoder.go).

    The stream is the whole input `input` with a cursor `pos`. The JSON
    decoder is a parameter `parse`, applied to exactly the bytes Go's
    `json.Decoder` is given; the resource callback is the decoder's `cb`. A
    single `Read` on a stream is taken to deliver every byte it still has, up
    to the size asked for; `ReadSome` states the shorter reads Go allows. */
module Decoding {
  import opened Base
  import opened Glb
  import opened Resources

  datatype ReadQuotas = ReadQuotas(maxBufferCount: int, maxMemoryAllocation: int)

  /** `NewDecoder`'s quotas: 8 buffers and 32 MiB per allocation. */
  const DefaultQuotas: ReadQuotas := ReadQuotas(8, 32 * 1024 * 1024)

  /** What the resource callback returns: maybe an open stream over the
      resource's bytes, maybe an error. (nil, nil) means "do not load". */
  datatype ResourceReply = ResourceReply(stream: Option<seq<Byte>>, err: Option<Error>)

  /** The result of the JSON decoder: the buffers it found and every other
      top-level property, untouched by this model. */
  datatype ParsedDocument = ParsedDocument(buffers: seq<Buffer>, rest: JsonObject)

  /** `validateBuffer`. */
  function ValidateBuffer(b: Buffer, q: ReadQuotas): (r: Option<Error>)
    ensures r.None? <==> 0 < b.byteLength <= q.maxMemoryAllocation
    ensures r.Some? ==> r == Some(if b.byteLength == 0 then InvalidByteLength
                                  else QuotaExceeded("bytes of buffer > MaxMemoryAllocation"))
  {
    if b.byteLength == 0 then Some(InvalidByteLength)
    else if b.byteLength > q.maxMemoryAllocation then Some(QuotaExceeded("bytes of buffer > MaxMemoryAllocation"))
    else None
  }

  /** `validateBufferURI`: refuses the empty URI, any URI containing "..",
      and URIs that start with '/' or '\'. */
  function ValidateBufferUri(uri: string): (r: Option<Error>)
    ensures r.Some? ==> r == Some(InvalidBufferUri(uri))
  {
    if uri == "" || Contains(uri, "..") || "/" <= uri || "\\" <= uri then Some(InvalidBufferUri(uri))
    else None
  }

  /** A URI passes exactly when it is a non-empty relative path in which no
      two consecutive characters are "..". */
  lemma {:induction false} SafeUri(uri: string)
    ensures ValidateBufferUri(uri).None? <==>
      && |uri| > 0 && uri[0] != '/' && uri[0] != '\\'
      && forall i :: 0 <= i < |uri| - 1 ==> !(uri[i] == '.' && uri[i + 1] == '.')
  {
    var dots := "..";
    forall i | 0 <= i < |uri| - 1
      ensures OccursAt(uri, dots, i) <==> uri[i] == '.' && uri[i + 1] == '.'
    {
      assert uri[i..i + 2] == [uri[i], uri[i + 1]];
    }
    if |uri| > 0 {
      assert ("/" <= uri) <==> uri[0] == '/' by { assert "/" <= uri ==> uri[0] == "/"[0]; }
      assert ("\\" <= uri) <==> uri[0] == '\\' by { assert "\\" <= uri ==> uri[0] == "\\"[0]; }
    }
    if Contains(uri, dots) {
      var i := FirstIndex(uri, dots).value;
      assert uri[i..i + 2] == dots;
      assert uri[i] == '.' && uri[i + 1] == '.';
    }
  }

  /** The outcome of one `Read(p)` with `len(p) == n` on a stream holding
      `src`: the bytes read (the rest of `p` stays zero) and EOF when nothing
      was left. */
  datatype ReadResult = ReadResult(data: seq<Byte>, count: nat, err: Option<Error>)

  function ReadOnce(src: seq<Byte>, n: nat): (r: ReadResult)
    ensures |r.data| == n && r.count == Min(n, |src|)
    ensures r.data[..r.count] == src[..r.count]
    ensures forall k :: r.count <= k < n ==> r.data[k] == 0
    ensures r.err.Some? <==> 0 < n && |src| == 0
  {
    var k := Min(n, |src|);
    ReadResult(src[..k] + Zeros(n - k), k, if 0 < n && k == 0 then Some(Eof) else None)
  }

  /** One `Read(p)` as Go's `io.Reader` contract allows it: any count `k` of
      the available bytes, not necessarily all that fit in `p`. A
      `bufio.Reader` with bytes still buffered hands over only those, with no
      error. */
  function ReadSome(src: seq<Byte>, n: nat, k: nat): (r: ReadResult)
    requires k <= Min(n, |src|)
    ensures |r.data| == n && r.count == k
    ensures r.data[..k] == src[..k]
    ensures forall j :: k <= j < n ==> r.data[j] == 0
    ensures r.err.Some? <==> 0 < n && |src| == 0
  {
    ReadResult(src[..k] + Zeros(n - k), k, if 0 < n && |src| == 0 then Some(Eof) else None)
  }

  /** The model's single read is the one that delivers everything it can. */
  lemma ReadOnceIsWholeRead(src: seq<Byte>, n: nat)
    ensures ReadOnce(src, n) == ReadSome(src, n, Min(n, |src|))
  {
  }

  /** A short read goes unnoticed: asked for three bytes of [1, 2, 3], a
      reader that delivers one leaves [1, 0, 0] and no error, which is not
      the payload. */
  lemma ShortReadUnnoticed()
    ensures ReadSome([1, 2, 3], 3, 1) == ReadResult([1, 0, 0], 1, None)
    ensures ReadSome([1, 2, 3], 3, 1).data != [1, 2, 3]
  {
    assert ReadSome([1, 2, 3], 3, 1).data[1] == 0;
  }

  /** `io.ReadFull`: read until `p` is full; EOF when nothing at all was
      there, an unexpected EOF when only part of it was. */
  function ReadFull(src: seq<Byte>, n: nat): (r: ReadResult)
    ensures |r.data| == n
    ensures r.err.None? <==> n <= |src|
    ensures r.err.None? ==> r.count == n && r.data == src[..n]
    ensures r.err.Some? ==> r.err == Some(if |src| == 0 then Eof else UnexpectedEof)
  {
    if n <= |src| then ReadResult(src[..n], n, None)
    else ReadResult(src + Zeros(n - |src|), |src|, Some(if |src| == 0 then Eof else UnexpectedEof))
  }

  /** Whenever the bytes are there, the model's whole read is exactly
      `io.ReadFull`, and it is the only `Read` that delivers them all. */
  lemma {:induction false} WholeReadIsReadFull(src: seq<Byte>, n: nat, k: nat)
    requires n <= |src| && k <= n
    ensures ReadOnce(src, n) == ReadFull(src, n)
    ensures ReadSome(src, n, k).err.None?
    ensures ReadSome(src, n, k).count == n <==> ReadSome(src, n, k) == ReadFull(src, n)
  {
    assert Zeros(0) == [];
    assert src[..n] + [] == src[..n];
  }

  /** What `decodeBuffer` does to one buffer: its new value, the error it
      returns, the URIs it hands to the callback and the streams it closes. */
  datatype BufferOutcome = BufferOutcome(buffer: Buffer, err: Option<Error>, requested: seq<string>, closed: seq<string>)

  /** `decodeBuffer`: validate the byte length, refuse an empty URI, decode an
      embedded URI, or check the URI and ask the callback for a stream. */
  function DecodeBufferSpec(b: Buffer, q: ReadQuotas, cb: string -> ResourceReply): (o: BufferOutcome)
    // validation comes first and, when it fails, nothing else happens
    ensures ValidateBuffer(b, q).Some? ==> o == BufferOutcome(b, ValidateBuffer(b, q), [], [])
    ensures ValidateBuffer(b, q).None? && b.uri == "" ==> o == BufferOutcome(b, Some(BufferWithoutUri), [], [])
    // an embedded URI never reaches the callback
    ensures ValidateBuffer(b, q).None? && IsEmbeddedResource(b) ==>
              o == BufferOutcome(b.(data := MarshalData(b).0), MarshalData(b).1, [], [])
    // an unsafe URI is the error, and the callback is not called
    ensures ValidateBuffer(b, q).None? && b.uri != "" && !IsEmbeddedResource(b) && ValidateBufferUri(b.uri).Some? ==>
              o == BufferOutcome(b, ValidateBufferUri(b.uri), [], [])
    // a safe URI that is not embedded goes to the callback, whose error, or else the read's, is returned
    ensures ValidateBuffer(b, q).None? && b.uri != "" && !IsEmbeddedResource(b) && ValidateBufferUri(b.uri).None? ==>
              && o.requested == [b.uri]
              && (cb(b.uri).stream.None? || cb(b.uri).err.Some? ==> o == BufferOutcome(b, cb(b.uri).err, [b.uri], []))
              && (cb(b.uri).stream.Some? && cb(b.uri).err.None? ==> o.err == ReadOnce(cb(b.uri).stream.value, b.byteLength).err)
    // the callback is called at most once, only with a URI that passed validateBufferURI
    ensures o.requested == [] || (o.requested == [b.uri] && ValidateBufferUri(b.uri).None? && !IsEmbeddedResource(b))
    // a (nil, nil) reply leaves the buffer as it was and is not an error
    ensures o.requested != [] && cb(b.uri) == ResourceReply(None, None) ==> o.buffer == b && o.err.None?
    // a stream is read into exactly byteLength bytes, then closed
    ensures o.requested != [] && cb(b.uri).stream.Some? && cb(b.uri).err.None? ==>
              && |o.buffer.data| == b.byteLength && o.closed == [b.uri]
              && o.buffer.data == ReadOnce(cb(b.uri).stream.value, b.byteLength).data
    ensures o.closed != [] ==> o.requested == o.closed
    ensures o.buffer.uri == b.uri && o.buffer.byteLength == b.byteLength
  {
    if ValidateBuffer(b, q).Some? then BufferOutcome(b, ValidateBuffer(b, q), [], [])
    else if b.uri == "" then BufferOutcome(b, Some(BufferWithoutUri), [], [])
    else if IsEmbeddedResource(b) then
      var (data, err) := MarshalData(b);
      BufferOutcome(b.(data := data), err, [], [])
    else if ValidateBufferUri(b.uri).Some? then BufferOutcome(b, ValidateBufferUri(b.uri), [], [])
    else
      var reply := cb(b.uri);
      if reply.stream.Some? && reply.err.None? then
        var rd := ReadOnce(reply.stream.value, b.byteLength);
        BufferOutcome(b.(data := rd.data), rd.err, [b.uri], [b.uri])
      else BufferOutcome(b, reply.err, [b.uri], [])
  }

  /** The state of the buffer loop of `Decode` when it ends. */
  datatype Resolution = Resolution(buffers: seq<Buffer>, err: Option<Error>, requested: seq<string>, closed: seq<string>)

  /** The loop of `Decode` from index `i`: each buffer in turn through
      `decodeBuffer`, stopping at the first error. */
  function ResolveFrom(bs: seq<Buffer>, i: nat, q: ReadQuotas, cb: string -> ResourceReply): (r: Resolution)
    requires i <= |bs|
    ensures |r.buffers| == |bs| && r.buffers[..i] == bs[..i]
    decreases |bs| - i
  {
    if i == |bs| then Resolution(bs, None, [], [])
    else
      var o := DecodeBufferSpec(bs[i], q, cb);
      var next := bs[i := o.buffer];
      if o.err.Some? then Resolution(next, o.err, o.requested, o.closed)
      else
        var rest := ResolveFrom(next, i + 1, q, cb);
        assert rest.buffers[..i] == next[..i + 1][..i];
        Resolution(rest.buffers, rest.err, o.requested + rest.requested, o.closed + rest.closed)
  }

  /** A resolution still to come, after the URIs already requested and the
      streams already closed. */
  function After(r: Resolution, requested: seq<string>, closed: seq<string>): Resolution
  {
    Resolution(r.buffers, r.err, requested + r.requested, closed + r.closed)
  }

  /** One step of the loop of `Decode`, when the buffer fails: the loop
      ends with its error. */
  lemma ResolveStepFails(bs: seq<Buffer>, i: nat, q: ReadQuotas, cb: string -> ResourceReply,
                         requested: seq<string>, closed: seq<string>)
    requires i < |bs| && DecodeBufferSpec(bs[i], q, cb).err.Some?
    ensures var o := DecodeBufferSpec(bs[i], q, cb);
      After(ResolveFrom(bs, i, q, cb), requested, closed) ==
      Resolution(bs[i := o.buffer], o.err, requested + o.requested, closed + o.closed)
  {
  }

  /** Prefixing the calls made so far composes. */
  lemma AfterAfter(r: Resolution, requested: seq<string>, closed: seq<string>, requested1: seq<string>, closed1: seq<string>)
    ensures After(After(r, requested1, closed1), requested, closed) == After(r, requested + requested1, closed + closed1)
  {
    assert requested + (requested1 + r.requested) == requested + requested1 + r.requested;
    assert closed + (closed1 + r.closed) == closed + closed1 + r.closed;
  }

  /** A buffer that succeeds hands over to the next index. */
  lemma ResolveFromSucceeds(bs: seq<Buffer>, i: nat, q: ReadQuotas, cb: string -> ResourceReply)
    requires i < |bs| && DecodeBufferSpec(bs[i], q, cb).err.None?
    ensures var o := DecodeBufferSpec(bs[i], q, cb);
      ResolveFrom(bs, i, q, cb) == After(ResolveFrom(bs[i := o.buffer], i + 1, q, cb), o.requested, o.closed)
  {
  }

  /** One step of the loop of `Decode`, when the buffer succeeds: the loop
      goes on from the next index with the buffer decoded. */
  lemma ResolveStepSucceeds(bs: seq<Buffer>, i: nat, q: ReadQuotas, cb: string -> ResourceReply,
                            requested: seq<string>, closed: seq<string>)
    requires i < |bs| && DecodeBufferSpec(bs[i], q, cb).err.None?
    ensures var o := DecodeBufferSpec(bs[i], q, cb);
      After(ResolveFrom(bs, i, q, cb), requested, closed) ==
      After(ResolveFrom(bs[i := o.buffer], i + 1, q, cb), requested + o.requested, closed + o.closed)
  {
    var o := DecodeBufferSpec(bs[i], q, cb);
    ResolveFromSucceeds(bs, i, q, cb);
    AfterAfter(ResolveFrom(bs[i := o.buffer], i + 1, q, cb), requested, closed, o.requested, o.closed);
  }

  /** Every buffer in `bs[i..j]` goes through `decodeBuffer` without error. */
  ghost predicate AllSucceed(bs: seq<Buffer>, i: nat, j: nat, q: ReadQuotas, cb: string -> ResourceReply)
    requires i <= j <= |bs|
  {
    forall k :: i <= k < j ==> DecodeBufferSpec(bs[k], q, cb).err.None?
  }

  /** Past a first buffer that succeeds, "all succeed" no longer depends on
      that buffer, whatever it has become. */
  lemma AllSucceedAfterFirst(bs: seq<Buffer>, i: nat, x: Buffer, q: ReadQuotas, cb: string -> ResourceReply)
    requires i < |bs| && DecodeBufferSpec(bs[i], q, cb).err.None?
    ensures forall j :: i + 1 <= j <= |bs| ==> (AllSucceed(bs, i, j, q, cb) <==> AllSucceed(bs[i := x], i + 1, j, q, cb))
  {
    var next := bs[i := x];
    forall j | i + 1 <= j <= |bs| ensures AllSucceed(bs, i, j, q, cb) <==> AllSucceed(next, i + 1, j, q, cb) {
      if AllSucceed(next, i + 1, j, q, cb) {
        forall k | i <= k < j ensures DecodeBufferSpec(bs[k], q, cb).err.None? {
          if k > i { assert bs[k] == next[k]; }
        }
      }
      if AllSucceed(bs, i, j, q, cb) {
        forall k | i + 1 <= k < j ensures DecodeBufferSpec(next[k], q, cb).err.None? {
          assert bs[k] == next[k];
        }
      }
    }
  }

  /** A buffer is decoded exactly when every buffer before it (from `i`)
      succeeded, and otherwise left exactly as it was. */
  lemma {:induction false} ResolveUpdatesPrefix(bs: seq<Buffer>, i: nat, q: ReadQuotas, cb: string -> ResourceReply)
    requires i <= |bs|
    ensures forall j :: i <= j < |bs| && AllSucceed(bs, i, j, q, cb) ==>
              ResolveFrom(bs, i, q, cb).buffers[j] == DecodeBufferSpec(bs[j], q, cb).buffer
    ensures forall j :: i <= j < |bs| && !AllSucceed(bs, i, j, q, cb) ==>
              ResolveFrom(bs, i, q, cb).buffers[j] == bs[j]
    decreases |bs| - i
  {
    if i < |bs| {
      var o := DecodeBufferSpec(bs[i], q, cb);
      var next := bs[i := o.buffer];
      var r := ResolveFrom(bs, i, q, cb);
      assert AllSucceed(bs, i, i, q, cb);
      if o.err.Some? {
        forall j | i < j < |bs| ensures !AllSucceed(bs, i, j, q, cb) {
          assert DecodeBufferSpec(bs[i], q, cb).err.Some?;
        }
      } else {
        ResolveUpdatesPrefix(next, i + 1, q, cb);
        AllSucceedAfterFirst(bs, i, o.buffer, q, cb);
        var rest := ResolveFrom(next, i + 1, q, cb);
        assert r.buffers == rest.buffers;
        assert r.buffers[i] == o.buffer by { assert rest.buffers[..i + 1] == next[..i + 1]; }
        forall j | i < j < |bs| ensures bs[j] == next[j] { }
      }
    }
  }

  /** The loop's error is that of the first buffer that fails, and there is
      none when all succeed. */
  lemma {:induction false} ResolveErrorIsFirstFailure(bs: seq<Buffer>, i: nat, q: ReadQuotas, cb: string -> ResourceReply)
    requires i <= |bs|
    ensures ResolveFrom(bs, i, q, cb).err.None? <==> AllSucceed(bs, i, |bs|, q, cb)
    ensures ResolveFrom(bs, i, q, cb).err.Some? ==>
              exists k :: i <= k < |bs| && AllSucceed(bs, i, k, q, cb) && ResolveFrom(bs, i, q, cb).err == DecodeBufferSpec(bs[k], q, cb).err
    decreases |bs| - i
  {
    if i < |bs| {
      var o := DecodeBufferSpec(bs[i], q, cb);
      var next := bs[i := o.buffer];
      var r := ResolveFrom(bs, i, q, cb);
      assert AllSucceed(bs, i, i, q, cb);
      if o.err.Some? {
        assert !AllSucceed(bs, i, |bs|, q, cb);
      } else {
        ResolveErrorIsFirstFailure(next, i + 1, q, cb);
        AllSucceedAfterFirst(bs, i, o.buffer, q, cb);
        var rest := ResolveFrom(next, i + 1, q, cb);
        assert r.err == rest.err;
        if r.err.Some? {
          var k :| i + 1 <= k < |bs| && AllSucceed(next, i + 1, k, q, cb) && rest.err == DecodeBufferSpec(next[k], q, cb).err;
          assert bs[k] == next[k];
        }
      }
    }
  }

  /** Buffers are processed in index order and the loop stops at the first
      error: a buffer is decoded exactly when every buffer before it (from
      `i`) succeeded, and otherwise left exactly as it was; the loop's error
      is that of the first buffer that fails, and there is none when all
      succeed. */
  lemma ResolveStopsAtFirstError(bs: seq<Buffer>, i: nat, q: ReadQuotas, cb: string -> ResourceReply)
    requires i <= |bs|
    ensures var r := ResolveFrom(bs, i, q, cb);
      && (forall j :: i <= j < |bs| && AllSucceed(bs, i, j, q, cb) ==> r.buffers[j] == DecodeBufferSpec(bs[j], q, cb).buffer)
      && (forall j :: i <= j < |bs| && !AllSucceed(bs, i, j, q, cb) ==> r.buffers[j] == bs[j])
      && (r.err.None? <==> AllSucceed(bs, i, |bs|, q, cb))
      && (r.err.Some? ==> exists k :: i <= k < |bs| && AllSucceed(bs, i, k, q, cb) && r.err == DecodeBufferSpec(bs[k], q, cb).err)
  {
    ResolveUpdatesPrefix(bs, i, q, cb);
    ResolveErrorIsFirstFailure(bs, i, q, cb);
  }

  /** Whatever the buffers, the callback only ever sees URIs that passed
      `validateBufferURI`, each belonging to a buffer at or after `i` that is
      not embedded and that the loop reached (every buffer before it, from
      `i`, succeeded), and every stream closed was one the callback opened. */
  lemma {:induction false} CallbackSeesOnlySafeUris(bs: seq<Buffer>, i: nat, q: ReadQuotas, cb: string -> ResourceReply)
    requires i <= |bs|
    ensures forall u :: u in ResolveFrom(bs, i, q, cb).requested ==> ValidateBufferUri(u).None?
    ensures forall u :: u in ResolveFrom(bs, i, q, cb).requested ==>
              exists k :: i <= k < |bs| && bs[k].uri == u && !IsEmbeddedResource(bs[k]) && AllSucceed(bs, i, k, q, cb)
    ensures forall u :: u in ResolveFrom(bs, i, q, cb).closed ==> u in ResolveFrom(bs, i, q, cb).requested
    decreases |bs| - i
  {
    if i < |bs| {
      var o := DecodeBufferSpec(bs[i], q, cb);
      var next := bs[i := o.buffer];
      var r := ResolveFrom(bs, i, q, cb);
      if o.err.None? {
        CallbackSeesOnlySafeUris(next, i + 1, q, cb);
        var rest := ResolveFrom(next, i + 1, q, cb);
        assert forall u :: u in rest.closed ==> u in rest.requested;
        AllSucceedAfterFirst(bs, i, o.buffer, q, cb);
        assert r.requested == o.requested + rest.requested && r.closed == o.closed + rest.closed;
        forall u | u in r.requested
          ensures exists k :: i <= k < |bs| && bs[k].uri == u && !IsEmbeddedResource(bs[k]) && AllSucceed(bs, i, k, q, cb)
        {
          if u in o.requested {
            assert bs[i].uri == u && !IsEmbeddedResource(bs[i]) && AllSucceed(bs, i, i, q, cb);
          } else {
            assert u in rest.requested;
            var k :| i + 1 <= k < |next| && next[k].uri == u && !IsEmbeddedResource(next[k]) && AllSucceed(next, i + 1, k, q, cb);
            assert bs[k] == next[k];
          }
        }
      } else {
        assert r.requested == o.requested && r.closed == o.closed;
      }
    }
  }

  /** What `decodeBinaryBuffer` does to buffer 0 of a GLB file: its new
      value, its error, and where it leaves the cursor. */
  datatype BinaryOutcome = BinaryOutcome(buffer: Buffer, err: Option<Error>, pos: nat)

  /** `decodeBinaryBuffer` with the cursor at `pos`: validate the buffer, read
      the next chunk header, require a BIN chunk at least byteLength long,
      then read byteLength bytes. */
  function BinaryBufferSpec(input: seq<Byte>, pos: nat, b: Buffer, q: ReadQuotas): (o: BinaryOutcome)
    requires pos <= |input|
    ensures o.pos <= |input| && o.buffer.uri == b.uri && o.buffer.byteLength == b.byteLength
    ensures ValidateBuffer(b, q).Some? ==> o == BinaryOutcome(b, ValidateBuffer(b, q), pos)
    ensures o.err.None? ==>
      && ValidateBuffer(b, q).None? && pos + ChunkHeaderSize <= |input|
      && ChunkHeaderAt(input, pos).chunkType == ChunkBin && ChunkHeaderAt(input, pos).length >= b.byteLength
      && |o.buffer.data| == b.byteLength
    ensures ValidateBuffer(b, q).None? && pos + ChunkHeaderSize <= |input| &&
            (ChunkHeaderAt(input, pos).chunkType != ChunkBin || ChunkHeaderAt(input, pos).length < b.byteLength) ==>
              o.err == Some(InvalidGlbBinHeader) && o.buffer == b
  {
    if ValidateBuffer(b, q).Some? then BinaryOutcome(b, ValidateBuffer(b, q), pos)
    else if |input| - pos < ChunkHeaderSize then
      BinaryOutcome(b, Some(if |input| == pos then Eof else UnexpectedEof), |input|)
    else
      var header := ChunkHeaderAt(input, pos);
      if header.chunkType != ChunkBin || header.length < b.byteLength then
        BinaryOutcome(b, Some(InvalidGlbBinHeader), pos + ChunkHeaderSize)
      else
        var rd := ReadOnce(input[pos + ChunkHeaderSize..], b.byteLength);
        BinaryOutcome(b.(data := rd.data), rd.err, pos + ChunkHeaderSize + rd.count)
  }

  /** When the BIN chunk holds at least byteLength bytes, buffer 0 receives
      exactly its first byteLength bytes. */
  lemma BinaryChunkFillsBuffer(input: seq<Byte>, pos: nat, b: Buffer, q: ReadQuotas)
    requires pos + ChunkHeaderSize + b.byteLength <= |input|
    requires 0 < b.byteLength <= q.maxMemoryAllocation
    requires ChunkHeaderAt(input, pos).chunkType == ChunkBin && ChunkHeaderAt(input, pos).length >= b.byteLength
    ensures var o := BinaryBufferSpec(input, pos, b, q);
      && o.err.None? && o.pos == pos + ChunkHeaderSize + b.byteLength
      && o.buffer == b.(data := input[pos + ChunkHeaderSize..pos + ChunkHeaderSize + b.byteLength])
  {
    var rd := ReadOnce(input[pos + ChunkHeaderSize..], b.byteLength);
    assert rd.data == rd.data[..rd.count];
  }

  /** What `decodeDocument` produces: whether the input was GLB, the parsed
      document (None when decoding stopped before or inside the JSON parse),
      the error, and where it leaves the cursor. */
  datatype DocumentOutcome = DocumentOutcome(isBinary: bool, doc: Option<ParsedDocument>, err: Option<Error>, pos: nat)

  /** The JSON step of `decodeDocument` and its buffer-count quota. */
  function AfterParse(isBinary: bool, parsed: Result<ParsedDocument>, q: ReadQuotas, pos: nat): (o: DocumentOutcome)
    ensures o.isBinary == isBinary && o.pos == pos
    ensures parsed.Err? ==> o.doc.None? && o.err == Some(parsed.error)
    ensures parsed.Ok? ==> o.doc == Some(parsed.value)
    ensures parsed.Ok? ==> (o.err.None? <==> |parsed.value.buffers| <= q.maxBufferCount)
  {
    match parsed
    case Err(e) => DocumentOutcome(isBinary, None, Some(e), pos)
    case Ok(d) =>
      if |d.buffers| > q.maxBufferCount then
        DocumentOutcome(isBinary, Some(d), Some(QuotaExceeded("number of buffer > MaxBufferCount")), pos)
      else DocumentOutcome(isBinary, Some(d), None, pos)
  }

  /** `decodeDocument`: plain JSON is parsed from the cursor on; in a GLB file
      the parser sees exactly the JSON chunk (Go's `io.LimitedReader`), and
      the cursor is left just after it. */
  function DecodeDocumentSpec(input: seq<Byte>, pos: nat, q: ReadQuotas, parse: seq<Byte> -> Result<ParsedDocument>): (o: DocumentOutcome)
    requires pos <= |input|
    ensures o.pos <= |input|
    ensures o.isBinary ==> ReadHeader(input, pos, q.maxMemoryAllocation).Binary?
    ensures ReadHeader(input, pos, q.maxMemoryAllocation).NotBinary? ==>
              o == AfterParse(false, parse(input[pos..]), q, |input|)
    // a header that fails validation is the error: nothing is parsed and the 20 bytes are consumed
    ensures ReadHeader(input, pos, q.maxMemoryAllocation).Binary? && ReadHeader(input, pos, q.maxMemoryAllocation).err.Some? ==>
              o == DocumentOutcome(false, None, ReadHeader(input, pos, q.maxMemoryAllocation).err, pos + HeaderSize)
    // a valid header: the parser sees the JSON chunk, cut short where the input ends
    ensures ReadHeader(input, pos, q.maxMemoryAllocation).Binary? && ReadHeader(input, pos, q.maxMemoryAllocation).err.None? ==>
              && o.isBinary
              && o.pos == Min(pos + HeaderSize + ReadHeader(input, pos, q.maxMemoryAllocation).header.json.length, |input|)
              && o == AfterParse(true, parse(input[pos + HeaderSize..o.pos]), q, o.pos)
    ensures o.err.None? ==> o.doc.Some?
  {
    match ReadHeader(input, pos, q.maxMemoryAllocation)
    case NotBinary => AfterParse(false, parse(input[pos..]), q, |input|)
    case Binary(h, Some(e)) => DocumentOutcome(false, None, Some(e), pos + HeaderSize)
    case Binary(h, None) =>
      var end := Min(pos + HeaderSize + h.json.length, |input|);
      AfterParse(true, parse(input[pos + HeaderSize..end]), q, end)
  }

  /** The overall result of `Decode`. */
  datatype DecodeOutcome = DecodeOutcome(doc: Option<ParsedDocument>, err: Option<Error>, pos: nat, requested: seq<string>, closed: seq<string>)

  /** `Decode`: frame and parse the document, check the buffer count, then
      load buffer 0 from the BIN chunk of a GLB file and every other buffer
      through `decodeBuffer`, in order, stopping at the first error. */
  function DecodeSpec(input: seq<Byte>, pos: nat, q: ReadQuotas, parse: seq<Byte> -> Result<ParsedDocument>,
                      cb: string -> ResourceReply): (o: DecodeOutcome)
    requires pos <= |input|
    ensures o.pos <= |input|
    ensures o.doc.Some? ==>
              && DecodeDocumentSpec(input, pos, q, parse).doc.Some?
              && |o.doc.value.buffers| == |DecodeDocumentSpec(input, pos, q, parse).doc.value.buffers|
              && o.doc.value.rest == DecodeDocumentSpec(input, pos, q, parse).doc.value.rest
  {
    var dd := DecodeDocumentSpec(input, pos, q, parse);
    if dd.err.Some? then DecodeOutcome(dd.doc, dd.err, dd.pos, [], [])
    else
      var d := dd.doc.value;
      if |d.buffers| > q.maxBufferCount then
        DecodeOutcome(dd.doc, Some(QuotaExceeded("number of buffer > MaxBufferCount")), dd.pos, [], [])
      else if dd.isBinary && |d.buffers| > 0 then
        var bo := BinaryBufferSpec(input, dd.pos, d.buffers[0], q);
        var bs := d.buffers[0 := bo.buffer];
        if bo.err.Some? then DecodeOutcome(Some(d.(buffers := bs)), bo.err, bo.pos, [], [])
        else
          var r := ResolveFrom(bs, 1, q, cb);
          DecodeOutcome(Some(d.(buffers := r.buffers)), r.err, bo.pos, r.requested, r.closed)
      else
        var r := ResolveFrom(d.buffers, 0, q, cb);
        DecodeOutcome(Some(d.(buffers := r.buffers)), r.err, dd.pos, r.requested, r.closed)
  }

  /** A document with more buffers than the quota allows fails with the quota
      error before any buffer is touched or any resource is requested. */
  lemma QuotaFailsBeforeAnyBuffer(input: seq<Byte>, pos: nat, q: ReadQuotas,
                                  parse: seq<Byte> -> Result<ParsedDocument>, cb: string -> ResourceReply)
    requires pos <= |input|
    requires DecodeDocumentSpec(input, pos, q, parse).doc.Some?
    requires |DecodeDocumentSpec(input, pos, q, parse).doc.value.buffers| > q.maxBufferCount
    ensures var o := DecodeSpec(input, pos, q, parse, cb);
      && o.err == Some(QuotaExceeded("number of buffer > MaxBufferCount"))
      && o.doc == DecodeDocumentSpec(input, pos, q, parse).doc
      && o.requested == [] && o.closed == []
  {
  }

  /** Input too short for a GLB header, or not starting with the GLB magic, is
      read as plain JSON from the cursor on, and in non-GLB mode buffer 0 gets
      no special treatment. */
  lemma PlainJsonReadFromCursor(input: seq<Byte>, pos: nat, q: ReadQuotas,
                                parse: seq<Byte> -> Result<ParsedDocument>, cb: string -> ResourceReply)
    requires pos <= |input|
    requires |input| - pos < HeaderSize || U32At(input, pos) != Magic
    ensures var o := DecodeSpec(input, pos, q, parse, cb);
      parse(input[pos..]).Err? ==> o.err == Some(parse(input[pos..]).error) && o.doc.None?
    ensures var o := DecodeSpec(input, pos, q, parse, cb);
      var p := parse(input[pos..]);
      p.Ok? && |p.value.buffers| <= q.maxBufferCount ==>
        && o.doc == Some(p.value.(buffers := ResolveFrom(p.value.buffers, 0, q, cb).buffers))
        && o.err == ResolveFrom(p.value.buffers, 0, q, cb).err
        && o.requested == ResolveFrom(p.value.buffers, 0, q, cb).requested
  {
  }

  /** A GLB file made of a valid header, its JSON chunk and a BIN chunk holding
      at least byteLength bytes gives buffer 0 exactly the BIN chunk's first
      byteLength bytes, whatever happens to the other buffers. */
  lemma {:induction false} GlbBinaryChunkLoadsBufferZero(
    h: GlbHeader, json: seq<Byte>, bin: ChunkHeader, payload: seq<Byte>,
    q: ReadQuotas, parse: seq<Byte> -> Result<ParsedDocument>, cb: string -> ResourceReply)
    requires h.magic == Magic && ValidateHeader(h, q.maxMemoryAllocation).None?
    requires |json| == h.json.length
    requires parse(json).Ok? && 0 < |parse(json).value.buffers| <= q.maxBufferCount
    requires var b := parse(json).value.buffers[0];
      && 0 < b.byteLength <= q.maxMemoryAllocation
      && bin.chunkType == ChunkBin && b.byteLength <= bin.length && b.byteLength <= |payload|
    ensures var input := HeaderBytes(h) + json + ChunkHeaderBytes(bin) + payload;
      var o := DecodeSpec(input, 0, q, parse, cb);
      var b := parse(json).value.buffers[0];
      && o.doc.Some? && |o.doc.value.buffers| > 0
      && o.doc.value.buffers[0] == b.(data := payload[..b.byteLength])
  {
    var input := HeaderBytes(h) + json + ChunkHeaderBytes(bin) + payload;
    var d := parse(json).value;
    var b := d.buffers[0];
    HeaderRoundTrip(h, [], json + ChunkHeaderBytes(bin) + payload);
    ValidateAgreesWithoutWrap(h, q.maxMemoryAllocation);
    assert input == [] + HeaderBytes(h) + (json + ChunkHeaderBytes(bin) + payload);
    assert ReadHeader(input, 0, q.maxMemoryAllocation) == Binary(h, None);
    var end := HeaderSize + |json|;
    assert input[HeaderSize..end] == json;
    var dd := DecodeDocumentSpec(input, 0, q, parse);
    assert dd == DocumentOutcome(true, Some(d), None, end);
    ChunkHeaderRoundTrip(bin, HeaderBytes(h) + json, payload);
    assert input == (HeaderBytes(h) + json) + ChunkHeaderBytes(bin) + payload;
    BinaryChunkFillsBuffer(input, end, b, q);
    var bo := BinaryBufferSpec(input, end, b, q);
    assert input[end + ChunkHeaderSize..end + ChunkHeaderSize + b.byteLength] == payload[..b.byteLength];
    var bs := d.buffers[0 := bo.buffer];
    var r := ResolveFrom(bs, 1, q, cb);
    assert r.buffers[..1] == bs[..1];
    assert r.buffers[0] == bs[0];
  }

  /** A path that climbs out of the base directory is refused by
      `validateBufferURI`. */
  lemma ParentTraversalRefused()
    ensures ValidateBufferUri("../secret.bin") == Some(InvalidBufferUri("../secret.bin"))
  {
    var uri := "../secret.bin";
    assert uri[0..2] == "..";
    assert OccursAt(uri, "..", 0);
  }

  /** In a plain JSON document, a first buffer whose URI fails
      `validateBufferURI` makes `Decode` fail with that error before the
      callback is asked for anything, and leaves every buffer as parsed. */
  lemma UnsafeFirstUriStopsDecode(input: seq<Byte>, pos: nat, q: ReadQuotas,
                                  parse: seq<Byte> -> Result<ParsedDocument>, cb: string -> ResourceReply)
    requires pos <= |input|
    requires |input| - pos < HeaderSize || U32At(input, pos) != Magic
    requires parse(input[pos..]).Ok? && 0 < |parse(input[pos..]).value.buffers| <= q.maxBufferCount
    requires var b := parse(input[pos..]).value.buffers[0];
      && ValidateBuffer(b, q).None? && b.uri != "" && !IsEmbeddedResource(b) && ValidateBufferUri(b.uri).Some?
    ensures var o := DecodeSpec(input, pos, q, parse, cb);
      var d := parse(input[pos..]).value;
      && o.err == Some(InvalidBufferUri(d.buffers[0].uri))
      && o.requested == [] && o.closed == []
      && o.doc == Some(d)
  {
    PlainJsonReadFromCursor(input, pos, q, parse, cb);
    var d := parse(input[pos..]).value;
    assert d.buffers[0 := d.buffers[0]] == d.buffers;
  }

  /** A GLB header that fails validation is `Decode`'s error: no document,
      no buffer touched, nothing requested. */
  lemma HeaderErrorStopsDecode(input: seq<Byte>, pos: nat, q: ReadQuotas,
                               parse: seq<Byte> -> Result<ParsedDocument>, cb: string -> ResourceReply)
    requires pos <= |input|
    requires ReadHeader(input, pos, q.maxMemoryAllocation).Binary?
    requires ReadHeader(input, pos, q.maxMemoryAllocation).err.Some?
    ensures var o := DecodeSpec(input, pos, q, parse, cb);
      && o.err == ReadHeader(input, pos, q.maxMemoryAllocation).err
      && o.doc.None? && o.requested == [] && o.closed == []
  {
  }

  /** In a GLB file, a failure of `decodeBinaryBuffer` on buffer 0 is
      `Decode`'s error and no other buffer is looked at. */
  lemma BinaryBufferFailureStopsDecode(input: seq<Byte>, pos: nat, q: ReadQuotas,
                                       parse: seq<Byte> -> Result<ParsedDocument>, cb: string -> ResourceReply)
    requires pos <= |input|
    requires var dd := DecodeDocumentSpec(input, pos, q, parse);
      dd.isBinary && dd.err.None? && 0 < |dd.doc.value.buffers| <= q.maxBufferCount
    requires var dd := DecodeDocumentSpec(input, pos, q, parse);
      BinaryBufferSpec(input, dd.pos, dd.doc.value.buffers[0], q).err.Some?
    ensures var dd := DecodeDocumentSpec(input, pos, q, parse);
      var bo := BinaryBufferSpec(input, dd.pos, dd.doc.value.buffers[0], q);
      var o := DecodeSpec(input, pos, q, parse, cb);
      && o.err == bo.err
      && o.requested == [] && o.closed == []
      && o.doc.value.buffers == dd.doc.value.buffers[0 := bo.buffer]
  {
  }

  /** In a GLB file whose buffer 0 was loaded from the BIN chunk, the other
      buffers go through the loop from index 1: `Decode`'s error, requests and
      buffers are that loop's, and every URI handed to the callback belongs to
      a buffer other than buffer 0. */
  lemma BinaryModeResolvesFromOne(input: seq<Byte>, pos: nat, q: ReadQuotas,
                                  parse: seq<Byte> -> Result<ParsedDocument>, cb: string -> ResourceReply)
    requires pos <= |input|
    requires var dd := DecodeDocumentSpec(input, pos, q, parse);
      dd.isBinary && dd.err.None? && 0 < |dd.doc.value.buffers| <= q.maxBufferCount
    requires var dd := DecodeDocumentSpec(input, pos, q, parse);
      BinaryBufferSpec(input, dd.pos, dd.doc.value.buffers[0], q).err.None?
    ensures var dd := DecodeDocumentSpec(input, pos, q, parse);
      var bo := BinaryBufferSpec(input, dd.pos, dd.doc.value.buffers[0], q);
      var bs := dd.doc.value.buffers[0 := bo.buffer];
      var o := DecodeSpec(input, pos, q, parse, cb);
      && o.err == ResolveFrom(bs, 1, q, cb).err
      && o.requested == ResolveFrom(bs, 1, q, cb).requested
      && o.doc.value.buffers == ResolveFrom(bs, 1, q, cb).buffers
      && o.doc.value.buffers[0] == bo.buffer
      && forall u :: u in o.requested ==> exists k :: 1 <= k < |bs| && bs[k].uri == u
  {
    var dd := DecodeDocumentSpec(input, pos, q, parse);
    var bo := BinaryBufferSpec(input, dd.pos, dd.doc.value.buffers[0], q);
    var bs := dd.doc.value.buffers[0 := bo.buffer];
    var r := ResolveFrom(bs, 1, q, cb);
    CallbackSeesOnlySafeUris(bs, 1, q, cb);
    assert r.buffers[..1] == bs[..1];
    assert r.buffers[0] == bs[0];
  }

  /** A document: its buffers, held in an array that decoding fills in place,
      and every other top-level property. */
  class Document {
    var buffers: array<Buffer>
    var rest: JsonObject

    constructor ()
      ensures buffers.Length == 0 && rest == map[]
    {
      buffers := new Buffer[0];
      rest := map[];
    }
  }

  /** `Decoder`: a buffered reader over the input, the resource callback, and
      the quotas. `requested` records every URI handed to the callback and
      `closed` every stream closed, in order. */
  class Decoder {
    const input: seq<Byte>
    var pos: nat
    const cb: string -> ResourceReply
    var quotas: ReadQuotas
    var requested: seq<string>
    var closed: seq<string>

    ghost predicate Valid()
      reads this
    {
      pos <= |input|
    }

    /** `NewDecoder`. */
    constructor (input: seq<Byte>, cb: string -> ResourceReply)
      ensures Valid() && this.input == input && this.cb == cb && pos == 0
      ensures quotas == DefaultQuotas && requested == [] && closed == []
    {
      this.input := input;
      this.cb := cb;
      pos := 0;
      quotas := DefaultQuotas;
      requested := [];
      closed := [];
    }

    /** `SetQuotas`: replaces both quotas; returns the same decoder. */
    method SetQuotas(q: ReadQuotas) returns (d: Decoder)
      modifies this`quotas
      ensures quotas == q && d == this
    {
      quotas := q;
      d := this;
    }

    /** `readGLBHeader`: peek 20 bytes; if they are there and start with the
      magic, consume them and validate the header, else consume nothing. */
    method ReadGlbHeader() returns (header: Option<GlbHeader>, err: Option<Error>)
      requires Valid()
      modifies this`pos
      ensures Valid()
      ensures old(ReadHeader(input, pos, quotas.maxMemoryAllocation)).NotBinary? ==>
                header.None? && err.None? && pos == old(pos)
      ensures old(ReadHeader(input, pos, quotas.maxMemoryAllocation)).Binary? ==>
                && header == Some(old(ReadHeader(input, pos, quotas.maxMemoryAllocation)).header)
                && err == old(ReadHeader(input, pos, quotas.maxMemoryAllocation)).err
                && pos == old(pos) + HeaderSize
    {
      if |input| - pos < HeaderSize {
        return None, None;
      }
      var h := HeaderAt(input, pos);
      if h.magic != Magic {
        return None, None;
      }
      pos := pos + HeaderSize;
      header, err := Some(h), ValidateHeaderAsWritten(h, quotas.maxMemoryAllocation);
    }

    /** `chunkHeader`: read 8 bytes, or fail at the end of the input. */
    method ReadChunkHeader() returns (r: Result<ChunkHeader>)
      requires Valid()
      modifies this`pos
      ensures Valid()
      ensures old(|input| - pos) >= ChunkHeaderSize ==>
                r == Ok(ChunkHeaderAt(input, old(pos))) && pos == old(pos) + ChunkHeaderSize
      ensures old(|input| - pos) < ChunkHeaderSize ==>
                r == Err(if old(pos) == |input| then Eof else UnexpectedEof) && pos == |input|
    {
      if |input| - pos < ChunkHeaderSize {
        r := Err(if pos == |input| then Eof else UnexpectedEof);
        pos := |input|;
      } else {
        r := Ok(ChunkHeaderAt(input, pos));
        pos := pos + ChunkHeaderSize;
      }
    }

    /** One `Read` of `n` bytes from the input. */
    method Read(n: nat) returns (rd: ReadResult)
      requires Valid()
      modifies this`pos
      ensures Valid()
      ensures rd == ReadOnce(input[old(pos)..], n) && pos == old(pos) + rd.count
    {
      rd := ReadOnce(input[pos..], n);
      pos := pos + rd.count;
    }

    /** `decodeDocument`. The document is replaced by the parsed one when the
      JSON parse succeeds and left alone otherwise. */
    method DecodeDocument(doc: Document, parse: seq<Byte> -> Result<ParsedDocument>) returns (isBinary: bool, err: Option<Error>)
      requires Valid()
      modifies this`pos, doc
      ensures Valid()
      ensures var o := DecodeDocumentSpec(input, old(pos), quotas, parse);
        && isBinary == o.isBinary && err == o.err && pos == o.pos
        && (o.doc.None? ==> doc.buffers == old(doc.buffers) && doc.rest == old(doc.rest))
        && (o.doc.Some? ==> fresh(doc.buffers) && doc.buffers[..] == o.doc.value.buffers && doc.rest == o.doc.value.rest)
    {
      var start := pos;
      var header;
      header, err := ReadGlbHeader();
      if err.Some? {
        return false, err;
      }
      var parsed;
      if header.Some? {
        var end := Min(pos + header.value.json.length, |input|);
        parsed := parse(input[pos..end]);
        pos := end;
        isBinary := true;
      } else {
        parsed := parse(input[pos..]);
        pos := |input|;
        isBinary := false;
      }
      if parsed.Err? {
        return isBinary, Some(parsed.error);
      }
      var d := parsed.value;
      doc.buffers := new Buffer[|d.buffers|](k requires 0 <= k < |d.buffers| => d.buffers[k]);
      doc.rest := d.rest;
      err := None;
      if |d.buffers| > quotas.maxBufferCount {
        err := Some(QuotaExceeded("number of buffer > MaxBufferCount"));
      }
    }

    /** `decodeBuffer` on `bs[i]`, written in place. */
    method DecodeBuffer(bs: array<Buffer>, i: nat) returns (err: Option<Error>)
      requires i < bs.Length
      modifies bs, this`requested, this`closed
      ensures var o := DecodeBufferSpec(old(bs[i]), quotas, cb);
        && bs[..] == old(bs[..])[i := o.buffer] && err == o.err
        && requested == old(requested) + o.requested && closed == old(closed) + o.closed
    {
      var b := bs[i];
      err := ValidateBuffer(b, quotas);
      if err.Some? {
        return;
      }
      if b.uri == "" {
        return Some(BufferWithoutUri);
      }
      if IsEmbeddedResource(b) {
        var m := MarshalData(b);
        bs[i] := b.(data := m.0);
        err := m.1;
      } else {
        err := ValidateBufferUri(b.uri);
        if err.None? {
          var reply := cb(b.uri);
          requested := requested + [b.uri];
          err := reply.err;
          if reply.stream.Some? && reply.err.None? {
            var rd := ReadOnce(reply.stream.value, b.byteLength);
            bs[i] := b.(data := rd.data);
            err := rd.err;
            closed := closed + [b.uri];
          }
        }
      }
    }

    /** `decodeBinaryBuffer` on `bs[i]`, written in place, reading from the
      input. */
    method DecodeBinaryBuffer(bs: array<Buffer>, i: nat) returns (err: Option<Error>)
      requires Valid() && i < bs.Length
      modifies bs, this`pos
      ensures Valid()
      ensures var o := BinaryBufferSpec(input, old(pos), old(bs[i]), quotas);
        bs[..] == old(bs[..])[i := o.buffer] && err == o.err && pos == o.pos
    {
      var b := bs[i];
      err := ValidateBuffer(b, quotas);
      if err.Some? {
        return;
      }
      var header := ReadChunkHeader();
      if header.Err? {
        return Some(header.error);
      }
      if header.value.chunkType != ChunkBin || header.value.length < b.byteLength {
        return Some(InvalidGlbBinHeader);
      }
      var rd := Read(b.byteLength);
      bs[i] := b.(data := rd.data);
      err := rd.err;
    }

    /** The loop of `Decode` over `bs[first..]`: each buffer in index order
      through `decodeBuffer`, stopping at the first error. */
    method DecodeBuffers(bs: array<Buffer>, first: nat) returns (err: Option<Error>)
      requires first <= bs.Length
      modifies bs, this`requested, this`closed
      ensures var r := ResolveFrom(old(bs[..]), first, quotas, cb);
        && bs[..] == r.buffers && err == r.err
        && requested == old(requested) + r.requested && closed == old(closed) + r.closed
    {
      ghost var target := ResolveFrom(bs[..], first, quotas, cb);
      var i := first;
      while i < bs.Length
        invariant first <= i <= bs.Length
        invariant After(ResolveFrom(bs[..], i, quotas, cb), requested, closed) == After(target, old(requested), old(closed))
      {
        ghost var before, requested0, closed0 := bs[..], requested, closed;
        ghost var o := DecodeBufferSpec(before[i], quotas, cb);
        if o.err.Some? {
          ResolveStepFails(before, i, quotas, cb, requested0, closed0);
        } else {
          ResolveStepSucceeds(before, i, quotas, cb, requested0, closed0);
        }
        err := DecodeBuffer(bs, i);
        assert bs[..] == before[i := o.buffer];
        if err.Some? {
          return;
        }
        i := i + 1;
      }
      err := None;
    }

    /** `Decode`. */
    method Decode(doc: Document, parse: seq<Byte> -> Result<ParsedDocument>) returns (err: Option<Error>)
      requires Valid()
      modifies this`pos, this`requested, this`closed, doc
      ensures Valid()
      ensures var o := DecodeSpec(input, old(pos), quotas, parse, cb);
        && err == o.err && pos == o.pos
        && requested == old(requested) + o.requested && closed == old(closed) + o.closed
        && (o.doc.None? ==> doc.buffers == old(doc.buffers) && doc.rest == old(doc.rest))
        && (o.doc.Some? ==> fresh(doc.buffers) && doc.buffers[..] == o.doc.value.buffers && doc.rest == o.doc.value.rest)
    {
      ghost var dd := DecodeDocumentSpec(input, pos, quotas, parse);
      var isBinary;
      isBinary, err := DecodeDocument(doc, parse);
      if err.Some? {
        return;
      }
      var bs := doc.buffers;
      ghost var d := dd.doc.value;
      assert bs[..] == d.buffers;
      if bs.Length > quotas.maxBufferCount {
        return Some(QuotaExceeded("number of buffer > MaxBufferCount"));
      }
      var first := 0;
      if isBinary && bs.Length > 0 {
        first := 1;
        ghost var bo := BinaryBufferSpec(input, pos, d.buffers[0], quotas);
        err := DecodeBinaryBuffer(bs, 0);
        assert bs[..] == d.buffers[0 := bo.buffer];
        if err.Some? {
          return;
        }
      }
      err := DecodeBuffers(bs, first);
    }
  }
}
