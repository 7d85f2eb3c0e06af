/** Bodies cut into chunks whose base64 fits a Kinesis record, and the publish calls made for one message. */
module Chunking {
  import opened Text
  import Base64

  const RESERVED := 100

  /** Python's floor division by four, then three bytes for every four characters. */
  function SafeRawChunkSize(maxRecordSize: int): int {
    (maxRecordSize - RESERVED) / 4 * 3
  }

  function Chunks(body: Bytes, size: nat): (cs: seq<Bytes>)
    requires size > 0
    ensures forall i | 0 <= i < |cs| :: 0 < |cs[i]| <= size
    ensures forall i | 0 <= i < |cs| - 1 :: |cs[i]| == size
  {
    if |body| == 0 then []
    else if |body| <= size then [body]
    else [body[..size]] + Chunks(body[size..], size)
  }

  datatype ChunkResult = Chunked(chunks: seq<Bytes>) | ZeroStep

  /** `range(0, len(body), step)`: nothing for a negative step, an error for a step of zero. */
  method ChunkBodyData(body: Bytes, maxRecordSize: int) returns (r: ChunkResult)
    ensures r.ZeroStep? <==> 100 <= maxRecordSize < 104
    ensures maxRecordSize >= 104 ==> r == Chunked(Chunks(body, SafeRawChunkSize(maxRecordSize)))
    ensures maxRecordSize < 100 ==> r == Chunked([])
  {
    hide Chunks;
    var safeRawChunkSize := SafeRawChunkSize(maxRecordSize);
    if safeRawChunkSize == 0 { return ZeroStep; }
    var chunks: seq<Bytes> := [];
    if safeRawChunkSize > 0 {
      var i := 0;
      ghost var rest := body;
      while i < |body|
        invariant 0 <= i && rest == if i <= |body| then body[i..] else []
        invariant chunks + Chunks(rest, safeRawChunkSize) == Chunks(body, safeRawChunkSize)
      {
        var end := if i + safeRawChunkSize <= |body| then i + safeRawChunkSize else |body|;
        ChunksStep(body, i, safeRawChunkSize);
        rest := body[end..];
        assert chunks + ([body[i..end]] + Chunks(rest, safeRawChunkSize))
            == chunks + [body[i..end]] + Chunks(rest, safeRawChunkSize);
        chunks := chunks + [body[i..end]];
        i := i + safeRawChunkSize;
      }
      NoChunks(safeRawChunkSize);
    }
    r := Chunked(chunks);
  }

  lemma NoChunks(size: nat)
    requires size > 0
    ensures Chunks([], size) == []
  {
  }

  lemma ChunksStep(body: Bytes, i: nat, size: nat)
    requires size > 0 && i < |body|
    ensures var end := if i + size <= |body| then i + size else |body|;
            Chunks(body[i..], size) == [body[i..end]] + Chunks(body[end..], size)
  {
    var rest := body[i..];
    if |rest| > size {
      assert rest[..size] == body[i..i + size] && rest[size..] == body[i + size..];
    } else {
      assert body[i..|body|] == rest && body[|body|..] == [];
      assert [rest] + [] == [rest];
    }
  }

  function Join(cs: seq<Bytes>): Bytes {
    if cs == [] then [] else cs[0] + Join(cs[1..])
  }

  function JoinEncoded(cs: seq<Bytes>): Text {
    if cs == [] then [] else Base64.Encode(cs[0]) + JoinEncoded(cs[1..])
  }

  /** Nothing is lost, repeated or reordered. */
  lemma {:induction false} ChunksRejoin(body: Bytes, size: nat)
    requires size > 0
    ensures Join(Chunks(body, size)) == body
    decreases |body|
  {
    if |body| > size {
      ChunksRejoin(body[size..], size);
      assert body[..size] + body[size..] == body;
    } else if |body| > 0 {
      assert Join([body]) == body + [];
    }
  }

  /** The number of chunks is |body| / size rounded up. */
  lemma {:induction false} ChunkCount(body: Bytes, size: nat)
    requires size > 0
    ensures |body| <= |Chunks(body, size)| * size < |body| + size
    decreases |body|
  {
    if |body| > size {
      ChunkCount(body[size..], size);
      OneMore(|Chunks(body[size..], size)|, size);
    }
  }

  lemma OneMore(n: nat, size: nat)
    ensures (1 + n) * size == size + n * size
  {
  }

  /** The chunks' base64 texts put together are the base64 of the whole body, because the size is a multiple of three. */
  lemma {:induction false} EncodedChunksRejoin(body: Bytes, size: nat)
    requires size > 0 && size % 3 == 0
    ensures JoinEncoded(Chunks(body, size)) == Base64.Encode(body)
    decreases |body|
  {
    if |body| > size {
      EncodedChunksRejoin(body[size..], size);
      Base64.EncodeConcat(body[..size], body[size..]);
      assert body[..size] + body[size..] == body;
    } else if |body| > 0 {
      assert JoinEncoded([body]) == Base64.Encode(body) + [];
    }
  }

  /** Each chunk's base64, with the reserved bytes, stays within the record size. */
  lemma EncodedChunkFits(body: Bytes, maxRecordSize: int, i: nat)
    requires maxRecordSize >= 104 && i < |Chunks(body, SafeRawChunkSize(maxRecordSize))|
    ensures |Base64.Encode(Chunks(body, SafeRawChunkSize(maxRecordSize))[i])| + RESERVED <= maxRecordSize
  {
    Base64.EncodeShape(Chunks(body, SafeRawChunkSize(maxRecordSize))[i]);
  }

  /** The size is the largest that works: any longer chunk would break the bound. */
  lemma ChunkSizeIsLargest(maxRecordSize: int, chunk: Bytes)
    requires maxRecordSize >= 104 && |chunk| > SafeRawChunkSize(maxRecordSize)
    ensures |Base64.Encode(chunk)| + RESERVED > maxRecordSize
  {
    Base64.EncodeShape(chunk);
  }

  // ---- publishing one message ----

  datatype Direction = ClientToUpstream | UpstreamToClient
  datatype Stream = RequestBody | ResponseBody
  datatype PublishCall = PublishCall(stream: Stream, chunk: Bytes, chunkId: nat, numChunks: nat)

  function StreamOf(d: Direction): Stream {
    if d.ClientToUpstream? then RequestBody else ResponseBody
  }

  function Payloads(calls: seq<PublishCall>): seq<Bytes> {
    seq(|calls|, i requires 0 <= i < |calls| => calls[i].chunk)
  }

  /** The calls one message makes: one per chunk with ids counted from zero, and a single empty one for an empty message. */
  function PublishCalls(direction: Direction, data: Bytes, maxRecordSize: int): seq<PublishCall>
    requires maxRecordSize >= 104
  {
    var chunks := if data == [] then [[]] else Chunks(data, SafeRawChunkSize(maxRecordSize));
    seq(|chunks|, i requires 0 <= i < |chunks| => PublishCall(StreamOf(direction), chunks[i], i, |chunks|))
  }

  /** They carry the message whole and in order. */
  lemma PublishCallsRejoin(direction: Direction, data: Bytes, maxRecordSize: int)
    requires maxRecordSize >= 104
    ensures Join(Payloads(PublishCalls(direction, data, maxRecordSize))) == data
  {
    var calls := PublishCalls(direction, data, maxRecordSize);
    if data == [] {
      assert Payloads(calls) == [[]];
      assert Join([[]]) == [];
    } else {
      ChunksRejoin(data, SafeRawChunkSize(maxRecordSize));
      assert Payloads(calls) == Chunks(data, SafeRawChunkSize(maxRecordSize));
    }
  }

  /**
   One call per chunk, in order, whatever earlier calls did: a failed publish is logged and the next one is still made.
   `raised(i)` says whether the i-th call fails; `delivered` are the calls that did not.
   */
  method PublishMessage(direction: Direction, data: Bytes, maxRecordSize: int, raised: nat -> bool)
    returns (calls: seq<PublishCall>, delivered: seq<PublishCall>)
    requires maxRecordSize >= 104
    ensures calls == PublishCalls(direction, data, maxRecordSize)
    ensures |calls| >= 1 && Join(Payloads(calls)) == data
    ensures data == [] ==> |calls| == 1
    ensures data != [] ==> Payloads(calls) == Chunks(data, SafeRawChunkSize(maxRecordSize))
    ensures forall i | 0 <= i < |calls| ::
              && calls[i].chunkId == i && calls[i].numChunks == |calls|
              && (calls[i].stream.RequestBody? <==> direction.ClientToUpstream?)
    ensures forall c :: c in delivered <==> c in calls && !raised(c.chunkId)
  {
    hide Chunks, Join, SafeRawChunkSize;
    var r := ChunkBodyData(data, maxRecordSize);
    var chunks := r.chunks;
    ChunksToPublish(data, maxRecordSize, chunks);
    var numChunks := if |chunks| >= 1 then |chunks| else 1;
    if chunks == [] {
      chunks := [[]];
    }
    calls, delivered := [], [];
    for chunkId := 0 to |chunks|
      invariant |calls| == chunkId
      invariant forall i | 0 <= i < chunkId :: calls[i] == PublishCall(StreamOf(direction), chunks[i], i, numChunks)
      invariant forall c :: c in delivered <==> c in calls && !raised(c.chunkId)
    {
      var call := PublishCall(StreamOf(direction), chunks[chunkId], chunkId, numChunks);
      calls := calls + [call];
      if !raised(chunkId) { delivered := delivered + [call]; }
    }
    assert Payloads(calls) == chunks;
    assert calls == PublishCalls(direction, data, maxRecordSize);
  }

  lemma ChunksToPublish(data: Bytes, maxRecordSize: int, chunks: seq<Bytes>)
    requires maxRecordSize >= 104 && chunks == Chunks(data, SafeRawChunkSize(maxRecordSize))
    ensures chunks == [] <==> data == []
    ensures Join(if chunks == [] then [[]] else chunks) == data
  {
    ChunksRejoin(data, SafeRawChunkSize(maxRecordSize));
  }
}
