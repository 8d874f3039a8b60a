/**
 Chunked blob streams and the publication preimage of scripts/contracts/oci_graph.py. SHA-256 is a
 parameter; a digest is the number its lower-case hex text spells, so text order is number order.
 */
module BlobStream {
  import opened Foundation
  import opened Ordering
  import opened WireBytes

  const CHUNK_BYTES: nat := 4_194_304
  const BLOB_BYTES: nat := 67_108_864
  const MAX_CHUNKS: nat := 1024

  type Hash = Bytes -> nat

  datatype Chunk = Chunk(index: int, offset: int, size: int, digest: nat, content: string)

  datatype Stream = Stream(digest: nat, mediaType: string, size: int, chunks: seq<Chunk>)

  datatype StreamError =
    | BadStream | BadChunk | BadContent(cause: WireError) | ChunkMismatch | DigestMismatch
    | ManifestMismatch | BlobSetInvalid

  // ---------- what a stream is ----------

  function Concat(parts: seq<Bytes>): Bytes {
    if parts == [] then [] else Concat(parts[..|parts| - 1]) + parts[|parts| - 1]
  }

  /** Chunk `k` of a payload cut into `parts`. */
  predicate ChunkCarries(chunk: Chunk, parts: seq<Bytes>, k: nat, hash: Hash)
    requires k < |parts|
  {
    && chunk.index == k && chunk.offset == |Concat(parts[..k])| && chunk.size == |parts[k]|
    && 0 < |parts[k]| <= CHUNK_BYTES
    && chunk.digest == hash(parts[k]) && chunk.content == Encode(parts[k])
  }

  /** The stream transports `Concat(parts)` in exactly these parts. */
  ghost predicate Carries(stream: Stream, parts: seq<Bytes>, hash: Hash) {
    && 0 < |parts| == |stream.chunks| <= MAX_CHUNKS
    && (forall k :: 0 <= k < |parts| ==> ChunkCarries(stream.chunks[k], parts, k, hash))
    && stream.size == |Concat(parts)| <= BLOB_BYTES && stream.digest == hash(Concat(parts))
  }

  // ---------- building ----------

  /** Chunk `k` of a payload cut every 4 MiB. */
  ghost predicate CutHere(chunk: Chunk, payload: Bytes, k: nat, hash: Hash) {
    var from := k * 4_194_304;
    from < |payload| &&
    var piece := payload[from..if from + 4_194_304 <= |payload| then from + 4_194_304 else |payload|];
    chunk == Chunk(k, from, |piece|, hash(piece), Encode(piece))
  }

  /** The chunks built so far carry the parts cut so far, each in its place. */
  ghost predicate CutSoFar(chunks: seq<Chunk>, parts: seq<Bytes>, payload: Bytes, hash: Hash) {
    && |chunks| == |parts|
    && (forall k :: 0 <= k < |parts| ==> ChunkCarries(chunks[k], parts, k, hash))
    && forall k :: 0 <= k < |parts| ==> CutHere(chunks[k], payload, k, hash)
  }

  lemma NothingCut(payload: Bytes, hash: Hash)
    ensures CutSoFar([], [], payload, hash)
  {
  }

  lemma CutTells(chunks: seq<Chunk>, parts: seq<Bytes>, payload: Bytes, hash: Hash)
    requires CutSoFar(chunks, parts, payload, hash)
    ensures |chunks| == |parts|
    ensures forall k :: 0 <= k < |parts| ==>
      ChunkCarries(chunks[k], parts, k, hash) && CutHere(chunks[k], payload, k, hash)
  {
  }

  lemma CutOneMore(chunks: seq<Chunk>, parts: seq<Bytes>, payload: Bytes, content: Bytes, hash: Hash)
    requires CutSoFar(chunks, parts, payload, hash)
    requires var from := |parts| * CHUNK_BYTES;
      && from < |payload| && Concat(parts) == payload[..from]
      && content == payload[from..if from + CHUNK_BYTES <= |payload| then from + CHUNK_BYTES else |payload|]
    ensures
      CutSoFar(
        chunks + [Chunk(|parts|, |parts| * CHUNK_BYTES, |content|, hash(content), Encode(content))],
        parts + [content], payload, hash)
  {
    hide CutSoFar, Encode, Concat, ChunkCarries, CutHere;
    var chunk := Chunk(|parts|, |parts| * CHUNK_BYTES, |content|, hash(content), Encode(content));
    CarriesLast(chunk, parts, payload, content, hash);
    CutLast(chunk, |parts|, payload, content, hash);
    CutGrows(chunks, parts, payload, chunk, content, hash);
  }

  lemma CutGrows(chunks: seq<Chunk>, parts: seq<Bytes>, payload: Bytes, chunk: Chunk, content: Bytes, hash: Hash)
    requires CutSoFar(chunks, parts, payload, hash)
    requires ChunkCarries(chunk, parts + [content], |parts|, hash) && CutHere(chunk, payload, |parts|, hash)
    ensures CutSoFar(chunks + [chunk], parts + [content], payload, hash)
  {
    hide Encode, Concat, ChunkCarries, CutHere;
    var cut, more := chunks + [chunk], parts + [content];
    forall k | 0 <= k < |more|
      ensures ChunkCarries(cut[k], more, k, hash) && CutHere(cut[k], payload, k, hash)
    {
      if k < |parts| {
        CarriesStill(chunks[k], parts, content, k, hash);
      }
    }
  }

  lemma CarriesStill(chunk: Chunk, parts: seq<Bytes>, content: Bytes, k: nat, hash: Hash)
    requires k < |parts| && ChunkCarries(chunk, parts, k, hash)
    ensures ChunkCarries(chunk, parts + [content], k, hash)
  {
    hide Encode, Concat;
    assert (parts + [content])[..k] == parts[..k];
  }

  lemma CarriesLast(chunk: Chunk, parts: seq<Bytes>, payload: Bytes, content: Bytes, hash: Hash)
    requires |Concat(parts)| == |parts| * CHUNK_BYTES && 0 < |content| <= CHUNK_BYTES
    requires chunk == Chunk(|parts|, |parts| * CHUNK_BYTES, |content|, hash(content), Encode(content))
    ensures ChunkCarries(chunk, parts + [content], |parts|, hash)
  {
    hide Encode, Concat;
    assert (parts + [content])[..|parts|] == parts;
  }

  lemma CutLast(chunk: Chunk, n: nat, payload: Bytes, content: Bytes, hash: Hash)
    requires var from := n * CHUNK_BYTES;
      && from < |payload|
      && content == payload[from..if from + CHUNK_BYTES <= |payload| then from + CHUNK_BYTES else |payload|]
    requires chunk == Chunk(n, n * CHUNK_BYTES, |content|, hash(content), Encode(content))
    ensures CutHere(chunk, payload, n, hash)
  {
    hide Encode;
  }

  /** `build_oci_blob_stream`. */
  method BuildBlobStream(mediaType: string, payload: Bytes, hash: Hash)
    returns (r: Result<Stream, StreamError>, ghost parts: seq<Bytes>)
    ensures r.Ok? <==> mediaType != "" && 0 < |payload| <= BLOB_BYTES
    ensures r.Ok? ==> r.value.mediaType == mediaType && Carries(r.value, parts, hash) && Concat(parts) == payload
    ensures r.Ok? ==> forall k :: 0 <= k < |parts| - 1 ==> |parts[k]| == CHUNK_BYTES
    ensures r.Ok? ==>
      && r.value.size == |payload| && r.value.digest == hash(payload)
      && |r.value.chunks| == (|payload| + 4_194_303) / 4_194_304
      && forall k :: 0 <= k < |r.value.chunks| ==> CutHere(r.value.chunks[k], payload, k, hash)
  {
    hide Encode, CutSoFar, CutHere, ChunkCarries;
    parts := [];
    NothingCut(payload, hash);
    if mediaType == "" {
      return Err(BadStream), parts;
    }
    if |payload| == 0 || |payload| > BLOB_BYTES {
      return Err(BadStream), parts;
    }
    var chunks: seq<Chunk> := [];
    var offset := 0;
    while offset < |payload|
      invariant 0 <= offset
      invariant Concat(parts) == if offset <= |payload| then payload[..offset] else payload
      invariant offset <= |payload| ==> offset == |parts| * CHUNK_BYTES
      invariant offset > |payload| ==> 0 < |parts| && offset == |parts| * CHUNK_BYTES
      invariant offset < |payload| + CHUNK_BYTES
      invariant |chunks| == |parts| && CutSoFar(chunks, parts, payload, hash)
      invariant forall k :: 0 <= k < |parts| && (k < |parts| - 1 || offset <= |payload|) ==> |parts[k]| == CHUNK_BYTES
    {
      var end := if offset + CHUNK_BYTES <= |payload| then offset + CHUNK_BYTES else |payload|;
      var content := payload[offset..end];
      CutOneMore(chunks, parts, payload, content, hash);
      chunks := chunks + [Chunk(|chunks|, offset, |content|, hash(content), Encode(content))];
      parts := parts + [content];
      assert payload[..offset] + content == payload[..end];
      offset := offset + CHUNK_BYTES;
    }
    assert payload[..|payload|] == payload;
    CutTells(chunks, parts, payload, hash);
    return Ok(Stream(hash(payload), mediaType, |payload|, chunks)), parts;
  }

  // ---------- decoding ----------

  /** The first chunks of the stream carry `parts`. */
  ghost predicate Front(stream: Stream, parts: seq<Bytes>, hash: Hash) {
    && |parts| <= |stream.chunks|
    && forall j :: 0 <= j < |parts| ==> ChunkCarries(stream.chunks[j], parts, j, hash)
  }

  /** Whatever the stream transports starts with `parts`. */
  ghost predicate OnlyFront(stream: Stream, parts: seq<Bytes>, hash: Hash) {
    forall any :: Carries(stream, any, hash) ==> parts <= any
  }

  /** The conditions checked for the chunk behind `parts`. */
  ghost predicate ChunkGood(chunk: Chunk, parts: seq<Bytes>, content: Result<Bytes, WireError>, hash: Hash) {
    && chunk.index == |parts| && chunk.offset == |Concat(parts)| && 0 < chunk.size <= CHUNK_BYTES
    && content.Ok? && |content.value| == chunk.size && hash(content.value) == chunk.digest
  }

  lemma NothingRead(stream: Stream, hash: Hash)
    ensures Front(stream, [], hash) && OnlyFront(stream, [], hash) && Concat([]) == []
  {
  }

  lemma FrontOneMore(stream: Stream, parts: seq<Bytes>, content: Bytes, hash: Hash)
    requires |parts| < |stream.chunks| && Front(stream, parts, hash)
    requires Decode(stream.chunks[|parts|].content, CHUNK_BYTES) == Ok(content)
    requires ChunkGood(stream.chunks[|parts|], parts, Ok(content), hash)
    ensures Front(stream, parts + [content], hash) && Concat(parts + [content]) == Concat(parts) + content
  {
    hide Encode, Decode;
    var more := parts + [content];
    DecodeExact(stream.chunks[|parts|].content, CHUNK_BYTES, content);
    assert more[..|parts|] == parts;
    forall j | 0 <= j < |more|
      ensures ChunkCarries(stream.chunks[j], more, j, hash)
    {
      assert more[..j] == parts[..j];
      assert j == |parts| ==> parts[..j] == parts;
    }
  }

  /** A payload the stream transports passes the checks of the next chunk, with the part decoded there. */
  lemma NextPart(stream: Stream, parts: seq<Bytes>, any: seq<Bytes>, hash: Hash)
    requires |parts| < |stream.chunks| && Carries(stream, any, hash) && parts <= any
    ensures var content := Decode(stream.chunks[|parts|].content, CHUNK_BYTES);
      ChunkGood(stream.chunks[|parts|], parts, content, hash) && parts + [content.value] <= any
  {
    hide Encode, Decode;
    var k := |parts|;
    assert ChunkCarries(stream.chunks[k], any, k, hash) && any[..k] == parts;
    DecodeExact(stream.chunks[k].content, CHUNK_BYTES, any[k]);
    assert any[..k + 1] == any[..k] + [any[k]];
  }

  /** One round: either the next part is read or nothing is transported. */
  lemma ReadOne(stream: Stream, parts: seq<Bytes>, hash: Hash)
    requires |parts| < |stream.chunks| && Front(stream, parts, hash) && OnlyFront(stream, parts, hash)
    ensures var content := Decode(stream.chunks[|parts|].content, CHUNK_BYTES);
      if ChunkGood(stream.chunks[|parts|], parts, content, hash) then
        && Front(stream, parts + [content.value], hash) && OnlyFront(stream, parts + [content.value], hash)
        && Concat(parts + [content.value]) == Concat(parts) + content.value
      else forall any :: !Carries(stream, any, hash)
  {
    hide Decode, Front, Carries, Concat;
    var content := Decode(stream.chunks[|parts|].content, CHUNK_BYTES);
    forall any | Carries(stream, any, hash)
      ensures ChunkGood(stream.chunks[|parts|], parts, content, hash) && parts + [content.value] <= any
    {
      NextPart(stream, parts, any, hash);
    }
    if ChunkGood(stream.chunks[|parts|], parts, content, hash) {
      FrontOneMore(stream, parts, content.value, hash);
    }
  }

  lemma AllRead(stream: Stream, parts: seq<Bytes>, hash: Hash)
    requires 0 < |parts| == |stream.chunks| <= MAX_CHUNKS && stream.size <= BLOB_BYTES
    requires Front(stream, parts, hash) && OnlyFront(stream, parts, hash)
    ensures if |Concat(parts)| == stream.size && hash(Concat(parts)) == stream.digest then Carries(stream, parts, hash)
      else forall any :: !Carries(stream, any, hash)
  {
    hide Concat, ChunkCarries;
    forall any | Carries(stream, any, hash)
      ensures any == parts
    {
    }
  }

  /** `decode_oci_blob_stream`. */
  method DecodeBlobStream(stream: Stream, hash: Hash) returns (r: Result<Bytes, StreamError>, ghost parts: seq<Bytes>)
    ensures r.Ok? ==> Carries(stream, parts, hash) && r.value == Concat(parts)
    ensures r.Err? ==> forall any :: !Carries(stream, any, hash)
  {
    hide Carries, Front, OnlyFront, Concat, Decode;
    parts := [];
    NothingRead(stream, hash);
    SizesOfCarried(stream, hash);
    if !(0 < stream.size <= BLOB_BYTES && 0 < |stream.chunks| <= MAX_CHUNKS) {
      return Err(BadStream), parts;
    }
    var payload: Bytes := [];
    var expectedOffset := 0;
    var k := 0;
    while k < |stream.chunks|
      invariant 0 <= k <= |stream.chunks| && |parts| == k
      invariant payload == Concat(parts) && expectedOffset == |payload|
      invariant Front(stream, parts, hash) && OnlyFront(stream, parts, hash)
    {
      var chunk := stream.chunks[k];
      ReadOne(stream, parts, hash);
      if !(chunk.index == k && chunk.offset == expectedOffset && 0 < chunk.size <= CHUNK_BYTES) {
        return Err(BadChunk), parts;
      }
      var content := Decode(chunk.content, CHUNK_BYTES);
      if content.Err? {
        return Err(BadContent(content.error)), parts;
      }
      if |content.value| != chunk.size || hash(content.value) != chunk.digest {
        return Err(ChunkMismatch), parts;
      }
      parts := parts + [content.value];
      payload := payload + content.value;
      expectedOffset := expectedOffset + |content.value|;
      k := k + 1;
    }
    AllRead(stream, parts, hash);
    if |payload| != stream.size || hash(payload) != stream.digest {
      return Err(DigestMismatch), parts;
    }
    return Ok(payload), parts;
  }

  lemma SizesOfCarried(stream: Stream, hash: Hash)
    ensures !(0 < stream.size <= BLOB_BYTES && 0 < |stream.chunks| <= MAX_CHUNKS) ==>
      forall any :: !Carries(stream, any, hash)
  {
    forall any | Carries(stream, any, hash)
      ensures 0 < stream.size <= BLOB_BYTES && 0 < |stream.chunks| <= MAX_CHUNKS
    {
      FirstPartNonempty(stream, any, hash);
    }
  }

  lemma FirstPartNonempty(stream: Stream, parts: seq<Bytes>, hash: Hash)
    requires Carries(stream, parts, hash)
    ensures |Concat(parts)| > 0
  {
    assert ChunkCarries(stream.chunks[|parts| - 1], parts, |parts| - 1, hash);
  }

  /** A stream transports one payload, in one way. */
  lemma {:induction false} CarriesOnePayload(stream: Stream, a: seq<Bytes>, b: seq<Bytes>, hash: Hash)
    requires Carries(stream, a, hash) && Carries(stream, b, hash)
    ensures a == b
  {
    forall k | 0 <= k < |a|
      ensures a[k] == b[k]
    {
      assert ChunkCarries(stream.chunks[k], a, k, hash) && ChunkCarries(stream.chunks[k], b, k, hash);
      EncodingIsBijective("", "", 0, a[k], b[k]);
    }
  }

  /** What is built decodes to what was put in, for every payload that can be built. */
  method BuildThenDecode(mediaType: string, payload: Bytes, hash: Hash) returns (r: Result<Bytes, StreamError>)
    ensures mediaType != "" && 0 < |payload| <= BLOB_BYTES ==> r == Ok(payload)
  {
    var built, parts := BuildBlobStream(mediaType, payload, hash);
    if built.Err? {
      return Err(built.error);
    }
    var decoded, seen := DecodeBlobStream(built.value, hash);
    if decoded.Ok? {
      CarriesOnePayload(built.value, parts, seen, hash);
    }
    return decoded;
  }

  // ---------- the publication preimage ----------

  datatype BlobDescriptor = BlobDescriptor(digest: nat, mediaType: string, size: int)

  datatype RootDescriptor = RootDescriptor(repository: string, digest: nat, size: int)

  datatype Preimage = Preimage(
    destination: string, harness: string, root: RootDescriptor, manifestDigest: nat,
    blobs: seq<BlobDescriptor>, graphDigest: nat)

  function DescriptorOf(stream: Stream): BlobDescriptor {
    BlobDescriptor(stream.digest, stream.mediaType, stream.size)
  }

  predicate StrictlySorted(blobs: seq<BlobDescriptor>) {
    forall i, j :: 0 <= i < j < |blobs| ==> blobs[i].digest < blobs[j].digest
  }

  predicate DigestBefore(a: BlobDescriptor, b: BlobDescriptor) {
    a.digest < b.digest
  }

  ghost predicate Transports(stream: Stream, payload: Bytes, hash: Hash) {
    exists parts :: Carries(stream, parts, hash) && Concat(parts) == payload
  }

  /** Chunk `k` starts where the one before it ends and holds that slice of the payload. */
  ghost predicate SliceHere(stream: Stream, payload: Bytes, k: nat, hash: Hash)
    requires k < |stream.chunks|
  {
    var chunk := stream.chunks[k];
    && chunk.index == k && 0 < chunk.size <= 4_194_304
    && chunk.offset == (if k == 0 then 0 else stream.chunks[k - 1].offset + stream.chunks[k - 1].size)
    && 0 <= chunk.offset && chunk.offset + chunk.size <= |payload|
    && var slice := payload[chunk.offset..chunk.offset + chunk.size];
       chunk.digest == hash(slice) && chunk.content == Encode(slice)
  }

  /** The stream is this payload in consecutive slices. */
  ghost predicate Slices(stream: Stream, payload: Bytes, hash: Hash) {
    && 0 < |stream.chunks| <= 1024 && stream.size == |payload| <= 67_108_864 && stream.digest == hash(payload)
    && (forall k :: 0 <= k < |stream.chunks| ==> SliceHere(stream, payload, k, hash))
    && var last := stream.chunks[|stream.chunks| - 1];
       last.offset + last.size == |payload|
  }

  lemma SliceOfFront(front: Bytes, rest: Bytes, from: nat, length: nat)
    requires from + length <= |front|
    ensures (front + rest)[from..from + length] == front[from..from + length]
  {
  }

  lemma {:induction false} ConcatSlice(parts: seq<Bytes>, k: nat)
    requires k < |parts|
    ensures var from := |Concat(parts[..k])|;
      from + |parts[k]| <= |Concat(parts)| && Concat(parts)[from..from + |parts[k]|] == parts[k]
    decreases |parts|
  {
    var last := |parts| - 1;
    if k < last {
      ConcatSlice(parts[..last], k);
      assert parts[..last][..k] == parts[..k];
      SliceOfFront(Concat(parts[..last]), parts[last], |Concat(parts[..k])|, |parts[k]|);
    }
  }

  lemma CarriedIsSliced(stream: Stream, parts: seq<Bytes>, hash: Hash)
    requires Carries(stream, parts, hash)
    ensures Slices(stream, Concat(parts), hash)
  {
    hide Encode;
    forall k | 0 <= k < |parts|
      ensures SliceHere(stream, Concat(parts), k, hash)
    {
      assert ChunkCarries(stream.chunks[k], parts, k, hash);
      ConcatSlice(parts, k);
      if k > 0 {
        assert ChunkCarries(stream.chunks[k - 1], parts, k - 1, hash);
        assert parts[..k][..k - 1] == parts[..k - 1];
      }
    }
    var last := |parts| - 1;
    assert ChunkCarries(stream.chunks[last], parts, last, hash);
  }

  /** The slices of a payload, as parts. */
  ghost function PartsOf(stream: Stream, payload: Bytes): (parts: seq<Bytes>)
    requires forall k :: 0 <= k < |stream.chunks| ==>
      0 <= stream.chunks[k].offset <= stream.chunks[k].offset + stream.chunks[k].size <= |payload|
    ensures |parts| == |stream.chunks|
  {
    seq(|stream.chunks|, k requires 0 <= k < |stream.chunks| =>
      payload[stream.chunks[k].offset..stream.chunks[k].offset + stream.chunks[k].size])
  }

  lemma {:induction false} PartsJoin(stream: Stream, payload: Bytes, hash: Hash, n: nat)
    requires Slices(stream, payload, hash) && n <= |stream.chunks|
    requires forall k :: 0 <= k < |stream.chunks| ==>
      0 <= stream.chunks[k].offset <= stream.chunks[k].offset + stream.chunks[k].size <= |payload|
    ensures Concat(PartsOf(stream, payload)[..n])
      == if n == 0 then [] else payload[..stream.chunks[n - 1].offset + stream.chunks[n - 1].size]
    decreases n
  {
    hide Encode;
    if n > 0 {
      var parts := PartsOf(stream, payload);
      PartsJoin(stream, payload, hash, n - 1);
      assert parts[..n][..n - 1] == parts[..n - 1];
      assert SliceHere(stream, payload, n - 1, hash);
      var chunk := stream.chunks[n - 1];
      assert payload[..chunk.offset] + payload[chunk.offset..chunk.offset + chunk.size]
        == payload[..chunk.offset + chunk.size];
    }
  }

  lemma SlicedIsCarried(stream: Stream, payload: Bytes, hash: Hash) returns (parts: seq<Bytes>)
    requires Slices(stream, payload, hash)
    ensures Carries(stream, parts, hash) && Concat(parts) == payload
  {
    hide Encode, Concat;
    forall k | 0 <= k < |stream.chunks|
      ensures 0 <= stream.chunks[k].offset <= stream.chunks[k].offset + stream.chunks[k].size <= |payload|
    {
      assert SliceHere(stream, payload, k, hash);
    }
    parts := PartsOf(stream, payload);
    PartsJoin(stream, payload, hash, |parts|);
    assert parts[..|parts|] == parts && payload[..|payload|] == payload;
    forall k | 0 <= k < |parts|
      ensures ChunkCarries(stream.chunks[k], parts, k, hash)
    {
      PartsJoin(stream, payload, hash, k);
      assert SliceHere(stream, payload, k, hash);
    }
  }

  /** Transporting a payload is holding it in consecutive slices, each with its index, offset, size and digest. */
  lemma TransportMeans(stream: Stream, payload: Bytes, hash: Hash)
    ensures Transports(stream, payload, hash) <==> Slices(stream, payload, hash)
  {
    hide Carries, Slices, Concat;
    if Slices(stream, payload, hash) {
      var parts := SlicedIsCarried(stream, payload, hash);
    }
    if parts :| Carries(stream, parts, hash) && Concat(parts) == payload {
      CarriedIsSliced(stream, parts, hash);
    }
  }

  ghost predicate Decodable(stream: Stream, hash: Hash) {
    exists parts :: Carries(stream, parts, hash)
  }

  function Digests(blobs: seq<Stream>): (digests: seq<nat>)
    ensures |digests| == |blobs|
  {
    seq(|blobs|, i requires 0 <= i < |blobs| => blobs[i].digest)
  }

  ghost predicate DistinctDigests(blobs: seq<Stream>) {
    NoRepeats(Digests(blobs))
  }

  /** The blob list of a preimage: the descriptors of the streams, in digest order. */
  ghost predicate Listed(blobs: seq<Stream>, d: BlobDescriptor) {
    exists i :: 0 <= i < |blobs| && DescriptorOf(blobs[i]) == d
  }

  ghost predicate Describes(described: seq<BlobDescriptor>, blobs: seq<Stream>) {
    StrictlySorted(described) && forall d :: d in described <==> Listed(blobs, d)
  }

  /** `public_render_publication_payload_preimage`. */
  method PublicationPreimage(
    destination: string, harness: string, root: RootDescriptor, manifest: Bytes, blobs: seq<Stream>, graphDigest: nat,
    hash: Hash)
    returns (r: Result<Preimage, StreamError>)
    ensures r.Ok? <==>
      && root == RootDescriptor(destination, hash(manifest), |manifest|)
      && (forall i :: 0 <= i < |blobs| ==> Decodable(blobs[i], hash) && blobs[i].digest != root.digest)
      && DistinctDigests(blobs)
    ensures r.Ok? ==>
      && r.value == Preimage(destination, harness, root, hash(manifest), r.value.blobs, graphDigest)
      && Describes(r.value.blobs, blobs)
  {
    if root.repository != destination || root.digest != hash(manifest) || root.size != |manifest| {
      return Err(ManifestMismatch);
    }
    var descriptors: seq<BlobDescriptor> := [];
    var seen: set<nat> := {};
    ghost var digests := Digests(blobs);
    var n := 0;
    while n < |blobs|
      invariant 0 <= n <= |blobs|
      invariant forall i :: 0 <= i < n ==> Decodable(blobs[i], hash) && blobs[i].digest != root.digest
      invariant Gathers(seen, digests[..n]) && NoRepeats(digests[..n])
      invariant |descriptors| == n && forall i :: 0 <= i < n ==> descriptors[i] == DescriptorOf(blobs[i])
    {
      var payload, parts := DecodeBlobStream(blobs[n], hash);
      if payload.Err? {
        return Err(payload.error);
      }
      assert Decodable(blobs[n], hash);
      if blobs[n].digest == root.digest {
        return Err(BlobSetInvalid);
      }
      assert digests[n] == blobs[n].digest;
      ScanOneMore(seen, digests, n);
      if blobs[n].digest in seen {
        return Err(BlobSetInvalid);
      }
      assert hash(payload.value) == blobs[n].digest;
      seen := seen + {blobs[n].digest};
      descriptors := descriptors + [DescriptorOf(blobs[n])];
      n := n + 1;
    }
    assert digests[..n] == digests;
    SortedDescribes(descriptors, blobs);
    return Ok(Preimage(
      destination, harness, root, hash(manifest), SortBy(DigestBefore, descriptors), graphDigest));
  }

  lemma DigestOrder()
    ensures IsOrder(DigestBefore)
  {
  }

  /** Sorting the descriptors of streams with distinct digests gives the blob list. */
  lemma SortedDescribes(described: seq<BlobDescriptor>, blobs: seq<Stream>)
    requires |described| == |blobs| && DistinctDigests(blobs)
    requires forall i :: 0 <= i < |blobs| ==> described[i] == DescriptorOf(blobs[i])
    ensures Describes(SortBy(DigestBefore, described), blobs)
  {
    hide SortBy, IsOrder;
    var sorted := SortBy(DigestBefore, described);
    DigestOrder();
    SortIsStable(DigestBefore, described, BlobDescriptor(0, "", 0));
    PermutationOfDistinct(described, sorted);
    hide Ties;
    forall d
      ensures d in sorted <==> Listed(blobs, d)
    {
      assert d in described <==> d in sorted;
    }
    StrictByDistinctDigests(described, blobs, sorted);
  }

  lemma StrictByDistinctDigests(described: seq<BlobDescriptor>, blobs: seq<Stream>, sorted: seq<BlobDescriptor>)
    requires |described| == |blobs| && DistinctDigests(blobs)
    requires forall i :: 0 <= i < |blobs| ==> described[i] == DescriptorOf(blobs[i])
    requires Ordered(DigestBefore, sorted) && NoRepeats(sorted)
    requires forall i :: 0 <= i < |sorted| ==> sorted[i] in described
    ensures StrictlySorted(sorted)
  {
    forall i, j | 0 <= i < j < |sorted|
      ensures sorted[i].digest < sorted[j].digest
    {
      var k :| 0 <= k < |described| && described[k] == sorted[i];
      var l :| 0 <= l < |described| && described[l] == sorted[j];
      assert Digests(blobs)[k] == sorted[i].digest && Digests(blobs)[l] == sorted[j].digest;
      assert !DigestBefore(sorted[j], sorted[i]) && sorted[i] != sorted[j];
    }
  }

  lemma FirstIsMember<T>(s: seq<T>)
    requires s != []
    ensures s[0] in s
  {
  }

  lemma {:induction false} SortedIsUnique(a: seq<BlobDescriptor>, b: seq<BlobDescriptor>)
    requires StrictlySorted(a) && StrictlySorted(b) && forall d :: d in a <==> d in b
    ensures a == b
    decreases |a|
  {
    if a != [] && b != [] {
      assert a[0] in b && b[0] in a;
      assert a[0] == b[0];
      forall d
        ensures d in a[1..] <==> d in b[1..]
      {
        assert d in a <==> d == a[0] || d in a[1..];
        assert d in b <==> d == b[0] || d in b[1..];
      }
      SortedIsUnique(a[1..], b[1..]);
    } else if a != [] {
      FirstIsMember(a);
      assert false;
    } else if b != [] {
      FirstIsMember(b);
      assert false;
    }
  }

  /** The typed payloads a list of streams transports. */
  ghost predicate Holds(blobs: seq<Stream>, mediaType: string, payload: Bytes, hash: Hash) {
    exists i :: 0 <= i < |blobs| && blobs[i].mediaType == mediaType && Transports(blobs[i], payload, hash)
  }

  lemma SamePayloadsSameDescriptors(a: seq<Stream>, b: seq<Stream>, hash: Hash, i: nat)
    requires i < |a| && Decodable(a[i], hash)
    requires forall mediaType, payload :: Holds(a, mediaType, payload, hash) ==> Holds(b, mediaType, payload, hash)
    ensures exists j :: 0 <= j < |b| && DescriptorOf(b[j]) == DescriptorOf(a[i])
  {
    var parts :| Carries(a[i], parts, hash);
    var payload := Concat(parts);
    assert Transports(a[i], payload, hash);
    assert Holds(a, a[i].mediaType, payload, hash);
    var j :| 0 <= j < |b| && b[j].mediaType == a[i].mediaType && Transports(b[j], payload, hash);
  }

  /** Chunk boundaries and blob order do not reach the preimage: equal typed payloads give the same blob list. */
  lemma PreimageIgnoresTransport(
    a: seq<Stream>, b: seq<Stream>, describedA: seq<BlobDescriptor>, describedB: seq<BlobDescriptor>, hash: Hash)
    requires forall i :: 0 <= i < |a| ==> Decodable(a[i], hash)
    requires forall i :: 0 <= i < |b| ==> Decodable(b[i], hash)
    requires Describes(describedA, a) && Describes(describedB, b)
    requires forall mediaType, payload :: Holds(a, mediaType, payload, hash) <==> Holds(b, mediaType, payload, hash)
    ensures describedA == describedB
  {
    forall d
      ensures d in describedA <==> d in describedB
    {
      if d in describedA {
        var i :| 0 <= i < |a| && DescriptorOf(a[i]) == d;
        SamePayloadsSameDescriptors(a, b, hash, i);
      }
      if d in describedB {
        var i :| 0 <= i < |b| && DescriptorOf(b[i]) == d;
        SamePayloadsSameDescriptors(b, a, hash, i);
      }
    }
    SortedIsUnique(describedA, describedB);
  }

  /** Conversely, when the hash has no collisions, equal blob lists come from equal typed payloads. */
  lemma PreimageFixesPayloads(
    a: seq<Stream>, b: seq<Stream>, described: seq<BlobDescriptor>, hash: Hash, mediaType: string, payload: Bytes)
    requires forall p, q :: hash(p) == hash(q) ==> p == q
    requires forall i :: 0 <= i < |b| ==> Decodable(b[i], hash)
    requires Describes(described, a) && Describes(described, b)
    requires Holds(a, mediaType, payload, hash)
    ensures Holds(b, mediaType, payload, hash)
  {
    var i :| 0 <= i < |a| && a[i].mediaType == mediaType && Transports(a[i], payload, hash);
    assert DescriptorOf(a[i]) in described;
    var j :| 0 <= j < |b| && DescriptorOf(b[j]) == DescriptorOf(a[i]);
    var parts :| Carries(b[j], parts, hash);
    assert hash(Concat(parts)) == hash(payload);
    assert Transports(b[j], payload, hash);
  }
}
