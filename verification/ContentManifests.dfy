/**
Content manifests: the canonical one-mebibyte chunking of content, validated once by the Rust
domain crate and once by the sync Worker.
*/
module ContentManifests {
  import opened Wrappers

  const CONTENT_MANIFEST_VERSION := 1
  const CONTENT_DIGEST_HEX_BYTES := 64
  const CANONICAL_CHUNK_BYTES := 1048576
  const MAX_MANIFEST_CHUNKS := 256
  const MAX_CONTENT_BYTES := 268435456
  const MAX_CONTENT_MIME_BYTES := 128
  const MAX_SAFE_INTEGER := 9007199254740991

  newtype Byte = x: int | 0 <= x < 256
  type Bytes = seq<Byte>
  type Digest = string

  datatype ManifestKind = OperationEnvelope | Asset | Checkpoint

  datatype ChunkRef = ChunkRef(digest: Digest, byteLength: nat)

  datatype ContentManifest = ContentManifest(
    manifestVersion: nat,
    kind: ManifestKind,
    contentDigest: Digest,
    mimeType: string,
    totalByteLength: nat,
    chunks: seq<ChunkRef>)

  datatype ContentError =
    | UnsupportedManifestVersion(version: nat)
    | EmptyManifest
    | TooManyChunks
    | InvalidDigest
    | ContentTooLarge
    | NonCanonicalChunkLength(index: nat)
    | EmptyChunk(index: nat)
    | InconsistentTotalLength
    | ChunkIndexOutOfRange(index: nat)
    | ChunkLengthMismatch
    | ChunkDigestMismatch
    | ContentLengthMismatch
    | ContentDigestMismatch
    | InvalidMimeType
    | OutOfRange

  /* ---------- Field shapes ---------- */

  predicate IsLowerHex(c: char) {
    '0' <= c <= '9' || 'a' <= c <= 'f'
  }

  predicate IsContentDigest(value: string) {
    |value| == CONTENT_DIGEST_HEX_BYTES && forall i :: 0 <= i < |value| ==> IsLowerHex(value[i])
  }

  predicate IsSubtypeChar(c: char) {
    'a' <= c <= 'z' || 'A' <= c <= 'Z' || '0' <= c <= '9' || c == '-' || c == '+' || c == '.'
  }

  predicate IsSubtype(value: string) {
    value != [] && forall i :: 0 <= i < |value| ==> IsSubtypeChar(value[i])
  }

  const MIME_PREFIXES: seq<string> := ["application/", "image/", "text/", "audio/", "video/"]

  // The Rust check strips the first supported prefix that matches and falls back to "".
  function StripFirstPrefix(value: string, prefixes: seq<string>): string {
    if prefixes == [] then ""
    else if prefixes[0] <= value then value[|prefixes[0]|..]
    else StripFirstPrefix(value, prefixes[1..])
  }

  predicate IsRustMimeType(value: string) {
    |value| <= MAX_CONTENT_MIME_BYTES && IsSubtype(StripFirstPrefix(value, MIME_PREFIXES))
  }

  // The Worker check is an anchored regular expression: some supported prefix, then a subtype.
  predicate IsWorkerMimeType(value: string) {
    |value| <= 128 &&
    exists k :: 0 <= k < |MIME_PREFIXES| && MIME_PREFIXES[k] <= value && IsSubtype(value[|MIME_PREFIXES[k]|..])
  }

  lemma StripFirstPrefixFinds(value: string, prefixes: seq<string>)
    requires forall i, j :: 0 <= i < j < |prefixes| ==>
      !(prefixes[i] <= value && prefixes[j] <= value)
    ensures IsSubtype(StripFirstPrefix(value, prefixes)) <==>
            exists k :: 0 <= k < |prefixes| && prefixes[k] <= value && IsSubtype(value[|prefixes[k]|..])
  {
    if prefixes != [] {
      StripFirstPrefixFinds(value, prefixes[1..]);
      if prefixes[0] <= value {
        assert forall k :: 0 < k < |prefixes| ==> !(prefixes[k] <= value);
      } else {
        assert forall k :: 0 <= k < |prefixes| - 1 ==> prefixes[1..][k] == prefixes[k + 1];
        assert forall k :: 0 < k < |prefixes| ==> prefixes[k] == prefixes[1..][k - 1];
      }
    }
  }

  lemma MimeTypesAgree(value: string)
    ensures IsRustMimeType(value) <==> IsWorkerMimeType(value)
  {
    forall i, j | 0 <= i < j < |MIME_PREFIXES|
      ensures !(MIME_PREFIXES[i] <= value && MIME_PREFIXES[j] <= value)
    {
      assert MIME_PREFIXES[i][0] != MIME_PREFIXES[j][0] || MIME_PREFIXES[i][1] != MIME_PREFIXES[j][1];
    }
    StripFirstPrefixFinds(value, MIME_PREFIXES);
  }

  /* ---------- What a valid manifest is ---------- */

  function SumLengths(chunks: seq<ChunkRef>): nat {
    if chunks == [] then 0 else SumLengths(chunks[..|chunks| - 1]) + chunks[|chunks| - 1].byteLength
  }

  // Every chunk but the last is canonical, the last is non-empty and no longer than canonical.
  predicate CanonicalAt(chunks: seq<ChunkRef>, i: nat)
    requires i < |chunks|
  {
    IsContentDigest(chunks[i].digest) &&
    0 < chunks[i].byteLength <= CANONICAL_CHUNK_BYTES &&
    (i < |chunks| - 1 ==> chunks[i].byteLength == CANONICAL_CHUNK_BYTES)
  }

  ghost predicate ValidManifest(m: ContentManifest) {
    && m.manifestVersion == CONTENT_MANIFEST_VERSION
    && IsContentDigest(m.contentDigest)
    && IsRustMimeType(m.mimeType)
    && 1 <= |m.chunks| <= MAX_MANIFEST_CHUNKS
    && (forall i :: 0 <= i < |m.chunks| ==> CanonicalAt(m.chunks, i))
    && m.totalByteLength == SumLengths(m.chunks)
  }

  lemma SumLengthsOfPrefix(chunks: seq<ChunkRef>, i: nat)
    requires i < |chunks|
    ensures SumLengths(chunks[..i + 1]) == SumLengths(chunks[..i]) + chunks[i].byteLength
  {
    assert chunks[..i + 1][..i] == chunks[..i];
  }

  /** `chunk_offset(i)` is the sum of the lengths of the chunks before chunk `i`. */
  function ChunkOffset(index: nat): nat {
    index * CANONICAL_CHUNK_BYTES
  }

  lemma {:induction false} ChunkOffsetIsPrecedingSum(m: ContentManifest, i: nat)
    requires ValidManifest(m) && i < |m.chunks|
    ensures ChunkOffset(i) == SumLengths(m.chunks[..i])
  {
    if i > 0 {
      ChunkOffsetIsPrecedingSum(m, i - 1);
      SumLengthsOfPrefix(m.chunks, i - 1);
      assert CanonicalAt(m.chunks, i - 1);
    }
  }

  lemma ValidManifestTotal(m: ContentManifest)
    requires ValidManifest(m)
    ensures ChunkOffset(|m.chunks| - 1) < m.totalByteLength <= ChunkOffset(|m.chunks|)
    ensures m.totalByteLength == ChunkOffset(|m.chunks| - 1) + m.chunks[|m.chunks| - 1].byteLength
    ensures 0 < m.totalByteLength <= MAX_CONTENT_BYTES
  {
    var last := |m.chunks| - 1;
    ChunkOffsetIsPrecedingSum(m, last);
    assert CanonicalAt(m.chunks, last);
  }

  /* ---------- The two validators ---------- */

  /**
  The Rust validator. It accepts exactly the valid manifests, and a failed check is reported
  with the error of that check.
  */
  method Validate(m: ContentManifest) returns (r: Result<(), ContentError>)
    ensures r.Ok? <==> ValidManifest(m)
    ensures r == Err(EmptyManifest) ==> m.chunks == []
    ensures r.Err? && r.error.EmptyChunk? ==>
      r.error.index < |m.chunks| && m.chunks[r.error.index].byteLength == 0 &&
      forall j :: 0 <= j < r.error.index ==> CanonicalAt(m.chunks, j)
    ensures r.Err? && r.error.NonCanonicalChunkLength? ==>
      r.error.index < |m.chunks| && m.chunks[r.error.index].byteLength != 0 &&
      !CanonicalAt(m.chunks, r.error.index) &&
      forall j :: 0 <= j < r.error.index ==> CanonicalAt(m.chunks, j)
    ensures r == Err(InconsistentTotalLength) ==>
      (forall j :: 0 <= j < |m.chunks| ==> CanonicalAt(m.chunks, j)) && SumLengths(m.chunks) != m.totalByteLength
  {
    if m.manifestVersion != CONTENT_MANIFEST_VERSION {
      return Err(UnsupportedManifestVersion(m.manifestVersion));
    }
    if !IsContentDigest(m.contentDigest) {
      return Err(InvalidDigest);
    }
    if !IsRustMimeType(m.mimeType) {
      return Err(InvalidMimeType);
    }
    if |m.chunks| == 0 {
      return Err(EmptyManifest);
    }
    if |m.chunks| > MAX_MANIFEST_CHUNKS {
      return Err(TooManyChunks);
    }
    if m.totalByteLength > MAX_CONTENT_BYTES {
      if ValidManifest(m) { ValidManifestTotal(m); }
      return Err(ContentTooLarge);
    }
    var last := |m.chunks| - 1;
    var total := 0;
    for index := 0 to |m.chunks|
      invariant forall j :: 0 <= j < index ==> CanonicalAt(m.chunks, j)
      invariant total == SumLengths(m.chunks[..index])
    {
      var chunk := m.chunks[index];
      if !IsContentDigest(chunk.digest) {
        assert !CanonicalAt(m.chunks, index);
        return Err(InvalidDigest);
      }
      if chunk.byteLength == 0 {
        assert !CanonicalAt(m.chunks, index);
        return Err(EmptyChunk(index));
      }
      if index < last && chunk.byteLength != CANONICAL_CHUNK_BYTES {
        assert !CanonicalAt(m.chunks, index);
        return Err(NonCanonicalChunkLength(index));
      }
      if chunk.byteLength > CANONICAL_CHUNK_BYTES {
        assert !CanonicalAt(m.chunks, index);
        return Err(NonCanonicalChunkLength(index));
      }
      SumLengthsOfPrefix(m.chunks, index);
      total := total + chunk.byteLength;
    }
    assert m.chunks[..|m.chunks|] == m.chunks;
    if total != m.totalByteLength {
      return Err(InconsistentTotalLength);
    }
    return Ok(());
  }

  /** The Worker validator of the same manifest, reading lengths as safe integers. */
  method ParseContentManifest(m: ContentManifest) returns (r: Result<ContentManifest, ContentError>)
    ensures r.Ok? <==> ValidManifest(m)
    ensures r.Ok? ==> r.value == m
  {
    if m.manifestVersion != CONTENT_MANIFEST_VERSION {
      return Err(UnsupportedManifestVersion(m.manifestVersion));
    }
    if !IsContentDigest(m.contentDigest) {
      return Err(InvalidDigest);
    }
    if !IsWorkerMimeType(m.mimeType) {
      MimeTypesAgree(m.mimeType);
      return Err(InvalidMimeType);
    }
    if m.totalByteLength < 1 || m.totalByteLength > MAX_SAFE_INTEGER {
      if ValidManifest(m) { ValidManifestTotal(m); }
      return Err(OutOfRange);
    }
    if m.totalByteLength > MAX_CONTENT_BYTES {
      if ValidManifest(m) { ValidManifestTotal(m); }
      return Err(ContentTooLarge);
    }
    if |m.chunks| == 0 {
      return Err(EmptyManifest);
    }
    if |m.chunks| > MAX_MANIFEST_CHUNKS {
      return Err(TooManyChunks);
    }
    var lastIndex := |m.chunks| - 1;
    var total := 0;
    var chunks: seq<ChunkRef> := [];
    for index := 0 to |m.chunks|
      invariant forall j :: 0 <= j < index ==> CanonicalAt(m.chunks, j)
      invariant total == SumLengths(m.chunks[..index])
      invariant chunks == m.chunks[..index]
    {
      var chunk := m.chunks[index];
      if !IsContentDigest(chunk.digest) {
        assert !CanonicalAt(m.chunks, index);
        return Err(InvalidDigest);
      }
      if chunk.byteLength < 1 || chunk.byteLength > MAX_SAFE_INTEGER {
        assert !CanonicalAt(m.chunks, index);
        return Err(OutOfRange);
      }
      if chunk.byteLength > CANONICAL_CHUNK_BYTES || (index < lastIndex && chunk.byteLength != CANONICAL_CHUNK_BYTES) {
        assert !CanonicalAt(m.chunks, index);
        return Err(NonCanonicalChunkLength(index));
      }
      SumLengthsOfPrefix(m.chunks, index);
      total := total + chunk.byteLength;
      chunks := chunks + [chunk];
    }
    assert m.chunks[..|m.chunks|] == m.chunks;
    if total != m.totalByteLength {
      return Err(InconsistentTotalLength);
    }
    MimeTypesAgree(m.mimeType);
    return Ok(m.(chunks := chunks));
  }

  /** Both validators give the same verdict on every manifest. */
  method CheckBothValidators(m: ContentManifest) returns (rust: bool, worker: bool)
    ensures rust <==> ValidManifest(m)
    ensures worker <==> ValidManifest(m)
  {
    var a := Validate(m);
    var b := ParseContentManifest(m);
    return a.Ok?, b.Ok?;
  }

  /* ---------- Building and verifying ---------- */

  // `bytes.chunks(CANONICAL_CHUNK_BYTES)`: full slices, and a shorter last one when there is a rest.
  function Split(bytes: Bytes): seq<Bytes> {
    if bytes == [] then []
    else if |bytes| <= CANONICAL_CHUNK_BYTES then [bytes]
    else [bytes[..CANONICAL_CHUNK_BYTES]] + Split(bytes[CANONICAL_CHUNK_BYTES..])
  }

  function Join(parts: seq<Bytes>): Bytes {
    if parts == [] then [] else parts[0] + Join(parts[1..])
  }

  function Shorter(a: nat, b: nat): nat {
    if a < b then a else b
  }

  lemma {:induction false} JoinSplit(bytes: Bytes)
    ensures Join(Split(bytes)) == bytes
  {
    if |bytes| > CANONICAL_CHUNK_BYTES {
      var rest := bytes[CANONICAL_CHUNK_BYTES..];
      JoinSplit(rest);
      assert Split(bytes)[1..] == Split(rest);
      assert bytes == bytes[..CANONICAL_CHUNK_BYTES] + rest;
    } else if bytes != [] {
      assert Split(bytes)[1..] == [];
      assert Join([]) == [];
      assert bytes + [] == bytes;
    }
  }

  /** Slice `i` starts at `ChunkOffset(i)`; every slice but the last is canonical. */
  lemma {:induction false} SplitAt(bytes: Bytes, i: nat)
    requires i < |Split(bytes)|
    ensures ChunkOffset(i) < |bytes|
    ensures Split(bytes)[i] == bytes[ChunkOffset(i)..Shorter(ChunkOffset(i + 1), |bytes|)]
    ensures (i == |Split(bytes)| - 1) <==> |bytes| <= ChunkOffset(i + 1)
    ensures (|Split(bytes)| - 1) * CANONICAL_CHUNK_BYTES < |bytes| <= |Split(bytes)| * CANONICAL_CHUNK_BYTES
  {
    if |bytes| > CANONICAL_CHUNK_BYTES {
      var rest := bytes[CANONICAL_CHUNK_BYTES..];
      SplitAt(rest, if i == 0 then 0 else i - 1);
      if i > 0 {
        var lo, hi := ChunkOffset(i - 1), Shorter(ChunkOffset(i), |rest|);
        assert rest[lo..hi] == bytes[lo + CANONICAL_CHUNK_BYTES..hi + CANONICAL_CHUNK_BYTES];
      }
    }
  }

  lemma SplitLength(bytes: Bytes, i: nat)
    requires i < |Split(bytes)|
    ensures 0 < |Split(bytes)[i]| <= CANONICAL_CHUNK_BYTES
    ensures i < |Split(bytes)| - 1 ==> |Split(bytes)[i]| == CANONICAL_CHUNK_BYTES
  {
    SplitAt(bytes, i);
  }

  type Hash = Bytes -> Digest

  // SHA-256 in lowercase hexadecimal always has the shape of a content digest.
  ghost predicate HexHash(hash: Hash) {
    forall b: Bytes :: IsContentDigest(hash(b))
  }

  function ChunkRefs(hash: Hash, parts: seq<Bytes>): (refs: seq<ChunkRef>)
    ensures |refs| == |parts|
    ensures forall i :: 0 <= i < |parts| ==> refs[i] == ChunkRef(hash(parts[i]), |parts[i]|)
  {
    if parts == [] then [] else [ChunkRef(hash(parts[0]), |parts[0]|)] + ChunkRefs(hash, parts[1..])
  }

  function ManifestOf(hash: Hash, kind: ManifestKind, mimeType: string, bytes: Bytes): ContentManifest {
    ContentManifest(CONTENT_MANIFEST_VERSION, kind, hash(bytes), mimeType, |bytes|, ChunkRefs(hash, Split(bytes)))
  }

  lemma SplitCount(bytes: Bytes)
    requires bytes != []
    ensures |Split(bytes)| > 0
    ensures ChunkOffset(|Split(bytes)| - 1) < |bytes| <= ChunkOffset(|Split(bytes)|)
  {
    SplitAt(bytes, 0);
  }

  lemma {:induction false} PrefixTotal(hash: Hash, bytes: Bytes, i: nat)
    requires bytes != [] && i <= |Split(bytes)|
    ensures SumLengths(ChunkRefs(hash, Split(bytes))[..i]) == Shorter(ChunkOffset(i), |bytes|)
  {
    var refs := ChunkRefs(hash, Split(bytes));
    if i > 0 {
      PrefixTotal(hash, bytes, i - 1);
      SumLengthsOfPrefix(refs, i - 1);
      SplitAt(bytes, i - 1);
    }
  }

  lemma BuiltChunksAreCanonical(hash: Hash, bytes: Bytes, i: nat)
    requires i < |Split(bytes)| && IsContentDigest(hash(Split(bytes)[i]))
    ensures CanonicalAt(ChunkRefs(hash, Split(bytes)), i)
  {
    SplitLength(bytes, i);
  }

  lemma BuiltTotal(hash: Hash, bytes: Bytes)
    requires 0 < |bytes| <= MAX_CONTENT_BYTES
    ensures 1 <= |Split(bytes)| <= MAX_MANIFEST_CHUNKS
    ensures SumLengths(ChunkRefs(hash, Split(bytes))) == |bytes|
  {
    SplitCount(bytes);
    PrefixTotal(hash, bytes, |Split(bytes)|);
    WholePrefix(ChunkRefs(hash, Split(bytes)));
  }

  lemma WholePrefix(refs: seq<ChunkRef>)
    ensures refs[..|refs|] == refs
  {
  }

  lemma BuiltManifestIsValid(hash: Hash, kind: ManifestKind, mimeType: string, bytes: Bytes)
    requires HexHash(hash) && IsRustMimeType(mimeType)
    requires 0 < |bytes| <= MAX_CONTENT_BYTES
    ensures ValidManifest(ManifestOf(hash, kind, mimeType, bytes))
  {
    BuiltTotal(hash, bytes);
    forall i | 0 <= i < |Split(bytes)| ensures CanonicalAt(ChunkRefs(hash, Split(bytes)), i) {
      BuiltChunksAreCanonical(hash, bytes, i);
    }
  }

  /** `build`: never rejects content within the limits for a reason found by its own validation. */
  method Build(hash: Hash, kind: ManifestKind, mimeType: string, bytes: Bytes)
    returns (r: Result<ContentManifest, ContentError>)
    requires HexHash(hash)
    ensures r.Ok? <==> IsRustMimeType(mimeType) && 0 < |bytes| <= MAX_CONTENT_BYTES
    ensures r.Ok? ==> ValidManifest(r.value) && r.value == ManifestOf(hash, kind, mimeType, bytes)
  {
    if !IsRustMimeType(mimeType) {
      return Err(InvalidMimeType);
    }
    if bytes == [] {
      return Err(EmptyManifest);
    }
    if |bytes| > MAX_CONTENT_BYTES {
      return Err(ContentTooLarge);
    }
    var manifest := ManifestOf(hash, kind, mimeType, bytes);
    BuiltManifestIsValid(hash, kind, mimeType, bytes);
    var checked := Validate(manifest);
    return Ok(manifest);
  }

  /**
  A manifest is valid exactly when its fields have their shapes and its chunks have the lengths of the
  slices of some content of the declared length, however that content reads.
  */
  lemma ValidIffSlicesOfContent(m: ContentManifest, bytes: Bytes)
    requires |bytes| == m.totalByteLength
    ensures ValidManifest(m) <==>
      && m.manifestVersion == 1 && IsContentDigest(m.contentDigest) && IsRustMimeType(m.mimeType)
      && 0 < |bytes| <= MAX_CONTENT_BYTES && |Split(bytes)| == |m.chunks|
      && forall i :: 0 <= i < |m.chunks| ==>
           IsContentDigest(m.chunks[i].digest) && m.chunks[i].byteLength == |Split(bytes)[i]|
  {
    if ValidManifest(m) {
      ValidManifestTotal(m);
      SplitVisitsEveryChunk(m, bytes);
      forall i | 0 <= i < |m.chunks|
        ensures IsContentDigest(m.chunks[i].digest) && m.chunks[i].byteLength == |Split(bytes)[i]|
      {
        assert CanonicalAt(m.chunks, i);
      }
    }
    if 0 < |bytes| <= MAX_CONTENT_BYTES && |Split(bytes)| == |m.chunks| &&
       forall i :: 0 <= i < |m.chunks| ==> IsContentDigest(m.chunks[i].digest) && m.chunks[i].byteLength == |Split(bytes)[i]|
    {
      SliceLengthsAddUp(m.chunks, bytes);
      forall i | 0 <= i < |m.chunks| ensures CanonicalAt(m.chunks, i) {
        SplitLength(bytes, i);
      }
    }
  }

  lemma SliceLengthsAddUp(chunks: seq<ChunkRef>, bytes: Bytes)
    requires 0 < |bytes| <= MAX_CONTENT_BYTES && |Split(bytes)| == |chunks|
    requires forall i :: 0 <= i < |chunks| ==> chunks[i].byteLength == |Split(bytes)[i]|
    ensures SumLengths(chunks) == |bytes| && 1 <= |chunks| <= MAX_MANIFEST_CHUNKS
  {
    BuiltTotal(b => "", bytes);
    SameLengthsSameSum(chunks, ChunkRefs(b => "", Split(bytes)));
  }

  lemma {:induction false} SameLengthsSameSum(a: seq<ChunkRef>, b: seq<ChunkRef>)
    requires |a| == |b| && forall i :: 0 <= i < |a| ==> a[i].byteLength == b[i].byteLength
    ensures SumLengths(a) == SumLengths(b)
  {
    if a != [] { SameLengthsSameSum(a[..|a| - 1], b[..|b| - 1]); }
  }

  function VerifyChunk(hash: Hash, m: ContentManifest, index: nat, bytes: Bytes): Result<(), ContentError> {
    if index >= |m.chunks| then Err(ChunkIndexOutOfRange(index))
    else if |bytes| != m.chunks[index].byteLength then Err(ChunkLengthMismatch)
    else if hash(bytes) != m.chunks[index].digest then Err(ChunkDigestMismatch)
    else Ok(())
  }

  // The bytes a manifest describes: right length, right digest, and every chunk at its own offset.
  ghost predicate Describes(hash: Hash, m: ContentManifest, bytes: Bytes) {
    && |bytes| == m.totalByteLength
    && hash(bytes) == m.contentDigest
    && forall i :: 0 <= i < |m.chunks| ==>
         ChunkOffset(i) + m.chunks[i].byteLength <= |bytes| &&
         hash(bytes[ChunkOffset(i)..][..m.chunks[i].byteLength]) == m.chunks[i].digest
  }

  /** Splitting bytes of the declared length visits exactly the manifest's chunks. */
  lemma SplitVisitsEveryChunk(m: ContentManifest, bytes: Bytes)
    requires ValidManifest(m) && |bytes| == m.totalByteLength
    ensures |Split(bytes)| == |m.chunks|
    ensures forall i :: 0 <= i < |m.chunks| ==>
      ChunkOffset(i) + m.chunks[i].byteLength <= |bytes| &&
      Split(bytes)[i] == bytes[ChunkOffset(i)..][..m.chunks[i].byteLength]
  {
    ValidManifestTotal(m);
    SplitCount(bytes);
    forall i | 0 <= i < |m.chunks|
      ensures ChunkOffset(i) + m.chunks[i].byteLength <= |bytes|
      ensures Split(bytes)[i] == bytes[ChunkOffset(i)..][..m.chunks[i].byteLength]
    {
      SplitAt(bytes, i);
      assert CanonicalAt(m.chunks, i);
    }
  }

  /** `verify_assembled` accepts exactly the bytes a valid manifest describes, chunk by chunk. */
  method VerifyAssembled(hash: Hash, m: ContentManifest, bytes: Bytes) returns (r: Result<(), ContentError>)
    ensures r.Ok? <==> ValidManifest(m) && Describes(hash, m, bytes)
  {
    var validated := Validate(m);
    if validated.Err? {
      return validated;
    }
    if |bytes| != m.totalByteLength {
      return Err(ContentLengthMismatch);
    }
    var parts := Split(bytes);
    SplitVisitsEveryChunk(m, bytes);
    for index := 0 to |parts|
      invariant forall j :: 0 <= j < index ==> hash(parts[j]) == m.chunks[j].digest
    {
      var chunk := VerifyChunk(hash, m, index, parts[index]);
      if chunk.Err? {
        return chunk;
      }
    }
    if hash(bytes) != m.contentDigest {
      return Err(ContentDigestMismatch);
    }
    return Ok(());
  }

  // Two different contents that agree in digest, and in the digest of some pair of different chunks.
  ghost predicate Collide(hash: Hash, a: Bytes, b: Bytes) {
    && a != b && hash(a) == hash(b) && |Split(a)| == |Split(b)|
    && exists i :: 0 <= i < |Split(a)| && Split(a)[i] != Split(b)[i] && hash(Split(a)[i]) == hash(Split(b)[i])
  }

  /** The chunk checks pin every byte: two contents one manifest describes are equal, or they collide. */
  lemma DescribedTwiceCollide(hash: Hash, m: ContentManifest, a: Bytes, b: Bytes)
    requires ValidManifest(m) && Describes(hash, m, a) && Describes(hash, m, b)
    ensures a == b || Collide(hash, a, b)
  {
    SplitVisitsEveryChunk(m, a);
    SplitVisitsEveryChunk(m, b);
    if forall i :: 0 <= i < |Split(a)| ==> Split(a)[i] == Split(b)[i] {
      assert Split(a) == Split(b);
      JoinSplit(a);
      JoinSplit(b);
    }
  }

  /** A built manifest describes its own bytes; different bytes it describes collide with them. */
  lemma BuiltManifestDescribesItsBytes(
    hash: Hash, kind: ManifestKind, mimeType: string, bytes: Bytes, other: Bytes)
    requires HexHash(hash) && IsRustMimeType(mimeType)
    requires 0 < |bytes| <= MAX_CONTENT_BYTES
    ensures Describes(hash, ManifestOf(hash, kind, mimeType, bytes), bytes)
    ensures Describes(hash, ManifestOf(hash, kind, mimeType, bytes), other) ==> other == bytes || Collide(hash, other, bytes)
  {
    var m := ManifestOf(hash, kind, mimeType, bytes);
    BuiltManifestIsValid(hash, kind, mimeType, bytes);
    SplitVisitsEveryChunk(m, bytes);
    if Describes(hash, m, other) { DescribedTwiceCollide(hash, m, other, bytes); }
  }
}
