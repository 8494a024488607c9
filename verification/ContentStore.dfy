/**
The bucket side of content: workspace-scoped keys, chunks stored only under the digest of their
bytes, and a paged listing that finds every chunk of one workspace and no other object.
*/
module ContentStore {
  import opened Wrappers
  import opened ContentManifests

  datatype ContentFault = ChunkEmpty | ChunkTooLarge | ChunkDigestMismatch | ChunkNotFound

  datatype StoredChunkListing = StoredChunkListing(digest: Digest, byteLength: nat)

  type WorkspaceId = string
  type Objects = map<string, Bytes>

  function ChunkPrefix(workspace: WorkspaceId): string {
    "workspaces/" + workspace + "/chunks/"
  }

  function ChunkKey(workspace: WorkspaceId, digest: Digest): string {
    ChunkPrefix(workspace) + digest
  }

  /** No two workspaces share a chunk key, whatever characters their ids contain. */
  lemma ChunkKeysAreDistinct(v: WorkspaceId, d: Digest, w: WorkspaceId, e: Digest)
    requires IsContentDigest(d) && IsContentDigest(e)
    ensures ChunkKey(v, d) == ChunkKey(w, e) <==> v == w && d == e
  {
    if ChunkKey(v, d) == ChunkKey(w, e) {
      var key := ChunkKey(v, d);
      assert |key| == |v| + 19 + 64 && |key| == |w| + 19 + 64;
      assert v == key[11..11 + |v|] && w == key[11..11 + |v|];
      assert d == key[|v| + 19..] && e == key[|v| + 19..];
    }
  }

  /* ---------- One chunk ---------- */

  // Every chunk is within the size limits and has the digest its key names.
  ghost predicate ContentAddressed(hash: Hash, objects: Objects) {
    forall w: WorkspaceId, d: Digest :: IsContentDigest(d) && ChunkKey(w, d) in objects ==>
      0 < |objects[ChunkKey(w, d)]| <= CANONICAL_CHUNK_BYTES && hash(objects[ChunkKey(w, d)]) == d
  }

  function PutTx(hash: Hash, objects: Objects, w: WorkspaceId, d: Digest, bytes: Bytes)
    : (r: (Objects, Result<bool, ContentFault>))
  {
    var key := ChunkKey(w, d);
    if bytes == [] then (objects, Err(ChunkEmpty))
    else if |bytes| > CANONICAL_CHUNK_BYTES then (objects, Err(ChunkTooLarge))
    else if hash(bytes) != d then (objects, Err(ContentFault.ChunkDigestMismatch))
    else if key in objects then (objects, Ok(false))
    else (objects[key := bytes], Ok(true))
  }

  function GetTx(hash: Hash, objects: Objects, w: WorkspaceId, d: Digest): Result<Bytes, ContentFault> {
    var key := ChunkKey(w, d);
    if key !in objects then Err(ChunkNotFound)
    else if hash(objects[key]) != d then Err(ContentFault.ChunkDigestMismatch)
    else Ok(objects[key])
  }

  /** A put, accepted or not, never leaves a chunk whose bytes are not what its key says. */
  lemma PutKeepsContentAddressed(hash: Hash, objects: Objects, w: WorkspaceId, d: Digest, bytes: Bytes)
    requires HexHash(hash) && ContentAddressed(hash, objects)
    ensures ContentAddressed(hash, PutTx(hash, objects, w, d, bytes).0)
  {
    var next := PutTx(hash, objects, w, d, bytes).0;
    forall v: WorkspaceId, e: Digest | IsContentDigest(e) && ChunkKey(v, e) in next
      ensures 0 < |next[ChunkKey(v, e)]| <= CANONICAL_CHUNK_BYTES && hash(next[ChunkKey(v, e)]) == e
    {
      if next != objects {
        assert IsContentDigest(hash(bytes));
        ChunkKeysAreDistinct(w, d, v, e);
      }
    }
  }

  /** A put changes what is read of no other digest and of no other workspace. */
  lemma PutTouchesOneChunk(
    hash: Hash, objects: Objects, w: WorkspaceId, d: Digest, bytes: Bytes, v: WorkspaceId, e: Digest)
    requires HexHash(hash) && IsContentDigest(e) && (v != w || e != d)
    ensures GetTx(hash, PutTx(hash, objects, w, d, bytes).0, v, e) == GetTx(hash, objects, v, e)
  {
    if hash(bytes) == d {
      assert IsContentDigest(hash(bytes));
      ChunkKeysAreDistinct(w, d, v, e);
    }
  }

  /**
  A put is accepted exactly for one to a full chunk of bytes under their own digest, and is otherwise
  refused for the first of these it misses. A stored chunk reads back as the bytes that were put, or as
  bytes colliding with them; a read never reports a mismatch; putting again changes nothing.
  */
  lemma PutThenGet(hash: Hash, objects: Objects, w: WorkspaceId, d: Digest, bytes: Bytes)
    requires HexHash(hash) && ContentAddressed(hash, objects)
    ensures PutTx(hash, objects, w, d, bytes).1.Ok? <==> 0 < |bytes| <= 1048576 && hash(bytes) == d
    ensures PutTx(hash, objects, w, d, bytes).1 == Err(ChunkEmpty) <==> bytes == []
    ensures PutTx(hash, objects, w, d, bytes).1 == Err(ChunkTooLarge) <==> |bytes| > 1048576
    ensures var (next, outcome) := PutTx(hash, objects, w, d, bytes);
      && (outcome.Ok? ==>
            GetTx(hash, next, w, d).Ok? && hash(GetTx(hash, next, w, d).value) == hash(bytes) == d &&
            PutTx(hash, next, w, d, bytes) == (next, Ok(false)))
      && (outcome == Ok(true) ==> GetTx(hash, next, w, d) == Ok(bytes))
      && (outcome.Err? ==> next == objects)
      && (IsContentDigest(d) ==> GetTx(hash, next, w, d) != Err(ContentFault.ChunkDigestMismatch))
  {
    PutKeepsContentAddressed(hash, objects, w, d, bytes);
    if hash(bytes) == d { assert IsContentDigest(hash(bytes)); }
  }

  function KeysOf(w: WorkspaceId, digests: seq<Digest>): set<string> {
    set d | d in digests :: ChunkKey(w, d)
  }

  function DeleteTx(objects: Objects, w: WorkspaceId, digests: seq<Digest>): Objects {
    objects - KeysOf(w, digests)
  }

  /**
  A chunk survives a deletion exactly when it was not named, or belongs to another workspace; what
  is read of the survivors stays the same, and the store stays content-addressed.
  */
  lemma DeleteRemovesOnlyItsChunks(
    hash: Hash, objects: Objects, w: WorkspaceId, digests: seq<Digest>, v: WorkspaceId, e: Digest)
    requires IsContentDigest(e) && forall d :: d in digests ==> IsContentDigest(d)
    ensures var next := DeleteTx(objects, w, digests);
      && (ChunkKey(v, e) in next <==> ChunkKey(v, e) in objects && !(v == w && e in digests))
      && GetTx(hash, next, v, e) == (if v == w && e in digests then Err(ChunkNotFound) else GetTx(hash, objects, v, e))
      && (ContentAddressed(hash, objects) ==> ContentAddressed(hash, next))
  {
    forall d | d in digests ensures ChunkKey(w, d) == ChunkKey(v, e) <==> w == v && d == e {
      ChunkKeysAreDistinct(w, d, v, e);
    }
  }

  /** A put chunk that is deleted is gone, and putting it again brings it back. */
  lemma PutDeletePut(hash: Hash, objects: Objects, w: WorkspaceId, d: Digest, bytes: Bytes)
    requires HexHash(hash) && PutTx(hash, objects, w, d, bytes).1.Ok?
    ensures var gone := DeleteTx(PutTx(hash, objects, w, d, bytes).0, w, [d]);
      && GetTx(hash, gone, w, d) == Err(ChunkNotFound)
      && PutTx(hash, gone, w, d, bytes).1 == Ok(true)
      && GetTx(hash, PutTx(hash, gone, w, d, bytes).0, w, d) == Ok(bytes)
  {
    assert d in [d];
    assert ChunkKey(w, d) in KeysOf(w, [d]);
  }

  /* ---------- A whole upload ---------- */

  // Uploading parts one after the other, each under its own digest.
  function PutAll(hash: Hash, objects: Objects, w: WorkspaceId, parts: seq<Bytes>): Objects {
    if parts == [] then objects
    else PutTx(hash, PutAll(hash, objects, w, parts[..|parts| - 1]), w, hash(parts[|parts| - 1]), parts[|parts| - 1]).0
  }

  // The manifest names the digest.
  predicate Wants(chunks: seq<ChunkRef>, d: Digest): (wanted: bool)
    ensures wanted <==> exists i :: 0 <= i < |chunks| && chunks[i].digest == d
  {
    chunks != [] && (Wants(chunks[..|chunks| - 1], d) || chunks[|chunks| - 1].digest == d)
  }

  // What a reader assembles: the chunks of a manifest, fetched in order and joined.
  function Fetched(hash: Hash, objects: Objects, w: WorkspaceId, chunks: seq<ChunkRef>): Result<seq<Bytes>, ContentFault> {
    if chunks == [] then Ok([])
    else
      var last := |chunks| - 1;
      match Fetched(hash, objects, w, chunks[..last])
      case Err(fault) => Err(fault)
      case Ok(before) =>
        match GetTx(hash, objects, w, chunks[last].digest)
        case Err(fault) => Err(fault)
        case Ok(bytes) => Ok(before + [bytes])
  }

  lemma {:induction false} PutAllStores(hash: Hash, objects: Objects, w: WorkspaceId, parts: seq<Bytes>, i: nat)
    requires HexHash(hash) && ContentAddressed(hash, objects) && i < |parts|
    requires forall k :: 0 <= k < |parts| ==> 0 < |parts[k]| <= CANONICAL_CHUNK_BYTES
    ensures ContentAddressed(hash, PutAll(hash, objects, w, parts))
    ensures ChunkKey(w, hash(parts[i])) in PutAll(hash, objects, w, parts)
  {
    var last := |parts| - 1;
    var before := PutAll(hash, objects, w, parts[..last]);
    if last > 0 {
      PutAllStores(hash, objects, w, parts[..last], if i < last then i else 0);
    }
    PutKeepsContentAddressed(hash, before, w, hash(parts[last]), parts[last]);
  }

  lemma {:induction false} StoredIsFetched(hash: Hash, objects: Objects, w: WorkspaceId, chunks: seq<ChunkRef>)
    requires ContentAddressed(hash, objects)
    requires forall i :: 0 <= i < |chunks| ==> IsContentDigest(chunks[i].digest) && ChunkKey(w, chunks[i].digest) in objects
    ensures Fetched(hash, objects, w, chunks).Ok?
    ensures |Fetched(hash, objects, w, chunks).value| == |chunks|
    ensures forall i :: 0 <= i < |chunks| ==> hash(Fetched(hash, objects, w, chunks).value[i]) == chunks[i].digest
  {
    if chunks != [] {
      StoredIsFetched(hash, objects, w, chunks[..|chunks| - 1]);
    }
  }

  /**
  End to end: once the parts of some content are uploaded, nothing of its manifest is missing, and
  the chunks fetched back join to the content, unless one of them collides with the part it stands for.
  */
  lemma UploadedContentIsFetched(
    hash: Hash, objects: Objects, w: WorkspaceId, kind: ManifestKind, mimeType: string, bytes: Bytes)
    requires HexHash(hash) && ContentAddressed(hash, objects)
    ensures var m := ManifestOf(hash, kind, mimeType, bytes);
            var next := PutAll(hash, objects, w, Split(bytes));
            var fetched := Fetched(hash, next, w, m.chunks);
      && (forall i :: 0 <= i < |m.chunks| ==> ChunkKey(w, m.chunks[i].digest) in next)
      && fetched.Ok? && |fetched.value| == |Split(bytes)|
      && (forall i :: 0 <= i < |Split(bytes)| ==> hash(fetched.value[i]) == hash(Split(bytes)[i]))
      && (Join(fetched.value) == bytes || exists i :: 0 <= i < |Split(bytes)| && fetched.value[i] != Split(bytes)[i])
  {
    var m := ManifestOf(hash, kind, mimeType, bytes);
    var parts := Split(bytes);
    var next := PutAll(hash, objects, w, parts);
    if parts == [] {
      assert next == objects;
    }
    forall i | 0 <= i < |parts|
      ensures 0 < |parts[i]| <= CANONICAL_CHUNK_BYTES && IsContentDigest(hash(parts[i]))
    {
      SplitLength(bytes, i);
    }
    forall i | 0 <= i < |parts| ensures ContentAddressed(hash, next) && ChunkKey(w, m.chunks[i].digest) in next {
      PutAllStores(hash, objects, w, parts, i);
    }
    StoredIsFetched(hash, next, w, m.chunks);
    JoinSplit(bytes);
    var fetched := Fetched(hash, next, w, m.chunks).value;
    if forall i :: 0 <= i < |parts| ==> fetched[i] == parts[i] {
      assert fetched == parts;
    }
  }

  /* ---------- Listing ---------- */

  predicate AllUnder(objects: Objects, prefix: string, keys: seq<string>) {
    forall i :: 0 <= i < |keys| ==> keys[i] in objects && prefix <= keys[i]
  }

  // The keys the bucket lists under a prefix, in its order.
  ghost predicate Lists(objects: Objects, prefix: string, keys: seq<string>) {
    && AllUnder(objects, prefix, keys)
    && (forall k :: k in objects && prefix <= k ==> k in keys)
    && (forall i, j :: 0 <= i < j < |keys| ==> keys[i] != keys[j])
  }

  // The first `n` listed keys, without the ones whose rest has not the shape of a digest.
  function Listed(objects: Objects, prefix: string, keys: seq<string>, n: nat): (listing: seq<StoredChunkListing>)
    requires AllUnder(objects, prefix, keys) && n <= |keys|
  {
    if n == 0 then []
    else
      var digest := keys[n - 1][|prefix|..];
      Listed(objects, prefix, keys, n - 1) +
      if IsContentDigest(digest) then [StoredChunkListing(digest, |objects[keys[n - 1]]|)] else []
  }

  // Every chunk of the workspace once, with its length, and nothing else.
  ghost predicate IsChunkListing(objects: Objects, w: WorkspaceId, listing: seq<StoredChunkListing>) {
    && (forall d :: IsContentDigest(d) && ChunkKey(w, d) in objects ==>
          StoredChunkListing(d, |objects[ChunkKey(w, d)]|) in listing)
    && (forall e :: e in listing ==> IsContentDigest(e.digest) && ChunkKey(w, e.digest) in objects &&
                                     e.byteLength == |objects[ChunkKey(w, e.digest)]|)
    && (forall i, j :: 0 <= i < j < |listing| ==> listing[i].digest != listing[j].digest)
  }

  lemma {:induction false} ListedIff(objects: Objects, prefix: string, keys: seq<string>, n: nat, e: StoredChunkListing)
    requires AllUnder(objects, prefix, keys) && n <= |keys|
    ensures e in Listed(objects, prefix, keys, n) <==>
            IsContentDigest(e.digest) && prefix + e.digest in keys[..n] && e.byteLength == |objects[prefix + e.digest]|
  {
    if n > 0 {
      var last := keys[n - 1];
      ListedIff(objects, prefix, keys, n - 1, e);
      assert keys[..n] == keys[..n - 1] + [last];
      assert last == prefix + last[|prefix|..];
      assert (prefix + e.digest)[|prefix|..] == e.digest;
    }
  }

  lemma {:induction false} ListedAreDistinct(objects: Objects, prefix: string, keys: seq<string>, n: nat, i: nat, j: nat)
    requires AllUnder(objects, prefix, keys) && n <= |keys|
    requires forall m, n :: 0 <= m < n < |keys| ==> keys[m] != keys[n]
    requires i < j < |Listed(objects, prefix, keys, n)|
    ensures Listed(objects, prefix, keys, n)[i].digest != Listed(objects, prefix, keys, n)[j].digest
  {
    var last := keys[n - 1];
    var listing := Listed(objects, prefix, keys, n - 1);
    if j < |listing| {
      ListedAreDistinct(objects, prefix, keys, n - 1, i, j);
    } else {
      ListedIff(objects, prefix, keys, n - 1, listing[i]);
      assert prefix + last[|prefix|..] == last;
    }
  }

  /**
  A listing under one workspace's prefix names every chunk of the workspace exactly once, and
  nothing else, however keys of other workspaces or foreign objects look.
  */
  lemma ListingIsExact(objects: Objects, w: WorkspaceId, keys: seq<string>)
    requires Lists(objects, ChunkPrefix(w), keys)
    ensures IsChunkListing(objects, w, Listed(objects, ChunkPrefix(w), keys, |keys|))
  {
    var prefix := ChunkPrefix(w);
    var listing := Listed(objects, prefix, keys, |keys|);
    hide IsContentDigest, ChunkPrefix;
    forall e: StoredChunkListing
      ensures e in listing <==> IsContentDigest(e.digest) && ChunkKey(w, e.digest) in objects &&
                                e.byteLength == |objects[ChunkKey(w, e.digest)]|
    {
      ListedIff(objects, prefix, keys, |keys|, e);
      assert keys[..|keys|] == keys;
      assert prefix <= ChunkKey(w, e.digest);
    }
    forall i, j | 0 <= i < j < |listing| ensures listing[i].digest != listing[j].digest {
      ListedAreDistinct(objects, prefix, keys, |keys|, i, j);
    }
  }

  /* ---------- The store ---------- */

  class WorkspaceContentStore {
    const hash: Hash
    var objects: Objects

    constructor (hash: Hash)
      ensures this.hash == hash && objects == map[] && ContentAddressed(hash, objects)
    {
      this.hash := hash;
      objects := map[];
    }

    method PutChunk(w: WorkspaceId, digest: Digest, bytes: Bytes) returns (r: Result<bool, ContentFault>)
      modifies this
      ensures (objects, r) == PutTx(hash, old(objects), w, digest, bytes)
    {
      if |bytes| == 0 {
        return Err(ChunkEmpty);
      }
      if |bytes| > CANONICAL_CHUNK_BYTES {
        return Err(ChunkTooLarge);
      }
      if hash(bytes) != digest {
        return Err(ContentFault.ChunkDigestMismatch);
      }
      var key := ChunkKey(w, digest);
      if key in objects {
        return Ok(false);
      }
      objects := objects[key := bytes];
      return Ok(true);
    }

    method GetChunk(w: WorkspaceId, digest: Digest) returns (r: Result<Bytes, ContentFault>)
      ensures r == GetTx(hash, objects, w, digest)
    {
      var key := ChunkKey(w, digest);
      if key !in objects {
        return Err(ChunkNotFound);
      }
      var bytes := objects[key];
      if hash(bytes) != digest {
        return Err(ContentFault.ChunkDigestMismatch);
      }
      return Ok(bytes);
    }

    /** The digests of a manifest that are not stored, each once. */
    method MissingChunks(w: WorkspaceId, m: ContentManifest) returns (missing: seq<Digest>)
      ensures forall d :: d in missing <==> Wants(m.chunks, d) && ChunkKey(w, d) !in objects
      ensures forall i, j :: 0 <= i < j < |missing| ==> missing[i] != missing[j]
    {
      missing := [];
      for i := 0 to |m.chunks|
        invariant forall d :: d in missing <==> Wants(m.chunks[..i], d) && ChunkKey(w, d) !in objects
        invariant forall a, b :: 0 <= a < b < |missing| ==> missing[a] != missing[b]
      {
        var digest := m.chunks[i].digest;
        assert m.chunks[..i + 1][..i] == m.chunks[..i];
        if digest !in missing && ChunkKey(w, digest) !in objects {
          missing := missing + [digest];
        }
      }
      assert m.chunks[..|m.chunks|] == m.chunks;
    }

    /** Deleting removes exactly the named chunks, and no chunk of any other workspace. */
    method DeleteChunks(w: WorkspaceId, digests: seq<Digest>)
      modifies this
      ensures objects == DeleteTx(old(objects), w, digests)
    {
      if |digests| == 0 {
        assert KeysOf(w, digests) == {};
        return;
      }
      objects := objects - KeysOf(w, digests);
    }

    /** The paging loop over the bucket's listing, `limit` keys a page. */
    method ListChunks(w: WorkspaceId, keys: seq<string>, limit: nat) returns (listing: seq<StoredChunkListing>)
      requires limit > 0 && Lists(objects, ChunkPrefix(w), keys)
      ensures IsChunkListing(objects, w, listing)
    {
      var prefix := ChunkPrefix(w);
      ListingIsExact(objects, w, keys);
      hide IsContentDigest, IsChunkListing, ChunkPrefix, Lists;
      listing := [];
      var cursor := 0;
      while true
        invariant cursor <= |keys| && listing == Listed(objects, prefix, keys, cursor)
        decreases |keys| - cursor
      {
        var end := Shorter(cursor + limit, |keys|);
        for i := cursor to end
          invariant listing == Listed(objects, prefix, keys, i)
        {
          var digest := keys[i][|prefix|..];
          if IsContentDigest(digest) {
            listing := listing + [StoredChunkListing(digest, |objects[keys[i]]|)];
          }
        }
        if end == |keys| {
          break;
        }
        cursor := end;
      }
    }
  }
}
