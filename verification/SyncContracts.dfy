/**
The sync wire contract: operations, payloads, checkpoints, and the batch checks a push request
has to pass before it reaches a workspace.
*/
module SyncContracts {
  import opened Wrappers
  import opened ContentManifests

  const MAX_RETAINED_CHECKPOINTS := 2
  const MAX_SYNC_BATCH_OPERATIONS := 64
  const MAX_SYNC_PULL_OPERATIONS := 256
  const MAX_SYNC_BATCH_BYTES := 8388608
  const MAX_SYNC_PULL_PAGE_BYTES := 3145728
  const UNREFERENCED_CHUNK_GRACE_SECONDS := 86400

  type DeviceId = string
  type OperationId = string
  type KeyId = string

  datatype SealedContent =
    | SealedInline(scheme: string, keyId: KeyId, nonce: string, ciphertext: string)
    | SealedChunked(scheme: string, keyId: KeyId, nonce: string, manifest: ContentManifest)

  // Absent assets are the empty sequence: the parser refuses an empty asset array.
  datatype Payload =
    | InlinePayload(envelopeJson: string, assets: seq<ContentManifest>)
    | ChunkedPayload(manifest: ContentManifest)
    | SealedPayload(operation: SealedContent, sealedAssets: seq<SealedContent>)

  datatype ClientOperation = ClientOperation(
    operationId: OperationId,
    clientSequence: nat,
    baseServerSequence: nat,
    payload: Payload)

  datatype Seal = Seal(scheme: string, keyIds: seq<KeyId>)

  datatype CheckpointSeal = CheckpointSeal(scheme: string, keyId: KeyId, nonce: string)

  datatype CheckpointRecord = CheckpointRecord(
    archiveVersion: nat,
    workspaceId: string,
    serverSequence: nat,
    createdAt: nat,
    content: ContentManifest,
    seal: Option<CheckpointSeal>)

  datatype EncryptionMarker = EncryptionMarker(
    scheme: string,
    keyId: KeyId,
    encryptedFromServerSequence: nat,
    enabledAt: nat)

  // SHA-256 of the payload's JSON text; any function will do.
  type PayloadHash = Payload -> string

  // Different payloads of the same digest.
  predicate Clash(h: PayloadHash, p: Payload, q: Payload) {
    p != q && h(p) == h(q)
  }

  /* ---------- What a payload refers to ---------- */

  function ManifestDigests(m: ContentManifest): set<Digest> {
    set c | c in m.chunks :: c.digest
  }

  // The manifests of the sealed contents that travel chunked.
  function ChunkedManifests(contents: seq<SealedContent>): seq<ContentManifest> {
    if contents == [] then []
    else (if contents[0].SealedChunked? then [contents[0].manifest] else []) + ChunkedManifests(contents[1..])
  }

  function ReferencedManifests(p: Payload): seq<ContentManifest> {
    match p
    case ChunkedPayload(m) => [m]
    case SealedPayload(op, assets) => ChunkedManifests([op] + assets)
    case InlinePayload(_, assets) => assets
  }

  function DigestsOf(manifests: seq<ContentManifest>): set<Digest> {
    if manifests == [] then {} else ManifestDigests(manifests[0]) + DigestsOf(manifests[1..])
  }

  function PayloadDigests(p: Payload): set<Digest> {
    DigestsOf(ReferencedManifests(p))
  }

  predicate IsSealedAs(sealed: SealedContent, m: ContentManifest) {
    sealed.SealedChunked? && sealed.manifest == m
  }

  // The manifest is part of the payload: an asset of an inline operation, a chunked operation
  // itself, or sealed content that travels chunked, be it the operation or an asset.
  ghost predicate Carries(p: Payload, m: ContentManifest) {
    match p
    case InlinePayload(_, assets) => m in assets
    case ChunkedPayload(manifest) => m == manifest
    case SealedPayload(operation, assets) => IsSealedAs(operation, m) || exists a :: a in assets && IsSealedAs(a, m)
  }

  // The payload needs a chunk of this digest.
  ghost predicate Needs(p: Payload, d: Digest) {
    exists m, c :: Carries(p, m) && c in m.chunks && c.digest == d
  }

  lemma {:induction false} DigestsOfManifests(manifests: seq<ContentManifest>, d: Digest)
    ensures d in DigestsOf(manifests) <==> exists m, c :: m in manifests && c in m.chunks && c.digest == d
  {
    if manifests != [] {
      DigestsOfManifests(manifests[1..], d);
      assert manifests == [manifests[0]] + manifests[1..];
    }
  }

  lemma {:induction false} ChunkedManifestsOf(contents: seq<SealedContent>, m: ContentManifest)
    ensures m in ChunkedManifests(contents) <==> exists a :: a in contents && IsSealedAs(a, m)
  {
    if contents != [] {
      var head, rest := contents[0], contents[1..];
      ChunkedManifestsOf(rest, m);
      assert contents == [head] + rest;
      assert m in ChunkedManifests(contents) <==> IsSealedAs(head, m) || m in ChunkedManifests(rest);
      assert forall a :: a in contents <==> a == head || a in rest;
    }
  }

  /** The digests a payload refers to are the chunks of exactly the manifests it carries, form by form. */
  lemma PayloadDigestsAreNeeded(p: Payload, d: Digest)
    ensures d in PayloadDigests(p) <==> Needs(p, d)
    ensures p.InlinePayload? ==>
      (d in PayloadDigests(p) <==> exists m, c :: m in p.assets && c in m.chunks && c.digest == d)
    ensures p.ChunkedPayload? ==>
      (d in PayloadDigests(p) <==> exists c :: c in p.manifest.chunks && c.digest == d)
    ensures p.SealedPayload? ==>
      (d in PayloadDigests(p) <==>
        exists a, c :: a in [p.operation] + p.sealedAssets && a.SealedChunked? && c in a.manifest.chunks && c.digest == d)
  {
    forall m ensures m in ReferencedManifests(p) <==> Carries(p, m) {
      if p.SealedPayload? {
        ChunkedManifestsOf([p.operation] + p.sealedAssets, m);
        assert forall a :: a in [p.operation] + p.sealedAssets <==> a == p.operation || a in p.sealedAssets;
      }
    }
    DigestsOfManifests(ReferencedManifests(p), d);
    hide ReferencedManifests, DigestsOf;
    if p.SealedPayload? { SealedNeeds(p, d); }
  }

  lemma SealedNeeds(p: Payload, d: Digest)
    requires p.SealedPayload?
    ensures Needs(p, d) <==>
      exists a, c :: a in [p.operation] + p.sealedAssets && a.SealedChunked? && c in a.manifest.chunks && c.digest == d
  {
    if Needs(p, d) {
      var m, c :| Carries(p, m) && c in m.chunks && c.digest == d;
      var a :| a in [p.operation] + p.sealedAssets && IsSealedAs(a, m);
    }
    if a, c :| a in [p.operation] + p.sealedAssets && a.SealedChunked? && c in a.manifest.chunks && c.digest == d {
      assert IsSealedAs(a, a.manifest);
      assert Carries(p, a.manifest);
    }
  }

  function KeyIds(assets: seq<SealedContent>): (ids: seq<KeyId>)
    ensures |ids| == |assets| && forall i :: 0 <= i < |assets| ==> ids[i] == assets[i].keyId
  {
    if assets == [] then [] else [assets[0].keyId] + KeyIds(assets[1..])
  }

  function PayloadSeal(p: Payload): (seal: Option<Seal>)
    ensures seal.Some? <==> p.SealedPayload?
    ensures seal.Some? ==> seal.value.keyIds != [] && seal.value.keyIds[0] == p.operation.keyId
  {
    if p.SealedPayload? then Some(Seal(p.operation.scheme, [p.operation.keyId] + KeyIds(p.sealedAssets))) else None
  }

  function CheckpointSealState(c: CheckpointRecord): (seal: Option<Seal>)
    ensures seal.Some? <==> c.seal.Some?
  {
    match c.seal
    case None => None
    case Some(seal) => Some(Seal(seal.scheme, [seal.keyId]))
  }

  // The sealed operation and every sealed asset are under this key.
  ghost predicate KeysAre(p: Payload, key: KeyId)
    requires p.SealedPayload?
  {
    p.operation.keyId == key && forall a :: a in p.sealedAssets ==> a.keyId == key
  }

  lemma KeyIdsAre(assets: seq<SealedContent>, key: KeyId)
    ensures AllKeysAre(KeyIds(assets), key) <==> forall a :: a in assets ==> a.keyId == key
  {
    var ids := KeyIds(assets);
    if AllKeysAre(ids, key) {
      forall a | a in assets ensures a.keyId == key {
        var i :| 0 <= i < |assets| && assets[i] == a;
        assert ids[i] in ids;
      }
    }
    if forall a :: a in assets ==> a.keyId == key {
      forall k | k in ids ensures k == key {
        var i :| 0 <= i < |ids| && ids[i] == k;
        assert assets[i] in assets;
      }
    }
  }

  lemma OneMoreKey(first: KeyId, rest: seq<KeyId>, key: KeyId)
    ensures AllKeysAre([first] + rest, key) <==> first == key && AllKeysAre(rest, key)
  {
    var all := [first] + rest;
    assert all[0] == first;
    forall k ensures k in all <==> k == first || k in rest {
    }
    if AllKeysAre(all, key) {
      assert first in all;
      assert forall k :: k in rest ==> k in all;
    }
  }

  /** The seal of a payload lists every key it was sealed under, the operation's first. */
  lemma SealListsEveryKey(p: Payload, key: KeyId)
    ensures PayloadSeal(p).Some? <==> p.SealedPayload?
    ensures p.SealedPayload? ==>
      PayloadSeal(p).value.scheme == p.operation.scheme && PayloadSeal(p).value.keyIds != [] &&
      PayloadSeal(p).value.keyIds[0] == p.operation.keyId &&
      (AllKeysAre(PayloadSeal(p).value.keyIds, key) <==> KeysAre(p, key))
  {
    if p.SealedPayload? {
      KeyIdsAre(p.sealedAssets, key);
      var keyIds := PayloadSeal(p).value.keyIds;
      assert keyIds == [p.operation.keyId] + KeyIds(p.sealedAssets);
      OneMoreKey(p.operation.keyId, KeyIds(p.sealedAssets), key);
    }
  }

  predicate AllKeysAre(keyIds: seq<KeyId>, key: KeyId) {
    forall k :: k in keyIds ==> k == key
  }

  predicate SealedUnder(seal: Option<Seal>, key: KeyId) {
    seal.Some? && AllKeysAre(seal.value.keyIds, key)
  }

  /* ---------- Push batches ---------- */

  datatype BatchFault =
    | EmptyBatch
    | BatchTooLarge
    | DuplicateOperationId(index: nat)
    | DuplicateClientSequence(index: nat)
    | NonContiguous(index: nat)
    | BatchExceedsBytes

  // Operation ids are distinct and client sequences run upwards without a gap.
  predicate Contiguous(ops: seq<ClientOperation>) {
    && (forall i, j :: 0 <= i < j < |ops| ==> ops[i].operationId != ops[j].operationId)
    && (forall i :: 0 <= i < |ops| ==> ops[i].clientSequence == ops[0].clientSequence + i)
  }

  predicate WellFormedBatch(ops: seq<ClientOperation>) {
    0 < |ops| <= MAX_SYNC_BATCH_OPERATIONS && Contiguous(ops) && ops[0].clientSequence > 0
  }

  // The ids and the client sequences of the first `n` operations.
  function OperationIds(ops: seq<ClientOperation>, n: nat): (ids: set<OperationId>)
    requires n <= |ops|
    ensures forall j :: 0 <= j < n ==> ops[j].operationId in ids
  {
    if n == 0 then {} else OperationIds(ops, n - 1) + {ops[n - 1].operationId}
  }

  function ClientSequences(ops: seq<ClientOperation>, n: nat): set<nat>
    requires n <= |ops|
  {
    if n == 0 then {} else ClientSequences(ops, n - 1) + {ops[n - 1].clientSequence}
  }

  lemma {:induction false} IdAt(ops: seq<ClientOperation>, n: nat, id: OperationId) returns (j: nat)
    requires n <= |ops| && id in OperationIds(ops, n)
    ensures j < n && ops[j].operationId == id
  {
    if ops[n - 1].operationId == id { j := n - 1; } else { j := IdAt(ops, n - 1, id); }
  }

  lemma {:induction false} SequenceAt(ops: seq<ClientOperation>, n: nat, sequence: nat) returns (j: nat)
    requires n <= |ops| && sequence in ClientSequences(ops, n)
    ensures j < n && ops[j].clientSequence == sequence
  {
    if ops[n - 1].clientSequence == sequence { j := n - 1; } else { j := SequenceAt(ops, n - 1, sequence); }
  }

  /**
  The batch part of `parseSyncPushRequest`, over operations whose fields are already parsed.
  A fault is reported at the first operation that makes its prefix ill-formed.
  */
  method ParseBatch(ops: seq<ClientOperation>, encodedBytes: nat) returns (r: Result<(), BatchFault>)
    requires forall op :: op in ops ==> op.clientSequence > 0
    ensures r.Ok? <==> WellFormedBatch(ops) && encodedBytes <= MAX_SYNC_BATCH_BYTES
    ensures r.Err? && (r.error.DuplicateOperationId? || r.error.DuplicateClientSequence? || r.error.NonContiguous?) ==>
      r.error.index < |ops| && Contiguous(ops[..r.error.index]) && !Contiguous(ops[..r.error.index + 1])
    ensures r.Err? && r.error.DuplicateOperationId? ==>
      exists j :: 0 <= j < r.error.index && ops[j].operationId == ops[r.error.index].operationId
    ensures r.Err? && r.error.DuplicateClientSequence? ==>
      exists j :: 0 <= j < r.error.index && ops[j].clientSequence == ops[r.error.index].clientSequence
  {
    if |ops| == 0 {
      return Err(EmptyBatch);
    }
    if |ops| > MAX_SYNC_BATCH_OPERATIONS {
      return Err(BatchTooLarge);
    }
    var operationIds: set<OperationId> := {};
    var clientSequences: set<nat> := {};
    var previousSequence: Option<nat> := None;
    assert Contiguous(ops[..0]);
    hide Contiguous;
    for i := 0 to |ops|
      invariant Contiguous(ops[..i])
      invariant operationIds == OperationIds(ops, i) && clientSequences == ClientSequences(ops, i)
      invariant previousSequence == if i == 0 then None else Some(ops[i - 1].clientSequence)
    {
      var operation := ops[i];
      if operation.operationId in operationIds {
        ghost var j := IdAt(ops, i, operation.operationId);
        NotContiguousAt(ops, i, j);
        return Err(DuplicateOperationId(i));
      }
      if operation.clientSequence in clientSequences {
        ghost var j := SequenceAt(ops, i, operation.clientSequence);
        NotContiguousAt(ops, i, j);
        return Err(DuplicateClientSequence(i));
      }
      if previousSequence.Some? && operation.clientSequence != previousSequence.value + 1 {
        NotContiguousAt(ops, i, i - 1);
        return Err(NonContiguous(i));
      }
      operationIds := operationIds + {operation.operationId};
      clientSequences := clientSequences + {operation.clientSequence};
      previousSequence := Some(operation.clientSequence);
      ContiguousExtends(ops, i);
    }
    assert ops[..|ops|] == ops;
    assert ops[0] in ops;
    if encodedBytes > MAX_SYNC_BATCH_BYTES {
      return Err(BatchExceedsBytes);
    }
    return Ok(());
  }

  lemma NotContiguousAt(ops: seq<ClientOperation>, i: nat, j: nat)
    requires j < i < |ops| && Contiguous(ops[..i])
    requires ops[j].operationId == ops[i].operationId || ops[j].clientSequence == ops[i].clientSequence ||
             (j == i - 1 && ops[i].clientSequence != ops[j].clientSequence + 1)
    ensures !Contiguous(ops[..i + 1]) && !Contiguous(ops)
  {
    var p := ops[..i + 1];
    assert p[i] == ops[i] && p[j] == ops[j] && p[0] == ops[0];
    assert ops[..i][j] == ops[j];
  }

  lemma ContiguousExtends(ops: seq<ClientOperation>, i: nat)
    requires i < |ops| && Contiguous(ops[..i])
    requires forall j :: 0 <= j < i ==> ops[j].operationId != ops[i].operationId
    requires i > 0 ==> ops[i].clientSequence == ops[i - 1].clientSequence + 1
    ensures Contiguous(ops[..i + 1])
  {
    var p, q := ops[..i], ops[..i + 1];
    forall k | 0 <= k < |q| ensures q[k].clientSequence == q[0].clientSequence + k {
      if k < i { assert p[k] == q[k] && p[0] == q[0]; }
      else if i > 0 { assert p[i - 1] == ops[i - 1] && p[0] == q[0]; }
    }
    forall a, b | 0 <= a < b < |q| ensures q[a].operationId != q[b].operationId {
      if b < i { assert p[a] == q[a] && p[b] == q[b]; }
    }
  }
}
