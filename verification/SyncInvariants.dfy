/**
What every transaction keeps besides the history: the floor and its checkpoints, the chunk
references and deletion marks, the storage account, and the encryption boundary.
*/
module SyncInvariants {
  import opened Wrappers
  import opened ContentManifests
  import opened SyncContracts
  import opened SyncStore
  import opened SyncHistory

  /* ---------- Floor ---------- */

  // Every stored checkpoint lies between the floor and the latest sequence, a positive floor has
  // a checkpoint to hydrate from, and no checkpoint the floor row advertised is ahead of it.
  ghost predicate FloorInv(s: Store) {
    && (forall c :: c in s.checkpoints.Keys ==> s.floor.compactedThrough <= c <= |s.history|)
    && (forall c :: c in s.checkpoints.Keys ==> s.checkpoints[c].serverSequence == c)
    && (forall d :: d in s.cursors ==> s.cursors[d].acknowledged <= |s.history|)
    && s.floor.compactedThrough <= s.floor.checkpointServerSequence
    && (s.checkpoints.Keys == {} ==> s.floor.checkpointServerSequence == 0)
    && (s.checkpoints.Keys != {} ==> s.floor.checkpointServerSequence <= MaxOf(s.checkpoints.Keys))
  }

  /* ---------- References and marks ---------- */

  ghost predicate OperationUses(log: seq<LogRow>, refs: set<ChunkUse>) {
    && (forall row, d :: row in log && d in PayloadDigests(row.entry.payload) ==>
          ChunkUse(d, OperationOwner(row.entry.operationId)) in refs)
    && (forall use :: use in refs && use.owner.OperationOwner? ==>
          exists row :: row in log && row.entry.operationId == use.owner.operationId &&
                        use.digest in PayloadDigests(row.entry.payload))
  }

  // Republishing keeps the references of the record it replaced, so these are a superset.
  ghost predicate CheckpointUses(checkpoints: map<nat, CheckpointRecord>, refs: set<ChunkUse>) {
    && (forall c, d :: c in checkpoints.Keys && d in ManifestDigests(checkpoints[c].content) ==>
          ChunkUse(d, CheckpointOwner(c)) in refs)
    && (forall use :: use in refs && use.owner.CheckpointOwner? ==> use.owner.serverSequence in checkpoints.Keys)
  }

  // No digest marked for deletion is referenced.
  ghost predicate MarksInv(s: Store) {
    forall use :: use in s.refs ==> use.digest !in s.deleting
  }

  ghost predicate RefsInv(s: Store) {
    OperationUses(s.log, s.refs) && CheckpointUses(s.checkpoints, s.refs) && MarksInv(s)
  }

  /* ---------- Storage account ---------- */

  ghost function SumSizes(sizes: map<Digest, nat>): nat
    decreases |sizes|
  {
    if sizes == map[] then 0
    else
      var d :| d in sizes;
      sizes[d] + SumSizes(sizes - {d})
  }

  ghost predicate UsageInv(s: Store) {
    s.usage == SumSizes(s.sizes)
  }

  lemma {:induction false} SumWithout(sizes: map<Digest, nat>, d: Digest)
    requires d in sizes
    ensures SumSizes(sizes) == sizes[d] + SumSizes(sizes - {d})
    decreases |sizes|
  {
    var e :| e in sizes && SumSizes(sizes) == sizes[e] + SumSizes(sizes - {e});
    if e != d {
      SumWithout(sizes - {e}, d);
      SumWithout(sizes - {d}, e);
      assert sizes - {e} - {d} == sizes - {d} - {e};
    }
  }

  /* ---------- Encryption boundary ---------- */

  ghost predicate SealedSince(m: EncryptionMarker, e: Entry, i: nat) {
    && (e.payload.SealedPayload? <==> i + 1 > m.encryptedFromServerSequence)
    && (e.payload.SealedPayload? ==> KeysAre(e.payload, m.keyId))
  }

  // Server sequences above the marker's boundary are sealed under the marker's key, assets
  // included, and the ones up to it are plaintext.
  ghost predicate SealInv(marker: Option<EncryptionMarker>, history: seq<Entry>) {
    match marker
    case None => forall i :: 0 <= i < |history| ==> !history[i].payload.SealedPayload?
    case Some(m) =>
      m.encryptedFromServerSequence <= |history| &&
      forall i :: 0 <= i < |history| ==> SealedSince(m, history[i], i)
  }

  ghost predicate StoreInv(h: PayloadHash, s: Store) {
    HistoryInv(h, s) && FloorInv(s) && RefsInv(s) && UsageInv(s) && SealInv(s.marker, s.history)
  }

  lemma FreshStore(h: PayloadHash)
    ensures StoreInv(h, FRESH)
  {
  }

  /* ---------- Seals ---------- */

  /** The marker is write-once: once there, admission never changes it. */
  lemma AdmitKeepsMarker(marker: Option<EncryptionMarker>, latest: nat, seal: Option<Seal>, foreign: bool, now: nat)
    requires marker.Some?
    ensures AdmitSeal(marker, latest, seal, foreign, now).Ok? ==>
      AdmitSeal(marker, latest, seal, foreign, now).value == marker
    ensures AdmitSeal(marker, latest, seal, false, now).Ok? ==> SealedUnder(seal, marker.value.keyId)
  {
  }

  lemma SealAppend(marker: Option<EncryptionMarker>, history: seq<Entry>, e: Entry, next: Option<EncryptionMarker>, now: nat)
    requires SealInv(marker, history)
    requires AdmitSeal(marker, |history|, PayloadSeal(e.payload), false, now) == Ok(next)
    ensures SealInv(next, history + [e])
  {
    var all := history + [e];
    if next.Some? { SealListsEveryKey(e.payload, next.value.keyId); }
    if next.Some? {
      forall i | 0 <= i < |all| ensures SealedSince(next.value, all[i], i) {
        if i < |history| && marker.Some? { assert SealedSince(marker.value, history[i], i); }
      }
    }
  }

  lemma SealMarked(marker: Option<EncryptionMarker>, history: seq<Entry>, seal: Option<Seal>, foreign: bool, now: nat)
    requires SealInv(marker, history) && AdmitSeal(marker, |history|, seal, foreign, now).Ok?
    ensures SealInv(AdmitSeal(marker, |history|, seal, foreign, now).value, history)
  {
  }

  /* ---------- Push ---------- */

  lemma OperationUsesAppend(log: seq<LogRow>, refs: set<ChunkUse>, row: LogRow)
    requires OperationUses(log, refs)
    ensures OperationUses(log + [row], refs + Uses(PayloadDigests(row.entry.payload), OperationOwner(row.entry.operationId)))
  {
    var all := log + [row];
    var uses := Uses(PayloadDigests(row.entry.payload), OperationOwner(row.entry.operationId));
    forall use | use in refs + uses && use.owner.OperationOwner?
      ensures exists r :: r in all && r.entry.operationId == use.owner.operationId && use.digest in PayloadDigests(r.entry.payload)
    {
      if use in uses {
        assert row in all;
      } else {
        var r :| r in log && r.entry.operationId == use.owner.operationId && use.digest in PayloadDigests(r.entry.payload);
        assert r in all;
      }
    }
  }

  // A push touches the log, the index, the heads, the references and the marker; nothing else.
  ghost predicate PushFrame(s: Store, t: Store) {
    && t.checkpoints == s.checkpoints && t.cursors == s.cursors && t.floor == s.floor
    && t.deleting == s.deleting && t.sizes == s.sizes && t.usage == s.usage
    && s.history <= t.history
    && (s.marker.Some? ==> t.marker == s.marker)
  }

  lemma NoCommonElement<T>(a: set<T>, b: set<T>)
    requires a * b == {}
    ensures forall x :: x in a ==> x !in b
  {
    forall x | x in a ensures x !in b {
      assert x !in a * b;
    }
  }

  lemma AppendKeepsRefs(h: PayloadHash, s: Store, marker: Option<EncryptionMarker>, e: Entry)
    requires RefsInv(s) && PayloadDigests(e.payload) * s.deleting == {}
    ensures RefsInv(Append(h, s, marker, e))
  {
    var t := Append(h, s, marker, e);
    OperationUsesAppend(s.log, s.refs, LogRow(Latest(s.log, s.highWater) + 1, e));
    NoCommonElement(PayloadDigests(e.payload), s.deleting);
    forall use | use in t.refs ensures use.digest !in t.deleting {
      assert use in s.refs || use in Uses(PayloadDigests(e.payload), OperationOwner(e.operationId));
    }
  }

  lemma AppendKeepsInv(h: PayloadHash, s: Store, device: DeviceId, op: ClientOperation, now: nat, t: Store, answer: Accepted)
    requires StoreInv(h, s) && Appends(h, s, device, op, now, t, answer)
    ensures StoreInv(h, t) && PushFrame(s, t)
  {
    var e := EntryOf(device, op);
    AppendKeepsHistory(h, s, t.marker, e);
    AppendKeepsRefs(h, s, t.marker, e);
    SealAppend(s.marker, s.history, e, t.marker, now);
    if s.marker.Some? { AdmitKeepsMarker(s.marker, |s.history|, PayloadSeal(op.payload), false, now); }
  }

  // Digests of the operations of a batch that no accepted operation collides with.
  ghost function UncommittedDigests(history: seq<Entry>, device: DeviceId, ops: seq<ClientOperation>, i: nat): set<Digest>
    requires i <= |ops|
    decreases |ops| - i
  {
    if i == |ops| then {}
    else
      NewDigests(history, device, ops[i]) + UncommittedDigests(history, device, ops, i + 1)
  }

  ghost function NewDigests(history: seq<Entry>, device: DeviceId, op: ClientOperation): set<Digest> {
    if Untouched(history, EntryOf(device, op)) then PayloadDigests(op.payload) else {}
  }

  lemma {:induction false} UncommittedShrinks(
    history: seq<Entry>, later: seq<Entry>, device: DeviceId, ops: seq<ClientOperation>, i: nat)
    requires history <= later && i <= |ops|
    ensures UncommittedDigests(later, device, ops, i) <= UncommittedDigests(history, device, ops, i)
    decreases |ops| - i
  {
    if i < |ops| {
      UncommittedShrinks(history, later, device, ops, i + 1);
      var e := EntryOf(device, ops[i]);
      if Untouched(later, e) {
        forall j | 0 <= j < |history| ensures !Collides(history[j], e) {
          assert later[j] == history[j];
        }
      }
    }
  }

  lemma CommitOneKeepsInv(h: PayloadHash, s: Store, device: DeviceId, op: ClientOperation, now: nat)
    requires StoreInv(h, s) && CommitOne(h, s, device, op, now).Ok?
    ensures var t := CommitOne(h, s, device, op, now).value.0;
      StoreInv(h, t) && PushFrame(s, t) && Referenced(t.refs) <= Referenced(s.refs) + NewDigests(s.history, device, op)
  {
    CommitOneKeepsHistory(h, s, device, op, now);
    hide HistoryInv, FloorInv, UsageInv, SealInv, CommitOne;
    if Untouched(s.history, EntryOf(device, op)) {
      var (t, answer) := CommitOne(h, s, device, op, now).value;
      AppendKeepsInv(h, s, device, op, now, t, answer);
    }
  }

  lemma PushFrameJoins(s: Store, mid: Store, t: Store, first: set<Digest>, rest: set<Digest>, more: set<Digest>)
    requires PushFrame(s, mid) && Referenced(mid.refs) <= Referenced(s.refs) + first
    requires PushFrame(mid, t) && Referenced(t.refs) <= Referenced(mid.refs) + rest && rest <= more
    ensures PushFrame(s, t) && Referenced(t.refs) <= Referenced(s.refs) + (first + more)
  {
    hide Referenced;
  }

  lemma {:induction false} CommitFromKeepsInv(
    h: PayloadHash, s: Store, device: DeviceId, ops: seq<ClientOperation>, now: nat, i: nat, accepted: seq<Accepted>)
    requires StoreInv(h, s) && i <= |ops|
    ensures match CommitFrom(h, s, device, ops, now, i, accepted)
            case Ok((t, _)) =>
              StoreInv(h, t) && PushFrame(s, t) &&
              Referenced(t.refs) <= Referenced(s.refs) + UncommittedDigests(s.history, device, ops, i)
            case Err(_) => true
    decreases |ops| - i
  {
    if i < |ops| {
      var one := CommitOne(h, s, device, ops[i], now);
      if one.Ok? {
        var (mid, answer) := one.value;
        CommitOneKeepsInv(h, s, device, ops[i], now);
        assert s.history <= mid.history;
        UncommittedShrinks(s.history, mid.history, device, ops, i + 1);
        hide StoreInv, CommitOne, NewDigests, Referenced, Untouched, PushFrame;
        CommitFromKeepsInv(h, mid, device, ops, now, i + 1, accepted + [answer]);
        var rest := CommitFrom(h, mid, device, ops, now, i + 1, accepted + [answer]);
        if rest.Ok? {
          PushFrameJoins(s, mid, rest.value.0, NewDigests(s.history, device, ops[i]),
                         UncommittedDigests(mid.history, device, ops, i + 1), UncommittedDigests(s.history, device, ops, i + 1));
        }
      }
    }
  }

  /**
  A push keeps every invariant, touches nothing but its own tables, and adds references only to
  digests of operations it appends, none of which is marked for deletion.
  */
  lemma PushKeepsInv(h: PayloadHash, s: Store, device: DeviceId, ops: seq<ClientOperation>, now: nat)
    requires StoreInv(h, s)
    ensures var t := PushTx(h, s, device, ops, now).store;
      StoreInv(h, t) && PushFrame(s, t) &&
      Referenced(t.refs) <= Referenced(s.refs) + UncommittedDigests(s.history, device, ops, 0)
  {
    CommitFromKeepsInv(h, s, device, ops, now, 0, []);
  }

  /* ---------- Publish, acknowledge, claim, record ---------- */

  lemma CheckpointUsesPublish(checkpoints: map<nat, CheckpointRecord>, refs: set<ChunkUse>, c: CheckpointRecord)
    requires CheckpointUses(checkpoints, refs)
    ensures CheckpointUses(checkpoints[c.serverSequence := c],
                           refs + Uses(ManifestDigests(c.content), CheckpointOwner(c.serverSequence)))
  {
  }

  lemma PublishKeepsFloor(s: Store, c: CheckpointRecord, now: nat)
    requires FloorInv(s) && c.serverSequence <= |s.history| && PublishTx(s, c, now).outcome.Ok?
    ensures FloorInv(PublishTx(s, c, now).store)
  {
    var t := PublishTx(s, c, now).store;
    assert t.checkpoints.Keys == s.checkpoints.Keys + {c.serverSequence};
    if s.checkpoints.Keys != {} {
      assert MaxOf(s.checkpoints.Keys) in t.checkpoints.Keys;
    }
  }

  lemma PublishKeepsRefs(s: Store, c: CheckpointRecord, now: nat)
    requires RefsInv(s) && PublishTx(s, c, now).outcome.Ok?
    ensures RefsInv(PublishTx(s, c, now).store)
    ensures Referenced(PublishTx(s, c, now).store.refs) == Referenced(s.refs) + ManifestDigests(c.content)
  {
    var t := PublishTx(s, c, now).store;
    var uses := Uses(ManifestDigests(c.content), CheckpointOwner(c.serverSequence));
    CheckpointUsesPublish(s.checkpoints, s.refs, c);
    NoCommonElement(ManifestDigests(c.content), s.deleting);
    forall use | use in t.refs ensures use.digest !in t.deleting {
      assert use in s.refs || use in uses;
    }
    forall d | d in ManifestDigests(c.content) ensures d in Referenced(t.refs) {
      assert ChunkUse(d, CheckpointOwner(c.serverSequence)) in t.refs;
    }
    forall d | d in Referenced(s.refs) ensures d in Referenced(t.refs) {
      var use :| use in s.refs && use.digest == d;
      assert use in t.refs;
    }
  }

  /**
  With a marker in place only a checkpoint sealed under its key is written, a sealed checkpoint
  leaves a marker naming its key, and a refused publication changes nothing.
  */
  lemma PublishRespectsMarker(s: Store, c: CheckpointRecord, now: nat)
    ensures PublishTx(s, c, now).outcome.Err? ==> PublishTx(s, c, now).store == s
    ensures s.marker.Some? ==> PublishTx(s, c, now).store.marker == s.marker
    ensures s.marker.Some? && PublishTx(s, c, now).outcome.Ok? ==>
      c.seal.Some? && c.seal.value.keyId == s.marker.value.keyId
    ensures c.seal.Some? && PublishTx(s, c, now).outcome.Ok? ==>
      PublishTx(s, c, now).store.marker.Some? && PublishTx(s, c, now).store.marker.value.keyId == c.seal.value.keyId
  {
    if c.seal.Some? { assert CheckpointSealState(c).value.keyIds[0] in CheckpointSealState(c).value.keyIds; }
  }

  // The seal of a checkpoint fits the workspace: none before encryption, the workspace key after it.
  predicate CheckpointFits(marker: Option<EncryptionMarker>, seal: Option<CheckpointSeal>) {
    match seal
    case None => marker.None?
    case Some(sealed) => marker.None? || sealed.keyId == marker.value.keyId
  }

  /**
  A checkpoint is accepted exactly when it is not below the floor, none of its chunks is being
  removed and its seal fits; then it is what is stored at its sequence, the first sealed one writes
  the marker, and references are only added, one per chunk. A refusal names the first reason.
  */
  lemma PublishedExactlyWhen(s: Store, c: CheckpointRecord, now: nat)
    ensures PublishTx(s, c, now).outcome.Ok? <==>
      && s.floor.compactedThrough <= c.serverSequence
      && (forall chunk :: chunk in c.content.chunks ==> chunk.digest !in s.deleting)
      && CheckpointFits(s.marker, c.seal)
    ensures c.serverSequence < s.floor.compactedThrough <==> PublishTx(s, c, now).outcome == Err(CheckpointBelowFloor)
    ensures PublishTx(s, c, now).outcome.Ok? ==>
      var t := PublishTx(s, c, now).store;
      && PublishTx(s, c, now).outcome.value == c.serverSequence
      && t == s.(checkpoints := s.checkpoints[c.serverSequence := c], marker := t.marker, refs := t.refs)
      && t.marker == (if s.marker.None? && c.seal.Some?
                      then Some(EncryptionMarker(c.seal.value.scheme, c.seal.value.keyId, Latest(s.log, s.highWater), now))
                      else s.marker)
      && (forall use :: use in t.refs <==>
            use in s.refs ||
            (use.owner == CheckpointOwner(c.serverSequence) &&
             exists chunk :: chunk in c.content.chunks && chunk.digest == use.digest))
    ensures PublishTx(s, c, now).outcome.Ok? && (forall k :: k in s.checkpoints.Keys ==> k <= c.serverSequence) ==>
      var t := PublishTx(s, c, now).store;
      t.checkpoints.Keys != {} && t.checkpoints[MaxOf(t.checkpoints.Keys)] == c
  {
    NothingRemoved(c.content, s.deleting);
    CheckpointAdmittedIff(s.marker, Latest(s.log, s.highWater), c, now);
    if PublishTx(s, c, now).outcome.Ok? {
      PublishedRefs(s, c, now);
      var t := PublishTx(s, c, now).store;
      assert c.serverSequence in t.checkpoints.Keys;
      assert forall k :: k in t.checkpoints.Keys ==> k == c.serverSequence || k in s.checkpoints.Keys;
    }
  }

  lemma NothingRemoved(m: ContentManifest, deleting: set<Digest>)
    ensures ManifestDigests(m) * deleting == {} <==> forall chunk :: chunk in m.chunks ==> chunk.digest !in deleting
  {
    forall chunk | chunk in m.chunks && chunk.digest in deleting ensures chunk.digest in ManifestDigests(m) * deleting {
    }
  }

  lemma CheckpointAdmittedIff(marker: Option<EncryptionMarker>, latest: nat, c: CheckpointRecord, now: nat)
    ensures var admitted := AdmitSeal(marker, latest, CheckpointSealState(c), false, now);
      && (admitted.Ok? <==> CheckpointFits(marker, c.seal))
      && (admitted.Ok? && marker.None? && c.seal.Some? ==>
            admitted.value == Some(EncryptionMarker(c.seal.value.scheme, c.seal.value.keyId, latest, now)))
      && (admitted.Ok? && !(marker.None? && c.seal.Some?) ==> admitted.value == marker)
  {
    if c.seal.Some? {
      var key := c.seal.value.keyId;
      assert CheckpointSealState(c) == Some(Seal(c.seal.value.scheme, [key]));
      assert key in [key];
      assert forall k :: AllKeysAre([key], k) <==> key == k;
    }
  }

  lemma PublishedRefs(s: Store, c: CheckpointRecord, now: nat)
    requires PublishTx(s, c, now).outcome.Ok?
    ensures forall use :: use in PublishTx(s, c, now).store.refs <==>
      use in s.refs ||
      (use.owner == CheckpointOwner(c.serverSequence) && exists chunk :: chunk in c.content.chunks && chunk.digest == use.digest)
  {
    var uses := Uses(ManifestDigests(c.content), CheckpointOwner(c.serverSequence));
    forall use: ChunkUse ensures use in uses <==>
      use.owner == CheckpointOwner(c.serverSequence) && exists chunk :: chunk in c.content.chunks && chunk.digest == use.digest
    {
      if chunk :| chunk in c.content.chunks && chunk.digest == use.digest {
        assert use.digest in ManifestDigests(c.content);
      }
    }
  }

  lemma PublishKeepsInv(h: PayloadHash, s: Store, c: CheckpointRecord, now: nat)
    requires StoreInv(h, s) && c.serverSequence <= |s.history|
    ensures StoreInv(h, PublishTx(s, c, now).store)
  {
    LatestIsHistoryLength(h, s);
    PublishRespectsMarker(s, c, now);
    if PublishTx(s, c, now).outcome.Ok? {
      PublishKeepsFloor(s, c, now);
      PublishKeepsRefs(s, c, now);
      SealMarked(s.marker, s.history, CheckpointSealState(c), false, now);
    }
  }

  lemma AcknowledgeKeepsFloor(s: Store, device: DeviceId, sequence: nat, now: nat)
    requires FloorInv(s) && Latest(s.log, s.highWater) == |s.history|
    ensures FloorInv(AcknowledgeTx(s, device, sequence, now).0)
  {
  }

  /** An acknowledgement is refused exactly when it is ahead of the workspace; it never lowers a live cursor. */
  lemma AcknowledgeKeepsInv(h: PayloadHash, s: Store, device: DeviceId, sequence: nat, now: nat)
    requires StoreInv(h, s)
    ensures StoreInv(h, AcknowledgeTx(s, device, sequence, now).0)
    ensures AcknowledgeTx(s, device, sequence, now).0 == s.(cursors := AcknowledgeTx(s, device, sequence, now).0.cursors)
    ensures forall d :: d != device ==>
      (d in AcknowledgeTx(s, device, sequence, now).0.cursors <==> d in s.cursors) &&
      (d in s.cursors ==> AcknowledgeTx(s, device, sequence, now).0.cursors[d] == s.cursors[d])
    ensures AcknowledgeTx(s, device, sequence, now).1.Some? <==> sequence <= |s.history|
    ensures AcknowledgeTx(s, device, sequence, now).1.None? ==> AcknowledgeTx(s, device, sequence, now).0 == s
    ensures AcknowledgeTx(s, device, sequence, now).1.Some? ==>
      var answer := AcknowledgeTx(s, device, sequence, now).1.value;
      && (device !in s.cursors || s.cursors[device].acknowledged <= sequence ==> answer == sequence)
      && (device in s.cursors && s.cursors[device].acknowledged > sequence ==> answer == s.cursors[device].acknowledged)
      && AcknowledgeTx(s, device, sequence, now).0.cursors == s.cursors[device := Cursor(answer, now)]
    ensures AcknowledgeTx(s, device, sequence, now).1.Some? ==>
      sequence <= AcknowledgeTx(s, device, sequence, now).1.value <= |s.history| &&
      (device in s.cursors ==> s.cursors[device].acknowledged <= AcknowledgeTx(s, device, sequence, now).1.value)
  {
    LatestIsHistoryLength(h, s);
    AcknowledgeKeepsFloor(s, device, sequence, now);
  }

  /** A claim always answers with the one marker; the first claim writes it. */
  lemma ClaimKeepsInv(h: PayloadHash, s: Store, scheme: string, keyId: KeyId, now: nat)
    requires StoreInv(h, s)
    ensures StoreInv(h, ClaimTx(s, scheme, keyId, now).store)
    ensures ClaimTx(s, scheme, keyId, now).outcome.Ok?
    ensures ClaimTx(s, scheme, keyId, now).store == s.(marker := Some(ClaimTx(s, scheme, keyId, now).outcome.value))
    ensures s.marker.Some? ==> ClaimTx(s, scheme, keyId, now).outcome.value == s.marker.value
    ensures s.marker.None? ==>
      ClaimTx(s, scheme, keyId, now).outcome.value == EncryptionMarker(scheme, keyId, |s.history|, now)
  {
    LatestIsHistoryLength(h, s);
    SealMarked(s.marker, s.history, Some(Seal(scheme, [keyId])), true, now);
  }

  /** Recording an upload counts a digest once. */
  lemma RecordKeepsInv(h: PayloadHash, s: Store, d: Digest, size: nat)
    requires StoreInv(h, s)
    ensures StoreInv(h, RecordTx(s, d, size))
    ensures RecordTx(RecordTx(s, d, size), d, size) == RecordTx(s, d, size)
    ensures RecordTx(s, d, size).usage == s.usage + if d in s.sizes then 0 else size
    ensures d in RecordTx(s, d, size).sizes && RecordTx(s, d, size).sizes - {d} == s.sizes - {d}
    ensures RecordTx(s, d, size).sizes[d] == if d in s.sizes then s.sizes[d] else size
  {
    if d !in s.sizes {
      var sizes := s.sizes[d := size];
      SumWithout(sizes, d);
      assert sizes - {d} == s.sizes;
    }
  }

  /* ---------- Finishing a deletion ---------- */

  function Elements<T>(s: seq<T>): set<T> {
    set x | x in s
  }

  // The sum never goes below zero: the clamp in `MAX(0, byte_length - ?)` changes nothing.
  lemma FinishOneKeepsUsage(s: Store, d: Digest)
    requires UsageInv(s)
    ensures UsageInv(FinishOne(s, d))
    ensures d in s.sizes ==> s.sizes[d] <= s.usage && FinishOne(s, d).usage == s.usage - s.sizes[d]
  {
    if d in s.sizes { SumWithout(s.sizes, d); } else { assert s.sizes - {d} == s.sizes; }
  }

  /** Finishing removes exactly the listed marks and sizes, in whatever order they are listed. */
  lemma {:induction false} FinishKeepsUsage(s: Store, digests: seq<Digest>)
    requires UsageInv(s)
    ensures UsageInv(FinishTx(s, digests))
    ensures FinishTx(s, digests) ==
      s.(sizes := s.sizes - Elements(digests),
         deleting := s.deleting - Elements(digests),
         usage := FinishTx(s, digests).usage)
  {
    if digests == [] {
      assert Elements(digests) == {};
      assert s.sizes - {} == s.sizes;
    } else {
      var last := |digests| - 1;
      FinishKeepsUsage(s, digests[..last]);
      FinishOneKeepsUsage(FinishTx(s, digests[..last]), digests[last]);
      assert digests == digests[..last] + [digests[last]];
      assert Elements(digests) == Elements(digests[..last]) + {digests[last]};
      assert s.sizes - Elements(digests) == s.sizes - Elements(digests[..last]) - {digests[last]};
    }
  }

  lemma FinishKeepsInv(h: PayloadHash, s: Store, digests: seq<Digest>)
    requires StoreInv(h, s)
    ensures StoreInv(h, FinishTx(s, digests))
    ensures FinishTx(s, digests).refs == s.refs && FinishTx(s, digests).history == s.history
    ensures FinishTx(s, digests).marker == s.marker && FinishTx(s, digests).floor == s.floor
    ensures FinishTx(s, digests).deleting == s.deleting - Elements(digests)
    ensures FinishTx(s, digests).sizes == s.sizes - Elements(digests)
  {
    FinishKeepsUsage(s, digests);
  }

  lemma MarkStaleKeepsInv(h: PayloadHash, s: Store, stale: set<Digest>)
    requires StoreInv(h, s)
    ensures StoreInv(h, MarkStaleTx(s, stale).0)
    ensures MarkStaleTx(s, stale).1 <= stale && MarkStaleTx(s, stale).1 !! Referenced(s.refs)
    ensures MarkStaleTx(s, stale).1 <= MarkStaleTx(s, stale).0.deleting
  {
    var t := MarkStaleTx(s, stale).0;
    forall use | use in t.refs ensures use.digest !in t.deleting {
      assert use.digest in Referenced(s.refs);
    }
  }

  /* ---------- Planning a compaction ---------- */

  lemma {:induction false} RowsSplit(log: seq<LogRow>, from: nat, n: nat) returns (k: nat)
    requires forall i :: 0 <= i < |log| ==> log[i].serverSequence == from + i + 1
    ensures k == if n <= from then 0 else Min(n - from, |log|)
    ensures RowsThrough(log, n) == log[..k] && RowsAbove(log, n) == log[k..]
  {
    k := if n <= from then 0 else Min(n - from, |log|);
    if log != [] {
      var rest := RowsSplit(log[1..], from + 1, n);
      assert log == [log[0]] + log[1..];
    }
  }

  // The new floor, and why the throw in `raiseLogFloor` is unreachable.
  lemma PlanBounds(s: Store, now: nat, idle: nat) returns (below: nat)
    requires FloorInv(s)
    ensures below == CompactBelow(s.checkpoints.Keys, LiveCursors(s, now, idle))
    ensures below <= |s.history|
    ensures below > 0 ==> Retained(s.checkpoints.Keys) != {} && s.checkpoints.Keys != {}
    ensures below > 0 ==> Max(s.floor.compactedThrough, below) <= MinOf(Retained(s.checkpoints.Keys))
    ensures PlanTx(s, now, idle).outcome.Ok?
  {
    var cursors := LiveCursors(s, now, idle);
    below := CompactBelow(s.checkpoints.Keys, cursors);
    var retained := Retained(s.checkpoints.Keys);
    if below > 0 {
      assert MinOf(retained) in s.checkpoints.Keys;
      assert MinOf(Acknowledgements(cursors)) in Acknowledgements(cursors);
    }
  }

  lemma PlanKeepsFloor(s: Store, now: nat, idle: nat)
    requires FloorInv(s)
    ensures FloorInv(PlanTx(s, now, idle).store)
    ensures s.floor.compactedThrough <= PlanTx(s, now, idle).store.floor.compactedThrough <= |s.history|
  {
    var below := PlanBounds(s, now, idle);
    var t := PlanTx(s, now, idle).store;
    KeptKeys(s.checkpoints.Keys);
    assert t.checkpoints.Keys == s.checkpoints.Keys - Superseded(s.checkpoints.Keys);
    LiveAreStored(s, now, idle);
    hide FloorInv, Retained, Superseded, CompactBelow, LiveCursors;
    RemovalKeepsFloor(s, t, below, Retained(s.checkpoints.Keys));
  }

  // Keeping the greatest checkpoints and raising the floor no further than all of them.
  lemma RemovalKeepsFloor(s: Store, t: Store, below: nat, kept: set<nat>)
    requires FloorInv(s) && t.history == s.history && kept == t.checkpoints.Keys
    requires forall c :: c in kept ==> c in s.checkpoints && t.checkpoints[c] == s.checkpoints[c]
    requires s.checkpoints.Keys != {} ==> kept != {} && MaxOf(kept) == MaxOf(s.checkpoints.Keys)
    requires forall d :: d in t.cursors ==> d in s.cursors && t.cursors[d] == s.cursors[d]
    requires below == 0 ==> t.floor == s.floor
    requires below > 0 ==>
      kept != {} && t.floor == RaisedFloor(s.floor, below, MaxOf(kept)) && t.floor.compactedThrough <= MinOf(kept)
    ensures FloorInv(t) && s.floor.compactedThrough <= t.floor.compactedThrough <= |s.history|
  {
    if below > 0 {
      assert MinOf(kept) in s.checkpoints.Keys;
      assert MaxOf(kept) in s.checkpoints.Keys;
    }
  }

  lemma LiveAreStored(s: Store, now: nat, idle: nat)
    ensures forall d :: d in LiveCursors(s, now, idle) ==> d in s.cursors && LiveCursors(s, now, idle)[d] == s.cursors[d]
  {
  }

  // Compaction keeps the retained checkpoints, the greatest among them.
  lemma KeptKeys(keys: set<nat>)
    ensures keys - Superseded(keys) == Retained(keys)
    ensures keys != {} ==> Retained(keys) != {} && MaxOf(Retained(keys)) == MaxOf(keys)
  {
    RetainedIsTheTopTwo(keys);
    if keys != {} { GreatestIsRetained(keys); }
  }

  lemma RaisedLog(history: seq<Entry>, floor: nat, below: nat)
    requires floor <= |history| && below <= |history|
    ensures RowsAbove(LogRows(history, floor), below) == LogRows(history, Max(floor, below))
  {
    var k := RowsSplit(LogRows(history, floor), floor, below);
    LogRowsDrop(history, floor, k);
  }

  lemma PlanKeepsHistory(h: PayloadHash, s: Store, now: nat, idle: nat)
    requires HistoryInv(h, s) && FloorInv(s)
    ensures HistoryInv(h, PlanTx(s, now, idle).store)
  {
    var below := PlanBounds(s, now, idle);
    RaisedLog(s.history, s.floor.compactedThrough, below);
  }

  lemma LogRowsDrop(history: seq<Entry>, floor: nat, k: nat)
    requires floor + k <= |history|
    ensures LogRows(history, floor)[k..] == LogRows(history, floor + k)
  {
  }

  lemma PrefixOwners(log: seq<LogRow>, k: nat)
    requires k <= |log|
    ensures forall i :: 0 <= i < k ==> OperationOwner(log[i].entry.operationId) in OperationOwners(log[..k])
  {
    forall i | 0 <= i < k ensures OperationOwner(log[i].entry.operationId) in OperationOwners(log[..k]) {
      assert log[..k][i] == log[i];
    }
  }

  lemma OperationUsesRemoved(log: seq<LogRow>, refs: set<ChunkUse>, k: nat, checkpointOwners: set<ChunkOwner>)
    requires OperationUses(log, refs) && k <= |log|
    requires forall i, j :: 0 <= i < k <= j < |log| ==> log[i].entry.operationId != log[j].entry.operationId
    requires forall o :: o in checkpointOwners ==> o.CheckpointOwner?
    ensures OperationUses(log[k..], WithoutOwners(refs, checkpointOwners + OperationOwners(log[..k])))
  {
    var owners := checkpointOwners + OperationOwners(log[..k]);
    PrefixOwners(log, k);
    forall row, d | row in log[k..] && d in PayloadDigests(row.entry.payload)
      ensures ChunkUse(d, OperationOwner(row.entry.operationId)) in WithoutOwners(refs, owners)
    {
      var j :| k <= j < |log| && log[j] == row;
      assert row in log;
      forall r | r in log[..k] ensures r.entry.operationId != row.entry.operationId {
        var i :| 0 <= i < k && log[i] == r;
      }
    }
    forall use | use in WithoutOwners(refs, owners) && use.owner.OperationOwner?
      ensures exists row :: row in log[k..] && row.entry.operationId == use.owner.operationId &&
                            use.digest in PayloadDigests(row.entry.payload)
    {
      var row :| row in log && row.entry.operationId == use.owner.operationId && use.digest in PayloadDigests(row.entry.payload);
      var i :| 0 <= i < |log| && log[i] == row;
      assert k <= i;
      assert log[k..][i - k] == row;
    }
  }

  lemma CheckpointUsesRemoved(
    checkpoints: map<nat, CheckpointRecord>, refs: set<ChunkUse>, gone: set<nat>, operationOwners: set<ChunkOwner>)
    requires CheckpointUses(checkpoints, refs)
    requires forall o :: o in operationOwners ==> o.OperationOwner?
    ensures CheckpointUses(checkpoints - gone, WithoutOwners(refs, CheckpointOwners(gone) + operationOwners))
  {
  }

  lemma LoggedIdsDiffer(h: PayloadHash, s: Store, i: nat, j: nat)
    requires HistoryInv(h, s) && i < j < |s.log|
    ensures s.log[i].entry.operationId != s.log[j].entry.operationId
  {
    var floor := s.floor.compactedThrough;
    if s.log[i].entry.operationId == s.log[j].entry.operationId {
      DistinctIdsAt(s.history, floor + i, floor + j);
    }
  }

  lemma PlanKeepsRefs(h: PayloadHash, s: Store, now: nat, idle: nat)
    requires HistoryInv(h, s) && FloorInv(s) && RefsInv(s)
    ensures RefsInv(PlanTx(s, now, idle).store)
    ensures PlanTx(s, now, idle).store.refs <= s.refs
  {
    var below := PlanBounds(s, now, idle);
    var t := PlanTx(s, now, idle).store;
    assert LogMatches(s);
    PlanIs(s, now, idle, below);
    assert t.checkpoints == s.checkpoints - Superseded(s.checkpoints.Keys);
    hide HistoryInv, FloorInv, RefsInv, Retained, Superseded, LiveCursors, Referenced, WithoutOwners, OwnedDigests, PlanTx;
    var k := RowsSplit(s.log, s.floor.compactedThrough, below);
    k := if below == 0 then 0 else k;
    assert RemovedRows(s.log, below) == s.log[..k] && t.log == s.log[k..];
    RemovalKeepsRefs(h, s, t, k, Superseded(s.checkpoints.Keys));
  }

  // Removing the first rows of the log and some checkpoints, with exactly their references.
  lemma RemovalKeepsRefs(h: PayloadHash, s: Store, t: Store, k: nat, gone: set<nat>)
    requires HistoryInv(h, s) && RefsInv(s) && k <= |s.log|
    requires t.log == s.log[k..] && t.checkpoints == s.checkpoints - gone
    requires var owners := CheckpointOwners(gone) + OperationOwners(s.log[..k]);
      && t.refs == WithoutOwners(s.refs, owners)
      && t.deleting == s.deleting + (OwnedDigests(s.refs, owners) - Referenced(t.refs))
    ensures RefsInv(t) && t.refs <= s.refs
  {
    hide HistoryInv;
    forall i, j | 0 <= i < k <= j < |s.log| ensures s.log[i].entry.operationId != s.log[j].entry.operationId {
      LoggedIdsDiffer(h, s, i, j);
    }
    OperationUsesRemoved(s.log, s.refs, k, CheckpointOwners(gone));
    CheckpointUsesRemoved(s.checkpoints, s.refs, gone, OperationOwners(s.log[..k]));
    hide OperationUses, CheckpointUses;
    OrphansAreUnreferenced(s, t, CheckpointOwners(gone) + OperationOwners(s.log[..k]));
  }

  // Marking the digests that lost their last reference marks nothing that is still referenced.
  lemma OrphansAreUnreferenced(s: Store, t: Store, owners: set<ChunkOwner>)
    requires MarksInv(s) && t.refs == WithoutOwners(s.refs, owners)
    requires t.deleting == s.deleting + (OwnedDigests(s.refs, owners) - Referenced(t.refs))
    ensures MarksInv(t) && t.refs <= s.refs
  {
    forall use | use in t.refs ensures use.digest !in t.deleting {
      assert use.digest in Referenced(t.refs);
    }
  }

  /**
  Planning never fails, keeps every invariant, only raises the floor, and marks exactly the
  digests whose last reference it removed.
  */
  lemma PlanKeepsInv(h: PayloadHash, s: Store, now: nat, idle: nat)
    requires StoreInv(h, s)
    ensures var tx := PlanTx(s, now, idle);
      && tx.outcome.Ok? && StoreInv(h, tx.store)
      && s.floor.compactedThrough <= tx.store.floor.compactedThrough
      && tx.store.history == s.history && tx.store.marker == s.marker
      && tx.store.refs <= s.refs
      && tx.store.deleting == s.deleting + (Referenced(s.refs) - Referenced(tx.store.refs))
      && tx.outcome.value.deleting == tx.store.deleting
  {
    var below := PlanBounds(s, now, idle);
    PlanKeepsFloor(s, now, idle);
    PlanKeepsHistory(h, s, now, idle);
    PlanKeepsRefs(h, s, now, idle);
    PlanMarks(s, now, idle);
  }

  /**
  A compaction removes no operation a live device has still to pull: when the floor rises, every
  cursor that did not expire is at or above it. It reports exactly what it removed.
  */
  lemma PlanRemovesOnlyAcknowledged(h: PayloadHash, s: Store, now: nat, idle: nat)
    requires StoreInv(h, s)
    ensures var t := PlanTx(s, now, idle).store;
      && (t.log != s.log ==> t.cursors != map[] && t.floor.compactedThrough > s.floor.compactedThrough)
      && (t.floor.compactedThrough > s.floor.compactedThrough ==>
            forall d :: d in t.cursors ==> t.floor.compactedThrough <= t.cursors[d].acknowledged)
      && (forall d :: d in t.cursors <==> d in s.cursors && s.cursors[d].updatedAt + idle >= now)
      && (forall d :: d in t.cursors ==> t.cursors[d] == s.cursors[d])
    ensures var t := PlanTx(s, now, idle).store; var plan := PlanTx(s, now, idle).outcome.value;
      && plan.expiredDevices == |s.cursors.Keys| - |t.cursors.Keys|
      && plan.removedCheckpoints == |s.checkpoints.Keys| - |t.checkpoints.Keys|
      && plan.removedOperations == |s.log| - |t.log|
  {
    var below := PlanBounds(s, now, idle);
    assert LogMatches(s);
    hide HistoryInv, RefsInv, UsageInv, SealInv, FloorInv, Retained;
    var t := PlanTx(s, now, idle).store;
    var cursors := LiveCursors(s, now, idle);
    PlanReports(s, now, idle, below);
    if below > 0 {
      assert Acknowledgements(cursors) != {} && below <= MinOf(Acknowledgements(cursors));
      forall d | d in cursors ensures below <= cursors[d].acknowledged {
        assert cursors[d].acknowledged in Acknowledgements(cursors);
      }
    }
  }

  /**
  A compaction goes as far as it may: when a checkpoint is stored and a device is live, every row
  that stays is still needed, by a retained checkpoint or a live cursor below it. A floor that
  rises is the old one or that limit, and names the greatest stored checkpoint.
  */
  lemma PlanCompactsFully(h: PayloadHash, s: Store, now: nat, idle: nat)
    requires StoreInv(h, s)
    ensures var t := PlanTx(s, now, idle).store;
      && (t.checkpoints.Keys != {} && t.cursors != map[] ==>
            forall row :: row in t.log ==>
              (exists c :: c in t.checkpoints.Keys && c < row.serverSequence) ||
              (exists d :: d in t.cursors && t.cursors[d].acknowledged < row.serverSequence))
      && (t.floor != s.floor ==>
            s.checkpoints.Keys != {} && t.floor.checkpointServerSequence == MaxOf(s.checkpoints.Keys) &&
            (t.floor.compactedThrough == s.floor.compactedThrough || t.floor.compactedThrough in t.checkpoints.Keys ||
             exists d :: d in t.cursors && t.cursors[d].acknowledged == t.floor.compactedThrough))
  {
    var below := PlanBounds(s, now, idle);
    PlanIs(s, now, idle, below);
    KeptKeys(s.checkpoints.Keys);
    assert LogMatches(s);
    var t := PlanTx(s, now, idle).store;
    PlannedFloorIs(s, now, idle, below);
    LimitIsReached(s.checkpoints.Keys, t.cursors);
    RemainingAreAbove(s.log, s.floor.compactedThrough, below);
    hide *;
  }

  lemma PlannedFloorIs(s: Store, now: nat, idle: nat, below: nat)
    requires below == CompactBelow(s.checkpoints.Keys, LiveCursors(s, now, idle))
    requires PlanTx(s, now, idle).outcome.Ok?
    ensures var t := PlanTx(s, now, idle).store;
      && t.floor.compactedThrough == Max(s.floor.compactedThrough, below)
      && (below == 0 ==> t.floor == s.floor)
      && (below > 0 ==> Retained(s.checkpoints.Keys) != {} && t.floor.checkpointServerSequence == MaxOf(Retained(s.checkpoints.Keys)))
  {
    hide Superseded, LiveCursors, RemovedRows, RowsAbove, WithoutOwners, OwnedDigests, Referenced, Retained;
  }

  // The limit of a compaction is one of the retained checkpoints or live acknowledgements.
  lemma LimitIsReached(keys: set<nat>, cursors: map<DeviceId, Cursor>)
    ensures Retained(keys) != {} && cursors != map[] ==>
      CompactBelow(keys, cursors) in Retained(keys) ||
      exists d :: d in cursors && cursors[d].acknowledged == CompactBelow(keys, cursors)
    ensures CompactBelow(keys, cursors) > 0 ==> Retained(keys) != {} && cursors != map[]
  {
    if d :| d in cursors { assert cursors[d].acknowledged in Acknowledgements(cursors); }
  }

  lemma RemainingAreAbove(log: seq<LogRow>, from: nat, n: nat)
    requires forall i :: 0 <= i < |log| ==> log[i].serverSequence == from + i + 1
    ensures forall row :: row in RowsAbove(log, n) ==> row.serverSequence > n
    ensures forall row :: row in log ==> row.serverSequence > 0
  {
    var k := RowsSplit(log, from, n);
  }

  lemma PlanReports(s: Store, now: nat, idle: nat, below: nat)
    requires below == CompactBelow(s.checkpoints.Keys, LiveCursors(s, now, idle))
    requires LogMatches(s) && PlanTx(s, now, idle).outcome.Ok?
    ensures var t := PlanTx(s, now, idle).store; var plan := PlanTx(s, now, idle).outcome.value;
      && plan.expiredDevices == |s.cursors.Keys| - |t.cursors.Keys|
      && plan.removedCheckpoints == |s.checkpoints.Keys| - |t.checkpoints.Keys|
      && plan.removedOperations == |s.log| - |t.log|
      && (t.log != s.log ==> below > s.floor.compactedThrough)
  {
    PlanIs(s, now, idle, below);
    LogSplit(s, below);
    LiveAreStored(s, now, idle);
    SupersededAreKeys(s.checkpoints.Keys);
    hide *;
    var t := PlanTx(s, now, idle).store;
    Removed(s.cursors.Keys, t.cursors.Keys);
    Removed(s.checkpoints.Keys, t.checkpoints.Keys);
  }

  lemma PlanIs(s: Store, now: nat, idle: nat, below: nat)
    requires below == CompactBelow(s.checkpoints.Keys, LiveCursors(s, now, idle))
    requires PlanTx(s, now, idle).outcome.Ok?
    ensures var t := PlanTx(s, now, idle).store; var plan := PlanTx(s, now, idle).outcome.value;
      && t.cursors == LiveCursors(s, now, idle) && plan.expiredDevices == |s.cursors.Keys - t.cursors.Keys|
      && t.checkpoints.Keys == s.checkpoints.Keys - Superseded(s.checkpoints.Keys)
      && plan.removedCheckpoints == |Superseded(s.checkpoints.Keys)|
      && t.log == (if below == 0 then s.log else RowsAbove(s.log, below))
      && plan.removedOperations == |RemovedRows(s.log, below)|
      && var owners := RemovedOwners(s.checkpoints.Keys, s.log, below);
         t.refs == WithoutOwners(s.refs, owners) &&
         t.deleting == s.deleting + (OwnedDigests(s.refs, owners) - Referenced(t.refs))
  {
    hide Superseded, LiveCursors, RemovedRows, CompactBelow, RowsAbove, WithoutOwners, OwnedDigests, Referenced;
  }

  lemma SupersededAreKeys(keys: set<nat>)
    ensures Superseded(keys) == keys - (keys - Superseded(keys))
  {
  }

  // What goes and what stays of the log are as many rows as there were.
  lemma LogSplit(s: Store, below: nat)
    requires LogMatches(s)
    ensures var kept := if below == 0 then s.log else RowsAbove(s.log, below);
      |RemovedRows(s.log, below)| + |kept| == |s.log| && (kept != s.log ==> below > s.floor.compactedThrough)
  {
    if below > 0 {
      var k := RowsSplit(s.log, s.floor.compactedThrough, below);
    }
  }

  lemma Removed<T>(a: set<T>, b: set<T>)
    requires b <= a
    ensures |a - b| == |a| - |b|
  {
    assert a == b + (a - b);
  }

  lemma PlanMarks(s: Store, now: nat, idle: nat)
    requires PlanTx(s, now, idle).outcome.Ok?
    ensures PlanTx(s, now, idle).store.deleting ==
      s.deleting + (Referenced(s.refs) - Referenced(PlanTx(s, now, idle).store.refs))
  {
    OwnedOrKept(s.refs, RemovedOwners(s.checkpoints.Keys, s.log, CompactBelow(s.checkpoints.Keys, LiveCursors(s, now, idle))));
  }

  lemma OwnedOrKept(refs: set<ChunkUse>, owners: set<ChunkOwner>)
    ensures OwnedDigests(refs, owners) - Referenced(WithoutOwners(refs, owners)) ==
            Referenced(refs) - Referenced(WithoutOwners(refs, owners))
  {
    forall d | d in Referenced(refs) - Referenced(WithoutOwners(refs, owners)) ensures d in OwnedDigests(refs, owners) {
      var use :| use in refs && use.digest == d;
      if use.owner !in owners { assert use in WithoutOwners(refs, owners); }
    }
  }
}
