/**
The workspace durable object: its tables as fields updated in place, each transaction proved
against its function on tables. A transaction that fails restores the tables it began with.
*/
module SyncObject {
  import opened Wrappers
  import opened ContentManifests
  import opened SyncContracts
  import opened SyncStore
  import opened SyncInvariants
  import opened SyncProtocol
  import opened SyncPull

  datatype PushFailure = ContentUnavailable(missing: set<Digest>) | Refused(error: SyncError)

  lemma OwnersStep(refs: set<ChunkUse>, owners: set<ChunkOwner>, owner: ChunkOwner)
    ensures WithoutOwners(WithoutOwners(refs, owners), {owner}) == WithoutOwners(refs, owners + {owner})
    ensures OwnedDigests(refs, owners) + OwnedDigests(WithoutOwners(refs, owners), {owner}) ==
            OwnedDigests(refs, owners + {owner})
  {
    forall d | d in OwnedDigests(refs, owners + {owner})
      ensures d in OwnedDigests(refs, owners) + OwnedDigests(WithoutOwners(refs, owners), {owner})
    {
      var use :| use in refs && use.owner in owners + {owner} && use.digest == d;
      if use.owner !in owners { assert use in WithoutOwners(refs, owners); }
    }
  }

  lemma OperationOwnersStep(rows: seq<LogRow>, i: nat)
    requires i < |rows|
    ensures OperationOwners(rows[..i + 1]) == OperationOwners(rows[..i]) + {OperationOwner(rows[i].entry.operationId)}
  {
    assert rows[..i + 1] == rows[..i] + [rows[i]];
  }

  // Some of these operations needs the digest.
  ghost predicate BatchNeeds(ops: seq<ClientOperation>, d: Digest) {
    exists op :: op in ops && Needs(op.payload, d)
  }

  lemma {:induction false} DigestsOfMore(manifests: seq<ContentManifest>, m: ContentManifest)
    ensures DigestsOf(manifests + [m]) == DigestsOf(manifests) + ManifestDigests(m)
  {
    if manifests == [] {
      assert [m][1..] == [];
    } else {
      DigestsOfMore(manifests[1..], m);
      assert (manifests + [m])[1..] == manifests[1..] + [m];
    }
  }

  lemma BatchNeedsMore(ops: seq<ClientOperation>, op: ClientOperation, d: Digest)
    ensures BatchNeeds(ops + [op], d) <==> BatchNeeds(ops, d) || Needs(op.payload, d)
  {
    hide Needs;
    assert forall o :: o in ops + [op] <==> o in ops || o == op;
  }

  class WorkspaceSyncObject {
    const sha256: PayloadHash

    var log: seq<LogRow>
    var highWater: nat
    var index: seq<IndexRow>
    var heads: map<DeviceId, nat>
    var refs: set<ChunkUse>
    var checkpoints: map<nat, CheckpointRecord>
    var cursors: map<DeviceId, Cursor>
    var floor: LogFloor
    var deleting: set<Digest>
    var sizes: map<Digest, nat>
    var usage: nat
    var marker: Option<EncryptionMarker>
    ghost var history: seq<Entry>

    ghost function State(): Store
      reads this
    {
      Store(log, highWater, index, heads, refs, checkpoints, cursors, floor, deleting, sizes, usage, marker, history)
    }

    constructor (sha256: PayloadHash)
      ensures this.sha256 == sha256 && State() == FRESH
    {
      this.sha256 := sha256;
      log, highWater, index, heads := [], 0, [], map[];
      refs, checkpoints, cursors := {}, map[], map[];
      floor, deleting, sizes, usage := LogFloor(0, 0), {}, map[], 0;
      marker, history := None, [];
    }

    /* ---------- Encryption ---------- */

    method AdmitSealState(seal: Option<Seal>, allowForeignKey: bool, now: nat) returns (r: Result<(), SyncError>)
      modifies this`marker
      ensures match AdmitSeal(old(marker), Latest(log, highWater), seal, allowForeignKey, now)
              case Ok(admitted) => r == Ok(()) && marker == admitted
              case Err(error) => r == Err(error) && marker == old(marker)
    {
      if seal.None? {
        return if marker.Some? then Err(WorkspaceEncrypted) else Ok(());
      }
      var keyIds := seal.value.keyIds;
      var keyId: Option<KeyId> :=
        if marker.Some? then Some(marker.value.keyId) else if keyIds != [] then Some(keyIds[0]) else None;
      if !allowForeignKey && keyId.Some? && !AllKeysAre(keyIds, keyId.value) {
        return Err(EncryptionKeyMismatch);
      }
      if marker.None? && keyId.Some? {
        marker := Some(EncryptionMarker(seal.value.scheme, keyId.value, Latest(log, highWater), now));
      }
      return Ok(());
    }

    method ClaimWorkspaceEncryption(scheme: string, keyId: KeyId, now: nat) returns (r: Result<EncryptionMarker, SyncError>)
      modifies this`marker
      ensures State() == ClaimTx(old(State()), scheme, keyId, now).store
      ensures r == ClaimTx(old(State()), scheme, keyId, now).outcome
    {
      var admitted := AdmitSealState(Some(Seal(scheme, [keyId])), true, now);
      return Ok(marker.value);
    }

    /* ---------- Push ---------- */

    // INSERT OR IGNORE INTO sync_chunk_refs, one digest at a time.
    method InsertUses(digests: set<Digest>, owner: ChunkOwner)
      modifies this`refs
      ensures refs == old(refs) + Uses(digests, owner)
    {
      var todo := digests;
      while todo != {}
        invariant todo <= digests
        invariant refs == old(refs) + Uses(digests - todo, owner)
      {
        var digest :| digest in todo;
        refs := refs + {ChunkUse(digest, owner)};
        todo := todo - {digest};
      }
      assert digests - todo == digests;
    }

    method InsertOperation(e: Entry) returns (serverSequence: nat)
      modifies `log, `highWater, `index, `heads, `refs, `history
      ensures State() == Append(sha256, old(State()), old(marker), e)
      ensures serverSequence == Latest(old(log), old(highWater)) + 1
    {
      hide PayloadDigests, IndexRowOf, Uses, Latest;
      serverSequence := Latest(log, highWater) + 1;
      log := log + [LogRow(serverSequence, e)];
      highWater := serverSequence;
      index := index + [IndexRowOf(sha256, e, serverSequence)];
      heads := heads[e.deviceId := e.clientSequence];
      InsertUses(PayloadDigests(e.payload), OperationOwner(e.operationId));
      history := history + [e];
    }

    // One operation inside the push transaction. After an error the caller rolls back.
    method CommitOperation(device: DeviceId, op: ClientOperation, now: nat) returns (r: Result<Accepted, SyncError>)
      modifies `log, `highWater, `index, `heads, `refs, `marker, `history
      ensures match CommitOne(sha256, old(State()), device, op, now)
              case Ok((next, answer)) => State() == next && r == Ok(answer)
              case Err(error) => r == Err(error)
    {
      var e := EntryOf(device, op);
      var existing := FindLogged(log, op.operationId);
      if existing.Some? {
        if existing.value.entry != e {
          return Err(OperationReused(op.operationId));
        }
        return Ok(Accepted(op.operationId, op.clientSequence, existing.value.serverSequence));
      }
      var indexed := FindIndexed(index, op.operationId, device, op.clientSequence);
      if indexed.Some? {
        if !IdenticalIndexed(sha256, indexed.value, e) {
          return Err(OperationReused(op.operationId));
        }
        return Ok(Accepted(op.operationId, op.clientSequence, indexed.value.serverSequence));
      }
      var admitted := AdmitSealState(PayloadSeal(op.payload), false, now);
      if admitted.Err? {
        return Err(admitted.error);
      }
      var latest := Latest(log, highWater);
      if op.baseServerSequence > latest {
        return Err(BaseAheadOfWorkspace);
      }
      var current := Head(heads, device);
      if op.clientSequence != current + 1 {
        return Err(UnexpectedClientSequence(current + 1, op.clientSequence));
      }
      var removing := PayloadDigests(op.payload) * deleting;
      if removing != {} {
        return Err(ContentBeingRemoved(removing));
      }
      if !UniqueInLog(log, e) || !UniqueInIndex(index, e) {
        return Err(UniqueConstraintFailed);
      }
      var serverSequence := InsertOperation(e);
      return Ok(Accepted(op.operationId, op.clientSequence, serverSequence));
    }

    // The batch, operation by operation. After an error the caller rolls back.
    method CommitBatch(device: DeviceId, ops: seq<ClientOperation>, now: nat) returns (r: Result<seq<Accepted>, SyncError>)
      modifies `log, `highWater, `index, `heads, `refs, `marker, `history
      ensures match CommitFrom(sha256, old(State()), device, ops, now, 0, [])
              case Ok((next, answers)) => State() == next && r == Ok(answers)
              case Err(error) => r == Err(error)
    {
      var accepted: seq<Accepted> := [];
      for i := 0 to |ops|
        invariant CommitFrom(sha256, old(State()), device, ops, now, 0, []) ==
                  CommitFrom(sha256, State(), device, ops, now, i, accepted)
      {
        var answer := CommitOperation(device, ops[i], now);
        if answer.Err? {
          return Err(answer.error);
        }
        accepted := accepted + [answer.value];
      }
      return Ok(accepted);
    }

    /** A rejected batch leaves every table as it was, the marker included. */
    method PushTransaction(device: DeviceId, ops: seq<ClientOperation>, now: nat) returns (r: Result<PushResponse, SyncError>)
      modifies `log, `highWater, `index, `heads, `refs, `marker, `history
      ensures State() == PushTx(sha256, old(State()), device, ops, now).store
      ensures r == PushTx(sha256, old(State()), device, ops, now).outcome
    {
      hide CommitFrom;
      var log0, highWater0, index0, heads0, refs0, marker0 := log, highWater, index, heads, refs, marker;
      ghost var history0 := history;
      var answers := CommitBatch(device, ops, now);
      if answers.Err? {
        log, highWater, index, heads, refs, marker := log0, highWater0, index0, heads0, refs0, marker0;
        history := history0;
        return Err(answers.error);
      }
      return Ok(PushResponse(answers.value, Latest(log, highWater)));
    }

    /** The chunks these operations carry that are not stored, operation by operation and manifest by manifest. */
    method MissingPushContent(ops: seq<ClientOperation>, stored: set<Digest>) returns (missing: set<Digest>)
      ensures forall d :: d in missing <==> BatchNeeds(ops, d) && d !in stored
    {
      missing := {};
      hide Needs, PayloadDigests, BatchNeeds;
      assert forall d :: !BatchNeeds([], d) by { NothingNeeded(); }
      for i := 0 to |ops|
        invariant forall d :: d in missing <==> BatchNeeds(ops[..i], d) && d !in stored
      {
        var content := MissingFrom(ReferencedManifests(ops[i].payload), stored);
        assert ops[..i + 1] == ops[..i] + [ops[i]];
        forall d ensures BatchNeeds(ops[..i + 1], d) <==> BatchNeeds(ops[..i], d) || d in PayloadDigests(ops[i].payload) {
          BatchNeedsMore(ops[..i], ops[i], d);
          PayloadDigestsAreNeeded(ops[i].payload, d);
        }
        assert PayloadDigests(ops[i].payload) == DigestsOf(ReferencedManifests(ops[i].payload)) by { DigestsOfPayload(ops[i].payload); }
        missing := missing + content;
      }
      assert ops[..|ops|] == ops;
    }

    method MissingFrom(manifests: seq<ContentManifest>, stored: set<Digest>) returns (missing: set<Digest>)
      ensures missing == DigestsOf(manifests) - stored
    {
      missing := {};
      for k := 0 to |manifests|
        invariant missing == DigestsOf(manifests[..k]) - stored
      {
        DigestsOfMore(manifests[..k], manifests[k]);
        assert manifests[..k + 1] == manifests[..k] + [manifests[k]];
        missing := missing + (ManifestDigests(manifests[k]) - stored);
      }
      assert manifests[..|manifests|] == manifests;
    }

    /**
    A push: operations the index already answers are not probed, a chunk missing for any other is
    reported with all that are, and then nothing changes; otherwise the batch is the transaction's.
    */
    method PushOperations(device: DeviceId, ops: seq<ClientOperation>, stored: set<Digest>, now: nat)
      returns (r: Result<PushResponse, PushFailure>)
      modifies `log, `highWater, `index, `heads, `refs, `marker, `history
      ensures (exists d :: PendingNeeds(sha256, old(State()), device, ops, 0, d) && d !in stored) ==>
        && State() == old(State()) && r.Err? && r.error.ContentUnavailable?
        && forall d :: d in r.error.missing <==> PendingNeeds(sha256, old(State()), device, ops, 0, d) && d !in stored
      ensures (forall d :: PendingNeeds(sha256, old(State()), device, ops, 0, d) ==> d in stored) ==>
        && State() == PushTx(sha256, old(State()), device, ops, now).store
        && match PushTx(sha256, old(State()), device, ops, now).outcome
           case Ok(response) => r == Ok(response)
           case Err(error) => r == Err(Refused(error))
    {
      var pending := Unanswered(device, ops);
      var missing := MissingPushContent(pending, stored);
      if missing != {} {
        return Err(ContentUnavailable(missing));
      }
      var response := PushTransaction(device, ops, now);
      return if response.Ok? then Ok(response.value) else Err(Refused(response.error));
    }

    // The operations of a batch that the index does not answer.
    method Unanswered(device: DeviceId, ops: seq<ClientOperation>) returns (pending: seq<ClientOperation>)
      ensures forall d :: BatchNeeds(pending, d) <==> PendingNeeds(sha256, State(), device, ops, 0, d)
    {
      pending := [];
      for i := 0 to |ops|
        invariant forall op :: op in pending <==> op in ops[..i] && !IsIndexedIdentical(sha256, State(), device, op)
      {
        if !IsIndexed(device, ops[i]) {
          pending := pending + [ops[i]];
        }
      }
      assert ops[..|ops|] == ops;
      PendingNeedsAre(sha256, State(), device, ops, pending);
    }

    predicate IsIndexed(device: DeviceId, op: ClientOperation): (identical: bool)
      reads this
      ensures identical <==> IsIndexedIdentical(sha256, State(), device, op)
    {
      var row := FindIndexed(index, op.operationId, device, op.clientSequence);
      row.Some? && IdenticalIndexed(sha256, row.value, EntryOf(device, op))
    }

    /* ---------- Pull ---------- */

    method PullOperations(afterServerSequence: nat, limit: nat, size: RowBytes) returns (r: PullResult)
      ensures Pulls(State(), afterServerSequence, limit, size, r)
      ensures r.InvalidPull? <==> afterServerSequence > 9007199254740991 || limit == 0 || limit > 256
    {
      if afterServerSequence > MAX_SAFE_INTEGER || limit < 1 || limit > MAX_SYNC_PULL_OPERATIONS {
        return InvalidPull;
      }
      if afterServerSequence < floor.compactedThrough {
        return LogTruncated(floor.compactedThrough, floor.checkpointServerSequence);
      }
      var rows := FirstRows(RowsAbove(log, afterServerSequence), limit);
      var latest := Latest(log, highWater);
      var operations: seq<LogRow> := [];
      var pageBytes := EnvelopeBytes(latest);
      for i := 0 to |rows|
        invariant operations == rows[..i]
        invariant pageBytes == BudgetedBytes(latest, size, operations)
        invariant i > 1 ==> pageBytes <= MAX_SYNC_PULL_PAGE_BYTES
      {
        var operationBytes := size(rows[i]) + 1;
        assert rows[..i + 1][..i] == rows[..i];
        if |operations| > 0 && pageBytes + operationBytes > MAX_SYNC_PULL_PAGE_BYTES {
          return Page(operations, latest);
        }
        operations := operations + [rows[i]];
        pageBytes := pageBytes + operationBytes;
        assert operations == rows[..i + 1];
      }
      return Page(operations, latest);
    }

    /* ---------- Cursors, checkpoints, uploads ---------- */

    method AcknowledgeOperations(device: DeviceId, sequence: nat, now: nat) returns (r: Option<nat>)
      modifies this`cursors
      ensures (State(), r) == AcknowledgeTx(old(State()), device, sequence, now)
    {
      if sequence > Latest(log, highWater) {
        return None;
      }
      var acknowledged := if device in cursors then Max(cursors[device].acknowledged, sequence) else sequence;
      cursors := cursors[device := Cursor(acknowledged, now)];
      return Some(acknowledged);
    }

    method PublishTransaction(c: CheckpointRecord, now: nat) returns (r: Result<nat, SyncError>)
      modifies this
      ensures State() == PublishTx(old(State()), c, now).store
      ensures r == PublishTx(old(State()), c, now).outcome
    {
      if c.serverSequence < floor.compactedThrough {
        return Err(CheckpointBelowFloor);
      }
      var digests := ManifestDigests(c.content);
      if digests * deleting != {} {
        return Err(ContentBeingRemoved(digests * deleting));
      }
      var admitted := AdmitSealState(CheckpointSealState(c), false, now);
      if admitted.Err? {
        return Err(admitted.error);
      }
      checkpoints := checkpoints[c.serverSequence := c];
      InsertUses(digests, CheckpointOwner(c.serverSequence));
      return Ok(c.serverSequence);
    }

    method LatestCheckpoint() returns (r: Option<CheckpointRecord>)
      ensures r.None? <==> checkpoints.Keys == {}
      ensures r.Some? ==>
        exists k :: k in checkpoints.Keys && r.value == checkpoints[k] && forall j :: j in checkpoints.Keys ==> j <= k
    {
      if checkpoints.Keys == {} {
        return None;
      }
      return Some(checkpoints[MaxOf(checkpoints.Keys)]);
    }

    method RecordChunkUpload(d: Digest, size: nat) returns (total: nat)
      modifies this`sizes, this`usage
      ensures State() == RecordTx(old(State()), d, size)
      ensures total == usage
    {
      if d !in sizes {
        sizes := sizes[d := size];
        usage := usage + size;
      }
      return usage;
    }

    /* ---------- Compaction ---------- */

    // Drops one owner's references and collects the digests they named.
    method ReleaseOwner(owner: ChunkOwner, into: set<Digest>) returns (candidates: set<Digest>)
      modifies this`refs
      ensures refs == WithoutOwners(old(refs), {owner})
      ensures candidates == into + OwnedDigests(old(refs), {owner})
    {
      candidates := into + OwnedDigests(refs, {owner});
      refs := WithoutOwners(refs, {owner});
    }

    method ReleaseCheckpoints(superseded: set<nat>) returns (candidates: set<Digest>)
      modifies this`refs
      ensures refs == WithoutOwners(old(refs), CheckpointOwners(superseded))
      ensures candidates == OwnedDigests(old(refs), CheckpointOwners(superseded))
    {
      candidates := {};
      var todo := superseded;
      assert CheckpointOwners({}) == {};
      while todo != {}
        invariant todo <= superseded
        invariant refs == WithoutOwners(old(refs), CheckpointOwners(superseded - todo))
        invariant candidates == OwnedDigests(old(refs), CheckpointOwners(superseded - todo))
      {
        var k :| k in todo;
        OwnersStep(old(refs), CheckpointOwners(superseded - todo), CheckpointOwner(k));
        assert CheckpointOwners(superseded - (todo - {k})) == CheckpointOwners(superseded - todo) + {CheckpointOwner(k)};
        candidates := ReleaseOwner(CheckpointOwner(k), candidates);
        todo := todo - {k};
      }
      assert superseded - todo == superseded;
    }

    method ReleaseOperations(rows: seq<LogRow>, before: set<Digest>) returns (candidates: set<Digest>)
      modifies this`refs
      ensures refs == WithoutOwners(old(refs), OperationOwners(rows))
      ensures candidates == before + OwnedDigests(old(refs), OperationOwners(rows))
    {
      candidates := before;
      for i := 0 to |rows|
        invariant refs == WithoutOwners(old(refs), OperationOwners(rows[..i]))
        invariant candidates == before + OwnedDigests(old(refs), OperationOwners(rows[..i]))
      {
        OwnersStep(old(refs), OperationOwners(rows[..i]), OperationOwner(rows[i].entry.operationId));
        OperationOwnersStep(rows, i);
        candidates := ReleaseOwner(OperationOwner(rows[i].entry.operationId), candidates);
      }
      assert rows[..|rows|] == rows;
    }

    // Drops the references of every removed checkpoint and operation.
    method ReleaseRemoved(superseded: set<nat>, removed: seq<LogRow>) returns (candidates: set<Digest>)
      modifies this`refs
      ensures refs == WithoutOwners(old(refs), CheckpointOwners(superseded) + OperationOwners(removed))
      ensures candidates == OwnedDigests(old(refs), CheckpointOwners(superseded) + OperationOwners(removed))
    {
      ReleasedInTwo(refs, CheckpointOwners(superseded), OperationOwners(removed));
      candidates := ReleaseCheckpoints(superseded);
      candidates := ReleaseOperations(removed, candidates);
    }

    // Removes the superseded checkpoints and the log through `below`, with their references.
    method RemoveSuperseded(below: nat) returns (removed: seq<LogRow>, candidates: set<Digest>)
      modifies `log, `refs, `checkpoints
      ensures removed == RemovedRows(old(log), below)
      ensures log == if below == 0 then old(log) else RowsAbove(old(log), below)
      ensures checkpoints == old(checkpoints) - Superseded(old(checkpoints).Keys)
      ensures refs == WithoutOwners(old(refs), RemovedOwners(old(checkpoints).Keys, old(log), below))
      ensures candidates == OwnedDigests(old(refs), RemovedOwners(old(checkpoints).Keys, old(log), below))
    {
      var superseded := Superseded(checkpoints.Keys);
      checkpoints := checkpoints - superseded;
      removed := [];
      if below > 0 {
        removed := RowsThrough(log, below);
        log := RowsAbove(log, below);
      }
      candidates := ReleaseRemoved(superseded, removed);
    }

    // Marks the candidates nothing refers to any more.
    method MarkOrphans(candidates: set<Digest>)
      modifies this`deleting
      ensures deleting == old(deleting) + (candidates - Referenced(refs))
    {
      var todo := candidates;
      while todo != {}
        invariant todo <= candidates
        invariant deleting == old(deleting) + ((candidates - todo) - Referenced(refs))
      {
        var digest :| digest in todo;
        if digest !in Referenced(refs) {
          deleting := deleting + {digest};
        }
        todo := todo - {digest};
      }
      assert candidates - todo == candidates;
    }

    // False is the throw: the floor would pass the oldest retained checkpoint.
    method RaiseLogFloor(compactedThrough: nat, checkpoint: nat, oldestRetained: nat) returns (ok: bool)
      modifies this`floor
      ensures floor == RaisedFloor(old(floor), compactedThrough, checkpoint)
      ensures ok <==> floor.compactedThrough <= oldestRetained
    {
      floor := LogFloor(Max(floor.compactedThrough, compactedThrough), checkpoint);
      ok := !(floor.compactedThrough > oldestRetained);
    }

    // Expires idle cursors and picks the sequence the log is removable through.
    method ChooseCompaction(now: nat, idle: nat) returns (expired: nat, compactBelow: nat)
      modifies `cursors
      ensures cursors == LiveCursors(old(State()), now, idle)
      ensures expired == |old(cursors).Keys - cursors.Keys|
      ensures compactBelow == CompactBelow(checkpoints.Keys, cursors)
    {
      expired := |cursors.Keys - ExpireCursors(cursors, if now < idle then 0 else now - idle).Keys|;
      cursors := ExpireCursors(cursors, if now < idle then 0 else now - idle);
      compactBelow := Min(LeastOrZero(Retained(checkpoints.Keys)), LeastOrZero(Acknowledgements(cursors)));
    }

    // Removes what is superseded, raises the floor, marks the orphans; false is the floor's throw.
    method CompactThrough(below: nat) returns (removed: nat, ok: bool)
      requires below > 0 ==> Retained(checkpoints.Keys) != {}
      modifies `log, `refs, `checkpoints, `floor, `deleting
      ensures removed == |RemovedRows(old(log), below)|
      ensures ok <==>
        (below > 0 ==> PlannedFloor(old(State()), below).compactedThrough <= MinOf(Retained(old(checkpoints).Keys)))
      ensures ok ==> State() == Compacted(old(State()), cursors, below,
        RemovedOwners(old(checkpoints).Keys, old(log), below), PlannedFloor(old(State()), below))
    {
      hide Retained, Superseded, RemovedOwners, RemovedRows, WithoutOwners, OwnedDigests, Referenced;
      var retained := Retained(checkpoints.Keys);
      var rows, candidates := RemoveSuperseded(below);
      removed, ok := |rows|, true;
      if below > 0 {
        ok := RaiseLogFloor(below, MaxOf(retained), MinOf(retained));
      }
      if ok {
        MarkOrphans(candidates);
      }
    }

    // The planning steps. After an error the caller rolls back.
    method PlanSteps(now: nat, idle: nat) returns (r: Result<CompactionPlan, SyncError>)
      modifies `log, `refs, `checkpoints, `cursors, `floor, `deleting
      ensures r == PlanTx(old(State()), now, idle).outcome
      ensures r.Ok? ==> State() == PlanTx(old(State()), now, idle).store
    {
      hide Retained, Superseded, RemovedOwners, RemovedRows, LiveCursors;
      var expired, compactBelow := ChooseCompaction(now, idle);
      var superseded := |Superseded(checkpoints.Keys)|;
      var removed, ok := CompactThrough(compactBelow);
      if !ok {
        return Err(FloorAboveCheckpoint);
      }
      return Ok(CompactionPlan(expired, superseded, removed, deleting));
    }

    method PlanCompaction(now: nat, idle: nat) returns (r: Result<CompactionPlan, SyncError>)
      modifies `log, `refs, `checkpoints, `cursors, `floor, `deleting
      ensures State() == PlanTx(old(State()), now, idle).store
      ensures r == PlanTx(old(State()), now, idle).outcome
    {
      RejectedPlanChangesNothing(State(), now, idle);
      hide PlanTx;
      var log0, refs0, checkpoints0, cursors0, floor0, deleting0 := log, refs, checkpoints, cursors, floor, deleting;
      r := PlanSteps(now, idle);
      if r.Err? {
        log, refs, checkpoints, cursors, floor, deleting := log0, refs0, checkpoints0, cursors0, floor0, deleting0;
      }
    }

    // Sweep: stale listings that are neither referenced nor marked become marked.
    method MarkStaleChunks(stale: seq<Digest>) returns (marked: seq<Digest>)
      modifies this`deleting
      ensures State() == MarkStaleTx(old(State()), Elements(stale)).0
      ensures Elements(marked) == MarkStaleTx(old(State()), Elements(stale)).1
    {
      marked := [];
      for i := 0 to |stale|
        invariant deleting == old(deleting) + Elements(marked)
        invariant Elements(marked) == Elements(stale[..i]) - Referenced(refs) - old(deleting)
      {
        assert stale[..i + 1] == stale[..i] + [stale[i]];
        assert Elements(stale[..i + 1]) == Elements(stale[..i]) + {stale[i]};
        if stale[i] !in Referenced(refs) && stale[i] !in deleting {
          deleting := deleting + {stale[i]};
          assert Elements(marked + [stale[i]]) == Elements(marked) + {stale[i]};
          marked := marked + [stale[i]];
        }
      }
      assert stale[..|stale|] == stale;
    }

    method FinishChunkDeletion(digests: seq<Digest>)
      modifies this
      ensures State() == FinishTx(old(State()), digests)
    {
      for i := 0 to |digests|
        invariant State() == FinishTx(old(State()), digests[..i])
      {
        var digest := digests[i];
        if digest in sizes {
          usage := if usage < sizes[digest] then 0 else usage - sizes[digest];
        }
        sizes := sizes - {digest};
        deleting := deleting - {digest};
        assert digests[..i + 1][..i] == digests[..i];
      }
      assert digests[..|digests|] == digests;
    }
  }

  lemma NothingNeeded()
    ensures forall d :: !BatchNeeds([], d)
  {
  }

  lemma DigestsOfPayload(p: Payload)
    ensures PayloadDigests(p) == DigestsOf(ReferencedManifests(p))
  {
  }

  lemma PendingNeedsAre(h: PayloadHash, s: Store, device: DeviceId, ops: seq<ClientOperation>, pending: seq<ClientOperation>)
    requires forall op :: op in pending <==> op in ops && !IsIndexedIdentical(h, s, device, op)
    ensures forall d :: BatchNeeds(pending, d) <==> PendingNeeds(h, s, device, ops, 0, d)
  {
    hide Needs, IsIndexedIdentical;
    forall d ensures BatchNeeds(pending, d) <==> PendingNeeds(h, s, device, ops, 0, d) {
      if op :| op in pending && Needs(op.payload, d) {
        var j :| 0 <= j < |ops| && ops[j] == op;
      }
      if j :| 0 <= j < |ops| && !IsIndexedIdentical(h, s, device, ops[j]) && Needs(ops[j].payload, d) {
        assert ops[j] in pending;
      }
    }
  }

  lemma RejectedPlanChangesNothing(s: Store, now: nat, idle: nat)
    ensures PlanTx(s, now, idle).outcome.Err? ==> PlanTx(s, now, idle).store == s
  {
  }

  lemma ReleasedInTwo(refs: set<ChunkUse>, a: set<ChunkOwner>, b: set<ChunkOwner>)
    ensures WithoutOwners(WithoutOwners(refs, a), b) == WithoutOwners(refs, a + b)
    ensures OwnedDigests(refs, a) + OwnedDigests(WithoutOwners(refs, a), b) == OwnedDigests(refs, a + b)
  {
    forall d | d in OwnedDigests(refs, a + b) ensures d in OwnedDigests(refs, a) + OwnedDigests(WithoutOwners(refs, a), b) {
      var use :| use in refs && use.owner in a + b && use.digest == d;
      if use.owner !in a { assert use in WithoutOwners(refs, a); }
    }
  }
}
