/**
The SQL tables of one workspace and its transactions, as functions from tables to tables.

The log and the operation index are sequences in insertion order, so `SELECT ... LIMIT 1` is
the first match. `history` is the append-only record the tables are measured against; no
transaction reads it.
*/
module SyncStore {
  import opened Wrappers
  import opened ContentManifests
  import opened SyncContracts

  datatype Entry = Entry(
    operationId: OperationId,
    deviceId: DeviceId,
    clientSequence: nat,
    baseServerSequence: nat,
    payload: Payload)

  datatype LogRow = LogRow(serverSequence: nat, entry: Entry)

  datatype IndexRow = IndexRow(
    deviceId: DeviceId,
    clientSequence: nat,
    operationId: OperationId,
    serverSequence: nat,
    baseServerSequence: nat,
    payloadSha256: string)

  datatype ChunkOwner = OperationOwner(operationId: OperationId) | CheckpointOwner(serverSequence: nat)
  datatype ChunkUse = ChunkUse(digest: Digest, owner: ChunkOwner)
  datatype Cursor = Cursor(acknowledged: nat, updatedAt: nat)
  datatype LogFloor = LogFloor(compactedThrough: nat, checkpointServerSequence: nat)

  datatype Store = Store(
    log: seq<LogRow>,
    highWater: nat,
    index: seq<IndexRow>,
    heads: map<DeviceId, nat>,
    refs: set<ChunkUse>,
    checkpoints: map<nat, CheckpointRecord>,
    cursors: map<DeviceId, Cursor>,
    floor: LogFloor,
    deleting: set<Digest>,
    sizes: map<Digest, nat>,
    usage: nat,
    marker: Option<EncryptionMarker>,
    history: seq<Entry>)

  datatype SyncError =
    | OperationReused(operationId: OperationId)
    | WorkspaceEncrypted
    | EncryptionKeyMismatch
    | BaseAheadOfWorkspace
    | UnexpectedClientSequence(expected: nat, received: nat)
    | ContentBeingRemoved(digests: set<Digest>)
    | UniqueConstraintFailed
    | CheckpointBelowFloor
    | FloorAboveCheckpoint

  datatype Accepted = Accepted(operationId: OperationId, clientSequence: nat, serverSequence: nat)
  datatype PushResponse = PushResponse(accepted: seq<Accepted>, latestServerSequence: nat)
  datatype CompactionPlan = CompactionPlan(
    expiredDevices: nat, removedCheckpoints: nat, removedOperations: nat, deleting: set<Digest>)

  // A transaction answers and leaves tables behind; an error leaves the tables it found.
  datatype Tx<+T> = Tx(store: Store, outcome: Result<T, SyncError>)

  // A fresh schema-4 database.
  const FRESH: Store :=
    Store([], 0, [], map[], {}, map[], map[], LogFloor(0, 0), {}, map[], 0, None, [])

  /* ---------- Queries ---------- */

  function Max(a: nat, b: nat): nat { if a < b then b else a }

  function Min(a: nat, b: nat): nat { if a < b then a else b }

  function MaxLogged(log: seq<LogRow>): (m: nat)
    ensures forall row :: row in log ==> row.serverSequence <= m
    ensures log == [] ==> m == 0
    ensures log != [] ==> exists row :: row in log && row.serverSequence == m
  {
    if log == [] then 0 else Max(MaxLogged(log[..|log| - 1]), log[|log| - 1].serverSequence)
  }

  function Latest(log: seq<LogRow>, highWater: nat): nat {
    Max(MaxLogged(log), highWater)
  }

  // SELECT ... FROM sync_operations WHERE operation_id = ?
  function FindLogged(log: seq<LogRow>, id: OperationId): (r: Option<LogRow>)
    ensures r.Some? ==> r.value in log && r.value.entry.operationId == id
    ensures r.None? ==> forall row :: row in log ==> row.entry.operationId != id
  {
    if log == [] then None
    else if log[0].entry.operationId == id then Some(log[0])
    else FindLogged(log[1..], id)
  }

  predicate Touches(row: IndexRow, id: OperationId, device: DeviceId, client: nat) {
    row.operationId == id || (row.deviceId == device && row.clientSequence == client)
  }

  // SELECT ... FROM sync_operation_index WHERE operation_id = ? OR (device_id = ? AND client_sequence = ?)
  function FindIndexed(index: seq<IndexRow>, id: OperationId, device: DeviceId, client: nat): (r: Option<IndexRow>)
    ensures r.Some? ==> r.value in index && Touches(r.value, id, device, client)
    ensures r.None? ==> forall row :: row in index ==> !Touches(row, id, device, client)
  {
    if index == [] then None
    else if Touches(index[0], id, device, client) then Some(index[0])
    else FindIndexed(index[1..], id, device, client)
  }

  function Head(heads: map<DeviceId, nat>, device: DeviceId): nat {
    if device in heads then heads[device] else 0
  }

  function Referenced(refs: set<ChunkUse>): set<Digest> {
    set use | use in refs :: use.digest
  }

  function OwnedDigests(refs: set<ChunkUse>, owners: set<ChunkOwner>): set<Digest> {
    set use | use in refs && use.owner in owners :: use.digest
  }

  function WithoutOwners(refs: set<ChunkUse>, owners: set<ChunkOwner>): set<ChunkUse> {
    set use | use in refs && use.owner !in owners
  }

  function Uses(digests: set<Digest>, owner: ChunkOwner): set<ChunkUse> {
    set d | d in digests :: ChunkUse(d, owner)
  }

  /* ---------- Encryption marker ---------- */

  // The marker after content with this seal is admitted at log position `latest`.
  function AdmitSeal(
    marker: Option<EncryptionMarker>, latest: nat, seal: Option<Seal>, allowForeignKey: bool, now: nat)
    : Result<Option<EncryptionMarker>, SyncError>
  {
    match seal
    case None => if marker.Some? then Err(WorkspaceEncrypted) else Ok(marker)
    case Some(s) =>
      if marker.None? && s.keyIds == [] then Ok(marker)
      else
        var keyId := if marker.Some? then marker.value.keyId else s.keyIds[0];
        if !allowForeignKey && !AllKeysAre(s.keyIds, keyId) then Err(EncryptionKeyMismatch)
        else if marker.None? then Ok(Some(EncryptionMarker(s.scheme, keyId, latest, now)))
        else Ok(marker)
  }

  function ClaimTx(s: Store, scheme: string, keyId: KeyId, now: nat): Tx<EncryptionMarker> {
    match AdmitSeal(s.marker, Latest(s.log, s.highWater), Some(Seal(scheme, [keyId])), true, now)
    case Err(e) => Tx(s, Err(e))
    case Ok(marker) => Tx(s.(marker := marker), Ok(marker.value))
  }

  /* ---------- Push ---------- */

  function EntryOf(device: DeviceId, op: ClientOperation): Entry {
    Entry(op.operationId, device, op.clientSequence, op.baseServerSequence, op.payload)
  }

  function IndexRowOf(h: PayloadHash, e: Entry, serverSequence: nat): IndexRow {
    IndexRow(e.deviceId, e.clientSequence, e.operationId, serverSequence, e.baseServerSequence, h(e.payload))
  }

  predicate IdenticalIndexed(h: PayloadHash, row: IndexRow, e: Entry) {
    row == IndexRowOf(h, e, row.serverSequence)
  }

  // UNIQUE (operation_id) and UNIQUE (device_id, client_sequence) on the log and on the index.
  predicate UniqueInLog(log: seq<LogRow>, e: Entry) {
    forall row :: row in log ==>
      row.entry.operationId != e.operationId &&
      !(row.entry.deviceId == e.deviceId && row.entry.clientSequence == e.clientSequence)
  }

  predicate UniqueInIndex(index: seq<IndexRow>, e: Entry) {
    forall row :: row in index ==> !Touches(row, e.operationId, e.deviceId, e.clientSequence)
  }

  function Append(h: PayloadHash, s: Store, marker: Option<EncryptionMarker>, e: Entry): Store {
    var serverSequence := Latest(s.log, s.highWater) + 1;
    s.(log := s.log + [LogRow(serverSequence, e)],
       highWater := serverSequence,
       index := s.index + [IndexRowOf(h, e, serverSequence)],
       heads := s.heads[e.deviceId := e.clientSequence],
       refs := s.refs + Uses(PayloadDigests(e.payload), OperationOwner(e.operationId)),
       marker := marker,
       history := s.history + [e])
  }

  // An operation neither the log nor the index knows: admitted and appended, or rejected.
  function CommitNew(h: PayloadHash, s: Store, device: DeviceId, op: ClientOperation, now: nat)
    : Result<(Store, Accepted), SyncError>
  {
    var e := EntryOf(device, op);
    var latest := Latest(s.log, s.highWater);
    match AdmitSeal(s.marker, latest, PayloadSeal(op.payload), false, now)
    case Err(error) => Err(error)
    case Ok(marker) =>
      if op.baseServerSequence > latest then Err(BaseAheadOfWorkspace)
      else if op.clientSequence != Head(s.heads, device) + 1 then
        Err(UnexpectedClientSequence(Head(s.heads, device) + 1, op.clientSequence))
      else if PayloadDigests(op.payload) * s.deleting != {} then
        Err(ContentBeingRemoved(PayloadDigests(op.payload) * s.deleting))
      else if !UniqueInLog(s.log, e) || !UniqueInIndex(s.index, e) then Err(UniqueConstraintFailed)
      else Ok((Append(h, s, marker, e), Accepted(op.operationId, op.clientSequence, latest + 1)))
  }

  // An operation the log or the index knows: answered if it is identical.
  function Answer(s: Store, op: ClientOperation, identical: bool, serverSequence: nat)
    : Result<(Store, Accepted), SyncError>
  {
    if identical then Ok((s, Accepted(op.operationId, op.clientSequence, serverSequence)))
    else Err(OperationReused(op.operationId))
  }

  // One operation of a batch: answered from the log, answered from the index, or appended.
  function CommitOne(h: PayloadHash, s: Store, device: DeviceId, op: ClientOperation, now: nat)
    : Result<(Store, Accepted), SyncError>
  {
    var e := EntryOf(device, op);
    match FindLogged(s.log, op.operationId)
    case Some(row) => Answer(s, op, row.entry == e, row.serverSequence)
    case None =>
      match FindIndexed(s.index, op.operationId, device, op.clientSequence)
      case Some(row) => Answer(s, op, IdenticalIndexed(h, row, e), row.serverSequence)
      case None => CommitNew(h, s, device, op, now)
  }

  // The rest of a batch from operation `i` on, with the answers collected so far.
  function CommitFrom(
    h: PayloadHash, s: Store, device: DeviceId, ops: seq<ClientOperation>, now: nat, i: nat, accepted: seq<Accepted>)
    : Result<(Store, seq<Accepted>), SyncError>
    requires i <= |ops|
    decreases |ops| - i
  {
    if i == |ops| then Ok((s, accepted))
    else
      match CommitOne(h, s, device, ops[i], now)
      case Err(error) => Err(error)
      case Ok((next, answer)) => CommitFrom(h, next, device, ops, now, i + 1, accepted + [answer])
  }

  function PushTx(h: PayloadHash, s: Store, device: DeviceId, ops: seq<ClientOperation>, now: nat): Tx<PushResponse> {
    match CommitFrom(h, s, device, ops, now, 0, [])
    case Err(error) => Tx(s, Err(error))
    case Ok((next, accepted)) => Tx(next, Ok(PushResponse(accepted, Latest(next.log, next.highWater))))
  }

  /* ---------- Checkpoints and cursors ---------- */

  function PublishTx(s: Store, c: CheckpointRecord, now: nat): Tx<nat> {
    var digests := ManifestDigests(c.content);
    if c.serverSequence < s.floor.compactedThrough then Tx(s, Err(CheckpointBelowFloor))
    else if digests * s.deleting != {} then Tx(s, Err(ContentBeingRemoved(digests * s.deleting)))
    else
      match AdmitSeal(s.marker, Latest(s.log, s.highWater), CheckpointSealState(c), false, now)
      case Err(error) => Tx(s, Err(error))
      case Ok(marker) =>
        Tx(s.(marker := marker,
              checkpoints := s.checkpoints[c.serverSequence := c],
              refs := s.refs + Uses(digests, CheckpointOwner(c.serverSequence))),
           Ok(c.serverSequence))
  }

  // None: the sequence is ahead of the workspace and nothing is recorded.
  function AcknowledgeTx(s: Store, device: DeviceId, sequence: nat, now: nat): (Store, Option<nat>) {
    if sequence > Latest(s.log, s.highWater) then (s, None)
    else
      var acknowledged := if device in s.cursors then Max(s.cursors[device].acknowledged, sequence) else sequence;
      (s.(cursors := s.cursors[device := Cursor(acknowledged, now)]), Some(acknowledged))
  }

  /* ---------- Compaction ---------- */

  lemma {:induction false} Greatest(s: set<nat>) returns (m: nat)
    requires s != {}
    ensures m in s && forall k :: k in s ==> k <= m
  {
    var x :| x in s;
    m := x;
    if s != {x} {
      var top := Greatest(s - {x});
      assert forall k :: k in s ==> k == x || k in s - {x};
      m := Max(top, x);
    }
  }

  lemma {:induction false} Least(s: set<nat>) returns (m: nat)
    requires s != {}
    ensures m in s && forall k :: k in s ==> m <= k
  {
    var x :| x in s;
    m := x;
    if s != {x} {
      var low := Least(s - {x});
      assert forall k :: k in s ==> k == x || k in s - {x};
      m := Min(low, x);
    }
  }

  lemma HasGreatest(s: set<nat>)
    requires s != {}
    ensures exists m :: m in s && forall k :: k in s ==> k <= m
  {
    var m := Greatest(s);
  }

  lemma HasLeast(s: set<nat>)
    requires s != {}
    ensures exists m :: m in s && forall k :: k in s ==> m <= k
  {
    var m := Least(s);
  }

  function MaxOf(s: set<nat>): (m: nat)
    requires s != {}
    ensures m in s && forall k :: k in s ==> k <= m
  {
    HasGreatest(s);
    var m :| m in s && forall k :: k in s ==> k <= m;
    m
  }

  function MinOf(s: set<nat>): (m: nat)
    requires s != {}
    ensures m in s && forall k :: k in s ==> m <= k
  {
    HasLeast(s);
    var m :| m in s && forall k :: k in s ==> m <= k;
    m
  }

  // ORDER BY server_sequence DESC LIMIT 2: the keys with fewer than two keys above them.
  function Retained(keys: set<nat>): set<nat> {
    set k | k in keys && |set j | j in keys && j > k| < MAX_RETAINED_CHECKPOINTS
  }

  function Superseded(keys: set<nat>): set<nat> {
    if Retained(keys) == {} then {} else set k | k in keys && k < MinOf(Retained(keys))
  }

  function ExpireCursors(cursors: map<DeviceId, Cursor>, cutoff: nat): map<DeviceId, Cursor> {
    map d | d in cursors && cursors[d].updatedAt >= cutoff :: cursors[d]
  }

  function Acknowledgements(cursors: map<DeviceId, Cursor>): set<nat> {
    set d | d in cursors :: cursors[d].acknowledged
  }

  function LeastOrZero(s: set<nat>): nat {
    if s == {} then 0 else MinOf(s)
  }

  // The log is removable through here: hydratable from a retained checkpoint, acknowledged everywhere.
  function CompactBelow(keys: set<nat>, cursors: map<DeviceId, Cursor>): nat {
    Min(LeastOrZero(Retained(keys)), LeastOrZero(Acknowledgements(cursors)))
  }

  function RowsThrough(log: seq<LogRow>, n: nat): seq<LogRow> {
    if log == [] then []
    else if log[0].serverSequence <= n then [log[0]] + RowsThrough(log[1..], n)
    else RowsThrough(log[1..], n)
  }

  function RowsAbove(log: seq<LogRow>, n: nat): seq<LogRow> {
    if log == [] then []
    else if log[0].serverSequence <= n then RowsAbove(log[1..], n)
    else [log[0]] + RowsAbove(log[1..], n)
  }

  function CheckpointOwners(keys: set<nat>): set<ChunkOwner> {
    set k | k in keys :: CheckpointOwner(k)
  }

  function OperationOwners(rows: seq<LogRow>): set<ChunkOwner> {
    set row | row in rows :: OperationOwner(row.entry.operationId)
  }

  function RaisedFloor(floor: LogFloor, compactedThrough: nat, checkpoint: nat): LogFloor {
    LogFloor(Max(floor.compactedThrough, compactedThrough), checkpoint)
  }

  function LiveCursors(s: Store, now: nat, idle: nat): map<DeviceId, Cursor> {
    ExpireCursors(s.cursors, if now < idle then 0 else now - idle)
  }

  function RemovedRows(log: seq<LogRow>, below: nat): seq<LogRow> {
    if below == 0 then [] else RowsThrough(log, below)
  }

  // The checkpoints and operations a compaction through `below` removes.
  function RemovedOwners(keys: set<nat>, log: seq<LogRow>, below: nat): set<ChunkOwner> {
    CheckpointOwners(Superseded(keys)) + OperationOwners(RemovedRows(log, below))
  }

  // The tables once these owners are gone: digests that lost their last reference are marked.
  function Compacted(s: Store, cursors: map<DeviceId, Cursor>, below: nat, owners: set<ChunkOwner>, floor: LogFloor): Store {
    s.(cursors := cursors,
       checkpoints := s.checkpoints - Superseded(s.checkpoints.Keys),
       log := if below == 0 then s.log else RowsAbove(s.log, below),
       refs := WithoutOwners(s.refs, owners),
       floor := floor,
       deleting := s.deleting + (OwnedDigests(s.refs, owners) - Referenced(WithoutOwners(s.refs, owners))))
  }

  function PlannedFloor(s: Store, below: nat): LogFloor
    requires below > 0 ==> Retained(s.checkpoints.Keys) != {}
  {
    if below == 0 then s.floor else RaisedFloor(s.floor, below, MaxOf(Retained(s.checkpoints.Keys)))
  }

  function PlanTx(s: Store, now: nat, idle: nat): Tx<CompactionPlan> {
    var cursors := LiveCursors(s, now, idle);
    var below := CompactBelow(s.checkpoints.Keys, cursors);
    var floor := PlannedFloor(s, below);
    if below > 0 && floor.compactedThrough > MinOf(Retained(s.checkpoints.Keys)) then Tx(s, Err(FloorAboveCheckpoint))
    else
      var next := Compacted(s, cursors, below, RemovedOwners(s.checkpoints.Keys, s.log, below), floor);
      Tx(next,
         Ok(CompactionPlan(|s.cursors.Keys - cursors.Keys|, |Superseded(s.checkpoints.Keys)|,
                           |RemovedRows(s.log, below)|, next.deleting)))
  }

  // Stale objects that are neither referenced nor already marked become marked.
  function MarkStaleTx(s: Store, stale: set<Digest>): (Store, set<Digest>) {
    var marked := stale - Referenced(s.refs) - s.deleting;
    (s.(deleting := s.deleting + marked), marked)
  }

  function FinishOne(s: Store, d: Digest): Store {
    s.(usage := if d in s.sizes then (if s.usage < s.sizes[d] then 0 else s.usage - s.sizes[d]) else s.usage,
       sizes := s.sizes - {d},
       deleting := s.deleting - {d})
  }

  function FinishTx(s: Store, digests: seq<Digest>): Store {
    if digests == [] then s else FinishOne(FinishTx(s, digests[..|digests| - 1]), digests[|digests| - 1])
  }

  function RecordTx(s: Store, d: Digest, size: nat): Store {
    if d in s.sizes then s else s.(sizes := s.sizes[d := size], usage := s.usage + size)
  }

  /* ---------- Which checkpoints stay ---------- */

  lemma GreatestIsRetained(keys: set<nat>)
    requires keys != {}
    ensures MaxOf(keys) in Retained(keys) && MaxOf(Retained(keys)) == MaxOf(keys)
  {
    assert (set j | j in keys && j > MaxOf(keys)) == {};
  }

  /** The two greatest checkpoints stay, or all when there are fewer, and exactly the others go. */
  lemma RetainedIsTheTopTwo(keys: set<nat>)
    ensures |Retained(keys)| == Min(MAX_RETAINED_CHECKPOINTS, |keys|)
    ensures Superseded(keys) == keys - Retained(keys)
    ensures forall k, r :: k in Superseded(keys) && r in Retained(keys) ==> k < r
  {
    var retained := Retained(keys);
    if keys != {} {
      GreatestIsRetained(keys);
      var low := MinOf(retained);
      forall k | k in keys && k >= low ensures k in retained {
        var above, aboveLow := set j | j in keys && j > k, set j | j in keys && j > low;
        assert above <= aboveLow;
        SubsetSize(above, aboveLow);
      }
      RetainedCount(keys);
    }
  }

  lemma RetainedCount(keys: set<nat>)
    requires keys != {}
    ensures |Retained(keys)| == Min(MAX_RETAINED_CHECKPOINTS, |keys|)
  {
    var top := MaxOf(keys);
    var rest := keys - {top};
    GreatestIsRetained(keys);
    assert |rest| == |keys| - 1;
    if rest == {} {
      assert keys == {top};
      assert Retained(keys) == {top};
    } else {
      var second := MaxOf(rest);
      assert forall j :: j in keys ==> j == top || j in rest;
      assert (set j | j in keys && j > second) == {top};
      assert |{top, second}| == 2;
      forall k | k in rest && k != second ensures k !in Retained(keys) {
        var above := set j | j in keys && j > k;
        assert {top, second} <= above;
        SubsetSize({top, second}, above);
      }
      assert Retained(keys) == {top, second};
    }
  }

  lemma {:induction false} SubsetSize<T>(a: set<T>, b: set<T>)
    requires a <= b
    ensures |a| <= |b|
  {
    if a != {} {
      var x :| x in a;
      SubsetSize(a - {x}, b - {x});
    }
  }
}
