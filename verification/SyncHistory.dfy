/**
The log, the index and the device heads refine one append-only history: server sequence `n` is
the `n`-th operation ever accepted, and the log is the part of the history above the floor.
*/
module SyncHistory {
  import opened Wrappers
  import opened SyncContracts
  import opened SyncStore

  function CountDevice(history: seq<Entry>, device: DeviceId): nat {
    if history == [] then 0
    else
      var last := |history| - 1;
      CountDevice(history[..last], device) + if history[last].deviceId == device then 1 else 0
  }

  // The part of the history above `from`, as log rows.
  function LogRows(history: seq<Entry>, from: nat): (rows: seq<LogRow>)
    requires from <= |history|
    ensures |rows| == |history| - from
    ensures forall i :: 0 <= i < |rows| ==> rows[i] == LogRow(from + i + 1, history[from + i])
  {
    if from == |history| then []
    else
      var last := |history| - 1;
      LogRows(history[..last], from) + [LogRow(last + 1, history[last])]
  }

  function IndexRows(h: PayloadHash, history: seq<Entry>): (rows: seq<IndexRow>)
    ensures |rows| == |history|
    ensures forall i :: 0 <= i < |rows| ==> rows[i] == IndexRowOf(h, history[i], i + 1)
  {
    if history == [] then []
    else
      var last := |history| - 1;
      IndexRows(h, history[..last]) + [IndexRowOf(h, history[last], last + 1)]
  }

  ghost predicate DistinctIds(history: seq<Entry>) {
    history == [] ||
    var last := |history| - 1;
    && DistinctIds(history[..last])
    && forall j :: 0 <= j < last ==> history[j].operationId != history[last].operationId
  }

  // A device's operations are numbered 1, 2, 3, ... and none builds on a later server sequence.
  ghost predicate Numbered(history: seq<Entry>) {
    history == [] ||
    var last := |history| - 1;
    && Numbered(history[..last])
    && history[last].clientSequence == CountDevice(history[..last], history[last].deviceId) + 1
    && history[last].baseServerSequence <= last
  }

  ghost predicate HeadsMatch(heads: map<DeviceId, nat>, history: seq<Entry>) {
    forall d :: Head(heads, d) == CountDevice(history, d)
  }

  // The log holds exactly server sequences floor+1..latest.
  ghost predicate LogMatches(s: Store) {
    s.floor.compactedThrough <= |s.history| && s.log == LogRows(s.history, s.floor.compactedThrough)
  }

  ghost predicate HistoryInv(h: PayloadHash, s: Store) {
    && s.highWater == |s.history|
    && LogMatches(s)
    && s.index == IndexRows(h, s.history)
    && HeadsMatch(s.heads, s.history)
    && DistinctIds(s.history)
    && Numbered(s.history)
  }

  /* ---------- Reading the invariant ---------- */

  /** `latestServerSequence` is the history length, even when the log is empty. */
  lemma LatestIsHistoryLength(h: PayloadHash, s: Store)
    requires HistoryInv(h, s)
    ensures Latest(s.log, s.highWater) == |s.history|
  {
    if s.log != [] {
      var row :| row in s.log && row.serverSequence == MaxLogged(s.log);
    }
  }

  lemma {:induction false} CountDeviceMonotone(history: seq<Entry>, i: nat, device: DeviceId)
    requires i <= |history|
    ensures CountDevice(history[..i], device) <= CountDevice(history, device)
    decreases |history|
  {
    if i == |history| {
      assert history[..i] == history;
    } else {
      var last := |history| - 1;
      CountDeviceMonotone(history[..last], i, device);
      assert history[..last][..i] == history[..i];
    }
  }

  lemma {:induction false} NumberedAt(history: seq<Entry>, i: nat)
    requires Numbered(history) && i < |history|
    ensures history[i].clientSequence == CountDevice(history[..i], history[i].deviceId) + 1
    ensures history[i].baseServerSequence <= i
    decreases |history|
  {
    var last := |history| - 1;
    if i < last {
      NumberedAt(history[..last], i);
      assert history[..last][..i] == history[..i];
    }
  }

  lemma {:induction false} DistinctIdsAt(history: seq<Entry>, i: nat, j: nat)
    requires DistinctIds(history) && i < |history| && j < |history|
    requires history[i].operationId == history[j].operationId
    ensures i == j
    decreases |history|
  {
    var last := |history| - 1;
    if i < last && j < last { DistinctIdsAt(history[..last], i, j); }
  }

  lemma CountDeviceAfter(history: seq<Entry>, i: nat)
    requires i < |history| && Numbered(history)
    ensures CountDevice(history[..i + 1], history[i].deviceId) == history[i].clientSequence
  {
    NumberedAt(history, i);
    assert history[..i + 1][..i] == history[..i];
  }

  /** Server sequences increase strictly with client sequences, device by device, and bases lie below them. */
  lemma ClientSequencesIncrease(history: seq<Entry>, i: nat, j: nat)
    requires Numbered(history) && i < j < |history| && history[i].deviceId == history[j].deviceId
    ensures history[i].clientSequence < history[j].clientSequence
    ensures history[i].baseServerSequence <= i && history[j].baseServerSequence <= j
  {
    CountDeviceAfter(history, i);
    NumberedAt(history, i);
    NumberedAt(history, j);
    CountDeviceMonotone(history[..j], i + 1, history[i].deviceId);
    assert history[..j][..i + 1] == history[..i + 1];
  }

  lemma {:induction false} UsedSequence(history: seq<Entry>, device: DeviceId, k: nat) returns (i: nat)
    requires Numbered(history) && 1 <= k <= CountDevice(history, device)
    ensures i < |history| && history[i].deviceId == device && history[i].clientSequence == k
  {
    var last := |history| - 1;
    var before := history[..last];
    if k <= CountDevice(before, device) {
      i := UsedSequence(before, device, k);
    } else {
      i := last;
    }
  }

  /** A device's entries are exactly 1..head: a number in that range is used by one entry, no other is used. */
  lemma DeviceSequencesAreExactly(history: seq<Entry>, device: DeviceId, k: nat)
    requires Numbered(history)
    ensures (1 <= k <= CountDevice(history, device)) <==>
            exists i :: 0 <= i < |history| && history[i].deviceId == device && history[i].clientSequence == k
    ensures forall i, j ::
      (0 <= i < |history| && 0 <= j < |history| && history[i].deviceId == device == history[j].deviceId &&
       history[i].clientSequence == k == history[j].clientSequence) ==> i == j
  {
    if 1 <= k <= CountDevice(history, device) {
      var i := UsedSequence(history, device, k);
    }
    forall i | 0 <= i < |history| && history[i].deviceId == device && history[i].clientSequence == k
      ensures 1 <= k <= CountDevice(history, device)
    {
      CountDeviceAfter(history, i);
      CountDeviceMonotone(history, i + 1, device);
    }
    forall i, j | 0 <= i < j < |history| && history[i].deviceId == device == history[j].deviceId
      ensures history[i].clientSequence != history[j].clientSequence
    {
      ClientSequencesIncrease(history, i, j);
    }
  }

  lemma ClientAtMostHead(h: PayloadHash, s: Store, i: nat)
    requires HistoryInv(h, s) && i < |s.history|
    ensures 1 <= s.history[i].clientSequence <= Head(s.heads, s.history[i].deviceId)
  {
    NumberedAt(s.history, i);
    CountDeviceAfter(s.history, i);
    CountDeviceMonotone(s.history, i + 1, s.history[i].deviceId);
  }

  /* ---------- Lookups ---------- */

  predicate Collides(a: Entry, b: Entry) {
    a.operationId == b.operationId || (a.deviceId == b.deviceId && a.clientSequence == b.clientSequence)
  }

  ghost predicate Untouched(history: seq<Entry>, e: Entry) {
    forall i :: 0 <= i < |history| ==> !Collides(history[i], e)
  }

  // Entry `i` answers a push of `e`: the same operation, compared as text while it is in the log
  // and by payload digest once compaction removed it.
  ghost predicate Repeats(h: PayloadHash, s: Store, i: nat, e: Entry)
    requires i < |s.history|
  {
    var old_ := s.history[i];
    && old_.(payload := e.payload) == e
    && if i >= s.floor.compactedThrough then old_.payload == e.payload else h(old_.payload) == h(e.payload)
  }

  lemma CollisionIsUnique(history: seq<Entry>, i: nat, j: nat, e: Entry)
    requires DistinctIds(history) && Numbered(history) && i < |history| && j < |history|
    requires history[i].(payload := e.payload) == e && Collides(history[j], e)
    ensures i == j
  {
    if history[i].operationId == history[j].operationId {
      DistinctIdsAt(history, i, j);
    } else if i < j {
      ClientSequencesIncrease(history, i, j);
    } else if j < i {
      ClientSequencesIncrease(history, j, i);
    }
  }

  lemma FindInIndexRows(h: PayloadHash, history: seq<Entry>, e: Entry) returns (i: nat)
    requires !Untouched(history, e)
    ensures i < |history| && Collides(history[i], e)
    ensures FindIndexed(IndexRows(h, history), e.operationId, e.deviceId, e.clientSequence) ==
            Some(IndexRowOf(h, history[i], i + 1))
  {
    var rows := IndexRows(h, history);
    var r := FindIndexed(rows, e.operationId, e.deviceId, e.clientSequence);
    var k :| 0 <= k < |history| && Collides(history[k], e);
    assert rows[k] in rows && Touches(rows[k], e.operationId, e.deviceId, e.clientSequence);
    i :| 0 <= i < |rows| && rows[i] == r.value;
  }

  lemma IndexedRow(h: PayloadHash, s: Store, e: Entry) returns (i: nat)
    requires HistoryInv(h, s) && !Untouched(s.history, e)
    ensures i < |s.history| && Collides(s.history[i], e)
    ensures FindIndexed(s.index, e.operationId, e.deviceId, e.clientSequence) == Some(IndexRowOf(h, s.history[i], i + 1))
  {
    i := FindInIndexRows(h, s.history, e);
  }

  lemma FindInLogRows(history: seq<Entry>, floor: nat, id: OperationId)
    requires floor <= |history|
    ensures match FindLogged(LogRows(history, floor), id)
            case Some(row) => floor < row.serverSequence <= |history| &&
                              row.entry == history[row.serverSequence - 1] && row.entry.operationId == id
            case None => forall i :: floor <= i < |history| ==> history[i].operationId != id
  {
    var rows := LogRows(history, floor);
    match FindLogged(rows, id)
    case Some(row) =>
      var i :| 0 <= i < |rows| && rows[i] == row;
    case None =>
      forall i | floor <= i < |history| ensures history[i].operationId != id {
        assert rows[i - floor] in rows;
      }
  }

  lemma LoggedRow(s: Store, id: OperationId)
    requires LogMatches(s)
    ensures match FindLogged(s.log, id)
            case Some(row) => s.floor.compactedThrough < row.serverSequence <= |s.history| &&
                              row.entry == s.history[row.serverSequence - 1] && row.entry.operationId == id
            case None => forall i :: s.floor.compactedThrough <= i < |s.history| ==> s.history[i].operationId != id
  {
    FindInLogRows(s.history, s.floor.compactedThrough, id);
  }

  /**
  Every logged operation id is in the index too. The index lookup calls a pushed operation
  identical exactly when it has the logged fields and the digest of the logged payload, and then
  it names the log row's server sequence.
  */
  lemma LookupsAgree(h: PayloadHash, s: Store, e: Entry)
    requires HistoryInv(h, s) && FindLogged(s.log, e.operationId).Some?
    ensures FindIndexed(s.index, e.operationId, e.deviceId, e.clientSequence).Some?
    ensures var row := FindLogged(s.log, e.operationId).value;
            var indexed := FindIndexed(s.index, e.operationId, e.deviceId, e.clientSequence).value;
      && (IdenticalIndexed(h, indexed, e) <==>
            row.entry.(payload := e.payload) == e && h(row.entry.payload) == h(e.payload))
      && (IdenticalIndexed(h, indexed, e) ==> indexed.serverSequence == row.serverSequence)
  {
    LoggedRow(s, e.operationId);
    var i: nat := FindLogged(s.log, e.operationId).value.serverSequence - 1;
    assert Collides(s.history[i], e);
    var j := IndexedRow(h, s, e);
    if s.history[i].(payload := e.payload) == e {
      CollisionIsUnique(s.history, i, j, e);
    }
    if s.history[j].(payload := e.payload) == e {
      DistinctIdsAt(s.history, i, j);
    }
  }

  /**
  So the two lookups give the same verdict on a pushed operation exactly when it does not collide:
  when it is not the logged operation with another payload of the same digest.
  */
  lemma LookupsAgreeIff(h: PayloadHash, s: Store, e: Entry)
    requires HistoryInv(h, s) && FindLogged(s.log, e.operationId).Some?
    ensures var row := FindLogged(s.log, e.operationId).value;
            var indexed := FindIndexed(s.index, e.operationId, e.deviceId, e.clientSequence);
      (row.entry == e <==> indexed.Some? && IdenticalIndexed(h, indexed.value, e)) <==>
        !(row.entry.(payload := e.payload) == e && Clash(h, row.entry.payload, e.payload))
  {
    LookupsAgree(h, s, e);
  }

  /** A collision does make them disagree: two payloads of one digest are one to the index only. */
  lemma CollidingLookupsDisagree(h: PayloadHash, e: Entry, other: Payload)
    requires e.clientSequence == 1 && e.baseServerSequence == 0
    requires Clash(h, other, e.payload)
    ensures var s := FRESH.(log := [LogRow(1, e)], highWater := 1, index := [IndexRowOf(h, e, 1)],
                            heads := map[e.deviceId := 1], history := [e]);
            var pushed := e.(payload := other);
      && HistoryInv(h, s)
      && FindLogged(s.log, pushed.operationId) == Some(LogRow(1, e)) && e != pushed
      && FindIndexed(s.index, pushed.operationId, pushed.deviceId, pushed.clientSequence) == Some(IndexRowOf(h, e, 1))
      && IdenticalIndexed(h, IndexRowOf(h, e, 1), pushed)
  {
    assert [e][..0] == [];
    assert LogRows([e], 0) == [LogRow(1, e)];
    assert IndexRows(h, [e]) == [IndexRowOf(h, e, 1)];
    assert CountDevice([], e.deviceId) == 0;
    forall d ensures Head(map[e.deviceId := 1], d) == CountDevice([e], d) {
      assert CountDevice([], d) == 0;
    }
  }

  /* ---------- One operation ---------- */

  /**
  Pushing an operation that meets an accepted one, by id or by device sequence, never changes
  the tables; it is answered with the old server sequence exactly when it repeats that operation.
  */
  lemma ReuseIsAnsweredOrRejected(h: PayloadHash, s: Store, device: DeviceId, op: ClientOperation, now: nat, i: nat)
    requires HistoryInv(h, s) && i < |s.history| && Collides(s.history[i], EntryOf(device, op))
    ensures Repeats(h, s, i, EntryOf(device, op)) ==>
      CommitOne(h, s, device, op, now) == Ok((s, Accepted(op.operationId, op.clientSequence, i + 1)))
    ensures !Repeats(h, s, i, EntryOf(device, op)) ==>
      CommitOne(h, s, device, op, now) == Err(OperationReused(op.operationId))
  {
    LoggedRow(s, op.operationId);
    if FindLogged(s.log, op.operationId).Some? {
      ReuseOfLogged(h, s, device, op, now, i);
    } else {
      ReuseOfIndexed(h, s, device, op, now, i);
    }
  }

  lemma ReuseOfLogged(h: PayloadHash, s: Store, device: DeviceId, op: ClientOperation, now: nat, i: nat)
    requires HistoryInv(h, s) && i < |s.history| && Collides(s.history[i], EntryOf(device, op))
    requires FindLogged(s.log, op.operationId).Some?
    ensures CommitOne(h, s, device, op, now) ==
            if Repeats(h, s, i, EntryOf(device, op))
            then Ok((s, Accepted(op.operationId, op.clientSequence, i + 1))) else Err(OperationReused(op.operationId))
  {
    LoggedRepeats(h, s, EntryOf(device, op), i);
    hide HistoryInv, Repeats, CommitNew, Untouched;
  }

  lemma LoggedRepeats(h: PayloadHash, s: Store, e: Entry, i: nat)
    requires HistoryInv(h, s) && i < |s.history| && Collides(s.history[i], e)
    requires FindLogged(s.log, e.operationId).Some?
    ensures FindLogged(s.log, e.operationId).value.entry == e <==> Repeats(h, s, i, e)
    ensures Repeats(h, s, i, e) ==> FindLogged(s.log, e.operationId).value.serverSequence == i + 1
  {
    LoggedRow(s, e.operationId);
    RepeatsIffSame(h, s, FindLogged(s.log, e.operationId).value.serverSequence - 1, i, e);
  }

  // A logged entry with e's id equals `e` exactly when the entry `e` collides with is repeated by `e`.
  lemma RepeatsIffSame(h: PayloadHash, s: Store, k: nat, i: nat, e: Entry)
    requires HistoryInv(h, s) && s.floor.compactedThrough <= k < |s.history| && i < |s.history|
    requires s.history[k].operationId == e.operationId && Collides(s.history[i], e)
    ensures s.history[k] == e <==> Repeats(h, s, i, e)
    ensures s.history[k] == e ==> i == k
  {
    if s.history[i].(payload := e.payload) == e {
      CollisionIsUnique(s.history, i, k, e);
    } else if s.history[k] == e {
      CollisionIsUnique(s.history, k, i, e);
    }
  }

  lemma ReuseOfIndexed(h: PayloadHash, s: Store, device: DeviceId, op: ClientOperation, now: nat, i: nat)
    requires HistoryInv(h, s) && i < |s.history| && Collides(s.history[i], EntryOf(device, op))
    requires FindLogged(s.log, op.operationId).None?
    ensures CommitOne(h, s, device, op, now) ==
            if Repeats(h, s, i, EntryOf(device, op))
            then Ok((s, Accepted(op.operationId, op.clientSequence, i + 1))) else Err(OperationReused(op.operationId))
  {
    hide CommitNew;
    var e := EntryOf(device, op);
    LoggedRow(s, op.operationId);
    var j := IndexedRow(h, s, e);
    var row := IndexRowOf(h, s.history[j], j + 1);
    if IdenticalIndexed(h, row, e) { CollisionIsUnique(s.history, j, i, e); }
    if Repeats(h, s, i, e) { CollisionIsUnique(s.history, i, j, e); }
  }

  lemma NumberedAppend(history: seq<Entry>, e: Entry)
    requires Numbered(history) && e.baseServerSequence <= |history|
    requires e.clientSequence == CountDevice(history, e.deviceId) + 1
    ensures Numbered(history + [e])
  {
    assert (history + [e])[..|history|] == history;
  }

  lemma DistinctIdsAppend(history: seq<Entry>, e: Entry)
    requires DistinctIds(history) && Untouched(history, e)
    ensures DistinctIds(history + [e])
  {
    var all := history + [e];
    assert all[..|history|] == history;
    forall i | 0 <= i < |history| ensures all[i].operationId != e.operationId {
      assert !Collides(history[i], e);
    }
  }

  lemma CountDeviceStep(history: seq<Entry>, e: Entry, device: DeviceId)
    ensures CountDevice(history + [e], device) == CountDevice(history, device) + if e.deviceId == device then 1 else 0
  {
    assert (history + [e])[..|history|] == history;
  }

  lemma HeadsAppend(heads: map<DeviceId, nat>, history: seq<Entry>, e: Entry)
    requires HeadsMatch(heads, history) && e.clientSequence == Head(heads, e.deviceId) + 1
    ensures HeadsMatch(heads[e.deviceId := e.clientSequence], history + [e])
  {
    forall d ensures Head(heads[e.deviceId := e.clientSequence], d) == CountDevice(history + [e], d) {
      assert Head(heads, d) == CountDevice(history, d);
      CountDeviceStep(history, e, d);
    }
  }

  lemma RowsAppend(h: PayloadHash, history: seq<Entry>, floor: nat, e: Entry)
    requires floor <= |history|
    ensures LogRows(history + [e], floor) == LogRows(history, floor) + [LogRow(|history| + 1, e)]
    ensures IndexRows(h, history + [e]) == IndexRows(h, history) + [IndexRowOf(h, e, |history| + 1)]
  {
    assert (history + [e])[..|history|] == history;
  }

  lemma AppendKeepsHistory(h: PayloadHash, s: Store, marker: Option<EncryptionMarker>, e: Entry)
    requires HistoryInv(h, s) && Untouched(s.history, e)
    requires e.baseServerSequence <= |s.history| && e.clientSequence == Head(s.heads, e.deviceId) + 1
    ensures HistoryInv(h, Append(h, s, marker, e))
    ensures Append(h, s, marker, e).history == s.history + [e]
  {
    LatestIsHistoryLength(h, s);
    var t := Append(h, s, marker, e);
    NumberedAppend(s.history, e);
    DistinctIdsAppend(s.history, e);
    RowsAppend(h, s.history, s.floor.compactedThrough, e);
    assert Head(s.heads, e.deviceId) == CountDevice(s.history, e.deviceId);
    HeadsAppend(s.heads, s.history, e);
  }

  // The seal of an operation fits the workspace: plaintext before encryption, afterwards sealed with
  // every key the workspace key. The first sealed operation has to agree with itself.
  ghost predicate SealFits(marker: Option<EncryptionMarker>, p: Payload) {
    if p.SealedPayload? then KeysAre(p, if marker.Some? then marker.value.keyId else p.operation.keyId)
    else marker.None?
  }

  // The first sealed operation writes the marker, with its own scheme and key.
  function MarkerAfter(marker: Option<EncryptionMarker>, latest: nat, p: Payload, now: nat): Option<EncryptionMarker> {
    if marker.None? && p.SealedPayload? then Some(EncryptionMarker(p.operation.scheme, p.operation.keyId, latest, now))
    else marker
  }

  /** An operation is admitted exactly when its seal fits, and is otherwise refused for its form or for a key. */
  lemma SealAdmittedIff(marker: Option<EncryptionMarker>, latest: nat, p: Payload, now: nat)
    ensures var admitted := AdmitSeal(marker, latest, PayloadSeal(p), false, now);
      && (SealFits(marker, p) <==> admitted == Ok(MarkerAfter(marker, latest, p, now)))
      && (p.SealedPayload? && !SealFits(marker, p) <==> admitted == Err(EncryptionKeyMismatch))
      && (!p.SealedPayload? && marker.Some? <==> admitted == Err(WorkspaceEncrypted))
  {
    SealListsEveryKey(p, if marker.Some? then marker.value.keyId else if p.SealedPayload? then p.operation.keyId else "");
  }

  // What `CommitOne` does to an operation nobody has used yet.
  ghost predicate Appends(h: PayloadHash, s: Store, device: DeviceId, op: ClientOperation, now: nat, next: Store, answer: Accepted) {
    && Untouched(s.history, EntryOf(device, op))
    && op.baseServerSequence <= |s.history|
    && op.clientSequence == Head(s.heads, device) + 1
    && PayloadDigests(op.payload) * s.deleting == {}
    && AdmitSeal(s.marker, |s.history|, PayloadSeal(op.payload), false, now) == Ok(next.marker)
    && next.marker == MarkerAfter(s.marker, |s.history|, op.payload, now)
    && next == Append(h, s, next.marker, EntryOf(device, op))
    && answer == Accepted(op.operationId, op.clientSequence, |s.history| + 1)
  }

  // What a new operation has to meet: a seal that fits, a base in the history, the device's next
  // sequence, and no content that is being removed.
  ghost predicate Admissible(s: Store, device: DeviceId, op: ClientOperation) {
    && SealFits(s.marker, op.payload)
    && op.baseServerSequence <= |s.history|
    && op.clientSequence == Head(s.heads, device) + 1
    && forall d :: Needs(op.payload, d) ==> d !in s.deleting
  }

  // Why a new operation is refused, in the order of the checks.
  ghost predicate RefusedFor(s: Store, device: DeviceId, op: ClientOperation, error: SyncError) {
    if !SealFits(s.marker, op.payload) then
      error == if op.payload.SealedPayload? then EncryptionKeyMismatch else WorkspaceEncrypted
    else if op.baseServerSequence > |s.history| then error == BaseAheadOfWorkspace
    else if op.clientSequence != Head(s.heads, device) + 1 then
      error == UnexpectedClientSequence(Head(s.heads, device) + 1, op.clientSequence)
    else
      error.ContentBeingRemoved? && error.digests != {} &&
      forall d :: d in error.digests <==> Needs(op.payload, d) && d in s.deleting
  }

  lemma UntouchedLookups(h: PayloadHash, s: Store, e: Entry)
    requires HistoryInv(h, s) && Untouched(s.history, e)
    ensures FindLogged(s.log, e.operationId) == None
    ensures FindIndexed(s.index, e.operationId, e.deviceId, e.clientSequence) == None
    ensures UniqueInLog(s.log, e) && UniqueInIndex(s.index, e)
  {
    forall row | row in s.index ensures !Touches(row, e.operationId, e.deviceId, e.clientSequence) {
      var i :| 0 <= i < |s.index| && s.index[i] == row;
      assert !Collides(s.history[i], e);
    }
    forall row | row in s.log ensures !Collides(row.entry, e) {
      var i :| 0 <= i < |s.log| && s.log[i] == row;
      assert row.entry == s.history[s.floor.compactedThrough + i];
    }
  }

  lemma NewOperation(h: PayloadHash, s: Store, device: DeviceId, op: ClientOperation, now: nat)
    requires Latest(s.log, s.highWater) == |s.history| && Untouched(s.history, EntryOf(device, op))
    requires UniqueInLog(s.log, EntryOf(device, op)) && UniqueInIndex(s.index, EntryOf(device, op))
    ensures match CommitNew(h, s, device, op, now)
            case Ok((next, answer)) => Admissible(s, device, op) && Appends(h, s, device, op, now, next, answer)
            case Err(error) =>
              !Admissible(s, device, op) && RefusedFor(s, device, op, error) &&
              !error.UniqueConstraintFailed? && !error.OperationReused?
  {
    SealAdmittedIff(s.marker, |s.history|, op.payload, now);
    hide AdmitSeal, SealFits, PayloadDigests, Needs, MarkerAfter;
    forall d ensures d in PayloadDigests(op.payload) <==> Needs(op.payload, d) {
      PayloadDigestsAreNeeded(op.payload, d);
    }
    assert PayloadDigests(op.payload) * s.deleting == {} <==> forall d :: Needs(op.payload, d) ==> d !in s.deleting by {
      if d :| Needs(op.payload, d) && d in s.deleting { assert d in PayloadDigests(op.payload) * s.deleting; }
    }
  }

  /**
  A new operation is appended if and only if it is admissible, and is otherwise refused for the first
  condition it misses; no UNIQUE constraint is ever hit.
  */
  lemma NewOperationIsAppendedOrRejected(h: PayloadHash, s: Store, device: DeviceId, op: ClientOperation, now: nat)
    requires HistoryInv(h, s) && Untouched(s.history, EntryOf(device, op))
    ensures match CommitOne(h, s, device, op, now)
            case Ok((next, answer)) => Admissible(s, device, op) && Appends(h, s, device, op, now, next, answer)
            case Err(error) =>
              !Admissible(s, device, op) && RefusedFor(s, device, op, error) &&
              !error.UniqueConstraintFailed? && !error.OperationReused?
  {
    UntouchedLookups(h, s, EntryOf(device, op));
    LatestIsHistoryLength(h, s);
    NewOperation(h, s, device, op, now);
    hide HistoryInv, CommitNew, Appends, Admissible, Needs, SealFits, RefusedFor, UniqueInLog, UniqueInIndex;
    assert CommitOne(h, s, device, op, now) == CommitNew(h, s, device, op, now);
    hide CommitOne;
  }

  lemma CommitOneKeepsHistory(h: PayloadHash, s: Store, device: DeviceId, op: ClientOperation, now: nat)
    requires HistoryInv(h, s) && CommitOne(h, s, device, op, now).Ok?
    ensures HistoryInv(h, CommitOne(h, s, device, op, now).value.0)
    ensures s.history <= CommitOne(h, s, device, op, now).value.0.history
    ensures !Untouched(s.history, EntryOf(device, op)) ==> CommitOne(h, s, device, op, now).value.0 == s
    ensures Untouched(s.history, EntryOf(device, op)) ==>
      Appends(h, s, device, op, now, CommitOne(h, s, device, op, now).value.0, CommitOne(h, s, device, op, now).value.1)
  {
    var e := EntryOf(device, op);
    if Untouched(s.history, e) {
      NewOperationIsAppendedOrRejected(h, s, device, op, now);
      AppendKeepsHistory(h, s, CommitOne(h, s, device, op, now).value.0.marker, e);
    } else {
      var i :| 0 <= i < |s.history| && Collides(s.history[i], e);
      ReuseIsAnsweredOrRejected(h, s, device, op, now, i);
    }
  }

  /* ---------- Batches ---------- */

  lemma {:induction false} CommitFromKeepsHistory(
    h: PayloadHash, s: Store, device: DeviceId, ops: seq<ClientOperation>, now: nat, i: nat, accepted: seq<Accepted>)
    requires HistoryInv(h, s) && i <= |ops|
    ensures match CommitFrom(h, s, device, ops, now, i, accepted)
            case Ok((next, _)) => HistoryInv(h, next) && s.history <= next.history
            case Err(error) => !error.UniqueConstraintFailed?
    decreases |ops| - i
  {
    hide HistoryInv, CommitOne, Appends, Admissible, RefusedFor;
    if i < |ops| {
      var op := ops[i];
      var one := CommitOne(h, s, device, op, now);
      if one.Ok? {
        CommitOneKeepsHistory(h, s, device, op, now);
        CommitFromKeepsHistory(h, one.value.0, device, ops, now, i + 1, accepted + [one.value.1]);
      } else if Untouched(s.history, EntryOf(device, op)) {
        NewOperationIsAppendedOrRejected(h, s, device, op, now);
      } else {
        var k :| 0 <= k < |s.history| && Collides(s.history[k], EntryOf(device, op));
        ReuseIsAnsweredOrRejected(h, s, device, op, now, k);
      }
    }
  }

  /** Every push keeps the history invariant and only ever extends the history. */
  lemma PushKeepsHistory(h: PayloadHash, s: Store, device: DeviceId, ops: seq<ClientOperation>, now: nat)
    requires HistoryInv(h, s)
    ensures HistoryInv(h, PushTx(h, s, device, ops, now).store)
    ensures s.history <= PushTx(h, s, device, ops, now).store.history
    ensures PushTx(h, s, device, ops, now).outcome != Err(UniqueConstraintFailed)
  {
    CommitFromKeepsHistory(h, s, device, ops, now, 0, []);
  }

  function EntriesFrom(device: DeviceId, ops: seq<ClientOperation>, k: nat): (entries: seq<Entry>)
    requires k <= |ops|
    decreases |ops| - k
    ensures |entries| == |ops| - k
    ensures forall j :: 0 <= j < |entries| ==> entries[j] == EntryOf(device, ops[k + j])
  {
    if k == |ops| then [] else [EntryOf(device, ops[k])] + EntriesFrom(device, ops, k + 1)
  }

  lemma EntriesStep(history: seq<Entry>, device: DeviceId, ops: seq<ClientOperation>, k: nat)
    requires k < |ops|
    ensures history + EntriesFrom(device, ops, k) == (history + [EntryOf(device, ops[k])]) + EntriesFrom(device, ops, k + 1)
  {
  }

  // The answer at position `j`: an old sequence before `k`, then the next sequences in order.
  ghost predicate AnswerAt(
    h: PayloadHash, s: Store, device: DeviceId, op: ClientOperation, k: nat, j: nat, answer: Accepted)
  {
    && answer == Accepted(op.operationId, op.clientSequence, answer.serverSequence)
    && if j < k
       then 1 <= answer.serverSequence <= |s.history| &&
            Repeats(h, s, answer.serverSequence - 1, EntryOf(device, op))
       else answer.serverSequence == |s.history| + (j - k) + 1
  }

  ghost predicate Answers(
    h: PayloadHash, s: Store, device: DeviceId, ops: seq<ClientOperation>, from: nat, k: nat, accepted: seq<Accepted>)
  {
    && from <= k <= |ops| == |accepted|
    && forall j :: from <= j < |ops| ==> AnswerAt(h, s, device, ops[j], k, j, accepted[j])
  }

  lemma AnswersStep(
    h: PayloadHash, s: Store, mid: Store, device: DeviceId, ops: seq<ClientOperation>, i: nat, answers: seq<Accepted>)
    requires i < |ops| == |answers| && |mid.history| == |s.history| + 1
    requires answers[i] == Accepted(ops[i].operationId, ops[i].clientSequence, |s.history| + 1)
    requires Answers(h, mid, device, ops, i + 1, i + 1, answers)
    ensures Answers(h, s, device, ops, i, i, answers)
  {
    forall j | i < j < |ops| ensures AnswerAt(h, s, device, ops[j], i, j, answers[j]) {
      assert AnswerAt(h, mid, device, ops[j], i + 1, j, answers[j]);
    }
  }

  lemma AnswersExtend(
    h: PayloadHash, s: Store, device: DeviceId, ops: seq<ClientOperation>, i: nat, k: nat, answers: seq<Accepted>)
    requires i < k && Answers(h, s, device, ops, i + 1, k, answers)
    requires AnswerAt(h, s, device, ops[i], k, i, answers[i])
    ensures Answers(h, s, device, ops, i, k, answers)
  {
  }

  // Once one operation is appended, every later operation of a contiguous batch is appended too.
  lemma {:induction false} RestIsAppended(
    h: PayloadHash, s: Store, device: DeviceId, ops: seq<ClientOperation>, now: nat, i: nat, accepted: seq<Accepted>)
    requires HistoryInv(h, s) && Contiguous(ops) && i <= |ops| && |accepted| == i
    requires i < |ops| ==> ops[i].clientSequence == Head(s.heads, device) + 1
    requires CommitFrom(h, s, device, ops, now, i, accepted).Ok?
    ensures var (next, answers) := CommitFrom(h, s, device, ops, now, i, accepted).value;
      next.history == s.history + EntriesFrom(device, ops, i) &&
      Answers(h, s, device, ops, i, i, answers) && accepted <= answers
    decreases |ops| - i
  {
    hide HistoryInv, CommitOne;
    if i < |ops| {
      var e := EntryOf(device, ops[i]);
      if !Untouched(s.history, e) {
        var k :| 0 <= k < |s.history| && Collides(s.history[k], e);
        ReuseIsAnsweredOrRejected(h, s, device, ops[i], now, k);
        ClientAtMostHead(h, s, k);
      }
      CommitOneKeepsHistory(h, s, device, ops[i], now);
      var (mid, answer) := CommitOne(h, s, device, ops[i], now).value;
      RestIsAppended(h, mid, device, ops, now, i + 1, accepted + [answer]);
      EntriesStep(s.history, device, ops, i);
      var (next, answers) := CommitFrom(h, mid, device, ops, now, i + 1, accepted + [answer]).value;
      assert answers[i] == (accepted + [answer])[i];
      AnswersStep(h, s, mid, device, ops, i, answers);
    }
  }

  lemma {:induction false} CommittedPrefixThenSuffix(
    h: PayloadHash, s: Store, device: DeviceId, ops: seq<ClientOperation>, now: nat, i: nat, accepted: seq<Accepted>)
    returns (k: nat)
    requires HistoryInv(h, s) && Contiguous(ops) && i <= |ops| && |accepted| == i
    requires CommitFrom(h, s, device, ops, now, i, accepted).Ok?
    ensures i <= k <= |ops|
    ensures var (next, answers) := CommitFrom(h, s, device, ops, now, i, accepted).value;
      next.history == s.history + EntriesFrom(device, ops, k) &&
      Answers(h, s, device, ops, i, k, answers) && accepted <= answers
    ensures k > i ==> ops[k - 1].clientSequence <= Head(s.heads, device)
    ensures k < |ops| ==> ops[k].clientSequence == Head(s.heads, device) + 1
    decreases |ops| - i
  {
    hide HistoryInv, CommitOne;
    k := i;
    if i < |ops| {
      hide Answers;
      var e := EntryOf(device, ops[i]);
      if Untouched(s.history, e) {
        NewOperationIsAppendedOrRejected(h, s, device, ops[i], now);
        RestIsAppended(h, s, device, ops, now, i, accepted);
      } else {
        var j :| 0 <= j < |s.history| && Collides(s.history[j], e);
        ReuseIsAnsweredOrRejected(h, s, device, ops[i], now, j);
        ClientAtMostHead(h, s, j);
        var answer := Accepted(ops[i].operationId, ops[i].clientSequence, j + 1);
        assert AnswerAt(h, s, device, ops[i], i + 1, i, answer);
        hide Repeats, Collides, Untouched;
        k := CommittedPrefixThenSuffix(h, s, device, ops, now, i + 1, accepted + [answer]);
        var answers := CommitFrom(h, s, device, ops, now, i + 1, accepted + [answer]).value.1;
        assert answers[i] == (accepted + [answer])[i];
        AnswersExtend(h, s, device, ops, i, k, answers);
      }
    }
  }

  /**
  An accepted batch is a committed prefix followed by a new suffix. The prefix is answered with
  the sequences it already has, the suffix is appended in order and without a gap, and the head
  becomes the later of the old head and the batch's last client sequence.
  */
  lemma AcceptedBatchIsPrefixPlusSuffix(
    h: PayloadHash, s: Store, device: DeviceId, ops: seq<ClientOperation>, now: nat) returns (k: nat)
    requires HistoryInv(h, s) && WellFormedBatch(ops) && PushTx(h, s, device, ops, now).outcome.Ok?
    ensures k <= |ops|
    ensures var tx := PushTx(h, s, device, ops, now);
      && tx.store.history == s.history + EntriesFrom(device, ops, k)
      && Answers(h, s, device, ops, 0, k, tx.outcome.value.accepted)
      && tx.outcome.value.latestServerSequence == |s.history| + |ops| - k
      && Head(tx.store.heads, device) == Max(Head(s.heads, device), ops[|ops| - 1].clientSequence)
      && forall d :: d != device ==> Head(tx.store.heads, d) == Head(s.heads, d)
  {
    k := CommittedPrefixThenSuffix(h, s, device, ops, now, 0, []);
    PushKeepsHistory(h, s, device, ops, now);
    LatestIsHistoryLength(h, PushTx(h, s, device, ops, now).store);
    HeadsAfter(h, s, PushTx(h, s, device, ops, now).store, device, ops, k);
  }

  lemma HeadsAfter(h: PayloadHash, s: Store, t: Store, device: DeviceId, ops: seq<ClientOperation>, k: nat)
    requires HistoryInv(h, s) && HistoryInv(h, t) && Contiguous(ops) && k <= |ops| && ops != []
    requires t.history == s.history + EntriesFrom(device, ops, k)
    requires k > 0 ==> ops[k - 1].clientSequence <= Head(s.heads, device)
    requires k < |ops| ==> ops[k].clientSequence == Head(s.heads, device) + 1
    ensures Head(t.heads, device) == Max(Head(s.heads, device), ops[|ops| - 1].clientSequence)
    ensures forall d :: d != device ==> Head(t.heads, d) == Head(s.heads, d)
  {
    forall d ensures Head(t.heads, d) == Head(s.heads, d) + if d == device then |ops| - k else 0 {
      CountAppended(s.history, device, ops, k, d);
      assert Head(t.heads, d) == CountDevice(t.history, d);
      assert Head(s.heads, d) == CountDevice(s.history, d);
    }
  }

  lemma {:induction false} CountAppended(
    history: seq<Entry>, device: DeviceId, ops: seq<ClientOperation>, k: nat, d: DeviceId)
    requires k <= |ops|
    ensures CountDevice(history + EntriesFrom(device, ops, k), d) ==
            CountDevice(history, d) + if d == device then |ops| - k else 0
    decreases |ops| - k
  {
    if k == |ops| {
      assert history + [] == history;
    } else {
      var e := EntryOf(device, ops[k]);
      CountAppended(history + [e], device, ops, k + 1, d);
      CountDeviceStep(history, e, d);
      EntriesStep(history, device, ops, k);
    }
  }
}
