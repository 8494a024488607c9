/**
Safety of whole runs: what holds under every interleaving, and what additionally needs the two
deployment hypotheses.
*/
module SyncSafety {
  import opened Wrappers
  import opened ContentManifests
  import opened SyncContracts
  import opened SyncStore
  import opened SyncHistory
  import opened SyncInvariants
  import opened SyncProtocol

  /* ---------- Under every interleaving ---------- */

  // References name exactly what needs them: each chunk of each manifest a logged operation carries,
  // each chunk of each stored checkpoint, and nothing on behalf of an operation that does not need it.
  // Checkpoint references may name more, because republishing keeps the old ones.
  ghost predicate ReferencesAreExact(s: Store) {
    && (forall row, d :: row in s.log && Needs(row.entry.payload, d) ==>
          ChunkUse(d, OperationOwner(row.entry.operationId)) in s.refs)
    && (forall use :: use in s.refs && use.owner.OperationOwner? ==>
          exists row :: row in s.log && row.entry.operationId == use.owner.operationId && Needs(row.entry.payload, use.digest))
    && (forall c, chunk :: c in s.checkpoints.Keys && chunk in s.checkpoints[c].content.chunks ==>
          ChunkUse(chunk.digest, CheckpointOwner(c)) in s.refs)
    && (forall use :: use in s.refs && use.owner.CheckpointOwner? ==> use.owner.serverSequence in s.checkpoints.Keys)
  }

  lemma OperationRefsAreExact(log: seq<LogRow>, refs: set<ChunkUse>)
    requires OperationUses(log, refs)
    ensures forall row, d :: row in log && Needs(row.entry.payload, d) ==>
      ChunkUse(d, OperationOwner(row.entry.operationId)) in refs
    ensures forall use :: use in refs && use.owner.OperationOwner? ==>
      exists row :: row in log && row.entry.operationId == use.owner.operationId && Needs(row.entry.payload, use.digest)
  {
    hide PayloadDigests, Needs;
    forall row, d | row in log && Needs(row.entry.payload, d)
      ensures ChunkUse(d, OperationOwner(row.entry.operationId)) in refs
    {
      PayloadDigestsAreNeeded(row.entry.payload, d);
    }
    forall use | use in refs && use.owner.OperationOwner?
      ensures exists row :: row in log && row.entry.operationId == use.owner.operationId && Needs(row.entry.payload, use.digest)
    {
      var row :| row in log && row.entry.operationId == use.owner.operationId && use.digest in PayloadDigests(row.entry.payload);
      PayloadDigestsAreNeeded(row.entry.payload, use.digest);
    }
  }

  lemma RefsInvIsExact(s: Store)
    requires RefsInv(s)
    ensures ReferencesAreExact(s)
    ensures forall row, d :: row in s.log && Needs(row.entry.payload, d) ==> d !in s.deleting
    ensures forall c, chunk :: c in s.checkpoints.Keys && chunk in s.checkpoints[c].content.chunks ==>
      chunk.digest !in s.deleting
  {
    OperationRefsAreExact(s.log, s.refs);
    hide PayloadDigests, Needs, OperationUses;
    forall c, chunk | c in s.checkpoints.Keys && chunk in s.checkpoints[c].content.chunks
      ensures ChunkUse(chunk.digest, CheckpointOwner(c)) in s.refs
    {
      assert chunk.digest in ManifestDigests(s.checkpoints[c].content);
    }
  }

  /**
  Whatever ran: no digest marked for deletion is referenced by anything, and references are exactly
  the chunks that logged operations carry and, at least, those of the stored checkpoints.
  */
  lemma MarkedIsUnreferenced(h: PayloadHash, actions: seq<Action>)
    ensures var s := Run(h, INIT, actions).store;
      && ReferencesAreExact(s)
      && (forall use :: use in s.refs ==> use.digest !in s.deleting)
      && (forall row, d :: row in s.log && Needs(row.entry.payload, d) ==> d !in s.deleting)
      && (forall c, chunk :: c in s.checkpoints.Keys && chunk in s.checkpoints[c].content.chunks ==>
            chunk.digest !in s.deleting)
  {
    InitialWorld(h);
    RunKeepsInv(h, INIT, actions);
    var s := Run(h, INIT, actions).store;
    assert RefsInv(s);
    RefsInvIsExact(s);
    hide StoreInv, WorldInv, ReferencesAreExact, Needs, Step, OperationUses, CheckpointUses;
  }

  /** Every claim ever answered is the one marker, and it never changes afterwards. */
  lemma EveryClaimSeesOneMarker(h: PayloadHash, before: seq<Action>, after: seq<Action>)
    ensures var w := Run(h, INIT, before); var v := Run(h, w, after);
      && (forall m, n :: m in v.claims && n in v.claims ==> m == n)
      && (forall m :: m in v.claims ==> v.store.marker == Some(m))
      && (w.store.marker.Some? ==> v.store.marker == w.store.marker)
  {
    InitialWorld(h);
    RunKeepsInv(h, INIT, before);
    RunKeepsInv(h, Run(h, INIT, before), after);
  }

  // The seal invariant of the history, read off the log.
  lemma LoggedSeals(s: Store)
    requires LogMatches(s) && SealInv(s.marker, s.history)
    ensures s.marker.None? ==> forall row :: row in s.log ==> !row.entry.payload.SealedPayload?
    ensures s.marker.Some? ==> forall row :: row in s.log ==> SealedSince(s.marker.value, row.entry, row.serverSequence - 1)
  {
    forall row | row in s.log
      ensures 0 < row.serverSequence <= |s.history| && row.entry == s.history[row.serverSequence - 1]
    {
      var i :| 0 <= i < |s.log| && s.log[i] == row;
    }
  }

  /**
  The encryption boundary: a logged row is sealed exactly when its sequence is above the marker's
  boundary, and then its operation and every one of its assets is under the workspace key; without
  a marker nothing is sealed; and no checkpoint written under a marker is plaintext or under a
  foreign key.
  */
  lemma SealedExactlyAboveTheBoundary(h: PayloadHash, actions: seq<Action>)
    ensures var w := Run(h, INIT, actions);
      && (w.store.marker.None? ==> forall row :: row in w.store.log ==> !row.entry.payload.SealedPayload?)
      && (w.store.marker.Some? ==>
            forall row :: row in w.store.log ==>
              (row.entry.payload.SealedPayload? <==>
                 row.serverSequence > w.store.marker.value.encryptedFromServerSequence) &&
              (row.entry.payload.SealedPayload? ==>
                 row.entry.payload.operation.keyId == w.store.marker.value.keyId &&
                 forall a :: a in row.entry.payload.sealedAssets ==> a.keyId == w.store.marker.value.keyId))
      && (forall p :: p in w.published && p.before.Some? ==>
            p.checkpoint.seal.Some? && w.store.marker.Some? &&
            p.checkpoint.seal.value.keyId == w.store.marker.value.keyId)
  {
    InitialWorld(h);
    RunKeepsInv(h, INIT, actions);
    var w := Run(h, INIT, actions);
    var s := w.store;
    LoggedSeals(s);
    hide StoreInv, FlightsInv, Step;
    forall p | p in w.published ensures PublicationInv(s.marker, p) {
    }
  }

  /* ---------- Retries ---------- */

  function OldAnswers(ops: seq<ClientOperation>, at: seq<nat>, i: nat): (answers: seq<Accepted>)
    requires i <= |ops| == |at|
    ensures |answers| == |ops| - i
    ensures forall j :: 0 <= j < |answers| ==>
      answers[j] == Accepted(ops[i + j].operationId, ops[i + j].clientSequence, at[i + j])
    decreases |ops| - i
  {
    if i == |ops| then []
    else [Accepted(ops[i].operationId, ops[i].clientSequence, at[i])] + OldAnswers(ops, at, i + 1)
  }

  lemma {:induction false} CommittedBatchAnswers(
    h: PayloadHash, s: Store, device: DeviceId, ops: seq<ClientOperation>, at: seq<nat>, now: nat, i: nat, accepted: seq<Accepted>)
    requires HistoryInv(h, s) && i <= |ops| == |at|
    requires forall j :: 0 <= j < |ops| ==> AcceptanceInv(h, s, Acceptance(device, ops[j], at[j]))
    ensures CommitFrom(h, s, device, ops, now, i, accepted) == Ok((s, accepted + OldAnswers(ops, at, i)))
    decreases |ops| - i
  {
    if i < |ops| {
      var answer := Accepted(ops[i].operationId, ops[i].clientSequence, at[i]);
      AcceptedIsAnswered(h, s, Acceptance(device, ops[i], at[i]), now);
      CommittedBatchAnswers(h, s, device, ops, at, now, i + 1, accepted + [answer]);
      assert accepted + OldAnswers(ops, at, i) == accepted + [answer] + OldAnswers(ops, at, i + 1);
    } else {
      assert accepted + [] == accepted;
    }
  }

  lemma AcceptedIsAnswered(h: PayloadHash, s: Store, a: Acceptance, now: nat)
    requires HistoryInv(h, s) && AcceptanceInv(h, s, a)
    ensures CommitOne(h, s, a.device, a.op, now) ==
            Ok((s, Accepted(a.op.operationId, a.op.clientSequence, a.serverSequence)))
  {
    hide HistoryInv, CommitOne;
    ReuseIsAnsweredOrRejected(h, s, a.device, a.op, now, a.serverSequence - 1);
  }

  lemma RepeatIsIndexed(h: PayloadHash, s: Store, a: Acceptance)
    requires HistoryInv(h, s) && AcceptanceInv(h, s, a)
    ensures IsIndexedIdentical(h, s, a.device, a.op)
  {
    var e := EntryOf(a.device, a.op);
    var i: nat := a.serverSequence - 1;
    assert Collides(s.history[i], e);
    var j := IndexedRow(h, s, e);
    CollisionIsUnique(s.history, i, j, e);
  }

  lemma {:induction false} NothingPending(h: PayloadHash, s: Store, device: DeviceId, ops: seq<ClientOperation>, i: nat)
    requires i <= |ops|
    requires forall j :: 0 <= j < |ops| ==> IsIndexedIdentical(h, s, device, ops[j])
    ensures PendingDigests(h, s, device, ops, i) == {}
    decreases |ops| - i
  {
    if i < |ops| { NothingPending(h, s, device, ops, i + 1); }
  }

  /**
  Retries are idempotent forever. A batch whose operations were accepted at sequences `at`,
  pushed again identically after any further run (of pushes, compactions, anything), probes no
  content, answers exactly `at`, and changes nothing.
  */
  lemma RetriesAreIdempotentForever(
    h: PayloadHash, before: seq<Action>, after: seq<Action>, device: DeviceId, ops: seq<ClientOperation>, at: seq<nat>, now: nat)
    requires |ops| == |at|
    requires forall j :: 0 <= j < |ops| ==> Acceptance(device, ops[j], at[j]) in Run(h, INIT, before).acceptances
    ensures var s := Run(h, Run(h, INIT, before), after).store;
      && PendingDigests(h, s, device, ops, 0) == {}
      && PushTx(h, s, device, ops, now).store == s
      && PushTx(h, s, device, ops, now).outcome.Ok?
      && |PushTx(h, s, device, ops, now).outcome.value.accepted| == |ops|
      && forall j :: 0 <= j < |ops| ==>
           PushTx(h, s, device, ops, now).outcome.value.accepted[j] ==
           Accepted(ops[j].operationId, ops[j].clientSequence, at[j])
  {
    InitialWorld(h);
    RunKeepsInv(h, INIT, before);
    var w := Run(h, INIT, before);
    RunKeepsInv(h, w, after);
    var s := Run(h, w, after).store;
    forall j | 0 <= j < |ops|
      ensures AcceptanceInv(h, s, Acceptance(device, ops[j], at[j])) && IsIndexedIdentical(h, s, device, ops[j])
    {
      AcceptanceOutlives(h, w.store, s, Acceptance(device, ops[j], at[j]));
      RepeatIsIndexed(h, s, Acceptance(device, ops[j], at[j]));
    }
    CommittedBatchAnswers(h, s, device, ops, at, now, 0, []);
    NothingPending(h, s, device, ops, 0);
  }

  lemma AcceptanceOutlives(h: PayloadHash, s: Store, t: Store, a: Acceptance)
    requires AcceptanceInv(h, s, a) && Later(s, t)
    ensures AcceptanceInv(h, t, a)
  {
    assert t.history[a.serverSequence - 1] == s.history[a.serverSequence - 1];
  }

  // Whatever else a batch holds, one operation that reuses an accepted id or device sequence
  // without repeating that operation gets the whole batch rejected.
  lemma ReusingBatchIsRejected(
    h: PayloadHash, s: Store, i: nat, device: DeviceId, ops: seq<ClientOperation>, j: nat, now: nat)
    requires HistoryInv(h, s) && WellFormedBatch(ops) && i < |s.history| && j < |ops|
    requires Collides(s.history[i], EntryOf(device, ops[j])) && !Repeats(h, s, i, EntryOf(device, ops[j]))
    ensures PushTx(h, s, device, ops, now).outcome.Err?
    ensures PushTx(h, s, device, ops, now).store == s
  {
    if PushTx(h, s, device, ops, now).outcome.Ok? {
      var k := AcceptedBatchIsPrefixPlusSuffix(h, s, device, ops, now);
      var answer := PushTx(h, s, device, ops, now).outcome.value.accepted[j];
      assert AnswerAt(h, s, device, ops[j], k, j, answer);
      PushKeepsHistory(h, s, device, ops, now);
      AnsweredOnce(h, s, PushTx(h, s, device, ops, now).store, i, device, ops, k, j, answer);
    }
  }

  // An accepted answer names the one entry the operation meets, and repeats it.
  lemma AnsweredOnce(
    h: PayloadHash, s: Store, t: Store, i: nat, device: DeviceId, ops: seq<ClientOperation>, k: nat, j: nat, answer: Accepted)
    requires HistoryInv(h, s) && HistoryInv(h, t) && i < |s.history| && k <= |ops| && j < |ops|
    requires t.history == s.history + EntriesFrom(device, ops, k)
    requires Collides(s.history[i], EntryOf(device, ops[j])) && AnswerAt(h, s, device, ops[j], k, j, answer)
    ensures Repeats(h, s, i, EntryOf(device, ops[j]))
  {
    var e := EntryOf(device, ops[j]);
    var n: nat := answer.serverSequence - 1;
    if j < k {
      CollisionIsUnique(s.history, n, i, e);
    } else {
      assert t.history[n] == e && t.history[i] == s.history[i];
      CollisionIsUnique(t.history, n, i, e);
      assert false;
    }
  }

  /**
  Reusing an accepted operation's id or device sequence with different content, anywhere in a batch,
  gets the push rejected with nothing changed, after any further run: always while the log row is
  there, and forever unless the two payloads are different ones of the same digest.
  */
  lemma ReuseIsRejectedForever(
    h: PayloadHash, before: seq<Action>, after: seq<Action>, i: nat,
    device: DeviceId, ops: seq<ClientOperation>, j: nat, now: nat)
    requires WellFormedBatch(ops) && j < |ops|
    requires i < |Run(h, INIT, before).store.history|
    requires Collides(Run(h, INIT, before).store.history[i], EntryOf(device, ops[j]))
    requires Run(h, INIT, before).store.history[i] != EntryOf(device, ops[j])
    ensures var s := Run(h, Run(h, INIT, before), after).store;
      (i >= s.floor.compactedThrough || !Clash(h, Run(h, INIT, before).store.history[i].payload, ops[j].payload)) ==>
        PushTx(h, s, device, ops, now).outcome.Err? && PushTx(h, s, device, ops, now).store == s
  {
    InitialWorld(h);
    RunKeepsInv(h, INIT, before);
    var w := Run(h, INIT, before);
    RunKeepsInv(h, w, after);
    var s := Run(h, w, after).store;
    hide HistoryInv, PushTx, Step;
    assert s.history[i] == w.store.history[i];
    if i >= s.floor.compactedThrough || !Clash(h, w.store.history[i].payload, ops[j].payload) {
      ReusingBatchIsRejected(h, s, i, device, ops, j, now);
    }
  }

  /* ---------- Stored content, under the two hypotheses ---------- */

  // A compaction starts only when none is in flight.
  ghost predicate OneCompaction(w: World, a: Action) {
    a.BeginCompact? ==> forall id :: id in w.flights ==> !IsCompaction(w.flights[id])
  }

  // No request commits after the mark of a digest it had confirmed was cleared under it.
  ghost predicate NoClearedCommit(w: World, a: Action) {
    (a.CommitPush? || a.CommitPublish?) && a.id in w.flights && IsProbing(w.flights[a.id]) ==>
      w.flights[a.id].probes.cleared == {}
  }

  ghost predicate OneCompactionRun(h: PayloadHash, w: World, actions: seq<Action>)
    decreases |actions|
  {
    actions == [] || (OneCompaction(w, actions[0]) && OneCompactionRun(h, Step(h, w, actions[0]), actions[1..]))
  }

  ghost predicate NoClearedCommitRun(h: PayloadHash, w: World, actions: seq<Action>)
    decreases |actions|
  {
    actions == [] || (NoClearedCommit(w, actions[0]) && NoClearedCommitRun(h, Step(h, w, actions[0]), actions[1..]))
  }

  ghost predicate FlightSafe(w: World, f: Flight) {
    && (f.Removing? ==> f.toDelete <= w.store.deleting)
    && (IsProbing(f) ==> f.probes.confirmed - f.probes.cleared <= w.bucket.Keys + w.store.deleting)
  }

  ghost predicate Safe(w: World) {
    && Referenced(w.store.refs) <= w.bucket.Keys
    && (forall id :: id in w.flights ==> FlightSafe(w, w.flights[id]))
    && (forall i, j :: i in w.flights && j in w.flights && IsCompaction(w.flights[i]) && IsCompaction(w.flights[j]) ==> i == j)
  }

  lemma PushStepKeepsSafe(h: PayloadHash, w: World, id: nat, now: nat)
    requires WorldInv(h, w) && Safe(w) && id in w.flights && w.flights[id].Pushing?
    requires w.flights[id].probes.unprobed == {} && w.flights[id].probes.cleared == {}
    ensures Safe(StepPush(h, w, id, now))
  {
    hide HistoryInv, FloorInv, UsageInv, SealInv, PushTx, PayloadDigests;
    var f := w.flights[id];
    var v := StepPush(h, w, id, now);
    assert FlightInv(w.store, f) && FlightSafe(w, f);
    if f.probes.missing == {} {
      PushKeepsInv(h, w.store, f.device, f.ops, now);
      var t := PushTx(h, w.store, f.device, f.ops, now).store;
      assert Referenced(t.refs) <= w.bucket.Keys by {
        NewReferencesAreStored(w, t, UncommittedDigests(w.store.history, f.device, f.ops, 0), f.probes.confirmed);
      }
      assert v.store.deleting == w.store.deleting;
    }
    forall j | j in v.flights ensures FlightSafe(v, v.flights[j]) {
      assert FlightSafe(w, w.flights[j]);
    }
  }

  lemma NewReferencesAreStored(w: World, t: Store, fresh_: set<Digest>, confirmed: set<Digest>)
    requires Referenced(w.store.refs) <= w.bucket.Keys
    requires Referenced(t.refs) <= Referenced(w.store.refs) + fresh_
    requires fresh_ <= confirmed <= w.bucket.Keys + w.store.deleting
    requires t.deleting == w.store.deleting && MarksInv(t)
    ensures Referenced(t.refs) <= w.bucket.Keys
  {
    forall d | d in Referenced(t.refs) ensures d in w.bucket.Keys {
      var use :| use in t.refs && use.digest == d;
    }
  }

  lemma PublishStepKeepsSafe(h: PayloadHash, w: World, id: nat, now: nat)
    requires WorldInv(h, w) && Safe(w) && id in w.flights && w.flights[id].Publishing?
    requires w.flights[id].probes.unprobed == {} && w.flights[id].probes.cleared == {}
    ensures Safe(StepPublish(w, id, now))
  {
    hide HistoryInv, FloorInv, UsageInv, SealInv;
    var f := w.flights[id];
    var v := StepPublish(w, id, now);
    assert FlightInv(w.store, f) && FlightSafe(w, f);
    if f.probes.missing == {} && PublishTx(w.store, f.checkpoint, now).outcome.Ok? {
      PublishKeepsRefs(w.store, f.checkpoint, now);
      NewReferencesAreStored(w, v.store, ManifestDigests(f.checkpoint.content), f.probes.confirmed);
    }
    forall j | j in v.flights ensures FlightSafe(v, v.flights[j]) {
      assert FlightSafe(w, w.flights[j]);
    }
  }

  lemma FinishStepKeepsSafe(h: PayloadHash, w: World, id: nat, order: seq<Digest>)
    requires WorldInv(h, w) && Safe(w) && id in w.flights && w.flights[id].Removing?
    requires Elements(order) == w.flights[id].toDelete
    ensures Safe(StepFinish(w, id, order))
  {
    hide HistoryInv, FloorInv, UsageInv, SealInv, AnswersInv, FlightInv, FinishTx;
    var f := w.flights[id];
    var v := StepFinish(w, id, order);
    FinishKeepsInv(h, w.store, order);
    forall j | j in v.flights && j != id ensures FlightSafe(v, v.flights[j]) {
      assert FlightSafe(w, w.flights[j]) && IsProbing(w.flights[j]);
      NotedStaysSafe(w.flights[j].probes, w.bucket.Keys, w.store.deleting, f.toDelete);
    }
  }

  // A confirmed digest whose mark is cleared is noted as cleared, the others are as safe as before.
  lemma NotedStaysSafe(p: Probes, stored: set<Digest>, deleting: set<Digest>, gone: set<Digest>)
    requires p.confirmed - p.cleared <= stored + deleting
    ensures p.confirmed - (p.cleared + p.confirmed * gone) <= stored + (deleting - gone)
  {
    forall d | d in p.confirmed - (p.cleared + p.confirmed * gone) ensures d in stored + (deleting - gone) {
      assert d in p.confirmed - p.cleared && d !in p.confirmed * gone;
    }
  }

  lemma RemoveStepKeepsSafe(h: PayloadHash, w: World, id: nat, d: Digest)
    requires WorldInv(h, w) && Safe(w)
    ensures Safe(Step(h, w, RemoveObject(id, d)))
  {
    hide HistoryInv, FloorInv, UsageInv, SealInv, AnswersInv, FlightInv;
    var v := Step(h, w, RemoveObject(id, d));
    if v != w {
      assert FlightSafe(w, w.flights[id]);
      forall x | x in Referenced(v.store.refs) ensures x in v.bucket.Keys {
        var use :| use in v.store.refs && use.digest == x;
      }
      forall j | j in v.flights ensures FlightSafe(v, v.flights[j]) {
        assert FlightSafe(w, w.flights[j]);
      }
    }
  }

  lemma ProbeStepKeepsSafe(h: PayloadHash, w: World, id: nat, d: Digest)
    requires Safe(w)
    ensures Safe(Step(h, w, Probe(id, d)))
  {
    var v := Step(h, w, Probe(id, d));
    forall j | j in v.flights ensures FlightSafe(v, v.flights[j]) {
      assert FlightSafe(w, w.flights[j]);
    }
  }

  // Fewer references, more marks and more objects, with the same requests in flight, stay safe.
  lemma SafeGrows(w: World, v: World)
    requires Safe(w) && v.flights == w.flights
    requires v.store.refs <= w.store.refs
    requires w.store.deleting <= v.store.deleting && w.bucket.Keys <= v.bucket.Keys
    ensures Safe(v)
  {
    forall d | d in Referenced(v.store.refs) ensures d in v.bucket.Keys {
      assert d in Referenced(w.store.refs);
    }
    forall j | j in v.flights ensures FlightSafe(v, v.flights[j]) {
      assert FlightSafe(w, w.flights[j]);
    }
  }

  lemma CompactionLands(w: World, id: nat, f: Flight)
    requires Safe(w) && IsCompaction(f) && FlightSafe(w, f)
    requires forall j :: j in w.flights && j != id ==> !IsCompaction(w.flights[j])
    ensures Safe(w.(flights := w.flights[id := f]))
  {
    var v := w.(flights := w.flights[id := f]);
    forall j | j in v.flights ensures FlightSafe(v, v.flights[j]) {
      if j != id { assert FlightSafe(w, w.flights[j]); }
    }
  }

  lemma PlanStepKeepsSafe(h: PayloadHash, w: World, a: Action)
    requires WorldInv(h, w) && Safe(w) && a.BeginCompact? && OneCompaction(w, a)
    ensures Safe(Step(h, w, a))
  {
    hide HistoryInv, FloorInv, UsageInv, SealInv, AnswersInv, FlightInv, PlanTx;
    PlanKeepsInv(h, w.store, a.now, a.idle);
    var tx := PlanTx(w.store, a.now, a.idle);
    SafeGrows(w, w.(store := tx.store));
    CompactionLands(w.(store := tx.store), a.id, Removing(a.now, false, tx.outcome.value.deleting, {}));
  }

  lemma MarkStepKeepsSafe(h: PayloadHash, w: World, a: Action)
    requires WorldInv(h, w) && Safe(w) && a.MarkStale?
    ensures Safe(Step(h, w, a))
  {
    hide HistoryInv, FloorInv, UsageInv, SealInv, AnswersInv, FlightInv;
    if a.id in w.flights && w.flights[a.id].Listing? {
      var f := w.flights[a.id];
      var (store, marked) := MarkStaleTx(w.store, f.stale);
      MarkStaleKeepsInv(h, w.store, f.stale);
      SafeGrows(w, w.(store := store));
      CompactionLands(w.(store := store), a.id, Removing(f.now, true, marked, {}));
    }
  }

  lemma RequestStepKeepsSafe(h: PayloadHash, w: World, a: Action)
    requires WorldInv(h, w) && Safe(w)
    requires a.PutChunk? || a.RecordUpload? || a.Acknowledge?
    ensures Safe(Step(h, w, a))
  {
    hide WorldInv;
    SafeGrows(w, Step(h, w, a));
  }

  lemma ClaimStepKeepsSafe(h: PayloadHash, w: World, a: Action)
    requires WorldInv(h, w) && Safe(w) && a.Claim?
    ensures Safe(Step(h, w, a))
  {
    hide HistoryInv, FloorInv, UsageInv, SealInv, AnswersInv, FlightInv, ClaimTx;
    ClaimKeepsInv(h, w.store, a.scheme, a.keyId, a.now);
    SafeGrows(w, w.(store := ClaimTx(w.store, a.scheme, a.keyId, a.now).store));
  }

  lemma FlightStepKeepsSafe(h: PayloadHash, w: World, a: Action)
    requires WorldInv(h, w) && Safe(w)
    requires a.BeginPush? || a.BeginPublish? || a.ListObject? || a.Abandon?
    ensures Safe(Step(h, w, a))
  {
    hide WorldInv;
    var v := Step(h, w, a);
    forall j | j in v.flights ensures FlightSafe(v, v.flights[j]) {
      if j in w.flights { assert FlightSafe(w, w.flights[j]); }
    }
  }

  lemma StepKeepsSafe(h: PayloadHash, w: World, a: Action)
    requires WorldInv(h, w) && Safe(w) && OneCompaction(w, a) && NoClearedCommit(w, a)
    ensures Safe(Step(h, w, a))
  {
    if a.CommitPush? {
      if a.id in w.flights && w.flights[a.id].Pushing? && w.flights[a.id].probes.unprobed == {} {
        PushStepKeepsSafe(h, w, a.id, a.now);
      }
    } else if a.CommitPublish? {
      if a.id in w.flights && w.flights[a.id].Publishing? && w.flights[a.id].probes.unprobed == {} {
        PublishStepKeepsSafe(h, w, a.id, a.now);
      }
    } else if a.FinishDeletion? {
      if a.id in w.flights && w.flights[a.id].Removing? && Elements(a.order) == w.flights[a.id].toDelete {
        FinishStepKeepsSafe(h, w, a.id, a.order);
      }
    } else if a.RemoveObject? {
      RemoveStepKeepsSafe(h, w, a.id, a.digest);
    } else if a.Probe? {
      ProbeStepKeepsSafe(h, w, a.id, a.digest);
    } else if a.BeginCompact? {
      PlanStepKeepsSafe(h, w, a);
    } else if a.MarkStale? {
      MarkStepKeepsSafe(h, w, a);
    } else if a.BeginPush? || a.BeginPublish? || a.ListObject? || a.Abandon? {
      FlightStepKeepsSafe(h, w, a);
    } else if a.Claim? {
      ClaimStepKeepsSafe(h, w, a);
    } else {
      RequestStepKeepsSafe(h, w, a);
    }
  }

  lemma {:induction false} RunKeepsSafe(h: PayloadHash, w: World, actions: seq<Action>)
    requires WorldInv(h, w) && Safe(w)
    requires OneCompactionRun(h, w, actions) && NoClearedCommitRun(h, w, actions)
    ensures Safe(Run(h, w, actions))
    decreases |actions|
  {
    if actions != [] {
      StepKeepsInv(h, w, actions[0]);
      StepKeepsSafe(h, w, actions[0]);
      RunKeepsSafe(h, Step(h, w, actions[0]), actions[1..]);
    }
  }

  /**
  With one compaction at a time and no mark cleared between a request's presence check and its
  commit, every referenced chunk is in the bucket after every run: each chunk of each manifest a
  logged operation carries, in the open or sealed, asset or operation, and of each checkpoint.
  */
  lemma ReferencedIsStored(h: PayloadHash, actions: seq<Action>)
    requires OneCompactionRun(h, INIT, actions) && NoClearedCommitRun(h, INIT, actions)
    ensures var w := Run(h, INIT, actions);
      && ReferencesAreExact(w.store)
      && (forall use :: use in w.store.refs ==> use.digest in w.bucket)
      && (forall row, d :: row in w.store.log && Needs(row.entry.payload, d) ==> d in w.bucket)
      && (forall c, chunk :: c in w.store.checkpoints.Keys && chunk in w.store.checkpoints[c].content.chunks ==>
            chunk.digest in w.bucket)
  {
    InitialWorld(h);
    RunKeepsSafe(h, INIT, actions);
    MarkedIsUnreferenced(h, actions);
    var w := Run(h, INIT, actions);
    hide Run, Needs, FlightSafe;
    forall use | use in w.store.refs ensures use.digest in w.bucket {
      assert use.digest in Referenced(w.store.refs);
    }
  }
}
