/**
Each hypothesis of `SyncSafety.ReferencedIsStored` is needed: two runs from a fresh workspace
that break exactly one of them and end with a checkpoint whose chunk is gone.
*/
module SyncCounterexamples {
  import opened Wrappers
  import opened ContentManifests
  import opened SyncContracts
  import opened SyncStore
  import opened SyncInvariants
  import opened SyncProtocol
  import opened SyncSafety

  // A run that grows one action at a time, with the world it has reached.
  ghost predicate Reaches(h: PayloadHash, actions: seq<Action>, w: World) {
    Run(h, INIT, actions) == w
  }

  lemma {:induction false} RunSnoc(h: PayloadHash, w: World, actions: seq<Action>, a: Action)
    ensures Run(h, w, actions + [a]) == Step(h, Run(h, w, actions), a)
    ensures OneCompactionRun(h, w, actions + [a]) <==>
            OneCompactionRun(h, w, actions) && OneCompaction(Run(h, w, actions), a)
    ensures NoClearedCommitRun(h, w, actions + [a]) <==>
            NoClearedCommitRun(h, w, actions) && NoClearedCommit(Run(h, w, actions), a)
    decreases |actions|
  {
    if actions == [] {
      assert [] + [a] == [a];
      assert [a][1..] == [];
    } else {
      RunSnoc(h, Step(h, w, actions[0]), actions[1..], a);
      assert (actions + [a])[1..] == actions[1..] + [a];
    }
  }

  lemma PlanOnIdleStore(s: Store, now: nat, idle: nat)
    requires s.checkpoints == map[] && s.cursors == map[] && s.refs == {}
    ensures PlanTx(s, now, idle) == Tx(s, Ok(CompactionPlan(0, 0, 0, s.deleting)))
  {
    hide Compacted;
    NothingHeld();
    CompactNothing(s);
    assert LiveCursors(s, now, idle) == map[];
    assert s.checkpoints.Keys == {};
  }

  lemma NothingHeld()
    ensures Retained({}) == {} && Superseded({}) == {} && Acknowledgements(map[]) == {}
    ensures CheckpointOwners({}) + OperationOwners([]) == {}
  {
  }

  lemma CompactNothing(s: Store)
    requires s.checkpoints == map[] && s.cursors == map[] && s.refs == {}
    ensures Compacted(s, map[], 0, {}, s.floor) == s
  {
    assert Superseded(s.checkpoints.Keys) == {};
    assert WithoutOwners(s.refs, {}) == {} && OwnedDigests(s.refs, {}) == {};
    assert s.checkpoints - {} == s.checkpoints;
  }

  function OneChunkCheckpoint(d: Digest): CheckpointRecord {
    CheckpointRecord(6, "w", 0, 0,
      ContentManifest(1, Checkpoint, d, "application/json", 1, [ChunkRef(d, 1)]), None)
  }

  const DAY := UNREFERENCED_CHUNK_GRACE_SECONDS

  function MarkedStore(d: Digest): Store { FRESH.(deleting := {d}) }

  function PublishedStore(d: Digest): Store {
    FRESH.(checkpoints := map[0 := OneChunkCheckpoint(d)], refs := {ChunkUse(d, CheckpointOwner(0))})
  }

  // Publishing the checkpoint while nothing is marked for deletion.
  lemma PublishOnFresh(d: Digest)
    ensures PublishTx(FRESH, OneChunkCheckpoint(d), 0) == Tx(PublishedStore(d), Ok(0))
    ensures ManifestDigests(OneChunkCheckpoint(d).content) == {d}
    ensures Referenced(PublishedStore(d).refs) == {d}
  {
    assert ManifestDigests(OneChunkCheckpoint(d).content) == {d} by {
      assert OneChunkCheckpoint(d).content.chunks[0] == ChunkRef(d, 1);
    }
    assert Uses({d}, CheckpointOwner(0)) == {ChunkUse(d, CheckpointOwner(0))};
    assert ChunkUse(d, CheckpointOwner(0)) in PublishedStore(d).refs;
  }

  lemma FinishOnMarked(d: Digest)
    ensures FinishTx(FRESH, []) == FRESH
    ensures FinishTx(MarkedStore(d), [d]) == FRESH
    ensures Elements([d]) == {d} && Elements<Digest>([]) == {}
  {
    assert [d][..0] == [];
    assert FRESH.sizes - {d} == FRESH.sizes;
    assert {d} - {d} == {};
    assert Elements([d]) == {d} by { assert d in [d]; }
  }

  // One more action of a known run.
  lemma Extend(h: PayloadHash, actions: seq<Action>, w: World, a: Action, v: World) returns (more: seq<Action>)
    requires Reaches(h, actions, w) && Step(h, w, a) == v
    ensures more == actions + [a] && Reaches(h, more, v)
    ensures NoClearedCommitRun(h, INIT, more) <==> NoClearedCommitRun(h, INIT, actions) && NoClearedCommit(w, a)
    ensures OneCompactionRun(h, INIT, more) <==> OneCompactionRun(h, INIT, actions) && OneCompaction(w, a)
  {
    more := actions + [a];
    RunSnoc(h, INIT, actions, a);
  }

  /* ---------- The steps the runs are made of ---------- */

  lemma StepPut(h: PayloadHash, w: World, d: Digest, at: nat)
    requires w.bucket == map[]
    ensures Step(h, w, PutChunk(d, at)) == w.(bucket := map[d := at])
  {
  }

  lemma StepList(h: PayloadHash, w: World, id: nat, now: nat, d: Digest)
    requires id in w.flights && w.flights[id] == Listing(now, {}) && d in w.bucket
    requires w.bucket[d] + UNREFERENCED_CHUNK_GRACE_SECONDS <= now
    ensures Step(h, w, ListObject(id, d)) == w.(flights := w.flights[id := Listing(now, {d})])
  {
    assert {} + {d} == {d};
  }

  lemma StepPlan(h: PayloadHash, w: World, id: nat, now: nat)
    requires id !in w.flights && w.store.checkpoints == map[] && w.store.cursors == map[] && w.store.refs == {}
    ensures Step(h, w, BeginCompact(id, now, 0)) ==
            w.(flights := w.flights[id := Removing(now, false, w.store.deleting, {})])
  {
    PlanOnIdleStore(w.store, now, 0);
  }

  lemma StepFinishNothing(h: PayloadHash, w: World, id: nat, now: nat)
    requires w.store == FRESH && w.flights == map[id := Removing(now, false, {}, {})]
    ensures Step(h, w, FinishDeletion(id, [])) == w.(flights := map[id := Listing(now, {})])
  {
    FinishOnMarked("");
    assert AllNoteCleared(w.flights - {id}, {}) == map[];
  }

  lemma StepMark(h: PayloadHash, w: World, id: nat, now: nat, d: Digest)
    requires w.store == FRESH && id in w.flights && w.flights[id] == Listing(now, {d})
    ensures Step(h, w, MarkStale(id)) ==
            w.(store := MarkedStore(d), flights := w.flights[id := Removing(now, true, {d}, {})])
  {
    assert Referenced(FRESH.refs) == {};
    assert {d} - {} - {} == {d};
    assert FRESH.deleting + {d} == {d};
  }

  lemma StepRemove(h: PayloadHash, w: World, id: nat, d: Digest, f: Flight)
    requires id in w.flights && w.flights[id] == f && f.Removing? && f.toDelete == {d} && w.bucket.Keys == {d}
    ensures Step(h, w, RemoveObject(id, d)) == w.(bucket := map[], flights := w.flights[id := f.(removed := f.removed + {d})])
  {
    assert w.bucket - {d} == map[];
  }

  lemma StepFinishMarked(h: PayloadHash, w: World, id: nat, now: nat, sweeping: bool, d: Digest)
    requires w.store == MarkedStore(d) && id in w.flights && w.flights[id] == Removing(now, sweeping, {d}, {d})
    ensures var others := AllNoteCleared(w.flights - {id}, {d});
      Step(h, w, FinishDeletion(id, [d])) ==
      w.(store := FRESH, flights := if sweeping then others else others[id := Listing(now, {})])
  {
    FinishOnMarked(d);
  }

  lemma StepBeginPublish(h: PayloadHash, w: World, id: nat, d: Digest)
    requires id !in w.flights
    ensures Step(h, w, BeginPublish(id, OneChunkCheckpoint(d))) ==
            w.(flights := w.flights[id := Publishing(OneChunkCheckpoint(d), Probes({d}, {}, {}, {}))])
  {
    PublishOnFresh(d);
  }

  lemma StepConfirm(h: PayloadHash, w: World, id: nat, c: CheckpointRecord, d: Digest)
    requires id in w.flights && w.flights[id] == Publishing(c, Probes({d}, {}, {}, {})) && d in w.bucket
    ensures Step(h, w, Probe(id, d)) == w.(flights := w.flights[id := Publishing(c, Probes({}, {d}, {}, {}))])
  {
    assert {d} - {d} == {};
    assert {} + {d} == {d};
  }

  lemma StepCommit(h: PayloadHash, w: World, id: nat, d: Digest, cleared: set<Digest>)
    requires w.store == FRESH && id in w.flights
    requires w.flights[id] == Publishing(OneChunkCheckpoint(d), Probes({}, {d}, {}, cleared))
    ensures Step(h, w, CommitPublish(id, 0)) ==
            w.(store := PublishedStore(d), flights := w.flights - {id},
               published := w.published + [Publication(OneChunkCheckpoint(d), None)])
  {
    PublishOnFresh(d);
  }

  // Both runs begin alike: an old unreferenced chunk is listed by compaction 1.
  function ListedWorld(d: Digest): World {
    INIT.(bucket := map[d := 0], flights := map[1 := Listing(DAY, {d})])
  }

  lemma ListedIsReached(h: PayloadHash, d: Digest) returns (actions: seq<Action>)
    ensures Reaches(h, actions, ListedWorld(d))
    ensures OneCompactionRun(h, INIT, actions) && NoClearedCommitRun(h, INIT, actions)
  {
    hide Step, Referenced;
    StepPut(h, INIT, d, 0);
    var w1 := Step(h, INIT, PutChunk(d, 0));
    actions := Extend(h, [], INIT, PutChunk(d, 0), w1);
    StepPlan(h, w1, 1, DAY);
    var w2 := Step(h, w1, BeginCompact(1, DAY, 0));
    actions := Extend(h, actions, w1, BeginCompact(1, DAY, 0), w2);
    StepFinishNothing(h, w2, 1, DAY);
    var w3 := Step(h, w2, FinishDeletion(1, []));
    actions := Extend(h, actions, w2, FinishDeletion(1, []), w3);
    StepList(h, w3, 1, DAY, d);
    actions := Extend(h, actions, w3, ListObject(1, d), ListedWorld(d));
  }

  // Compaction 1 marked the chunk; compaction 2 took the mark up, removed the object and cleared it.
  function TwiceTakenWorld(d: Digest): World {
    INIT.(flights := map[1 := Removing(DAY, true, {d}, {}), 2 := Listing(DAY, {})])
  }

  lemma TwiceTakenIsReached(h: PayloadHash, d: Digest) returns (actions: seq<Action>)
    ensures Reaches(h, actions, TwiceTakenWorld(d))
    ensures NoClearedCommitRun(h, INIT, actions) && !OneCompactionRun(h, INIT, actions)
  {
    hide Step, Referenced;
    actions := ListedIsReached(h, d);
    var w0 := ListedWorld(d);
    StepMark(h, w0, 1, DAY, d);
    var w1 := Step(h, w0, MarkStale(1));
    actions := Extend(h, actions, w0, MarkStale(1), w1);
    StepPlan(h, w1, 2, DAY);
    var w2 := Step(h, w1, BeginCompact(2, DAY, 0));
    assert 1 in w1.flights && IsCompaction(w1.flights[1]);
    assert !OneCompaction(w1, BeginCompact(2, DAY, 0));
    actions := Extend(h, actions, w1, BeginCompact(2, DAY, 0), w2);
    StepRemove(h, w2, 2, d, Removing(DAY, false, {d}, {}));
    var w3 := Step(h, w2, RemoveObject(2, d));
    actions := Extend(h, actions, w2, RemoveObject(2, d), w3);
    StepFinishMarked(h, w3, 2, DAY, false, d);
    assert AllNoteCleared(w3.flights - {2}, {d}) == map[1 := Removing(DAY, true, {d}, {})];
    actions := Extend(h, actions, w3, FinishDeletion(2, [d]), TwiceTakenWorld(d));
  }

  /** Two overlapping compactions lose a chunk, although no commit had a mark cleared under it. */
  lemma OverlappingCompactionsLoseAChunk(h: PayloadHash, d: Digest) returns (actions: seq<Action>)
    ensures NoClearedCommitRun(h, INIT, actions) && !OneCompactionRun(h, INIT, actions)
    ensures d in Referenced(Run(h, INIT, actions).store.refs) && d !in Run(h, INIT, actions).bucket
  {
    hide Step, Referenced;
    PublishOnFresh(d);
    actions := TwiceTakenIsReached(h, d);
    var w0 := TwiceTakenWorld(d);
    var c := OneChunkCheckpoint(d);
    // The chunk is uploaded again and a checkpoint referring to it is published.
    StepPut(h, w0, d, DAY);
    var w1 := Step(h, w0, PutChunk(d, DAY));
    actions := Extend(h, actions, w0, PutChunk(d, DAY), w1);
    StepBeginPublish(h, w1, 3, d);
    var w2 := Step(h, w1, BeginPublish(3, c));
    actions := Extend(h, actions, w1, BeginPublish(3, c), w2);
    StepConfirm(h, w2, 3, c, d);
    var w3 := Step(h, w2, Probe(3, d));
    actions := Extend(h, actions, w2, Probe(3, d), w3);
    StepCommit(h, w3, 3, d, {});
    var w4 := Step(h, w3, CommitPublish(3, 0));
    actions := Extend(h, actions, w3, CommitPublish(3, 0), w4);
    // Compaction 1 still holds the chunk in its delete list.
    StepRemove(h, w4, 1, d, Removing(DAY, true, {d}, {}));
    actions := Extend(h, actions, w4, RemoveObject(1, d), Step(h, w4, RemoveObject(1, d)));
  }

  // A publication confirmed the chunk while compaction 1 had it listed as stale, and 1 then marked it.
  function ConfirmedWorld(d: Digest): World {
    INIT.(store := MarkedStore(d), bucket := map[d := 0],
          flights := map[1 := Removing(DAY, true, {d}, {}), 3 := Publishing(OneChunkCheckpoint(d), Probes({}, {d}, {}, {}))])
  }

  lemma ConfirmedIsReached(h: PayloadHash, d: Digest) returns (actions: seq<Action>)
    ensures Reaches(h, actions, ConfirmedWorld(d))
    ensures OneCompactionRun(h, INIT, actions) && NoClearedCommitRun(h, INIT, actions)
  {
    hide Step, Referenced;
    actions := ListedIsReached(h, d);
    var w0 := ListedWorld(d);
    var c := OneChunkCheckpoint(d);
    StepBeginPublish(h, w0, 3, d);
    var w1 := Step(h, w0, BeginPublish(3, c));
    actions := Extend(h, actions, w0, BeginPublish(3, c), w1);
    StepConfirm(h, w1, 3, c, d);
    var w2 := Step(h, w1, Probe(3, d));
    actions := Extend(h, actions, w1, Probe(3, d), w2);
    StepMark(h, w2, 1, DAY, d);
    actions := Extend(h, actions, w2, MarkStale(1), ConfirmedWorld(d));
  }

  /** A mark cleared between presence check and commit loses a chunk, with a single compaction. */
  lemma ClearedMarkLosesAChunk(h: PayloadHash, d: Digest) returns (actions: seq<Action>)
    ensures OneCompactionRun(h, INIT, actions) && !NoClearedCommitRun(h, INIT, actions)
    ensures d in Referenced(Run(h, INIT, actions).store.refs) && d !in Run(h, INIT, actions).bucket
  {
    hide Step, Referenced;
    PublishOnFresh(d);
    actions := ConfirmedIsReached(h, d);
    var w3 := ConfirmedWorld(d);
    var c := OneChunkCheckpoint(d);
    // The compaction removes the object and clears the mark before the publication commits.
    StepRemove(h, w3, 1, d, Removing(DAY, true, {d}, {}));
    var w4 := Step(h, w3, RemoveObject(1, d));
    actions := Extend(h, actions, w3, RemoveObject(1, d), w4);
    StepFinishMarked(h, w4, 1, DAY, true, d);
    var w5 := Step(h, w4, FinishDeletion(1, [d]));
    assert NoteCleared(w4.flights[3], {d}) == Publishing(c, Probes({}, {d}, {}, {d}));
    actions := Extend(h, actions, w4, FinishDeletion(1, [d]), w5);
    StepCommit(h, w5, 3, d, {d});
    actions := Extend(h, actions, w5, CommitPublish(3, 0), Step(h, w5, CommitPublish(3, 0)));
  }
}
