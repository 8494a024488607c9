/**
The workspace object as an interleaved state machine. Every transaction is one step and every
`await` is a step boundary, so any other request may run between the presence probes of a push
and its commit, or between the stages of a compaction.
*/
module SyncProtocol {
  import opened Wrappers
  import opened ContentManifests
  import opened SyncContracts
  import opened SyncStore
  import opened SyncHistory
  import opened SyncInvariants

  // What a push or publish has learned about the digests it needs. `cleared` records the ones
  // whose deletion mark was cleared after they were confirmed; the code never sees it.
  datatype Probes = Probes(unprobed: set<Digest>, confirmed: set<Digest>, missing: set<Digest>, cleared: set<Digest>)

  // A request between two of its awaits.
  datatype Flight =
    | Pushing(device: DeviceId, ops: seq<ClientOperation>, probes: Probes)
    | Publishing(checkpoint: CheckpointRecord, probes: Probes)
    | Removing(now: nat, sweeping: bool, toDelete: set<Digest>, removed: set<Digest>)
    | Listing(now: nat, stale: set<Digest>)

  datatype Publication = Publication(checkpoint: CheckpointRecord, before: Option<EncryptionMarker>)
  datatype Acceptance = Acceptance(device: DeviceId, op: ClientOperation, serverSequence: nat)

  // The bucket maps a stored digest to its upload time. The last three fields record answers given.
  datatype World = World(
    store: Store,
    bucket: map<Digest, nat>,
    flights: map<nat, Flight>,
    claims: seq<EncryptionMarker>,
    published: seq<Publication>,
    acceptances: seq<Acceptance>)

  const INIT: World := World(FRESH, map[], map[], [], [], [])

  datatype Action =
    | BeginPush(id: nat, device: DeviceId, ops: seq<ClientOperation>)
    | BeginPublish(id: nat, checkpoint: CheckpointRecord)
    | Probe(id: nat, digest: Digest)
    | CommitPush(id: nat, now: nat)
    | CommitPublish(id: nat, now: nat)
    | BeginCompact(id: nat, now: nat, idle: nat)
    | RemoveObject(id: nat, digest: Digest)
    | FinishDeletion(id: nat, order: seq<Digest>)
    | ListObject(id: nat, digest: Digest)
    | MarkStale(id: nat)
    | Abandon(id: nat)
    | PutChunk(digest: Digest, at: nat)
    | RecordUpload(digest: Digest, size: nat)
    | Acknowledge(device: DeviceId, sequence: nat, now: nat)
    | Claim(scheme: string, keyId: KeyId, now: nat)

  predicate IsIndexedIdentical(h: PayloadHash, s: Store, device: DeviceId, op: ClientOperation) {
    var row := FindIndexed(s.index, op.operationId, device, op.clientSequence);
    row.Some? && IdenticalIndexed(h, row.value, EntryOf(device, op))
  }

  // Digests of the operations the index does not already answer: the ones a push probes.
  function PendingDigests(h: PayloadHash, s: Store, device: DeviceId, ops: seq<ClientOperation>, i: nat): set<Digest>
    requires i <= |ops|
    decreases |ops| - i
  {
    if i == |ops| then {}
    else
      (if IsIndexedIdentical(h, s, device, ops[i]) then {} else PayloadDigests(ops[i].payload)) +
      PendingDigests(h, s, device, ops, i + 1)
  }

  // An operation of the batch that the index does not answer needs the digest.
  ghost predicate PendingNeeds(h: PayloadHash, s: Store, device: DeviceId, ops: seq<ClientOperation>, from: nat, d: Digest) {
    exists j :: from <= j < |ops| && !IsIndexedIdentical(h, s, device, ops[j]) && Needs(ops[j].payload, d)
  }

  /** A push probes exactly the chunks that its pending operations carry. */
  lemma {:induction false} PushProbesWhatItNeeds(
    h: PayloadHash, s: Store, device: DeviceId, ops: seq<ClientOperation>, i: nat, d: Digest)
    requires i <= |ops|
    ensures d in PendingDigests(h, s, device, ops, i) <==> PendingNeeds(h, s, device, ops, i, d)
    decreases |ops| - i
  {
    hide IsIndexedIdentical, Needs, PayloadDigests;
    if i < |ops| {
      PushProbesWhatItNeeds(h, s, device, ops, i + 1, d);
      PayloadDigestsAreNeeded(ops[i].payload, d);
    }
  }

  predicate IsCompaction(f: Flight) {
    f.Removing? || f.Listing?
  }

  predicate IsProbing(f: Flight) {
    f.Pushing? || f.Publishing?
  }

  function ProbeOne(p: Probes, bucket: map<Digest, nat>, d: Digest): Probes {
    if d !in p.unprobed then p
    else if d in bucket then p.(unprobed := p.unprobed - {d}, confirmed := p.confirmed + {d})
    else p.(unprobed := p.unprobed - {d}, missing := p.missing + {d})
  }

  function NoteCleared(f: Flight, digests: set<Digest>): Flight {
    if IsProbing(f) then f.(probes := f.probes.(cleared := f.probes.cleared + f.probes.confirmed * digests)) else f
  }

  function AllNoteCleared(flights: map<nat, Flight>, digests: set<Digest>): map<nat, Flight> {
    map id | id in flights :: NoteCleared(flights[id], digests)
  }

  function Acceptances(device: DeviceId, ops: seq<ClientOperation>, accepted: seq<Accepted>, n: nat): (r: seq<Acceptance>)
    requires n <= |ops| && n <= |accepted|
    ensures forall a :: a in r ==>
      exists j :: 0 <= j < n && a == Acceptance(device, ops[j], accepted[j].serverSequence)
  {
    if n == 0 then []
    else Acceptances(device, ops, accepted, n - 1) + [Acceptance(device, ops[n - 1], accepted[n - 1].serverSequence)]
  }

  function StepPush(h: PayloadHash, w: World, id: nat, now: nat): World
    requires id in w.flights && w.flights[id].Pushing?
  {
    var f := w.flights[id];
    var landed := w.(flights := w.flights - {id});
    if f.probes.missing != {} then landed
    else
      var tx := PushTx(h, w.store, f.device, f.ops, now);
      match tx.outcome
      case Err(_) => landed
      case Ok(response) =>
        landed.(store := tx.store,
                acceptances := w.acceptances +
                  if |response.accepted| == |f.ops|
                  then Acceptances(f.device, f.ops, response.accepted, |f.ops|) else [])
  }

  function StepPublish(w: World, id: nat, now: nat): World
    requires id in w.flights && w.flights[id].Publishing?
  {
    var f := w.flights[id];
    var landed := w.(flights := w.flights - {id});
    if f.probes.missing != {} then landed
    else
      var tx := PublishTx(w.store, f.checkpoint, now);
      if tx.outcome.Err? then landed
      else landed.(store := tx.store, published := w.published + [Publication(f.checkpoint, w.store.marker)])
  }

  function StepFinish(w: World, id: nat, order: seq<Digest>): World
    requires id in w.flights && w.flights[id].Removing?
  {
    var f := w.flights[id];
    var others := AllNoteCleared(w.flights - {id}, f.toDelete);
    w.(store := FinishTx(w.store, order),
       flights := if f.sweeping then others else others[id := Listing(f.now, {})])
  }

  /** One step of the system; an action that is not enabled changes nothing. */
  function Step(h: PayloadHash, w: World, a: Action): World {
    match a
    case BeginPush(id, device, ops) =>
      if id in w.flights || !WellFormedBatch(ops) then w
      else w.(flights := w.flights[id := Pushing(device, ops, Probes(PendingDigests(h, w.store, device, ops, 0), {}, {}, {}))])
    case BeginPublish(id, c) =>
      if id in w.flights || c.serverSequence > Latest(w.store.log, w.store.highWater) then w
      else w.(flights := w.flights[id := Publishing(c, Probes(ManifestDigests(c.content), {}, {}, {}))])
    case Probe(id, d) =>
      if id !in w.flights || !IsProbing(w.flights[id]) then w
      else
        var f := w.flights[id];
        w.(flights := w.flights[id := f.(probes := ProbeOne(f.probes, w.bucket, d))])
    case CommitPush(id, now) =>
      if id !in w.flights || !w.flights[id].Pushing? || w.flights[id].probes.unprobed != {} then w
      else StepPush(h, w, id, now)
    case CommitPublish(id, now) =>
      if id !in w.flights || !w.flights[id].Publishing? || w.flights[id].probes.unprobed != {} then w
      else StepPublish(w, id, now)
    case BeginCompact(id, now, idle) =>
      if id in w.flights then w
      else
        var tx := PlanTx(w.store, now, idle);
        if tx.outcome.Err? then w
        else w.(store := tx.store, flights := w.flights[id := Removing(now, false, tx.outcome.value.deleting, {})])
    case RemoveObject(id, d) =>
      if id !in w.flights || !w.flights[id].Removing? || d !in w.flights[id].toDelete then w
      else
        var f := w.flights[id];
        w.(bucket := w.bucket - {d}, flights := w.flights[id := f.(removed := f.removed + {d})])
    case FinishDeletion(id, order) =>
      if id !in w.flights || !w.flights[id].Removing? || w.flights[id].removed != w.flights[id].toDelete ||
         Elements(order) != w.flights[id].toDelete then w
      else StepFinish(w, id, order)
    case ListObject(id, d) =>
      if id !in w.flights || !w.flights[id].Listing? || d !in w.bucket ||
         w.bucket[d] + UNREFERENCED_CHUNK_GRACE_SECONDS > w.flights[id].now then w
      else
        var f := w.flights[id];
        w.(flights := w.flights[id := f.(stale := f.stale + {d})])
    case MarkStale(id) =>
      if id !in w.flights || !w.flights[id].Listing? then w
      else
        var f := w.flights[id];
        var (store, marked) := MarkStaleTx(w.store, f.stale);
        w.(store := store, flights := w.flights[id := Removing(f.now, true, marked, {})])
    case Abandon(id) => w.(flights := w.flights - {id})
    case PutChunk(d, at) => w.(bucket := w.bucket[d := at])
    case RecordUpload(d, size) => if size == 0 then w else w.(store := RecordTx(w.store, d, size))
    case Acknowledge(device, sequence, now) => w.(store := AcknowledgeTx(w.store, device, sequence, now).0)
    case Claim(scheme, keyId, now) =>
      var tx := ClaimTx(w.store, scheme, keyId, now);
      if tx.outcome.Err? then w
      else w.(store := tx.store, claims := w.claims + [tx.outcome.value])
  }

  function Run(h: PayloadHash, w: World, actions: seq<Action>): World
    decreases |actions|
  {
    if actions == [] then w else Run(h, Step(h, w, actions[0]), actions[1..])
  }

  lemma RunOne(h: PayloadHash, w: World, a: Action)
    ensures Run(h, w, [a]) == Step(h, w, a)
  {
    assert [a][1..] == [];
  }

  lemma {:induction false} RunConcat(h: PayloadHash, w: World, a: seq<Action>, b: seq<Action>)
    ensures Run(h, w, a + b) == Run(h, Run(h, w, a), b)
    decreases |a|
  {
    if a == [] {
      assert [] + b == b;
    } else {
      assert (a + b)[1..] == a[1..] + b;
      RunConcat(h, Step(h, w, a[0]), a[1..], b);
    }
  }

  /* ---------- What every run keeps ---------- */

  ghost predicate FlightInv(s: Store, f: Flight) {
    match f
    case Pushing(device, ops, p) =>
      WellFormedBatch(ops) &&
      UncommittedDigests(s.history, device, ops, 0) <= p.unprobed + p.confirmed + p.missing
    case Publishing(c, p) =>
      c.serverSequence <= |s.history| && ManifestDigests(c.content) <= p.unprobed + p.confirmed + p.missing
    case Removing(_, _, _, _) => true
    case Listing(_, _) => true
  }

  ghost predicate FlightsInv(s: Store, flights: map<nat, Flight>) {
    forall id :: id in flights ==> FlightInv(s, flights[id])
  }

  // A publication made under a marker was sealed with its key; a sealed one left a marker naming its key.
  ghost predicate PublicationInv(marker: Option<EncryptionMarker>, p: Publication) {
    && (p.before.Some? ==>
          marker == p.before && p.checkpoint.seal.Some? && p.checkpoint.seal.value.keyId == p.before.value.keyId)
    && (p.checkpoint.seal.Some? ==> marker.Some? && marker.value.keyId == p.checkpoint.seal.value.keyId)
  }

  // An accepted operation is in the history at the sequence it was answered with.
  ghost predicate AcceptanceInv(h: PayloadHash, s: Store, a: Acceptance) {
    1 <= a.serverSequence <= |s.history| && Repeats(h, s, a.serverSequence - 1, EntryOf(a.device, a.op))
  }

  ghost predicate AnswersInv(h: PayloadHash, w: World) {
    && (forall m :: m in w.claims ==> w.store.marker == Some(m))
    && (forall p :: p in w.published ==> PublicationInv(w.store.marker, p))
    && (forall a :: a in w.acceptances ==> AcceptanceInv(h, w.store, a))
  }

  ghost predicate WorldInv(h: PayloadHash, w: World) {
    StoreInv(h, w.store) && FlightsInv(w.store, w.flights) && AnswersInv(h, w)
  }

  // What no transaction undoes: the history grows, the floor rises, the marker stays.
  ghost predicate Later(s: Store, t: Store) {
    && s.history <= t.history
    && s.floor.compactedThrough <= t.floor.compactedThrough
    && (s.marker.Some? ==> t.marker == s.marker)
  }

  lemma FlightStaysValid(s: Store, t: Store, f: Flight)
    requires FlightInv(s, f) && s.history <= t.history
    ensures FlightInv(t, f)
  {
    if f.Pushing? { UncommittedShrinks(s.history, t.history, f.device, f.ops, 0); }
  }

  lemma FlightsStayValid(s: Store, t: Store, flights: map<nat, Flight>)
    requires FlightsInv(s, flights) && s.history <= t.history
    ensures FlightsInv(t, flights)
  {
    forall id | id in flights ensures FlightInv(t, flights[id]) {
      FlightStaysValid(s, t, flights[id]);
    }
  }

  lemma AnswersStayValid(h: PayloadHash, w: World, t: Store)
    requires AnswersInv(h, w) && Later(w.store, t)
    ensures AnswersInv(h, w.(store := t))
  {
    forall a | a in w.acceptances ensures AcceptanceInv(h, t, a) {
      assert AcceptanceInv(h, w.store, a);
      assert t.history[a.serverSequence - 1] == w.store.history[a.serverSequence - 1];
    }
    forall p | p in w.published ensures PublicationInv(t.marker, p) {
      assert PublicationInv(w.store.marker, p);
    }
  }

  // Replacing the tables by later ones keeps the world invariant.
  lemma StoreAdvances(h: PayloadHash, w: World, t: Store)
    requires WorldInv(h, w) && StoreInv(h, t) && Later(w.store, t)
    ensures WorldInv(h, w.(store := t))
  {
    FlightsStayValid(w.store, t, w.flights);
    AnswersStayValid(h, w, t);
  }

  lemma FlightLands(h: PayloadHash, w: World, id: nat, f: Flight)
    requires WorldInv(h, w) && FlightInv(w.store, f)
    ensures WorldInv(h, w.(flights := w.flights[id := f]))
  {
  }

  lemma ClaimAnswered(h: PayloadHash, w: World, t: Store, m: EncryptionMarker)
    requires WorldInv(h, w) && StoreInv(h, t) && Later(w.store, t) && t.marker == Some(m)
    ensures WorldInv(h, w.(store := t, claims := w.claims + [m]))
  {
    StoreAdvances(h, w, t);
    var v := w.(store := t);
    forall c | c in w.claims + [m] ensures t.marker == Some(c) {
      assert c == m || c in v.claims;
    }
  }

  // An operation nobody used is not answered by the index, so it is probed.
  lemma {:induction false} PendingCoversUncommitted(
    h: PayloadHash, s: Store, device: DeviceId, ops: seq<ClientOperation>, i: nat)
    requires HistoryInv(h, s) && i <= |ops|
    ensures UncommittedDigests(s.history, device, ops, i) <= PendingDigests(h, s, device, ops, i)
    decreases |ops| - i
  {
    if i < |ops| {
      PendingCoversUncommitted(h, s, device, ops, i + 1);
      if Untouched(s.history, EntryOf(device, ops[i])) {
        UntouchedLookups(h, s, EntryOf(device, ops[i]));
      }
    }
  }

  /**
  An operation the index answered before the presence check is never appended at commit: index
  rows are never removed, so whatever ran in between, the commit answers or rejects it.
  */
  lemma SkippedIsNeverAppended(
    h: PayloadHash, s: Store, t: Store, device: DeviceId, op: ClientOperation, now: nat)
    requires HistoryInv(h, s) && HistoryInv(h, t) && s.history <= t.history
    requires IsIndexedIdentical(h, s, device, op)
    ensures match CommitOne(h, t, device, op, now)
            case Ok((next, _)) => next == t
            case Err(error) => error == OperationReused(op.operationId)
  {
    var e := EntryOf(device, op);
    if Untouched(s.history, e) { UntouchedLookups(h, s, e); }
    var i :| 0 <= i < |s.history| && Collides(s.history[i], e);
    assert t.history[i] == s.history[i];
    ReuseIsAnsweredOrRejected(h, t, device, op, now, i);
  }

  lemma PushStepKeepsInv(h: PayloadHash, w: World, id: nat, now: nat)
    requires WorldInv(h, w) && id in w.flights && w.flights[id].Pushing?
    ensures WorldInv(h, StepPush(h, w, id, now))
    ensures Later(w.store, StepPush(h, w, id, now).store)
  {
    var f := w.flights[id];
    var v := StepPush(h, w, id, now);
    var tx := PushTx(h, w.store, f.device, f.ops, now);
    assert FlightInv(w.store, f);
    PushKeepsInv(h, w.store, f.device, f.ops, now);
    StoreAdvances(h, w, v.store);
    if f.probes.missing == {} && tx.outcome.Ok? {
      var k := AcceptedBatchIsPrefixPlusSuffix(h, w.store, f.device, f.ops, now);
      forall a | a in v.acceptances ensures AcceptanceInv(h, v.store, a) {
        if a !in w.acceptances {
          var j :| 0 <= j < |f.ops| && a == Acceptance(f.device, f.ops[j], tx.outcome.value.accepted[j].serverSequence);
          AnswerIsRecorded(h, w.store, v.store, f.device, f.ops, k, j, tx.outcome.value.accepted[j]);
        } else {
          assert AcceptanceInv(h, w.(store := v.store).store, a);
        }
      }
    }
  }

  lemma AnswerIsRecorded(
    h: PayloadHash, s: Store, t: Store, device: DeviceId, ops: seq<ClientOperation>, k: nat, j: nat, answer: Accepted)
    requires k <= |ops| && j < |ops| && t.history == s.history + EntriesFrom(device, ops, k)
    requires t.floor == s.floor
    requires AnswerAt(h, s, device, ops[j], k, j, answer)
    ensures AcceptanceInv(h, t, Acceptance(device, ops[j], answer.serverSequence))
  {
    if j < k {
      assert t.history[answer.serverSequence - 1] == s.history[answer.serverSequence - 1];
    } else {
      assert t.history[answer.serverSequence - 1] == EntriesFrom(device, ops, k)[j - k];
    }
  }

  lemma PublishStepKeepsInv(h: PayloadHash, w: World, id: nat, now: nat)
    requires WorldInv(h, w) && id in w.flights && w.flights[id].Publishing?
    ensures WorldInv(h, StepPublish(w, id, now))
    ensures Later(w.store, StepPublish(w, id, now).store)
  {
    hide StoreInv;
    var f := w.flights[id];
    var v := StepPublish(w, id, now);
    assert FlightInv(w.store, f);
    PublishKeepsInv(h, w.store, f.checkpoint, now);
    PublishRespectsMarker(w.store, f.checkpoint, now);
    StoreAdvances(h, w, v.store);
    if v.published != w.published {
      PublicationsExtend(w.store.marker, v.store.marker, w.published, Publication(f.checkpoint, w.store.marker));
    }
  }

  lemma PublicationsExtend(
    before: Option<EncryptionMarker>, after: Option<EncryptionMarker>, published: seq<Publication>, p: Publication)
    requires forall q :: q in published ==> PublicationInv(before, q)
    requires before.Some? ==> after == before
    requires PublicationInv(after, p)
    ensures forall q :: q in published + [p] ==> PublicationInv(after, q)
  {
    forall q | q in published + [p] ensures PublicationInv(after, q) {
      assert q == p || q in published;
    }
  }

  lemma FlightsReplaced(h: PayloadHash, w: World, flights: map<nat, Flight>, id: nat, f: Flight)
    requires WorldInv(h, w) && FlightsInv(w.store, flights) && FlightInv(w.store, f)
    ensures WorldInv(h, w.(flights := flights)) && WorldInv(h, w.(flights := flights[id := f]))
  {
    hide StoreInv;
  }

  // Noting a cleared mark changes nothing the flight invariant speaks of.
  lemma NotingKeepsFlights(s: Store, flights: map<nat, Flight>, id: nat, gone: set<Digest>)
    requires FlightsInv(s, flights)
    ensures FlightsInv(s, AllNoteCleared(flights - {id}, gone))
  {
    forall j | j in flights ensures FlightInv(s, NoteCleared(flights[j], gone)) {
      assert FlightInv(s, flights[j]);
    }
  }

  lemma FinishStepKeepsInv(h: PayloadHash, w: World, id: nat, order: seq<Digest>)
    requires WorldInv(h, w) && id in w.flights && w.flights[id].Removing?
    ensures WorldInv(h, StepFinish(w, id, order))
    ensures Later(w.store, StepFinish(w, id, order).store)
  {
    var t := FinishTx(w.store, order);
    FinishKeepsInv(h, w.store, order);
    assert w.store.history <= t.history && t.marker == w.store.marker && t.floor == w.store.floor;
    hide StoreInv, FinishTx;
    StoreAdvances(h, w, t);
    NotingKeepsFlights(t, w.flights, id, w.flights[id].toDelete);
    hide WorldInv, FlightsInv;
    FlightsReplaced(h, w.(store := t), AllNoteCleared(w.flights - {id}, w.flights[id].toDelete), id, Listing(w.flights[id].now, {}));
  }

  lemma BeginPushKeepsInv(h: PayloadHash, w: World, a: Action)
    requires WorldInv(h, w) && a.BeginPush?
    ensures WorldInv(h, Step(h, w, a)) && Step(h, w, a).store == w.store
  {
    PendingCoversUncommitted(h, w.store, a.device, a.ops, 0);
    if WellFormedBatch(a.ops) {
      FlightLands(h, w, a.id, Pushing(a.device, a.ops, Probes(PendingDigests(h, w.store, a.device, a.ops, 0), {}, {}, {})));
    }
  }

  lemma BeginPublishKeepsInv(h: PayloadHash, w: World, a: Action)
    requires WorldInv(h, w) && a.BeginPublish?
    ensures WorldInv(h, Step(h, w, a)) && Step(h, w, a).store == w.store
  {
    LatestIsHistoryLength(h, w.store);
    hide StoreInv;
    if a.checkpoint.serverSequence <= |w.store.history| {
      FlightLands(h, w, a.id, Publishing(a.checkpoint, Probes(ManifestDigests(a.checkpoint.content), {}, {}, {})));
    }
  }

  lemma ProbeCovers(p: Probes, bucket: map<Digest, nat>, d: Digest)
    ensures var q := ProbeOne(p, bucket, d);
      q.unprobed + q.confirmed + q.missing == p.unprobed + p.confirmed + p.missing
  {
  }

  lemma FlightStepKeepsInv(h: PayloadHash, w: World, a: Action)
    requires WorldInv(h, w)
    requires a.Probe? || a.RemoveObject? || a.ListObject? || a.Abandon? || a.PutChunk?
    ensures WorldInv(h, Step(h, w, a)) && Step(h, w, a).store == w.store
  {
    if a.Probe? && a.id in w.flights && IsProbing(w.flights[a.id]) {
      assert FlightInv(w.store, w.flights[a.id]);
      ProbeCovers(w.flights[a.id].probes, w.bucket, a.digest);
    }
  }

  lemma PlanStepKeepsInv(h: PayloadHash, w: World, a: Action)
    requires WorldInv(h, w) && a.BeginCompact?
    ensures WorldInv(h, Step(h, w, a)) && Later(w.store, Step(h, w, a).store)
  {
    hide StoreInv, PlanTx;
    PlanKeepsInv(h, w.store, a.now, a.idle);
    var tx := PlanTx(w.store, a.now, a.idle);
    StoreAdvances(h, w, tx.store);
    FlightLands(h, w.(store := tx.store), a.id, Removing(a.now, false, tx.outcome.value.deleting, {}));
  }

  lemma MarkStepKeepsInv(h: PayloadHash, w: World, a: Action)
    requires WorldInv(h, w) && a.MarkStale?
    ensures WorldInv(h, Step(h, w, a)) && Later(w.store, Step(h, w, a).store)
  {
    if a.id in w.flights && w.flights[a.id].Listing? {
      var stale := w.flights[a.id].stale;
      MarkStaleKeepsInv(h, w.store, stale);
      var (store, marked) := MarkStaleTx(w.store, stale);
      StoreAdvances(h, w, store);
      FlightLands(h, w.(store := store), a.id, Removing(w.flights[a.id].now, true, marked, {}));
    }
  }

  lemma RecordStepKeepsInv(h: PayloadHash, w: World, a: Action)
    requires WorldInv(h, w) && a.RecordUpload?
    ensures WorldInv(h, Step(h, w, a)) && Later(w.store, Step(h, w, a).store)
  {
    RecordKeepsInv(h, w.store, a.digest, a.size);
    StoreAdvances(h, w, RecordTx(w.store, a.digest, a.size));
  }

  lemma AcknowledgeStepKeepsInv(h: PayloadHash, w: World, a: Action)
    requires WorldInv(h, w) && a.Acknowledge?
    ensures WorldInv(h, Step(h, w, a)) && Later(w.store, Step(h, w, a).store)
  {
    AcknowledgeKeepsInv(h, w.store, a.device, a.sequence, a.now);
    StoreAdvances(h, w, AcknowledgeTx(w.store, a.device, a.sequence, a.now).0);
  }

  lemma ClaimStepKeepsInv(h: PayloadHash, w: World, a: Action)
    requires WorldInv(h, w) && a.Claim?
    ensures WorldInv(h, Step(h, w, a)) && Later(w.store, Step(h, w, a).store)
  {
    hide StoreInv, ClaimTx;
    ClaimKeepsInv(h, w.store, a.scheme, a.keyId, a.now);
    var tx := ClaimTx(w.store, a.scheme, a.keyId, a.now);
    ClaimAnswered(h, w, tx.store, tx.outcome.value);
  }

  /** Every step, enabled or not, keeps the world invariant and never goes back. */
  lemma StepKeepsInv(h: PayloadHash, w: World, a: Action)
    requires WorldInv(h, w)
    ensures WorldInv(h, Step(h, w, a))
    ensures Later(w.store, Step(h, w, a).store)
  {
    hide WorldInv;
    if a.CommitPush? {
      if a.id in w.flights && w.flights[a.id].Pushing? { PushStepKeepsInv(h, w, a.id, a.now); }
    } else if a.CommitPublish? {
      if a.id in w.flights && w.flights[a.id].Publishing? { PublishStepKeepsInv(h, w, a.id, a.now); }
    } else if a.FinishDeletion? {
      if a.id in w.flights && w.flights[a.id].Removing? { FinishStepKeepsInv(h, w, a.id, a.order); }
    } else if a.BeginPush? {
      BeginPushKeepsInv(h, w, a);
    } else if a.BeginPublish? {
      BeginPublishKeepsInv(h, w, a);
    } else if a.BeginCompact? {
      PlanStepKeepsInv(h, w, a);
    } else if a.MarkStale? {
      MarkStepKeepsInv(h, w, a);
    } else if a.RecordUpload? {
      RecordStepKeepsInv(h, w, a);
    } else if a.Acknowledge? {
      AcknowledgeStepKeepsInv(h, w, a);
    } else if a.Claim? {
      ClaimStepKeepsInv(h, w, a);
    } else {
      FlightStepKeepsInv(h, w, a);
    }
  }

  /** The invariant holds after every run of every interleaving, and runs never go back. */
  lemma {:induction false} RunKeepsInv(h: PayloadHash, w: World, actions: seq<Action>)
    requires WorldInv(h, w)
    ensures WorldInv(h, Run(h, w, actions))
    ensures Later(w.store, Run(h, w, actions).store)
    decreases |actions|
  {
    if actions != [] {
      StepKeepsInv(h, w, actions[0]);
      RunKeepsInv(h, Step(h, w, actions[0]), actions[1..]);
    }
  }

  lemma InitialWorld(h: PayloadHash)
    ensures WorldInv(h, INIT)
  {
    FreshStore(h);
  }
}
