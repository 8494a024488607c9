/**
What a push and a publication do when no other request runs between their presence checks and
their commit.
*/
module SyncRequests {
  import opened Wrappers
  import opened ContentManifests
  import opened SyncContracts
  import opened SyncStore
  import opened SyncInvariants
  import opened SyncProtocol

  function Probings(id: nat, digests: seq<Digest>): seq<Action> {
    if digests == [] then [] else [Probe(id, digests[0])] + Probings(id, digests[1..])
  }

  // The presence checks of these digests against the bucket.
  function Probed(p: Probes, bucket: map<Digest, nat>, digests: set<Digest>): Probes {
    var asked := p.unprobed * digests;
    p.(unprobed := p.unprobed - asked, confirmed := p.confirmed + asked * bucket.Keys, missing := p.missing + (asked - bucket.Keys))
  }

  lemma ProbeOneIs(p: Probes, bucket: map<Digest, nat>, d: Digest)
    ensures ProbeOne(p, bucket, d) == Probed(p, bucket, {d})
  {
    if d in p.unprobed {
      assert p.unprobed * {d} == {d};
    } else {
      assert p.unprobed * {d} == {};
    }
  }

  lemma ProbedTwice(p: Probes, bucket: map<Digest, nat>, a: set<Digest>, b: set<Digest>)
    ensures Probed(Probed(p, bucket, a), bucket, b) == Probed(p, bucket, a + b)
  {
  }

  lemma {:induction false} RunProbings(h: PayloadHash, w: World, id: nat, f: Flight, digests: seq<Digest>)
    requires id in w.flights && w.flights[id] == f && IsProbing(f)
    ensures Run(h, w, Probings(id, digests)) ==
            w.(flights := w.flights[id := f.(probes := Probed(f.probes, w.bucket, Elements(digests)))])
    decreases |digests|
  {
    if digests == [] {
      assert Elements(digests) == {};
      assert Probed(f.probes, w.bucket, {}) == f.probes;
      assert w.flights[id := f] == w.flights;
    } else {
      var d, rest := digests[0], digests[1..];
      assert Elements(digests) == {d} + Elements(rest);
      assert Probings(id, digests)[1..] == Probings(id, rest);
      ProbeOneIs(f.probes, w.bucket, d);
      ProbedTwice(f.probes, w.bucket, {d}, Elements(rest));
      var g := f.(probes := ProbeOne(f.probes, w.bucket, d));
      hide Probed, ProbeOne;
      RunProbings(h, w.(flights := w.flights[id := g]), id, g, rest);
    }
  }

  lemma RunAround(h: PayloadHash, w: World, first: Action, between: seq<Action>, last: Action)
    ensures Run(h, w, [first] + (between + [last])) == Step(h, Run(h, Step(h, w, first), between), last)
  {
    hide Step;
    RunOne(h, w, first);
    RunConcat(h, w, [first], between + [last]);
    RunConcat(h, Step(h, w, first), between, [last]);
    RunOne(h, Run(h, Step(h, w, first), between), last);
  }

  lemma ProbedAll(digests: set<Digest>, bucket: map<Digest, nat>)
    ensures Probed(Probes(digests, {}, {}, {}), bucket, digests) ==
            Probes({}, digests * bucket.Keys, digests - bucket.Keys, {})
  {
    assert digests * digests == digests;
    assert {} + digests * bucket.Keys == digests * bucket.Keys;
    assert {} + (digests - bucket.Keys) == digests - bucket.Keys;
  }

  // The commit of a request whose checks are all answered.
  lemma CommitAnsweredPush(h: PayloadHash, w: World, id: nat, device: DeviceId, ops: seq<ClientOperation>, p: Probes, now: nat)
    requires id !in w.flights && p.unprobed == {}
    ensures var v := Step(h, w.(flights := w.flights[id := Pushing(device, ops, p)]), CommitPush(id, now));
      && v.bucket == w.bucket && v.flights == w.flights
      && (p.missing == {} ==> v.store == PushTx(h, w.store, device, ops, now).store)
      && (p.missing != {} ==> v == w)
  {
    hide CommitFrom;
    assert w.flights[id := Pushing(device, ops, p)] - {id} == w.flights;
  }

  lemma CommitAnsweredPublish(h: PayloadHash, w: World, id: nat, c: CheckpointRecord, p: Probes, now: nat)
    requires id !in w.flights && p.unprobed == {}
    ensures var v := Step(h, w.(flights := w.flights[id := Publishing(c, p)]), CommitPublish(id, now));
      && v.bucket == w.bucket && v.flights == w.flights
      && (p.missing == {} ==> v.store == PublishTx(w.store, c, now).store)
      && (p.missing != {} ==> v == w)
  {
    assert w.flights[id := Publishing(c, p)] - {id} == w.flights;
  }

  /**
  An undisturbed push reaches its transaction if and only if every chunk its pending operations carry
  is in the bucket; otherwise it is answered as missing content and changes nothing.
  */
  lemma UndisturbedPush(
    h: PayloadHash, w: World, id: nat, device: DeviceId, ops: seq<ClientOperation>, order: seq<Digest>, now: nat)
    requires id !in w.flights && WellFormedBatch(ops) && Elements(order) == PendingDigests(h, w.store, device, ops, 0)
    ensures var v := Run(h, w, [BeginPush(id, device, ops)] + (Probings(id, order) + [CommitPush(id, now)]));
      && v.bucket == w.bucket && v.flights == w.flights
      && ((forall d :: PendingNeeds(h, w.store, device, ops, 0, d) ==> d in w.bucket) ==>
            v.store == PushTx(h, w.store, device, ops, now).store)
      && ((exists d :: PendingNeeds(h, w.store, device, ops, 0, d) && d !in w.bucket) ==> v == w)
  {
    var digests := PendingDigests(h, w.store, device, ops, 0);
    forall d ensures d in digests <==> PendingNeeds(h, w.store, device, ops, 0, d) {
      PushProbesWhatItNeeds(h, w.store, device, ops, 0, d);
    }
    hide PendingDigests, PendingNeeds, PushTx, WellFormedBatch;
    var f := Pushing(device, ops, Probes(digests, {}, {}, {}));
    assert Step(h, w, BeginPush(id, device, ops)) == w.(flights := w.flights[id := f]);
    hide Step, Run;
    RunAround(h, w, BeginPush(id, device, ops), Probings(id, order), CommitPush(id, now));
    RunProbings(h, w.(flights := w.flights[id := f]), id, f, order);
    ProbedAll(digests, w.bucket);
    hide Probed;
    var done := Pushing(device, ops, Probes({}, digests * w.bucket.Keys, digests - w.bucket.Keys, {}));
    assert w.flights[id := f][id := done] == w.flights[id := done];
    CommitAnsweredPush(h, w, id, device, ops, Probes({}, digests * w.bucket.Keys, digests - w.bucket.Keys, {}), now);
    if d :| PendingNeeds(h, w.store, device, ops, 0, d) && d !in w.bucket { assert d in digests - w.bucket.Keys; }
  }

  /** An undisturbed publication reaches its transaction if and only if every chunk of the checkpoint is in the bucket. */
  lemma UndisturbedPublish(h: PayloadHash, w: World, id: nat, c: CheckpointRecord, order: seq<Digest>, now: nat)
    requires id !in w.flights && c.serverSequence <= Latest(w.store.log, w.store.highWater)
    requires Elements(order) == ManifestDigests(c.content)
    ensures var v := Run(h, w, [BeginPublish(id, c)] + (Probings(id, order) + [CommitPublish(id, now)]));
      && v.bucket == w.bucket && v.flights == w.flights
      && ((forall chunk :: chunk in c.content.chunks ==> chunk.digest in w.bucket) ==>
            v.store == PublishTx(w.store, c, now).store)
      && ((exists chunk :: chunk in c.content.chunks && chunk.digest !in w.bucket) ==> v == w)
  {
    var digests := ManifestDigests(c.content);
    assert forall chunk :: chunk in c.content.chunks ==> chunk.digest in digests;
    var f := Publishing(c, Probes(digests, {}, {}, {}));
    hide ManifestDigests, PublishTx, Latest;
    assert Step(h, w, BeginPublish(id, c)) == w.(flights := w.flights[id := f]);
    hide Step, Run;
    RunAround(h, w, BeginPublish(id, c), Probings(id, order), CommitPublish(id, now));
    RunProbings(h, w.(flights := w.flights[id := f]), id, f, order);
    ProbedAll(digests, w.bucket);
    hide Probed;
    var done := Publishing(c, Probes({}, digests * w.bucket.Keys, digests - w.bucket.Keys, {}));
    assert w.flights[id := f][id := done] == w.flights[id := done];
    CommitAnsweredPublish(h, w, id, c, Probes({}, digests * w.bucket.Keys, digests - w.bucket.Keys, {}), now);
    if chunk :| chunk in c.content.chunks && chunk.digest !in w.bucket { assert chunk.digest in digests - w.bucket.Keys; }
    assert (forall chunk :: chunk in c.content.chunks ==> chunk.digest in w.bucket) ==> digests - w.bucket.Keys == {} by {
      NoneMissing(c.content, w.bucket);
    }
  }

  lemma NoneMissing(m: ContentManifest, bucket: map<Digest, nat>)
    ensures (forall chunk :: chunk in m.chunks ==> chunk.digest in bucket) ==> ManifestDigests(m) - bucket.Keys == {}
  {
  }
}
