/**
What a compaction achieves when no other request runs between its steps: no deletion mark is left,
and every object older than the grace period that is still stored is referenced.
*/
module SyncCollection {
  import opened Wrappers
  import opened ContentManifests
  import opened SyncContracts
  import opened SyncStore
  import opened SyncInvariants
  import opened SyncProtocol

  function Removals(id: nat, digests: seq<Digest>): seq<Action> {
    if digests == [] then [] else [RemoveObject(id, digests[0])] + Removals(id, digests[1..])
  }

  function Listings(id: nat, digests: seq<Digest>): seq<Action> {
    if digests == [] then [] else [ListObject(id, digests[0])] + Listings(id, digests[1..])
  }

  // A compaction on its own: plan, delete, finish, then list, mark, delete, finish.
  function DeleteMarked(id: nat, now: nat, idle: nat, first: seq<Digest>): seq<Action> {
    [BeginCompact(id, now, idle)] + (Removals(id, first) + [FinishDeletion(id, first)])
  }

  function Sweep(id: nat, listed: seq<Digest>, second: seq<Digest>): seq<Action> {
    Listings(id, listed) + ([MarkStale(id)] + (Removals(id, second) + [FinishDeletion(id, second)]))
  }

  predicate IsStale(bucket: map<Digest, nat>, now: nat, d: Digest) {
    d in bucket && bucket[d] + UNREFERENCED_CHUNK_GRACE_SECONDS <= now
  }

  function StaleAmong(bucket: map<Digest, nat>, now: nat, digests: set<Digest>): set<Digest> {
    set d | d in digests && IsStale(bucket, now, d)
  }

  /* ---------- Runs of one kind of step ---------- */

  lemma {:induction false} RunRemovals(h: PayloadHash, w: World, id: nat, f: Flight, digests: seq<Digest>)
    requires id in w.flights && w.flights[id] == f && f.Removing? && Elements(digests) <= f.toDelete
    ensures Run(h, w, Removals(id, digests)) ==
            w.(bucket := w.bucket - Elements(digests),
               flights := w.flights[id := f.(removed := f.removed + Elements(digests))])
    decreases |digests|
  {
    if digests == [] {
      assert Elements(digests) == {};
      assert w.bucket - {} == w.bucket && f.removed + {} == f.removed;
      assert w.flights[id := f] == w.flights;
    } else {
      var d, rest := digests[0], digests[1..];
      assert Elements(digests) == {d} + Elements(rest);
      assert Removals(id, digests)[1..] == Removals(id, rest);
      var g := f.(removed := f.removed + {d});
      var next := w.(bucket := w.bucket - {d}, flights := w.flights[id := g]);
      assert Step(h, w, RemoveObject(id, d)) == next by { assert d in Elements(digests); }
      RunRemovals(h, next, id, g, rest);
      assert w.bucket - {d} - Elements(rest) == w.bucket - Elements(digests);
      assert f.removed + {d} + Elements(rest) == f.removed + Elements(digests);
    }
  }

  lemma {:induction false} RunListings(h: PayloadHash, w: World, id: nat, now: nat, stale: set<Digest>, digests: seq<Digest>)
    requires id in w.flights && w.flights[id] == Listing(now, stale)
    ensures Run(h, w, Listings(id, digests)) ==
            w.(flights := w.flights[id := Listing(now, stale + StaleAmong(w.bucket, now, Elements(digests)))])
    decreases |digests|
  {
    if digests == [] {
      assert Elements(digests) == {};
      assert stale + StaleAmong(w.bucket, now, {}) == stale;
      assert w.flights[id := w.flights[id]] == w.flights;
    } else {
      var d, rest := digests[0], digests[1..];
      assert Elements(digests) == {d} + Elements(rest);
      assert Listings(id, digests)[1..] == Listings(id, rest);
      var more := if IsStale(w.bucket, now, d) then stale + {d} else stale;
      var next := w.(flights := w.flights[id := Listing(now, more)]);
      assert w.flights[id := Listing(now, stale)] == w.flights;
      assert Step(h, w, ListObject(id, d)) == next;
      RunListings(h, next, id, now, more, rest);
      assert more + StaleAmong(w.bucket, now, Elements(rest)) == stale + StaleAmong(w.bucket, now, Elements(digests));
    }
  }

  /* ---------- The two halves ---------- */

  // Removing everything to delete and finishing: the objects and the marks are gone.
  lemma DeleteAndFinish(h: PayloadHash, w: World, id: nat, f: Flight, order: seq<Digest>)
    requires StoreInv(h, w.store) && id in w.flights && w.flights[id] == f && f.Removing? && f.removed == {}
    requires Elements(order) == f.toDelete == w.store.deleting
    ensures var v := Run(h, w, Removals(id, order) + [FinishDeletion(id, order)]);
      && StoreInv(h, v.store) && v.store.refs == w.store.refs && v.store.deleting == {}
      && v.bucket == w.bucket - Elements(order)
      && (if f.sweeping then id !in v.flights else id in v.flights && v.flights[id] == Listing(f.now, {}))
  {
    RunRemovals(h, w, id, f, order);
    var mid := Run(h, w, Removals(id, order));
    RunConcat(h, w, Removals(id, order), [FinishDeletion(id, order)]);
    RunOne(h, mid, FinishDeletion(id, order));
    assert {} + Elements(order) == f.toDelete;
    assert mid.flights[id] == f.(removed := f.toDelete);
    FinishKeepsInv(h, w.store, order);
  }

  /** The first half of a compaction removes every marked object and every mark. */
  lemma MarkedIsDeleted(h: PayloadHash, w: World, id: nat, now: nat, idle: nat, first: seq<Digest>)
    requires StoreInv(h, w.store) && id !in w.flights
    requires Elements(first) == PlanTx(w.store, now, idle).store.deleting
    ensures var v := Run(h, w, DeleteMarked(id, now, idle, first));
      && StoreInv(h, v.store) && v.store.refs == PlanTx(w.store, now, idle).store.refs && v.store.deleting == {}
      && v.bucket == w.bucket - Elements(first)
      && id in v.flights && v.flights[id] == Listing(now, {})
  {
    PlanKeepsInv(h, w.store, now, idle);
    hide StoreInv, PlanTx;
    var begin := BeginCompact(id, now, idle);
    var tx := PlanTx(w.store, now, idle);
    var f := Removing(now, false, tx.outcome.value.deleting, {});
    var planned := w.(store := tx.store, flights := w.flights[id := f]);
    assert Step(h, w, begin) == planned;
    RunOne(h, w, begin);
    RunConcat(h, w, [begin], Removals(id, first) + [FinishDeletion(id, first)]);
    DeleteAndFinish(h, planned, id, f, first);
  }

  /** The sweep removes exactly the stale objects among the listed ones that nothing refers to. */
  lemma StaleIsSwept(h: PayloadHash, w: World, id: nat, now: nat, listed: seq<Digest>, second: seq<Digest>)
    requires StoreInv(h, w.store) && w.store.deleting == {} && id in w.flights && w.flights[id] == Listing(now, {})
    requires Elements(second) == StaleAmong(w.bucket, now, Elements(listed)) - Referenced(w.store.refs)
    ensures var v := Run(h, w, Sweep(id, listed, second));
      && StoreInv(h, v.store) && v.store.refs == w.store.refs && v.store.deleting == {}
      && v.bucket == w.bucket - Elements(second) && id !in v.flights
  {
    var stale := StaleAmong(w.bucket, now, Elements(listed));
    RunListings(h, w, id, now, {}, listed);
    assert {} + stale == stale;
    var heard := w.(flights := w.flights[id := Listing(now, stale)]);
    MarkStaleKeepsInv(h, w.store, stale);
    hide StoreInv, StaleAmong;
    var (store, marked) := MarkStaleTx(w.store, stale);
    assert marked == Elements(second) && store.deleting == {} + marked && store.refs == w.store.refs;
    var f := Removing(now, true, marked, {});
    var mid := heard.(store := store, flights := heard.flights[id := f]);
    assert Step(h, heard, MarkStale(id)) == mid;
    SweepRuns(h, w, id, listed, second);
    hide Step, MarkStaleTx, Referenced, Listings, Removals, Run;
    DeleteAndFinish(h, mid, id, f, second);
  }

  lemma SweepRuns(h: PayloadHash, w: World, id: nat, listed: seq<Digest>, second: seq<Digest>)
    ensures Run(h, w, Sweep(id, listed, second)) ==
            Run(h, Step(h, Run(h, w, Listings(id, listed)), MarkStale(id)), Removals(id, second) + [FinishDeletion(id, second)])
  {
    hide Step;
    var heard := Run(h, w, Listings(id, listed));
    var tail := Removals(id, second) + [FinishDeletion(id, second)];
    RunConcat(h, w, Listings(id, listed), [MarkStale(id)] + tail);
    RunOne(h, heard, MarkStale(id));
    RunConcat(h, heard, [MarkStale(id)], tail);
  }

  /* ---------- The whole compaction ---------- */

  /**
  A compaction that runs undisturbed is complete: afterwards no mark is left, every stored object
  older than the grace period is referenced, and nothing referenced was removed. The marked
  objects, the listing and the stale objects may come in any order.
  */
  lemma UndisturbedCompactionCollects(
    h: PayloadHash, w: World, id: nat, now: nat, idle: nat, first: seq<Digest>, listed: seq<Digest>, second: seq<Digest>)
    requires WorldInv(h, w) && id !in w.flights
    requires Elements(first) == PlanTx(w.store, now, idle).store.deleting
    requires Elements(listed) == w.bucket.Keys - Elements(first)
    requires Elements(second) ==
      StaleAmong(w.bucket, now, Elements(listed)) - Referenced(PlanTx(w.store, now, idle).store.refs)
    ensures var v := Run(h, w, DeleteMarked(id, now, idle, first) + Sweep(id, listed, second));
      && v.store.deleting == {} && id !in v.flights
      && (forall d :: IsStale(v.bucket, now, d) ==> d in Referenced(v.store.refs))
      && v.bucket == w.bucket - (Elements(first) + Elements(second))
      && (Elements(first) + Elements(second)) !! Referenced(v.store.refs)
  {
    PlanKeepsInv(h, w.store, now, idle);
    MarkedAreUnreferenced(h, PlanTx(w.store, now, idle).store);
    RunConcat(h, w, DeleteMarked(id, now, idle, first), Sweep(id, listed, second));
    MarkedIsDeleted(h, w, id, now, idle, first);
    var mid := Run(h, w, DeleteMarked(id, now, idle, first));
    hide WorldInv, StoreInv, PlanTx, Run, Referenced;
    SameStale(w.bucket, now, Elements(first), Elements(listed));
    StaleIsSwept(h, mid, id, now, listed, second);
    SweptIsReferenced(w.bucket, now, Elements(first), Elements(listed), Elements(second), Referenced(mid.store.refs));
  }

  lemma SameStale(bucket: map<Digest, nat>, now: nat, gone: set<Digest>, listed: set<Digest>)
    requires listed == bucket.Keys - gone
    ensures StaleAmong(bucket - gone, now, listed) == StaleAmong(bucket, now, listed)
  {
  }

  lemma SweptIsReferenced(
    bucket: map<Digest, nat>, now: nat, first: set<Digest>, listed: set<Digest>, second: set<Digest>, used: set<Digest>)
    requires listed == bucket.Keys - first && second == StaleAmong(bucket, now, listed) - used
    ensures bucket - first - second == bucket - (first + second)
    ensures forall d :: IsStale(bucket - first - second, now, d) ==> d in used
  {
    forall d | IsStale(bucket - first - second, now, d) ensures d in used {
      assert d in StaleAmong(bucket, now, listed) && d !in second;
    }
  }

  lemma MarkedAreUnreferenced(h: PayloadHash, s: Store)
    requires StoreInv(h, s)
    ensures s.deleting !! Referenced(s.refs)
  {
    hide FloorInv, UsageInv, SealInv;
  }
}
