/**
The pull side of a device's sync cycle against a workspace that stands still meanwhile: the page
loop, and hydration from a checkpoint when the log was cut above the device's cursor.
*/
module SyncClient {
  import opened Wrappers
  import opened ContentManifests
  import opened SyncContracts
  import opened SyncStore
  import opened SyncHistory
  import opened SyncInvariants
  import opened SyncPull
  import opened SyncObject

  // LogCut is the truncation answer, PagesUsedUp the page limit of one cycle.
  datatype PullEnd = Drained | Applied | PagesUsedUp | LogCut | Rejected | Blocked

  // The page answers a cursor from the floor on, and moves it forward unless it is at the end.
  lemma PageServes(h: PayloadHash, s: Store, cursor: nat, limit: nat, size: RowBytes, r: PullResult)
    requires ValidPull(cursor, limit) && cursor <= |s.history| <= MAX_SAFE_INTEGER
    ensures HistoryInv(h, s) && Pulls(s, cursor, limit, size, r) ==>
      if cursor < s.floor.compactedThrough then r.LogTruncated?
      else
        && r.Page? && r.latestServerSequence == |s.history| && |r.operations| <= limit
        && OrderedAndBounded(r.operations, r.latestServerSequence)
        && IsSlice(s.history, cursor, r.operations)
        && (cursor < |s.history| <==> r.operations != [])
  {
    if HistoryInv(h, s) && Pulls(s, cursor, limit, size, r) && cursor >= s.floor.compactedThrough {
      PullAdvances(h, s, cursor, limit, size, r);
      hide HistoryInv;
      SliceIsOrdered(s.history, cursor, r.operations);
    }
  }

  lemma LastOfSlice(history: seq<Entry>, cursor: nat, operations: seq<LogRow>)
    requires IsSlice(history, cursor, operations) && operations != []
    ensures operations[|operations| - 1].serverSequence == cursor + |operations| <= |history|
  {
  }

  // Checking and applying the page that answers a cursor, given that it is what the workspace serves.
  method ApplyPage(ghost history: seq<Entry>, response: PullResult, cursor: nat, limit: nat)
    returns (end: PullEnd, operations: seq<LogRow>, advanced: nat)
    requires response.Page? && response.latestServerSequence == |history| && |response.operations| <= limit
    requires OrderedAndBounded(response.operations, response.latestServerSequence)
    requires IsSlice(history, cursor, response.operations) && cursor <= |history|
    requires cursor < |history| <==> response.operations != []
    ensures operations == response.operations && advanced == cursor + |operations|
    ensures end == if advanced == |history| then Drained else Applied
  {
    var checked := ParsePullResponse(response.operations, response.latestServerSequence);
    hide IsSlice, OrderedAndBounded;
    if checked.Err? || |response.operations| > limit ||
       (response.operations == [] && response.latestServerSequence > cursor) {
      return Rejected, [], cursor;
    }
    operations := response.operations;
    if operations == [] {
      return Drained, [], cursor;
    }
    LastOfSlice(history, cursor, operations);
    advanced := operations[|operations| - 1].serverSequence;
    if advanced <= cursor {
      return Rejected, operations, advanced;
    }
    end := if advanced >= response.latestServerSequence then Drained else Applied;
  }

  /**
  One page of the pull loop. The page is checked, applied, and moves the cursor to its last
  sequence; no page of the workspace is ever rejected.
  */
  method PullPage(workspace: WorkspaceSyncObject, cursor: nat, limit: nat, size: RowBytes)
    returns (end: PullEnd, operations: seq<LogRow>, advanced: nat)
    requires HistoryInv(workspace.sha256, workspace.State())
    requires ValidPull(cursor, limit) && cursor <= |workspace.history| <= MAX_SAFE_INTEGER
    ensures cursor < workspace.floor.compactedThrough ==> end == LogCut && operations == []
    ensures cursor >= workspace.floor.compactedThrough ==>
      && IsSlice(workspace.history, cursor, operations) && advanced == cursor + |operations|
      && end == (if advanced == |workspace.history| then Drained else Applied)
      && (cursor < |workspace.history| ==> operations != [])
  {
    var response := workspace.PullOperations(cursor, limit, size);
    ghost var s := workspace.State();
    assert s.history == workspace.history && s.floor == workspace.floor;
    PageServes(workspace.sha256, s, cursor, limit, size, response);
    hide *;
    if !response.Page? {
      return LogCut, [], cursor;
    }
    end, operations, advanced := ApplyPage(workspace.history, response, cursor, limit);
  }

  /**
  The pull phase: page after page until the log is drained or the cycle's pages are used up. It
  applies the history after the cursor in order, and all of it when it drains; it drains whenever
  the cycle allows a page per missing operation.
  */
  method PullPhase(workspace: WorkspaceSyncObject, cursor: nat, limit: nat, size: RowBytes, maxPages: nat)
    returns (end: PullEnd, applied: seq<LogRow>)
    requires HistoryInv(workspace.sha256, workspace.State())
    requires ValidPull(cursor, limit) && cursor <= |workspace.history| <= MAX_SAFE_INTEGER
    ensures cursor < workspace.floor.compactedThrough ==> end == LogCut && applied == []
    ensures cursor >= workspace.floor.compactedThrough ==>
      && IsSlice(workspace.history, cursor, applied) && (end == Drained || end == PagesUsedUp)
      && (end == Drained ==> applied == LogRows(workspace.history, cursor))
      && (end == PagesUsedUp ==> maxPages <= |applied| < |workspace.history| - cursor)
  {
    applied := [];
    var at, pages := cursor, 0;
    hide HistoryInv, IsSlice, LogRows;
    EmptySlice(workspace.history, cursor);
    while true
      invariant cursor <= at <= |workspace.history| && at == cursor + |applied| && pages <= |applied|
      invariant IsSlice(workspace.history, cursor, applied)
      invariant pages > 0 ==> cursor >= workspace.floor.compactedThrough && pages < maxPages
      invariant pages == 0 ==> at == cursor
      decreases |workspace.history| - at, maxPages - pages
    {
      var page, operations, advanced := PullPage(workspace, at, limit, size);
      if page == LogCut || page == Rejected {
        return page, applied;
      }
      SlicesJoin(workspace.history, cursor, applied, at, operations);
      SliceFits(workspace.history, at, operations);
      applied := applied + operations;
      at := advanced;
      if page == Drained {
        WholeSlice(workspace.history, cursor, applied);
        return Drained, applied;
      }
      pages := pages + 1;
      if pages >= maxPages {
        return PagesUsedUp, applied;
      }
    }
  }

  /**
  A device with nothing left to upload catches up from any cursor of a reachable workspace: from
  its cursor, or from the latest checkpoint when the log was cut, it applies everything after it.
  */
  method CatchUp(workspace: WorkspaceSyncObject, cursor: nat, limit: nat, size: RowBytes, maxPages: nat)
    returns (end: PullEnd, from: nat, applied: seq<LogRow>)
    requires StoreInv(workspace.sha256, workspace.State())
    requires ValidPull(cursor, limit) && cursor <= |workspace.history| <= MAX_SAFE_INTEGER
    ensures end == Drained || end == PagesUsedUp
    ensures from == (if cursor >= workspace.floor.compactedThrough then cursor else MaxOf(workspace.checkpoints.Keys))
    ensures end == Drained ==> applied == LogRows(workspace.history, from)
    ensures maxPages >= |workspace.history| - from ==> end == Drained
  {
    end, applied := PullPhase(workspace, cursor, limit, size, maxPages);
    from := cursor;
    if end == LogCut {
      var checkpoint := workspace.LatestCheckpoint();
      if checkpoint.None? {
        return Blocked, cursor, [];
      }
      from := checkpoint.value.serverSequence;
      end, applied := PullPhase(workspace, from, limit, size, maxPages);
    }
  }
}
