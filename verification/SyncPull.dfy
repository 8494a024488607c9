/**
Cursor pulls: what one page is, that pages chain into the history under any interleaving, and
that a device the log no longer reaches can hydrate from a checkpoint and go on from there.
*/
module SyncPull {
  import opened Wrappers
  import opened ContentManifests
  import opened SyncContracts
  import opened SyncStore
  import opened SyncHistory
  import opened SyncInvariants
  import opened SyncProtocol

  // Serialized size of a replicated operation; any function will do.
  type RowBytes = LogRow -> nat

  datatype PullResult =
    | InvalidPull
    | LogTruncated(compactedThrough: nat, checkpointServerSequence: nat)
    | Page(operations: seq<LogRow>, latestServerSequence: nat)

  function Digits(n: nat): (d: nat)
    ensures d >= 1
  {
    if n < 10 then 1 else 1 + Digits(n / 10)
  }

  // {"syncProtocolVersion":2,"operations":[],"latestServerSequence":N}
  function EnvelopeBytes(latest: nat): nat {
    65 + Digits(latest)
  }

  // The budget counts a separator with every operation.
  function BudgetedBytes(latest: nat, size: RowBytes, operations: seq<LogRow>): nat {
    if operations == [] then EnvelopeBytes(latest)
    else
      var last := |operations| - 1;
      BudgetedBytes(latest, size, operations[..last]) + size(operations[last]) + 1
  }

  // The page as sent: the operations stand between the brackets with commas between them.
  function SerializedBytes(latest: nat, size: RowBytes, operations: seq<LogRow>): nat {
    if operations == [] then EnvelopeBytes(latest)
    else
      var last := |operations| - 1;
      SerializedBytes(latest, size, operations[..last]) + size(operations[last]) + if last == 0 then 0 else 1
  }

  function FirstRows(rows: seq<LogRow>, limit: nat): seq<LogRow> {
    rows[..Min(limit, |rows|)]
  }

  // The longest non-empty prefix of the rows within the byte budget, or the first row alone.
  ghost predicate IsPageOf(latest: nat, size: RowBytes, rows: seq<LogRow>, page: seq<LogRow>) {
    && page <= rows
    && (rows != [] ==> page != [])
    && (|page| > 1 ==> BudgetedBytes(latest, size, page) <= MAX_SYNC_PULL_PAGE_BYTES)
    && (|page| < |rows| ==> BudgetedBytes(latest, size, rows[..|page| + 1]) > MAX_SYNC_PULL_PAGE_BYTES)
  }

  predicate ValidPull(cursor: nat, limit: nat) {
    cursor <= MAX_SAFE_INTEGER && 1 <= limit <= MAX_SYNC_PULL_OPERATIONS
  }

  ghost predicate Pulls(s: Store, cursor: nat, limit: nat, size: RowBytes, r: PullResult) {
    if !ValidPull(cursor, limit) then r == InvalidPull
    else if cursor < s.floor.compactedThrough then
      r == LogTruncated(s.floor.compactedThrough, s.floor.checkpointServerSequence)
    else
      r.Page? && r.latestServerSequence == Latest(s.log, s.highWater) &&
      IsPageOf(r.latestServerSequence, size, FirstRows(RowsAbove(s.log, cursor), limit), r.operations)
  }

  /* ---------- One page ---------- */

  lemma {:induction false} BudgetGrows(latest: nat, size: RowBytes, rows: seq<LogRow>, n: nat)
    requires n <= |rows|
    ensures BudgetedBytes(latest, size, rows[..n]) <= BudgetedBytes(latest, size, rows)
    decreases |rows|
  {
    if n < |rows| {
      var last := |rows| - 1;
      BudgetGrows(latest, size, rows[..last], n);
      assert rows[..last][..n] == rows[..n];
    } else {
      assert rows[..n] == rows;
    }
  }

  /** The page is determined: no shorter or longer prefix meets its definition. */
  lemma PageIsUnique(latest: nat, size: RowBytes, rows: seq<LogRow>, p: seq<LogRow>, q: seq<LogRow>)
    requires IsPageOf(latest, size, rows, p) && IsPageOf(latest, size, rows, q)
    ensures p == q
  {
    if |p| < |q| {
      PageNotShorter(latest, size, rows, p, q);
    } else if |q| < |p| {
      PageNotShorter(latest, size, rows, q, p);
    }
  }

  lemma PageNotShorter(latest: nat, size: RowBytes, rows: seq<LogRow>, p: seq<LogRow>, q: seq<LogRow>)
    requires IsPageOf(latest, size, rows, p) && IsPageOf(latest, size, rows, q)
    ensures |q| <= |p|
  {
    if |p| < |q| {
      assert q[..|p| + 1] == rows[..|p| + 1];
      BudgetGrows(latest, size, q, |p| + 1);
    }
  }

  lemma {:induction false} SerializedWithinBudgeted(latest: nat, size: RowBytes, page: seq<LogRow>)
    ensures SerializedBytes(latest, size, page) <= BudgetedBytes(latest, size, page)
  {
    if page != [] { SerializedWithinBudgeted(latest, size, page[..|page| - 1]); }
  }

  /** A page with more than one operation never exceeds the byte budget when serialized. */
  lemma PageWithinBudget(latest: nat, size: RowBytes, rows: seq<LogRow>, page: seq<LogRow>)
    requires IsPageOf(latest, size, rows, page) && |page| > 1
    ensures SerializedBytes(latest, size, page) <= MAX_SYNC_PULL_PAGE_BYTES
  {
    SerializedWithinBudgeted(latest, size, page);
  }

  /* ---------- The page as text ---------- */

  function Decimal(n: nat): (text: string)
    ensures |text| == Digits(n)
  {
    if n < 10 then [('0' as int + n) as char] else Decimal(n / 10) + [('0' as int + n % 10) as char]
  }

  function Joined(render: LogRow -> string, operations: seq<LogRow>): string {
    if operations == [] then ""
    else
      var last := |operations| - 1;
      Joined(render, operations[..last]) + (if last == 0 then "" else ",") + render(operations[last])
  }

  // The response as it is sent, when each character is one byte.
  function PageText(latest: nat, render: LogRow -> string, operations: seq<LogRow>): string {
    "{\"syncProtocolVersion\":2,\"operations\":[" + Joined(render, operations) + "],\"latestServerSequence\":" +
    Decimal(latest) + "}"
  }

  lemma {:induction false} JoinedBytes(latest: nat, render: LogRow -> string, size: RowBytes, operations: seq<LogRow>)
    requires forall row :: size(row) == |render(row)|
    ensures SerializedBytes(latest, size, operations) == EnvelopeBytes(latest) + |Joined(render, operations)|
  {
    if operations != [] { JoinedBytes(latest, render, size, operations[..|operations| - 1]); }
  }

  /** The serialized size is the length of the response text, and the budget counts one comma too many. */
  lemma SerializedIsTheText(latest: nat, render: LogRow -> string, size: RowBytes, operations: seq<LogRow>)
    requires forall row :: size(row) == |render(row)|
    ensures SerializedBytes(latest, size, operations) == |PageText(latest, render, operations)|
    ensures BudgetedBytes(latest, size, operations) ==
            |PageText(latest, render, operations)| + if operations == [] then 0 else 1
  {
    JoinedBytes(latest, render, size, operations);
    BudgetCountsOneMore(latest, size, operations);
    assert |"{\"syncProtocolVersion\":2,\"operations\":["| + |"],\"latestServerSequence\":"| + |"}"| == 65;
  }

  lemma {:induction false} BudgetCountsOneMore(latest: nat, size: RowBytes, operations: seq<LogRow>)
    ensures BudgetedBytes(latest, size, operations) ==
            SerializedBytes(latest, size, operations) + if operations == [] then 0 else 1
  {
    if operations != [] { BudgetCountsOneMore(latest, size, operations[..|operations| - 1]); }
  }

  /**
  A page stops early only for a reason: it has as many operations as asked for, it reaches the end of
  the history, or the next operation would have taken the text to the byte budget or over it.
  */
  lemma PageIsFull(h: PayloadHash, s: Store, cursor: nat, limit: nat, size: RowBytes, r: PullResult)
    requires HistoryInv(h, s) && Pulls(s, cursor, limit, size, r) && r.Page? && cursor <= |s.history|
    ensures var n := |r.operations|;
      || n == limit || cursor + n == |s.history|
      || (0 < n && n < |LogRows(s.history, cursor)| &&
          SerializedBytes(|s.history|, size, LogRows(s.history, cursor)[..n + 1]) >= MAX_SYNC_PULL_PAGE_BYTES)
  {
    LatestIsHistoryLength(h, s);
    assert LogMatches(s);
    hide HistoryInv;
    RowsAfterCursor(s.history, s.floor.compactedThrough, cursor);
    hide IsPageOf, RowsAbove;
    StopsForAReason(|s.history|, size, LogRows(s.history, cursor), limit, r.operations);
  }

  lemma StopsForAReason(latest: nat, size: RowBytes, rows: seq<LogRow>, limit: nat, page: seq<LogRow>)
    requires limit > 0 && IsPageOf(latest, size, FirstRows(rows, limit), page)
    ensures |page| == limit || |page| == |rows| ||
      (0 < |page| < |rows| && SerializedBytes(latest, size, rows[..|page| + 1]) >= MAX_SYNC_PULL_PAGE_BYTES)
  {
    var n := |page|;
    if n < limit && n < |rows| {
      assert FirstRows(rows, limit)[..n + 1] == rows[..n + 1];
      BudgetCountsOneMore(latest, size, rows[..n + 1]);
    }
  }

  // Operations cursor+1, cursor+2, ... of the history.
  ghost predicate IsSlice(history: seq<Entry>, cursor: nat, operations: seq<LogRow>) {
    && cursor + |operations| <= |history|
    && forall i :: 0 <= i < |operations| ==> operations[i] == LogRow(cursor + i + 1, history[cursor + i])
  }

  lemma RowsAfterCursor(history: seq<Entry>, floor: nat, cursor: nat)
    requires floor <= cursor && floor <= |history|
    ensures RowsAbove(LogRows(history, floor), cursor) == if cursor <= |history| then LogRows(history, cursor) else []
  {
    var k := RowsSplit(LogRows(history, floor), floor, cursor);
    if cursor <= |history| { LogRowsDrop(history, floor, k); }
  }

  /** A page is the next stretch of the history after the cursor, and never empty before the end. */
  lemma PageIsNextSlice(h: PayloadHash, s: Store, cursor: nat, limit: nat, size: RowBytes, r: PullResult)
    requires HistoryInv(h, s) && Pulls(s, cursor, limit, size, r) && r.Page? && cursor <= |s.history|
    ensures r.latestServerSequence == |s.history|
    ensures IsSlice(s.history, cursor, r.operations)
    ensures cursor < |s.history| ==> r.operations != []
    ensures |r.operations| <= limit
  {
    LatestIsHistoryLength(h, s);
    assert LogMatches(s);
    hide HistoryInv;
    RowsAfterCursor(s.history, s.floor.compactedThrough, cursor);
    PagePrefixIsSlice(s.history, cursor, limit, r.latestServerSequence, size, r.operations);
  }

  lemma PagePrefixIsSlice(
    history: seq<Entry>, cursor: nat, limit: nat, latest: nat, size: RowBytes, page: seq<LogRow>)
    requires cursor <= |history| && limit > 0
    requires IsPageOf(latest, size, FirstRows(LogRows(history, cursor), limit), page)
    ensures IsSlice(history, cursor, page) && |page| <= limit && (cursor < |history| ==> page != [])
  {
  }

  /* ---------- The client's check ---------- */

  datatype PullFault = PullTooLarge | SequenceOutOfRange | SequencesUnordered

  ghost predicate OrderedAndBounded(operations: seq<LogRow>, latest: nat) {
    && latest <= MAX_SAFE_INTEGER && |operations| <= MAX_SYNC_PULL_OPERATIONS
    && (forall i :: 0 <= i < |operations| ==> 1 <= operations[i].serverSequence <= latest)
    && (forall i :: 0 < i < |operations| ==> operations[i - 1].serverSequence < operations[i].serverSequence)
  }

  /** The ordering and bound checks of `parseSyncPullResponse`. */
  method ParsePullResponse(operations: seq<LogRow>, latestServerSequence: nat) returns (r: Result<(), PullFault>)
    ensures r.Ok? <==> OrderedAndBounded(operations, latestServerSequence)
  {
    if latestServerSequence > MAX_SAFE_INTEGER {
      return Err(SequenceOutOfRange);
    }
    if |operations| > MAX_SYNC_PULL_OPERATIONS {
      return Err(PullTooLarge);
    }
    var previousServerSequence := 0;
    for i := 0 to |operations|
      invariant previousServerSequence == if i == 0 then 0 else operations[i - 1].serverSequence
      invariant forall j :: 0 <= j < i ==> 1 <= operations[j].serverSequence <= latestServerSequence
      invariant forall j :: 0 < j < i ==> operations[j - 1].serverSequence < operations[j].serverSequence
    {
      var serverSequence := operations[i].serverSequence;
      if serverSequence < 1 || serverSequence > MAX_SAFE_INTEGER {
        return Err(SequenceOutOfRange);
      }
      if serverSequence <= previousServerSequence || serverSequence > latestServerSequence {
        return Err(SequencesUnordered);
      }
      previousServerSequence := serverSequence;
    }
    return Ok(());
  }

  /** Every page passes the client's check, exactly as long as the log counter is a safe integer. */
  lemma PagePassesTheClientCheck(h: PayloadHash, s: Store, cursor: nat, limit: nat, size: RowBytes, r: PullResult)
    requires HistoryInv(h, s) && Pulls(s, cursor, limit, size, r) && r.Page?
    ensures OrderedAndBounded(r.operations, r.latestServerSequence) <==> |s.history| <= MAX_SAFE_INTEGER
  {
    LatestIsHistoryLength(h, s);
    assert LogMatches(s);
    hide HistoryInv, IsPageOf;
    if cursor <= |s.history| {
      PageIsNextSlice(h, s, cursor, limit, size, r);
      SliceIsOrdered(s.history, cursor, r.operations);
    } else {
      RowsAfterCursor(s.history, s.floor.compactedThrough, cursor);
      EmptyPage(r.latestServerSequence, size, limit, r.operations);
    }
  }

  lemma EmptyPage(latest: nat, size: RowBytes, limit: nat, page: seq<LogRow>)
    requires IsPageOf(latest, size, FirstRows([], limit), page)
    ensures page == []
  {
  }

  lemma SliceIsOrdered(history: seq<Entry>, cursor: nat, operations: seq<LogRow>)
    requires IsSlice(history, cursor, operations) && |operations| <= MAX_SYNC_PULL_OPERATIONS
    ensures OrderedAndBounded(operations, |history|) <==> |history| <= MAX_SAFE_INTEGER
  {
  }

  /* ---------- Many pages ---------- */

  // One pull of a client from its cursor, answered by the tables of that moment.
  datatype Round = Round(store: Store, cursor: nat, limit: nat, operations: seq<LogRow>)

  ghost predicate Answered(size: RowBytes, r: Round) {
    Pulls(r.store, r.cursor, r.limit, size, Page(r.operations, Latest(r.store.log, r.store.highWater)))
  }

  // Where the client stands after a round: at the sequence of the last operation it received.
  function NextCursor(r: Round): nat {
    r.cursor + |r.operations|
  }

  ghost predicate Linked(size: RowBytes, cursor: nat, rounds: seq<Round>, i: nat)
    requires i < |rounds|
  {
    Answered(size, rounds[i]) && rounds[i].cursor == if i == 0 then cursor else NextCursor(rounds[i - 1])
  }

  // A client that keeps pulling from where it stands.
  ghost predicate PullChain(size: RowBytes, cursor: nat, rounds: seq<Round>) {
    forall i :: 0 <= i < |rounds| ==> Linked(size, cursor, rounds, i)
  }

  lemma ChainAt(size: RowBytes, cursor: nat, rounds: seq<Round>, n: nat)
    requires PullChain(size, cursor, rounds) && 0 < n <= |rounds|
    ensures Answered(size, rounds[n - 1])
    ensures rounds[n - 1].cursor == if n == 1 then cursor else NextCursor(rounds[n - 2])
  {
    assert Linked(size, cursor, rounds, n - 1);
  }

  function Collected(rounds: seq<Round>, n: nat): seq<LogRow>
    requires n <= |rounds|
  {
    if n == 0 then [] else Collected(rounds, n - 1) + rounds[n - 1].operations
  }

  // Between two pulls the workspace went on, in a way that keeps the history.
  ghost predicate KeepsGoing(h: PayloadHash, s: Store, rounds: seq<Round>) {
    && (forall i :: 0 <= i < |rounds| ==> HistoryInv(h, rounds[i].store))
    && (forall i :: 0 <= i < |rounds| ==> StoreBefore(s, rounds, i).history <= rounds[i].store.history)
  }

  function StoreBefore(s: Store, rounds: seq<Round>, n: nat): Store
    requires n <= |rounds|
  {
    if n == 0 then s else rounds[n - 1].store
  }

  lemma SlicesJoin(history: seq<Entry>, cursor: nat, a: seq<LogRow>, next: nat, b: seq<LogRow>)
    requires IsSlice(history, cursor, a) && next == cursor + |a| && IsSlice(history, next, b)
    ensures IsSlice(history, cursor, a + b)
  {
  }

  lemma SliceOfLonger(history: seq<Entry>, longer: seq<Entry>, cursor: nat, operations: seq<LogRow>)
    requires IsSlice(history, cursor, operations) && history <= longer
    ensures IsSlice(longer, cursor, operations)
  {
  }

  // A round that starts inside the history receives its next stretch.
  lemma RoundIsNextSlice(h: PayloadHash, size: RowBytes, r: Round)
    ensures HistoryInv(h, r.store) && Answered(size, r) && r.cursor <= |r.store.history| ==>
      IsSlice(r.store.history, r.cursor, r.operations) && (r.cursor < |r.store.history| ==> r.operations != [])
  {
    if HistoryInv(h, r.store) && Answered(size, r) && r.cursor <= |r.store.history| {
      PageIsNextSlice(h, r.store, r.cursor, r.limit, size, Page(r.operations, Latest(r.store.log, r.store.highWater)));
    }
  }

  lemma GoesOnAt(h: PayloadHash, s: Store, rounds: seq<Round>, n: nat)
    requires KeepsGoing(h, s, rounds) && 0 < n <= |rounds|
    ensures HistoryInv(h, rounds[n - 1].store)
    ensures StoreBefore(s, rounds, n - 1).history <= rounds[n - 1].store.history
  {
    hide HistoryInv;
  }

  lemma {:induction false} PagesChain(h: PayloadHash, s: Store, size: RowBytes, cursor: nat, rounds: seq<Round>, n: nat)
    requires cursor <= |s.history| && PullChain(size, cursor, rounds) && KeepsGoing(h, s, rounds) && n <= |rounds|
    ensures IsSlice(StoreBefore(s, rounds, n).history, cursor, Collected(rounds, n))
    ensures n > 0 ==> NextCursor(rounds[n - 1]) == cursor + |Collected(rounds, n)|
  {
    hide KeepsGoing, Answered, PullChain, HistoryInv, IsSlice;
    if n > 0 {
      PagesChain(h, s, size, cursor, rounds, n - 1);
      var r := rounds[n - 1];
      ChainAt(size, cursor, rounds, n);
      GoesOnAt(h, s, rounds, n);
      RoundIsNextSlice(h, size, r);
      SliceOfLonger(StoreBefore(s, rounds, n - 1).history, r.store.history, cursor, Collected(rounds, n - 1));
      SlicesJoin(r.store.history, cursor, Collected(rounds, n - 1), r.cursor, r.operations);
    } else {
      EmptySlice(s.history, cursor);
    }
  }

  lemma EmptySlice(history: seq<Entry>, cursor: nat)
    requires cursor <= |history|
    ensures IsSlice(history, cursor, [])
  {
  }

  lemma LongerRunIsLater(h: PayloadHash, a: seq<Action>, b: seq<Action>)
    requires a <= b
    ensures StoreInv(h, Run(h, INIT, b).store) && Later(Run(h, INIT, a).store, Run(h, INIT, b).store)
  {
    InitialWorld(h);
    hide StoreInv, Step;
    RunKeepsInv(h, INIT, a);
    RunKeepsInv(h, Run(h, INIT, a), b[|a|..]);
    RunConcat(h, INIT, a, b[|a|..]);
    assert a + b[|a|..] == b;
  }

  // Round `i` is answered after the run `runs[i]`, and every run continues the one before.
  ghost predicate Interleaved(h: PayloadHash, runs: seq<seq<Action>>, rounds: seq<Round>) {
    && |runs| == |rounds| + 1
    && (forall i :: 0 <= i < |rounds| ==> rounds[i].store == Run(h, INIT, runs[i + 1]).store)
    && (forall i :: 0 <= i < |rounds| ==> runs[i] <= runs[i + 1])
  }

  lemma InterleavedKeepsGoing(h: PayloadHash, runs: seq<seq<Action>>, rounds: seq<Round>)
    requires Interleaved(h, runs, rounds)
    ensures KeepsGoing(h, Run(h, INIT, runs[0]).store, rounds)
  {
    var s := Run(h, INIT, runs[0]).store;
    forall i | 0 <= i < |rounds|
      ensures HistoryInv(h, rounds[i].store) && StoreBefore(s, rounds, i).history <= rounds[i].store.history
    {
      LongerRunIsLater(h, runs[i], runs[i + 1]);
    }
  }

  /**
  Whatever requests run between the pulls of a client, the pages it collects are the operations
  after its cursor, each exactly once and in order.
  */
  lemma PagesChainIntoTheHistory(
    h: PayloadHash, runs: seq<seq<Action>>, size: RowBytes, cursor: nat, rounds: seq<Round>)
    requires Interleaved(h, runs, rounds) && PullChain(size, cursor, rounds)
    requires cursor <= |Run(h, INIT, runs[0]).store.history|
    ensures IsSlice(StoreBefore(Run(h, INIT, runs[0]).store, rounds, |rounds|).history, cursor, Collected(rounds, |rounds|))
  {
    InterleavedKeepsGoing(h, runs, rounds);
    PagesChain(h, Run(h, INIT, runs[0]).store, size, cursor, rounds, |rounds|);
  }

  lemma {:induction false} QuietPullProgress(h: PayloadHash, s: Store, size: RowBytes, cursor: nat, rounds: seq<Round>, n: nat)
    requires KeepsGoing(h, s, rounds) && cursor <= |s.history| && PullChain(size, cursor, rounds) && n <= |rounds|
    requires forall i :: 0 <= i < |rounds| ==> rounds[i].store == s
    ensures |Collected(rounds, n)| >= Min(n, |s.history| - cursor)
  {
    hide KeepsGoing, PullChain, Answered, IsSlice, HistoryInv;
    if n > 0 {
      QuietPullProgress(h, s, size, cursor, rounds, n - 1);
      PagesChain(h, s, size, cursor, rounds, n - 1);
      ChainAt(size, cursor, rounds, n);
      GoesOnAt(h, s, rounds, n);
      assert rounds[n - 1].store == StoreBefore(s, rounds, n - 1) == s;
      RoundProgresses(h, size, cursor, Collected(rounds, n - 1), rounds[n - 1], n);
    }
  }

  // A round on top of what was collected brings one more operation, or everything is there already.
  lemma RoundProgresses(h: PayloadHash, size: RowBytes, cursor: nat, collected: seq<LogRow>, r: Round, n: nat)
    requires n > 0 && r.cursor == cursor + |collected| && cursor <= |r.store.history|
    requires |collected| >= Min(n - 1, |r.store.history| - cursor)
    ensures HistoryInv(h, r.store) && Answered(size, r) && IsSlice(r.store.history, cursor, collected) ==>
      |collected + r.operations| >= Min(n, |r.store.history| - cursor)
  {
    hide HistoryInv, Answered;
    RoundIsNextSlice(h, size, r);
  }

  /**
  On a quiescent workspace repeated pulls terminate and are complete: after at most
  latest - cursor pages, of whatever limits, the client has every operation after its cursor.
  */
  lemma QuietPullIsComplete(h: PayloadHash, s: Store, size: RowBytes, cursor: nat, rounds: seq<Round>)
    requires HistoryInv(h, s) && cursor <= |s.history| && PullChain(size, cursor, rounds)
    requires forall i :: 0 <= i < |rounds| ==> rounds[i].store == s
    requires |rounds| >= |s.history| - cursor
    ensures Collected(rounds, |rounds|) == LogRows(s.history, cursor)
  {
    QuietKeepsGoing(h, s, rounds);
    assert StoreBefore(s, rounds, |rounds|) == s;
    hide HistoryInv, PullChain, KeepsGoing;
    QuietPullProgress(h, s, size, cursor, rounds, |rounds|);
    PagesChain(h, s, size, cursor, rounds, |rounds|);
    WholeSlice(s.history, cursor, Collected(rounds, |rounds|));
  }

  /** Every pull from between floor and latest is a page that ends between floor and latest, further on. */
  lemma PullAdvances(h: PayloadHash, s: Store, cursor: nat, limit: nat, size: RowBytes, r: PullResult)
    requires HistoryInv(h, s) && s.floor.compactedThrough <= cursor <= |s.history| <= MAX_SAFE_INTEGER
    requires ValidPull(cursor, limit) && Pulls(s, cursor, limit, size, r)
    ensures r.Page? && r.latestServerSequence == |s.history| && |r.operations| <= limit
    ensures IsSlice(s.history, cursor, r.operations)
    ensures cursor < |s.history| <==> r.operations != []
    ensures s.floor.compactedThrough <= cursor + |r.operations| <= |s.history|
  {
    PageIsNextSlice(h, s, cursor, limit, size, r);
  }

  // Some prefix of any rows is a page.
  lemma PageExists(latest: nat, size: RowBytes, rows: seq<LogRow>) returns (page: seq<LogRow>)
    ensures IsPageOf(latest, size, rows, page)
  {
    page := [];
    while |page| < |rows| && (page == [] || BudgetedBytes(latest, size, rows[..|page| + 1]) <= MAX_SYNC_PULL_PAGE_BYTES)
      invariant page <= rows && (|page| > 1 ==> BudgetedBytes(latest, size, page) <= MAX_SYNC_PULL_PAGE_BYTES)
    {
      page := rows[..|page| + 1];
    }
  }

  lemma {:induction false} CollectedOfMore(rounds: seq<Round>, r: Round, n: nat)
    requires n <= |rounds|
    ensures Collected(rounds + [r], n) == Collected(rounds, n)
  {
    if n > 0 { CollectedOfMore(rounds, r, n - 1); }
  }

  lemma ChainExtends(size: RowBytes, cursor: nat, rounds: seq<Round>, r: Round)
    requires PullChain(size, cursor, rounds) && Answered(size, r)
    requires r.cursor == if rounds == [] then cursor else NextCursor(rounds[|rounds| - 1])
    ensures PullChain(size, cursor, rounds + [r])
    ensures Collected(rounds + [r], |rounds| + 1) == Collected(rounds, |rounds|) + r.operations
  {
    hide Answered;
    CollectedOfMore(rounds, r, |rounds|);
    forall i | 0 <= i <= |rounds| ensures Linked(size, cursor, rounds + [r], i) {
      if i < |rounds| { assert Linked(size, cursor, rounds, i); }
    }
  }

  // These pulls, all answered by the same tables.
  ghost predicate AllFrom(s: Store, limit: nat, rounds: seq<Round>) {
    forall i :: 0 <= i < |rounds| ==> rounds[i].store == s && rounds[i].limit == limit
  }

  /**
  Such a chain of pulls exists from every cursor the floor admits: at most latest - cursor pages,
  each answered, that together are everything after the cursor.
  */
  lemma PullsReachTheEnd(h: PayloadHash, s: Store, size: RowBytes, cursor: nat, limit: nat) returns (rounds: seq<Round>)
    requires HistoryInv(h, s) && s.floor.compactedThrough <= cursor <= |s.history| <= MAX_SAFE_INTEGER
    requires ValidPull(cursor, limit)
    ensures PullChain(size, cursor, rounds) && AllFrom(s, limit, rounds) && |rounds| <= |s.history| - cursor
    ensures Collected(rounds, |rounds|) == LogRows(s.history, cursor)
  {
    hide HistoryInv, PullChain, Collected, IsSlice;
    rounds := [];
    var at := cursor;
    EmptyChain(s.history, size, cursor);
    while at < |s.history|
      invariant AllFrom(s, limit, rounds) && ChainTo(s, size, cursor, rounds, at)
      decreases |s.history| - at
    {
      rounds, at := OneMoreRound(h, s, size, cursor, limit, rounds, at);
    }
    WholeSlice(s.history, cursor, Collected(rounds, |rounds|));
  }

  // A chain of pulls that has brought the client from the cursor to `at`, an operation a page at least.
  ghost predicate ChainTo(s: Store, size: RowBytes, cursor: nat, rounds: seq<Round>, at: nat) {
    && PullChain(size, cursor, rounds) && cursor <= at <= |s.history| && |rounds| <= at - cursor
    && at == (if rounds == [] then cursor else NextCursor(rounds[|rounds| - 1]))
    && IsSlice(s.history, cursor, Collected(rounds, |rounds|)) && at == cursor + |Collected(rounds, |rounds|)|
  }

  lemma OneMoreRound(h: PayloadHash, s: Store, size: RowBytes, cursor: nat, limit: nat, rounds: seq<Round>, at: nat)
    returns (more: seq<Round>, next: nat)
    requires HistoryInv(h, s) && s.floor.compactedThrough <= cursor && |s.history| <= MAX_SAFE_INTEGER
    requires ValidPull(cursor, limit) && AllFrom(s, limit, rounds) && ChainTo(s, size, cursor, rounds, at)
    requires at < |s.history|
    ensures AllFrom(s, limit, more) && ChainTo(s, size, cursor, more, next) && next > at
  {
    var r := PullOnce(h, s, size, at, limit);
    hide HistoryInv, PullChain, Answered, IsSlice, Collected;
    RoundIsNextSlice(h, size, r);
    more, next := rounds + [r], at + |r.operations|;
    ChainGrows(s, size, cursor, rounds, at, r);
  }

  lemma PullOnce(h: PayloadHash, s: Store, size: RowBytes, at: nat, limit: nat) returns (r: Round)
    requires HistoryInv(h, s) && ValidPull(at, limit) && s.floor.compactedThrough <= at
    ensures r == Round(s, at, limit, r.operations) && Answered(size, r)
  {
    var latest := Latest(s.log, s.highWater);
    hide HistoryInv, IsPageOf, RowsAbove, FirstRows, Latest;
    var page := PageExists(latest, size, FirstRows(RowsAbove(s.log, at), limit));
    r := Round(s, at, limit, page);
  }

  lemma ChainGrows(s: Store, size: RowBytes, cursor: nat, rounds: seq<Round>, at: nat, r: Round)
    requires r.store == s && r.cursor == at && r.operations != []
    ensures ChainTo(s, size, cursor, rounds, at) && Answered(size, r) && IsSlice(s.history, at, r.operations) ==>
      ChainTo(s, size, cursor, rounds + [r], at + |r.operations|)
  {
    hide PullChain, Answered, IsSlice, Collected;
    if ChainTo(s, size, cursor, rounds, at) && Answered(size, r) && IsSlice(s.history, at, r.operations) {
      ChainExtends(size, cursor, rounds, r);
      SlicesJoin(s.history, cursor, Collected(rounds, |rounds|), at, r.operations);
      SliceFits(s.history, at, r.operations);
    }
  }

  lemma SliceFits(history: seq<Entry>, cursor: nat, operations: seq<LogRow>)
    requires IsSlice(history, cursor, operations)
    ensures cursor + |operations| <= |history|
  {
  }

  lemma EmptyChain(history: seq<Entry>, size: RowBytes, cursor: nat)
    requires cursor <= |history|
    ensures PullChain(size, cursor, []) && Collected([], 0) == [] && IsSlice(history, cursor, [])
  {
  }

  lemma QuietKeepsGoing(h: PayloadHash, s: Store, rounds: seq<Round>)
    requires HistoryInv(h, s) && forall i :: 0 <= i < |rounds| ==> rounds[i].store == s
    ensures KeepsGoing(h, s, rounds)
  {
    hide HistoryInv;
  }

  lemma WholeSlice(history: seq<Entry>, cursor: nat, operations: seq<LogRow>)
    requires IsSlice(history, cursor, operations) && |operations| >= |history| - cursor
    ensures operations == LogRows(history, cursor)
  {
  }

  /* ---------- No device is stranded ---------- */

  // Where a device resumes: at its cursor, or at the latest checkpoint once the log was cut above it.
  function ResumePoint(s: Store, cursor: nat): nat
    requires s.checkpoints.Keys != {} || cursor >= s.floor.compactedThrough
  {
    if cursor >= s.floor.compactedThrough then cursor else MaxOf(s.checkpoints.Keys)
  }

  /**
  In every reachable state any cursor up to latest leads to the end of the history. Pulls are
  answered if and only if the cursor is not below the floor; below it the answer names the floor
  and a checkpoint is stored, at or above what the answer advertises. From the cursor, or from that
  latest checkpoint, a chain of answered pulls collects the full remaining suffix.
  */
  lemma NoDeviceIsStranded(h: PayloadHash, actions: seq<Action>, cursor: nat, limit: nat, size: RowBytes)
    returns (rounds: seq<Round>)
    requires var s := Run(h, INIT, actions).store;
      cursor <= |s.history| <= MAX_SAFE_INTEGER && 1 <= limit <= MAX_SYNC_PULL_OPERATIONS
    ensures var s := Run(h, INIT, actions).store;
      && (cursor < s.floor.compactedThrough ==>
            s.checkpoints.Keys != {} &&
            var c := MaxOf(s.checkpoints.Keys);
            s.floor.compactedThrough <= s.floor.checkpointServerSequence <= c <= |s.history| &&
            s.checkpoints[c].serverSequence == c)
      && (forall r :: Pulls(s, cursor, limit, size, r) ==>
            if cursor >= s.floor.compactedThrough then r.Page?
            else r == LogTruncated(s.floor.compactedThrough, s.floor.checkpointServerSequence))
    ensures var s := Run(h, INIT, actions).store; var from := ResumePoint(s, cursor);
      && PullChain(size, from, rounds) && AllFrom(s, limit, rounds) && |rounds| <= |s.history| - from
      && Collected(rounds, |rounds|) == LogRows(s.history, from)
  {
    InitialWorld(h);
    RunKeepsInv(h, INIT, actions);
    var s := Run(h, INIT, actions).store;
    assert HistoryInv(h, s) && FloorInv(s);
    hide StoreInv, HistoryInv, WorldInv, PullChain, Collected;
    rounds := PullsReachTheEnd(h, s, size, ResumePoint(s, cursor), limit);
  }

  /** The floor only rises, over every run. */
  lemma FloorOnlyRises(h: PayloadHash, before: seq<Action>, after: seq<Action>)
    ensures var s := Run(h, INIT, before).store; var t := Run(h, Run(h, INIT, before), after).store;
      && s.floor.compactedThrough <= t.floor.compactedThrough <= Latest(t.log, t.highWater)
      && (forall c :: c in t.checkpoints.Keys ==> t.floor.compactedThrough <= c <= Latest(t.log, t.highWater))
      && (t.floor.compactedThrough > 0 ==> t.checkpoints.Keys != {})
  {
    InitialWorld(h);
    RunKeepsInv(h, INIT, before);
    RunKeepsInv(h, Run(h, INIT, before), after);
    LatestIsHistoryLength(h, Run(h, Run(h, INIT, before), after).store);
  }
}
