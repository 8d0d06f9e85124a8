/** What becomes of the explorer sync over many undisturbed ticks: standing still for good, or recording everything. */
module ExplorerTicks {
  import opened Base
  import opened TransferLedger
  import opened WalletTransfers
  import opened ExplorerSync

  // ----- Ticks while the history grows -----

  /** What the explorer knows when a tick comes, and the tick's time. */
  datatype Visit = Visit(feed: Feed, now: int)

  /** One undisturbed tick after the other. */
  function Visits(st: State, visits: seq<Visit>, ctx: Context): State {
    if |visits| == 0 then st
    else
      var last := visits[|visits| - 1];
      Tick(Visits(st, visits[..|visits| - 1], ctx), last.feed, ctx, last.now).0
  }

  /** Tick number `i` is clean. */
  predicate CleanVisit(st: State, visits: seq<Visit>, ctx: Context, i: nat) {
    i < |visits| && Tick(Visits(st, visits[..i], ctx), visits[i].feed, ctx, visits[i].now).1
  }

  /** From tick to tick rows are added at the end, in ascending blocks. */
  ghost predicate Growing(visits: seq<Visit>) {
    forall i :: 0 <= i < |visits| ==> GrownAt(visits, i)
  }

  ghost predicate GrownAt(visits: seq<Visit>, i: nat) {
    i < |visits| && (Ascending(visits[i].feed) && (i > 0 ==> visits[i - 1].feed <= visits[i].feed))
  }

  /** What a tick looks at, as the explorer's rows grow. */
  lemma WindowGrows(feed: Feed, more: Feed, block: nat)
    requires Ascending(more) && feed <= more
    ensures Window(feed, block) <= Window(more, block)
  {
    FromOfPrefix(more, feed, block);
    assert feed == more[..|feed|];
  }

  // ----- A block that fills a tick -----

  /** The cursor's block alone fills the three pages. */
  predicate Fills(feed: Feed, block: nat) {
    var w := Window(feed, block);
    |w| == PAGES_PER_TICK * PAGE_SIZE && w[|w| - 1].block == block
  }

  lemma {:induction false} WindowStays(visits: seq<Visit>, block: nat, i: nat)
    requires Growing(visits) && i < |visits| && Fills(visits[0].feed, block)
    ensures Window(visits[i].feed, block) == Window(visits[0].feed, block)
  {
    if i > 0 {
      WindowStays(visits, block, i - 1);
      assert GrownAt(visits, i);
      WindowGrows(visits[i - 1].feed, visits[i].feed, block);
    }
  }

  /** Then the cursor stays for good: each tick, clean or not, sees the same rows and none beyond. */
  lemma {:induction false} StuckForGood(st: State, visits: seq<Visit>, ctx: Context, n: nat)
    requires Growing(visits) && |visits| > 0 && Fills(visits[0].feed, st.block) && n <= |visits|
    ensures Visits(st, visits[..n], ctx).block == st.block
    ensures n < |visits| ==> Window(visits[n].feed, st.block) == Window(visits[0].feed, st.block)
  {
    if n > 0 {
      StuckForGood(st, visits, ctx, n - 1);
      assert visits[..n][..n - 1] == visits[..n - 1];
    }
    if n < |visits| { WindowStays(visits, st.block, n); }
  }

  // ----- A row that throws -----

  /** The rows of one transaction come in the order of their log positions. */
  ghost predicate LogOrdered(entries: seq<ExplorerRow>) {
    forall i, j :: 0 <= i < j < |entries| && Lower(entries[i].hash) == Lower(entries[j].hash) ==>
      entries[i].logIndex < entries[j].logIndex
  }

  /** A draft of another transaction, or of a lower position. */
  predicate Earlier(e: Draft, d: Draft) {
    e.chainId == d.chainId && Lower(e.txHash) == Lower(d.txHash) ==> e.logIndex < d.logIndex
  }

  /** A blocked draft stays blocked while only earlier ones are upserted. */
  lemma BlockedStays(rows: Rows, d: Draft, e: Draft, now: int)
    requires Unique(rows) && Blocked(rows, d) && Earlier(e, d) && Upsert(rows, e, now).Some?
    ensures Blocked(Upsert(rows, e, now).value, d)
  {
    PositionsAfter(rows, e, now);
    var after := Upsert(rows, e, now).value;
    var i :| 0 <= i < |rows| && rows[i].key == KeyOf(d) && rows[i].logIndex < d.logIndex;
    assert after[i].key == KeyOf(d) && after[i].logIndex < d.logIndex;
    var j :| 0 <= j < |rows| && AtLog(rows[j], d.chainId, Lower(d.txHash), d.logIndex) && rows[j].key != KeyOf(d);
    assert AtLog(after[j], d.chainId, Lower(d.txHash), d.logIndex) && after[j].key != KeyOf(d);
  }

  lemma DraftIsOfRow(row: ExplorerRow, ctx: Context)
    requires DraftFromExplorer(row, ctx).Some?
    ensures var d := DraftFromExplorer(row, ctx).value;
            d.chainId == ctx.chainId && Lower(d.txHash) == Lower(row.hash) && d.logIndex == row.logIndex
  {
    LowerIdempotent(row.hash);
  }

  lemma HandStaysUnique(rows: Rows, row: ExplorerRow, ctx: Context, now: int)
    requires Unique(rows)
    ensures Unique(Hand(rows, row, ctx, now).0)
  {
    var d := DraftFromExplorer(row, ctx);
    if d.Some? && Upsert(rows, d.value, now).Some? { UpsertKeepsUnique(rows, d.value, now); }
  }

  lemma {:induction false} HandAllStaysUnique(rows: Rows, entries: seq<ExplorerRow>, ctx: Context, now: int)
    requires Unique(rows)
    ensures Unique(HandAll(rows, entries, ctx, now).0)
  {
    if |entries| > 0 {
      var front := entries[..|entries| - 1];
      HandAllStaysUnique(rows, front, ctx, now);
      HandStaysUnique(HandAll(rows, front, ctx, now).0, entries[|entries| - 1], ctx, now);
    }
  }

  lemma HandStaysBlocked(rows: Rows, row: ExplorerRow, ctx: Context, now: int, d: Draft)
    requires Unique(rows) && Blocked(rows, d) && d.chainId == ctx.chainId
    requires Lower(row.hash) == Lower(d.txHash) ==> row.logIndex < d.logIndex
    ensures Blocked(Hand(rows, row, ctx, now).0, d)
  {
    var e := DraftFromExplorer(row, ctx);
    if e.Some? && Upsert(rows, e.value, now).Some? {
      DraftIsOfRow(row, ctx);
      BlockedStays(rows, d, e.value, now);
    }
  }

  lemma {:induction false} HandAllStaysBlocked(
    rows: Rows, entries: seq<ExplorerRow>, ctx: Context, now: int, d: Draft)
    requires Unique(rows) && Blocked(rows, d) && d.chainId == ctx.chainId
    requires forall i :: 0 <= i < |entries| && Lower(entries[i].hash) == Lower(d.txHash) ==>
               entries[i].logIndex < d.logIndex
    ensures Blocked(HandAll(rows, entries, ctx, now).0, d)
  {
    if |entries| > 0 {
      var front := entries[..|entries| - 1];
      HandAllStaysBlocked(rows, front, ctx, now, d);
      HandAllStaysUnique(rows, front, ctx, now);
      HandStaysBlocked(HandAll(rows, front, ctx, now).0, entries[|entries| - 1], ctx, now, d);
    }
  }

  /** The row at which handing over stops: its draft is blocked in the ledger that the rows before it left. */
  lemma {:induction false} FirstThrow(rows: Rows, entries: seq<ExplorerRow>, ctx: Context, now: int) returns (j: nat)
    requires Unique(rows) && !HandAll(rows, entries, ctx, now).1
    ensures j < |entries| && DraftFromExplorer(entries[j], ctx).Some?
    ensures HandAll(rows, entries[..j], ctx, now) == (HandAll(rows, entries, ctx, now).0, true)
    ensures Blocked(HandAll(rows, entries, ctx, now).0, DraftFromExplorer(entries[j], ctx).value)
  {
    var n := |entries| - 1;
    var before := HandAll(rows, entries[..n], ctx, now);
    if before.1 {
      j := n;
      HandAllStaysUnique(rows, entries[..n], ctx, now);
      ThrowsIff(before.0, DraftFromExplorer(entries[n], ctx).value, now);
    } else {
      j := FirstThrow(rows, entries[..n], ctx, now);
      assert entries[..n][..j] == entries[..j];
    }
  }

  /** A row that threw throws whenever it is reached again, so handing over these rows and more never ends well. */
  lemma ThrowsAgain(rows: Rows, entries: seq<ExplorerRow>, more: seq<ExplorerRow>, ctx: Context, now: int, later: int)
    requires Unique(rows) && LogOrdered(entries) && entries <= more && !HandAll(rows, entries, ctx, now).1
    ensures Unique(HandAll(rows, entries, ctx, now).0)
    ensures !HandAll(HandAll(rows, entries, ctx, now).0, more, ctx, later).1
  {
    var j := FirstThrow(rows, entries, ctx, now);
    var d := DraftFromExplorer(entries[j], ctx).value;
    var left := HandAll(rows, entries, ctx, now).0;
    HandAllStaysUnique(rows, entries, ctx, now);
    DraftIsOfRow(entries[j], ctx);
    HandAllStaysBlocked(left, entries[..j], ctx, later, d);
    HandAllStaysUnique(left, entries[..j], ctx, later);
    ThrowsIff(HandAll(left, entries[..j], ctx, later).0, d, later);
    assert more[..j + 1][..j] == entries[..j];
    HandAllSplits(left, more[..j + 1], more[j + 1..], ctx, later);
    assert more[..j + 1] + more[j + 1..] == more;
  }

  lemma {:induction false} VisitsStayUnique(st: State, visits: seq<Visit>, ctx: Context)
    requires Unique(st.rows)
    ensures Unique(Visits(st, visits, ctx).rows)
  {
    if |visits| > 0 {
      var n := |visits| - 1;
      VisitsStayUnique(st, visits[..n], ctx);
      var before := Visits(st, visits[..n], ctx);
      HandAllStaysUnique(before.rows, Window(visits[n].feed, before.block), ctx, visits[n].now);
    }
  }

  lemma WindowIsOrdered(feed: Feed, block: nat)
    requires LogOrdered(feed)
    ensures LogOrdered(Window(feed, block))
  {
    var k := From(feed, block);
    assert forall i :: 0 <= i < |Window(feed, block)| ==> Window(feed, block)[i] == feed[k + i];
  }

  /** After a tick that throws the next one, which sees these rows and perhaps more, throws as well. */
  lemma NextThrows(st: State, visit: Visit, next: Visit, ctx: Context)
    requires Unique(st.rows) && LogOrdered(visit.feed) && Ascending(next.feed) && visit.feed <= next.feed
    requires !Tick(st, visit.feed, ctx, visit.now).1
    ensures Tick(st, visit.feed, ctx, visit.now).0.block == st.block
    ensures !Tick(Tick(st, visit.feed, ctx, visit.now).0, next.feed, ctx, next.now).1
  {
    var w, more := Window(visit.feed, st.block), Window(next.feed, st.block);
    WindowIsOrdered(visit.feed, st.block);
    WindowGrows(visit.feed, next.feed, st.block);
    ThrowsAgain(st.rows, w, more, ctx, visit.now, next.now);
  }

  lemma OneMoreThrows(st: State, visits: seq<Visit>, ctx: Context, n: nat)
    requires Unique(st.rows) && 1 <= n < |visits| && GrownAt(visits, n) && LogOrdered(visits[n - 1].feed)
    requires !CleanVisit(st, visits, ctx, n - 1)
    ensures !CleanVisit(st, visits, ctx, n)
  {
    assert visits[..n][..n - 1] == visits[..n - 1];
    VisitsStayUnique(st, visits[..n - 1], ctx);
    NextThrows(Visits(st, visits[..n - 1], ctx), visits[n - 1], visits[n], ctx);
  }

  lemma OrderedBefore(feed: Feed, more: Feed)
    requires feed <= more && LogOrdered(more)
    ensures LogOrdered(feed)
  {
    assert forall i :: 0 <= i < |feed| ==> feed[i] == more[i];
  }

  /**
   Once a tick met a row that throws, every later tick throws as well and the cursor stands still for good, however the
   history grows, unless somebody else writes to the ledger.
   */
  lemma {:induction false} ThrowingRowStopsForGood(st: State, visits: seq<Visit>, ctx: Context, m: nat, n: nat)
    requires Unique(st.rows) && Growing(visits) && m <= n < |visits| && LogOrdered(visits[n].feed)
    requires !CleanVisit(st, visits, ctx, m)
    ensures !CleanVisit(st, visits, ctx, n)
    ensures Visits(st, visits[..n + 1], ctx).block == Visits(st, visits[..m], ctx).block
    decreases n
  {
    if m < n {
      assert GrownAt(visits, n);
      OrderedBefore(visits[n - 1].feed, visits[n].feed);
      ThrowingRowStopsForGood(st, visits, ctx, m, n - 1);
      OneMoreThrows(st, visits, ctx, n);
    }
    ThrowingKeepsBlock(st, visits, ctx, n);
  }

  lemma ThrowingKeepsBlock(st: State, visits: seq<Visit>, ctx: Context, n: nat)
    requires n < |visits| && !CleanVisit(st, visits, ctx, n)
    ensures Visits(st, visits[..n + 1], ctx).block == Visits(st, visits[..n], ctx).block
  {
    assert visits[..n + 1][..n] == visits[..n];
  }

  // ----- Free positions -----

  /** No other transfer sits at the position of any draft of these rows, nor do two of them share one. */
  ghost predicate PositionsFree(rows: Rows, entries: seq<ExplorerRow>, ctx: Context) {
    && (forall i :: 0 <= i < |entries| ==> SlotFreeAt(rows, entries, i, ctx))
    && (forall i, j :: 0 <= i < |entries| && 0 <= j < |entries| ==> ApartAt(entries, i, j, ctx))
  }

  ghost predicate SlotFreeAt(rows: Rows, entries: seq<ExplorerRow>, i: nat, ctx: Context) {
    && i < |entries|
    && var d := DraftFromExplorer(entries[i], ctx);
       d.Some? ==> SlotFree(rows, d.value)
  }

  /** Rows at one position draft one transfer. */
  predicate ApartAt(entries: seq<ExplorerRow>, i: nat, j: nat, ctx: Context) {
    && i < |entries| && j < |entries|
    && var (d, e) := (DraftFromExplorer(entries[i], ctx), DraftFromExplorer(entries[j], ctx));
       d.Some? && e.Some? && SamePosition(d.value, e.value) ==> KeyOf(d.value) == KeyOf(e.value)
  }

  predicate SamePosition(d: Draft, e: Draft) {
    d.chainId == e.chainId && Lower(d.txHash) == Lower(e.txHash) && d.logIndex == e.logIndex
  }

  /** A key that has a row is the draft's wallet's exactly if at the start it was no other wallet's; no key is lost. */
  predicate Traced(rows: Rows, start: Rows, d: Draft) {
    if FindKey(rows, KeyOf(d)).Some? then Own(rows, d) <==> Ours(start, d) else FindKey(start, KeyOf(d)).None?
  }

  ghost predicate TracedAt(rows: Rows, start: Rows, entries: seq<ExplorerRow>, i: nat, ctx: Context) {
    && i < |entries|
    && var d := DraftFromExplorer(entries[i], ctx);
       d.Some? ==> Traced(rows, start, d.value)
  }

  /** Positions are free, and only this wallet's drafts have come on top of `start`. */
  ghost predicate AllFree(rows: Rows, start: Rows, entries: seq<ExplorerRow>, ctx: Context) {
    PositionsFree(rows, entries, ctx) && forall i :: 0 <= i < |entries| ==> TracedAt(rows, start, entries, i, ctx)
  }

  lemma SlotStaysFree(rows: Rows, d: Draft, e: Draft, now: int)
    requires Unique(rows) && SlotFree(rows, d) && SlotFree(rows, e)
    requires SamePosition(d, e) ==> KeyOf(d) == KeyOf(e)
    ensures Upsert(rows, e, now).Some? && SlotFree(Upsert(rows, e, now).value, d)
  {
    ThrowsIff(rows, e, now);
    PositionsAfter(rows, e, now);
  }

  lemma StaysTraced(rows: Rows, start: Rows, d: Draft, e: Draft, now: int)
    requires Unique(rows) && Traced(rows, start, d) && Upsert(rows, e, now).Some? && Lower(e.wallet) == Lower(d.wallet)
    ensures Traced(Upsert(rows, e, now).value, start, d)
  {
    var after := Upsert(rows, e, now).value;
    UpsertKeepsUnique(rows, e, now);
    RowsAfter(rows, e, now);
    if FindKey(rows, KeyOf(d)).Some? { OwnStays(rows, after, d); }
  }

  lemma HandStaysFree(rows: Rows, start: Rows, entries: seq<ExplorerRow>, i: nat, ctx: Context, now: int)
    requires Unique(rows) && AllFree(rows, start, entries, ctx) && i < |entries|
    ensures Hand(rows, entries[i], ctx, now).1 && AllFree(Hand(rows, entries[i], ctx, now).0, start, entries, ctx)
  {
    var e := DraftFromExplorer(entries[i], ctx);
    var after := Hand(rows, entries[i], ctx, now).0;
    assert SlotFreeAt(rows, entries, i, ctx);
    if e.Some? {
      SlotStaysFree(rows, e.value, e.value, now);
      forall j | 0 <= j < |entries|
        ensures SlotFreeAt(after, entries, j, ctx) && TracedAt(after, start, entries, j, ctx)
      {
        assert SlotFreeAt(rows, entries, j, ctx) && ApartAt(entries, j, i, ctx);
        assert TracedAt(rows, start, entries, j, ctx);
        var d := DraftFromExplorer(entries[j], ctx);
        if d.Some? {
          SlotStaysFree(rows, d.value, e.value, now);
          StaysTraced(rows, start, d.value, e.value, now);
        }
      }
    }
  }

  /** What an entry drafts has a row, whichever wallet's. */
  ghost predicate RecordedAt(rows: Rows, entries: seq<ExplorerRow>, i: nat, ctx: Context) {
    && i < |entries|
    && var d := DraftFromExplorer(entries[i], ctx);
       d.Some? ==> FindKey(rows, KeyOf(d.value)).Some?
  }

  lemma HandRecords(rows: Rows, entries: seq<ExplorerRow>, i: nat, j: nat, ctx: Context, now: int)
    requires Unique(rows) && PositionsFree(rows, entries, ctx) && i < |entries| && j < |entries|
    requires j == i || RecordedAt(rows, entries, j, ctx)
    ensures RecordedAt(Hand(rows, entries[i], ctx, now).0, entries, j, ctx)
  {
    var d, e := DraftFromExplorer(entries[i], ctx), DraftFromExplorer(entries[j], ctx);
    if d.Some? && e.Some? {
      assert SlotFreeAt(rows, entries, i, ctx);
      SlotStaysFree(rows, d.value, d.value, now);
      if j == i {
        RecordedIff(rows, d.value, now);
      } else {
        UpsertKeepsUnique(rows, d.value, now);
        StillFound(rows, Upsert(rows, d.value, now).value, KeyOf(e.value));
      }
    }
  }

  /** The first `n` entries have rows. */
  ghost predicate RecordedUpTo(rows: Rows, history: Feed, n: nat, ctx: Context) {
    n <= |history| && forall i :: 0 <= i < n ==> RecordedAt(rows, history, i, ctx)
  }

  /** All positions are free, and the first `p` entries have rows. */
  ghost predicate Recording(rows: Rows, start: Rows, history: Feed, p: nat, ctx: Context) {
    Unique(rows) && AllFree(rows, start, history, ctx) && RecordedUpTo(rows, history, p, ctx)
  }

  lemma OneMoreRecorded(
    rows: Rows, start: Rows, history: Feed, n: nat, p: nat, ctx: Context, now: int, after: (Rows, bool))
    requires Recording(rows, start, history, p, ctx) && 1 <= n <= |history| && n <= p + 1
    requires after == Hand(rows, history[n - 1], ctx, now)
    ensures after.1 && Recording(after.0, start, history, Max(p, n), ctx)
  {
    var m := n - 1;
    HandStaysFree(rows, start, history, m, ctx, now);
    HandStaysUnique(rows, history[m], ctx, now);
    forall i | 0 <= i < Max(p, n) ensures RecordedAt(after.0, history, i, ctx) {
      assert i != m ==> i < p && RecordedAt(rows, history, i, ctx);
      HandRecords(rows, history, m, i, ctx, now);
    }
  }

  lemma HandedOneMore(rows: Rows, history: Feed, k: nat, n: nat, ctx: Context, now: int)
    requires k < n <= |history| && HandAll(rows, history[k..n - 1], ctx, now).1
    ensures HandAll(rows, history[k..n], ctx, now) ==
            Hand(HandAll(rows, history[k..n - 1], ctx, now).0, history[n - 1], ctx, now)
  {
    var more := history[k..n];
    assert more[|more| - 1] == history[n - 1];
    assert more[..|more| - 1] == history[k..n - 1];
  }

  /** Handing over a piece of a history with free positions never throws and records it. */
  lemma {:induction false} FreePieceIsRecorded(
    rows: Rows, start: Rows, history: Feed, k: nat, n: nat, p: nat, ctx: Context, now: int, after: (Rows, bool))
    requires Recording(rows, start, history, p, ctx) && k <= n <= |history| && k <= p
    requires after == HandAll(rows, history[k..n], ctx, now)
    ensures after.1 && Recording(after.0, start, history, Max(p, n), ctx)
    decreases n
  {
    if k < n {
      var before := HandAll(rows, history[k..n - 1], ctx, now);
      FreePieceIsRecorded(rows, start, history, k, n - 1, p, ctx, now, before);
      HandedOneMore(rows, history, k, n, ctx, now);
      OneMoreRecorded(before.0, start, history, n, Max(p, n - 1), ctx, now, after);
    }
  }

  /** The ledger has a row for all of the history, or for all rows below the cursor's block, `t` of them at least. */
  ghost predicate Progress(st: State, start: Rows, history: Feed, ctx: Context, t: nat) {
    Recording(st.rows, start, history, |history|, ctx) || Passing(st, start, history, ctx, t)
  }

  ghost predicate Passing(st: State, start: Rows, history: Feed, ctx: Context, t: nat) {
    t <= From(history, st.block) && Recording(st.rows, start, history, From(history, st.block), ctx)
  }

  /** Where a tick's window ends. */
  function Reach(history: Feed, block: nat): (n: nat)
    ensures From(history, block) <= n <= |history| && Window(history, block) == history[From(history, block)..n]
  {
    From(history, block) + |Window(history, block)|
  }

  lemma CleanTickMoves(st: State, history: Feed, ctx: Context, now: int)
    requires Ascending(history) && NoBlockFillsATick(history)
    requires HandAll(st.rows, Window(history, st.block), ctx, now).1
    ensures var n, block := Reach(history, st.block), Tick(st, history, ctx, now).0.block;
            From(history, block) <= n && (n < |history| ==> From(history, st.block) < From(history, block))
  {
    BlockPassed(history, st.block);
    LastIsBelowTheRest(history, st.block, |Window(history, st.block)|);
  }

  lemma RecordingLess(rows: Rows, start: Rows, history: Feed, m: nat, n: nat, ctx: Context)
    requires m <= n && Recording(rows, start, history, n, ctx)
    ensures Recording(rows, start, history, m, ctx)
  {
  }

  lemma TickProgresses(st: State, start: Rows, history: Feed, ctx: Context, now: int, t: nat)
    requires Ascending(history) && NoBlockFillsATick(history) && Progress(st, start, history, ctx, t)
    ensures Tick(st, history, ctx, now).1 && Progress(Tick(st, history, ctx, now).0, start, history, ctx, t + 1)
  {
    var k, n := From(history, st.block), Reach(history, st.block);
    var p := if Recording(st.rows, start, history, |history|, ctx) then |history| else k;
    FreePieceIsRecorded(st.rows, start, history, k, n, p, ctx, now, HandAll(st.rows, history[k..n], ctx, now));
    if Max(p, n) < |history| {
      CleanTickMoves(st, history, ctx, now);
      var after := Tick(st, history, ctx, now).0;
      RecordingLess(after.rows, start, history, From(history, after.block), Max(p, n), ctx);
    }
  }

  lemma OneMoreClean(st: State, history: Feed, ctx: Context, times: seq<int>)
    requires |times| > 0 && AllClean(st, history, ctx, times[..|times| - 1])
    requires CleanAt(st, history, ctx, times, |times| - 1)
    ensures AllClean(st, history, ctx, times)
  {
    var n := |times| - 1;
    forall i | 0 <= i < |times| ensures CleanAt(st, history, ctx, times, i) {
      if i < n {
        assert CleanAt(st, history, ctx, times[..n], i);
        assert times[..n][..i] == times[..i];
      }
    }
  }

  /** With all positions free every tick is clean and gets on. */
  lemma {:induction false} TicksProgress(st: State, start: Rows, history: Feed, ctx: Context, times: seq<int>)
    requires Ascending(history) && NoBlockFillsATick(history) && Progress(st, start, history, ctx, 0)
    ensures AllClean(st, history, ctx, times) && Progress(Ticks(st, history, ctx, times), start, history, ctx, |times|)
  {
    if |times| > 0 {
      var n := |times| - 1;
      TicksProgress(st, start, history, ctx, times[..n]);
      var before := Ticks(st, history, ctx, times[..n]);
      TickProgresses(before, start, history, ctx, times[n], n);
      OneMoreClean(st, history, ctx, times);
    }
  }

  /** The wallet has its own row for each entry that asks for one, and no two share it. */
  ghost predicate OwnEach(rows: Rows, entries: seq<ExplorerRow>, ctx: Context) {
    && (forall i :: 0 <= i < |entries| ==> OwnAt(rows, entries, i, ctx))
    && (forall i, j :: 0 <= i < j < |entries| ==> OtherRowAt(rows, entries, i, j, ctx))
  }

  ghost predicate OwnAt(rows: Rows, entries: seq<ExplorerRow>, i: nat, ctx: Context) {
    && i < |entries|
    && var d := DraftFromExplorer(entries[i], ctx);
       d.Some? ==> Own(rows, d.value)
  }

  ghost predicate OtherRowAt(rows: Rows, entries: seq<ExplorerRow>, i: nat, j: nat, ctx: Context) {
    && i < |entries| && j < |entries|
    && var (d, e) := (DraftFromExplorer(entries[i], ctx), DraftFromExplorer(entries[j], ctx));
       d.Some? && e.Some? ==> FindKey(rows, KeyOf(d.value)) != FindKey(rows, KeyOf(e.value))
  }

  /** No other wallet has a row of an entry's key. */
  ghost predicate OursAt(rows: Rows, entries: seq<ExplorerRow>, i: nat, ctx: Context) {
    && i < |entries|
    && var d := DraftFromExplorer(entries[i], ctx);
       d.Some? ==> Ours(rows, d.value)
  }

  /** Two entries are not alike: they draft transfers of different keys. */
  ghost predicate UnlikeAt(entries: seq<ExplorerRow>, i: nat, j: nat, ctx: Context) {
    && i < |entries| && j < |entries|
    && var (d, e) := (DraftFromExplorer(entries[i], ctx), DraftFromExplorer(entries[j], ctx));
       d.Some? && e.Some? ==> KeyOf(d.value) != KeyOf(e.value)
  }

  ghost predicate NoneAlike(entries: seq<ExplorerRow>, ctx: Context) {
    forall i, j :: 0 <= i < j < |entries| ==> UnlikeAt(entries, i, j, ctx)
  }

  ghost predicate AllOurs(rows: Rows, entries: seq<ExplorerRow>, ctx: Context) {
    forall i :: 0 <= i < |entries| ==> OursAt(rows, entries, i, ctx)
  }

  lemma RecordedIsOwnIff(rows: Rows, start: Rows, history: Feed, ctx: Context)
    requires Recording(rows, start, history, |history|, ctx)
    ensures forall i :: 0 <= i < |history| ==> (OwnAt(rows, history, i, ctx) <==> OursAt(start, history, i, ctx))
    ensures OwnEach(rows, history, ctx) <==> AllOurs(start, history, ctx) && NoneAlike(history, ctx)
  {
    forall i | 0 <= i < |history| ensures OwnAt(rows, history, i, ctx) <==> OursAt(start, history, i, ctx) {
      assert RecordedAt(rows, history, i, ctx) && TracedAt(rows, start, history, i, ctx);
    }
    forall i, j | 0 <= i < j < |history|
      ensures OtherRowAt(rows, history, i, j, ctx) <==> UnlikeAt(history, i, j, ctx)
    {
      assert RecordedAt(rows, history, i, ctx) && RecordedAt(rows, history, j, ctx);
    }
  }

  /**
   Positions free and no block filling a tick, every tick is clean, and more ticks than the history has rows record all
   of it: each transfer's key has a row, which is the wallet's own exactly if no other wallet had one, and each transfer
   has a row to itself exactly if besides no two of the history are alike.
   */
  lemma FreeHistoryIsRecorded(st: State, history: Feed, ctx: Context, times: seq<int>)
    requires Ascending(history) && NoBlockFillsATick(history)
    requires Unique(st.rows) && PositionsFree(st.rows, history, ctx)
    requires RecordedUpTo(st.rows, history, From(history, st.block), ctx)
    ensures AllClean(st, history, ctx, times)
    ensures var after := Ticks(st, history, ctx, times).rows;
            |times| > |history| ==>
              && RecordedUpTo(after, history, |history|, ctx)
              && (forall i :: 0 <= i < |history| ==>
                    (OwnAt(after, history, i, ctx) <==> OursAt(st.rows, history, i, ctx)))
              && (OwnEach(after, history, ctx) <==> AllOurs(st.rows, history, ctx) && NoneAlike(history, ctx))
  {
    forall i | 0 <= i < |history| ensures TracedAt(st.rows, st.rows, history, i, ctx) {
    }
    TicksProgress(st, st.rows, history, ctx, times);
    if |times| > |history| {
      assert Recording(Ticks(st, history, ctx, times).rows, st.rows, history, |history|, ctx);
      RecordedIsOwnIff(Ticks(st, history, ctx, times).rows, st.rows, history, ctx);
    }
  }
}
