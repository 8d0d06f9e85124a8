/**
 Ingestion of a wallet's token transfers from a block explorer: three pages a tick, a persisted cursor, and a failure
 possible at any page. The explorer's results are what it knows so far of one block-ascending history.
 */
module ExplorerSync {
  import opened Base
  import opened TransferLedger
  import opened WalletTransfers

  type Feed = seq<ExplorerRow>

  const PAGE_SIZE: nat := 100
  const PAGES_PER_TICK: nat := 3

  /** An answer of the explorer: its rows so far, or one of its refusals; Broken stands for a thrown exception. */
  datatype Reply = Rows(feed: Feed) | TooManyRequests | HttpError | RateLimitBody | Broken

  datatype Cursor = Cursor(lastBlock: nat, lastLog: nat)

  ghost predicate Ascending(feed: Feed) {
    forall i, j :: 0 <= i < j < |feed| ==> feed[i].block <= feed[j].block
  }

  /** The index of the first row at or above a block, where the explorer's answer starts. */
  function From(feed: Feed, block: nat): (k: nat)
    ensures k <= |feed|
  {
    if |feed| == 0 then 0
    else if feed[|feed| - 1].block < block then |feed| else From(feed[..|feed| - 1], block)
  }

  lemma {:induction false} FromSplits(feed: Feed, block: nat)
    requires Ascending(feed)
    ensures forall i :: 0 <= i < |feed| ==> (i < From(feed, block) <==> feed[i].block < block)
  {
    if |feed| > 0 && feed[|feed| - 1].block >= block {
      var front := feed[..|feed| - 1];
      FromSplits(front, block);
      assert forall i :: 0 <= i < |front| ==> front[i] == feed[i];
    }
  }

  /** `startblock`, `page` (from 1) and `offset` of the explorer's query. */
  function PageOf(feed: Feed, startBlock: nat, page: nat): (rows: seq<ExplorerRow>)
    requires page >= 1
    ensures |rows| <= PAGE_SIZE
  {
    var first := From(feed, startBlock) + (page - 1) * PAGE_SIZE;
    feed[Min(first, |feed|)..Min(first + PAGE_SIZE, |feed|)]
  }

  lemma {:induction false} FromOfPrefix(history: Feed, feed: Feed, block: nat)
    requires Ascending(history) && feed <= history
    ensures From(feed, block) == Min(From(history, block), |feed|)
  {
    assert forall i :: 0 <= i < |feed| ==> feed[i] == history[i];
    FromSplits(feed, block);
    FromSplits(history, block);
    var k, m := From(history, block), From(feed, block);
    if m < |feed| {
      assert !(m < k) by { assert feed[m] == history[m]; }
      assert m > 0 ==> history[m - 1].block < block;
    }
  }

  /** A page of what is known so far continues the history, up to where the knowledge ends. */
  lemma PageContinues(history: Feed, feed: Feed, startBlock: nat, page: nat)
    requires Ascending(history) && feed <= history && page >= 1
    requires From(history, startBlock) + (page - 1) * PAGE_SIZE <= |history|
    ensures var n, rows := From(history, startBlock) + (page - 1) * PAGE_SIZE, PageOf(feed, startBlock, page);
            && n + |rows| <= |history| && rows == history[n..n + |rows|]
            && (|rows| < PAGE_SIZE ==> |feed| <= n + |rows|)
  {
    FromOfPrefix(history, feed, startBlock);
    SliceOfPrefix(history, feed, From(history, startBlock), From(feed, startBlock), (page - 1) * PAGE_SIZE);
  }

  lemma SliceOfPrefix(history: Feed, feed: Feed, k: nat, known: nat, skip: nat)
    requires feed <= history && known == Min(k, |feed|) && k + skip <= |history|
    ensures var rows := feed[Min(known + skip, |feed|)..Min(known + skip + PAGE_SIZE, |feed|)];
            && k + skip + |rows| <= |history| && rows == history[k + skip..k + skip + |rows|]
            && (|rows| < PAGE_SIZE ==> |feed| <= k + skip + |rows|)
  {
  }

  // ----- What has been handed over -----

  /** The upserts made on the ledger so far, in order, each with its clock; one that throws changes nothing. */
  type Writes = seq<(Draft, int)>

  /** Write number `p` was this draft's, and its upsert did not throw. */
  ghost predicate AcceptedAt(start: TransferLedger.Rows, writes: Writes, p: nat, d: Draft) {
    p < |writes| && writes[p].0 == d && Upsert(TransferLedger.Run(start, writes[..p]), d, writes[p].1).Some?
  }

  ghost predicate Accepted(start: TransferLedger.Rows, writes: Writes, d: Draft) {
    exists p :: 0 <= p < |writes| && AcceptedAt(start, writes, p, d)
  }

  /** Row `i` of the history asks for nothing, or its own draft was upserted without throwing. */
  ghost predicate HandedAt(start: TransferLedger.Rows, writes: Writes, history: Feed, i: nat, ctx: Context) {
    && i < |history|
    && var d := DraftFromExplorer(history[i], ctx);
       d.Some? ==> Accepted(start, writes, d.value)
  }

  ghost predicate HandedUpTo(start: TransferLedger.Rows, writes: Writes, history: Feed, n: nat, ctx: Context) {
    n <= |history| && forall i :: 0 <= i < n ==> HandedAt(start, writes, history, i, ctx)
  }

  lemma AcceptedStays(start: TransferLedger.Rows, writes: Writes, more: Writes, d: Draft)
    requires writes <= more && Accepted(start, writes, d)
    ensures Accepted(start, more, d)
  {
    var p :| 0 <= p < |writes| && AcceptedAt(start, writes, p, d);
    assert more[..p] == writes[..p];
    assert AcceptedAt(start, more, p, d);
  }

  lemma HandedStays(start: TransferLedger.Rows, writes: Writes, more: Writes, history: Feed, n: nat, ctx: Context)
    requires writes <= more && HandedUpTo(start, writes, history, n, ctx)
    ensures HandedUpTo(start, more, history, n, ctx)
  {
    forall i | 0 <= i < n ensures HandedAt(start, more, history, i, ctx) {
      assert HandedAt(start, writes, history, i, ctx);
      var d := DraftFromExplorer(history[i], ctx);
      if d.Some? { AcceptedStays(start, writes, more, d.value); }
    }
  }

  lemma HandedLess(start: TransferLedger.Rows, writes: Writes, history: Feed, m: nat, n: nat, ctx: Context)
    requires m <= n && HandedUpTo(start, writes, history, n, ctx)
    ensures HandedUpTo(start, writes, history, m, ctx)
  {
  }

  lemma WriteAccepts(start: TransferLedger.Rows, writes: Writes, d: Draft, now: int)
    ensures var more := writes + [(d, now)];
            && TransferLedger.Run(start, more) ==
               Upsert(TransferLedger.Run(start, writes), d, now).GetOr(TransferLedger.Run(start, writes))
            && (Upsert(TransferLedger.Run(start, writes), d, now).Some? ==> Accepted(start, more, d))
  {
    var more := writes + [(d, now)];
    assert more[..|writes|] == writes;
    if Upsert(TransferLedger.Run(start, writes), d, now).Some? {
      assert AcceptedAt(start, more, |writes|, d);
    }
  }

  lemma HandOne(start: TransferLedger.Rows, writes: Writes, more: Writes, history: Feed, n: nat, ctx: Context)
    requires writes <= more && HandedUpTo(start, writes, history, n, ctx) && n < |history|
    requires HandedAt(start, more, history, n, ctx)
    ensures HandedUpTo(start, more, history, n + 1, ctx)
  {
    HandedStays(start, writes, more, history, n, ctx);
  }

  /**
   With an accepted draft the wallet got a row of its own for the transfer exactly if it had one, or if no wallet had
   and the position was free; and it keeps what it got, while a key that became another wallet's stays so.
   */
  lemma AcceptedOwnRowIff(start: TransferLedger.Rows, writes: Writes, p: nat, d: Draft)
    requires Unique(start) && p < |writes| && AcceptedAt(start, writes, p, d)
    ensures var before, after := TransferLedger.Run(start, writes[..p]), TransferLedger.Run(start, writes[..p + 1]);
            && (Own(after, d) <==> Own(before, d) || New(before, d))
            && (FindKey(after, KeyOf(d)).Some? ==> (Own(TransferLedger.Run(start, writes), d) <==> Own(after, d)))
  {
    RunKeepsOneRowPerTransfer(start, writes[..p]);
    RunKeepsOneRowPerTransfer(start, writes[..p + 1]);
    assert writes[..p + 1][..p] == writes[..p];
    OwnRowIff(TransferLedger.Run(start, writes[..p]), d, writes[p].1);
    var after := TransferLedger.Run(start, writes[..p + 1]);
    RunSplits(start, writes, p + 1);
    RunKeepsOneRowPerTransfer(after, writes[p + 1..]);
    if FindKey(after, KeyOf(d)).Some? { OwnStays(after, TransferLedger.Run(start, writes), d); }
  }

  lemma WritesGrow(start: TransferLedger.Rows, writes: Writes, more: Writes)
    requires Unique(start) && writes <= more
    ensures Unique(TransferLedger.Run(start, more))
    ensures AllGrow(TransferLedger.Run(start, writes), TransferLedger.Run(start, more))
  {
    RunKeepsOneRowPerTransfer(start, writes);
    RunSplits(start, more, |writes|);
    assert more[..|writes|] == writes;
    RunKeepsOneRowPerTransfer(TransferLedger.Run(start, writes), more[|writes|..]);
  }

  // ----- Handing rows to the ledger -----

  /** One explorer row: nothing to do, an upsert, or an upsert that throws. */
  function Hand(rows: TransferLedger.Rows, row: ExplorerRow, ctx: Context, now: int): (TransferLedger.Rows, bool) {
    var d := DraftFromExplorer(row, ctx);
    if d.None? then (rows, true)
    else
      var after := Upsert(rows, d.value, now);
      (after.GetOr(rows), after.Some?)
  }

  /** Rows in order, up to the first that throws. */
  function HandAll(rows: TransferLedger.Rows, entries: seq<ExplorerRow>, ctx: Context, now: int)
    : (TransferLedger.Rows, bool)
  {
    if |entries| == 0 then (rows, true)
    else
      var (before, ok) := HandAll(rows, entries[..|entries| - 1], ctx, now);
      if !ok then (before, false) else Hand(before, entries[|entries| - 1], ctx, now)
  }

  lemma {:induction false} HandAllSplits(
    rows: TransferLedger.Rows, a: seq<ExplorerRow>, b: seq<ExplorerRow>, ctx: Context, now: int)
    ensures HandAll(rows, a + b, ctx, now) ==
            if HandAll(rows, a, ctx, now).1 then HandAll(HandAll(rows, a, ctx, now).0, b, ctx, now)
            else HandAll(rows, a, ctx, now)
  {
    if |b| == 0 {
      assert a + b == a;
    } else {
      HandAllSplits(rows, a, b[..|b| - 1], ctx, now);
      assert (a + b)[..|a + b| - 1] == a + b[..|b| - 1];
    }
  }

  /** A further page, and what follows if it throws. */
  lemma HandOnePage(rows: TransferLedger.Rows, mid: TransferLedger.Rows, w: seq<ExplorerRow>, m: nat, n: nat,
                    ctx: Context, now: int)
    requires m <= n <= |w| && HandAll(rows, w[..m], ctx, now) == (mid, true)
    ensures HandAll(rows, w[..n], ctx, now) == HandAll(mid, w[m..n], ctx, now)
    ensures !HandAll(mid, w[m..n], ctx, now).1 ==> HandAll(rows, w, ctx, now) == HandAll(mid, w[m..n], ctx, now)
  {
    HandAllSplits(rows, w[..m], w[m..n], ctx, now);
    assert w[..m] + w[m..n] == w[..n];
    HandAllSplits(rows, w[..n], w[n..], ctx, now);
    assert w[..n] + w[n..] == w;
  }

  predicate Before(a: Cursor, b: Cursor) {
    a.lastBlock < b.lastBlock || (a.lastBlock == b.lastBlock && a.lastLog < b.lastLog)
  }

  predicate AtOrAfter(a: Cursor, b: Cursor) {
    a == b || Before(b, a)
  }

  function Later(a: Cursor, b: Cursor): Cursor {
    if Before(a, b) then b else a
  }

  function CursorOf(row: ExplorerRow): Cursor {
    Cursor(row.block, row.logIndex)
  }

  /** The block a scan has got to after the first `n` rows from `k` on. */
  function BlockAt(history: Feed, k: nat, n: nat, start: nat): nat
    requires k + n <= |history|
  {
    if n == 0 then start else history[k + n - 1].block
  }

  lemma BlockAtAdds(history: Feed, k: nat, m: nat, n: nat, start: nat)
    requires k + m + n <= |history|
    ensures BlockAt(history, k + m, n, BlockAt(history, k, m, start)) == BlockAt(history, k, m + n, start)
  {
  }

  ghost predicate KnownFrom(history: Feed, reply: Reply) {
    reply.Rows? ==> reply.feed <= history
  }

  /** Some answer of the tick knew no row beyond the first `n`. */
  ghost predicate EndKnown(replies: seq<Reply>, n: nat) {
    exists i :: 0 <= i < |replies| && replies[i].Rows? && |replies[i].feed| <= n
  }

  /** What became of a page: refused by the explorer, an exception, a full page, or the last one. */
  datatype Outcome = Refused | Threw | Full | Short

  ghost predicate NotAbove(block: nat, history: Feed, n: nat) {
    forall i :: n <= i < |history| ==> block <= history[i].block
  }

  /** The block reached is not above any row still to come, and everything below it has been passed. */
  lemma LastIsBelowTheRest(history: Feed, startBlock: nat, handed: nat)
    requires Ascending(history) && From(history, startBlock) + handed <= |history|
    ensures var k := From(history, startBlock);
            var reached := BlockAt(history, k, handed, startBlock);
            && NotAbove(reached, history, k + handed)
            && From(history, reached) <= k + handed && startBlock <= reached
  {
    FromSplits(history, startBlock);
    FromSplits(history, BlockAt(history, From(history, startBlock), handed, startBlock));
  }

  /** The rows that a tick looks at when this is what the explorer knows. */
  function Window(history: Feed, block: nat): seq<ExplorerRow> {
    var k := From(history, block);
    history[k..k + Min(PAGES_PER_TICK * PAGE_SIZE, |history| - k)]
  }

  /** Nobody else writes, and the explorer answers every page from the same rows. */
  ghost predicate Undisturbed(feed: Feed, replies: seq<Reply>, others: seq<seq<Draft>>) {
    && (forall i :: 0 <= i < |replies| ==> replies[i] == Rows(feed))
    && (forall i :: 0 <= i < |others| ==> others[i] == [])
  }

  /** What ticks work on: the ledger and the cursor's block. */
  datatype State = State(rows: TransferLedger.Rows, block: nat)

  /** An undisturbed tick, and whether it was clean. */
  function Tick(st: State, history: Feed, ctx: Context, now: int): (State, bool) {
    var w := Window(history, st.block);
    var (rows, ok) := HandAll(st.rows, w, ctx, now);
    (State(rows, if ok && |w| > 0 then w[|w| - 1].block else st.block), ok)
  }

  /** One undisturbed tick after the other, at these times. */
  function Ticks(st: State, history: Feed, ctx: Context, times: seq<int>): State {
    if |times| == 0 then st
    else Tick(Ticks(st, history, ctx, times[..|times| - 1]), history, ctx, times[|times| - 1]).0
  }

  /** Tick number `i` is clean. */
  predicate CleanAt(st: State, history: Feed, ctx: Context, times: seq<int>, i: nat) {
    i < |times| && Tick(Ticks(st, history, ctx, times[..i]), history, ctx, times[i]).1
  }

  ghost predicate AllClean(st: State, history: Feed, ctx: Context, times: seq<int>) {
    forall i :: 0 <= i < |times| ==> CleanAt(st, history, ctx, times, i)
  }

  lemma RowPassed(history: Feed, n: nat, i: nat, last: Cursor, passed: Cursor, here: Cursor)
    requires Ascending(history) && n + i < |history| && NotAbove(last.lastBlock, history, n)
    requires passed.lastBlock == BlockAt(history, n, i, last.lastBlock) && AtOrAfter(passed, last)
    requires here.lastBlock == history[n + i].block
    ensures Later(passed, here).lastBlock == BlockAt(history, n, i + 1, last.lastBlock)
    ensures AtOrAfter(Later(passed, here), last)
  {
  }

  class TransferSync {
    const ctx: Context
    const table: TransferTable
    ghost const history: Feed
    /** The ledger that the sync found, and every upsert made on it since, its own and others'. */
    ghost const start: TransferLedger.Rows
    ghost var writes: Writes

    var cursor: Option<Cursor>

    ghost predicate Recorded()
      reads this, table
    {
      Ascending(history) && Unique(start) && table.rows == TransferLedger.Run(start, writes)
    }

    /** Every row of a block below the cursor's has been handed over. */
    ghost predicate Valid()
      reads this, table
    {
      Recorded() && HandedUpTo(start, writes, history, From(history, Position().lastBlock), ctx)
    }

    function Position(): Cursor
      reads this
    {
      cursor.GetOr(Cursor(0, 0))
    }

    ghost function View(): State
      reads this, table
    {
      State(table.rows, Position().lastBlock)
    }

    constructor (ctx: Context, table: TransferTable, ghost history: Feed)
      requires Ascending(history) && Unique(table.rows)
      ensures Valid() && cursor == None && this.table == table && this.ctx == ctx && this.history == history
      ensures start == table.rows && writes == []
    {
      this.ctx, this.table, this.history, cursor := ctx, table, history, None;
      start, writes := table.rows, [];
      new;
      FromSplits(history, 0);
    }

    /** An upsert, noted among the writes. */
    method Write(d: Draft, now: int) returns (ok: bool)
      requires Recorded()
      modifies this`writes, table
      ensures Recorded() && old(writes) <= writes
      ensures table.rows == Upsert(old(table.rows), d, now).GetOr(old(table.rows))
      ensures ok == Upsert(old(table.rows), d, now).Some?
      ensures ok ==> Accepted(start, writes, d)
    {
      WriteAccepts(start, writes, d, now);
      writes := writes + [(d, now)];
      ok := table.UpsertWalletTransfer(d, now);
    }

    /** Row `i` of a page to the ledger, after the ones before it; false if its upsert threw. */
    method RecordRow(rows: seq<ExplorerRow>, i: nat, now: int, ghost before: TransferLedger.Rows, ghost n: nat)
      returns (ok: bool, drafted: bool)
      requires Recorded() && HandedUpTo(start, writes, history, n, ctx)
      requires i < |rows| && n < |history| && rows[i] == history[n]
      requires HandAll(before, rows[..i], ctx, now) == (table.rows, true)
      modifies this`writes, table
      ensures Recorded() && old(writes) <= writes && HandAll(before, rows[..i + 1], ctx, now) == (table.rows, ok)
      ensures HandedUpTo(start, writes, history, if ok then n + 1 else n, ctx)
    {
      assert rows[..i + 1][..i] == rows[..i];
      var draft := DraftFromExplorer(rows[i], ctx);
      ok, drafted := true, draft.Some?;
      if drafted {
        ok := Write(draft.value, now);
      }
      if ok {
        HandOne(start, old(writes), writes, history, n, ctx);
      } else {
        HandedStays(start, old(writes), writes, history, n, ctx);
      }
    }

    /** Row `i` of a page that is `history[n..]`, and the position that it brings the scan to. */
    method HandRow(rows: seq<ExplorerRow>, i: nat, now: int, last: Cursor, passed: Cursor,
                   ghost before: TransferLedger.Rows, ghost n: nat)
      returns (ok: bool, passed': Cursor, moved: bool)
      requires Recorded() && HandedUpTo(start, writes, history, n + i, ctx)
      requires i < |rows| && n + i < |history| && rows[i] == history[n + i]
      requires HandAll(before, rows[..i], ctx, now) == (table.rows, true)
      requires NotAbove(last.lastBlock, history, n) && AtOrAfter(passed, last)
      requires passed.lastBlock == BlockAt(history, n, i, last.lastBlock)
      modifies this`writes, table
      ensures Recorded() && old(writes) <= writes && HandAll(before, rows[..i + 1], ctx, now) == (table.rows, ok)
      ensures HandedUpTo(start, writes, history, n, ctx)
      ensures ok ==> HandedUpTo(start, writes, history, n + i + 1, ctx)
      ensures AtOrAfter(passed', last) && (passed' != passed ==> moved)
      ensures ok ==> passed'.lastBlock == BlockAt(history, n, i + 1, last.lastBlock)
      ensures ok ==> AtOrAfter(passed', passed) && AtOrAfter(passed', CursorOf(rows[i]))
      ensures passed' == passed || passed' == CursorOf(rows[i])
    {
      passed', moved := passed, false;
      var drafted;
      ok, drafted := RecordRow(rows, i, now, before, n + i);
      HandedLess(start, writes, history, n, if ok then n + i + 1 else n + i, ctx);
      if ok {
        var here := Cursor(rows[i].block, rows[i].logIndex);
        RowPassed(history, n, i, last, passed, here);
        moved := drafted || Before(passed, here);
        passed' := Later(passed, here);
      }
    }

    /** The rows of one page, which are `history[n..]`; false if an upsert threw. */
    method HandPage(rows: seq<ExplorerRow>, now: int, last: Cursor, ghost n: nat)
      returns (ok: bool, last': Cursor, advanced: bool)
      requires Recorded() && HandedUpTo(start, writes, history, n, ctx)
      requires n + |rows| <= |history| && rows == history[n..n + |rows|] && NotAbove(last.lastBlock, history, n)
      modifies this`writes, table
      ensures Recorded() && old(writes) <= writes && (table.rows, ok) == HandAll(old(table.rows), rows, ctx, now)
      ensures HandedUpTo(start, writes, history, if ok then n + |rows| else n, ctx)
      ensures AtOrAfter(last', last) && (last' != last ==> advanced)
      ensures ok ==> last'.lastBlock == BlockAt(history, n, |rows|, last.lastBlock)
    {
      ok, last', advanced := true, last, false;
      var i := 0;
      while i < |rows| && ok
        invariant i <= |rows| && Recorded() && old(writes) <= writes
        invariant (table.rows, ok) == HandAll(old(table.rows), rows[..i], ctx, now)
        invariant ok ==> HandedUpTo(start, writes, history, n + i, ctx)
        invariant HandedUpTo(start, writes, history, n, ctx)
        invariant AtOrAfter(last', last) && (last' != last ==> advanced)
        invariant ok ==> last'.lastBlock == BlockAt(history, n, i, last.lastBlock)
      {
        assert rows[i] == history[n + i];
        var moved;
        ok, last', moved := HandRow(rows, i, now, last, last', old(table.rows), n);
        advanced := advanced || moved;
        i := i + 1;
      }
      HandAllSplits(old(table.rows), rows[..i], rows[i..], ctx, now);
      assert rows[..i] + rows[i..] == rows;
    }

    /** One page's rows, if the explorer gives them: they continue the history at row `n`. */
    method FetchPage(reply: Reply, startBlock: nat, page: nat, ghost n: nat) returns (rows: Option<seq<ExplorerRow>>)
      requires page >= 1 && Ascending(history) && KnownFrom(history, reply)
      requires n == From(history, startBlock) + (page - 1) * PAGE_SIZE && n <= |history|
      ensures rows.Some? <==> reply.Rows?
      ensures rows.Some? ==> |rows.value| <= PAGE_SIZE && n + |rows.value| <= |history|
      ensures rows.Some? ==> rows.value == PageOf(reply.feed, startBlock, page) == history[n..n + |rows.value|]
      ensures rows.Some? && |rows.value| < PAGE_SIZE ==> |reply.feed| <= n + |rows.value|
    {
      if !reply.Rows? { return None; }
      PageContinues(history, reply.feed, startBlock, page);
      return Some(PageOf(reply.feed, startBlock, page));
    }

    /** One page of a tick that started at row `k` and has handed over `handed` rows so far. */
    method SyncPage(reply: Reply, startBlock: nat, page: nat, now: int, last: Cursor, ghost k: nat, ghost handed: nat)
      returns (outcome: Outcome, last': Cursor, moved: bool, ghost handed': nat)
      requires page >= 1 && Recorded() && KnownFrom(history, reply)
      requires k == From(history, startBlock) && handed == (page - 1) * PAGE_SIZE && k + handed <= |history|
      requires HandedUpTo(start, writes, history, k + handed, ctx) && NotAbove(last.lastBlock, history, k + handed)
      modifies this`writes, table
      ensures Recorded() && old(writes) <= writes
      ensures AtOrAfter(last', last) && (last' != last ==> moved)
      ensures handed <= handed' && k + handed' <= |history| && HandedUpTo(start, writes, history, k + handed', ctx)
      ensures outcome in {Threw, Refused} ==> handed' == handed
      ensures outcome in {Full, Short} ==>
                last'.lastBlock == BlockAt(history, k + handed, handed' - handed, last.lastBlock)
      ensures outcome == Full ==> handed' == handed + PAGE_SIZE
      ensures outcome == Short ==> handed' < handed + PAGE_SIZE && reply.Rows? && |reply.feed| <= k + handed'
      ensures reply.Rows? ==>
                outcome != Refused && PageHanded(old(table.rows), reply.feed, startBlock, page, now, outcome)
      ensures reply.Rows? && outcome != Threw ==> handed' == handed + |PageOf(reply.feed, startBlock, page)|
    {
      last', moved, handed' := last, false, handed;
      var rows := FetchPage(reply, startBlock, page, k + handed);
      if rows.None? {
        outcome := if reply.Broken? then Threw else Refused;
      } else {
        var ok;
        ok, last', moved := HandPage(rows.value, now, last, k + handed);
        handed' := if ok then handed + |rows.value| else handed;
        outcome := if !ok then Threw else if |rows.value| < PAGE_SIZE then Short else Full;
      }
    }

    /** The page's rows were handed to a ledger that held `before`, up to a throwing one. */
    ghost predicate PageHanded(
      before: TransferLedger.Rows, feed: Feed, startBlock: nat, page: nat, now: int, outcome: Outcome)
      requires page >= 1
      reads table
    {
      HandAll(before, PageOf(feed, startBlock, page), ctx, now) == (table.rows, outcome != Threw)
    }

    /** Writers of the ledger that come in while a page is awaited. */
    method OthersRecord(drafts: seq<Draft>, now: int, ghost n: nat)
      requires Recorded() && HandedUpTo(start, writes, history, n, ctx)
      modifies this`writes, table
      ensures Recorded() && old(writes) <= writes && HandedUpTo(start, writes, history, n, ctx)
      ensures drafts == [] ==> table.rows == old(table.rows)
    {
      for i := 0 to |drafts|
        invariant Recorded() && old(writes) <= writes
        invariant i == 0 ==> table.rows == old(table.rows)
      {
        var _ := Write(drafts[i], now);
      }
      HandedStays(start, old(writes), writes, history, n, ctx);
    }

    /** A tick that started at `from` has handed over `handed` rows and got to `last`. */
    ghost predicate Scanning(from: Cursor, last: Cursor, handed: nat)
      reads this, table
    {
      var n := From(history, from.lastBlock) + handed;
      && Recorded() && HandedUpTo(start, writes, history, n, ctx)
      && last.lastBlock == BlockAt(history, From(history, from.lastBlock), handed, from.lastBlock)
      && AtOrAfter(last, from)
    }

    lemma StillScanning(from: Cursor, last: Cursor, handed: nat, last': Cursor, handed': nat)
      requires Recorded() && handed <= handed' && From(history, from.lastBlock) + handed' <= |history|
      requires HandedUpTo(start, writes, history, From(history, from.lastBlock) + handed', ctx)
      requires last.lastBlock == BlockAt(history, From(history, from.lastBlock), handed, from.lastBlock)
      requires last'.lastBlock ==
               BlockAt(history, From(history, from.lastBlock) + handed, handed' - handed, last.lastBlock)
      requires AtOrAfter(last, from) && AtOrAfter(last', last)
      ensures Scanning(from, last', handed')
    {
      BlockAtAdds(history, From(history, from.lastBlock), handed, handed' - handed, from.lastBlock);
    }

    /** The next page of a tick. */
    method NextPage(reply: Reply, from: Cursor, page: nat, now: int, last: Cursor, ghost handed: nat)
      returns (outcome: Outcome, last': Cursor, moved: bool, ghost handed': nat)
      requires page >= 1 && handed == (page - 1) * PAGE_SIZE && KnownFrom(history, reply)
      requires Scanning(from, last, handed)
      modifies this`writes, table
      ensures Recorded() && old(writes) <= writes
      ensures HandedUpTo(start, writes, history, From(history, from.lastBlock), ctx)
      ensures last' != last ==> moved
      ensures outcome in {Full, Short} ==> Scanning(from, last', handed')
      ensures outcome == Full ==> handed' == handed + PAGE_SIZE
      ensures outcome == Short ==>
                handed' < handed + PAGE_SIZE && reply.Rows? && |reply.feed| <= From(history, from.lastBlock) + handed'
      ensures reply.Rows? ==>
                outcome != Refused && PageHanded(old(table.rows), reply.feed, from.lastBlock, page, now, outcome)
      ensures reply.Rows? && outcome != Threw ==> handed' == handed + |PageOf(reply.feed, from.lastBlock, page)|
    {
      ghost var k := From(history, from.lastBlock);
      LastIsBelowTheRest(history, from.lastBlock, handed);
      outcome, last', moved, handed' := SyncPage(reply, from.lastBlock, page, now, last, k, handed);
      HandedLess(start, writes, history, k, k + handed', ctx);
      if outcome in {Full, Short} { StillScanning(from, last, handed, last', handed'); }
    }

    method TouchSync()
      modifies this`cursor
      ensures cursor == Some(old(Position()))
    {
      cursor := Some(Position());
    }

    /** So far an undisturbed tick that found `before` has done what `Tick` does. */
    ghost predicate AsTick(feed: Feed, before: TransferLedger.Rows, block: nat, handed: nat, now: int, outcome: Outcome)
      reads table
    {
      && outcome != Refused
      && (outcome == Threw ==> HandAll(before, Window(feed, block), ctx, now) == (table.rows, false))
      && (outcome != Threw ==> handed <= |Window(feed, block)|)
      && (outcome != Threw ==> HandAll(before, Window(feed, block)[..handed], ctx, now) == (table.rows, true))
      && (outcome == Short ==> handed == |Window(feed, block)|)
    }

    /** The page is the next piece of the window. */
    lemma PageInWindow(feed: Feed, block: nat, page: nat, handed: nat)
      requires Ascending(feed) && 1 <= page <= PAGES_PER_TICK && handed == (page - 1) * PAGE_SIZE
      requires handed <= |Window(feed, block)|
      ensures var w, entries := Window(feed, block), PageOf(feed, block, page);
              && handed + |entries| <= |w| && entries == w[handed..handed + |entries|]
              && (|entries| < PAGE_SIZE ==> handed + |entries| == |w|)
    {
      PageContinues(feed, feed, block, page);
    }

    lemma PageAsTick(feed: Feed, before: TransferLedger.Rows, mid: TransferLedger.Rows, block: nat, page: nat,
                     handed: nat, handed': nat, now: int, outcome: Outcome)
      requires Ascending(feed) && 1 <= page <= PAGES_PER_TICK && handed == (page - 1) * PAGE_SIZE
      requires handed <= |Window(feed, block)| && outcome != Refused
      requires HandAll(before, Window(feed, block)[..handed], ctx, now) == (mid, true)
      requires PageHanded(mid, feed, block, page, now, outcome)
      requires outcome != Threw ==> handed' == handed + |PageOf(feed, block, page)|
      requires outcome == Short ==> |PageOf(feed, block, page)| < PAGE_SIZE
      ensures AsTick(feed, before, block, handed', now, outcome)
    {
      var w, n := Window(feed, block), handed + |PageOf(feed, block, page)|;
      PageInWindow(feed, block, page, handed);
      var (rows, ok) := HandAll(mid, w[handed..n], ctx, now);
      HandOnePage(before, mid, w, handed, n, ctx, now);
      assert rows == table.rows && (ok <==> outcome != Threw);
    }

    /** Up to three pages, each awaited while others write, stopping at the first short or failing one. */
    method ScanPages(replies: seq<Reply>, others: seq<seq<Draft>>, now: int, from: Cursor, ghost feed: Feed)
      returns (outcome: Outcome, last: Cursor, advanced: bool, ghost handed: nat)
      requires |replies| == |others| == PAGES_PER_TICK && Scanning(from, from, 0)
      requires feed <= history && forall i :: 0 <= i < |replies| ==> KnownFrom(history, replies[i])
      modifies this`writes, table
      ensures Recorded() && old(writes) <= writes
      ensures HandedUpTo(start, writes, history, From(history, from.lastBlock), ctx)
      ensures outcome in {Full, Short} ==> Scanning(from, last, handed) && handed <= PAGES_PER_TICK * PAGE_SIZE
      ensures outcome == Full ==> handed == PAGES_PER_TICK * PAGE_SIZE
      ensures outcome == Short ==> EndKnown(replies, From(history, from.lastBlock) + handed)
      ensures last != from ==> advanced
      ensures Undisturbed(feed, replies, others) ==> AsTick(feed, old(table.rows), from.lastBlock, handed, now, outcome)
    {
      last, advanced, outcome, handed := from, false, Full, 0;
      var page := 1;
      while page <= PAGES_PER_TICK && outcome == Full
        invariant 1 <= page <= PAGES_PER_TICK + 1 && Recorded() && old(writes) <= writes
        invariant HandedUpTo(start, writes, history, From(history, from.lastBlock), ctx)
        invariant outcome == Full ==> handed == (page - 1) * PAGE_SIZE
        invariant outcome in {Full, Short} ==> Scanning(from, last, handed) && handed <= PAGES_PER_TICK * PAGE_SIZE
        invariant outcome == Short ==> EndKnown(replies, From(history, from.lastBlock) + handed)
        invariant last != from ==> advanced
        invariant Undisturbed(feed, replies, others) ==>
                    AsTick(feed, old(table.rows), from.lastBlock, handed, now, outcome)
        decreases PAGES_PER_TICK + 1 - page
      {
        ghost var before := handed;
        OthersRecord(others[page - 1], now, From(history, from.lastBlock) + handed);
        ghost var rows := table.rows;
        var moved;
        outcome, last, moved, handed := NextPage(replies[page - 1], from, page, now, last, handed);
        if Undisturbed(feed, replies, others) {
          PageAsTick(feed, old(table.rows), rows, from.lastBlock, page, before, handed, now, outcome);
        }
        advanced := advanced || moved;
        page := page + 1;
      }
    }

    method MoveCursor(from: Cursor, last: Cursor, advanced: bool, ghost handed: nat)
      requires Scanning(from, last, handed) && Position() == from && (last != from ==> advanced)
      modifies this`cursor
      ensures Valid() && Position() == last
    {
      cursor := Some(if advanced then last else Position());
      LastIsBelowTheRest(history, from.lastBlock, handed);
      HandedLess(start, writes, history, From(history, last.lastBlock), From(history, from.lastBlock) + handed, ctx);
    }

    /** The window is the next piece of the history, or empty where the history goes on but the explorer does not. */
    lemma WindowInHistory(feed: Feed, block: nat)
      requires Ascending(history) && feed <= history
      ensures var k, m := From(history, block), |Window(feed, block)|;
              && k + m <= |history| && (m > 0 ==> Window(feed, block) == history[k..k + m])
    {
      FromOfPrefix(history, feed, block);
    }

    /** An undisturbed scan that ended is a tick. */
    lemma ScanIsTick(feed: Feed, before: TransferLedger.Rows, from: Cursor, last: Cursor, handed: nat, now: int,
                     outcome: Outcome)
      requires Ascending(history) && feed <= history && AsTick(feed, before, from.lastBlock, handed, now, outcome)
      requires outcome in {Full, Short} ==> Scanning(from, last, handed)
      requires outcome == Full ==> handed == PAGES_PER_TICK * PAGE_SIZE
      ensures Tick(State(before, from.lastBlock), feed, ctx, now) ==
              (State(table.rows, if outcome == Threw then from.lastBlock else last.lastBlock), outcome != Threw)
      ensures outcome != Threw ==> handed == |Window(feed, from.lastBlock)|
    {
      var w := Window(feed, from.lastBlock);
      assert outcome != Threw ==> w[..handed] == w;
      WindowInHistory(feed, from.lastBlock);
    }

    /**
     One tick, with whatever others write to the ledger in between. Whatever happens the cursor never goes back, and
     every row below it has been handed over. A tick without an error has handed over `handed` rows from the cursor's
     block on: three full pages, or everything the explorer knew. Undisturbed, it does what `Tick` does.
     */
    method SyncWalletTransfers(replies: seq<Reply>, others: seq<seq<Draft>>, now: int, ghost feed: Feed)
      returns (clean: bool, ghost handed: nat)
      requires Valid() && |replies| == |others| == PAGES_PER_TICK
      requires feed <= history && forall i :: 0 <= i < |replies| ==> KnownFrom(history, replies[i])
      modifies this`cursor, this`writes, table
      ensures Valid() && old(writes) <= writes && AllGrow(old(table.rows), table.rows)
      ensures AtOrAfter(Position(), old(Position()))
      ensures !clean ==> Position() == old(Position())
      ensures clean ==> CleanTick(old(Position()).lastBlock, replies, handed)
      ensures ctx.stables != map[] && Undisturbed(feed, replies, others) ==>
                (View(), clean) == Tick(old(View()), feed, ctx, now)
      ensures clean && Undisturbed(feed, replies, others) ==> handed == |Window(feed, old(Position()).lastBlock)|
    {
      clean, handed := false, 0;
      if ctx.stables == map[] {
        TouchSync();
        WritesGrow(start, writes, writes);
        return;
      }
      var from := Position();
      var outcome, last, advanced;
      outcome, last, advanced, handed := ScanPages(replies, others, now, from, feed);
      WritesGrow(start, old(writes), writes);
      if Undisturbed(feed, replies, others) {
        ScanIsTick(feed, old(table.rows), from, last, handed, now, outcome);
      }
      if outcome == Refused {
        TouchSync();
      } else if outcome != Threw {
        MoveCursor(from, last, advanced, handed);
        clean := true;
      }
    }

    /** What a tick without an error has done from this block on. */
    ghost predicate CleanTick(startBlock: nat, replies: seq<Reply>, handed: nat)
      reads this, table
    {
      var k := From(history, startBlock);
      && k + handed <= |history| && handed <= PAGES_PER_TICK * PAGE_SIZE
      && HandedUpTo(start, writes, history, k + handed, ctx)
      && Position().lastBlock == BlockAt(history, k, handed, startBlock)
      && (handed == PAGES_PER_TICK * PAGE_SIZE || EndKnown(replies, k + handed))
    }

    /**
     With the explorer at the end of the history, a tick without an error leaves rows behind and its cursor in place
     exactly if the cursor's block alone fills all three pages.
     */
    lemma StuckIff(startBlock: nat, feed: Feed, replies: seq<Reply>, handed: nat)
      requires Ascending(history) && feed == history && CleanTick(startBlock, replies, handed)
      requires forall i :: 0 <= i < |replies| ==> replies[i] == Rows(feed)
      ensures var k, all := From(history, startBlock), PAGES_PER_TICK * PAGE_SIZE;
              && handed == Min(all, |history| - k)
              && (k + handed < |history| && Position().lastBlock == startBlock <==>
                    k + all < |history| && history[k + all - 1].block == startBlock)
    {
      FromSplits(history, startBlock);
    }

    /** An undisturbed tick, which hands over what the explorer knows by then. */
    method TickOnce(feed: Feed, now: int) returns (clean: bool)
      requires Valid() && feed <= history && ctx.stables != map[]
      modifies this`cursor, this`writes, table
      ensures Valid() && old(writes) <= writes && (View(), clean) == Tick(old(View()), feed, ctx, now)
      ensures clean ==> Advanced(feed, old(Position()).lastBlock)
    {
      var replies, others := [Rows(feed), Rows(feed), Rows(feed)], [[], [], []];
      assert Undisturbed(feed, replies, others);
      ghost var handed;
      clean, handed := SyncWalletTransfers(replies, others, now, feed);
    }

    /** A clean tick from this block has handed over the whole window, and got to its last block. */
    ghost predicate Advanced(feed: Feed, block: nat)
      reads this
    {
      var k, m := From(history, block), |Window(feed, block)|;
      && k + m <= |history| && HandedUpTo(start, writes, history, k + m, ctx)
      && Position().lastBlock == BlockAt(history, k, m, block)
    }

    /**
     Undisturbed ticks against a history that stands still do what `Ticks` does; if all of them are clean, they are
     more than the history has rows, and no block fills a tick, the whole history has been handed over.
     */
    method CatchUp(feed: Feed, times: seq<int>)
      requires Valid() && feed == history && ctx.stables != map[]
      modifies this`cursor, this`writes, table
      ensures Valid() && old(writes) <= writes && View() == Ticks(old(View()), history, ctx, times)
      ensures AllClean(old(View()), history, ctx, times) && |times| > |history| && NoBlockFillsATick(history) ==>
                HandedUpTo(start, writes, history, |history|, ctx)
    {
      for t := 0 to |times|
        invariant Valid() && old(writes) <= writes && View() == Ticks(old(View()), history, ctx, times[..t])
        invariant AllClean(old(View()), history, ctx, times) && NoBlockFillsATick(history) ==>
                    HandedUpTo(start, writes, history, |history|, ctx) || Ahead(t)
      {
        ghost var block, before := Position().lastBlock, writes;
        assert times[..t + 1][..t] == times[..t];
        var clean := TickOnce(feed, times[t]);
        if AllClean(old(View()), history, ctx, times) && NoBlockFillsATick(history) {
          assert CleanAt(old(View()), history, ctx, times, t);
          TickGetsAhead(before, block, t);
        }
      }
      assert times[..|times|] == times;
    }

    /** At least this many rows are in blocks below the cursor's. */
    ghost predicate Ahead(t: nat)
      reads this
    {
      From(history, Position().lastBlock) >= t
    }

    lemma TickGetsAhead(before: Writes, block: nat, t: nat)
      requires Ascending(history) && NoBlockFillsATick(history) && before <= writes
      requires HandedUpTo(start, before, history, |history|, ctx) || From(history, block) >= t
      requires Advanced(history, block)
      ensures HandedUpTo(start, writes, history, |history|, ctx) || Ahead(t + 1)
    {
      if HandedUpTo(start, before, history, |history|, ctx) {
        HandedStays(start, before, writes, history, |history|, ctx);
      } else {
        BlockPassed(history, block);
      }
    }
  }

  /** Where no block fills a tick, a window that does not reach the end gets past the block it starts at. */
  lemma BlockPassed(history: Feed, block: nat)
    requires Ascending(history) && NoBlockFillsATick(history)
    ensures var k, m := From(history, block), |Window(history, block)|;
            k + m < |history| ==> From(history, BlockAt(history, k, m, block)) > k
  {
    var k, m := From(history, block), |Window(history, block)|;
    if k + m < |history| {
      FromSplits(history, block);
      FromSplits(history, BlockAt(history, k, m, block));
      assert history[k].block < history[k + m - 1].block;
    }
  }

  /** No single block has as many transfers of the wallet as three pages hold. */
  ghost predicate NoBlockFillsATick(history: Feed) {
    forall i :: 0 <= i && i + PAGES_PER_TICK * PAGE_SIZE <= |history| ==>
      history[i].block < history[i + PAGES_PER_TICK * PAGE_SIZE - 1].block
  }
}
