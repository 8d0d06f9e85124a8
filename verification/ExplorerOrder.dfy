/**
 Why a throwing row stops the explorer sync only if a transaction's rows come in the order of their log positions: an
 out-of-order listing whose last row throws when it is first handed over, and does not when it is handed over again.
 */
module ExplorerOrder {
  import opened Base
  import opened TransferLedger
  import opened WalletTransfers
  import opened ExplorerSync

  /** The ledger holds these transfers, all of the draft's transaction, at these positions. */
  ghost predicate Stand(rows: Rows, keys: seq<Key>, at: seq<nat>, d: Draft) {
    && Unique(rows) && |rows| == |keys| == |at|
    && forall i :: 0 <= i < |rows| ==>
         rows[i].key == keys[i] && rows[i].logIndex == at[i] && AtLog(rows[i], d.chainId, Lower(d.txHash), at[i])
  }

  lemma Raises(rows: Rows, keys: seq<Key>, at: seq<nat>, d: Draft, now: int, i: nat)
    requires Stand(rows, keys, at, d) && i < |keys| && keys[i] == KeyOf(d) && (d.logIndex !in at || d.logIndex <= at[i])
    ensures Upsert(rows, d, now).Some? && Stand(Upsert(rows, d, now).value, keys, at[i := Max(at[i], d.logIndex)], d)
  {
    ThrowsIff(rows, d, now);
    UpsertKeepsUnique(rows, d, now);
    PositionsAfter(rows, d, now);
    assert FindKey(rows, KeyOf(d)).Some?;
  }

  lemma MergesAway(rows: Rows, keys: seq<Key>, at: seq<nat>, d: Draft, now: int)
    requires Stand(rows, keys, at, d) && KeyOf(d) !in keys && d.logIndex in at
    ensures Upsert(rows, d, now).Some? && Stand(Upsert(rows, d, now).value, keys, at, d)
  {
    ThrowsIff(rows, d, now);
    UpsertKeepsUnique(rows, d, now);
    PositionsAfter(rows, d, now);
    var i :| 0 <= i < |at| && at[i] == d.logIndex;
    assert AtLog(rows[i], d.chainId, Lower(d.txHash), d.logIndex);
  }

  lemma Appends(rows: Rows, keys: seq<Key>, at: seq<nat>, d: Draft, now: int)
    requires Stand(rows, keys, at, d) && KeyOf(d) !in keys && d.logIndex !in at
    ensures Upsert(rows, d, now).Some?
    ensures Stand(Upsert(rows, d, now).value, keys + [KeyOf(d)], at + [d.logIndex], d)
  {
    ThrowsIff(rows, d, now);
    UpsertKeepsUnique(rows, d, now);
    PositionsAfter(rows, d, now);
    assert Match(rows, d).None?;
  }

  lemma Refuses(rows: Rows, keys: seq<Key>, at: seq<nat>, d: Draft, now: int, i: nat, j: nat)
    requires Stand(rows, keys, at, d) && i < |keys| && keys[i] == KeyOf(d) && at[i] < d.logIndex
    requires j < |at| && at[j] == d.logIndex
    ensures Upsert(rows, d, now).None?
  {
    ThrowsIff(rows, d, now);
    assert AtLog(rows[j], d.chainId, Lower(d.txHash), d.logIndex);
  }

  /** A transfer like this one, of another amount and at another position of its transaction. */
  function Variant(base: ExplorerRow, value: string, logIndex: nat): ExplorerRow {
    base.(value := value, logIndex := logIndex)
  }

  function DraftOf(base: ExplorerRow, value: string, logIndex: nat, ctx: Context): (d: Draft)
    requires DraftFromExplorer(base, ctx).Some?
    ensures DraftFromExplorer(Variant(base, value, logIndex), ctx) == Some(d)
    ensures d.amount == value && d.logIndex == logIndex && d.chainId == ctx.chainId
    ensures Lower(d.txHash) == Lower(base.hash)
    ensures KeyOf(d) == KeyOf(DraftFromExplorer(base, ctx).value).(amount := value)
  {
    LowerIdempotent(base.hash);
    DraftFromExplorer(Variant(base, value, logIndex), ctx).value
  }

  lemma HandedFour(rows: Rows, r1: Rows, r2: Rows, r3: Rows, entries: seq<ExplorerRow>, ctx: Context, now: int)
    requires |entries| == 4 && Hand(rows, entries[0], ctx, now) == (r1, true)
    requires Hand(r1, entries[1], ctx, now) == (r2, true) && Hand(r2, entries[2], ctx, now) == (r3, true)
    ensures HandAll(rows, entries, ctx, now) == Hand(r3, entries[3], ctx, now)
  {
    assert HandAll(rows, [], ctx, now) == (rows, true);
    HandedNext(rows, entries, 0, ctx, now);
    HandedNext(rows, entries, 1, ctx, now);
    HandedNext(rows, entries, 2, ctx, now);
    HandedNext(rows, entries, 3, ctx, now);
    assert entries[..0] == [] && entries[..4] == entries;
  }

  lemma HandedNext(rows: Rows, entries: seq<ExplorerRow>, n: nat, ctx: Context, now: int)
    requires n < |entries| && HandAll(rows, entries[..n], ctx, now).1
    ensures HandAll(rows, entries[..n + 1], ctx, now) ==
            Hand(HandAll(rows, entries[..n], ctx, now).0, entries[n], ctx, now)
  {
    assert entries[..n + 1][..n] == entries[..n];
  }

  /** The first three of four rows, of which the first and the third are one transfer. */
  lemma ThreeOfFour(rows: Rows, x5: Draft, y7: Draft, x3: Draft, j: Key, now: int, again: bool)
    returns (r1: Rows, r2: Rows, after: Rows)
    requires KeyOf(x5) == KeyOf(x3) && KeyOf(x3) != KeyOf(y7) && KeyOf(x3) != j && KeyOf(y7) != j
    requires x5.logIndex == 5 && y7.logIndex == 7 && x3.logIndex == 3
    requires x5.chainId == y7.chainId == x3.chainId && Lower(x5.txHash) == Lower(y7.txHash) == Lower(x3.txHash)
    requires if again then Stand(rows, [KeyOf(y7), j, KeyOf(x3)], [7, 0, 3], x5)
             else Stand(rows, [KeyOf(y7), j], [5, 0], x5)
    ensures Upsert(rows, x5, now) == Some(r1) && Upsert(r1, y7, now) == Some(r2) && Upsert(r2, x3, now) == Some(after)
    ensures Stand(after, [KeyOf(y7), j, KeyOf(x3)], [7, 0, if again then 5 else 3], x5)
  {
    var k2, k3 := [KeyOf(y7), j], [KeyOf(y7), j, KeyOf(x3)];
    if again {
      Raises(rows, k3, [7, 0, 3], x5, now, 2);
      r1 := Upsert(rows, x5, now).value;
      Raises(r1, k3, [7, 0, 5], y7, now, 0);
      r2 := Upsert(r1, y7, now).value;
      Raises(r2, k3, [7, 0, 5], x3, now, 2);
      after := Upsert(r2, x3, now).value;
    } else {
      MergesAway(rows, k2, [5, 0], x5, now);
      r1 := Upsert(rows, x5, now).value;
      Raises(r1, k2, [5, 0], y7, now, 0);
      r2 := Upsert(r1, y7, now).value;
      Appends(r2, k2, [7, 0], x3, now);
      after := Upsert(r2, x3, now).value;
    }
  }

  /** The second transfer at position 5, numbered by its batch, and the third at 0. */
  function LedgerBefore(base: ExplorerRow, ctx: Context, now: int): Rows
    requires DraftFromExplorer(base, ctx).Some?
  {
    [Inserted(DraftOf(base, "2", 5, ctx), now), Inserted(DraftOf(base, "3", 0, ctx), now)]
  }

  /** One transaction's rows out of order, its first transfer listed twice. */
  function OutOfOrder(base: ExplorerRow): Feed {
    [Variant(base, "1", 5), Variant(base, "2", 7), Variant(base, "1", 3), Variant(base, "3", 3)]
  }

  /** These four rows draft these. */
  predicate DraftedFrom(entries: seq<ExplorerRow>, drafts: seq<Draft>, ctx: Context) {
    |entries| == |drafts| == 4 && forall i :: 0 <= i < 4 ==> DraftFromExplorer(entries[i], ctx) == Some(drafts[i])
  }

  lemma OutOfOrderDrafts(base: ExplorerRow, ctx: Context)
    requires DraftFromExplorer(base, ctx).Some?
    ensures DraftedFrom(OutOfOrder(base), [DraftOf(base, "1", 5, ctx), DraftOf(base, "2", 7, ctx),
                                           DraftOf(base, "1", 3, ctx), DraftOf(base, "3", 3, ctx)], ctx)
  {
  }

  /** Handing over the four rows when the first three upserts do not throw. */
  lemma HandedThree(rows: Rows, r1: Rows, r2: Rows, after: Rows, entries: seq<ExplorerRow>, drafts: seq<Draft>,
                    ctx: Context, now: int)
    requires DraftedFrom(entries, drafts, ctx)
    requires Upsert(rows, drafts[0], now) == Some(r1) && Upsert(r1, drafts[1], now) == Some(r2)
    requires Upsert(r2, drafts[2], now) == Some(after)
    ensures var last := Upsert(after, drafts[3], now);
            HandAll(rows, entries, ctx, now) == (last.GetOr(after), last.Some?)
  {
    HandedFour(rows, r1, r2, after, entries, ctx, now);
  }

  /** Where the three transfers stand once the rows have been handed over as far as they go. */
  ghost predicate StandAfter(rows: Rows, base: ExplorerRow, ctx: Context, first: nat)
    requires DraftFromExplorer(base, ctx).Some?
  {
    var key := KeyOf(DraftFromExplorer(base, ctx).value);
    var keys := [key.(amount := "2"), key.(amount := "3"), key.(amount := "1")];
    Stand(rows, keys, [7, 0, first], DraftOf(base, "1", 5, ctx))
  }

  lemma LedgerStands(base: ExplorerRow, ctx: Context, now: int)
    requires DraftFromExplorer(base, ctx).Some?
    ensures var keys := [KeyOf(DraftOf(base, "2", 7, ctx)), KeyOf(DraftOf(base, "3", 3, ctx))];
            Stand(LedgerBefore(base, ctx, now), keys, [5, 0], DraftOf(base, "1", 5, ctx))
  {
    assert KeyOf(DraftOf(base, "2", 7, ctx)).amount == "2" && KeyOf(DraftOf(base, "3", 3, ctx)).amount == "3";
  }

  lemma FirstPass(base: ExplorerRow, ctx: Context, now: int) returns (after: Rows)
    requires DraftFromExplorer(base, ctx).Some?
    ensures HandAll(LedgerBefore(base, ctx, now), OutOfOrder(base), ctx, now) == (after, false)
    ensures StandAfter(after, base, ctx, 3)
  {
    var x5, y7, x3 := DraftOf(base, "1", 5, ctx), DraftOf(base, "2", 7, ctx), DraftOf(base, "1", 3, ctx);
    var j3, rows := DraftOf(base, "3", 3, ctx), LedgerBefore(base, ctx, now);
    assert KeyOf(x3).amount == "1" && KeyOf(y7).amount == "2" && KeyOf(j3).amount == "3";
    LedgerStands(base, ctx, now);
    var r1, r2;
    r1, r2, after := ThreeOfFour(rows, x5, y7, x3, KeyOf(j3), now, false);
    Refuses(after, [KeyOf(y7), KeyOf(j3), KeyOf(x3)], [7, 0, 3], j3, now, 1, 2);
    OutOfOrderDrafts(base, ctx);
    HandedThree(rows, r1, r2, after, OutOfOrder(base), [x5, y7, x3, j3], ctx, now);
  }

  lemma SecondPass(rows: Rows, base: ExplorerRow, ctx: Context, now: int)
    requires DraftFromExplorer(base, ctx).Some? && StandAfter(rows, base, ctx, 3)
    ensures HandAll(rows, OutOfOrder(base), ctx, now).1
  {
    var x5, y7, x3 := DraftOf(base, "1", 5, ctx), DraftOf(base, "2", 7, ctx), DraftOf(base, "1", 3, ctx);
    var j3 := DraftOf(base, "3", 3, ctx);
    assert KeyOf(x3).amount == "1" && KeyOf(y7).amount == "2" && KeyOf(j3).amount == "3";
    var r1, r2, after := ThreeOfFour(rows, x5, y7, x3, KeyOf(j3), now, true);
    Raises(after, [KeyOf(y7), KeyOf(j3), KeyOf(x3)], [7, 0, 5], j3, now, 1);
    OutOfOrderDrafts(base, ctx);
    HandedThree(rows, r1, r2, after, OutOfOrder(base), [x5, y7, x3, j3], ctx, now);
  }

  /**
   The order matters: handing over these rows, which are variants of any transfer of the wallet, throws at the last one;
   handing them over again succeeds.
   */
  lemma OutOfOrderCanRecover(base: ExplorerRow, ctx: Context, now: int, later: int)
    requires DraftFromExplorer(base, ctx).Some?
    ensures var (once, ok) := HandAll(LedgerBefore(base, ctx, now), OutOfOrder(base), ctx, now);
            !ok && HandAll(once, OutOfOrder(base), ctx, later).1
  {
    var once := FirstPass(base, ctx, now);
    SecondPass(once, base, ctx, later);
  }
}
