/** The de-duplicating `wallet_transfers` table, fed by user operations, proposals and the explorer. */
module TransferLedger {
  import opened Base

  datatype Direction = In | Out

  datatype Source = FromUserOp | FromProposal | FromExplorer

  /** What makes two drafts the same transfer. */
  datatype Key = Key(
    chainId: string, txHash: string, token: string, amount: string, direction: Direction, counterparty: string)

  datatype Draft = Draft(
    wallet: string, chainId: string, txHash: string, token: string, symbol: string, decimals: nat, amount: string,
    direction: Direction, counterparty: string, logIndex: nat, blockNumber: nat, source: Source,
    userOpHash: Option<string>, proposalId: Option<string>)

  datatype Row = Row(
    wallet: string, key: Key, symbol: string, decimals: nat, logIndex: nat, blockNumber: nat, source: Source,
    userOpHash: Option<string>, proposalId: Option<string>, createdAt: int)

  /** The table in insertion order; a row's position stands for its random id. */
  type Rows = seq<Row>

  function KeyOf(d: Draft): Key {
    Key(d.chainId, Lower(d.txHash), Lower(d.token), d.amount, d.direction, Lower(d.counterparty))
  }

  /** What makes two drafts one transfer; the wallet is not part of it. */
  lemma SameTransferIff(a: Draft, b: Draft)
    ensures KeyOf(a) == KeyOf(b) <==>
            && a.chainId == b.chainId && Lower(a.txHash) == Lower(b.txHash) && Lower(a.token) == Lower(b.token)
            && a.amount == b.amount && a.direction == b.direction && Lower(a.counterparty) == Lower(b.counterparty)
  {
  }

  /** The row occupies this log position: the unique index of the table. */
  predicate AtLog(r: Row, chainId: string, txHash: string, logIndex: nat) {
    r.key.chainId == chainId && r.key.txHash == txHash && r.logIndex == logIndex
  }

  function FindKey(rows: Rows, k: Key): (i: Option<nat>)
    ensures i.Some? ==> i.value < |rows| && rows[i.value].key == k
    ensures i.None? ==> forall j :: 0 <= j < |rows| ==> rows[j].key != k
  {
    if |rows| == 0 then None
    else if rows[|rows| - 1].key == k then Some(|rows| - 1) else FindKey(rows[..|rows| - 1], k)
  }

  function FindLog(rows: Rows, chainId: string, txHash: string, logIndex: nat): (i: Option<nat>)
    ensures i.Some? ==> i.value < |rows| && AtLog(rows[i.value], chainId, txHash, logIndex)
    ensures i.None? ==> forall j :: 0 <= j < |rows| ==> !AtLog(rows[j], chainId, txHash, logIndex)
  {
    if |rows| == 0 then None
    else if AtLog(rows[|rows| - 1], chainId, txHash, logIndex) then Some(|rows| - 1)
    else FindLog(rows[..|rows| - 1], chainId, txHash, logIndex)
  }

  /** The row a draft is merged into: the same transfer, or else whatever sits at its log position. */
  function Match(rows: Rows, d: Draft): (i: Option<nat>)
    ensures i.Some? ==> i.value < |rows|
  {
    var semantic := FindKey(rows, KeyOf(d));
    if semantic.Some? then semantic else FindLog(rows, d.chainId, Lower(d.txHash), d.logIndex)
  }

  predicate Managed(s: Source) {
    s.FromUserOp? || s.FromProposal?
  }

  function Merged(r: Row, d: Draft): Row {
    r.(logIndex := Max(r.logIndex, d.logIndex), blockNumber := Max(r.blockNumber, d.blockNumber),
       source := if Managed(r.source) then r.source else d.source,
       userOpHash := r.userOpHash.Or(d.userOpHash), proposalId := r.proposalId.Or(d.proposalId))
  }

  /** What the server sent itself stays marked so; the explorer's finding of a row gives way to it. */
  lemma SourceAfter(r: Row, d: Draft)
    ensures Merged(r, d).source == if r.source == FromExplorer then d.source else r.source
  {
  }

  function Inserted(d: Draft, now: int): Row {
    Row(Lower(d.wallet), KeyOf(d), d.symbol, d.decimals, d.logIndex, d.blockNumber, d.source, d.userOpHash,
        d.proposalId, now)
  }

  /** Another row already occupies the log position this row would move to. */
  predicate Clashes(rows: Rows, i: nat, r: Row) {
    exists j :: 0 <= j < |rows| && j != i && AtLog(rows[j], r.key.chainId, r.key.txHash, r.logIndex)
  }

  /** None is the exception of a violated unique index. */
  function Upsert(rows: Rows, d: Draft, now: int): Option<Rows> {
    var m := Match(rows, d);
    if m.None? then Some(rows + [Inserted(d, now)])
    else if Clashes(rows, m.value, Merged(rows[m.value], d)) then None
    else Some(rows[m.value := Merged(rows[m.value], d)])
  }

  class TransferTable {
    var rows: Rows

    constructor ()
      ensures rows == []
    {
      rows := [];
    }

    method UpsertWalletTransfer(d: Draft, now: int) returns (ok: bool)
      modifies this
      ensures ok == Upsert(old(rows), d, now).Some?
      ensures rows == Upsert(old(rows), d, now).GetOr(old(rows))
    {
      var target := FindKey(rows, KeyOf(d));
      if target.None? { target := FindLog(rows, d.chainId, Lower(d.txHash), d.logIndex); }
      if target.None? {
        rows := rows + [Inserted(d, now)];
        return true;
      }
      var row := rows[target.value];
      if d.logIndex > row.logIndex { row := row.(logIndex := d.logIndex); }
      if d.blockNumber > row.blockNumber { row := row.(blockNumber := d.blockNumber); }
      if !Managed(row.source) { row := row.(source := d.source); }
      row := row.(userOpHash := row.userOpHash.Or(d.userOpHash), proposalId := row.proposalId.Or(d.proposalId));
      assert row == Merged(rows[target.value], d);
      if Clashes(rows, target.value, row) { return false; }
      rows := rows[target.value := row];
      return true;
    }
  }

  // ----- Uniqueness, idempotence, monotonicity -----

  ghost predicate Unique(rows: Rows) {
    && (forall i, j :: 0 <= i < j < |rows| ==> rows[i].key != rows[j].key)
    && (forall i, j :: 0 <= i < |rows| && 0 <= j < |rows| && i != j ==>
          !AtLog(rows[j], rows[i].key.chainId, rows[i].key.txHash, rows[i].logIndex))
  }

  /** What later drafts may do to a row: never lose its key, move its position back, downgrade it or relink it. */
  predicate Grows(r: Row, r': Row) {
    && r'.key == r.key && r'.wallet == r.wallet && r'.createdAt == r.createdAt
    && r.logIndex <= r'.logIndex && r.blockNumber <= r'.blockNumber
    && (Managed(r.source) ==> r'.source == r.source)
    && (r.userOpHash.Some? ==> r'.userOpHash == r.userOpHash)
    && (r.proposalId.Some? ==> r'.proposalId == r.proposalId)
  }

  ghost predicate AllGrow(rows: Rows, rows': Rows) {
    |rows| <= |rows'| && forall i :: 0 <= i < |rows| ==> Grows(rows[i], rows'[i])
  }

  lemma UpsertKeepsUnique(rows: Rows, d: Draft, now: int)
    requires Unique(rows) && Upsert(rows, d, now).Some?
    ensures Unique(Upsert(rows, d, now).value) && AllGrow(rows, Upsert(rows, d, now).value)
  {
  }

  /** The second of two equal upserts changes nothing. */
  lemma UpsertIsIdempotent(rows: Rows, d: Draft, now: int, later: int)
    requires Unique(rows) && Upsert(rows, d, now).Some?
    ensures Upsert(Upsert(rows, d, now).value, d, later) == Upsert(rows, d, now)
  {
    var once := Upsert(rows, d, now).value;
    UpsertKeepsUnique(rows, d, now);
    var m := Match(rows, d);
    var i := if m.Some? then m.value else |rows|;
    assert once[i].key == KeyOf(d) ==> FindKey(once, KeyOf(d)) == Some(i);
    assert AtLog(once[i], d.chainId, Lower(d.txHash), d.logIndex) ==>
        FindLog(once, d.chainId, Lower(d.txHash), d.logIndex) == Some(i);
    assert Merged(once[i], d) == once[i];
    assert once[i := once[i]] == once;
  }

  /** The table after a run of drafts; a draft whose upsert throws leaves it unchanged. */
  function Run(rows: Rows, drafts: seq<(Draft, int)>): Rows {
    if |drafts| == 0 then rows
    else
      var before := Run(rows, drafts[..|drafts| - 1]);
      Upsert(before, drafts[|drafts| - 1].0, drafts[|drafts| - 1].1).GetOr(before)
  }

  /** Over every run there is at most one row a transfer and one a log position, and rows only grow. */
  lemma {:induction false} RunKeepsOneRowPerTransfer(rows: Rows, drafts: seq<(Draft, int)>)
    requires Unique(rows)
    ensures Unique(Run(rows, drafts)) && AllGrow(rows, Run(rows, drafts))
  {
    if |drafts| > 0 {
      var n := |drafts| - 1;
      RunKeepsOneRowPerTransfer(rows, drafts[..n]);
      var before := Run(rows, drafts[..n]);
      if Upsert(before, drafts[n].0, drafts[n].1).Some? {
        UpsertKeepsUnique(before, drafts[n].0, drafts[n].1);
      }
    }
  }

  lemma {:induction false} RunSplits(rows: Rows, drafts: seq<(Draft, int)>, m: nat)
    requires m <= |drafts|
    ensures Run(rows, drafts) == Run(Run(rows, drafts[..m]), drafts[m..])
  {
    var tail := drafts[m..];
    if |tail| == 0 {
      assert drafts[..m] == drafts;
    } else {
      var front := drafts[..|drafts| - 1];
      RunSplits(rows, front, m);
      assert front[..m] == drafts[..m];
      assert front[m..] == tail[..|tail| - 1];
    }
  }

  /** A draft of the run opened this row: wallet, key, token and time are its own. */
  ghost predicate OpenedBy(r: Row, drafts: seq<(Draft, int)>, p: nat) {
    && p < |drafts|
    && var (d, now) := drafts[p];
       && (r.wallet, r.key, r.symbol, r.decimals) == (Lower(d.wallet), KeyOf(d), d.symbol, d.decimals)
       && r.createdAt == now && d.logIndex <= r.logIndex && d.blockNumber <= r.blockNumber
       && (d.userOpHash.Some? ==> r.userOpHash == d.userOpHash) && (d.proposalId.Some? ==> r.proposalId == d.proposalId)
       && (Managed(d.source) ==> r.source == d.source)
  }

  ghost predicate Opens(r: Row, drafts: seq<(Draft, int)>) {
    exists p :: 0 <= p < |drafts| && OpenedBy(r, drafts, p)
  }

  lemma StaysOpened(r: Row, r': Row, drafts: seq<(Draft, int)>, more: seq<(Draft, int)>)
    requires drafts <= more && Opens(r, drafts) && Grows(r, r') && r'.symbol == r.symbol && r'.decimals == r.decimals
    ensures Opens(r', more)
  {
    var p :| 0 <= p < |drafts| && OpenedBy(r, drafts, p);
    assert OpenedBy(r', more, p);
  }

  ghost predicate AllOpened(rows: Rows, drafts: seq<(Draft, int)>) {
    Unique(rows) && forall i :: 0 <= i < |rows| ==> Opens(rows[i], drafts)
  }

  lemma UpsertOpens(rows: Rows, d: Draft, now: int, i: nat)
    requires Unique(rows) && Upsert(rows, d, now).Some? && i < |Upsert(rows, d, now).value|
    ensures var r := Upsert(rows, d, now).value[i];
            if i < |rows| then Grows(rows[i], r) && r.symbol == rows[i].symbol && r.decimals == rows[i].decimals
            else r == Inserted(d, now)
  {
    UpsertKeepsUnique(rows, d, now);
  }

  lemma OneMoreOpened(rows: Rows, front: seq<(Draft, int)>, d: Draft, now: int, drafts: seq<(Draft, int)>)
    requires AllOpened(rows, front) && drafts == front + [(d, now)]
    ensures AllOpened(Upsert(rows, d, now).GetOr(rows), drafts)
  {
    var after := Upsert(rows, d, now).GetOr(rows);
    if Upsert(rows, d, now).Some? { UpsertKeepsUnique(rows, d, now); }
    forall i | 0 <= i < |after| ensures Opens(after[i], drafts) {
      if Upsert(rows, d, now).Some? { UpsertOpens(rows, d, now, i); }
      if i < |rows| {
        StaysOpened(rows[i], after[i], front, drafts);
      } else {
        assert OpenedBy(after[i], drafts, |front|);
      }
    }
  }

  /** After every run from an empty ledger each row was opened by a draft of the run. */
  lemma {:induction false} RowsAreOpened(drafts: seq<(Draft, int)>)
    ensures AllOpened(Run([], drafts), drafts)
  {
    if |drafts| > 0 {
      var front, last := drafts[..|drafts| - 1], drafts[|drafts| - 1];
      RowsAreOpened(front);
      OneMoreOpened(Run([], front), front, last.0, last.1, drafts);
    }
  }

  // ----- When a draft gets its own row -----

  /** No other transfer occupies the draft's log position. */
  predicate SlotFree(rows: Rows, d: Draft) {
    forall j :: 0 <= j < |rows| && AtLog(rows[j], d.chainId, Lower(d.txHash), d.logIndex) ==> rows[j].key == KeyOf(d)
  }

  /** The transfer has a row below the draft's position, and another transfer's row is at that position. */
  ghost predicate Blocked(rows: Rows, d: Draft) {
    !SlotFree(rows, d) && exists i :: 0 <= i < |rows| && rows[i].key == KeyOf(d) && rows[i].logIndex < d.logIndex
  }

  /** An upsert throws exactly when it would move the transfer's own row up onto another transfer's position. */
  lemma ThrowsIff(rows: Rows, d: Draft, now: int)
    requires Unique(rows)
    ensures Upsert(rows, d, now).None? <==> Blocked(rows, d)
  {
    var m := FindKey(rows, KeyOf(d));
    if m.Some? {
      var r := Merged(rows[m.value], d);
      if Clashes(rows, m.value, r) {
        var j :| 0 <= j < |rows| && j != m.value && AtLog(rows[j], r.key.chainId, r.key.txHash, r.logIndex);
        assert rows[m.value].logIndex < d.logIndex;
        assert AtLog(rows[j], d.chainId, Lower(d.txHash), d.logIndex) && rows[j].key != KeyOf(d);
      }
    }
  }

  function RaisedTo(r: Row, d: Draft): nat {
    if r.key == KeyOf(d) then Max(r.logIndex, d.logIndex) else r.logIndex
  }

  /** An upsert changes no position but that of the transfer's row, which it raises to the draft's if it is lower. */
  lemma PositionsAfter(rows: Rows, d: Draft, now: int)
    requires Unique(rows) && Upsert(rows, d, now).Some?
    ensures var after := Upsert(rows, d, now).value;
            && |rows| <= |after| <= |rows| + 1
            && (forall i :: 0 <= i < |rows| ==> after[i].key == rows[i].key)
            && (forall i :: 0 <= i < |rows| ==> after[i].logIndex == RaisedTo(rows[i], d))
            && (|after| > |rows| ==> after[|rows|].key == KeyOf(d) && after[|rows|].logIndex == d.logIndex)
  {
    UpsertKeepsUnique(rows, d, now);
    var m := Match(rows, d);
    assert FindKey(rows, KeyOf(d)).None? ==> forall i :: 0 <= i < |rows| ==> rows[i].key != KeyOf(d);
    if FindKey(rows, KeyOf(d)).Some? {
      assert forall i :: 0 <= i < |rows| && i != m.value ==> rows[i].key != KeyOf(d);
    }
  }

  /** After an upsert the draft's key has a row, some wallet's, exactly if it had one or its position was free. */
  lemma RecordedIff(rows: Rows, d: Draft, now: int)
    requires Unique(rows) && Upsert(rows, d, now).Some?
    ensures FindKey(Upsert(rows, d, now).value, KeyOf(d)).Some? <==>
            FindKey(rows, KeyOf(d)).Some? || SlotFree(rows, d)
  {
    var after := Upsert(rows, d, now).value;
    var m := Match(rows, d);
    if FindKey(rows, KeyOf(d)).Some? {
      assert after[m.value].key == KeyOf(d);
    } else if m.Some? {
      assert forall i :: 0 <= i < |after| ==> after[i].key == rows[i].key;
      assert AtLog(rows[m.value], d.chainId, Lower(d.txHash), d.logIndex);
    } else {
      assert after[|rows|].key == KeyOf(d);
    }
  }

  /** The key's row is the draft's wallet's: the key itself does not name the wallet. */
  predicate Own(rows: Rows, d: Draft) {
    var i := FindKey(rows, KeyOf(d));
    i.Some? && rows[i.value].wallet == Lower(d.wallet)
  }

  /** No wallet has a row of the key, and no row is at the draft's position. */
  predicate New(rows: Rows, d: Draft) {
    FindKey(rows, KeyOf(d)).None? && SlotFree(rows, d)
  }

  /** No other wallet has a row of the draft's key. */
  predicate Ours(rows: Rows, d: Draft) {
    FindKey(rows, KeyOf(d)).None? || Own(rows, d)
  }

  /** Rows keep their keys and wallets, so that a wallet which has a transfer's row keeps it. */
  lemma OwnStays(rows: Rows, after: Rows, d: Draft)
    requires Unique(after) && AllGrow(rows, after) && FindKey(rows, KeyOf(d)).Some?
    ensures FindKey(after, KeyOf(d)) == FindKey(rows, KeyOf(d)) && (Own(after, d) <==> Own(rows, d))
  {
    var i := FindKey(rows, KeyOf(d)).value;
    assert Grows(rows[i], after[i]);
  }

  /**
   After an upsert the wallet has a row of its own for the transfer exactly if it had one, or if neither it nor another
   wallet had and the position was free.
   */
  lemma OwnRowIff(rows: Rows, d: Draft, now: int)
    requires Unique(rows) && Upsert(rows, d, now).Some?
    ensures Own(Upsert(rows, d, now).value, d) <==> Own(rows, d) || New(rows, d)
  {
    UpsertKeepsUnique(rows, d, now);
    RecordedIff(rows, d, now);
    if FindKey(rows, KeyOf(d)).Some? {
      OwnStays(rows, Upsert(rows, d, now).value, d);
    } else if SlotFree(rows, d) {
      var i := FreeUpsertAt(rows, d, now);
    }
  }

  /**
   Two wallets' views of two transfers with one key, as when one payer pays both of them the same amount in one
   transaction: the wallet that arrives first gets the row, and the other one none, now or after any further drafts.
   */
  lemma SecondOfOneKeyIsLost(rows: Rows, first: Draft, second: Draft, now: int, later: seq<(Draft, int)>)
    requires Unique(rows) && KeyOf(first) == KeyOf(second) && Lower(first.wallet) != Lower(second.wallet)
    requires New(rows, first) && SlotFree(rows, second)
    ensures var after := Both(rows, first, second, now);
            && after.Some? && |after.value| == |rows| + 1
            && Own(Run(after.value, later), first) && !Own(Run(after.value, later), second)
  {
    OwnRowIff(rows, first, now);
    var i := FreeUpsertAt(rows, first, now);
    var once := Upsert(rows, first, now).value;
    FreeUpsert(rows, first, now);
    var j := FreeUpsertAt(once, second, now);
    OwnRowIff(once, second, now);
    var twice := Upsert(once, second, now).value;
    UpsertKeepsUnique(once, second, now);
    OwnStays(once, twice, first);
    RunKeepsOneRowPerTransfer(twice, later);
    OwnStays(twice, Run(twice, later), first);
    OwnStays(twice, Run(twice, later), second);
  }

  // ----- Order of arrival -----

  datatype Facts = Facts(
    logIndex: nat, blockNumber: nat, source: Source, userOpHash: Option<string>, proposalId: Option<string>)

  /** What the table says about one transfer. */
  function FactsOf(rows: Rows, k: Key): Option<Facts> {
    var i := FindKey(rows, k);
    if i.None? then None
    else
      var r := rows[i.value];
      Some(Facts(r.logIndex, r.blockNumber, r.source, r.userOpHash, r.proposalId))
  }

  /** Both drafts in this order, if neither throws. */
  function Both(rows: Rows, first: Draft, second: Draft, now: int): Option<Rows> {
    var once := Upsert(rows, first, now);
    if once.None? then None else Upsert(once.value, second, now)
  }

  function Blend(f: Option<Facts>, d: Draft): Facts {
    if f.None? then Facts(d.logIndex, d.blockNumber, d.source, d.userOpHash, d.proposalId)
    else
      Facts(Max(f.value.logIndex, d.logIndex), Max(f.value.blockNumber, d.blockNumber),
            if Managed(f.value.source) then f.value.source else d.source,
            f.value.userOpHash.Or(d.userOpHash), f.value.proposalId.Or(d.proposalId))
  }

  /** With its position free a draft writes the row `i` of its own transfer and no other. */
  lemma FreeUpsertAt(rows: Rows, d: Draft, now: int) returns (i: nat)
    requires Unique(rows) && SlotFree(rows, d)
    ensures Upsert(rows, d, now).Some? && Unique(Upsert(rows, d, now).value)
    ensures i < |Upsert(rows, d, now).value| && Upsert(rows, d, now).value[i].key == KeyOf(d)
    ensures FindKey(Upsert(rows, d, now).value, KeyOf(d)) == Some(i)
    ensures Upsert(rows, d, now).value[i] == if i < |rows| then Merged(rows[i], d) else Inserted(d, now)
    ensures FindKey(rows, KeyOf(d)) == if i < |rows| then Some(i) else None
    ensures forall j :: 0 <= j < |Upsert(rows, d, now).value| && j != i ==>
              j < |rows| && Upsert(rows, d, now).value[j] == rows[j]
  {
    ThrowsIff(rows, d, now);
    UpsertKeepsUnique(rows, d, now);
    var m := FindKey(rows, KeyOf(d));
    i := if m.Some? then m.value else |rows|;
    assert m.None? ==> Match(rows, d).None?;
    assert FindKey(Upsert(rows, d, now).value, KeyOf(d)) == Some(i);
  }

  lemma FreeUpsert(rows: Rows, d: Draft, now: int)
    requires Unique(rows) && SlotFree(rows, d)
    ensures Upsert(rows, d, now).Some? && Unique(Upsert(rows, d, now).value)
    ensures FactsOf(Upsert(rows, d, now).value, KeyOf(d)) == Some(Blend(FactsOf(rows, KeyOf(d)), d))
    ensures forall e: Draft :: KeyOf(e) == KeyOf(d) && SlotFree(rows, e) ==> SlotFree(Upsert(rows, d, now).value, e)
  {
    var i := FreeUpsertAt(rows, d, now);
  }

  /**
   A user-op or proposal draft and an explorer draft of one transfer leave the same positions, source and links in
   either order of arrival, as long as no other transfer sits at either's log position.
   */
  lemma EitherOrder(rows: Rows, managed: Draft, explorer: Draft, now: int)
    requires Unique(rows) && KeyOf(managed) == KeyOf(explorer)
    requires Managed(managed.source) && explorer.source.FromExplorer?
    requires explorer.userOpHash.None? && explorer.proposalId.None?
    requires SlotFree(rows, managed) && SlotFree(rows, explorer)
    ensures var (a, b) := (Both(rows, managed, explorer, now), Both(rows, explorer, managed, now));
            && a.Some? && b.Some?
            && FactsOf(a.value, KeyOf(managed)).Some?
            && FactsOf(a.value, KeyOf(managed)) == FactsOf(b.value, KeyOf(managed))
            && Managed(FactsOf(a.value, KeyOf(managed)).value.source)
  {
    BothFree(rows, managed, explorer, now);
    BothFree(rows, explorer, managed, now);
    BlendsCommute(FactsOf(rows, KeyOf(managed)), managed, explorer);
  }

  lemma BothFree(rows: Rows, first: Draft, second: Draft, now: int)
    requires Unique(rows) && KeyOf(first) == KeyOf(second) && SlotFree(rows, first) && SlotFree(rows, second)
    ensures Both(rows, first, second, now).Some?
    ensures FactsOf(Both(rows, first, second, now).value, KeyOf(first)) ==
            Some(Blend(Some(Blend(FactsOf(rows, KeyOf(first)), first)), second))
  {
    FreeUpsert(rows, first, now);
    FreeUpsert(Upsert(rows, first, now).value, second, now);
  }

  /** A managed and an explorer draft blend into the same facts in either order, as only the managed one has links. */
  lemma BlendsCommute(f: Option<Facts>, managed: Draft, explorer: Draft)
    requires Managed(managed.source) && explorer.source.FromExplorer?
    requires explorer.userOpHash.None? && explorer.proposalId.None?
    ensures Blend(Some(Blend(f, managed)), explorer) == Blend(Some(Blend(f, explorer)), managed)
    ensures Managed(Blend(Some(Blend(f, managed)), explorer).source)
  {
  }

  /** Both orders are accepted, give the transfer a row, and agree on it. */
  predicate OrdersAgree(rows: Rows, managed: Draft, explorer: Draft, now: int) {
    var (a, b) := (Both(rows, managed, explorer, now), Both(rows, explorer, managed, now));
    a.Some? && b.Some? && FactsOf(a.value, KeyOf(managed)).Some? &&
    FactsOf(a.value, KeyOf(managed)) == FactsOf(b.value, KeyOf(managed))
  }

  /** A taken position sends a new transfer's draft into another transfer's row. */
  lemma TakenUpsert(rows: Rows, d: Draft, now: int)
    requires Unique(rows) && !SlotFree(rows, d) && FindKey(rows, KeyOf(d)).None?
    ensures Upsert(rows, d, now).Some? && Unique(Upsert(rows, d, now).value)
    ensures FactsOf(Upsert(rows, d, now).value, KeyOf(d)).None?
    ensures forall e: Draft :: KeyOf(e) == KeyOf(d) ==> (SlotFree(Upsert(rows, d, now).value, e) <==> SlotFree(rows, e))
  {
    ThrowsIff(rows, d, now);
    UpsertKeepsUnique(rows, d, now);
    var after := Upsert(rows, d, now).value;
    assert forall i :: 0 <= i < |rows| ==> after[i].key == rows[i].key && after[i].logIndex == rows[i].logIndex;
    assert FindKey(after, KeyOf(d)).None?;
    forall e: Draft | KeyOf(e) == KeyOf(d) ensures SlotFree(after, e) <==> SlotFree(rows, e) {
      assert forall i, l :: 0 <= i < |rows| ==>
          (AtLog(after[i], e.chainId, Lower(e.txHash), l) <==> AtLog(rows[i], e.chainId, Lower(e.txHash), l));
    }
  }

  /** For a transfer with no row yet the order of arrival is immaterial exactly when both positions are free. */
  lemma EitherOrderIff(rows: Rows, managed: Draft, explorer: Draft, now: int)
    requires Unique(rows) && KeyOf(managed) == KeyOf(explorer) && FindKey(rows, KeyOf(managed)).None?
    requires Managed(managed.source) && explorer.source.FromExplorer?
    requires explorer.userOpHash.None? && explorer.proposalId.None?
    requires managed.blockNumber < explorer.blockNumber
    ensures OrdersAgree(rows, managed, explorer, now) <==> SlotFree(rows, managed) && SlotFree(rows, explorer)
  {
    if SlotFree(rows, managed) && SlotFree(rows, explorer) {
      EitherOrder(rows, managed, explorer, now);
    } else if !SlotFree(rows, managed) && !SlotFree(rows, explorer) {
      TakenUpsert(rows, managed, now);
      TakenUpsert(Upsert(rows, managed, now).value, explorer, now);
    } else if SlotFree(rows, explorer) {
      OneTaken(rows, managed, explorer, now);
    } else {
      OneTaken(rows, explorer, managed, now);
    }
  }

  /** With one position taken, the order in which that draft comes first forgets what it said of the transfer. */
  lemma OneTaken(rows: Rows, taken: Draft, free: Draft, now: int)
    requires Unique(rows) && KeyOf(taken) == KeyOf(free) && FindKey(rows, KeyOf(taken)).None?
    requires !SlotFree(rows, taken) && SlotFree(rows, free)
    ensures Both(rows, taken, free, now).Some?
    ensures FactsOf(Both(rows, taken, free, now).value, KeyOf(free)) == Some(Blend(None, free))
    ensures Both(rows, free, taken, now).Some? ==>
              FactsOf(Both(rows, free, taken, now).value, KeyOf(free)) == Some(Blend(Some(Blend(None, free)), taken))
  {
    TakenUpsert(rows, taken, now);
    FreeUpsert(Upsert(rows, taken, now).value, free, now);
    FreeUpsert(rows, free, now);
    var other := Upsert(rows, free, now).value;
    if Upsert(other, taken, now).Some? {
      MergeIntoOwnRow(other, taken, now);
    }
  }

  lemma MergeIntoOwnRow(rows: Rows, d: Draft, now: int)
    requires Unique(rows) && FindKey(rows, KeyOf(d)).Some? && Upsert(rows, d, now).Some?
    ensures FactsOf(Upsert(rows, d, now).value, KeyOf(d)) == Some(Blend(FactsOf(rows, KeyOf(d)), d))
  {
    UpsertKeepsUnique(rows, d, now);
    var i := FindKey(rows, KeyOf(d)).value;
    assert FindKey(Upsert(rows, d, now).value, KeyOf(d)) == Some(i);
  }

  /**
   It happens within one batch: two transfers of a user operation are numbered 0 and 1, and the explorer's row of the
   first, at its true position 1, is then refused by the unique index.
   */
  lemma BatchNumberingClashes(first: Draft, second: Draft, seen: Draft, now: int)
    requires KeyOf(first) == KeyOf(seen) && KeyOf(first) != KeyOf(second)
    requires first.chainId == second.chainId && Lower(first.txHash) == Lower(second.txHash)
    requires first.logIndex == 0 && second.logIndex == 1 && seen.logIndex == 1
    ensures Both([], first, second, now).Some?
    ensures Upsert(Both([], first, second, now).value, seen, now).None?
  {
    var rows := [Inserted(first, now), Inserted(second, now)];
    assert [] + [Inserted(first, now)] == [Inserted(first, now)];
    assert rows[..1] == [Inserted(first, now)];
    assert Upsert([], first, now) == Some([Inserted(first, now)]);
    assert [Inserted(first, now)] + [Inserted(second, now)] == rows;
    assert [Inserted(first, now)][..0] == [];
    assert Both([], first, second, now) == Some(rows);
    assert AtLog(rows[1], seen.chainId, Lower(seen.txHash), 1);
    assert rows[0].key == KeyOf(seen);
    assert Unique(rows);
    ThrowsIff(rows, seen, now);
  }

  /**
   Of two transfers that share a log position, as the sender's and the receiver's view of one payment between two
   wallets of the server do, only the first to arrive gets a row; the second is merged into it.
   */
  lemma SecondAtPositionIsLost(rows: Rows, first: Draft, second: Draft, now: int)
    requires Unique(rows) && FindKey(rows, KeyOf(first)).None? && FindKey(rows, KeyOf(second)).None?
    requires SlotFree(rows, first) && KeyOf(first) != KeyOf(second)
    requires first.chainId == second.chainId && Lower(first.txHash) == Lower(second.txHash)
    requires first.logIndex == second.logIndex
    ensures var after := Both(rows, first, second, now);
            && after.Some? && |after.value| == |rows| + 1
            && FindKey(after.value, KeyOf(first)).Some? && FindKey(after.value, KeyOf(second)).None?
  {
    var i := FreeUpsertAt(rows, first, now);
    var once := Upsert(rows, first, now).value;
    assert AtLog(once[i], second.chainId, Lower(second.txHash), second.logIndex);
    assert FindKey(once, KeyOf(second)).None?;
    ThrowsIff(once, second, now);
    RecordedIff(once, second, now);
    PositionsAfter(once, second, now);
    assert Match(once, second).Some?;
    assert Both(rows, first, second, now).value[i].key == KeyOf(first);
  }
}
