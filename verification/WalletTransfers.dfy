/**
 Transfer drafts from their two origins: the calls of a user operation the server itself executed, and the token
 transfers an explorer reports. Call data is taken as decoded by the ABI.
 */
module WalletTransfers {
  import opened Base
  import opened TransferLedger
  import Decimal

  datatype CallData = Transfer(to: string, amount: nat) | OtherData

  datatype Call = Call(target: string, value: nat, data: CallData)

  datatype Token = Token(symbol: string, decimals: nat)

  /** A wallet on a chain, the stable tokens tracked there by lower-case address, and the bundler's fee terms. */
  datatype Context = Context(
    wallet: string, chainId: string, stables: map<string, Token>,
    feeToken: Option<string>, beneficiary: Option<string>)

  predicate Same(address: string, configured: Option<string>) {
    configured.Some? && configured.value != "" && Lower(address) == Lower(configured.value)
  }

  predicate IsBundlerFeeTransfer(token: string, recipient: string, ctx: Context) {
    Same(token, ctx.feeToken) && Same(recipient, ctx.beneficiary)
  }

  predicate Reported(ctx: Context, call: Call) {
    && Lower(call.target) in ctx.stables && call.data.Transfer?
    && !IsBundlerFeeTransfer(call.target, call.data.to, ctx)
  }

  /** Reported are the transfers of tracked tokens, but for those of the fee token to the bundler's beneficiary. */
  lemma ReportedIff(ctx: Context, call: Call, feeToken: string, beneficiary: string)
    requires ctx.feeToken == Some(feeToken) && ctx.beneficiary == Some(beneficiary)
    requires feeToken != "" && beneficiary != "" && call.data.Transfer?
    ensures Reported(ctx, call) <==>
            && Lower(call.target) in ctx.stables
            && (Lower(call.target) == Lower(feeToken) ==> Lower(call.data.to) != Lower(beneficiary))
  {
  }

  /** Where either is not configured no transfer is taken for the fee. */
  lemma NoFeeTermsReportAll(ctx: Context, call: Call)
    requires ctx.feeToken.GetOr("") == "" || ctx.beneficiary.GetOr("") == ""
    ensures Reported(ctx, call) <==> Lower(call.target) in ctx.stables && call.data.Transfer?
  {
  }

  function DraftOut(ctx: Context, txHash: string, opHash: string, call: Call, logIndex: nat): Draft
    requires Reported(ctx, call)
  {
    var token := ctx.stables[Lower(call.target)];
    Draft(Lower(ctx.wallet), ctx.chainId, Lower(txHash), Lower(call.target), token.symbol, token.decimals,
          Decimal.Print(call.data.amount), Out, Lower(call.data.to), logIndex, 0, FromUserOp, Some(Lower(opHash)), None)
  }

  /** The drafts of a batch: its reported calls in order, numbered from zero. */
  function Outgoing(ctx: Context, txHash: string, opHash: string, calls: seq<Call>): seq<Draft> {
    if |calls| == 0 then []
    else
      var before := Outgoing(ctx, txHash, opHash, calls[..|calls| - 1]);
      var call := calls[|calls| - 1];
      if Reported(ctx, call) then before + [DraftOut(ctx, txHash, opHash, call, |before|)] else before
  }

  method OutgoingTransfersFromUserOp(ctx: Context, txHash: string, opHash: string, calls: seq<Call>)
    returns (out: seq<Draft>)
    ensures out == Outgoing(ctx, txHash, opHash, calls)
  {
    out := [];
    var logIndex := 0;
    for i := 0 to |calls|
      invariant out == Outgoing(ctx, txHash, opHash, calls[..i]) && logIndex == |out|
    {
      assert calls[..i + 1][..i] == calls[..i];
      var call := calls[i];
      if Lower(call.target) !in ctx.stables { continue; }
      if !call.data.Transfer? { continue; }
      if IsBundlerFeeTransfer(call.target, call.data.to, ctx) { continue; }
      out := out + [DraftOut(ctx, txHash, opHash, call, logIndex)];
      logIndex := logIndex + 1;
    }
    assert calls[..|calls|] == calls;
  }

  // ----- Recording a batch -----

  /** Drafts of one wallet and transaction, numbered from zero. */
  ghost predicate Numbered(drafts: seq<Draft>, wallet: string, chainId: string, txHash: string) {
    forall i :: 0 <= i < |drafts| ==>
      drafts[i].logIndex == i && drafts[i].wallet == wallet && drafts[i].chainId == chainId &&
      Lower(drafts[i].txHash) == Lower(txHash)
  }

  lemma {:induction false} OutgoingIsNumbered(ctx: Context, txHash: string, opHash: string, calls: seq<Call>)
    ensures Numbered(Outgoing(ctx, txHash, opHash, calls), Lower(ctx.wallet), ctx.chainId, txHash)
  {
    if |calls| > 0 {
      OutgoingIsNumbered(ctx, txHash, opHash, calls[..|calls| - 1]);
      LowerIdempotent(txHash);
    }
  }

  /** A draft of the batch names its wallet, operation and token, and no block yet. */
  ghost predicate FromBatch(ctx: Context, opHash: string, d: Draft) {
    && d.wallet == Lower(ctx.wallet) && d.userOpHash == Some(Lower(opHash)) && d.source == FromUserOp
    && d.proposalId.None? && d.direction == Out && d.blockNumber == 0
    && d.token in ctx.stables && Token(d.symbol, d.decimals) == ctx.stables[d.token]
  }

  lemma {:induction false} BatchDraftsTell(ctx: Context, txHash: string, opHash: string, calls: seq<Call>)
    ensures forall d :: d in Outgoing(ctx, txHash, opHash, calls) ==> FromBatch(ctx, opHash, d)
  {
    if |calls| > 0 {
      BatchDraftsTell(ctx, txHash, opHash, calls[..|calls| - 1]);
    }
  }

  /** Upserting drafts one after the other; None if one of them throws. */
  function Record(rows: Rows, drafts: seq<Draft>, now: int): Option<Rows> {
    if |drafts| == 0 then Some(rows)
    else
      var before := Record(rows, drafts[..|drafts| - 1], now);
      if before.None? then None else Upsert(before.value, drafts[|drafts| - 1], now)
  }

  lemma StillFound(rows: Rows, after: Rows, k: Key)
    requires AllGrow(rows, after) && FindKey(rows, k).Some?
    ensures FindKey(after, k).Some?
  {
    assert Grows(rows[FindKey(rows, k).value], after[FindKey(rows, k).value]);
  }

  // What a batch does to a table, whatever the table already holds of its transaction.

  /** One of the first `n` drafts found neither a row of this key in the table nor a row at its number. */
  ghost predicate Opened(rows: Rows, drafts: seq<Draft>, n: nat, key: Key) {
    n <= |drafts| && (exists k :: 0 <= k < n && KeyOf(drafts[k]) == key && New(rows, drafts[k]))
  }

  /** Another transfer's row is at the draft's number, and the draft's own, of old or of the batch, is below it. */
  ghost predicate Stopped(rows: Rows, drafts: seq<Draft>, n: nat) {
    && n < |drafts|
    && (Blocked(rows, drafts[n]) || (!SlotFree(rows, drafts[n]) && Opened(rows, drafts, n, KeyOf(drafts[n]))))
  }

  ghost predicate SomeStopped(rows: Rows, drafts: seq<Draft>, n: nat) {
    n <= |drafts| && (exists j :: 0 <= j < n && Stopped(rows, drafts, j))
  }

  /** How many rows the first `n` drafts open. */
  ghost function Added(rows: Rows, drafts: seq<Draft>, n: nat): nat
    requires n <= |drafts|
  {
    if n == 0 then 0
    else
      Added(rows, drafts, n - 1) +
      if New(rows, drafts[n - 1]) && !Opened(rows, drafts, n - 1, KeyOf(drafts[n - 1])) then 1 else 0
  }

  /** An old row stands where it stood or was moved below `n`; a new one was opened by a draft, below `n`. */
  ghost predicate SettledRow(rows: Rows, mid: Rows, drafts: seq<Draft>, n: nat, wallet: string, i: nat) {
    && n <= |drafts| && i < |mid|
    && (if i < |rows| then mid[i].logIndex == rows[i].logIndex || mid[i].logIndex < n
       else mid[i].logIndex < n && mid[i].wallet == Lower(wallet) && Opened(rows, drafts, n, mid[i].key))
  }

  /** The table after the first `n` drafts. */
  ghost predicate Settled(rows: Rows, mid: Rows, drafts: seq<Draft>, n: nat, wallet: string) {
    && n <= |drafts| && Unique(mid) && AllGrow(rows, mid)
    && (forall i :: 0 <= i < |mid| ==> SettledRow(rows, mid, drafts, n, wallet, i))
    && (forall k :: 0 <= k < n && New(rows, drafts[k]) ==> FindKey(mid, KeyOf(drafts[k])).Some?)
  }

  /** A key has a row exactly if it had one or a draft opened it. */
  lemma FoundIff(rows: Rows, mid: Rows, drafts: seq<Draft>, n: nat, wallet: string, key: Key)
    requires Settled(rows, mid, drafts, n, wallet)
    ensures FindKey(mid, key).Some? <==> FindKey(rows, key).Some? || Opened(rows, drafts, n, key)
  {
    if FindKey(rows, key).Some? {
      StillFound(rows, mid, key);
    } else if FindKey(mid, key).Some? {
      var i := FindKey(mid, key).value;
      assert SettledRow(rows, mid, drafts, n, wallet, i);
      assert i < |rows| ==> Grows(rows[i], mid[i]);
    }
  }

  /** The next number is free exactly if it was. */
  lemma NextSlotIff(rows: Rows, mid: Rows, drafts: seq<Draft>, n: nat, wallet: string)
    requires Settled(rows, mid, drafts, n, wallet) && n < |drafts| && drafts[n].logIndex == n
    ensures SlotFree(mid, drafts[n]) <==> SlotFree(rows, drafts[n])
  {
    forall i | 0 <= i < |mid| && mid[i].logIndex == n
      ensures i < |rows| && rows[i].key == mid[i].key && rows[i].logIndex == n
    {
      assert SettledRow(rows, mid, drafts, n, wallet, i);
      assert Grows(rows[i], mid[i]);
    }
    forall i | 0 <= i < |rows| && rows[i].logIndex == n ensures mid[i].key == rows[i].key && mid[i].logIndex == n {
      assert SettledRow(rows, mid, drafts, n, wallet, i) && Grows(rows[i], mid[i]);
    }
  }

  /** The next draft throws exactly if it is stopped. */
  lemma NextStoppedIff(rows: Rows, mid: Rows, drafts: seq<Draft>, n: nat, wallet: string)
    requires Unique(rows) && Settled(rows, mid, drafts, n, wallet) && n < |drafts| && drafts[n].logIndex == n
    ensures Blocked(mid, drafts[n]) <==> Stopped(rows, drafts, n)
  {
    var key := KeyOf(drafts[n]);
    NextSlotIff(rows, mid, drafts, n, wallet);
    FoundIff(rows, mid, drafts, n, wallet, key);
    if FindKey(mid, key).Some? {
      var i := FindKey(mid, key).value;
      assert SettledRow(rows, mid, drafts, n, wallet, i);
      if i < |rows| { assert Grows(rows[i], mid[i]); }
    }
  }

  lemma AllGrowOn(a: Rows, b: Rows, c: Rows)
    requires AllGrow(a, b) && AllGrow(b, c)
    ensures AllGrow(a, c)
  {
    forall i | 0 <= i < |a| ensures Grows(a[i], c[i]) {
      assert Grows(a[i], b[i]) && Grows(b[i], c[i]);
    }
  }

  lemma RowSettles(rows: Rows, mid: Rows, after: Rows, drafts: seq<Draft>, n: nat, wallet: string, i: nat)
    requires n < |drafts| && |rows| <= |mid| && i < |mid| && i < |after| && SettledRow(rows, mid, drafts, n, wallet, i)
    requires after[i].key == mid[i].key && after[i].wallet == mid[i].wallet
    requires after[i].logIndex == mid[i].logIndex || after[i].logIndex == n
    ensures SettledRow(rows, after, drafts, n + 1, wallet, i)
  {
    if i >= |rows| { OpenedMore(rows, drafts, n, mid[i].key); }
  }

  lemma SettledOneMore(rows: Rows, mid: Rows, drafts: seq<Draft>, n: nat, wallet: string, d: Draft, now: int)
    requires Unique(rows) && Settled(rows, mid, drafts, n, wallet) && n < |drafts| && d == drafts[n]
    requires d.logIndex == n && d.wallet == wallet && Upsert(mid, d, now).Some?
    ensures Settled(rows, Upsert(mid, d, now).value, drafts, n + 1, wallet)
    ensures |Upsert(mid, d, now).value| == |mid| + if New(rows, d) && !Opened(rows, drafts, n, KeyOf(d)) then 1 else 0
  {
    var after, n' := Upsert(mid, d, now).value, n + 1;
    UpsertKeepsUnique(mid, d, now);
    AllGrowOn(rows, mid, after);
    NextIsNewIff(rows, mid, drafts, n, wallet);
    RowsAfter(mid, d, now);
    forall i | 0 <= i < |after| ensures SettledRow(rows, after, drafts, n', wallet, i) {
      if i < |mid| {
        RowSettles(rows, mid, after, drafts, n, wallet, i);
      } else {
        assert New(rows, drafts[n]);
      }
    }
    forall k | 0 <= k < n' && New(rows, drafts[k]) ensures FindKey(after, KeyOf(drafts[k])).Some? {
      if k < n {
        StillFound(mid, after, KeyOf(drafts[k]));
      } else {
        RecordedIff(mid, d, now);
        NextSlotIff(rows, mid, drafts, n, wallet);
      }
    }
  }

  /** The next draft meets a table in which it is new exactly if it was and no earlier one opened its row. */
  lemma NextIsNewIff(rows: Rows, mid: Rows, drafts: seq<Draft>, n: nat, wallet: string)
    requires Settled(rows, mid, drafts, n, wallet) && n < |drafts| && drafts[n].logIndex == n
    ensures New(mid, drafts[n]) <==> New(rows, drafts[n]) && !Opened(rows, drafts, n, KeyOf(drafts[n]))
  {
    NextSlotIff(rows, mid, drafts, n, wallet);
    FoundIff(rows, mid, drafts, n, wallet, KeyOf(drafts[n]));
  }

  lemma OpenedMore(rows: Rows, drafts: seq<Draft>, n: nat, key: Key)
    requires n < |drafts| && Opened(rows, drafts, n, key)
    ensures Opened(rows, drafts, n + 1, key)
  {
    var k :| 0 <= k < n && KeyOf(drafts[k]) == key && New(rows, drafts[k]);
    assert KeyOf(drafts[k]) == key && New(rows, drafts[k]);
  }

  /** An upsert adds a row, the draft's, exactly if it is new, and moves a row only to the draft's position. */
  lemma RowsAfter(rows: Rows, d: Draft, now: int)
    requires Unique(rows) && Upsert(rows, d, now).Some?
    ensures var after := Upsert(rows, d, now).value;
            && |after| == |rows| + (if New(rows, d) then 1 else 0)
            && (New(rows, d) ==> after[|rows|] == Inserted(d, now))
            && (forall i :: 0 <= i < |rows| ==> after[i].key == rows[i].key && after[i].wallet == rows[i].wallet)
            && (forall i :: 0 <= i < |rows| ==> after[i].logIndex in {rows[i].logIndex, d.logIndex})
  {
    PositionsAfter(rows, d, now);
    if New(rows, d) { assert Match(rows, d).None?; }
  }

  /** What the first `n` drafts come to. */
  ghost predicate Outcome(rows: Rows, after: Option<Rows>, drafts: seq<Draft>, n: nat, wallet: string) {
    && n <= |drafts| && (after.None? <==> SomeStopped(rows, drafts, n))
    && (after.Some? ==> Settled(rows, after.value, drafts, n, wallet))
    && (after.Some? ==> |after.value| == |rows| + Added(rows, drafts, n))
  }

  lemma OutcomeOneMore(rows: Rows, mid: Option<Rows>, drafts: seq<Draft>, n: nat, wallet: string, d: Draft, now: int,
                       after: Option<Rows>)
    requires Unique(rows) && Outcome(rows, mid, drafts, n, wallet) && n < |drafts| && d == drafts[n]
    requires d.logIndex == n && d.wallet == wallet
    requires after == if mid.None? then None else Upsert(mid.value, d, now)
    ensures Outcome(rows, after, drafts, n + 1, wallet)
  {
    if mid.Some? {
      NextStoppedIff(rows, mid.value, drafts, n, wallet);
      ThrowsIff(mid.value, d, now);
      if after.Some? { SettledOneMore(rows, mid.value, drafts, n, wallet, d, now); }
    }
  }

  lemma {:induction false} RecordSettles(
    rows: Rows, drafts: seq<Draft>, n: nat, wallet: string, chainId: string, txHash: string, now: int)
    requires Unique(rows) && Numbered(drafts, wallet, chainId, txHash) && n <= |drafts|
    ensures Outcome(rows, Record(rows, drafts[..n], now), drafts, n, wallet)
  {
    if n > 0 {
      var d := drafts[n - 1];
      RecordSettles(rows, drafts, n - 1, wallet, chainId, txHash, now);
      assert drafts[..n][..n - 1] == drafts[..n - 1] && drafts[..n][n - 1] == d;
      OutcomeOneMore(
        rows, Record(rows, drafts[..n - 1], now), drafts, n - 1, wallet, d, now, Record(rows, drafts[..n], now));
    }
  }

  /** After a batch the wallet has a transfer's row exactly if it had it, or if one of the drafts opened it. */
  lemma OwnAfterIff(rows: Rows, after: Rows, drafts: seq<Draft>, wallet: string, d: Draft)
    requires Unique(rows) && Settled(rows, after, drafts, |drafts|, wallet) && d.wallet == wallet
    ensures Own(after, d) <==> Own(rows, d) || Opened(rows, drafts, |drafts|, KeyOf(d))
  {
    FoundIff(rows, after, drafts, |drafts|, wallet, KeyOf(d));
    if FindKey(rows, KeyOf(d)).Some? {
      OwnStays(rows, after, d);
    } else if FindKey(after, KeyOf(d)).Some? {
      var i := FindKey(after, KeyOf(d)).value;
      assert SettledRow(rows, after, drafts, |drafts|, wallet, i);
      assert i < |rows| ==> Grows(rows[i], after[i]);
    }
  }

  /**
   Recording an included user operation, whatever the table already holds of its transaction and however many of its
   transfers are alike: it throws exactly if one of its drafts is stopped, adds a row for each key that it opens, and
   leaves the wallet with a transfer's row exactly if it had it or if one of the drafts opened it.
   */
  lemma RecordIntoAnyTable(rows: Rows, ctx: Context, txHash: string, opHash: string, calls: seq<Call>, now: int)
    requires Unique(rows)
    ensures var drafts := Outgoing(ctx, txHash, opHash, calls);
            var after := Record(rows, drafts, now);
            && (after.None? <==> SomeStopped(rows, drafts, |drafts|))
            && (after.Some? ==>
                  && Unique(after.value) && AllGrow(rows, after.value)
                  && |after.value| == |rows| + Added(rows, drafts, |drafts|)
                  && forall k :: 0 <= k < |drafts| ==> OwnedIff(rows, after.value, drafts, k))
  {
    var drafts := Outgoing(ctx, txHash, opHash, calls);
    OutgoingIsNumbered(ctx, txHash, opHash, calls);
    RecordSettles(rows, drafts, |drafts|, Lower(ctx.wallet), ctx.chainId, txHash, now);
    assert drafts[..|drafts|] == drafts;
    var after := Record(rows, drafts, now);
    if after.Some? {
      forall k | 0 <= k < |drafts| ensures OwnedIff(rows, after.value, drafts, k) {
        OwnAfterIff(rows, after.value, drafts, Lower(ctx.wallet), drafts[k]);
      }
    }
  }

  ghost predicate OwnedIff(rows: Rows, after: Rows, drafts: seq<Draft>, k: nat) {
    && k < |drafts|
    && (Own(after, drafts[k]) <==> Own(rows, drafts[k]) || Opened(rows, drafts, |drafts|, KeyOf(drafts[k])))
  }

  // ----- Alike transfers -----

  /** An earlier draft is of the same transfer. */
  ghost predicate Repeats(drafts: seq<Draft>, n: nat) {
    n < |drafts| && (exists j :: 0 <= j < n && KeyOf(drafts[j]) == KeyOf(drafts[n]))
  }

  /** How many different transfers the first `n` drafts describe. */
  ghost function Different(drafts: seq<Draft>, n: nat): nat
    requires n <= |drafts|
  {
    if n == 0 then 0 else Different(drafts, n - 1) + if Repeats(drafts, n - 1) then 0 else 1
  }

  ghost predicate NoTwoAlike(drafts: seq<Draft>) {
    forall j :: 0 <= j < |drafts| ==> !Repeats(drafts, j)
  }

  lemma {:induction false} DifferentIsAllIff(drafts: seq<Draft>, n: nat)
    requires n <= |drafts|
    ensures Different(drafts, n) <= n
    ensures Different(drafts, n) == n <==> forall j :: 0 <= j < n ==> !Repeats(drafts, j)
  {
    if n > 0 {
      DifferentIsAllIff(drafts, n - 1);
    }
  }

  ghost predicate NoneOf(rows: Rows, chainId: string, txHash: string) {
    forall i :: 0 <= i < |rows| ==> !(rows[i].key.chainId == chainId && rows[i].key.txHash == Lower(txHash))
  }

  /** In a table that holds nothing of the transaction every draft is new, and the first of each kind opens a row. */
  lemma {:induction false} AllAreNew(
    rows: Rows, drafts: seq<Draft>, n: nat, wallet: string, chainId: string, txHash: string)
    requires NoneOf(rows, chainId, txHash) && Numbered(drafts, wallet, chainId, txHash) && n <= |drafts|
    ensures forall k :: 0 <= k < n ==> New(rows, drafts[k])
    ensures !SomeStopped(rows, drafts, n) && Added(rows, drafts, n) == Different(drafts, n)
  {
    if n > 0 {
      AllAreNew(rows, drafts, n - 1, wallet, chainId, txHash);
      assert FindKey(rows, KeyOf(drafts[n - 1])).None? && SlotFree(rows, drafts[n - 1]);
    }
  }

  /**
   Recording adds a row for each key that a draft opens; in a table that holds nothing of the transaction it never
   throws, and these are the different transfers.
   */
  lemma RecordAddsTheDifferent(
    rows: Rows, drafts: seq<Draft>, wallet: string, chainId: string, txHash: string, now: int)
    requires Unique(rows) && Numbered(drafts, wallet, chainId, txHash)
    ensures var after, n := Record(rows, drafts, now), |drafts|;
            && (after.None? <==> SomeStopped(rows, drafts, n))
            && (after.Some? ==> |after.value| == |rows| + Added(rows, drafts, n))
            && (NoneOf(rows, chainId, txHash) ==>
                  EachOwnOrNew(rows, drafts) && after.Some? && Added(rows, drafts, n) == Different(drafts, n))
  {
    RecordSettles(rows, drafts, |drafts|, wallet, chainId, txHash, now);
    assert drafts[..|drafts|] == drafts;
    if NoneOf(rows, chainId, txHash) { AllAreNew(rows, drafts, |drafts|, wallet, chainId, txHash); }
  }

  /** Each draft has its wallet's row, and no two of them the same one. */
  ghost predicate EachHasItsOwn(rows: Rows, drafts: seq<Draft>) {
    && (forall k :: 0 <= k < |drafts| ==> Own(rows, drafts[k]))
    && (forall j, k :: 0 <= j < k < |drafts| ==> FindKey(rows, KeyOf(drafts[j])) != FindKey(rows, KeyOf(drafts[k])))
  }

  ghost predicate EachOwnOrNew(rows: Rows, drafts: seq<Draft>) {
    forall k :: 0 <= k < |drafts| ==> Own(rows, drafts[k]) || New(rows, drafts[k])
  }

  /** Two calls pay the same amount of one token to one recipient. */
  predicate AlikeCalls(a: Call, b: Call) {
    a.data.Transfer? && b.data.Transfer? && Lower(a.target) == Lower(b.target) && a.data.amount == b.data.amount &&
    Lower(a.data.to) == Lower(b.data.to)
  }

  ghost predicate AlikeBefore(ctx: Context, calls: seq<Call>, call: Call) {
    exists i :: 0 <= i < |calls| && Reported(ctx, calls[i]) && AlikeCalls(calls[i], call)
  }

  /** No two reported calls of the batch are alike. */
  ghost predicate NoTwoCallsAlike(ctx: Context, calls: seq<Call>) {
    forall i, j :: 0 <= i < j < |calls| && Reported(ctx, calls[i]) && Reported(ctx, calls[j]) ==>
      !AlikeCalls(calls[i], calls[j])
  }

  lemma SameDraftIff(ctx: Context, txHash: string, opHash: string, a: Call, b: Call, m: nat, n: nat)
    requires Reported(ctx, a) && Reported(ctx, b)
    ensures KeyOf(DraftOut(ctx, txHash, opHash, a, m)) == KeyOf(DraftOut(ctx, txHash, opHash, b, n)) <==>
            AlikeCalls(a, b)
  {
    SameTransferIff(DraftOut(ctx, txHash, opHash, a, m), DraftOut(ctx, txHash, opHash, b, n));
    LowerIdempotent(a.target);
    LowerIdempotent(b.target);
    LowerIdempotent(a.data.to);
    LowerIdempotent(b.data.to);
    Decimal.PrintParses(a.data.amount);
    Decimal.PrintParses(b.data.amount);
  }

  ghost predicate KeyAmong(drafts: seq<Draft>, key: Key) {
    exists j :: 0 <= j < |drafts| && KeyOf(drafts[j]) == key
  }

  lemma KeyAmongMore(drafts: seq<Draft>, d: Draft, key: Key)
    ensures KeyAmong(drafts + [d], key) <==> KeyAmong(drafts, key) || KeyOf(d) == key
  {
    if KeyAmong(drafts, key) {
      var j :| 0 <= j < |drafts| && KeyOf(drafts[j]) == key;
      assert (drafts + [d])[j] == drafts[j];
    }
    assert (drafts + [d])[|drafts|] == d;
  }

  lemma {:induction false} DraftedIffAlike(
    ctx: Context, txHash: string, opHash: string, calls: seq<Call>, call: Call, n: nat)
    requires Reported(ctx, call)
    ensures KeyAmong(Outgoing(ctx, txHash, opHash, calls), KeyOf(DraftOut(ctx, txHash, opHash, call, n))) <==>
            AlikeBefore(ctx, calls, call)
  {
    if |calls| > 0 {
      var front, last := calls[..|calls| - 1], calls[|calls| - 1];
      var before := Outgoing(ctx, txHash, opHash, front);
      DraftedIffAlike(ctx, txHash, opHash, front, call, n);
      if Reported(ctx, last) {
        SameDraftIff(ctx, txHash, opHash, last, call, |before|, n);
        KeyAmongMore(before, DraftOut(ctx, txHash, opHash, last, |before|),
                     KeyOf(DraftOut(ctx, txHash, opHash, call, n)));
      }
      if AlikeBefore(ctx, front, call) {
        var i :| 0 <= i < |front| && Reported(ctx, front[i]) && AlikeCalls(front[i], call);
        assert calls[i] == front[i];
      }
    }
  }

  /** Drafts of a batch are alike exactly if their calls are. */
  lemma {:induction false} NoTwoAlikeIff(ctx: Context, txHash: string, opHash: string, calls: seq<Call>)
    ensures NoTwoAlike(Outgoing(ctx, txHash, opHash, calls)) <==> NoTwoCallsAlike(ctx, calls)
  {
    if |calls| > 0 {
      var front, last := calls[..|calls| - 1], calls[|calls| - 1];
      NoTwoAlikeIff(ctx, txHash, opHash, front);
      if Reported(ctx, last) {
        var before := Outgoing(ctx, txHash, opHash, front);
        DraftedIffAlike(ctx, txHash, opHash, front, last, |before|);
        OneMoreAlike(before, DraftOut(ctx, txHash, opHash, last, |before|));
      }
      OneMoreCall(ctx, front, last);
      assert front + [last] == calls;
    }
  }

  lemma OneMoreAlike(drafts: seq<Draft>, d: Draft)
    ensures NoTwoAlike(drafts + [d]) <==> NoTwoAlike(drafts) && !KeyAmong(drafts, KeyOf(d))
  {
    var all := drafts + [d];
    assert forall j :: 0 <= j < |drafts| ==> all[j] == drafts[j];
    forall j | 0 <= j < |drafts| ensures Repeats(all, j) <==> Repeats(drafts, j) {
      if Repeats(drafts, j) {
        var i :| 0 <= i < j && KeyOf(drafts[i]) == KeyOf(drafts[j]);
        assert KeyOf(all[i]) == KeyOf(all[j]);
      }
    }
    if KeyAmong(drafts, KeyOf(d)) {
      var i :| 0 <= i < |drafts| && KeyOf(drafts[i]) == KeyOf(d);
      assert KeyOf(all[i]) == KeyOf(all[|drafts|]) && Repeats(all, |drafts|);
    }
  }

  lemma OneMoreCall(ctx: Context, front: seq<Call>, last: Call)
    ensures NoTwoCallsAlike(ctx, front + [last]) <==>
            NoTwoCallsAlike(ctx, front) && !(Reported(ctx, last) && AlikeBefore(ctx, front, last))
  {
    var all := front + [last];
    assert forall i :: 0 <= i < |front| ==> all[i] == front[i];
    assert all[|front|] == last;
  }

  /**
   Each reported transfer ends up with a row of its own exactly if no two have the same token, amount and recipient and
   each had its row or was new; equal transfers of one batch collapse into one row. In a table that holds nothing of the
   transaction each is new, recording never throws, and there is a row for each different transfer.
   */
  lemma EachTransferHasItsRowIff(rows: Rows, ctx: Context, txHash: string, opHash: string, calls: seq<Call>, now: int)
    requires Unique(rows)
    ensures var drafts := Outgoing(ctx, txHash, opHash, calls);
            var after := Record(rows, drafts, now);
            && (after.Some? ==>
                  (EachHasItsOwn(after.value, drafts) <==>
                     NoTwoCallsAlike(ctx, calls) && EachOwnOrNew(rows, drafts)))
            && (NoneOf(rows, ctx.chainId, txHash) ==>
                  && EachOwnOrNew(rows, drafts) && after.Some?
                  && |after.value| == |rows| + Different(drafts, |drafts|))
  {
    var drafts := Outgoing(ctx, txHash, opHash, calls);
    var after := Record(rows, drafts, now);
    RecordIntoAnyTable(rows, ctx, txHash, opHash, calls, now);
    NoTwoAlikeIff(ctx, txHash, opHash, calls);
    OutgoingIsNumbered(ctx, txHash, opHash, calls);
    RecordAddsTheDifferent(rows, drafts, Lower(ctx.wallet), ctx.chainId, txHash, now);
    if after.Some? { DistinctOwnIff(rows, after.value, drafts); }
  }

  /** With no two alike it takes the draft itself to open its row. */
  lemma OpenedAloneIff(rows: Rows, drafts: seq<Draft>, k: nat)
    requires NoTwoAlike(drafts) && k < |drafts|
    ensures Opened(rows, drafts, |drafts|, KeyOf(drafts[k])) <==> New(rows, drafts[k])
  {
    if Opened(rows, drafts, |drafts|, KeyOf(drafts[k])) {
      var m :| 0 <= m < |drafts| && KeyOf(drafts[m]) == KeyOf(drafts[k]) && New(rows, drafts[m]);
      assert !Repeats(drafts, m) && !Repeats(drafts, k);
    }
  }

  lemma DistinctOwnIff(rows: Rows, after: Rows, drafts: seq<Draft>)
    requires forall k :: 0 <= k < |drafts| ==> OwnedIff(rows, after, drafts, k)
    ensures EachHasItsOwn(after, drafts) <==> NoTwoAlike(drafts) && EachOwnOrNew(rows, drafts)
  {
    if NoTwoAlike(drafts) {
      forall k | 0 <= k < |drafts| ensures Own(after, drafts[k]) <==> Own(rows, drafts[k]) || New(rows, drafts[k]) {
        assert OwnedIff(rows, after, drafts, k);
        OpenedAloneIff(rows, drafts, k);
      }
      forall j, k | 0 <= j < k < |drafts| && Own(after, drafts[j])
        ensures FindKey(after, KeyOf(drafts[j])) != FindKey(after, KeyOf(drafts[k]))
      {
        assert !Repeats(drafts, k);
      }
    } else {
      var k :| 0 <= k < |drafts| && Repeats(drafts, k);
      var j :| 0 <= j < k && KeyOf(drafts[j]) == KeyOf(drafts[k]);
    }
  }

  // ----- The explorer's view -----

  datatype ExplorerRow = ExplorerRow(
    block: nat, logIndex: nat, hash: string, sender: string, to: string, contract: string, value: string)

  predicate HasPrefix0x(s: string) {
    |s| >= 2 && s[0] == '0' && s[1] == 'x'
  }

  predicate HexDigits(s: string) {
    forall i :: 0 <= i < |s| ==> '0' <= s[i] <= '9' || 'a' <= s[i] <= 'f'
  }

  /** `getAddress` of lower-case text, in lower case again; None is its exception. */
  function NormalAddress(s: string): Option<string> {
    if |s| == 42 && HasPrefix0x(s) && HexDigits(s[2..]) then Some(s)
    else if |s| == 40 && HexDigits(s) then Some("0x" + s)
    else None
  }

  function DraftFromExplorer(row: ExplorerRow, ctx: Context): Option<Draft> {
    var (hash, sender, to, token) := (Lower(row.hash), Lower(row.sender), Lower(row.to), Lower(row.contract));
    var wallet := Lower(ctx.wallet);
    if !HasPrefix0x(hash) || !HasPrefix0x(token) then None
    else if token !in ctx.stables then None
    else
      var inbound, outbound := to == wallet, sender == wallet;
      if !inbound && !outbound then None
      else if outbound && IsBundlerFeeTransfer(token, to, ctx) then None
      else
        var tokenAddress, counterparty := NormalAddress(token), NormalAddress(if inbound then sender else to);
        if tokenAddress.None? || counterparty.None? then None
        else
          Some(Draft(wallet, ctx.chainId, hash, tokenAddress.value, ctx.stables[token].symbol,
                     ctx.stables[token].decimals, row.value, if inbound then In else Out, counterparty.value,
                     row.logIndex, row.block, FromExplorer, None, None))
  }

  /** The token transfer that executing a call of the wallet's batch leaves on the chain. */
  function Emitted(ctx: Context, txHash: string, call: Call, block: nat, logIndex: nat): ExplorerRow
    requires call.data.Transfer?
  {
    ExplorerRow(block, logIndex, txHash, ctx.wallet, call.data.to, call.target, Decimal.Print(call.data.amount))
  }

  predicate IsAddress(s: string) {
    NormalAddress(Lower(s)) == Some(Lower(s))
  }

  /**
   The two origins agree on a transfer: the explorer's draft of what a call emitted is the same transfer as the user
   operation's own draft exactly if the wallet does not pay itself, and is recorded exactly if the other one is.
   */
  lemma OriginsAgreeIff(ctx: Context, txHash: string, opHash: string, call: Call, i: nat, block: nat, logIndex: nat)
    requires call.data.Transfer? && Lower(call.target) in ctx.stables && HasPrefix0x(Lower(txHash))
    requires IsAddress(ctx.wallet) && IsAddress(call.target) && IsAddress(call.data.to)
    ensures var seen := DraftFromExplorer(Emitted(ctx, txHash, call, block, logIndex), ctx);
            && (seen.Some? <==> Reported(ctx, call))
            && (Reported(ctx, call) ==>
                  (KeyOf(seen.value) == KeyOf(DraftOut(ctx, txHash, opHash, call, i)) <==>
                     Lower(call.data.to) != Lower(ctx.wallet)))
  {
    LowerIdempotent(call.target);
    LowerIdempotent(call.data.to);
    LowerIdempotent(ctx.wallet);
    LowerIdempotent(txHash);
  }

  /**
   An explorer row becomes a draft exactly if it moves a tracked token into or out of the wallet and is not the wallet's
   payment to the bundler. The draft tells the block, position and amount, and who is on the other side.
   */
  lemma ExplorerDraftTells(row: ExplorerRow, ctx: Context)
    requires HasPrefix0x(Lower(row.hash)) && IsAddress(ctx.wallet)
    requires IsAddress(row.sender) && IsAddress(row.to) && IsAddress(row.contract) && HasPrefix0x(Lower(row.contract))
    ensures var (paid, pays) := (Lower(row.to) == Lower(ctx.wallet), Lower(row.sender) == Lower(ctx.wallet));
            var draft := DraftFromExplorer(row, ctx);
            && (draft.Some? <==> Lower(row.contract) in ctx.stables && (paid || pays) &&
                                 !(pays && IsBundlerFeeTransfer(row.contract, row.to, ctx)))
            && (draft.Some? ==>
                  var d := draft.value;
                  && d.wallet == Lower(ctx.wallet) && d.chainId == ctx.chainId && d.txHash == Lower(row.hash)
                  && d.token == Lower(row.contract) && d.amount == row.value
                  && Token(d.symbol, d.decimals) == ctx.stables[Lower(row.contract)]
                  && d.blockNumber == row.block && d.logIndex == row.logIndex
                  && (d.direction == In <==> paid) && d.counterparty == Lower(if paid then row.sender else row.to)
                  && d.source == FromExplorer && d.userOpHash.None? && d.proposalId.None?)
  {
    LowerIdempotent(row.contract);
    LowerIdempotent(row.to);
  }

  /**
   A payment from one wallet of the server to another is one explorer row at one position but two transfers: new to
   the ledger, the view that arrives second gets no row.
   */
  lemma TwoWalletsShareAPosition(rows: Rows, row: ExplorerRow, payer: Context, payee: Context, now: int)
    requires Unique(rows) && payer.chainId == payee.chainId && Lower(payer.wallet) != Lower(payee.wallet)
    requires Lower(row.sender) == Lower(payer.wallet) && Lower(row.to) == Lower(payee.wallet)
    requires DraftFromExplorer(row, payer).Some? && DraftFromExplorer(row, payee).Some?
    requires var (sent, got) := (DraftFromExplorer(row, payer).value, DraftFromExplorer(row, payee).value);
             && FindKey(rows, KeyOf(sent)).None? && FindKey(rows, KeyOf(got)).None? && SlotFree(rows, sent)
    ensures var (sent, got) := (DraftFromExplorer(row, payer).value, DraftFromExplorer(row, payee).value);
            && sent.direction == Out && got.direction == In
            && Both(rows, sent, got, now).Some? && FindKey(Both(rows, sent, got, now).value, KeyOf(got)).None?
            && Both(rows, got, sent, now).Some? && FindKey(Both(rows, got, sent, now).value, KeyOf(sent)).None?
  {
    var (sent, got) := (DraftFromExplorer(row, payer).value, DraftFromExplorer(row, payee).value);
    SecondAtPositionIsLost(rows, sent, got, now);
    assert SlotFree(rows, got);
    SecondAtPositionIsLost(rows, got, sent, now);
  }
  /**
   One payer pays the same amount to two wallets of the server in one transaction. The two explorer rows have one key,
   as a key does not name the wallet, and the wallet synced first gets the row: the other one never gets one.
   */
  lemma TwoPayeesShareARow(rows: Rows, row: ExplorerRow, logIndex: nat, a: Context, b: Context, now: int,
                           later: seq<(Draft, int)>)
    requires Unique(rows) && a.chainId == b.chainId && Lower(a.wallet) != Lower(b.wallet)
    requires Lower(row.to) == Lower(a.wallet) && DraftFromExplorer(row, a).Some?
    requires var other := row.(to := b.wallet, logIndex := logIndex);
             && DraftFromExplorer(other, b).Some? && New(rows, DraftFromExplorer(row, a).value)
             && SlotFree(rows, DraftFromExplorer(other, b).value)
    ensures var other := row.(to := b.wallet, logIndex := logIndex);
            var (first, second) := (DraftFromExplorer(row, a).value, DraftFromExplorer(other, b).value);
            var after := Both(rows, first, second, now);
            && KeyOf(first) == KeyOf(second) && after.Some? && |after.value| == |rows| + 1
            && Own(Run(after.value, later), first) && !Own(Run(after.value, later), second)
  {
    var other := row.(to := b.wallet, logIndex := logIndex);
    LowerIdempotent(a.wallet);
    LowerIdempotent(b.wallet);
    SecondOfOneKeyIsLost(rows, DraftFromExplorer(row, a).value, DraftFromExplorer(other, b).value, now, later);
  }
}
