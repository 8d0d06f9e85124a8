/**
 The bundler's check of a fee batch, against what executing the batch does to the balances of the fee token.
 Calls to other contracts are taken not to move the fee token.
 */
module FeeBatch {
  import opened Base
  import opened TransferLedger
  import opened WalletTransfers
  import Decimal

  datatype FeeConfig = FeeConfig(feeToken: string, beneficiary: string, minFee: nat)

  datatype Reason = InvalidBatch | WrongFeeToken | FeeMissing | WrongBeneficiary | FeeTooLow | InvalidCallData

  datatype FeeCheck = Rejected(reason: Reason) | Accepted(feeAmount: nat, mainCalls: seq<Call>)

  function ValidateFeeBatch(calls: Option<seq<Call>>, config: FeeConfig): FeeCheck {
    if calls.None? || |calls.value| < 1 then Rejected(InvalidBatch)
    else
      var first := calls.value[0];
      if Lower(first.target) != Lower(config.feeToken) then Rejected(WrongFeeToken)
      else if !first.data.Transfer? then Rejected(FeeMissing)
      else if Lower(first.data.to) != Lower(config.beneficiary) then Rejected(WrongBeneficiary)
      else if first.data.amount < config.minFee then Rejected(FeeTooLow)
      else Accepted(first.data.amount, calls.value[1..])
  }

  function ValidateUserOpFee(calls: Option<seq<Call>>, config: FeeConfig): FeeCheck {
    if calls.None? then Rejected(InvalidCallData) else ValidateFeeBatch(calls, config)
  }

  /** The bundler's total before it compares it with the wallet's balance. */
  method TotalOut(check: FeeCheck, feeToken: string) returns (total: nat)
    requires check.Accepted?
    ensures total == check.feeAmount + Sent(check.mainCalls, feeToken)
  {
    total := check.feeAmount;
    for i := 0 to |check.mainCalls|
      invariant total == check.feeAmount + Sent(check.mainCalls[..i], feeToken)
    {
      assert check.mainCalls[..i + 1][..i] == check.mainCalls[..i];
      var call := check.mainCalls[i];
      if Lower(call.target) != Lower(feeToken) { continue; }
      if call.data.Transfer? { total := total + call.data.amount; }
    }
    assert check.mainCalls[..|check.mainCalls|] == check.mainCalls;
  }

  predicate Moves(call: Call, feeToken: string) {
    Lower(call.target) == Lower(feeToken) && call.data.Transfer?
  }

  /** The sum of a batch's transfers of a token. */
  function Sent(calls: seq<Call>, feeToken: string): nat {
    if |calls| == 0 then 0
    else
      var call := calls[|calls| - 1];
      Sent(calls[..|calls| - 1], feeToken) + if Moves(call, feeToken) then call.data.amount else 0
  }

  /** The part of it that goes to one account. */
  function SentTo(calls: seq<Call>, feeToken: string, account: string): nat {
    if |calls| == 0 then 0
    else
      var call := calls[|calls| - 1];
      SentTo(calls[..|calls| - 1], feeToken, account) +
      if Moves(call, feeToken) && Lower(call.data.to) == account then call.data.amount else 0
  }

  lemma {:induction false} SentSplits(first: Call, rest: seq<Call>, feeToken: string)
    ensures Sent([first] + rest, feeToken) ==
            (if Moves(first, feeToken) then first.data.amount else 0) + Sent(rest, feeToken)
    ensures forall a :: SentTo([first] + rest, feeToken, a) ==
              (if Moves(first, feeToken) && Lower(first.data.to) == a then first.data.amount else 0) +
              SentTo(rest, feeToken, a)
  {
    var all := [first] + rest;
    if |rest| == 0 {
      assert all[..0] == [] && all[0] == first;
    } else {
      SentSplits(first, rest[..|rest| - 1], feeToken);
      assert all[..|all| - 1] == [first] + rest[..|rest| - 1];
    }
  }

  // ----- Execution -----

  /** Balances of the fee token by lower-case account. */
  type Balances = map<string, nat>

  function BalanceOf(b: Balances, account: string): nat {
    if account in b then b[account] else 0
  }

  /** One `transfer` by the wallet; None is its revert. */
  function Pay(b: Balances, wallet: string, to: string, amount: nat): Option<Balances> {
    if BalanceOf(b, wallet) < amount then None
    else
      var debited := b[wallet := BalanceOf(b, wallet) - amount];
      Some(debited[to := BalanceOf(debited, to) + amount])
  }

  /** The wallet's `execute` runs the calls in order and reverts as a whole if one of them reverts. */
  function Execute(b: Balances, wallet: string, feeToken: string, calls: seq<Call>): Option<Balances> {
    if |calls| == 0 then Some(b)
    else
      var before := Execute(b, wallet, feeToken, calls[..|calls| - 1]);
      var call := calls[|calls| - 1];
      if before.None? || !Moves(call, feeToken) then before
      else Pay(before.value, wallet, Lower(call.data.to), call.data.amount)
  }

  /** When the batch executes, every account ends with exactly what it had, less what it sent, plus what it was sent. */
  ghost predicate Settled(b: Balances, after: Balances, wallet: string, feeToken: string, calls: seq<Call>) {
    forall a: string ::
      BalanceOf(after, a) ==
      BalanceOf(b, a) - (if a == wallet then Sent(calls, feeToken) else 0) + SentTo(calls, feeToken, a)
  }

  /** A wallet that has the total can pay every transfer, whatever their order and recipients. */
  lemma {:induction false} CoveredBatchExecutes(b: Balances, wallet: string, feeToken: string, calls: seq<Call>)
    requires BalanceOf(b, wallet) >= Sent(calls, feeToken)
    ensures Execute(b, wallet, feeToken, calls).Some?
    ensures Settled(b, Execute(b, wallet, feeToken, calls).value, wallet, feeToken, calls)
  {
    if |calls| > 0 {
      CoveredBatchExecutes(b, wallet, feeToken, calls[..|calls| - 1]);
    }
  }

  /** A batch that executes without paying the wallet itself was covered: the bundler's test is exact. */
  lemma {:induction false} ExecutedBatchWasCovered(b: Balances, wallet: string, feeToken: string, calls: seq<Call>)
    requires SentTo(calls, feeToken, wallet) == 0 && Execute(b, wallet, feeToken, calls).Some?
    ensures BalanceOf(b, wallet) >= Sent(calls, feeToken)
    ensures Settled(b, Execute(b, wallet, feeToken, calls).value, wallet, feeToken, calls)
  {
    if |calls| > 0 {
      ExecutedBatchWasCovered(b, wallet, feeToken, calls[..|calls| - 1]);
    }
  }

  /**
   A batch is accepted exactly if its first call moves at least the minimum of the fee token to the beneficiary; what
   follows are the wallet's own calls.
   */
  lemma AcceptedIff(calls: Option<seq<Call>>, config: FeeConfig)
    ensures var check := ValidateUserOpFee(calls, config);
            && (check.Accepted? <==>
                  && calls.Some? && |calls.value| >= 1 && Moves(calls.value[0], config.feeToken)
                  && Lower(calls.value[0].data.to) == Lower(config.beneficiary)
                  && calls.value[0].data.amount >= config.minFee)
            && (check.Accepted? ==>
                  check.feeAmount == calls.value[0].data.amount && check.mainCalls == calls.value[1..])
  {
  }

  /** Why a batch is refused: what its first call lacks, the more basic first. */
  lemma RefusedBecause(calls: seq<Call>, config: FeeConfig)
    requires |calls| >= 1
    ensures var (check, first) := (ValidateUserOpFee(Some(calls), config), calls[0]);
            var feeToken := Lower(first.target) == Lower(config.feeToken);
            && (check == Rejected(WrongFeeToken) <==> !feeToken)
            && (check == Rejected(FeeMissing) <==> feeToken && first.data.OtherData?)
            && (check == Rejected(WrongBeneficiary) <==>
                  feeToken && first.data.Transfer? && Lower(first.data.to) != Lower(config.beneficiary))
            && (check == Rejected(FeeTooLow) <==>
                  feeToken && first.data.Transfer? && Lower(first.data.to) == Lower(config.beneficiary)
                  && first.data.amount < config.minFee)
    ensures ValidateUserOpFee(None, config) == Rejected(InvalidCallData)
    ensures ValidateUserOpFee(Some([]), config) == Rejected(InvalidBatch)
  {
  }

  /** The bundler's total is the sum of all the batch's fee-token transfers, its fee included. */
  lemma TotalIsAllSent(calls: seq<Call>, config: FeeConfig)
    requires ValidateFeeBatch(Some(calls), config).Accepted?
    ensures var check := ValidateFeeBatch(Some(calls), config);
            check.feeAmount + Sent(check.mainCalls, config.feeToken) == Sent(calls, config.feeToken)
    ensures SentTo(calls, config.feeToken, Lower(config.beneficiary)) >= config.minFee
  {
    assert calls == [calls[0]] + calls[1..];
    SentSplits(calls[0], calls[1..], config.feeToken);
  }

  /**
   A batch the bundler accepts from a wallet that has the total never overdraws it, leaves every account settled, and
   pays the beneficiary at least the minimum fee.
   */
  lemma AcceptedBatchIsSolvent(calls: seq<Call>, config: FeeConfig, b: Balances, wallet: string)
    requires ValidateUserOpFee(Some(calls), config).Accepted?
    requires var check := ValidateUserOpFee(Some(calls), config);
             BalanceOf(b, Lower(wallet)) >= check.feeAmount + Sent(check.mainCalls, config.feeToken)
    ensures var after := Execute(b, Lower(wallet), config.feeToken, calls);
            && after.Some? && Settled(b, after.value, Lower(wallet), config.feeToken, calls)
            && (Lower(config.beneficiary) != Lower(wallet) ==>
                  BalanceOf(after.value, Lower(config.beneficiary)) >=
                  BalanceOf(b, Lower(config.beneficiary)) + config.minFee)
  {
    TotalIsAllSent(calls, config);
    CoveredBatchExecutes(b, Lower(wallet), config.feeToken, calls);
  }

  /** For a wallet that does not pay itself, the balance test is what decides whether the batch can execute. */
  lemma BalanceTestIsExact(calls: seq<Call>, config: FeeConfig, b: Balances, wallet: string)
    requires ValidateFeeBatch(Some(calls), config).Accepted?
    requires SentTo(calls, config.feeToken, Lower(wallet)) == 0
    ensures var check := ValidateFeeBatch(Some(calls), config);
            Execute(b, Lower(wallet), config.feeToken, calls).Some? <==>
            BalanceOf(b, Lower(wallet)) >= check.feeAmount + Sent(check.mainCalls, config.feeToken)
  {
    TotalIsAllSent(calls, config);
    if Execute(b, Lower(wallet), config.feeToken, calls).Some? {
      ExecutedBatchWasCovered(b, Lower(wallet), config.feeToken, calls);
    } else if BalanceOf(b, Lower(wallet)) >= Sent(calls, config.feeToken) {
      CoveredBatchExecutes(b, Lower(wallet), config.feeToken, calls);
    }
  }

  // ----- What the ledger reports -----

  /** The amounts of the drafts of one token. */
  function ReportedSum(drafts: seq<Draft>, token: string): nat {
    if |drafts| == 0 then 0
    else
      var d := drafts[|drafts| - 1];
      ReportedSum(drafts[..|drafts| - 1], token) +
      if d.token == Lower(token) && Decimal.AllDigits(d.amount) then Decimal.Parse(d.amount) else 0
  }

  lemma ReportedOneMore(ctx: Context, txHash: string, opHash: string, front: seq<Call>, call: Call, token: string)
    ensures ReportedSum(Outgoing(ctx, txHash, opHash, front + [call]), token) ==
            ReportedSum(Outgoing(ctx, txHash, opHash, front), token) +
            if Reported(ctx, call) && Lower(call.target) == Lower(token) then call.data.amount else 0
  {
    var before := Outgoing(ctx, txHash, opHash, front);
    assert (front + [call])[..|front|] == front;
    if Reported(ctx, call) {
      Decimal.PrintParses(call.data.amount);
      assert (before + [DraftOut(ctx, txHash, opHash, call, |before|)])[..|before|] == before;
    }
  }

  /** Nothing is lost: what was sent is what is reported as outgoing plus what went to the beneficiary. */
  lemma {:induction false} SentIsReportedPlusFees(
    ctx: Context, txHash: string, opHash: string, calls: seq<Call>, config: FeeConfig)
    requires ctx.feeToken == Some(config.feeToken) && config.feeToken != "" && Lower(config.feeToken) in ctx.stables
    requires ctx.beneficiary == Some(config.beneficiary) && config.beneficiary != ""
    ensures Sent(calls, config.feeToken) ==
            ReportedSum(Outgoing(ctx, txHash, opHash, calls), config.feeToken) +
            SentTo(calls, config.feeToken, Lower(config.beneficiary))
  {
    if |calls| > 0 {
      var front, call := calls[..|calls| - 1], calls[|calls| - 1];
      SentIsReportedPlusFees(ctx, txHash, opHash, front, config);
      ReportedOneMore(ctx, txHash, opHash, front, call, config.feeToken);
      assert front + [call] == calls;
      if call.data.Transfer? { ReportedIff(ctx, call, config.feeToken, config.beneficiary); }
    }
  }

  // ----- The tracked tokens -----

  datatype Stable = Stable(symbol: string, address: string, decimals: nat)

  datatype ChainTerms = ChainTerms(chainId: string, feeToken: Option<string>, feeSymbol: string, feeDecimals: nat)

  function KnownStable(chainId: string, symbol: string): Option<string> {
    if chainId == "1" && symbol == "USDC" then Some("0xA0b86991c6218b36c1d19D4a2e9Eb0cE3606eB48")
    else if chainId == "8453" && symbol == "USDC" then Some("0x833589fCD6eDb6E08f4c7C32D4f71b54bdA02913")
    else if chainId == "56" && symbol == "USDC" then Some("0x8AC76a51cc950d9822D68b83fE1Ad97B32Cd580d")
    else if chainId == "56" && symbol == "USDT" then Some("0x55d398326f99059fF775485246999027B3197955")
    else None
  }

  function Push(stables: seq<Stable>, symbol: string, address: Option<string>, decimals: nat): seq<Stable> {
    if address.None? || address.value == "" || exists s :: s in stables && s.symbol == symbol then stables
    else stables + [Stable(symbol, address.value, decimals)]
  }

  /** The fee symbol is taken trimmed and in upper case, as configured. */
  function StablesForChain(c: ChainTerms): seq<Stable> {
    var fee := Push([], c.feeSymbol, c.feeToken, c.feeDecimals);
    var usdc := if c.feeSymbol == "USDC" && c.feeToken.GetOr("") != "" then c.feeToken
                else KnownStable(c.chainId, "USDC");
    var usdt := if c.feeSymbol == "USDT" && c.feeToken.GetOr("") != "" then c.feeToken
                else KnownStable(c.chainId, "USDT");
    Push(Push(fee, "USDC", usdc, 6), "USDT", usdt, 6)
  }

  /** `new Map(stables.map(...))`: a later entry for an address replaces an earlier one. */
  function TokenMap(stables: seq<Stable>): map<string, Token> {
    if |stables| == 0 then map[]
    else
      var s := stables[|stables| - 1];
      TokenMap(stables[..|stables| - 1])[Lower(s.address) := Token(s.symbol, s.decimals)]
  }

  lemma {:induction false} TokenMapHas(stables: seq<Stable>, address: string)
    ensures Lower(address) in TokenMap(stables) <==>
            exists i :: 0 <= i < |stables| && Lower(stables[i].address) == Lower(address)
  {
    if |stables| > 0 {
      var front := stables[..|stables| - 1];
      TokenMapHas(front, address);
      assert forall i :: 0 <= i < |front| ==> front[i] == stables[i];
    }
  }

  /** A configured fee token is always tracked, so the conservation law above applies to every chain that has one. */
  lemma FeeTokenIsTracked(c: ChainTerms)
    requires c.feeToken.Some? && c.feeToken.value != ""
    ensures Lower(c.feeToken.value) in TokenMap(StablesForChain(c))
  {
    var fee := Push([], c.feeSymbol, c.feeToken, c.feeDecimals);
    assert fee[0].address == c.feeToken.value;
    assert StablesForChain(c)[0] == fee[0];
    TokenMapHas(StablesForChain(c), c.feeToken.value);
  }
}
