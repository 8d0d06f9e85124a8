/** The `invoices` table, the sweeper lease on its rows, and the persist events its writes append. */
module InvoiceTable {
  import opened Base

  datatype Status = Created | AwaitingPayment | Paid | PaidPartial | Swept

  /** The columns fixed at creation. */
  datatype Terms = Terms(
    invoiceSeed: string, clientInvoiceId: string, priceUsd: string, toAddresses: seq<string>,
    selectedTo: Option<string>, chainId: Option<string>, token: Option<string>, invoiceAddress: Option<string>,
    title: Option<string>, description: Option<string>, callbackUrl: Option<string>, allowPartial: bool,
    paymentMode: string, displayFiat: Option<string>, displayAmount: Option<string>, quoteCountry: Option<string>,
    quotePaymentMethod: Option<string>, quoteProvider: Option<string>, quoteSlippageBps: Option<int>,
    lang: Option<string>)

  datatype Invoice = Invoice(
    terms: Terms, status: Status, amountPaid: string, amountSwept: string, feeCollected: string, gasSpentWei: string,
    sweepTx: Option<string>, version: int, claimedBy: Option<string>, claimedUntil: Option<int>,
    createdAt: int, updatedAt: int, paidAt: Option<int>, sweptAt: Option<int>)

  /** A track call: optional columns, whether it reports an error, the version it expects and who signed it. */
  datatype Report = Report(
    status: Option<Status>, amountPaid: Option<string>, amountSwept: Option<string>, feeCollected: Option<string>,
    gasSpentWei: Option<string>, sweepTx: Option<string>, error: bool, expected: Option<int>, sweeper: Option<string>)

  /** `Repeated` names the invoice that an earlier create call with the same idempotency key made. */
  datatype Reply = Done(row: Invoice) | Repeated(id: string) | Conflict | NotFound | SeedMissing

  /** The payload of `invoice.paid` and `invoice.swept`; a reader must expect absent fields. */
  datatype Payload = Payload(
    status: Option<Status>, amountPaid: Option<string>, amountSwept: Option<string>, feeCollected: Option<string>,
    gasSpentWei: Option<string>, sweepTx: Option<string>, paidAt: Option<int>, sweptAt: Option<int>)

  datatype Event =
    | CreatedEvent(id: string, terms: Terms, createdAt: Option<int>, ts: int)
    | PaidEvent(id: string, p: Payload, ts: int)
    | SweptEvent(id: string, p: Payload, ts: int)

  type Rows = map<string, Invoice>

  predicate HasAddress(row: Invoice, address: string) {
    row.terms.invoiceAddress.Some? && Lower(row.terms.invoiceAddress.value) == Lower(address)
  }

  /** Lookup falls back from the id to the invoice address. */
  predicate Known(rows: Rows, id: string) {
    id in rows || exists k :: k in rows && HasAddress(rows[k], id)
  }

  function Create(rows: Rows, id: string, terms: Terms, now: int): Reply {
    if Known(rows, id) then Conflict
    else if terms.invoiceSeed == "" then SeedMissing
    else Done(Invoice(terms, AwaitingPayment, "0", "0", "0", "0", None, 1, None, None, now, now, None, None))
  }

  predicate Claimable(row: Invoice, sweeper: string, now: int) {
    && row.status in {AwaitingPayment, Paid, PaidPartial}
    && (row.claimedBy.None? || row.claimedBy == Some(sweeper) ||
        row.claimedUntil.None? || row.claimedUntil.value < now)
  }

  function Claim(rows: Rows, id: string, sweeper: string, expected: int, leaseMs: nat, now: int): Reply {
    if id in rows && rows[id].version == expected && Claimable(rows[id], sweeper, now) then
      Done(rows[id].(claimedBy := Some(sweeper), claimedUntil := Some(now + leaseMs),
                     version := expected + 1, updatedAt := now))
    else
      Conflict
  }

  /** Another sweeper holds a lease that has not run out. */
  predicate LeasedToOther(row: Invoice, sweeper: string, now: int) {
    row.claimedBy.Some? && row.claimedBy.value != "" && Lower(row.claimedBy.value) != Lower(sweeper) &&
    row.claimedUntil.Some? && row.claimedUntil.value > now
  }

  predicate SignedSweep(r: Report) {
    r.status == Some(Swept) && r.sweeper.Some? && r.sweeper.value != ""
  }

  predicate PaidLike(s: Status) {
    s in {Paid, PaidPartial, Swept}
  }

  function Tracked(row: Invoice, r: Report, now: int): Invoice {
    var status := r.status.GetOr(row.status);
    Invoice(row.terms, status, r.amountPaid.GetOr(row.amountPaid), r.amountSwept.GetOr(row.amountSwept),
            r.feeCollected.GetOr(row.feeCollected), r.gasSpentWei.GetOr(row.gasSpentWei), r.sweepTx.Or(row.sweepTx),
            row.version + 1,
            if status == Swept then None else row.claimedBy,
            if status == Swept then None else row.claimedUntil,
            row.createdAt, now,
            if PaidLike(status) then row.paidAt.Or(Some(now)) else row.paidAt,
            if status == Swept then row.sweptAt.Or(Some(now)) else row.sweptAt)
  }

  /** A row found by its address only is read but never written: the update matches ids. */
  function Track(rows: Rows, id: string, r: Report, now: int): Reply {
    if !Known(rows, id) then NotFound
    else if id !in rows then Conflict
    else if r.expected.Some? && rows[id].version != r.expected.value then Conflict
    else if SignedSweep(r) && LeasedToOther(rows[id], r.sweeper.value, now) then Conflict
    else Done(Tracked(rows[id], r, now))
  }

  function PayloadOf(row: Invoice): Payload {
    Payload(Some(row.status), Some(row.amountPaid), Some(row.amountSwept), Some(row.feeCollected),
            Some(row.gasSpentWei), row.sweepTx, row.paidAt, row.sweptAt)
  }

  /** The events that a successful track appends. */
  function TrackEvents(id: string, row: Invoice, r: Report, now: int): seq<Event> {
    if r.error then []
    else if row.status in {Paid, PaidPartial} then [PaidEvent(id, PayloadOf(row), now)]
    else if row.status == Swept then [SweptEvent(id, PayloadOf(row), now)]
    else []
  }

  // ----- The table and its log as one state -----

  datatype Db = Db(rows: Rows, log: seq<Event>)

  const EMPTY := Db(map[], [])

  datatype Op =
    | CreateOp(id: string, terms: Terms, now: int)
    | ClaimOp(id: string, sweeper: string, expected: int, leaseMs: nat, now: int)
    | TrackOp(id: string, r: Report, now: int)

  function Answer(rows: Rows, op: Op): Reply {
    match op
    case CreateOp(id, terms, now) => Create(rows, id, terms, now)
    case ClaimOp(id, s, e, lease, now) => Claim(rows, id, s, e, lease, now)
    case TrackOp(id, r, now) => Track(rows, id, r, now)
  }

  /** What the operation appends to the log once its write is committed. */
  function Emits(rows: Rows, op: Op): seq<Event> {
    var a := Answer(rows, op);
    if !a.Done? then []
    else match op
      case CreateOp(id, terms, now) => [CreatedEvent(id, a.row.terms, Some(a.row.createdAt), now)]
      case ClaimOp(_, _, _, _, _) => []
      case TrackOp(id, r, now) => TrackEvents(id, a.row, r, now)
  }

  function Next(db: Db, op: Op): Db {
    var a := Answer(db.rows, op);
    Db(if a.Done? then db.rows[op.id := a.row] else db.rows, db.log + Emits(db.rows, op))
  }

  function Run(db: Db, ops: seq<Op>): Db {
    if |ops| == 0 then db else Next(Run(db, ops[..|ops| - 1]), ops[|ops| - 1])
  }

  /** A create call that carries the key of an earlier one whose invoice can still be looked up. */
  predicate Repeats(rows: Rows, keys: map<string, string>, key: Option<string>) {
    key.Some? && key.value != "" && key.value in keys && Known(rows, keys[key.value])
  }

  class InvoiceDb {
    var rows: Rows
    var log: seq<Event>
    var idempotencyKeys: map<string, string>

    constructor ()
      ensures rows == map[] && log == [] && idempotencyKeys == map[]
    {
      rows, log, idempotencyKeys := map[], [], map[];
    }

    method CreateInvoice(id: string, terms: Terms, key: Option<string>, now: int) returns (reply: Reply)
      modifies this
      ensures Repeats(old(rows), old(idempotencyKeys), key) ==>
                reply == Repeated(old(idempotencyKeys)[key.value]) && Db(rows, log) == old(Db(rows, log))
      ensures !Repeats(old(rows), old(idempotencyKeys), key) ==>
                && reply == Create(old(rows), id, terms, now)
                && Db(rows, log) == Next(old(Db(rows, log)), CreateOp(id, terms, now))
      ensures idempotencyKeys == if reply.Done? && key.GetOr("") != "" && key.value !in old(idempotencyKeys)
                                 then old(idempotencyKeys)[key.value := id] else old(idempotencyKeys)
      ensures reply.Done? && key.GetOr("") != "" && key.value !in old(idempotencyKeys) ==>
                Repeats(rows, idempotencyKeys, key)
    {
      if key.Some? && key.value != "" && key.value in idempotencyKeys {
        if Known(rows, idempotencyKeys[key.value]) { return Repeated(idempotencyKeys[key.value]); }
      }
      if Known(rows, id) { return Conflict; }
      if terms.invoiceSeed == "" { return SeedMissing; }
      rows := rows[id :=
        Invoice(terms, AwaitingPayment, "0", "0", "0", "0", None, 1, None, None, now, now, None, None)];
      if key.Some? && key.value != "" && key.value !in idempotencyKeys {
        idempotencyKeys := idempotencyKeys[key.value := id];
      }
      log := log + [CreatedEvent(id, rows[id].terms, Some(rows[id].createdAt), now)];
      return Done(rows[id]);
    }

    method ClaimInvoice(id: string, sweeper: string, expected: int, leaseMs: nat, now: int) returns (reply: Reply)
      modifies this
      ensures reply == Claim(old(rows), id, sweeper, expected, leaseMs, now)
      ensures Db(rows, log) == Next(Db(old(rows), old(log)), ClaimOp(id, sweeper, expected, leaseMs, now))
    {
      if id !in rows || rows[id].version != expected || !Claimable(rows[id], sweeper, now) { return Conflict; }
      var row := rows[id].(claimedBy := Some(sweeper), claimedUntil := Some(now + leaseMs));
      rows := rows[id := row.(version := row.version + 1, updatedAt := now)];
      return Done(rows[id]);
    }

    method TrackInvoice(id: string, r: Report, now: int) returns (reply: Reply)
      modifies this
      ensures reply == Track(old(rows), id, r, now)
      ensures Db(rows, log) == Next(Db(old(rows), old(log)), TrackOp(id, r, now))
    {
      if !Known(rows, id) { return NotFound; }
      if id !in rows { return Conflict; }
      var current := rows[id];
      if r.expected.Some? && current.version != r.expected.value { return Conflict; }
      if SignedSweep(r) && LeasedToOther(current, r.sweeper.value, now) { return Conflict; }
      var row := current.(
        status := r.status.GetOr(current.status),
        amountPaid := r.amountPaid.GetOr(current.amountPaid), amountSwept := r.amountSwept.GetOr(current.amountSwept),
        feeCollected := r.feeCollected.GetOr(current.feeCollected),
        gasSpentWei := r.gasSpentWei.GetOr(current.gasSpentWei), sweepTx := r.sweepTx.Or(current.sweepTx),
        version := current.version + 1, updatedAt := now);
      if PaidLike(row.status) && row.paidAt.None? {
        row := row.(paidAt := Some(now));
      }
      if row.status == Swept {
        row := row.(claimedBy := None, claimedUntil := None, sweptAt := row.sweptAt.Or(Some(now)));
      }
      rows := rows[id := row];
      if !r.error && row.status in {Paid, PaidPartial} {
        log := log + [PaidEvent(id, PayloadOf(row), now)];
      } else if !r.error && row.status == Swept {
        log := log + [SweptEvent(id, PayloadOf(row), now)];
      }
      return Done(row);
    }
  }

  // ----- Lease safety -----

  lemma StepPersists(db: Db, op: Op, id: string)
    requires id in db.rows
    ensures id in Next(db, op).rows && db.rows[id].version <= Next(db, op).rows[id].version
    ensures Next(db, op).rows[id].terms == db.rows[id].terms
    ensures Next(db, op).rows[id].createdAt == db.rows[id].createdAt
  {
  }

  lemma {:induction false} RowsPersist(db: Db, ops: seq<Op>, i: nat, id: string)
    requires i <= |ops| && id in Run(db, ops[..i]).rows
    ensures id in Run(db, ops).rows
    ensures Run(db, ops[..i]).rows[id].version <= Run(db, ops).rows[id].version
    ensures Run(db, ops).rows[id].terms == Run(db, ops[..i]).rows[id].terms
    ensures Run(db, ops).rows[id].createdAt == Run(db, ops[..i]).rows[id].createdAt
    decreases |ops| - i
  {
    if i < |ops| {
      assert ops[..i + 1][..i] == ops[..i];
      StepPersists(Run(db, ops[..i]), ops[i], id);
      RowsPersist(db, ops, i + 1, id);
    } else {
      assert ops[..i] == ops;
    }
  }

  function Expects(op: Op): Option<int> {
    match op
    case CreateOp(_, _, _) => None
    case ClaimOp(_, _, e, _, _) => Some(e)
    case TrackOp(_, r, _) => r.expected
  }

  predicate Wins(db: Db, ops: seq<Op>, i: nat) {
    i < |ops| && Answer(Run(db, ops[..i]).rows, ops[i]).Done?
  }

  /** Of all the sweepers that hold one version of an invoice, at most one writes, and its write spends that version. */
  lemma {:induction false} OneWinnerPerVersion(db: Db, ops: seq<Op>, i: nat, j: nat)
    requires i < j < |ops| && Wins(db, ops, i) && ops[i].id == ops[j].id
    requires Expects(ops[i]).Some? && Expects(ops[i]) == Expects(ops[j])
    ensures ops[i].id in Run(db, ops[..i + 1]).rows
    ensures Run(db, ops[..i + 1]).rows[ops[i].id].version == Expects(ops[i]).value + 1
    ensures !Wins(db, ops, j)
  {
    assert ops[..i + 1][..i] == ops[..i];
    assert ops[..j][..i + 1] == ops[..i + 1];
    RowsPersist(db, ops[..j], i + 1, ops[i].id);
  }

  /**
   What others do while a lease lives: creations, claims before expiry, any report that does not say swept, and reports
   of a sweep that another sweeper signed.
   */
  predicate Outsider(op: Op, id: string, holder: string, until: int) {
    match op
    case CreateOp(_, _, _) => true
    case ClaimOp(_, s, _, _, now) => s != holder && now <= until
    case TrackOp(x, r, now) =>
      x != id || r.status != Some(Swept) || (SignedSweep(r) && Lower(r.sweeper.value) != Lower(holder) && now < until)
  }

  /**
   Until a lease expires, no run of others takes the claim or marks the invoice swept, though payment reports from
   anyone are accepted in between and raise the version.
   */
  lemma {:induction false} LeaseExcludesOthers(db: Db, id: string, holder: string, until: int, ops: seq<Op>)
    requires id in db.rows && db.rows[id].claimedBy == Some(holder) && holder != ""
    requires db.rows[id].claimedUntil == Some(until) && db.rows[id].status != Swept
    requires forall op :: op in ops ==> Outsider(op, id, holder, until)
    ensures id in Run(db, ops).rows
    ensures var row := Run(db, ops).rows[id];
            row.claimedBy == Some(holder) && row.claimedUntil == Some(until) && row.status != Swept
  {
    if |ops| > 0 {
      LeaseExcludesOthers(db, id, holder, until, ops[..|ops| - 1]);
      assert Outsider(ops[|ops| - 1], id, holder, until);
    }
  }

  /** With the current version in hand, a signed sweep is refused exactly when another's lease has time left. */
  lemma SweepRefusedIffLeased(rows: Rows, id: string, r: Report, now: int)
    requires id in rows && SignedSweep(r) && r.expected == Some(rows[id].version)
    ensures Track(rows, id, r, now).Done? <==> !LeasedToOther(rows[id], r.sweeper.value, now)
    ensures Track(rows, id, r, now).Done? ==>
              Track(rows, id, r, now).row.status == Swept && Track(rows, id, r, now).row.claimedBy.None?
  {
  }

  /** A sweep report is kept out of a live lease by its signature only: unsigned, it passes whoever holds the claim. */
  lemma UnsignedSweepPassesTheLease(rows: Rows, id: string, r: Report, now: int)
    requires id in rows && r.status == Some(Swept) && (r.expected.None? || r.expected == Some(rows[id].version))
    requires rows[id].claimedBy.Some? && rows[id].claimedBy.value != ""
    requires rows[id].claimedUntil.Some? && now < rows[id].claimedUntil.value
    ensures Track(rows, id, r, now).Done? <==>
            r.sweeper.GetOr("") == "" || Lower(r.sweeper.value) == Lower(rows[id].claimedBy.value)
  {
  }

  /**
   A claim grants a lease: for `leaseMs` from its own time no run of others takes it away or marks the invoice swept,
   and while the invoice can be claimed at all, another sweeper that knows the version takes it over exactly after that.
   */
  lemma ClaimGrantsLease(db: Db, id: string, sweeper: string, expected: int, leaseMs: nat, now: int, ops: seq<Op>,
                         other: string, otherLeaseMs: nat, t: int)
    requires Claim(db.rows, id, sweeper, expected, leaseMs, now).Done? && sweeper != "" && other != sweeper
    requires forall op :: op in ops ==> Outsider(op, id, sweeper, now + leaseMs)
    ensures var rows := Run(Next(db, ClaimOp(id, sweeper, expected, leaseMs, now)), ops).rows;
            && id in rows && rows[id].claimedBy == Some(sweeper) && rows[id].status != Swept
            && (rows[id].status != Created ==>
                  (Claim(rows, id, other, rows[id].version, otherLeaseMs, t).Done? <==> t > now + leaseMs))
  {
    LeaseExcludesOthers(Next(db, ClaimOp(id, sweeper, expected, leaseMs, now)), id, sweeper, now + leaseMs, ops);
  }

  /** In the same runs another's signed sweep at the current version is refused exactly as long as the lease lasts. */
  lemma SweepRefusedForTheLease(db: Db, id: string, sweeper: string, expected: int, leaseMs: nat, now: int,
                                ops: seq<Op>, r: Report, t: int)
    requires Claim(db.rows, id, sweeper, expected, leaseMs, now).Done? && sweeper != ""
    requires forall op :: op in ops ==> Outsider(op, id, sweeper, now + leaseMs)
    requires r.status == Some(Swept) && r.sweeper.Some? && r.sweeper.value != ""
    requires Lower(r.sweeper.value) != Lower(sweeper)
    ensures var rows := Run(Next(db, ClaimOp(id, sweeper, expected, leaseMs, now)), ops).rows;
            id in rows && (r.expected == Some(rows[id].version) ==>
              (Track(rows, id, r, t) == Conflict <==> t < now + leaseMs))
  {
    LeaseExcludesOthers(Next(db, ClaimOp(id, sweeper, expected, leaseMs, now)), id, sweeper, now + leaseMs, ops);
  }

  // ----- Lookups -----

  /**
   A new invoice is made exactly if it has a seed and its id is neither an invoice's nor, in any capitals, the address
   of one; for just such an id a report finds nothing.
   */
  lemma CreatedIff(rows: Rows, id: string, terms: Terms, r: Report, now: int)
    ensures var unused := id !in rows && forall k :: k in rows && rows[k].terms.invoiceAddress.Some? ==>
                            Lower(rows[k].terms.invoiceAddress.value) != Lower(id);
            && (Create(rows, id, terms, now).Done? <==> unused && terms.invoiceSeed != "")
            && (Track(rows, id, r, now).NotFound? <==> unused)
  {
    assert forall k :: k in rows ==> (HasAddress(rows[k], id) <==>
      rows[k].terms.invoiceAddress.Some? && Lower(rows[k].terms.invoiceAddress.value) == Lower(id));
  }

  // ----- What the columns hold -----

  /** What the last successful operation on the invoice that says something about a column said. */
  function LastSaid<V>(ops: seq<Op>, id: string, says: Op -> Option<V>): Option<V> {
    if |ops| == 0 then None
    else
      var n := |ops| - 1;
      if ops[n].id == id && Wins(EMPTY, ops, n) && says(ops[n]).Some? then says(ops[n])
      else LastSaid(ops[..n], id, says)
  }

  /** The time of the first successful report on the invoice that says one of these statuses. */
  function FirstTime(ops: seq<Op>, id: string, statuses: set<Status>): Option<int> {
    if |ops| == 0 then None
    else
      var n := |ops| - 1;
      var before := FirstTime(ops[..n], id, statuses);
      if before.Some? then before
      else if ops[n].id == id && Wins(EMPTY, ops, n) && ops[n].TrackOp? && ops[n].r.status.Some?
              && ops[n].r.status.value in statuses then Some(ops[n].now)
      else None
  }

  function SaysStatus(op: Op): Option<Status> {
    match op
    case CreateOp(_, _, _) => Some(AwaitingPayment)
    case ClaimOp(_, _, _, _, _) => None
    case TrackOp(_, r, _) => r.status
  }

  /** An amount is zero at first, and what a report carries from then on. */
  function SaysAmount(op: Op, carried: Report -> Option<string>): Option<string> {
    match op
    case CreateOp(_, _, _) => Some("0")
    case ClaimOp(_, _, _, _, _) => None
    case TrackOp(_, r, _) => carried(r)
  }

  function SaysSweepTx(op: Op): Option<string> {
    if op.TrackOp? then op.r.sweepTx else None
  }

  /** A claim names its sweeper and the end of its lease, a sweep report drops both. */
  function SaysClaim(op: Op): Option<Option<(string, int)>> {
    match op
    case CreateOp(_, _, _) => Some(None)
    case ClaimOp(_, s, _, lease, now) => Some(Some((s, now + lease)))
    case TrackOp(_, r, _) => if r.status == Some(Swept) then Some(None) else None
  }

  function SaysTerms(op: Op): Option<(Terms, int)> {
    if op.CreateOp? then Some((op.terms, op.now)) else None
  }

  function SaysTime(op: Op): Option<int> {
    Some(op.now)
  }

  function ClaimOf(row: Invoice): Option<(string, int)> {
    if row.claimedBy.Some? && row.claimedUntil.Some? then Some((row.claimedBy.value, row.claimedUntil.value)) else None
  }

  ghost predicate TellsAmounts(row: Invoice, ops: seq<Op>, id: string) {
    (LastSaid(ops, id, (op: Op) => SaysAmount(op, (r: Report) => r.amountPaid)),
     LastSaid(ops, id, (op: Op) => SaysAmount(op, (r: Report) => r.amountSwept)),
     LastSaid(ops, id, (op: Op) => SaysAmount(op, (r: Report) => r.feeCollected)),
     LastSaid(ops, id, (op: Op) => SaysAmount(op, (r: Report) => r.gasSpentWei))) ==
    (Some(row.amountPaid), Some(row.amountSwept), Some(row.feeCollected), Some(row.gasSpentWei))
  }

  ghost predicate TellsState(row: Invoice, ops: seq<Op>, id: string) {
    (LastSaid(ops, id, SaysStatus), LastSaid(ops, id, SaysSweepTx), LastSaid(ops, id, SaysClaim),
     LastSaid(ops, id, SaysTerms)) ==
    (Some(row.status), row.sweepTx, Some(ClaimOf(row)), Some((row.terms, row.createdAt)))
  }

  ghost predicate TellsTimes(row: Invoice, ops: seq<Op>, id: string) {
    (LastSaid(ops, id, SaysTime), FirstTime(ops, id, {Paid, PaidPartial, Swept}), FirstTime(ops, id, {Swept})) ==
    (Some(row.updatedAt), row.paidAt, row.sweptAt)
  }

  /** What a row has to do with the operations so far. */
  ghost predicate Tells(row: Invoice, ops: seq<Op>, id: string) {
    TellsAmounts(row, ops, id) && TellsState(row, ops, id) && TellsTimes(row, ops, id)
  }

  /** Paid rows know when, swept rows too, and are not claimed. */
  predicate Coherent(row: Invoice) {
    && (PaidLike(row.status) ==> row.paidAt.Some?)
    && (row.status == Swept ==> row.sweptAt.Some? && row.claimedBy.None? && row.claimedUntil.None?)
  }

  lemma {:induction false} AbsentSaysNothing(ops: seq<Op>, id: string, statuses: set<Status>)
    requires id !in Run(EMPTY, ops).rows
    ensures LastSaid(ops, id, SaysSweepTx).None? && FirstTime(ops, id, statuses).None?
  {
    if |ops| > 0 {
      AbsentSaysNothing(ops[..|ops| - 1], id, statuses);
    }
  }

  lemma {:induction false} AmountsTold(ops: seq<Op>, id: string)
    requires |ops| > 0 && ops[|ops| - 1].id == id && Wins(EMPTY, ops, |ops| - 1)
    requires var rows := Run(EMPTY, ops[..|ops| - 1]).rows;
             id in rows ==> TellsAmounts(rows[id], ops[..|ops| - 1], id)
    ensures id in Run(EMPTY, ops).rows && TellsAmounts(Run(EMPTY, ops).rows[id], ops, id)
  {
  }

  lemma {:induction false} StateTold(ops: seq<Op>, id: string)
    requires |ops| > 0 && ops[|ops| - 1].id == id && Wins(EMPTY, ops, |ops| - 1)
    requires var rows := Run(EMPTY, ops[..|ops| - 1]).rows;
             id in rows ==> TellsState(rows[id], ops[..|ops| - 1], id) && Coherent(rows[id])
    requires id !in Run(EMPTY, ops[..|ops| - 1]).rows ==> LastSaid(ops[..|ops| - 1], id, SaysSweepTx).None?
    ensures id in Run(EMPTY, ops).rows && TellsState(Run(EMPTY, ops).rows[id], ops, id)
  {
  }

  lemma {:induction false} TimesTold(ops: seq<Op>, id: string)
    requires |ops| > 0 && ops[|ops| - 1].id == id && Wins(EMPTY, ops, |ops| - 1)
    requires var rows := Run(EMPTY, ops[..|ops| - 1]).rows;
             id in rows ==> TellsTimes(rows[id], ops[..|ops| - 1], id) && Coherent(rows[id])
    requires id !in Run(EMPTY, ops[..|ops| - 1]).rows ==>
               FirstTime(ops[..|ops| - 1], id, {Paid, PaidPartial, Swept}).None? &&
               FirstTime(ops[..|ops| - 1], id, {Swept}).None?
    ensures id in Run(EMPTY, ops).rows && TellsTimes(Run(EMPTY, ops).rows[id], ops, id)
  {
  }

  lemma {:induction false} StaysCoherent(ops: seq<Op>, id: string)
    requires |ops| > 0 && ops[|ops| - 1].id == id && Wins(EMPTY, ops, |ops| - 1)
    requires var rows := Run(EMPTY, ops[..|ops| - 1]).rows;
             id in rows ==> Coherent(rows[id])
    ensures id in Run(EMPTY, ops).rows && Coherent(Run(EMPTY, ops).rows[id])
  {
  }

  lemma {:induction false} OpElsewhere(ops: seq<Op>, id: string, row: Invoice)
    requires |ops| > 0 && (ops[|ops| - 1].id != id || !Wins(EMPTY, ops, |ops| - 1))
    requires Tells(row, ops[..|ops| - 1], id)
    ensures Tells(row, ops, id)
  {
  }

  /**
   After every run each column of an invoice holds what the last successful operation that says something about it said,
   amounts zero if none did, and the times of payment and sweep are those of the first successful reports of them.
   */
  lemma {:induction false} ColumnsAreLastSaid(ops: seq<Op>, id: string)
    requires id in Run(EMPTY, ops).rows
    ensures Tells(Run(EMPTY, ops).rows[id], ops, id) && Coherent(Run(EMPTY, ops).rows[id])
  {
    var front := ops[..|ops| - 1];
    if id in Run(EMPTY, front).rows {
      ColumnsAreLastSaid(front, id);
    } else {
      AbsentSaysNothing(front, id, {Paid, PaidPartial, Swept});
      AbsentSaysNothing(front, id, {Swept});
    }
    if ops[|ops| - 1].id == id && Wins(EMPTY, ops, |ops| - 1) {
      AmountsTold(ops, id);
      StateTold(ops, id);
      TimesTold(ops, id);
      StaysCoherent(ops, id);
    } else {
      OpElsewhere(ops, id, Run(EMPTY, ops).rows[id]);
    }
  }
}
