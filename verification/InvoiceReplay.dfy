/** Disaster recovery of invoices: folding the persist log, and restoring the folded state into a database. */
module InvoiceReplay {
  import opened Base
  import opened T = InvoiceTable

  datatype Snapshot = Snapshot(
    terms: Terms, status: Status, amountPaid: string, amountSwept: string, feeCollected: string, gasSpentWei: string,
    sweepTx: Option<string>, createdAt: Option<int>, paidAt: Option<int>, sweptAt: Option<int>,
    sawPaid: bool, sawSwept: bool)

  type State = map<string, Snapshot>

  function Opened(terms: Terms, createdAt: Option<int>, ts: int): Snapshot {
    Snapshot(terms, AwaitingPayment, "0", "0", "0", "0", None, createdAt.Or(Some(ts)), None, None, false, false)
  }

  /** An `invoice.paid` event: the payload's `sweepTx` and `sweptAt` are not read. */
  function AfterPaid(s: Snapshot, p: Payload, ts: int): Snapshot {
    Snapshot(s.terms, if p.status == Some(PaidPartial) then PaidPartial else Paid,
             p.amountPaid.GetOr(s.amountPaid), p.amountSwept.GetOr(s.amountSwept),
             p.feeCollected.GetOr(s.feeCollected), p.gasSpentWei.GetOr(s.gasSpentWei),
             s.sweepTx, s.createdAt, p.paidAt.Or(s.paidAt).Or(Some(ts)), s.sweptAt, true, s.sawSwept)
  }

  function AfterSwept(s: Snapshot, p: Payload, ts: int): Snapshot {
    Snapshot(s.terms, Swept,
             p.amountPaid.GetOr(s.amountPaid), p.amountSwept.GetOr(s.amountSwept),
             p.feeCollected.GetOr(s.feeCollected), p.gasSpentWei.GetOr(s.gasSpentWei),
             p.sweepTx, s.createdAt, p.paidAt.Or(s.paidAt).Or(Some(ts)), p.sweptAt.Or(Some(ts)), true, true)
  }

  /** Events without an id, and status events of unknown invoices, are ignored. */
  function Apply(st: State, e: Event): State {
    if e.id == "" then st
    else match e
      case CreatedEvent(id, terms, createdAt, ts) => st[id := Opened(terms, createdAt, ts)]
      case PaidEvent(id, p, ts) => if id in st then st[id := AfterPaid(st[id], p, ts)] else st
      case SweptEvent(id, p, ts) => if id in st then st[id := AfterSwept(st[id], p, ts)] else st
  }

  function Fold(log: seq<Event>): State {
    if |log| == 0 then map[] else Apply(Fold(log[..|log| - 1]), log[|log| - 1])
  }

  class InvoicePersistState {
    var invoices: State

    constructor ()
      ensures invoices == map[]
    {
      invoices := map[];
    }

    method ApplyInvoicePersistEvent(e: Event)
      modifies this
      ensures invoices == Apply(old(invoices), e)
    {
      if e.id == "" { return; }
      if e.CreatedEvent? {
        invoices := invoices[e.id :=
          Snapshot(e.terms, AwaitingPayment, "0", "0", "0", "0", None, e.createdAt.Or(Some(e.ts)), None, None,
                   false, false)];
        return;
      }
      if e.id !in invoices { return; }
      var current := invoices[e.id];
      current := current.(
        status := if e.SweptEvent? then Swept else if e.p.status == Some(PaidPartial) then PaidPartial else Paid,
        amountPaid := e.p.amountPaid.GetOr(current.amountPaid),
        amountSwept := e.p.amountSwept.GetOr(current.amountSwept),
        feeCollected := e.p.feeCollected.GetOr(current.feeCollected),
        gasSpentWei := e.p.gasSpentWei.GetOr(current.gasSpentWei),
        paidAt := e.p.paidAt.Or(current.paidAt).Or(Some(e.ts)), sawPaid := true);
      if e.SweptEvent? {
        current := current.(sweepTx := e.p.sweepTx, sweptAt := e.p.sweptAt.Or(Some(e.ts)), sawSwept := true);
      }
      invoices := invoices[e.id := current];
    }

    method ReplayInvoicePersistState(events: seq<Event>)
      requires invoices == map[]
      modifies this
      ensures invoices == Fold(events)
    {
      for i := 0 to |events|
        invariant invoices == Fold(events[..i])
      {
        ApplyInvoicePersistEvent(events[i]);
        assert events[..i + 1][..i] == events[..i];
      }
      assert events[..|events|] == events;
    }
  }

  /** Kept if the payload has nothing for it. */
  predicate TakenOrKept<V(==)>(after: V, given: Option<V>, before: V) {
    after == given.GetOr(before)
  }

  /**
   Payloads with absent fields, as older logs may hold: an absent amount keeps the folded one; an absent time of payment
   keeps the folded one, or else is the event's; an absent time of sweep is the event's.
   */
  lemma AbsentFieldsKeep(st: State, id: string, p: Payload, ts: int, swept: bool)
    requires id != "" && id in st
    ensures var after := Apply(st, if swept then SweptEvent(id, p, ts) else PaidEvent(id, p, ts));
            && after.Keys == st.Keys && (forall k :: k in st && k != id ==> after[k] == st[k])
            && after[id].terms == st[id].terms && after[id].createdAt == st[id].createdAt
            && TakenOrKept(after[id].amountPaid, p.amountPaid, st[id].amountPaid)
            && TakenOrKept(after[id].amountSwept, p.amountSwept, st[id].amountSwept)
            && TakenOrKept(after[id].feeCollected, p.feeCollected, st[id].feeCollected)
            && TakenOrKept(after[id].gasSpentWei, p.gasSpentWei, st[id].gasSpentWei)
            && (p.paidAt.Some? ==> after[id].paidAt == p.paidAt)
            && (p.paidAt.None? ==> after[id].paidAt == Some(st[id].paidAt.GetOr(ts)))
            && after[id].sweptAt == (if swept then Some(p.sweptAt.GetOr(ts)) else st[id].sweptAt)
            && after[id].sweepTx == (if swept then p.sweepTx else st[id].sweepTx)
  {
  }

  /** Events without an id, or of an invoice that no event created, leave the folded invoices alone. */
  lemma StrayEventsAreIgnored(st: State, e: Event)
    requires e.id == "" || (e.id !in st && !e.CreatedEvent?)
    ensures Apply(st, e) == st
  {
  }

  // ----- Replay against the live table -----

  /**
   A run in which some operations, those numbered `lost`, were committed but never got to append: the process stopped in
   between, and was started again on the same tables.
   */
  function Lossy(ops: seq<Op>, lost: set<nat>): Db {
    if |ops| == 0 then EMPTY
    else
      var before := Lossy(ops[..|ops| - 1], lost);
      var after := Next(before, ops[|ops| - 1]);
      if |ops| - 1 in lost then after.(log := before.log) else after
  }

  lemma {:induction false} LossyRows(ops: seq<Op>, lost: set<nat>)
    ensures Lossy(ops, lost).rows == Run(EMPTY, ops).rows
    ensures lost == {} ==> Lossy(ops, lost) == Run(EMPTY, ops)
  {
    if |ops| > 0 {
      LossyRows(ops[..|ops| - 1], lost);
    }
  }

  /** The last operation appended an event for the invoice. */
  predicate Appends(ops: seq<Op>, lost: set<nat>, id: string) {
    |ops| > 0 && |ops| - 1 !in lost && ops[|ops| - 1].id == id &&
    |Emits(Run(EMPTY, ops[..|ops| - 1]).rows, ops[|ops| - 1])| > 0
  }

  /** The number of operations up to and including the last one that appended an event for the invoice. */
  function LastPersist(ops: seq<Op>, lost: set<nat>, id: string): (k: nat)
    ensures k <= |ops|
  {
    if |ops| == 0 then 0
    else if Appends(ops, lost, id) then |ops|
    else LastPersist(ops[..|ops| - 1], lost, id)
  }

  /** The same for the last `invoice.swept` event; 0 if there is none. */
  function LastSwept(ops: seq<Op>, lost: set<nat>, id: string): (k: nat)
    ensures k <= |ops|
  {
    if |ops| == 0 then 0
    else if Appends(ops, lost, id) && Emits(Run(EMPTY, ops[..|ops| - 1]).rows, ops[|ops| - 1])[0].SweptEvent? then |ops|
    else LastSwept(ops[..|ops| - 1], lost, id)
  }

  /** The number of operations up to and including the one that created the invoice; 0 if there is none. */
  function CreatedBy(ops: seq<Op>, id: string): (k: nat)
    ensures k <= |ops|
  {
    if |ops| == 0 then 0
    else
      var k := CreatedBy(ops[..|ops| - 1], id);
      if k == 0 && id in Run(EMPTY, ops).rows then |ops| else k
  }

  /** The invoice exists, and its creation event was appended. */
  predicate Survives(ops: seq<Op>, lost: set<nat>, id: string) {
    CreatedBy(ops, id) > 0 && CreatedBy(ops, id) - 1 !in lost
  }

  /** The fields on which a folded invoice and a live row agree. */
  predicate Matches(s: Snapshot, row: Invoice) {
    && s.terms == row.terms && s.status == row.status
    && s.amountPaid == row.amountPaid && s.amountSwept == row.amountSwept
    && s.feeCollected == row.feeCollected && s.gasSpentWei == row.gasSpentWei
    && s.createdAt == Some(row.createdAt) && s.paidAt == row.paidAt
  }

  /** The two fields that an `invoice.paid` event leaves alone. */
  function SweepOf(s: Snapshot): (Option<string>, Option<int>) {
    (s.sweepTx, s.sweptAt)
  }

  function RowSweep(row: Invoice): (Option<string>, Option<int>) {
    (row.sweepTx, row.sweptAt)
  }

  lemma FoldSnoc(log: seq<Event>, out: seq<Event>)
    requires |out| <= 1
    ensures Fold(log + out) == if |out| == 0 then Fold(log) else Apply(Fold(log), out[0])
  {
    if |out| == 0 {
      assert log + out == log;
    } else {
      assert (log + out)[..|log|] == log;
    }
  }

  /** An operation emits an event only about the row it wrote, and opens a row only with a creation event. */
  lemma EmittedIsOfOp(db: Db, op: Op)
    ensures |Emits(db.rows, op)| <= 1
    ensures |Emits(db.rows, op)| == 1 ==> Emits(db.rows, op)[0].id == op.id && op.id in Next(db, op).rows
    ensures |Emits(db.rows, op)| == 1 ==> (op.id !in db.rows <==> Emits(db.rows, op)[0].CreatedEvent?)
    ensures op.id in Next(db, op).rows && op.id !in db.rows ==> |Emits(db.rows, op)| == 1
    ensures forall x :: x != op.id ==> (x in Next(db, op).rows <==> x in db.rows)
    ensures op.id in db.rows ==> op.id in Next(db, op).rows
  {
  }

  lemma {:induction false} CreatedIffKnown(ops: seq<Op>, id: string)
    ensures CreatedBy(ops, id) > 0 <==> id in Run(EMPTY, ops).rows
  {
    if |ops| > 0 {
      CreatedIffKnown(ops[..|ops| - 1], id);
      EmittedIsOfOp(Run(EMPTY, ops[..|ops| - 1]), ops[|ops| - 1]);
    }
  }

  /** A replay knows an invoice exactly if its creation event was appended: no later event brings it back. */
  lemma {:induction false} FoldKnowsIff(ops: seq<Op>, lost: set<nat>, id: string)
    requires id != ""
    ensures id in Fold(Lossy(ops, lost).log) <==> Survives(ops, lost, id)
  {
    if |ops| > 0 {
      var before, op := ops[..|ops| - 1], ops[|ops| - 1];
      FoldKnowsIff(before, lost, id);
      CreatedIffKnown(before, id);
      LossyRows(before, lost);
      FoldKnowsMoreIff(Lossy(before, lost), op, id);
    }
  }

  /** An operation's events make an invoice known exactly if it creates it. */
  lemma FoldKnowsMoreIff(db: Db, op: Op, id: string)
    requires id != ""
    ensures id in Fold(db.log + Emits(db.rows, op)) <==>
            id in Fold(db.log) || (id !in db.rows && id in Next(db, op).rows)
  {
    EmittedIsOfOp(db, op);
    FoldSnoc(db.log, Emits(db.rows, op));
  }

  lemma {:induction false} PersistedIsKnown(ops: seq<Op>, lost: set<nat>, id: string)
    requires LastPersist(ops, lost, id) > 0
    ensures id in Run(EMPTY, ops).rows
  {
    EmittedIsOfOp(Run(EMPTY, ops[..|ops| - 1]), ops[|ops| - 1]);
    if !Appends(ops, lost, id) { PersistedIsKnown(ops[..|ops| - 1], lost, id); }
  }

  /** One operation: what the log gains is what the row became. */
  lemma EmissionMatches(db: Db, op: Op)
    requires op.id != "" && |Emits(db.rows, op)| > 0
    requires op.id in db.rows ==> op.id in Fold(db.log)
    requires op.id in db.rows ==> Fold(db.log)[op.id].terms == db.rows[op.id].terms
    requires op.id in db.rows ==> Fold(db.log)[op.id].createdAt == Some(db.rows[op.id].createdAt)
    ensures var db' := Next(db, op);
            && op.id in db'.rows && op.id in Fold(db'.log) && Matches(Fold(db'.log)[op.id], db'.rows[op.id])
            && (Emits(db.rows, op)[0].SweptEvent? ==> SweepOf(Fold(db'.log)[op.id]) == RowSweep(db'.rows[op.id]))
            && (!Emits(db.rows, op)[0].SweptEvent? ==>
                  SweepOf(Fold(db'.log)[op.id]) ==
                  if op.id in db.rows then SweepOf(Fold(db.log)[op.id]) else (None, None))
  {
    FoldSnoc(db.log, Emits(db.rows, op));
  }

  lemma SilenceKeepsSnapshot(log: seq<Event>, out: seq<Event>, id: string)
    requires |out| <= 1 && (|out| == 1 ==> out[0].id != id)
    ensures id in Fold(log) <==> id in Fold(log + out)
    ensures id in Fold(log) ==> Fold(log + out)[id] == Fold(log)[id]
  {
    FoldSnoc(log, out);
  }

  /** After `k` operations the row of the invoice stood as the snapshot says. */
  ghost predicate StoodAt(ops: seq<Op>, k: nat, id: string, s: Snapshot) {
    k <= |ops| && id in Run(EMPTY, ops[..k]).rows && Matches(s, Run(EMPTY, ops[..k]).rows[id])
  }

  /** Transaction and time of the sweep as the row had them after `z` operations; with no swept event there are none. */
  function SweepAsOf(ops: seq<Op>, z: nat, id: string): (Option<string>, Option<int>) {
    if z == 0 || z > |ops| || id !in Run(EMPTY, ops[..z]).rows then (None, None)
    else RowSweep(Run(EMPTY, ops[..z]).rows[id])
  }

  lemma StoodBefore(ops: seq<Op>, k: nat, z: nat, id: string, s: Snapshot)
    requires |ops| > 0
    ensures StoodAt(ops[..|ops| - 1], k, id, s) ==> StoodAt(ops, k, id, s)
    ensures z < |ops| ==> SweepAsOf(ops[..|ops| - 1], z, id) == SweepAsOf(ops, z, id)
  {
    if k < |ops| { assert ops[..|ops| - 1][..k] == ops[..k]; }
    if z < |ops| { assert ops[..|ops| - 1][..z] == ops[..z]; }
  }

  /** An operation that appends nothing for the invoice leaves its snapshot alone. */
  lemma NothingAppended(ops: seq<Op>, lost: set<nat>, id: string)
    requires |ops| > 0 && !Appends(ops, lost, id)
    ensures var (before, after) := (Fold(Lossy(ops[..|ops| - 1], lost).log), Fold(Lossy(ops, lost).log));
            (id in after <==> id in before) && (id in before ==> after[id] == before[id])
  {
    var before, op := Lossy(ops[..|ops| - 1], lost), ops[|ops| - 1];
    LossyRows(ops[..|ops| - 1], lost);
    EmittedIsOfOp(before, op);
    if |ops| - 1 !in lost { SilenceKeepsSnapshot(before.log, Emits(before.rows, op), id); }
  }

  /**
   After any run, whichever appends were lost, the folded log shows each invoice it knows exactly as its row stood right
   after the last operation that persisted it, with the transaction and time of the sweep as of its last swept event.
   */
  lemma {:induction false} ReplayIsTheLastPersistedRow(ops: seq<Op>, lost: set<nat>, id: string)
    requires id != "" && Survives(ops, lost, id)
    ensures LastSwept(ops, lost, id) <= LastPersist(ops, lost, id) && id in Fold(Lossy(ops, lost).log)
    ensures StoodAt(ops, LastPersist(ops, lost, id), id, Fold(Lossy(ops, lost).log)[id])
    ensures SweepOf(Fold(Lossy(ops, lost).log)[id]) == SweepAsOf(ops, LastSwept(ops, lost, id), id)
  {
    var before, op := ops[..|ops| - 1], ops[|ops| - 1];
    var db := Lossy(before, lost);
    FoldKnowsIff(before, lost, id);
    FoldKnowsIff(ops, lost, id);
    LossyRows(before, lost);
    if id in Fold(db.log) {
      ReplayIsTheLastPersistedRow(before, lost, id);
      StoodBefore(ops, LastPersist(before, lost, id), LastSwept(before, lost, id), id, Fold(db.log)[id]);
    }
    if Appends(ops, lost, id) {
      PersistedAgain(ops, lost, id);
    } else {
      NothingAppended(ops, lost, id);
    }
  }

  /** The step of an operation that persists the invoice. */
  lemma PersistedAgain(ops: seq<Op>, lost: set<nat>, id: string)
    requires id != "" && Survives(ops, lost, id) && Appends(ops, lost, id)
    requires var before := ops[..|ops| - 1];
             var st := Fold(Lossy(before, lost).log);
             id in st ==>
               && StoodAt(before, LastPersist(before, lost, id), id, st[id])
               && SweepOf(st[id]) == SweepAsOf(before, LastSwept(before, lost, id), id)
    ensures id in Fold(Lossy(ops, lost).log) && StoodAt(ops, |ops|, id, Fold(Lossy(ops, lost).log)[id])
    ensures SweepOf(Fold(Lossy(ops, lost).log)[id]) == SweepAsOf(ops, LastSwept(ops, lost, id), id)
  {
    var before, op := ops[..|ops| - 1], ops[|ops| - 1];
    var db := Lossy(before, lost);
    assert ops[..|ops|] == ops;
    FoldKnowsIff(before, lost, id);
    LossyRows(before, lost);
    LossyRows(ops, lost);
    CreatedIffKnown(before, id);
    if id in db.rows {
      RowsPersist(EMPTY, before, LastPersist(before, lost, id), id);
      StoodBefore(ops, 0, LastSwept(before, lost, id), id, Fold(db.log)[id]);
    } else {
      EmittedIsOfOp(db, op);
      NoEventNoSweep(before, lost, id);
    }
    EmissionMatches(db, op);
  }

  lemma {:induction false} NoEventNoSweep(ops: seq<Op>, lost: set<nat>, id: string)
    requires id !in Run(EMPTY, ops).rows
    ensures LastPersist(ops, lost, id) == 0 && LastSwept(ops, lost, id) == 0
  {
    if |ops| > 0 {
      EmittedIsOfOp(Run(EMPTY, ops[..|ops| - 1]), ops[|ops| - 1]);
      NoEventNoSweep(ops[..|ops| - 1], lost, id);
    }
  }

  lemma {:induction false} CreatedOnce(ops: seq<Op>, more: seq<Op>, id: string)
    requires CreatedBy(ops, id) > 0
    ensures CreatedBy(ops + more, id) == CreatedBy(ops, id)
  {
    if |more| == 0 {
      assert ops + more == ops;
    } else {
      CreatedOnce(ops, more[..|more| - 1], id);
      assert (ops + more)[..|ops + more| - 1] == ops + more[..|more| - 1];
    }
  }

  /** Nothing makes up for a lost creation: what happens later does not change whether a replay knows the invoice. */
  lemma KnownForGood(ops: seq<Op>, lost: set<nat>, id: string, more: seq<Op>)
    requires id != "" && id in Run(EMPTY, ops).rows
    ensures id in Fold(Lossy(ops + more, lost).log) <==> Survives(ops, lost, id)
  {
    CreatedIffKnown(ops, id);
    CreatedOnce(ops, more, id);
    FoldKnowsIff(ops + more, lost, id);
  }

  /**
   Runs that stop between commit and append, any number of times, and go on: an invoice is in the replay exactly if its
   creation event was not lost, now and for good, and then as it stood at its last surviving event.
   */
  lemma CrashBeforeAppend(ops: seq<Op>, lost: set<nat>, id: string, more: seq<Op>)
    requires id != "" && id in Run(EMPTY, ops).rows
    ensures id in Fold(Lossy(ops, lost).log) <==> CreatedBy(ops, id) - 1 !in lost
    ensures id in Fold(Lossy(ops, lost).log) <==> id in Fold(Lossy(ops + more, lost).log)
    ensures id in Fold(Lossy(ops, lost).log) ==>
              && StoodAt(ops, LastPersist(ops, lost, id), id, Fold(Lossy(ops, lost).log)[id])
              && SweepOf(Fold(Lossy(ops, lost).log)[id]) == SweepAsOf(ops, LastSwept(ops, lost, id), id)
  {
    CreatedIffKnown(ops, id);
    FoldKnowsIff(ops, lost, id);
    KnownForGood(ops, lost, id, more);
    if Survives(ops, lost, id) { ReplayIsTheLastPersistedRow(ops, lost, id); }
  }

  // ----- The time of the first sweep -----

  /** An error report that is the first to call the invoice swept. */
  predicate SilentFirstSweep(row: Invoice, r: Report) {
    r.error && r.status.GetOr(row.status) == Swept && row.sweptAt.None?
  }

  /** One report keeps replay and row agreed on `sweptAt` exactly when it is not a silent first sweep. */
  lemma ReportKeepsSweptAtIff(db: Db, id: string, r: Report, now: int)
    requires id != "" && id in db.rows && id in Fold(db.log) && Track(db.rows, id, r, now).Done?
    requires Fold(db.log)[id].sweptAt == db.rows[id].sweptAt
    ensures var db' := Next(db, TrackOp(id, r, now));
            && id in db'.rows && id in Fold(db'.log)
            && (Fold(db'.log)[id].sweptAt == db'.rows[id].sweptAt <==> !SilentFirstSweep(db.rows[id], r))
  {
    FoldSnoc(db.log, Emits(db.rows, TrackOp(id, r, now)));
  }

  lemma StepKeepsSweptAt(db: Db, op: Op, id: string)
    requires id in db.rows && db.rows[id].sweptAt.Some?
    ensures id in Next(db, op).rows && Next(db, op).rows[id].sweptAt == db.rows[id].sweptAt
  {
  }

  /** A sweep time, once set, is never changed. */
  lemma {:induction false} SweptAtIsKept(ops: seq<Op>, z: nat, id: string)
    requires z <= |ops| && id in Run(EMPTY, ops[..z]).rows && Run(EMPTY, ops[..z]).rows[id].sweptAt.Some?
    ensures id in Run(EMPTY, ops).rows && Run(EMPTY, ops).rows[id].sweptAt == Run(EMPTY, ops[..z]).rows[id].sweptAt
  {
    if z == |ops| {
      assert ops[..z] == ops;
    } else {
      var front := ops[..|ops| - 1];
      assert front[..z] == ops[..z];
      SweptAtIsKept(front, z, id);
      StepKeepsSweptAt(Run(EMPTY, front), ops[|ops| - 1], id);
    }
  }

  lemma SweptAtStays(ops: seq<Op>, z: nat, k: nat, id: string)
    requires z <= k <= |ops| && id in Run(EMPTY, ops[..z]).rows && Run(EMPTY, ops[..z]).rows[id].sweptAt.Some?
    ensures id in Run(EMPTY, ops[..k]).rows
    ensures Run(EMPTY, ops[..k]).rows[id].sweptAt == Run(EMPTY, ops[..z]).rows[id].sweptAt
  {
    assert ops[..k][..z] == ops[..z];
    SweptAtIsKept(ops[..k], z, id);
  }

  /** A swept event is appended only by an operation that leaves the row with a sweep time. */
  lemma {:induction false} LastSweptHasTime(ops: seq<Op>, lost: set<nat>, id: string)
    requires LastSwept(ops, lost, id) > 0
    ensures var z := LastSwept(ops, lost, id);
            id in Run(EMPTY, ops[..z]).rows && Run(EMPTY, ops[..z]).rows[id].sweptAt.Some?
  {
    var before := ops[..|ops| - 1];
    if LastSwept(ops, lost, id) == |ops| {
      assert ops[..|ops|] == ops;
    } else {
      LastSweptHasTime(before, lost, id);
      assert before[..LastSwept(before, lost, id)] == ops[..LastSwept(before, lost, id)];
    }
  }

  /**
   After any run, the replayed sweep time is that of the invoice's last persisted row exactly if some swept event was
   appended for it or that row has no sweep time.
   */
  lemma SweptAtKeptIff(ops: seq<Op>, lost: set<nat>, id: string)
    requires id != "" && Survives(ops, lost, id)
    ensures var (k, st) := (LastPersist(ops, lost, id), Fold(Lossy(ops, lost).log));
            && id in st && id in Run(EMPTY, ops[..k]).rows
            && (st[id].sweptAt == Run(EMPTY, ops[..k]).rows[id].sweptAt <==>
                  LastSwept(ops, lost, id) > 0 || Run(EMPTY, ops[..k]).rows[id].sweptAt.None?)
  {
    ReplayIsTheLastPersistedRow(ops, lost, id);
    if LastSwept(ops, lost, id) > 0 {
      LastSweptHasTime(ops, lost, id);
      SweptAtStays(ops, LastSwept(ops, lost, id), LastPersist(ops, lost, id), id);
    }
  }

  /** The gap is real, from any state: a silent first sweep, then a clean `paid` report, and the sweep time is lost. */
  lemma SweptAtCanBeLost(db: Db, id: string, silent: Report, clean: Report, now: int, later: int)
    requires id != "" && id in db.rows && id in Fold(db.log)
    requires db.rows[id].sweptAt.None? && Fold(db.log)[id].sweptAt.None?
    requires silent.error && silent.status == Some(Swept) && Track(db.rows, id, silent, now).Done?
    requires !clean.error && clean.status == Some(Paid)
    requires Track(Next(db, TrackOp(id, silent, now)).rows, id, clean, later).Done?
    ensures var after := Next(Next(db, TrackOp(id, silent, now)), TrackOp(id, clean, later));
            && id in after.rows && after.rows[id].sweptAt == Some(now)
            && |after.log| == |db.log| + 1 && id in Fold(after.log) && Fold(after.log)[id].sweptAt == None
  {
    var between := Next(db, TrackOp(id, silent, now));
    assert db.log + [] == db.log;
    FoldSnoc(between.log, Emits(between.rows, TrackOp(id, clean, later)));
  }

  predicate Clean(op: Op) {
    op.TrackOp? ==> !(op.r.error && op.r.status == Some(Swept))
  }

  ghost predicate SweptAtAgrees(db: Db, id: string) {
    id in db.rows ==>
      && id in Fold(db.log) && Fold(db.log)[id].sweptAt == db.rows[id].sweptAt
      && (db.rows[id].status == Swept ==> db.rows[id].sweptAt.Some?)
  }

  lemma CleanStep(db: Db, op: Op, id: string)
    requires id != "" && Clean(op) && SweptAtAgrees(db, id)
    ensures SweptAtAgrees(Next(db, op), id)
  {
    FoldSnoc(db.log, Emits(db.rows, op));
  }

  /** If no report calls an invoice swept and in error at once, the replay has every sweep time of the live table. */
  lemma {:induction false} CleanRunsKeepSweptAt(ops: seq<Op>, id: string)
    requires id != "" && forall op :: op in ops ==> Clean(op)
    ensures SweptAtAgrees(Run(EMPTY, ops), id)
  {
    if |ops| > 0 {
      CleanRunsKeepSweptAt(ops[..|ops| - 1], id);
      CleanStep(Run(EMPTY, ops[..|ops| - 1]), ops[|ops| - 1], id);
    }
  }

  // ----- Restoring into a database -----

  /** The upsert of one restored invoice. */
  function Restored(existing: Option<Invoice>, s: Snapshot, now: int): Invoice {
    Invoice(s.terms, s.status, s.amountPaid, s.amountSwept, s.feeCollected, s.gasSpentWei, s.sweepTx,
            if existing.Some? then existing.value.version + 1 else 1, None, None,
            if existing.Some? then existing.value.createdAt else s.createdAt.GetOr(now), now, s.paidAt, s.sweptAt)
  }

  function RestoreAll(rows: Rows, st: State, now: int): Rows {
    map id | id in rows.Keys + st.Keys :: if id in st then Restored(Get(rows, id), st[id], now) else rows[id]
  }

  lemma RestoreOneMore(rows: Rows, done: State, id: string, s: Snapshot, now: int)
    requires id !in done
    ensures RestoreAll(rows, done[id := s], now) == RestoreAll(rows, done, now)[id := Restored(Get(rows, id), s, now)]
    ensures Get(RestoreAll(rows, done, now), id) == Get(rows, id)
  {
  }

  method RestorePersistedInvoice(db: InvoiceDb, id: string, s: Snapshot, now: int)
    modifies db
    ensures db.rows == old(db.rows)[id := Restored(Get(old(db.rows), id), s, now)] && db.log == old(db.log)
  {
    var row := Invoice(s.terms, s.status, s.amountPaid, s.amountSwept, s.feeCollected, s.gasSpentWei, s.sweepTx,
                       1, None, None, s.createdAt.GetOr(now), now, s.paidAt, s.sweptAt);
    if id in db.rows {
      row := row.(createdAt := db.rows[id].createdAt, version := db.rows[id].version + 1);
    }
    db.rows := db.rows[id := row];
  }

  lemma RestoreNext(rows: Rows, st: State, todo: set<string>, id: string, now: int)
    requires id in todo && todo <= st.Keys
    ensures var before := RestoreAll(rows, st - todo, now);
            RestoreAll(rows, st - (todo - {id}), now) == before[id := Restored(Get(before, id), st[id], now)]
  {
    assert st - (todo - {id}) == (st - todo)[id := st[id]];
    RestoreOneMore(rows, st - todo, id, st[id], now);
  }

  method ApplyInvoicePersistStateToDb(db: InvoiceDb, st: State, now: int)
    modifies db
    ensures db.rows == RestoreAll(old(db.rows), st, now)
    ensures db.log == old(db.log)
  {
    var todo := st.Keys;
    assert db.rows == RestoreAll(db.rows, st - todo, now);
    while todo != {}
      invariant todo <= st.Keys && db.log == old(db.log)
      invariant db.rows == RestoreAll(old(db.rows), st - todo, now)
      decreases |todo|
    {
      var id :| id in todo;
      RestoreNext(old(db.rows), st, todo, id, now);
      RestorePersistedInvoice(db, id, st[id], now);
      todo := todo - {id};
    }
    assert st - todo == st;
  }

  /** A fold never invents a status: what it holds can be claimed unless it was swept. */
  lemma {:induction false} FoldStatuses(log: seq<Event>, id: string)
    requires id in Fold(log)
    ensures Fold(log)[id].status in {AwaitingPayment, Paid, PaidPartial, Swept}
    ensures Fold(log)[id].createdAt.Some?
  {
    var before, e := log[..|log| - 1], log[|log| - 1];
    if id in Fold(before) {
      FoldStatuses(before, id);
    }
  }

  /** The restored row holds every folded field. */
  predicate Reproduces(row: Invoice, s: Snapshot) {
    Matches(s, row) && row.sweepTx == s.sweepTx && row.sweptAt == s.sweptAt
  }

  /** Restoring a folded log into an empty table gives exactly the folded invoices, field for field. */
  lemma RestoreReproduces(log: seq<Event>, now: int)
    ensures RestoreAll(map[], Fold(log), now).Keys == Fold(log).Keys
    ensures forall id :: id in Fold(log) ==> Reproduces(RestoreAll(map[], Fold(log), now)[id], Fold(log)[id])
  {
    forall id | id in Fold(log)
      ensures Reproduces(RestoreAll(map[], Fold(log), now)[id], Fold(log)[id])
    {
      FoldStatuses(log, id);
    }
  }

  /** Restoring again changes versions and update times only. */
  lemma RestoreTwice(st: State, now: int, later: int)
    ensures var once := RestoreAll(map[], st, now);
            var twice := RestoreAll(once, st, later);
            && twice.Keys == once.Keys
            && forall id :: id in once ==>
                 twice[id] == once[id].(version := once[id].version + 1, updatedAt := later)
  {
  }

  /** After a restore any sweeper can claim any invoice that is not swept, at its current version. */
  lemma RestoredIsClaimable(
    rows: Rows, log: seq<Event>, id: string, sweeper: string, leaseMs: nat, now: int, later: int)
    requires id in Fold(log)
    ensures var after := RestoreAll(rows, Fold(log), now);
            id in after &&
            (Claim(after, id, sweeper, after[id].version, leaseMs, later).Done? <==> Fold(log)[id].status != Swept)
  {
    FoldStatuses(log, id);
  }

  /**
   From end to end: run, losing any appends, lose the database, replay the log into an empty one. Exactly the invoices
   whose creation event survived come back, all of them if no append was lost. Every field of every row is determined:
   it is as at the last persisted event, unclaimed at version 1, with the sweep of the last swept event.
   */
  lemma DisasterRecovery(ops: seq<Op>, lost: set<nat>, now: int, id: string)
    requires id != ""
    ensures var after := RestoreAll(map[], Fold(Lossy(ops, lost).log), now);
            && (id in after <==> Survives(ops, lost, id))
            && (lost == {} ==> Lossy(ops, lost) == Run(EMPTY, ops) && (id in after <==> id in Run(EMPTY, ops).rows))
            && (id in after ==>
                  var (k, sweep) := (LastPersist(ops, lost, id), SweepAsOf(ops, LastSwept(ops, lost, id), id));
                  id in Run(EMPTY, ops[..k]).rows &&
                  var row := Run(EMPTY, ops[..k]).rows[id];
                  after[id] == row.(version := 1, claimedBy := None, claimedUntil := None, updatedAt := now,
                                    sweepTx := sweep.0, sweptAt := sweep.1))
  {
    FoldKnowsIff(ops, lost, id);
    CreatedIffKnown(ops, id);
    LossyRows(ops, lost);
    RestoreReproduces(Lossy(ops, lost).log, now);
    if Survives(ops, lost, id) { ReplayIsTheLastPersistedRow(ops, lost, id); }
  }
}
