/**
 The EVM log scanner of the sweep node: chunks, overlap and a persisted cursor, with a crash possible anywhere.
 The receiver's logs below the confirmed head are one fixed, ordered history.
 */
module Scanner {
  import opened Base

  datatype Log = Log(
    block: nat, index: nat, invoiceId: string, token: string, amount: nat, forwarder: string, txHash: string)

  /** A row of `paid_invoices`: from a log, or synthesized from the receiver's view with a placeholder hash. */
  datatype PaidRow = FromLog(log: Log) | Reconciled(token: string, amount: nat, forwarder: string)

  type Paid = map<string, PaidRow>

  predicate Before(a: Log, b: Log) {
    a.block < b.block || (a.block == b.block && a.index < b.index)
  }

  ghost predicate Ordered(h: seq<Log>) {
    forall i, j :: 0 <= i < j < |h| ==> Before(h[i], h[j])
  }

  function BelowAmong(h: seq<Log>, n: nat, block: int): (k: nat)
    requires n <= |h|
    ensures k <= n
  {
    if n == 0 then 0 else if h[n - 1].block < block then n else BelowAmong(h, n - 1, block)
  }

  /** The number of logs below a block: in an ordered history these are its first ones. */
  function Below(h: seq<Log>, block: int): (k: nat)
    ensures k <= |h|
  {
    BelowAmong(h, |h|, block)
  }

  lemma {:induction false} BelowAmongSplits(h: seq<Log>, n: nat, block: int)
    requires Ordered(h) && n <= |h|
    ensures forall i :: 0 <= i < n ==> (i < BelowAmong(h, n, block) <==> h[i].block < block)
  {
    if n > 0 && h[n - 1].block >= block {
      BelowAmongSplits(h, n - 1, block);
    } else if n > 0 {
      assert forall i :: 0 <= i < n - 1 ==> Before(h[i], h[n - 1]);
    }
  }

  lemma BelowSplits(h: seq<Log>, block: int)
    requires Ordered(h)
    ensures forall i :: 0 <= i < |h| ==> (i < Below(h, block) <==> h[i].block < block)
  {
    BelowAmongSplits(h, |h|, block);
  }

  lemma BelowMonotone(h: seq<Log>, a: int, b: int)
    requires Ordered(h) && a <= b
    ensures Below(h, a) <= Below(h, b)
  {
    BelowSplits(h, a);
    BelowSplits(h, b);
    assert Below(h, b) < |h| ==> h[Below(h, b)].block >= b;
  }

  /** `eth_getLogs` for a block range. */
  function GetLogs(h: seq<Log>, from: int, to: int): seq<Log>
    requires Below(h, from) <= Below(h, to + 1)
  {
    h[Below(h, from)..Below(h, to + 1)]
  }

  lemma GetLogsIsTheRange(h: seq<Log>, from: int, to: int, l: Log)
    requires Ordered(h) && from <= to + 1
    ensures Below(h, from) <= Below(h, to + 1)
    ensures l in GetLogs(h, from, to) <==> l in h && from <= l.block <= to
  {
    BelowMonotone(h, from, to + 1);
    BelowSplits(h, from);
    BelowSplits(h, to + 1);
    if l in h && from <= l.block <= to {
      var i :| 0 <= i < |h| && h[i] == l;
      assert GetLogs(h, from, to)[i - Below(h, from)] == l;
    }
  }

  /** The table that one in-order pass over logs `lo..n` writes. */
  function Pass(h: seq<Log>, lo: nat, n: nat): Paid
    requires n <= |h|
  {
    if n <= lo then map[] else Pass(h, lo, n - 1)[h[n - 1].invoiceId := FromLog(h[n - 1])]
  }

  /** Log `j` is the last of `lo..n` for its invoice. */
  ghost predicate LastAt(h: seq<Log>, lo: nat, n: nat, x: string, j: int) {
    n <= |h| && (lo <= j < n && h[j].invoiceId == x && forall i :: j < i < n ==> h[i].invoiceId != x)
  }

  lemma {:induction false} PassHoldsLastLogs(h: seq<Log>, lo: nat, n: nat, x: string) returns (j: int)
    requires n <= |h|
    ensures x in Pass(h, lo, n) ==> LastAt(h, lo, n, x, j) && Pass(h, lo, n)[x] == FromLog(h[j])
    ensures x !in Pass(h, lo, n) ==> forall i :: lo <= i < n ==> h[i].invoiceId != x
  {
    j := 0;
    if n > lo {
      j := PassHoldsLastLogs(h, lo, n - 1, x);
      if h[n - 1].invoiceId == x {
        j := n - 1;
      }
    }
  }

  lemma {:induction false} PassSplits(h: seq<Log>, lo: nat, mid: nat, n: nat)
    requires lo <= mid <= n <= |h|
    ensures Pass(h, lo, n) == Pass(h, lo, mid) + Pass(h, mid, n)
  {
    if mid < n {
      PassSplits(h, lo, mid, n - 1);
    }
  }

  // ----- What a crash must not lose -----

  predicate AtOrAfter(a: Log, b: Log) {
    !Before(a, b)
  }

  /** The log's invoice has a row taken from that log or a later one. */
  predicate Kept(paid: Paid, l: Log) {
    l.invoiceId in paid && paid[l.invoiceId].FromLog? && AtOrAfter(paid[l.invoiceId].log, l)
  }

  ghost predicate AllKept(paid: Paid, h: seq<Log>, lo: nat, n: nat) {
    n <= |h| && (forall i :: lo <= i < n ==> Kept(paid, h[i]))
  }

  /** The row names a log of the history, of its own invoice and not above the highest head seen. */
  ghost predicate GenuineRow(h: seq<Log>, lo: nat, head: int, x: string, l: Log) {
    l.invoiceId == x && exists i :: lo <= i < |h| && h[i] == l && h[i].block <= head
  }

  ghost predicate Genuine(paid: Paid, h: seq<Log>, lo: nat, head: int) {
    forall x :: x in paid && paid[x].FromLog? ==> GenuineRow(h, lo, head, x, paid[x].log)
  }

  /** Exactly the rows of one in-order pass, next to rows synthesized for invoices that have no log. */
  ghost predicate ExactlyThePass(paid: Paid, h: seq<Log>, lo: nat, n: nat) {
    && n <= |h|
    && (forall x :: x in Pass(h, lo, n) ==> x in paid && paid[x] == Pass(h, lo, n)[x])
    && (forall x :: x in paid && paid[x].FromLog? ==> x in Pass(h, lo, n))
  }

  lemma RescanKeeps(paid: Paid, h: seq<Log>, lo: nat, a: nat, n: nat)
    requires Ordered(h) && lo <= a <= n <= |h| && AllKept(paid, h, lo, a)
    ensures AllKept(paid + Pass(h, a, n), h, lo, n)
  {
    forall i | lo <= i < n ensures Kept(paid + Pass(h, a, n), h[i]) {
      var j := PassHoldsLastLogs(h, a, n, h[i].invoiceId);
      if h[i].invoiceId in Pass(h, a, n) {
        assert i <= j;
        assert i < j ==> Before(h[i], h[j]);
      }
    }
  }

  lemma RescanIsGenuine(paid: Paid, h: seq<Log>, lo: nat, a: nat, n: nat, head: int)
    requires lo <= a <= n <= |h| && Genuine(paid, h, lo, head)
    requires forall i :: 0 <= i < n ==> h[i].block <= head
    ensures Genuine(paid + Pass(h, a, n), h, lo, head)
  {
    forall x | x in Pass(h, a, n)
      ensures Pass(h, a, n)[x].FromLog? && GenuineRow(h, lo, head, x, Pass(h, a, n)[x].log)
    {
      var j := PassHoldsLastLogs(h, a, n, x);
      assert h[j] == Pass(h, a, n)[x].log;
    }
  }

  /** A row that was kept for the last log of its invoice, and is genuine, is that log. */
  lemma KeptLastIsExact(paid: Paid, h: seq<Log>, lo: nat, n: nat, head: int, x: string, j: int)
    requires Ordered(h) && n <= |h| && Genuine(paid, h, lo, head)
    requires forall i :: 0 <= i < |h| && h[i].block <= head ==> i < n
    requires LastAt(h, lo, n, x, j) && Kept(paid, h[j])
    ensures paid[x] == FromLog(h[j])
  {
    assert GenuineRow(h, lo, head, x, paid[x].log);
    var m :| lo <= m < |h| && h[m] == paid[x].log && h[m].block <= head;
    assert !Before(h[m], h[j]);
  }

  /** A rescan that reaches a head not below any earlier one leaves exactly the pass over everything. */
  lemma RescanIsExact(paid: Paid, h: seq<Log>, lo: nat, a: nat, n: nat, head: int)
    requires Ordered(h) && lo <= a <= n <= |h| && AllKept(paid, h, lo, a) && Genuine(paid, h, lo, head)
    requires forall i :: 0 <= i < |h| && h[i].block <= head ==> i < n
    ensures ExactlyThePass(paid + Pass(h, a, n), h, lo, n)
  {
    PassSplits(h, lo, a, n);
    var after := paid + Pass(h, a, n);
    forall x | x in Pass(h, lo, n) ensures x in after && after[x] == Pass(h, lo, n)[x] {
      if x !in Pass(h, a, n) {
        var j := PassHoldsLastLogs(h, lo, n, x);
        var _ := PassHoldsLastLogs(h, a, n, x);
        assert Kept(paid, h[j]);
        KeptLastIsExact(paid, h, lo, n, head, x, j);
      }
    }
    forall x | x in paid && paid[x].FromLog? ensures x in Pass(h, lo, n) {
      assert GenuineRow(h, lo, head, x, paid[x].log);
      var m :| lo <= m < |h| && h[m] == paid[x].log && h[m].block <= head;
      var _ := PassHoldsLastLogs(h, lo, n, x);
    }
  }

  /** A rescan that found `paid0` has written the logs from `a` to before `n`. */
  ghost predicate Wrote(paid: Paid, paid0: Paid, h: seq<Log>, a: nat, n: nat) {
    n <= |h| && paid == paid0 + Pass(h, a, n)
  }

  lemma WroteOneMore(paid: Paid, paid0: Paid, h: seq<Log>, a: nat, n: nat, l: Log)
    requires Wrote(paid, paid0, h, a, n) && a <= n < |h| && l == h[n]
    ensures Wrote(paid[l.invoiceId := FromLog(l)], paid0, h, a, n + 1)
  {
  }

  lemma GenuineBelowHigherHead(paid: Paid, h: seq<Log>, lo: nat, head0: int, head: int)
    requires Genuine(paid, h, lo, head0) && head0 <= head
    ensures Genuine(paid, h, lo, head)
  {
    forall x | x in paid && paid[x].FromLog? ensures GenuineRow(h, lo, head, x, paid[x].log) {
      assert GenuineRow(h, lo, head0, x, paid[x].log);
    }
  }

  /** A rescan from log `a` may write the logs before `n`: what was stored covers those before `a`. */
  ghost predicate Rescan(paid0: Paid, h: seq<Log>, lo: nat, a: nat, n: nat, head0: int, head: int) {
    && Ordered(h) && lo <= a <= n <= |h| && AllKept(paid0, h, lo, a) && Genuine(paid0, h, lo, head0)
    && head0 <= head && forall i :: 0 <= i < n ==> h[i].block <= head
  }

  lemma ChunkCanBeWritten(paid0: Paid, h: seq<Log>, lo: nat, a: nat, from: int, to: int, head0: int, head: int)
    requires Ordered(h) && lo <= a <= Below(h, from) && AllKept(paid0, h, lo, a) && Genuine(paid0, h, lo, head0)
    requires head0 <= head && from <= to <= head
    ensures Below(h, from) <= Below(h, to + 1)
    ensures Rescan(paid0, h, lo, a, Below(h, to + 1), head0, head)
  {
    BelowMonotone(h, from, to + 1);
    BelowSplits(h, to + 1);
  }

  /** However far a rescan gets, the rows of all logs passed so far are kept, and all rows are genuine. */
  lemma PartialScanIsSafe(paid0: Paid, h: seq<Log>, lo: nat, a: nat, k: nat, n: nat, r: nat, head0: int, head: int)
    requires Rescan(paid0, h, lo, a, n, head0, head) && a <= k <= n && r <= k
    ensures AllKept(paid0 + Pass(h, a, k), h, lo, r) && Genuine(paid0 + Pass(h, a, k), h, lo, head)
  {
    RescanKeeps(paid0, h, lo, a, k);
    GenuineBelowHigherHead(paid0, h, lo, head0, head);
    RescanIsGenuine(paid0, h, lo, a, k, head);
  }

  // ----- The node -----

  /** Where a scan starts: the overlap before the cursor, but not below the start block. */
  function RestartPoint(cursor: Option<int>, startBlock: int, overlap: int): int {
    Max(startBlock, cursor.GetOr(startBlock) - overlap + 1)
  }

  /**
   What is stored may be picked up after a crash: every log before the restart point has its row, and every row that
   names a log names one of the history.
   */
  ghost predicate Safe(h: seq<Log>, startBlock: int, overlap: int, paid: Paid, cursor: Option<int>, head: int) {
    var lo, restart := Below(h, startBlock), Below(h, RestartPoint(cursor, startBlock, overlap));
    && (cursor.Some? ==> cursor.value <= head)
    && lo <= restart && AllKept(paid, h, lo, restart) && Genuine(paid, h, lo, head)
  }

  lemma StaysSafe(h: seq<Log>, startBlock: int, overlap: int, paid: Paid, cursor: Option<int>, head: int,
                  paid0: Paid, a: nat, k: nat, n: nat, head0: int)
    requires cursor.Some? ==> cursor.value <= head
    requires Rescan(paid0, h, Below(h, startBlock), a, n, head0, head)
    requires Below(h, RestartPoint(cursor, startBlock, overlap)) <= k && a <= k <= n
    requires Wrote(paid, paid0, h, a, k)
    ensures Safe(h, startBlock, overlap, paid, cursor, head)
  {
    BelowMonotone(h, startBlock, RestartPoint(cursor, startBlock, overlap));
    PartialScanIsSafe(paid0, h, Below(h, startBlock), a, k, n,
                      Below(h, RestartPoint(cursor, startBlock, overlap)), head0, head);
  }

  class SweepNode {
    const startBlock: nat
    const overlap: nat
    const chunk: nat
    ghost const history: seq<Log>

    var paid: Paid
    var cursor: Option<int>
    /** The highest confirmed head any scan has used. */
    ghost var head: int

    ghost predicate Valid()
      reads this
    {
      && Ordered(history) && overlap >= 1 && chunk >= 1
      && Safe(history, startBlock, overlap, paid, cursor, head)
    }

    constructor (startBlock: nat, overlap: nat, chunk: nat, ghost history: seq<Log>)
      requires Ordered(history) && overlap >= 1 && chunk >= 1
      ensures Valid() && this.history == history && this.startBlock == startBlock
      ensures paid == map[] && cursor == None && head == 0
    {
      this.startBlock, this.overlap, this.chunk, this.history := startBlock, overlap, chunk, history;
      paid, cursor, head := map[], None, 0;
    }

    /** Reconciliation with the receiver adds a placeholder row where there is none. */
    method ReconcilePaid(x: string, token: string, amount: nat, forwarder: string)
      requires Valid()
      modifies this`paid
      ensures Valid()
      ensures paid == if x in old(paid) then old(paid) else old(paid)[x := Reconciled(token, amount, forwarder)]
    {
      if x !in paid {
        paid := paid[x := Reconciled(token, amount, forwarder)];
        assert forall y :: y in paid && paid[y].FromLog? ==> y in old(paid) && paid[y] == old(paid)[y];
      }
    }

    /** One log of a rescan that may write those before `top`. */
    method UpsertPaidLog(log: Log, ghost paid0: Paid, ghost a: nat, ghost n: nat, ghost top: nat, ghost head0: int)
      requires Valid() && a <= n < top && top <= |history| && log == history[n]
      requires Rescan(paid0, history, Below(history, startBlock), a, top, head0, head)
      requires Below(history, RestartPoint(cursor, startBlock, overlap)) <= n && Wrote(paid, paid0, history, a, n)
      modifies this`paid
      ensures Valid() && Wrote(paid, paid0, history, a, n + 1)
    {
      WroteOneMore(paid, paid0, history, a, n, log);
      paid := paid[log.invoiceId := FromLog(log)];
      StaysSafe(history, startBlock, overlap, paid, cursor, head, paid0, a, n + 1, top, head0);
    }

    /** The logs of one chunk; `*` stands for a crash between two of them. */
    method UpsertPaidLogs(logs: seq<Log>, ghost paid0: Paid, ghost a: nat, ghost n: nat, ghost head0: int)
      returns (alive: bool)
      requires Valid() && n + |logs| <= |history| && logs == history[n..n + |logs|]
      requires Rescan(paid0, history, Below(history, startBlock), a, n + |logs|, head0, head)
      requires a <= n && Below(history, RestartPoint(cursor, startBlock, overlap)) <= n
      requires Wrote(paid, paid0, history, a, n)
      modifies this`paid
      ensures Valid()
      ensures alive ==> Wrote(paid, paid0, history, a, n + |logs|)
    {
      for k := 0 to |logs|
        invariant Valid() && Wrote(paid, paid0, history, a, n + k)
      {
        if * { return false; }
        assert logs[k] == history[n + k];
        UpsertPaidLog(logs[k], paid0, a, n + k, n + |logs|, head0);
      }
      alive := true;
    }

    /** One chunk: fetch, write, then move the cursor; `*` stands for a failing RPC or a crash. */
    method ScanChunk(fromBlock: int, toBlock: int, rpc: seq<Log>, ghost paid0: Paid, ghost a: nat, ghost head0: int)
      returns (alive: bool)
      requires Valid() && rpc == history && startBlock <= fromBlock <= toBlock <= head
      requires Below(history, startBlock) <= a <= Below(history, fromBlock) && head0 <= head
      requires AllKept(paid0, history, Below(history, startBlock), a)
      requires Genuine(paid0, history, Below(history, startBlock), head0)
      requires RestartPoint(cursor, startBlock, overlap) <= fromBlock
      requires Wrote(paid, paid0, history, a, Below(history, fromBlock))
      modifies this`paid, this`cursor
      ensures Valid()
      ensures alive ==> cursor == Some(toBlock) && a <= Below(history, toBlock + 1)
      ensures alive ==> Wrote(paid, paid0, history, a, Below(history, toBlock + 1))
    {
      if * { return false; }
      ghost var n, n1 := Below(history, fromBlock), Below(history, toBlock + 1);
      ChunkCanBeWritten(paid0, history, Below(history, startBlock), a, fromBlock, toBlock, head0, head);
      BelowMonotone(history, RestartPoint(cursor, startBlock, overlap), fromBlock);
      alive := UpsertPaidLogs(GetLogs(rpc, fromBlock, toBlock), paid0, a, n, head0);
      if !alive { return false; }
      if * { return false; }
      cursor := Some(toBlock);
      BelowMonotone(history, RestartPoint(cursor, startBlock, overlap), toBlock + 1);
      StaysSafe(history, startBlock, overlap, paid, cursor, head, paid0, a, n1, n1, head0);
    }

    lemma FinalTable(paid0: Paid, a: nat, fromBlock: int, head0: int, latest: int)
      requires Ordered(history) && Below(history, startBlock) <= a <= Below(history, fromBlock)
      requires AllKept(paid0, history, Below(history, startBlock), a)
      requires Genuine(paid0, history, Below(history, startBlock), head0)
      requires Wrote(paid, paid0, history, a, Below(history, fromBlock))
      requires fromBlock > latest >= head0 && fromBlock >= startBlock
      requires fromBlock == latest + 1 || fromBlock == startBlock
      ensures ExactUpTo(latest)
    {
      BelowSplits(history, fromBlock);
      RescanIsExact(paid0, history, Below(history, startBlock), a, Below(history, fromBlock), head0);
    }

    /** A scan that found these has read every block from its restart point to `latest`, and got there. */
    ghost predicate CompletedFrom(paid0: Paid, cursor0: Option<int>, latest: nat)
      reads this
    {
      var from := RestartPoint(cursor0, startBlock, overlap);
      && cursor == (if from <= latest then Some(latest) else cursor0)
      && paid == if from > latest then paid0
                 else paid0 + Pass(history, Below(history, from), Below(history, latest + 1))
    }

    /** One scan up to a confirmed head; it ends early when a chunk does not survive. */
    method ScanEvmPaidLogs(latest: nat, rpc: seq<Log>) returns (completed: bool)
      requires Valid() && rpc == history
      modifies this
      ensures Valid() && head == Max(old(head), latest)
      ensures completed ==> CompletedFrom(old(paid), old(cursor), latest)
      ensures completed && latest >= old(head) ==> ExactUpTo(latest)
    {
      var fromBlock := RestartPoint(cursor, startBlock, overlap);
      ghost var lo, a := Below(history, startBlock), Below(history, fromBlock);
      ghost var paid0, head0, cursor0, from := paid, head, cursor, fromBlock;
      head := Max(head, latest);
      GenuineBelowHigherHead(paid, history, lo, head0, head);
      assert Wrote(paid, paid0, history, a, a);
      while fromBlock <= latest
        invariant Valid() && head == Max(head0, latest) && startBlock <= fromBlock
        invariant latest >= head0 ==> fromBlock <= latest + 1 || fromBlock == startBlock
        invariant RestartPoint(cursor, startBlock, overlap) <= fromBlock
        invariant fromBlock == from || (from < fromBlock <= latest + 1 && cursor == Some(fromBlock - 1))
        invariant fromBlock == from ==> cursor == cursor0
        invariant a <= Below(history, fromBlock) && Wrote(paid, paid0, history, a, Below(history, fromBlock))
        decreases latest - fromBlock
      {
        var toBlock := if fromBlock + chunk - 1 < latest then fromBlock + chunk - 1 else latest;
        var alive := ScanChunk(fromBlock, toBlock, rpc, paid0, a, head0);
        if !alive { return false; }
        fromBlock := toBlock + 1;
      }
      if latest >= head0 {
        FinalTable(paid0, a, fromBlock, head0, latest);
      }
      completed := true;
    }

    /**
     Any number of ticks, each with its own head, crashing at will and restarting from what is stored: a last tick
     that completes at a head not below the others leaves the table of one uninterrupted pass.
     */
    method Life(heads: seq<nat>, rpc: seq<Log>) returns (completed: bool)
      requires Valid() && rpc == history
      modifies this
      ensures Valid()
      ensures completed ==> |heads| > 0
      ensures completed && heads[|heads| - 1] >= old(head) && (forall h :: h in heads ==> heads[|heads| - 1] >= h) ==>
                ExactUpTo(heads[|heads| - 1])
    {
      completed := false;
      for k := 0 to |heads|
        invariant Valid() && (head == old(head) || head in heads[..k])
        invariant completed ==> k > 0
        invariant completed && heads[k - 1] >= old(head) && (forall h :: h in heads[..k] ==> heads[k - 1] >= h) ==>
                    ExactUpTo(heads[k - 1])
      {
        assert heads[..k + 1] == heads[..k] + [heads[k]];
        completed := ScanEvmPaidLogs(heads[k], rpc);
      }
      assert heads[..|heads|] == heads;
    }

    /** The table is what one in-order pass over the logs from the start block up to this head writes. */
    ghost predicate ExactUpTo(latest: int)
      reads this
    {
      ExactlyThePass(paid, history, Below(history, startBlock),
                     if latest < startBlock then Below(history, startBlock) else Below(history, latest + 1))
    }
  }
}
