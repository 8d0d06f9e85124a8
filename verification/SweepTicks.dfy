/**
 Ticks of the sweep node that may overlap: a timer starts them without waiting for the one before, so that scans
 interleave at every await. Each tick's scan is a process of its own over the shared tables.
 */
module SweepTicks {
  import opened Base
  import opened Scanner

  datatype Config = Config(startBlock: nat, overlap: nat, chunk: nat)

  /** A scan between two steps: about to fetch the chunk at `from`, or with its logs in hand, `n` being the next. */
  datatype Scan = AtChunk(from: int, latest: int) | Writing(to: int, latest: int, n: nat)

  /** What is stored, the scans under way, and the highest confirmed head that any scan has used. */
  datatype Node = Node(paid: Paid, cursor: Option<int>, scans: map<nat, Scan>, head: int)

  /** What can happen next; `Stop` is a scan that throws, `Crash` the end of the process. */
  datatype Step =
    | Start(i: nat, latest: nat)
    | Fetch(i: nat)
    | Write(i: nat)
    | Move(i: nat)
    | Stop(i: nat)
    | Crash
    | Reconcile(x: string, token: string, amount: nat, forwarder: string)

  const INITIAL := Node(map[], None, map[], 0)

  function Restart(c: Config, node: Node): int {
    RestartPoint(node.cursor, c.startBlock, c.overlap)
  }

  function ChunkEnd(c: Config, from: int, latest: int): int {
    if from + c.chunk - 1 < latest then from + c.chunk - 1 else latest
  }

  /** One step; a step that is not possible changes nothing. */
  function Do(c: Config, h: seq<Log>, node: Node, step: Step): Node {
    match step
    case Start(i, latest) =>
      if i in node.scans then node
      else node.(head := Max(node.head, latest), scans := node.scans[i := AtChunk(Restart(c, node), latest)])
    case Fetch(i) =>
      if i !in node.scans || !node.scans[i].AtChunk? then node else Fetched(c, h, node, i, node.scans[i])
    case Write(i) =>
      if i !in node.scans || !node.scans[i].Writing? then node else Written(h, node, i, node.scans[i])
    case Move(i) =>
      if i !in node.scans || !node.scans[i].Writing? then node else Moved(h, node, i, node.scans[i])
    case Stop(i) => node.(scans := node.scans - {i})
    case Crash => node.(scans := map[])
    case Reconcile(x, token, amount, forwarder) =>
      if x in node.paid then node else node.(paid := node.paid[x := Reconciled(token, amount, forwarder)])
  }

  /** The logs of the next chunk arrive, or the scan is over. */
  function Fetched(c: Config, h: seq<Log>, node: Node, i: nat, s: Scan): Node
    requires s.AtChunk?
  {
    if s.from > s.latest then node.(scans := node.scans - {i})
    else node.(scans := node.scans[i := Writing(ChunkEnd(c, s.from, s.latest), s.latest, Below(h, s.from))])
  }

  function Written(h: seq<Log>, node: Node, i: nat, s: Scan): Node
    requires s.Writing?
  {
    if s.n >= Below(h, s.to + 1) then node
    else node.(paid := node.paid[h[s.n].invoiceId := FromLog(h[s.n])], scans := node.scans[i := s.(n := s.n + 1)])
  }

  function Moved(h: seq<Log>, node: Node, i: nat, s: Scan): Node
    requires s.Writing?
  {
    if s.n < Below(h, s.to + 1) then node
    else node.(cursor := Some(s.to), scans := node.scans[i := AtChunk(s.to + 1, s.latest)])
  }

  function Run(c: Config, h: seq<Log>, node: Node, steps: seq<Step>): Node {
    if |steps| == 0 then node else Do(c, h, Run(c, h, node, steps[..|steps| - 1]), steps[|steps| - 1])
  }

  // ----- Invariants -----

  /** The log up to which a scan has written. */
  function Progress(h: seq<Log>, s: Scan): (n: nat) {
    if s.AtChunk? then Below(h, s.from) else s.n
  }

  /** A scan under way: every log before the next one has its row, or a later one. */
  ghost predicate ScanIsGood(c: Config, h: seq<Log>, paid: Paid, head: int, s: Scan) {
    && s.latest <= head && Below(h, c.startBlock) <= Progress(h, s) <= |h|
    && AllKept(paid, h, Below(h, c.startBlock), Progress(h, s))
    && (s.AtChunk? ==> c.startBlock <= s.from && (s.from <= s.latest + 1 || s.from == c.startBlock || s.latest < head))
    && (s.Writing? ==> c.startBlock <= s.to <= s.latest && s.n <= Below(h, s.to + 1))
  }

  ghost predicate GoodAt(c: Config, h: seq<Log>, node: Node, i: nat) {
    i in node.scans && ScanIsGood(c, h, node.paid, node.head, node.scans[i])
  }

  ghost predicate Stored(c: Config, h: seq<Log>, node: Node) {
    Safe(h, c.startBlock, c.overlap, node.paid, node.cursor, node.head)
  }

  ghost predicate Inv(c: Config, h: seq<Log>, node: Node) {
    Stored(c, h, node) && forall i :: i in node.scans ==> GoodAt(c, h, node, i)
  }

  predicate Valid(c: Config) {
    c.overlap >= 1 && c.chunk >= 1
  }

  /** Writing log `n` puts no row back that was kept for a log before `m`. */
  ghost predicate Harmless(h: seq<Log>, lo: nat, n: nat, m: nat) {
    n < |h| && m <= |h| && (forall k :: lo <= k < m && h[k].invoiceId == h[n].invoiceId ==> k <= n)
  }

  lemma WriteKeeps(paid: Paid, h: seq<Log>, lo: nat, n: nat, m: nat, m': nat)
    requires Ordered(h) && n < |h| && m <= |h| && m' <= |h| && AllKept(paid, h, lo, m) && Harmless(h, lo, n, m)
    requires m' == m || (m == n && m' == n + 1)
    ensures AllKept(paid[h[n].invoiceId := FromLog(h[n])], h, lo, m')
  {
    forall k | lo <= k < m' ensures Kept(paid[h[n].invoiceId := FromLog(h[n])], h[k]) {
      assert k < m ==> Kept(paid, h[k]);
      assert k < n ==> Before(h[k], h[n]);
    }
  }

  /** A row is replaced by log `n`, which lies in a scanned block. */
  lemma WriteIsGenuine(paid: Paid, h: seq<Log>, lo: nat, n: nat, head: int)
    requires lo <= n < |h| && h[n].block <= head && Genuine(paid, h, lo, head)
    ensures Genuine(paid[h[n].invoiceId := FromLog(h[n])], h, lo, head)
  {
    assert GenuineRow(h, lo, head, h[n].invoiceId, h[n]);
  }

  lemma GoodAtHigherHead(c: Config, h: seq<Log>, paid: Paid, head: int, head': int, s: Scan)
    requires ScanIsGood(c, h, paid, head, s) && head <= head'
    ensures ScanIsGood(c, h, paid, head', s)
  {
  }

  lemma StartKeepsInv(c: Config, h: seq<Log>, node: Node, i: nat, latest: nat)
    requires Ordered(h) && Valid(c) && Inv(c, h, node)
    ensures Inv(c, h, Do(c, h, node, Start(i, latest)))
  {
    var after := Do(c, h, node, Start(i, latest));
    GenuineBelowHigherHead(node.paid, h, Below(h, c.startBlock), node.head, after.head);
    forall j | j in after.scans ensures GoodAt(c, h, after, j) {
      if j in node.scans {
        assert GoodAt(c, h, node, j);
        GoodAtHigherHead(c, h, node.paid, node.head, after.head, node.scans[j]);
      }
    }
  }

  lemma FetchKeepsInv(c: Config, h: seq<Log>, node: Node, i: nat)
    requires Ordered(h) && Valid(c) && Inv(c, h, node)
    ensures Inv(c, h, Do(c, h, node, Fetch(i)))
  {
    var after := Do(c, h, node, Fetch(i));
    forall j | j in after.scans ensures GoodAt(c, h, after, j) {
      assert GoodAt(c, h, node, j);
      if j == i && node.scans[i].AtChunk? {
        var s := node.scans[i];
        BelowMonotone(h, s.from, ChunkEnd(c, s.from, s.latest) + 1);
      }
    }
  }

  lemma MoveKeepsInv(c: Config, h: seq<Log>, node: Node, i: nat)
    requires Ordered(h) && Valid(c) && Inv(c, h, node)
    ensures Inv(c, h, Do(c, h, node, Move(i)))
  {
    var after := Do(c, h, node, Move(i));
    if i in node.scans && node.scans[i].Writing? && node.scans[i].n >= Below(h, node.scans[i].to + 1) {
      assert GoodAt(c, h, node, i);
      BelowMonotone(h, Restart(c, after), node.scans[i].to + 1);
      BelowMonotone(h, c.startBlock, Restart(c, after));
    }
    forall j | j in after.scans ensures GoodAt(c, h, after, j) {
      assert GoodAt(c, h, node, j);
    }
  }

  lemma ReconcileKeepsInv(c: Config, h: seq<Log>, node: Node, x: string, row: PaidRow)
    requires Inv(c, h, node) && x !in node.paid && row.Reconciled?
    ensures Inv(c, h, node.(paid := node.paid[x := row]))
  {
    var after := node.(paid := node.paid[x := row]);
    forall j | j in after.scans ensures GoodAt(c, h, after, j) {
      assert GoodAt(c, h, node, j);
    }
    assert Genuine(after.paid, h, Below(h, c.startBlock), node.head);
  }

  /** Whatever has been passed, by this scan or another or by the cursor, keeps its rows when scan `i` writes. */
  ghost predicate WriteIsHarmless(c: Config, h: seq<Log>, node: Node, n: nat) {
    && n < |h|
    && var lo := Below(h, c.startBlock);
       && Harmless(h, lo, n, Below(h, Restart(c, node)))
       && forall j :: j in node.scans ==> HarmlessAt(h, lo, n, node, j)
  }

  ghost predicate HarmlessAt(h: seq<Log>, lo: nat, n: nat, node: Node, j: nat) {
    n < |h| && j in node.scans && Progress(h, node.scans[j]) <= |h| && Harmless(h, lo, n, Progress(h, node.scans[j]))
  }

  lemma WriteKeepsInv(c: Config, h: seq<Log>, node: Node, i: nat)
    requires Ordered(h) && Inv(c, h, node) && Writes(h, node, i) && WriteIsHarmless(c, h, node, node.scans[i].n)
    ensures Inv(c, h, Do(c, h, node, Write(i)))
  {
    var after, lo, n := Do(c, h, node, Write(i)), Below(h, c.startBlock), node.scans[i].n;
    assert GoodAt(c, h, node, i);
    BelowSplits(h, node.scans[i].to + 1);
    WriteIsGenuine(node.paid, h, lo, n, node.head);
    WriteKeeps(node.paid, h, lo, n, Below(h, Restart(c, node)), Below(h, Restart(c, node)));
    forall j | j in after.scans ensures GoodAt(c, h, after, j) {
      assert GoodAt(c, h, node, j) && HarmlessAt(h, lo, n, node, j);
      WriteKeeps(node.paid, h, lo, n, Progress(h, node.scans[j]), Progress(h, after.scans[j]));
    }
  }

  predicate Writes(h: seq<Log>, node: Node, i: nat) {
    i in node.scans && node.scans[i].Writing? && node.scans[i].n < Below(h, node.scans[i].to + 1)
  }

  /** The step writes no log, or one whose writing is harmless. */
  ghost predicate HarmlessStep(c: Config, h: seq<Log>, node: Node, step: Step) {
    step.Write? && Writes(h, node, step.i) ==> WriteIsHarmless(c, h, node, node.scans[step.i].n)
  }

  lemma StepKeepsInv(c: Config, h: seq<Log>, node: Node, step: Step)
    requires Ordered(h) && Valid(c) && Inv(c, h, node) && HarmlessStep(c, h, node, step)
    ensures Inv(c, h, Do(c, h, node, step))
  {
    match step
    case Start(i, latest) => StartKeepsInv(c, h, node, i, latest);
    case Fetch(i) => FetchKeepsInv(c, h, node, i);
    case Write(i) =>
      if Do(c, h, node, step) != node { WriteKeepsInv(c, h, node, i); }
    case Move(i) => MoveKeepsInv(c, h, node, i);
    case Stop(i) => FewerScans(c, h, node, node.scans - {i});
    case Crash => FewerScans(c, h, node, map[]);
    case Reconcile(x, token, amount, forwarder) =>
      if x !in node.paid { ReconcileKeepsInv(c, h, node, x, Reconciled(token, amount, forwarder)); }
  }

  lemma FewerScans(c: Config, h: seq<Log>, node: Node, scans: map<nat, Scan>)
    requires Inv(c, h, node) && forall i :: i in scans ==> i in node.scans && scans[i] == node.scans[i]
    ensures Inv(c, h, node.(scans := scans))
  {
    forall i | i in scans ensures GoodAt(c, h, node.(scans := scans), i) {
      assert GoodAt(c, h, node, i);
    }
  }

  /** What one wants of a state: it may be picked up after a crash, and a scan that is over left exactly the pass. */
  ghost predicate Good(c: Config, h: seq<Log>, node: Node) {
    Stored(c, h, node) && forall i :: i in node.scans ==> ExactIfOver(c, h, node, i)
  }

  ghost predicate ExactIfOver(c: Config, h: seq<Log>, node: Node, i: nat) {
    && i in node.scans
    && var s, lo := node.scans[i], Below(h, c.startBlock);
       s.AtChunk? && s.from > s.latest >= node.head ==>
         ExactlyThePass(node.paid, h, lo, if s.latest < c.startBlock then lo else Below(h, s.latest + 1))
  }

  lemma InvIsGood(c: Config, h: seq<Log>, node: Node)
    requires Ordered(h) && Inv(c, h, node)
    ensures Good(c, h, node)
  {
    forall i | i in node.scans ensures ExactIfOver(c, h, node, i) {
      assert GoodAt(c, h, node, i);
      var s, lo := node.scans[i], Below(h, c.startBlock);
      if s.AtChunk? && s.from > s.latest >= node.head {
        BelowSplits(h, s.from);
        RescanIsExact(node.paid, h, lo, Below(h, s.from), Below(h, s.from), node.head);
        assert node.paid + Pass(h, Below(h, s.from), Below(h, s.from)) == node.paid;
      }
    }
  }

  // ----- Ticks that do not overlap -----

  /** No scan starts before the one before it has ended. */
  ghost predicate OneAfterTheOther(c: Config, h: seq<Log>, steps: seq<Step>) {
    if |steps| == 0 then true
    else
      && OneAfterTheOther(c, h, steps[..|steps| - 1])
      && (steps[|steps| - 1].Start? ==> Run(c, h, INITIAL, steps[..|steps| - 1]).scans == map[])
  }

  /** At most one scan is under way, and it has passed the restart point. */
  ghost predicate Alone(c: Config, h: seq<Log>, node: Node) {
    && (forall i, j :: i in node.scans && j in node.scans ==> i == j)
    && (forall i :: i in node.scans ==> Below(h, Restart(c, node)) <= Progress(h, node.scans[i]))
  }

  lemma AloneStaysAlone(c: Config, h: seq<Log>, node: Node, step: Step)
    requires Ordered(h) && Valid(c) && Inv(c, h, node) && Alone(c, h, node)
    requires step.Start? ==> node.scans == map[]
    ensures Alone(c, h, Do(c, h, node, step)) && HarmlessStep(c, h, node, step)
  {
    var after := Do(c, h, node, step);
    forall i | i in after.scans ensures Below(h, Restart(c, after)) <= Progress(h, after.scans[i]) {
      if i in node.scans {
        assert GoodAt(c, h, node, i);
        if step.Move? && after != node { BelowMonotone(h, Restart(c, after), after.scans[i].from); }
      }
    }
  }

  lemma {:induction false} OneAfterTheOtherKeeps(c: Config, h: seq<Log>, steps: seq<Step>)
    requires Ordered(h) && Valid(c) && OneAfterTheOther(c, h, steps)
    ensures Inv(c, h, Run(c, h, INITIAL, steps)) && Alone(c, h, Run(c, h, INITIAL, steps))
  {
    if |steps| > 0 {
      OneAfterTheOtherKeeps(c, h, steps[..|steps| - 1]);
      var before := Run(c, h, INITIAL, steps[..|steps| - 1]);
      AloneStaysAlone(c, h, before, steps[|steps| - 1]);
      StepKeepsInv(c, h, before, steps[|steps| - 1]);
    }
  }

  /** As long as no scan starts before the one before it has ended, every state of every run is good. */
  lemma TicksInTurnAreGood(c: Config, h: seq<Log>, steps: seq<Step>)
    requires Ordered(h) && Valid(c) && OneAfterTheOther(c, h, steps)
    ensures Good(c, h, Run(c, h, INITIAL, steps))
  {
    OneAfterTheOtherKeeps(c, h, steps);
    InvIsGood(c, h, Run(c, h, INITIAL, steps));
  }

  // ----- Ticks that overlap -----

  /** No invoice has two logs from the start block on. */
  ghost predicate NoInvoiceTwice(h: seq<Log>, lo: nat) {
    forall i, j :: lo <= i < j < |h| ==> h[i].invoiceId != h[j].invoiceId
  }

  lemma {:induction false} SingleLogsKeepInv(c: Config, h: seq<Log>, steps: seq<Step>)
    requires Ordered(h) && Valid(c) && NoInvoiceTwice(h, Below(h, c.startBlock))
    ensures Inv(c, h, Run(c, h, INITIAL, steps))
  {
    if |steps| > 0 {
      SingleLogsKeepInv(c, h, steps[..|steps| - 1]);
      var before, step := Run(c, h, INITIAL, steps[..|steps| - 1]), steps[|steps| - 1];
      if step.Write? && Writes(h, before, step.i) {
        assert GoodAt(c, h, before, step.i);
        forall j | j in before.scans ensures HarmlessAt(h, Below(h, c.startBlock), before.scans[step.i].n, before, j) {
          assert GoodAt(c, h, before, j);
        }
      }
      StepKeepsInv(c, h, before, step);
    }
  }

  lemma {:induction false} RunSplits(c: Config, h: seq<Log>, node: Node, a: seq<Step>, b: seq<Step>)
    ensures Run(c, h, node, a + b) == Run(c, h, Run(c, h, node, a), b)
  {
    if |b| == 0 {
      assert a + b == a;
    } else {
      RunSplits(c, h, node, a, b[..|b| - 1]);
      assert (a + b)[..|a + b| - 1] == a + b[..|b| - 1];
    }
  }

  lemma RunOneMore(c: Config, h: seq<Log>, node: Node, a: seq<Step>, step: Step)
    ensures Run(c, h, node, a + [step]) == Do(c, h, Run(c, h, node, a), step)
  {
    assert (a + [step])[..|a|] == a;
  }

  /** The state after scan `i`, with the logs of a chunk in hand, has written them up to `m`. */
  function WrittenTo(h: seq<Log>, node: Node, i: nat, m: nat): Node
    requires i in node.scans && node.scans[i].Writing? && m <= |h|
  {
    node.(paid := node.paid + Pass(h, node.scans[i].n, m), scans := node.scans[i := node.scans[i].(n := m)])
  }

  lemma {:induction false} WriteLogs(c: Config, h: seq<Log>, node: Node, i: nat, m: nat) returns (run: seq<Step>)
    requires i in node.scans && node.scans[i].Writing? && node.scans[i].n <= m <= Below(h, node.scans[i].to + 1)
    ensures Run(c, h, node, run) == WrittenTo(h, node, i, m)
  {
    if m == node.scans[i].n {
      run := [];
      assert node.scans[i := node.scans[i]] == node.scans;
      assert node.paid + Pass(h, m, m) == node.paid;
    } else {
      var before := WriteLogs(c, h, node, i, m - 1);
      run := before + [Write(i)];
      RunOneMore(c, h, node, before, Write(i));
      var n := node.scans[i].n;
      assert node.paid + Pass(h, n, m) == (node.paid + Pass(h, n, m - 1))[h[m - 1].invoiceId := FromLog(h[m - 1])];
    }
  }

  /** The state after scan `i` has dealt with the blocks before `next`. */
  function ScannedTo(h: seq<Log>, node: Node, i: nat, next: int): Node
    requires i in node.scans && node.scans[i].AtChunk?
  {
    var s := node.scans[i];
    node.(paid := node.paid + Pass(h, Below(h, s.from), Below(h, next)),
          cursor := if next == s.from then node.cursor else Some(next - 1),
          scans := node.scans[i := AtChunk(next, s.latest)])
  }

  lemma ScannedFurther(h: seq<Log>, node: Node, i: nat, mid: int, next: int)
    requires Ordered(h) && i in node.scans && node.scans[i].AtChunk? && node.scans[i].from <= mid <= next
    ensures ScannedTo(h, ScannedTo(h, node, i, mid), i, next) == ScannedTo(h, node, i, next)
  {
    var from := node.scans[i].from;
    BelowMonotone(h, from, mid);
    BelowMonotone(h, mid, next);
    PassSplits(h, Below(h, from), Below(h, mid), Below(h, next));
    PassAdds(node.paid, h, Below(h, from), Below(h, mid), Below(h, next));
  }

  lemma PassAdds(paid: Paid, h: seq<Log>, a: nat, m: nat, n: nat)
    requires a <= m <= n <= |h|
    ensures paid + Pass(h, a, m) + Pass(h, m, n) == paid + Pass(h, a, n)
  {
    PassSplits(h, a, m, n);
  }

  lemma ScanOneChunk(c: Config, h: seq<Log>, node: Node, i: nat) returns (run: seq<Step>)
    requires Ordered(h) && c.chunk >= 1 && i in node.scans && node.scans[i].AtChunk?
    requires node.scans[i].from <= node.scans[i].latest
    ensures Run(c, h, node, run) == ScannedTo(h, node, i, ChunkEnd(c, node.scans[i].from, node.scans[i].latest) + 1)
  {
    var to := ChunkEnd(c, node.scans[i].from, node.scans[i].latest);
    BelowMonotone(h, node.scans[i].from, to + 1);
    var fetched := Do(c, h, node, Fetch(i));
    var writes := WriteLogs(c, h, fetched, i, Below(h, to + 1));
    run := [Fetch(i)] + writes + [Move(i)];
    RunOneMore(c, h, node, [], Fetch(i));
    RunSplits(c, h, node, [Fetch(i)], writes);
    RunOneMore(c, h, node, [Fetch(i)] + writes, Move(i));
  }

  /** A scan alone gets to the chunk of any block that it is to scan. */
  lemma {:induction false} ScanTo(c: Config, h: seq<Log>, node: Node, i: nat, block: int)
    returns (run: seq<Step>, next: int)
    requires Ordered(h) && c.chunk >= 1 && i in node.scans && node.scans[i].AtChunk?
    requires node.scans[i].from <= block <= node.scans[i].latest
    ensures node.scans[i].from <= next <= block <= ChunkEnd(c, next, node.scans[i].latest)
    ensures Run(c, h, node, run) == ScannedTo(h, node, i, next)
    decreases block - node.scans[i].from
  {
    var from, to := node.scans[i].from, ChunkEnd(c, node.scans[i].from, node.scans[i].latest);
    if block <= to {
      run, next := [], from;
      PassAdds(node.paid, h, Below(h, from), Below(h, from), Below(h, from));
      assert ScannedTo(h, node, i, from) == node;
    } else {
      var first := ScanOneChunk(c, h, node, i);
      var mid := ScannedTo(h, node, i, to + 1);
      var rest;
      rest, next := ScanTo(c, h, mid, i, block);
      run := first + rest;
      RunSplits(c, h, node, first, rest);
      ScannedFurther(h, node, i, to + 1, next);
    }
  }

  /** What a tick leaves that nothing interrupts or interleaves with. */
  function Ticked(c: Config, h: seq<Log>, node: Node, latest: nat): Node {
    var from := Restart(c, node);
    if latest < from then node.(head := Max(node.head, latest))
    else
      node.(paid := node.paid + Pass(h, Below(h, from), Below(h, latest + 1)),
            cursor := Some(latest), head := Max(node.head, latest))
  }

  lemma WholeTick(c: Config, h: seq<Log>, node: Node, i: nat, latest: nat) returns (run: seq<Step>)
    requires Ordered(h) && c.chunk >= 1 && i !in node.scans
    ensures Run(c, h, node, run) == Ticked(c, h, node, latest)
  {
    var started := Do(c, h, node, Start(i, latest));
    var scan := [];
    var over := started;
    if Restart(c, node) <= latest {
      scan, over := ScanToTheEnd(c, h, started, i);
    }
    run := [Start(i, latest)] + scan + [Fetch(i)];
    RunOneMore(c, h, node, [], Start(i, latest));
    RunSplits(c, h, node, [Start(i, latest)], scan);
    RunOneMore(c, h, node, [Start(i, latest)] + scan, Fetch(i));
    assert over.scans - {i} == node.scans;
  }

  lemma ScanToTheEnd(c: Config, h: seq<Log>, node: Node, i: nat) returns (run: seq<Step>, over: Node)
    requires Ordered(h) && c.chunk >= 1 && i in node.scans && node.scans[i].AtChunk?
    requires node.scans[i].from <= node.scans[i].latest
    ensures over == ScannedTo(h, node, i, node.scans[i].latest + 1) == Run(c, h, node, run)
  {
    var latest := node.scans[i].latest;
    var first, next := ScanTo(c, h, node, i, latest);
    var last := ScanOneChunk(c, h, ScannedTo(h, node, i, next), i);
    run, over := first + last, ScannedTo(h, node, i, latest + 1);
    RunSplits(c, h, node, first, last);
    ScannedFurther(h, node, i, next, latest + 1);
  }

  /** Two logs of one invoice, neither before the start block. */
  ghost predicate Twice(c: Config, h: seq<Log>, a: nat, b: nat) {
    a < b < |h| && h[a].invoiceId == h[b].invoiceId && c.startBlock <= h[a].block
  }

  /**
   Two ticks overlap: the first waits in the chunk of the earlier log while the second scans up to `latest`, then it
   writes the earlier log over the later one, and the process ends before it moves the cursor.
   */
  lemma OverlapWritesBack(c: Config, h: seq<Log>, a: nat, b: nat, latest: nat) returns (run: seq<Step>)
    requires Ordered(h) && Valid(c) && Twice(c, h, a, b) && h[b].block + c.overlap <= latest
    ensures var node := Run(c, h, INITIAL, run);
            && node.scans == map[] && node.cursor == Some(latest) && node.head == latest
            && h[a].invoiceId in node.paid && node.paid[h[a].invoiceId] == FromLog(h[a])
  {
    var block := h[a].block;
    assert Before(h[a], h[b]);
    var started := Do(c, h, INITIAL, Start(0, block));
    var first, next := ScanTo(c, h, started, 0, block);
    var waiting := ScannedTo(h, started, 0, next);
    var second := WholeTick(c, h, waiting, 1, latest);
    var passed := Ticked(c, h, waiting, latest);
    var back := WriteUpTo(c, h, passed, 0, a);
    var stages := [Start(0, block)] + first + second + back;
    RunOneMore(c, h, INITIAL, [], Start(0, block));
    RunSplits(c, h, INITIAL, [Start(0, block)], first);
    RunSplits(c, h, INITIAL, [Start(0, block)] + first, second);
    RunSplits(c, h, INITIAL, [Start(0, block)] + first + second, back);
    run := stages + [Crash];
    RunOneMore(c, h, INITIAL, stages, Crash);
  }

  /** A scan that waits in the chunk of a log writes it last. */
  lemma WriteUpTo(c: Config, h: seq<Log>, node: Node, i: nat, a: nat) returns (run: seq<Step>)
    requires Ordered(h) && a < |h| && i in node.scans && node.scans[i].AtChunk?
    requires node.scans[i].from <= h[a].block <= ChunkEnd(c, node.scans[i].from, node.scans[i].latest)
    requires node.scans[i].from <= node.scans[i].latest
    ensures var after := Run(c, h, node, run);
            && after.cursor == node.cursor && after.head == node.head
            && h[a].invoiceId in after.paid && after.paid[h[a].invoiceId] == FromLog(h[a])
  {
    var to := ChunkEnd(c, node.scans[i].from, node.scans[i].latest);
    BelowSplits(h, node.scans[i].from);
    BelowSplits(h, to + 1);
    var writes := WriteLogs(c, h, Do(c, h, node, Fetch(i)), i, a + 1);
    run := [Fetch(i)] + writes;
    RunOneMore(c, h, node, [], Fetch(i));
    RunSplits(c, h, node, [Fetch(i)], writes);
  }

  /** One whole tick after the other, at these heads. */
  function TickedAll(c: Config, h: seq<Log>, node: Node, heads: seq<nat>): Node {
    if |heads| == 0 then node else Ticked(c, h, TickedAll(c, h, node, heads[..|heads| - 1]), heads[|heads| - 1])
  }

  /** Ticks from a cursor that has left a log behind do not read it again, nor touch its invoice's row. */
  lemma {:induction false} LeftBehind(c: Config, h: seq<Log>, node: Node, heads: seq<nat>, b: nat, latest: nat)
    requires Ordered(h) && b < |h| && h[b].block + c.overlap <= latest && node.cursor == Some(latest)
    requires forall k :: b < k < |h| ==> h[k].invoiceId != h[b].invoiceId
    requires forall k :: 0 <= k < |heads| ==> latest <= heads[k]
    requires h[b].invoiceId in node.paid
    ensures var after := TickedAll(c, h, node, heads);
            && after.cursor.Some? && latest <= after.cursor.value
            && h[b].invoiceId in after.paid && after.paid[h[b].invoiceId] == node.paid[h[b].invoiceId]
  {
    if |heads| > 0 {
      var front, head := heads[..|heads| - 1], heads[|heads| - 1];
      LeftBehind(c, h, node, front, b, latest);
      var before := TickedAll(c, h, node, front);
      var from := Restart(c, before);
      BelowSplits(h, from);
      var _ := PassHoldsLastLogs(h, Below(h, from), Below(h, head + 1), h[b].invoiceId);
    }
  }

  /**
   For any two logs of one invoice there is a run of two overlapping ticks that leaves the earlier log's row, with the
   restart point above both; if the later log is the invoice's last, no number of later ticks repairs the row.
   */
  lemma OverlappingTicksLoseALog(c: Config, h: seq<Log>, a: nat, b: nat, latest: nat) returns (run: seq<Step>)
    requires Ordered(h) && Valid(c) && Twice(c, h, a, b) && h[b].block + c.overlap <= latest
    ensures !Good(c, h, Run(c, h, INITIAL, run))
    ensures (forall k :: b < k < |h| ==> h[k].invoiceId != h[b].invoiceId) ==>
              forall heads: seq<nat> :: (forall k :: 0 <= k < |heads| ==> latest <= heads[k]) ==>
                RowIs(TickedAll(c, h, Run(c, h, INITIAL, run), heads), h[a])
  {
    run := OverlapWritesBack(c, h, a, b, latest);
    var node := Run(c, h, INITIAL, run);
    NotKeptIsNotStored(c, h, node, a, b);
    if forall k :: b < k < |h| ==> h[k].invoiceId != h[b].invoiceId {
      forall heads: seq<nat> | forall k :: 0 <= k < |heads| ==> latest <= heads[k]
        ensures RowIs(TickedAll(c, h, node, heads), h[a])
      {
        LeftBehind(c, h, node, heads, b, latest);
      }
    }
  }

  predicate RowIs(node: Node, l: Log) {
    l.invoiceId in node.paid && node.paid[l.invoiceId] == FromLog(l)
  }

  lemma NotKeptIsNotStored(c: Config, h: seq<Log>, node: Node, a: nat, b: nat)
    requires Ordered(h) && Twice(c, h, a, b) && RowIs(node, h[a]) && h[b].block < Restart(c, node)
    ensures !Stored(c, h, node)
  {
    assert Before(h[a], h[b]) && !Kept(node.paid, h[b]);
    BelowSplits(h, c.startBlock);
    BelowSplits(h, Restart(c, node));
  }

  /** Every state of every run, overlapping ticks included, is good exactly if no invoice has two logs. */
  lemma EveryRunIsGoodIff(c: Config, h: seq<Log>)
    requires Ordered(h) && Valid(c)
    ensures (forall steps :: Good(c, h, Run(c, h, INITIAL, steps))) <==> NoInvoiceTwice(h, Below(h, c.startBlock))
  {
    var lo := Below(h, c.startBlock);
    if NoInvoiceTwice(h, lo) {
      forall steps ensures Good(c, h, Run(c, h, INITIAL, steps)) {
        SingleLogsKeepInv(c, h, steps);
        InvIsGood(c, h, Run(c, h, INITIAL, steps));
      }
    } else {
      var a, b :| lo <= a < b < |h| && h[a].invoiceId == h[b].invoiceId;
      BelowSplits(h, c.startBlock);
      var run := OverlappingTicksLoseALog(c, h, a, b, h[b].block + c.overlap);
    }
  }

  // ----- The start block -----

  /** However many ticks, an invoice paid only in the start block gets its row exactly if there is an overlap. */
  lemma {:induction false} StartBlockIsReadIff(c: Config, h: seq<Log>, heads: seq<nat>, k: nat)
    requires Ordered(h) && k < |h| && h[k].block == c.startBlock && |heads| > 0
    requires forall i :: 0 <= i < |h| && i != k ==> h[i].invoiceId != h[k].invoiceId
    requires forall i :: 0 <= i < |heads| ==> c.startBlock <= heads[i]
    ensures h[k].invoiceId in TickedAll(c, h, INITIAL, heads).paid <==> c.overlap >= 1
    ensures var cursor := TickedAll(c, h, INITIAL, heads).cursor; cursor.Some? ==> c.startBlock <= cursor.value
  {
    var front, head := heads[..|heads| - 1], heads[|heads| - 1];
    if |front| > 0 { StartBlockIsReadIff(c, h, front, k); }
    var from := Restart(c, TickedAll(c, h, INITIAL, front));
    BelowSplits(h, from);
    BelowSplits(h, head + 1);
    if from <= head {
      BelowMonotone(h, from, head + 1);
      var _ := PassHoldsLastLogs(h, Below(h, from), Below(h, head + 1), h[k].invoiceId);
    }
  }
}
