/**
 Any number of bundler workers driving one user operation through the queue.

 Each HTTP attempt is one step: the server executes the call on the row at once, or not at all, and the worker
 sees the answer, a 5xx status, or an exception. A worker keeps the version it will send next: learned from a
 claim or a 409 answer, or, for the final report, guessed as the claimed version plus one.
 */
module BundlerProtocol {
  import opened Base
  import opened Lease
  import Q = UserOpQueue

  /** Where one worker stands in processing the operation; `left` counts the attempts its retry loop still has. */
  datatype Phase =
    | Idle
    | Checking(seen: int)
    | Rejecting(reason: string, expected: Option<int>, left: nat)
    | Claiming(version: int, left: nat)
    | Submitting(claimed: int, expected: Option<int>, left: nat)
    | Sending(claimed: int)
    | Reporting(outcome: Outcome, expected: Option<int>, left: nat)

  /** What the receipt of handleOps said. */
  datatype Outcome = Outcome(success: bool, txHash: string, gasSpent: Option<string>)

  datatype Worker = Worker(maxRetries: nat, phase: Phase)

  datatype System = System(row: Option<Q.UserOp>, now: int, workers: map<string, Worker>)

  /** How one attempt ends: answered, a 5xx answer, or a fetch that throws; the server may have executed it or not. */
  datatype Fate = Answered | ServerError(executed: bool) | Broken(executed: bool)

  datatype Step =
    | Tick(ms: nat)
    | Enqueue(wallet: string, chainId: string, userOp: string)
    | Requeue(wallet: string, chainId: string, userOp: string)
    | Listed(who: string)
    | Refuse(who: string, reason: string)
    | Proceed(who: string)
    | Abandon(who: string)
    | Attempt(who: string, leaseMs: nat, fate: Fate)
    | Mined(who: string, outcome: Outcome)

  function SetPhase(s: System, who: string, phase: Phase): (s': System)
    requires who in s.workers
    ensures s'.workers.Keys == s.workers.Keys
  {
    s.(workers := s.workers[who := s.workers[who].(phase := phase)])
  }

  // ----- The calls a worker makes -----

  predicate Tracks(phase: Phase) {
    phase.Rejecting? || phase.Submitting? || phase.Reporting?
  }

  function PatchOf(phase: Phase): Q.Patch
    requires Tracks(phase)
  {
    match phase
    case Rejecting(reason, _, _) => Q.Patch(Some(Q.Rejected), None, Some(reason), None)
    case Submitting(_, _, _) => Q.Patch(Some(Q.Submitted), None, None, None)
    case Reporting(o, _, _) =>
      Q.Patch(Some(if o.success then Q.Included else Q.Failed), Some(o.txHash),
              if o.success then None else Some("execution_reverted"), o.gasSpent)
  }

  /** The server's answer to the call that a worker in this phase sends. */
  function Request(row: Option<Q.UserOp>, who: string, phase: Phase, leaseMs: nat, now: int): Q.Reply
    requires phase.Claiming? || Tracks(phase)
  {
    if phase.Claiming? then Q.Claim(row, who, phase.version, leaseMs, now)
    else Q.Track(row, PatchOf(phase), phase.expected, Some(who))
  }

  /** Where trackWithRetry leads once it stops trying, whatever it returned. */
  function Onward(phase: Phase): Phase
    requires Tracks(phase)
  {
    if phase.Submitting? then Sending(phase.claimed) else Idle
  }

  /** What the worker does with an answer. */
  function Digest(phase: Phase, maxRetries: nat, reply: Q.Reply): Phase
    requires (phase.Claiming? || Tracks(phase)) && phase.left > 0
  {
    match reply
    case NotFound => Idle
    case Done(row) =>
      if phase.Claiming? then Submitting(row.version, Some(row.version), maxRetries) else Onward(phase)
    case Conflict(current) =>
      if phase.Claiming? then
        if current.None? || current.value.status == Q.Included then Idle
        else phase.(version := current.value.version, left := phase.left - 1)
      else if current.Some? && current.value.status == Q.Included then Onward(phase)
      else phase.(expected := if current.Some? then Some(current.value.version) else None, left := phase.left - 1)
  }

  function AttemptStep(s: System, who: string, leaseMs: nat, fate: Fate): System
    requires who in s.workers && (s.workers[who].phase.Claiming? || Tracks(s.workers[who].phase))
  {
    var w := s.workers[who];
    if w.phase.left == 0 then SetPhase(s, who, if Tracks(w.phase) then Onward(w.phase) else Idle)
    else
      var reply := Request(s.row, who, w.phase, leaseMs, s.now);
      var executed := s.(row := Q.After(s.row, reply));
      match fate
      case Answered => SetPhase(executed, who, Digest(w.phase, w.maxRetries, reply))
      case ServerError(done) =>
        SetPhase(if done then executed else s, who, w.phase.(left := w.phase.left - 1))
      case Broken(done) => SetPhase(if done then executed else s, who, Idle)
  }

  /** Steps that do not apply leave the system as it is. */
  function Next(s: System, step: Step): (s': System)
    ensures s'.workers.Keys == s.workers.Keys
  {
    match step
    case Tick(ms) => s.(now := s.now + ms)
    case Enqueue(w, c, u) => s.(row := Q.After(s.row, Q.Create(s.row, w, c, u)))
    case Requeue(w, c, u) => s.(row := Q.After(s.row, Q.Requeue(s.row, w, c, u)))
    case Listed(who) =>
      if who in s.workers && s.workers[who].phase.Idle? && s.row.Some? && s.row.value.status in {Q.Pending, Q.Claimed}
      then SetPhase(s, who, Checking(s.row.value.version)) else s
    case Refuse(who, reason) =>
      if who in s.workers && s.workers[who].phase.Checking?
      then SetPhase(s, who, Rejecting(reason, Some(s.workers[who].phase.seen), s.workers[who].maxRetries)) else s
    case Proceed(who) =>
      if who in s.workers && s.workers[who].phase.Checking?
      then SetPhase(s, who, Claiming(s.workers[who].phase.seen, s.workers[who].maxRetries)) else s
    case Abandon(who) => if who in s.workers then SetPhase(s, who, Idle) else s
    case Attempt(who, leaseMs, fate) =>
      if who in s.workers && (s.workers[who].phase.Claiming? || Tracks(s.workers[who].phase))
      then AttemptStep(s, who, leaseMs, fate) else s
    case Mined(who, outcome) =>
      if who in s.workers && s.workers[who].phase.Sending?
      then SetPhase(s, who, Reporting(outcome, Some(s.workers[who].phase.claimed + 1), s.workers[who].maxRetries))
      else s
  }

  function Run(s: System, steps: seq<Step>): (s': System)
    ensures s'.workers.Keys == s.workers.Keys
  {
    if |steps| == 0 then s else Next(Run(s, steps[..|steps| - 1]), steps[|steps| - 1])
  }

  // ----- The invariant -----

  /** The assumption: no two workers sign with the same address. */
  ghost predicate DistinctAddresses(s: System) {
    && "" !in s.workers
    && forall a, b :: a in s.workers && b in s.workers && Lower(a) == Lower(b) ==> a == b
  }

  predicate Mine(row: Q.UserOp, who: string) {
    row.status == Q.Claimed && row.claimedBy == Some(Lower(who))
  }

  /** A version that is spent, or current and not the version of an included row. */
  predicate Harmless(row: Q.UserOp, version: int) {
    version <= row.version && (version == row.version ==> row.status != Q.Included)
  }

  /** What a worker knows after its claim: the row is still its own claim, or its claim is spent. */
  predicate AfterClaim(row: Q.UserOp, who: string, claimed: int) {
    && claimed <= row.version
    && (claimed == row.version ==> Mine(row, who))
    && (claimed + 1 == row.version ==> row.status != Q.Included)
  }

  predicate Knows(row: Q.UserOp, who: string, phase: Phase) {
    match phase
    case Idle => true
    case Checking(seen) => Harmless(row, seen)
    case Rejecting(_, e, _) => e.Some? && Harmless(row, e.value)
    case Claiming(_, _) => true
    case Submitting(c, e, _) => AfterClaim(row, who, c) && e.Some? && Harmless(row, e.value)
    case Sending(c) => AfterClaim(row, who, c)
    case Reporting(_, e, _) => e.Some? && (Harmless(row, e.value) || (e.value == row.version + 1 && Mine(row, who)))
  }

  ghost predicate Inv(s: System) {
    && DistinctAddresses(s)
    && (s.row.None? ==> forall w :: w in s.workers ==> s.workers[w].phase.Idle?)
    && (s.row.Some? ==> forall w :: w in s.workers ==> Knows(s.row.value, w, s.workers[w].phase))
    && (s.row.Some? && s.row.value.status == Q.Included ==> s.row.value.txHash.Some?)
  }

  ghost predicate Start(s: System) {
    && DistinctAddresses(s)
    && s.row.None?
    && forall w :: w in s.workers ==> s.workers[w].phase.Idle?
  }

  /** A write: one version up, never over an included row, never `Included` in one step over a foreign claim. */
  ghost predicate GoodWrite(row: Q.UserOp, row': Q.UserOp, byOthersThan: string) {
    || row' == row
    || (row'.version == row.version + 1 && row.status != Q.Included &&
        (Mine(row, byOthersThan) ==> row'.status != Q.Included))
  }

  lemma KnowledgeSurvives(row: Q.UserOp, row': Q.UserOp, who: string, phase: Phase)
    requires Knows(row, who, phase) && GoodWrite(row, row', who)
    ensures Knows(row', who, phase)
  {
  }

  /** A worker's request never writes at a version whose status is included, not even the guessed one. */
  lemma RequestIsGood(s: System, who: string, leaseMs: nat, other: string)
    requires Inv(s) && s.row.Some? && who in s.workers
    requires s.workers[who].phase.Claiming? || Tracks(s.workers[who].phase)
    requires other in s.workers && other != who
    ensures GoodWrite(
              s.row.value, Q.After(s.row, Request(s.row, who, s.workers[who].phase, leaseMs, s.now)).value, other)
  {
    var phase := s.workers[who].phase;
    assert Knows(s.row.value, who, phase);
    assert Lower(who) != Lower(other);
  }

  /** A worker digests any answer into knowledge it may hold in the row that the call left. */
  lemma DigestIsSafe(row: Q.UserOp, who: string, w: Worker, leaseMs: nat, now: int)
    requires who != "" && Knows(row, who, w.phase)
    requires (w.phase.Claiming? || Tracks(w.phase)) && w.phase.left > 0
    ensures var reply := Request(Some(row), who, w.phase, leaseMs, now);
            Knows(Q.After(Some(row), reply).value, who, Digest(w.phase, w.maxRetries, reply))
  {
  }

  /** The same holds when the answer is lost and the worker knows only what it knew before. */
  lemma LostAnswerIsSafe(row: Q.UserOp, who: string, phase: Phase, leaseMs: nat, now: int)
    requires who != "" && Knows(row, who, phase)
    requires phase.Claiming? || Tracks(phase)
    ensures var row' := Q.After(Some(row), Request(Some(row), who, phase, leaseMs, now)).value;
            && Knows(row', who, phase)
            && (row' == row || (row.status != Q.Included && row'.version == row.version + 1))
            && (row'.status == Q.Included && row' != row ==> row'.txHash.Some?)
  {
  }

  lemma OwnAttempt(s: System, who: string, leaseMs: nat, fate: Fate)
    requires Inv(s) && s.row.Some? && who in s.workers
    requires s.workers[who].phase.Claiming? || Tracks(s.workers[who].phase)
    ensures var s' := AttemptStep(s, who, leaseMs, fate);
            && s'.row.Some? && Knows(s'.row.value, who, s'.workers[who].phase)
            && (s'.row == s.row ||
                  (s.row.value.status != Q.Included && s'.row.value.version == s.row.value.version + 1))
            && (s'.row.value.status == Q.Included ==> s'.row.value.txHash.Some?)
  {
    var w := s.workers[who];
    LostAnswerIsSafe(s.row.value, who, w.phase, leaseMs, s.now);
    if w.phase.left > 0 {
      DigestIsSafe(s.row.value, who, w, leaseMs, s.now);
    }
  }

  lemma AttemptKeepsInv(s: System, who: string, leaseMs: nat, fate: Fate)
    requires Inv(s) && who in s.workers
    requires s.workers[who].phase.Claiming? || Tracks(s.workers[who].phase)
    ensures Inv(AttemptStep(s, who, leaseMs, fate))
    ensures AttemptStep(s, who, leaseMs, fate).row == s.row || s.row.value.status != Q.Included
  {
    var s' := AttemptStep(s, who, leaseMs, fate);
    OwnAttempt(s, who, leaseMs, fate);
    forall w | w in s'.workers && w != who
      ensures Knows(s'.row.value, w, s'.workers[w].phase)
    {
      RequestIsGood(s, who, leaseMs, w);
      KnowledgeSurvives(s.row.value, s'.row.value, w, s.workers[w].phase);
    }
  }

  lemma StepKeepsInv(s: System, step: Step)
    requires Inv(s)
    ensures Inv(Next(s, step))
    ensures s.row.Some? && s.row.value.status == Q.Included ==> Next(s, step).row == s.row
  {
    match step
    case Attempt(who, leaseMs, fate) =>
      if who in s.workers && (s.workers[who].phase.Claiming? || Tracks(s.workers[who].phase)) {
        AttemptKeepsInv(s, who, leaseMs, fate);
      }
    case Requeue(_, _, _) =>
      var s' := Next(s, step);
      if s.row.Some? {
        forall w | w in s.workers ensures Knows(s'.row.value, w, s'.workers[w].phase) {
          KnowledgeSurvives(s.row.value, s'.row.value, w, s.workers[w].phase);
        }
      }
    case _ =>
  }

  lemma {:induction false} RunKeepsInv(s: System, steps: seq<Step>)
    requires Start(s) || Inv(s)
    ensures Inv(Run(s, steps))
  {
    if |steps| > 0 {
      RunKeepsInv(s, steps[..|steps| - 1]);
      StepKeepsInv(Run(s, steps[..|steps| - 1]), steps[|steps| - 1]);
    }
  }

  /**
   In every run of any number of workers, with expiring leases, conflicts, lost answers, crashes and requeues, a row
   that is once included is never written again: status and transaction hash stay for the rest of the run.
   */
  lemma {:induction false} IncludedIsFinal(s: System, steps: seq<Step>, i: nat)
    requires Start(s) && i <= |steps|
    requires Run(s, steps[..i]).row.Some? && Run(s, steps[..i]).row.value.status == Q.Included
    ensures Run(s, steps).row == Run(s, steps[..i]).row
    ensures Run(s, steps).row.value.txHash.Some?
  {
    RunKeepsInv(s, steps);
    if i == |steps| {
      assert steps[..i] == steps;
    } else {
      var before := steps[..|steps| - 1];
      assert before[..i] == steps[..i];
      IncludedIsFinal(s, before, i);
      RunKeepsInv(s, before);
      StepKeepsInv(Run(s, before), steps[|steps| - 1]);
    }
  }

  /** Every request a worker sends carries a version: a 409 answer never degrades a retry to an unversioned write. */
  lemma EveryTrackIsVersioned(s: System, steps: seq<Step>, who: string)
    requires Start(s) && who in s.workers && Tracks(Run(s, steps).workers[who].phase)
    ensures Run(s, steps).workers[who].phase.expected.Some?
  {
    RunKeepsInv(s, steps);
    assert Run(s, steps).row.Some? ==> Knows(Run(s, steps).row.value, who, Run(s, steps).workers[who].phase);
  }

  // ----- A worker that is let do gets its work done -----

  lemma Extend(s: System, steps: seq<Step>, t: System, step: Step) returns (steps': seq<Step>, t': System)
    requires Run(s, steps) == t
    ensures steps' == steps + [step] && t' == Next(t, step) && Run(s, steps') == t'
  {
    steps', t' := steps + [step], Next(t, step);
    assert steps'[..|steps|] == steps;
  }

  /** The worker's attempt is answered with a 409, and then nobody writes the row or moves the worker. */
  ghost predicate RefusedOnce(s: System, who: string, leaseMs: nat, between: seq<Step>) {
    && who in s.workers && s.row.Some? && s.row.value.status != Q.Included
    && (s.workers[who].phase.Claiming? || Tracks(s.workers[who].phase)) && s.workers[who].phase.left >= 2
    && Request(s.row, who, s.workers[who].phase, leaseMs, s.now).Conflict?
    && var refused := Next(s, Attempt(who, leaseMs, Answered));
       Run(refused, between).row == refused.row && Run(refused, between).workers[who] == refused.workers[who]
  }

  /** After a 409 a worker's next answered claim is done exactly if the row is then free for it. */
  lemma RetriedClaimIsDoneIff(s: System, who: string, leaseMs: nat, between: seq<Step>, leaseMs': nat)
    requires RefusedOnce(s, who, leaseMs, between) && s.workers[who].phase.Claiming?
    ensures var t := Run(Next(s, Attempt(who, leaseMs, Answered)), between);
            var (row, end) := (s.row.value, Next(t, Attempt(who, leaseMs', Answered)));
            if Q.Claimable(row, Lower(who), t.now) then
              && end.row == Some(row.(status := Q.Claimed, claimedBy := Some(Lower(who)),
                                      claimedUntil := Some(t.now + leaseMs'), version := row.version + 1))
              && end.workers[who].phase == Submitting(row.version + 1, Some(row.version + 1), s.workers[who].maxRetries)
            else end.row == s.row
  {
  }

  /** And its next answered track is done exactly if no other worker holds the row. */
  lemma RetriedTrackIsDoneIff(s: System, who: string, leaseMs: nat, between: seq<Step>, leaseMs': nat)
    requires RefusedOnce(s, who, leaseMs, between) && Tracks(s.workers[who].phase)
    ensures var t := Run(Next(s, Attempt(who, leaseMs, Answered)), between);
            var (row, phase) := (s.row.value, s.workers[who].phase);
            var end := Next(t, Attempt(who, leaseMs', Answered));
            if HeldByOther(row.claimedBy, Some(who)) then end.row == s.row
            else
              && end.row.Some? && end.row.value.version == row.version + 1
              && end.row.value.status == (if phase.Rejecting? then Q.Rejected else if phase.Submitting? then Q.Submitted
                                          else if phase.outcome.success then Q.Included else Q.Failed)
              && end.workers[who].phase == if phase.Submitting? then Sending(phase.claimed) else Idle
  {
  }

  /** Server errors use up attempts and change nothing else about a worker; a fetch that throws ends its work. */
  lemma {:induction false} ErrorsUseUpAttempts(s: System, steps: seq<Step>, who: string)
    requires who in s.workers && (s.workers[who].phase.Claiming? || Tracks(s.workers[who].phase))
    requires |steps| <= s.workers[who].phase.left
    requires forall i :: 0 <= i < |steps| ==> IsServerError(steps[i], who)
    ensures Run(s, steps).workers ==
            s.workers[who := s.workers[who].(phase :=
              s.workers[who].phase.(left := s.workers[who].phase.left - |steps|))]
  {
    if |steps| > 0 {
      var front := steps[..|steps| - 1];
      assert forall i :: 0 <= i < |front| ==> front[i] == steps[i];
      ErrorsUseUpAttempts(s, front, who);
      OneServerError(Run(s, front), steps[|steps| - 1], who);
    }
  }

  lemma OneServerError(s: System, step: Step, who: string)
    requires who in s.workers && (s.workers[who].phase.Claiming? || Tracks(s.workers[who].phase))
    requires s.workers[who].phase.left >= 1 && IsServerError(step, who)
    ensures Next(s, step).workers ==
            s.workers[who := s.workers[who].(phase := s.workers[who].phase.(left := s.workers[who].phase.left - 1))]
  {
  }

  predicate IsServerError(step: Step, who: string) {
    step.Attempt? && step.who == who && step.fate.ServerError?
  }

  lemma ThrowingEndsTheWork(s: System, who: string, leaseMs: nat, executed: bool)
    requires who in s.workers && (s.workers[who].phase.Claiming? || Tracks(s.workers[who].phase))
    requires s.workers[who].phase.left >= 1
    ensures Next(s, Attempt(who, leaseMs, Broken(executed))).workers[who].phase == Idle
  {
  }

  /** A worker with a retry is idle, and the row is free for it. */
  ghost predicate Ready(s: System, who: string) {
    && who in s.workers && s.workers[who].phase.Idle? && s.workers[who].maxRetries >= 1
    && s.row.Some? && Q.Claimable(s.row.value, Lower(who), s.now)
  }

  lemma ReadyClaims(s: System, who: string, leaseMs: nat) returns (t: System)
    requires Ready(s, who)
    ensures t == Run(s, [Listed(who), Proceed(who), Attempt(who, leaseMs, Answered)])
    ensures var (row, v) := (s.row.value, s.row.value.version + 1);
            && t.row == Some(row.(status := Q.Claimed, claimedBy := Some(Lower(who)),
                                  claimedUntil := Some(s.now + leaseMs), version := v))
            && t.workers ==
               s.workers[who := s.workers[who].(phase := Submitting(v, Some(v), s.workers[who].maxRetries))]
  {
    var steps;
    steps, t := Extend(s, [], s, Listed(who));
    steps, t := Extend(s, steps, t, Proceed(who));
    steps, t := Extend(s, steps, t, Attempt(who, leaseMs, Answered));
    assert steps == [Listed(who), Proceed(who), Attempt(who, leaseMs, Answered)];
  }

  /** The row that an undisturbed report leaves of a claimed one. */
  function Reported(row: Q.UserOp, o: Outcome): Q.UserOp {
    row.(status := if o.success then Q.Included else Q.Failed, claimedBy := None, claimedUntil := None,
         version := row.version + 2, txHash := Some(o.txHash),
         rejectReason := if o.success then row.rejectReason else Some("execution_reverted"),
         gasSpentWei := if o.gasSpent.Some? then o.gasSpent else row.gasSpentWei)
  }

  lemma SubmitStep(t: System, who: string, leaseMs: nat, row: Q.UserOp, left: nat)
    requires who in t.workers && left >= 1 && row.claimedBy == Some(Lower(who)) && t.row == Some(row)
    requires t.workers[who].phase == Submitting(row.version, Some(row.version), left)
    ensures Next(t, Attempt(who, leaseMs, Answered)).row ==
            Some(row.(status := Q.Submitted, version := row.version + 1))
    ensures Next(t, Attempt(who, leaseMs, Answered)).workers ==
            t.workers[who := t.workers[who].(phase := Sending(row.version))]
  {
  }

  lemma ReportStep(t: System, who: string, leaseMs: nat, o: Outcome, row: Q.UserOp, left: nat)
    requires who in t.workers && left >= 1 && row.claimedBy == Some(Lower(who))
    requires t.row == Some(row.(status := Q.Submitted, version := row.version + 1))
    requires t.workers[who].phase == Reporting(o, Some(row.version + 1), left)
    ensures Next(t, Attempt(who, leaseMs, Answered)).row == Some(Reported(row, o))
    ensures Next(t, Attempt(who, leaseMs, Answered)).workers == t.workers[who := t.workers[who].(phase := Idle)]
  {
  }

  /** The rest of the way, after any run that ends in a claim. */
  lemma ClaimReports(s: System, steps: seq<Step>, who: string, leaseMs: nat, o: Outcome, row: Q.UserOp)
    returns (t: System)
    requires var w := Run(s, steps).workers;
             && who in w && w[who].maxRetries >= 1 && Run(s, steps).row == Some(row)
             && row.status == Q.Claimed && row.claimedBy == Some(Lower(who))
             && w[who].phase == Submitting(row.version, Some(row.version), w[who].maxRetries)
    ensures t == Run(s, steps + [Attempt(who, leaseMs, Answered), Mined(who, o), Attempt(who, leaseMs, Answered)])
    ensures t.row == Some(Reported(row, o))
    ensures t.workers == Run(s, steps).workers[who := Run(s, steps).workers[who].(phase := Idle)]
  {
    var steps1, steps2, steps3;
    SubmitStep(Run(s, steps), who, leaseMs, row, Run(s, steps).workers[who].maxRetries);
    steps1, t := Extend(s, steps, Run(s, steps), Attempt(who, leaseMs, Answered));
    steps2, t := Extend(s, steps1, t, Mined(who, o));
    ReportStep(t, who, leaseMs, o, row, t.workers[who].phase.left);
    steps3, t := Extend(s, steps2, t, Attempt(who, leaseMs, Answered));
    assert steps3 == steps + [Attempt(who, leaseMs, Answered), Mined(who, o), Attempt(who, leaseMs, Answered)];
  }

  /** Undisturbed and answered, it delivers what the chain said of the operation, and leaves the row unclaimed. */
  lemma DeliversTheOutcome(s: System, who: string, leaseMs: nat, o: Outcome) returns (t: System)
    requires Ready(s, who)
    ensures t == Run(s, [Listed(who), Proceed(who), Attempt(who, leaseMs, Answered)] +
                        [Attempt(who, leaseMs, Answered), Mined(who, o), Attempt(who, leaseMs, Answered)])
    ensures t.row == Some(s.row.value.(
              status := if o.success then Q.Included else Q.Failed, claimedBy := None, claimedUntil := None,
              version := s.row.value.version + 3, txHash := Some(o.txHash),
              rejectReason := if o.success then s.row.value.rejectReason else Some("execution_reverted"),
              gasSpentWei := if o.gasSpent.Some? then o.gasSpent else s.row.value.gasSpentWei))
    ensures t.workers == s.workers
  {
    t := ReadyClaims(s, who, leaseMs);
    t := ClaimReports(s, [Listed(who), Proceed(who), Attempt(who, leaseMs, Answered)], who, leaseMs, o, t.row.value);
    assert t.workers[who] == s.workers[who];
  }

  /** One that refuses the operation leaves it rejected for that reason. */
  lemma DeliversTheRefusal(s: System, who: string, leaseMs: nat, reason: string) returns (t: System)
    requires Ready(s, who)
    ensures t == Run(s, [Listed(who), Refuse(who, reason), Attempt(who, leaseMs, Answered)])
    ensures var row := s.row.value;
            if HeldByOther(row.claimedBy, Some(who)) then t.row == s.row
            else
              && t.row == Some(row.(status := Q.Rejected, claimedBy := None, claimedUntil := None,
                                    version := row.version + 1, rejectReason := Some(reason)))
              && t.workers == s.workers
  {
    var steps;
    steps, t := Extend(s, [], s, Listed(who));
    steps, t := Extend(s, steps, t, Refuse(who, reason));
    steps, t := Extend(s, steps, t, Attempt(who, leaseMs, Answered));
    assert steps == [Listed(who), Refuse(who, reason), Attempt(who, leaseMs, Answered)];
    if !HeldByOther(s.row.value.claimedBy, Some(who)) {
      assert t.workers[who] == s.workers[who];
    }
  }

  // ----- Why the addresses must be distinct -----


  /** The row and the phases of two workers `a` and `b`, which allow themselves `ma` and `mb` retries. */
  ghost predicate Stage(t: System, a: string, b: string, ma: nat, mb: nat,
                        status: Q.Status, holder: Option<string>, version: int, pa: Phase, pb: Phase) {
    && a in t.workers && b in t.workers && a != b
    && t.workers[a] == Worker(ma, pa) && t.workers[b] == Worker(mb, pb)
    && t.row.Some? && t.row.value.status == status && t.row.value.claimedBy == holder && t.row.value.version == version
  }

  /** Two idle workers of an initial system whose addresses the server takes for one. */
  ghost predicate Sharing(s: System, a: string, b: string, ma: nat, mb: nat) {
    && s.row.None? && a in s.workers && b in s.workers && a != b && a != "" && Lower(a) == Lower(b)
    && s.workers[a] == Worker(ma, Idle) && s.workers[b] == Worker(mb, Idle) && ma >= 1 && mb >= 1
  }

  lemma FirstClaim(s: System, a: string, b: string, ma: nat, mb: nat) returns (steps: seq<Step>)
    requires Sharing(s, a, b, ma, mb)
    ensures Stage(Run(s, steps), a, b, ma, mb, Q.Claimed, Some(Lower(a)), 2, Submitting(2, Some(2), ma), Idle)
  {
    var t := s;
    steps, t := Extend(s, [], t, Enqueue("w", "1", "op"));
    assert Stage(t, a, b, ma, mb, Q.Pending, None, 1, Idle, Idle);
    steps, t := Extend(s, steps, t, Listed(a));
    steps, t := Extend(s, steps, t, Proceed(a));
    assert Stage(t, a, b, ma, mb, Q.Pending, None, 1, Claiming(1, ma), Idle);
    steps, t := Extend(s, steps, t, Attempt(a, 10, Answered));
  }

  /** The second worker renews the first one's claim. */
  lemma SecondClaim(s: System, a: string, b: string, ma: nat, mb: nat) returns (steps: seq<Step>)
    requires Sharing(s, a, b, ma, mb)
    ensures Stage(Run(s, steps), a, b, ma, mb, Q.Claimed, Some(Lower(a)), 3,
                  Submitting(2, Some(2), ma), Submitting(3, Some(3), mb))
  {
    steps := FirstClaim(s, a, b, ma, mb);
    var t := Run(s, steps);
    steps, t := Extend(s, steps, t, Listed(b));
    steps, t := Extend(s, steps, t, Proceed(b));
    assert Stage(t, a, b, ma, mb, Q.Claimed, Some(Lower(a)), 2, Submitting(2, Some(2), ma), Claiming(2, mb));
    steps, t := Extend(s, steps, t, Attempt(b, 10, Answered));
  }

  /** Server errors use up the first worker's retries, and it goes on to send its transaction. */
  lemma {:induction false} GivesUpSubmitting(
    s: System, steps: seq<Step>, a: string, b: string, ma: nat, mb: nat, holder: string, left: nat)
    returns (steps': seq<Step>)
    requires Stage(Run(s, steps), a, b, ma, mb, Q.Claimed, Some(holder), 3,
                   Submitting(2, Some(2), left), Submitting(3, Some(3), mb))
    ensures Stage(Run(s, steps'), a, b, ma, mb, Q.Claimed, Some(holder), 3, Sending(2), Submitting(3, Some(3), mb))
    decreases left
  {
    var t;
    steps', t := Extend(s, steps, Run(s, steps), Attempt(a, 10, ServerError(false)));
    if left > 0 {
      steps' := GivesUpSubmitting(s, steps', a, b, ma, mb, holder, left - 1);
    }
  }

  /** The first worker reports inclusion at the version that is the second one's claim. */
  lemma InclusionByTheOlderClaim(s: System, a: string, b: string, ma: nat, mb: nat) returns (steps: seq<Step>)
    requires Sharing(s, a, b, ma, mb)
    ensures Stage(Run(s, steps), a, b, ma, mb, Q.Included, None, 4, Idle, Submitting(3, Some(3), mb))
  {
    steps := SecondClaim(s, a, b, ma, mb);
    steps := GivesUpSubmitting(s, steps, a, b, ma, mb, Lower(a), ma);
    var t := Run(s, steps);
    steps, t := Extend(s, steps, t, Mined(a, Outcome(true, "0x1", None)));
    assert Stage(t, a, b, ma, mb, Q.Claimed, Some(Lower(a)), 3,
                 Reporting(Outcome(true, "0x1", None), Some(3), ma), Submitting(3, Some(3), mb));
    steps, t := Extend(s, steps, t, Attempt(a, 10, Answered));
  }

  /** The second one's guessed version is then that of the included row. */
  lemma GuessHitsTheIncludedRow(s: System, a: string, b: string, ma: nat, mb: nat) returns (steps: seq<Step>)
    requires Sharing(s, a, b, ma, mb)
    ensures Stage(Run(s, steps), a, b, ma, mb, Q.Included, None, 4, Idle,
                  Reporting(Outcome(false, "0x2", None), Some(4), mb))
  {
    steps := InclusionByTheOlderClaim(s, a, b, ma, mb);
    var t := Run(s, steps);
    steps, t := Extend(s, steps, t, Attempt(b, 10, Answered));
    assert Stage(t, a, b, ma, mb, Q.Included, None, 4, Idle, Sending(3));
    steps, t := Extend(s, steps, t, Mined(b, Outcome(false, "0x2", None)));
  }

  /** Any two workers under one address have a run in which an included row becomes failed. */
  lemma SharedAddressLosesInclusion(s: System, a: string, b: string, ma: nat, mb: nat)
    returns (steps: seq<Step>, last: Step)
    requires Sharing(s, a, b, ma, mb)
    ensures Run(s, steps).row.Some? && Run(s, steps).row.value.status == Q.Included
    ensures Run(s, steps + [last]).row.Some? && Run(s, steps + [last]).row.value.status == Q.Failed
  {
    steps := GuessHitsTheIncludedRow(s, a, b, ma, mb);
    last := Attempt(b, 10, Answered);
    var _, _ := Extend(s, steps, Run(s, steps), last);
  }

  /** An initial system of workers with addresses and at least one retry each. */
  ghost predicate Fresh(s: System) {
    && s.row.None? && "" !in s.workers
    && forall w :: w in s.workers ==> s.workers[w].phase.Idle? && s.workers[w].maxRetries >= 1
  }

  /** An included row is not changed by the next step. */
  ghost predicate Final(s: System, steps: seq<Step>, next: Step) {
    Run(s, steps).row.Some? && Run(s, steps).row.value.status == Q.Included ==>
      Run(s, steps + [next]).row == Run(s, steps).row
  }

  /** Inclusion is final in every run of an initial system exactly if no two of its workers share an address. */
  lemma InclusionIsFinalIffDistinct(s: System)
    requires Fresh(s)
    ensures DistinctAddresses(s) <==> forall steps, next :: Final(s, steps, next)
  {
    if DistinctAddresses(s) {
      forall steps, next ensures Final(s, steps, next) {
        if Run(s, steps).row.Some? && Run(s, steps).row.value.status == Q.Included {
          assert (steps + [next])[..|steps|] == steps;
          IncludedIsFinal(s, steps + [next], |steps|);
        }
      }
    } else {
      var a, b :| a in s.workers && b in s.workers && Lower(a) == Lower(b) && a != b;
      var steps, last := SharedAddressLosesInclusion(s, a, b, s.workers[a].maxRetries, s.workers[b].maxRetries);
      assert !Final(s, steps, last);
    }
  }
}
