/**
 Hosted recovery requests: e-mail verification, the guardian's decision, cancellation, the operator's "initiated" step
 and the reports of on-chain jobs. Positions in the two tables stand for their random ids.
 */
module RecoveryRequests {
  import opened Base

  datatype Status =
    AwaitingEmail | AwaitingGuardian | Queued | OnChain | Completed | Archived | Cancelled | Rejected

  datatype Kind = Initiate | Execute | Cancel

  /** `manualOwner`: the new owner is an EOA or has a zero key, which the guardian does not put on chain. */
  datatype Request = Request(
    wallet: string, email: string, emailVerifiedAt: Option<int>, manualOwner: bool, status: Status,
    guardian: Option<string>, guardianActedAt: Option<int>, jobId: Option<nat>)

  datatype State = State(requests: seq<Request>, jobs: seq<Kind>)

  /** The optional columns of an update; an absent one keeps what is stored. */
  datatype Patch = Patch(
    status: Option<Status>, emailVerifiedAt: Option<int>, guardian: Option<string>, guardianActedAt: Option<int>,
    jobId: Option<nat>)

  function Updated(r: Request, p: Patch): Request {
    r.(status := p.status.GetOr(r.status), emailVerifiedAt := p.emailVerifiedAt.Or(r.emailVerifiedAt),
       guardian := p.guardian.Or(r.guardian), guardianActedAt := p.guardianActedAt.Or(r.guardianActedAt),
       jobId := p.jobId.Or(r.jobId))
  }

  /** The first request linked to a job. */
  function ByJob(requests: seq<Request>, job: nat): (i: Option<nat>)
    ensures i.Some? ==> i.value < |requests| && requests[i.value].jobId == Some(job)
    ensures i.None? ==> forall j :: 0 <= j < |requests| ==> requests[j].jobId != Some(job)
  {
    if |requests| == 0 then None
    else
      var before := ByJob(requests[..|requests| - 1], job);
      if before.Some? then before
      else if requests[|requests| - 1].jobId == Some(job) then Some(|requests| - 1) else None
  }

  /**
   One request to the server. What the environment decides is a flag: a valid one-time code, a valid signed challenge,
   whether the wallet belongs to an identity. `OtherJob` is a job that no request is linked to.
   */
  datatype Step =
    | Create(wallet: string, email: string, emailVerified: bool, manualOwner: bool, now: int)
    | VerifyEmail(id: nat, codeOk: bool, now: int)
    | CancelRequest(id: nat, signed: bool)
    | Approve(id: nat, guardian: string, now: int)
    | Reject(id: nat, guardian: string, now: int)
    | OperatorInitiated(id: nat, identityWallet: bool, identity: string, now: int)
    | JobIncluded(job: nat)
    | OtherJob(kind: Kind)

  function Opened(wallet: string, email: string, emailVerified: bool, manualOwner: bool, now: int): Request {
    var verified := email != "" && emailVerified;
    Request(wallet, email, if verified || email == "" then Some(now) else None, manualOwner,
            if email != "" && !verified then AwaitingEmail else AwaitingGuardian, None, None, None)
  }

  function Acts(status: Status, guardian: string, now: int, job: Option<nat>): Patch {
    Patch(Some(status), None, Some(guardian), Some(now), job)
  }

  function Becomes(status: Status, job: Option<nat>): Patch {
    Patch(Some(status), None, None, None, job)
  }

  /** What a step does to the request it names, and the job it creates. */
  function Effect(r: Request, step: Step, nextJob: nat): (Option<Patch>, Option<Kind>)
    requires !step.Create? && !step.JobIncluded? && !step.OtherJob?
  {
    match step
    case VerifyEmail(_, codeOk, now) =>
      if r.status == AwaitingEmail && codeOk
      then (Some(Patch(Some(AwaitingGuardian), Some(now), None, None, None)), None) else (None, None)
    case CancelRequest(_, signed) =>
      if r.status in {Completed, Archived, Cancelled, Rejected} || !signed then (None, None)
      else if r.status in {OnChain, Queued} then (Some(Becomes(Cancelled, Some(nextJob))), Some(Cancel))
      else (Some(Becomes(Cancelled, None)), None)
    case Approve(_, guardian, now) =>
      if r.status != AwaitingGuardian || (r.emailVerifiedAt.None? && r.email != "") || r.manualOwner then (None, None)
      else (Some(Acts(Queued, guardian, now, Some(nextJob))), Some(Initiate))
    case Reject(_, guardian, now) =>
      if r.status !in {AwaitingGuardian, AwaitingEmail} then (None, None)
      else (Some(Acts(Rejected, guardian, now, None)), None)
    case OperatorInitiated(_, identityWallet, identity, now) =>
      if !identityWallet then (None, None)
      else (Some(Acts(OnChain, identity, now, Some(nextJob))), Some(Execute))
  }

  function AfterJob(r: Request, kind: Kind): Request {
    match kind
    case Initiate => Updated(r, Becomes(OnChain, None))
    case Execute => Updated(Updated(r, Becomes(Completed, None)), Becomes(Archived, None))
    case Cancel => Updated(r, Becomes(Cancelled, None))
  }

  function Next(s: State, step: Step): State {
    match step
    case Create(w, e, v, m, now) => s.(requests := s.requests + [Opened(w, e, v, m, now)])
    case OtherJob(kind) => s.(jobs := s.jobs + [kind])
    case JobIncluded(job) =>
      var i := ByJob(s.requests, job);
      if i.None? || job >= |s.jobs| then s
      else s.(requests := s.requests[i.value := AfterJob(s.requests[i.value], s.jobs[job])])
    case _ =>
      if step.id >= |s.requests| then s
      else
        var (patch, job) := Effect(s.requests[step.id], step, |s.jobs|);
        State(if patch.Some? then s.requests[step.id := Updated(s.requests[step.id], patch.value)] else s.requests,
              if job.Some? then s.jobs + [job.value] else s.jobs)
  }

  /** The handlers, on the two tables. */
  class RecoveryDesk {
    var requests: seq<Request>
    var jobs: seq<Kind>

    function View(): State
      reads this
    {
      State(requests, jobs)
    }

    constructor ()
      ensures View() == State([], [])
    {
      requests, jobs := [], [];
    }

    method UpdateWalletRecoveryRequest(id: nat, p: Patch)
      requires id < |requests|
      modifies this`requests
      ensures requests == old(requests)[id := Updated(old(requests)[id], p)]
    {
      var r := requests[id];
      if p.status.Some? { r := r.(status := p.status.value); }
      if p.emailVerifiedAt.Some? { r := r.(emailVerifiedAt := p.emailVerifiedAt); }
      if p.guardian.Some? { r := r.(guardian := p.guardian); }
      if p.guardianActedAt.Some? { r := r.(guardianActedAt := p.guardianActedAt); }
      if p.jobId.Some? { r := r.(jobId := p.jobId); }
      requests := requests[id := r];
    }

    method CreateWalletRecoveryJob(kind: Kind) returns (id: nat)
      modifies this`jobs
      ensures id == |old(jobs)| && jobs == old(jobs) + [kind]
    {
      id, jobs := |jobs|, jobs + [kind];
    }

    method CreateRecoveryRequest(
      wallet: string, email: Option<string>, emailVerified: bool, manualOwner: bool, now: int)
      returns (id: nat)
      modifies this`requests
      ensures View() == Next(old(View()), Create(wallet, email.GetOr(""), emailVerified, manualOwner, now))
      ensures id == |old(requests)|
    {
      var given := email.GetOr("");
      var verified := given != "" && emailVerified;
      var status := if given != "" && !verified then AwaitingEmail else AwaitingGuardian;
      var verifiedAt := if verified || given == "" then Some(now) else None;
      id := |requests|;
      requests := requests + [Request(wallet, given, verifiedAt, manualOwner, status, None, None, None)];
    }

    method VerifyRecoveryEmail(id: nat, codeOk: bool, now: int) returns (ok: bool)
      modifies this`requests
      ensures View() == Next(old(View()), VerifyEmail(id, codeOk, now))
      ensures ok <==> id < |old(requests)| && old(requests)[id].status == AwaitingEmail && codeOk
    {
      if id >= |requests| { return false; }
      if requests[id].status != AwaitingEmail { return false; }
      if !codeOk { return false; }
      UpdateWalletRecoveryRequest(id, Patch(Some(AwaitingGuardian), Some(now), None, None, None));
      ok := true;
    }

    method CancelRecoveryRequest(id: nat, signed: bool) returns (ok: bool)
      modifies this
      ensures View() == Next(old(View()), CancelRequest(id, signed))
      ensures ok <==> id < |old(requests)| && signed &&
                      old(requests)[id].status in {AwaitingEmail, AwaitingGuardian, Queued, OnChain}
      ensures ok ==> requests[id].status == Cancelled
    {
      if id >= |requests| { return false; }
      var status := requests[id].status;
      if status == Completed || status == Archived || status == Cancelled || status == Rejected { return false; }
      if !signed { return false; }
      if status == OnChain || status == Queued {
        var job := CreateWalletRecoveryJob(Cancel);
        UpdateWalletRecoveryRequest(id, Becomes(Cancelled, Some(job)));
      } else {
        UpdateWalletRecoveryRequest(id, Becomes(Cancelled, None));
      }
      ok := true;
    }

    method ApproveRequest(id: nat, guardian: string, now: int) returns (ok: bool)
      modifies this
      ensures View() == Next(old(View()), Approve(id, guardian, now))
      ensures ok <==> id < |old(requests)| && old(requests)[id].status == AwaitingGuardian &&
                      EmailSettled(old(requests)[id]) && !old(requests)[id].manualOwner
      ensures ok ==> requests[id].status == Queued
    {
      if id >= |requests| { return false; }
      var request := requests[id];
      if request.status != AwaitingGuardian { return false; }
      if request.emailVerifiedAt.None? && request.email != "" { return false; }
      if request.manualOwner { return false; }
      var job := CreateWalletRecoveryJob(Initiate);
      UpdateWalletRecoveryRequest(id, Acts(Queued, guardian, now, Some(job)));
      ok := true;
    }

    method RejectRequest(id: nat, guardian: string, now: int) returns (ok: bool)
      modifies this`requests
      ensures View() == Next(old(View()), Reject(id, guardian, now))
      ensures ok <==> id < |old(requests)| && old(requests)[id].status in {AwaitingEmail, AwaitingGuardian}
      ensures ok ==> requests[id].status == Rejected
    {
      if id >= |requests| { return false; }
      if requests[id].status != AwaitingGuardian && requests[id].status != AwaitingEmail { return false; }
      UpdateWalletRecoveryRequest(id, Acts(Rejected, guardian, now, None));
      ok := true;
    }

    method OperatorRestoreInitiated(id: nat, identityWallet: bool, identity: string, now: int) returns (ok: bool)
      modifies this
      ensures View() == Next(old(View()), OperatorInitiated(id, identityWallet, identity, now))
      ensures ok <==> id < |old(requests)| && identityWallet
      ensures ok ==> requests[id].status == OnChain
    {
      if id >= |requests| { return false; }
      if !identityWallet { return false; }
      var job := CreateWalletRecoveryJob(Execute);
      UpdateWalletRecoveryRequest(id, Acts(OnChain, identity, now, Some(job)));
      ok := true;
    }

    /** Called with every status a worker reports; only inclusion moves a request. */
    method SyncRequestFromJob(job: nat, included: bool)
      modifies this`requests
      ensures View() == if included then Next(old(View()), JobIncluded(job)) else old(View())
    {
      var id := ByJob(requests, job);
      if id.None? { return; }
      if included && job < |jobs| {
        match jobs[job]
        case Initiate =>
          UpdateWalletRecoveryRequest(id.value, Becomes(OnChain, None));
        case Execute =>
          UpdateWalletRecoveryRequest(id.value, Becomes(Completed, None));
          UpdateWalletRecoveryRequest(id.value, Becomes(Archived, None));
        case Cancel =>
          UpdateWalletRecoveryRequest(id.value, Becomes(Cancelled, None));
      }
    }
  }

  // ----- What every run keeps -----

  predicate EmailSettled(r: Request) {
    r.email == "" || r.emailVerifiedAt.Some?
  }

  /** The job a request may be linked to in each status. */
  predicate LinkFits(r: Request, jobs: seq<Kind>) {
    && (r.jobId.Some? ==> r.jobId.value < |jobs|)
    && match r.status
       case AwaitingEmail => r.jobId.None?
       case AwaitingGuardian => r.jobId.None?
       case Rejected => r.jobId.None?
       case Queued => r.jobId.Some? && jobs[r.jobId.value] == Initiate
       case OnChain => r.jobId.Some? && jobs[r.jobId.value] in {Initiate, Execute}
       case Archived => r.jobId.Some? && jobs[r.jobId.value] == Execute
       case Cancelled => r.jobId.Some? ==> jobs[r.jobId.value] == Cancel
       case Completed => false
  }

  /** On chain only with a guardian on record and the e-mail address, if any, verified. */
  predicate Authorized(r: Request) {
    && (r.status in {AwaitingGuardian, Queued, OnChain, Archived} ==> EmailSettled(r))
    && (r.status in {Queued, OnChain, Archived, Rejected} ==> r.guardian.Some?)
    && (r.status == AwaitingEmail ==> !EmailSettled(r))
  }

  ghost predicate OneRequestPerJob(requests: seq<Request>) {
    forall i, j :: 0 <= i < j < |requests| && requests[i].jobId.Some? ==> requests[i].jobId != requests[j].jobId
  }

  ghost predicate Inv(s: State) {
    && OneRequestPerJob(s.requests)
    && forall i :: 0 <= i < |s.requests| ==> LinkFits(s.requests[i], s.jobs) && Authorized(s.requests[i])
  }

  predicate Final(status: Status) {
    status in {Cancelled, Rejected, Archived}
  }

  function Rank(status: Status): nat {
    match status
    case AwaitingEmail => 0
    case AwaitingGuardian => 1
    case Queued => 2
    case OnChain => 3
    case _ => 4
  }

  /** Requests only move forward, and a final status stays what it is. */
  predicate Forward(a: Request, b: Request) {
    Rank(a.status) <= Rank(b.status) && (Final(a.status) ==> b.status == a.status)
  }

  ghost predicate AllForward(s: State, t: State) {
    |s.requests| <= |t.requests| && forall i :: 0 <= i < |s.requests| ==> Forward(s.requests[i], t.requests[i])
  }

  /** The operator's list shows only these; the handler itself does not look. */
  predicate Listed(status: Status) {
    status in {AwaitingGuardian, Queued, OnChain}
  }

  predicate FromTheList(s: State, step: Step) {
    step.OperatorInitiated? && step.identityWallet && step.id < |s.requests| ==> Listed(s.requests[step.id].status)
  }

  /** A step that rewrites one request and adds at most one job. */
  lemma OneRequestChanges(s: State, t: State, id: nat, r: Request)
    requires Inv(s) && id < |s.requests| && t.requests == s.requests[id := r]
    requires s.jobs <= t.jobs
    requires LinkFits(r, t.jobs) && Authorized(r) && Forward(s.requests[id], r)
    requires r.jobId == s.requests[id].jobId || r.jobId.None? || r.jobId.value >= |s.jobs|
    ensures Inv(t) && AllForward(s, t)
  {
    forall i | 0 <= i < |t.requests| && i != id ensures LinkFits(t.requests[i], t.jobs) {
      assert LinkFits(s.requests[i], s.jobs);
    }
    forall i, j | 0 <= i < j < |t.requests| && t.requests[i].jobId.Some?
      ensures t.requests[i].jobId != t.requests[j].jobId
    {
      assert LinkFits(s.requests[i], s.jobs) && LinkFits(s.requests[j], s.jobs);
    }
  }

  lemma JobKeeps(s: State, job: nat)
    requires Inv(s)
    ensures Inv(Next(s, JobIncluded(job))) && AllForward(s, Next(s, JobIncluded(job)))
  {
    var i := ByJob(s.requests, job);
    if i.Some? && job < |s.jobs| {
      assert LinkFits(s.requests[i.value], s.jobs) && Authorized(s.requests[i.value]);
      OneRequestChanges(s, Next(s, JobIncluded(job)), i.value, AfterJob(s.requests[i.value], s.jobs[job]));
    }
  }

  lemma HandlerKeeps(s: State, step: Step)
    requires Inv(s) && !step.Create? && !step.JobIncluded? && !step.OtherJob? && FromTheList(s, step)
    ensures Inv(Next(s, step)) && AllForward(s, Next(s, step))
  {
    if step.id < |s.requests| {
      var r := s.requests[step.id];
      assert LinkFits(r, s.jobs) && Authorized(r);
      var (patch, job) := Effect(r, step, |s.jobs|);
      if patch.Some? {
        OneRequestChanges(s, Next(s, step), step.id, Updated(r, patch.value));
      }
    }
  }

  lemma AdditionKeeps(s: State, step: Step)
    requires Inv(s) && (step.Create? || step.OtherJob?)
    ensures Inv(Next(s, step)) && AllForward(s, Next(s, step))
  {
    forall i | 0 <= i < |s.requests| ensures LinkFits(s.requests[i], Next(s, step).jobs) {
      assert LinkFits(s.requests[i], s.jobs);
    }
  }

  /**
   A step keeps the invariant and moves no request backwards or out of a final status exactly if, being the operator's,
   it acts on a request that the operator's list shows.
   */
  lemma StepKeepsIff(s: State, step: Step)
    requires Inv(s)
    ensures Inv(Next(s, step)) && AllForward(s, Next(s, step)) <==> FromTheList(s, step)
  {
    if FromTheList(s, step) {
      if step.JobIncluded? {
        JobKeeps(s, step.job);
      } else if step.Create? || step.OtherJob? {
        AdditionKeeps(s, step);
      } else {
        HandlerKeeps(s, step);
      }
    } else {
      var r := s.requests[step.id];
      assert LinkFits(r, s.jobs) && Authorized(r);
      assert Next(s, step).requests[step.id] == Updated(r, Acts(OnChain, step.identity, step.now, Some(|s.jobs|)));
    }
  }

  function StatusOf(s: State, id: nat): Option<Status> {
    if id < |s.requests| then Some(s.requests[id].status) else None
  }

  function Run(s: State, steps: seq<Step>): State {
    if |steps| == 0 then s else Next(Run(s, steps[..|steps| - 1]), steps[|steps| - 1])
  }

  /** Every operator step of the run acts on a request listed at that time. */
  ghost predicate Proper(s: State, steps: seq<Step>) {
    forall i :: 0 <= i < |steps| ==> FromTheList(Run(s, steps[..i]), steps[i])
  }

  /**
   Over every run, whatever jobs report late or twice: cancelled, rejected and archived are for good, no request moves
   backwards, no job belongs to two requests, and nothing is queued or on chain without guardian and settled e-mail.
   */
  lemma {:induction false} RunKeeps(s: State, steps: seq<Step>)
    requires Inv(s) && Proper(s, steps)
    ensures Inv(Run(s, steps)) && AllForward(s, Run(s, steps))
  {
    if |steps| > 0 {
      var n := |steps| - 1;
      assert Proper(s, steps[..n]) by {
        assert forall i :: 0 <= i < n ==> steps[..n][..i] == steps[..i];
      }
      RunKeeps(s, steps[..n]);
      var before := Run(s, steps[..n]);
      StepKeepsIff(before, steps[n]);
      forall i | 0 <= i < |s.requests| ensures Forward(s.requests[i], Run(s, steps).requests[i]) {
        assert Forward(s.requests[i], before.requests[i]);
        assert Forward(before.requests[i], Run(s, steps).requests[i]);
      }
    }
  }

  /** Once a request was cancelled, no job of its past can reach it: not even the one it was queued for. */
  lemma LateReportsMissCancelled(s: State, id: nat, steps: seq<Step>, job: nat)
    requires Inv(s) && id < |s.requests| && s.requests[id].status in {Queued, OnChain}
    requires s.requests[id].jobId == Some(job)
    requires Proper(Next(s, CancelRequest(id, true)), steps)
    ensures var t := Run(Next(s, CancelRequest(id, true)), steps);
            StatusOf(t, id) == Some(Cancelled) && StatusOf(Next(t, JobIncluded(job)), id) == Some(Cancelled)
  {
    StepKeepsIff(s, CancelRequest(id, true));
    var cancelled := Next(s, CancelRequest(id, true));
    assert LinkFits(s.requests[id], s.jobs);
    RunKeeps(cancelled, steps);
    var t := Run(cancelled, steps);
    assert Forward(cancelled.requests[id], t.requests[id]);
    StepKeepsIff(t, JobIncluded(job));
    assert Forward(t.requests[id], Next(t, JobIncluded(job)).requests[id]);
  }

  /** Without the list a cancelled request comes back, and an unverified one goes on chain. */
  lemma UnlistedOperatorRevives(wallet: string, identity: string, now: int)
    ensures var s := Run(State([], []), [Create(wallet, "", false, false, now), CancelRequest(0, true)]);
            && Inv(s) && StatusOf(s, 0) == Some(Cancelled)
            && StatusOf(Next(s, OperatorInitiated(0, true, identity, now)), 0) == Some(OnChain)
    ensures var s := Run(State([], []), [Create(wallet, "a@b", false, false, now)]);
            var t := Next(s, OperatorInitiated(0, true, identity, now));
            && Inv(s) && StatusOf(s, 0) == Some(AwaitingEmail)
            && StatusOf(t, 0) == Some(OnChain) && !EmailSettled(t.requests[0])
  {
    var empty := State([], []);
    var (one, two) := (Create(wallet, "", false, false, now), CancelRequest(0, true));
    assert [one, two][..1] == [one] && [one][..0] == [];
    assert Run(empty, [one]) == Next(empty, one);
    assert Run(empty, [one, two]) == Next(Next(empty, one), two);
    var mail := Create(wallet, "a@b", false, false, now);
    assert [mail][..0] == [];
    assert Run(empty, [mail]) == Next(empty, mail);
  }

  // ----- That requests get on -----

  /** What a guardian's or the operator's decision puts on record. */
  predicate DecidedBy(r: Request, who: string, at: int) {
    r.guardian == Some(who) && r.guardianActedAt == Some(at)
  }

  /** A new request waits for its e-mail if there is one that is not verified, and for the guardian otherwise. */
  lemma CreatedWaits(s: State, wallet: string, email: string, emailVerified: bool, manualOwner: bool, now: int)
    ensures var t := Next(s, Create(wallet, email, emailVerified, manualOwner, now));
            && |t.requests| == |s.requests| + 1 && t.jobs == s.jobs && t.requests[..|s.requests|] == s.requests
            && var r := t.requests[|s.requests|];
            && r.wallet == wallet && r.email == email && r.manualOwner == manualOwner
            && (r.status == AwaitingEmail <==> email != "" && !emailVerified)
            && (r.status == AwaitingGuardian <==> email == "" || emailVerified)
            && r.emailVerifiedAt == (if r.status == AwaitingGuardian then Some(now) else None)
            && r.guardian.None? && r.guardianActedAt.None? && r.jobId.None?
  {
  }

  /** A valid code, and nothing less, brings a request before the guardian. */
  lemma ValidCodeBringsToGuardian(s: State, id: nat, codeOk: bool, now: int)
    requires Inv(s) && id < |s.requests| && s.requests[id].status == AwaitingEmail
    ensures var t := Next(s, VerifyEmail(id, codeOk, now));
            && Inv(t) && |t.requests| == |s.requests|
            && t.requests[id].status == (if codeOk then AwaitingGuardian else AwaitingEmail)
            && t.requests[id].manualOwner == s.requests[id].manualOwner
            && t.requests[id].emailVerifiedAt == if codeOk then Some(now) else s.requests[id].emailVerifiedAt
  {
    StepKeepsIff(s, VerifyEmail(id, codeOk, now));
  }

  /** An approval queues what waits for the guardian, with an initiate job, exactly if the new owner is not manual. */
  lemma ApprovalQueuesIff(s: State, id: nat, guardian: string, now: int)
    requires Inv(s) && id < |s.requests| && s.requests[id].status == AwaitingGuardian
    ensures var t := Next(s, Approve(id, guardian, now));
            && Inv(t) && |t.requests| == |s.requests|
            && (t.requests[id].status == Queued <==> !s.requests[id].manualOwner)
            && (t.requests[id].status == Queued ==>
                  && DecidedBy(t.requests[id], guardian, now) && t.requests[id].jobId == Some(|s.jobs|)
                  && t.jobs == s.jobs + [Initiate])
            && (t.requests[id].status != Queued ==> t == s)
  {
    assert Authorized(s.requests[id]);
    StepKeepsIff(s, Approve(id, guardian, now));
  }

  /** The report of a request's own job finds that request. */
  lemma ByJobFinds(s: State, id: nat)
    requires Inv(s) && id < |s.requests| && s.requests[id].jobId.Some?
    ensures ByJob(s.requests, s.requests[id].jobId.value) == Some(id) && s.requests[id].jobId.value < |s.jobs|
  {
    assert LinkFits(s.requests[id], s.jobs);
  }

  /** In any state an included job decides the status of the first request linked to it. */
  lemma IncludedJobDecides(s: State, job: nat, id: nat)
    requires job < |s.jobs| && ByJob(s.requests, job) == Some(id)
    ensures Next(s, JobIncluded(job)).requests[id].status ==
            match s.jobs[job] { case Initiate => OnChain case Execute => Archived case Cancel => Cancelled }
  {
  }

  /** Inclusion of a request's own job: the initiate job puts it on chain, the execute job archives it. */
  lemma InclusionMoves(s: State, id: nat)
    requires Inv(s) && id < |s.requests| && s.requests[id].status in {Queued, OnChain}
    ensures s.requests[id].jobId.Some? && s.requests[id].jobId.value < |s.jobs|
    ensures var job := s.requests[id].jobId.value;
            var t := Next(s, JobIncluded(job));
            && Inv(t) && |t.requests| == |s.requests| && t.jobs == s.jobs && t.requests[id].jobId == Some(job)
            && (s.requests[id].status == Queued ==> s.jobs[job] == Initiate)
            && (s.jobs[job] == Initiate ==> t.requests[id].status == OnChain)
            && (s.jobs[job] != Initiate ==> s.jobs[job] == Execute && t.requests[id].status == Archived)
            && t.requests[id].guardian == s.requests[id].guardian
  {
    assert LinkFits(s.requests[id], s.jobs);
    ByJobFinds(s, id);
    StepKeepsIff(s, JobIncluded(s.requests[id].jobId.value));
  }

  /** The operator's step puts a listed request of an identity wallet, and of no other, on chain to be executed. */
  lemma OperatorPutsOnChain(s: State, id: nat, identityWallet: bool, identity: string, now: int)
    requires Inv(s) && id < |s.requests| && Listed(s.requests[id].status)
    ensures var t := Next(s, OperatorInitiated(id, identityWallet, identity, now));
            && Inv(t) && |t.requests| == |s.requests| && (!identityWallet ==> t == s)
            && (identityWallet ==>
                  && t.requests[id].status == OnChain && DecidedBy(t.requests[id], identity, now)
                  && t.requests[id].jobId == Some(|s.jobs|) && t.jobs == s.jobs + [Execute])
  {
    StepKeepsIff(s, OperatorInitiated(id, identityWallet, identity, now));
  }

  /**
   All the way, from any state that runs can reach: code, approval, the initiate job's inclusion, the operator's step
   and the execute job's inclusion archive a request, and the approval is where a manual owner stops.
   */
  lemma CodeToArchive(s: State, id: nat, guardian: string, identity: string, now: int)
    requires Inv(s) && id < |s.requests| && s.requests[id].status == AwaitingEmail
    ensures var verified := Next(s, VerifyEmail(id, true, now));
            var approved := Next(verified, Approve(id, guardian, now));
            var started := Next(approved, JobIncluded(|s.jobs|));
            var handed := Next(started, OperatorInitiated(id, true, identity, now));
            var done := Next(handed, JobIncluded(|s.jobs| + 1));
            && StatusOf(verified, id) == Some(AwaitingGuardian)
            && (if s.requests[id].manualOwner then approved == verified
                else
                  && StatusOf(approved, id) == Some(Queued) && StatusOf(started, id) == Some(OnChain)
                  && StatusOf(handed, id) == Some(OnChain) && StatusOf(done, id) == Some(Archived))
  {
    ValidCodeBringsToGuardian(s, id, true, now);
    var verified := Next(s, VerifyEmail(id, true, now));
    ApprovalQueuesIff(verified, id, guardian, now);
    if !s.requests[id].manualOwner {
      var approved := Next(verified, Approve(id, guardian, now));
      InclusionMoves(approved, id);
      var started := Next(approved, JobIncluded(|s.jobs|));
      OperatorPutsOnChain(started, id, true, identity, now);
      InclusionMoves(Next(started, OperatorInitiated(id, true, identity, now)), id);
    }
  }

  // ----- What moves a request, and what does not -----

  /** The step that takes a request from one status to another. */
  predicate Moves(s: State, id: nat, step: Step, to: Status) {
    && id < |s.requests|
    && var (r, from) := (s.requests[id], s.requests[id].status);
       match step
       case VerifyEmail(i, codeOk, _) => i == id && codeOk && from == AwaitingEmail && to == AwaitingGuardian
       case Approve(i, _, _) => i == id && from == AwaitingGuardian && !r.manualOwner && to == Queued
       case Reject(i, _, _) => i == id && from in {AwaitingEmail, AwaitingGuardian} && to == Rejected
       case CancelRequest(i, signed) =>
         i == id && signed && from in {AwaitingEmail, AwaitingGuardian, Queued, OnChain} && to == Cancelled
       case OperatorInitiated(i, identityWallet, _, _) => i == id && identityWallet && to == OnChain
       case JobIncluded(job) =>
         r.jobId == Some(job) && job < |s.jobs| &&
         ((s.jobs[job] == Initiate && from == Queued && to == OnChain) ||
          (s.jobs[job] == Execute && from == OnChain && to == Archived))
       case Create(_, _, _, _, _) => false
       case OtherJob(_) => false
  }

  /** A request changes its status exactly by the step that moves it, and to where that leads. */
  lemma StatusChangesIff(s: State, id: nat, step: Step)
    requires Inv(s) && id < |s.requests|
    ensures var after := StatusOf(Next(s, step), id);
            && after.Some?
            && (after.value != s.requests[id].status ==> Moves(s, id, step, after.value))
            && forall to :: Moves(s, id, step, to) ==> after.value == to
  {
    var r := s.requests[id];
    assert LinkFits(r, s.jobs) && Authorized(r);
    if step.JobIncluded? && r.jobId == Some(step.job) { ByJobFinds(s, id); }
  }

  /** The same over runs: a status is left only by the step named for it. */
  lemma {:induction false} StatusLeftOnlyBy(s: State, steps: seq<Step>, id: nat)
    requires Inv(s) && Proper(s, steps) && id < |s.requests|
    ensures StatusOf(Run(s, steps), id).Some?
    ensures StatusOf(Run(s, steps), id) == Some(s.requests[id].status) ||
            exists i :: 0 <= i < |steps| && id < |Run(s, steps[..i]).requests| &&
              Moves(Run(s, steps[..i]), id, steps[i], StatusOf(Run(s, steps), id).value)
  {
    RunKeeps(s, steps);
    if |steps| > 0 {
      var n := |steps| - 1;
      var before := Run(s, steps[..n]);
      ProperBefore(s, steps, n);
      RunKeeps(s, steps[..n]);
      StatusLeftOnlyBy(s, steps[..n], id);
      StatusChangesIff(before, id, steps[n]);
      if StatusOf(Run(s, steps), id) != StatusOf(before, id) {
        assert Moves(Run(s, steps[..n]), id, steps[n], StatusOf(Run(s, steps), id).value);
      } else if StatusOf(before, id) != Some(s.requests[id].status) {
        var i :| 0 <= i < n && id < |Run(s, steps[..n][..i]).requests| &&
                 Moves(Run(s, steps[..n][..i]), id, steps[..n][i], StatusOf(before, id).value);
        assert steps[..n][..i] == steps[..i];
        assert Moves(Run(s, steps[..i]), id, steps[i], StatusOf(Run(s, steps), id).value);
      }
    }
  }

  lemma ProperBefore(s: State, steps: seq<Step>, n: nat)
    requires Proper(s, steps) && n <= |steps|
    ensures Proper(s, steps[..n])
  {
    assert forall i :: 0 <= i < n ==> steps[..n][..i] == steps[..i];
  }
}
