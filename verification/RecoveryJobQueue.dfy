/** The `wallet_recovery_jobs` work queue: the same lease protocol as user operations, with an optional worker id. */
module RecoveryJobQueue {
  import opened Base
  import opened Lease

  datatype Kind = Initiate | Execute | Cancel

  datatype Status = Pending | Claimed | Submitted | Included | Failed | Rejected

  datatype Job = Job(
    wallet: string, chainId: string, kind: Kind,
    status: Status, claimedBy: Option<string>, claimedUntil: Option<int>, version: int,
    txHash: Option<string>, error: Option<string>)

  datatype Patch = Patch(status: Option<Status>, txHash: Option<string>, error: Option<string>)

  datatype Reply = Done(job: Job) | Conflict(current: Option<Job>) | NotFound

  predicate Claimable(job: Job, worker: string, now: int) {
    job.status in {Pending, Claimed} && FreeFor(job.claimedBy, job.claimedUntil, worker, now)
  }

  function Claim(current: Option<Job>, worker: string, expected: int, leaseMs: nat, now: int): Reply {
    if current.Some? && current.value.version == expected && Claimable(current.value, Lower(worker), now) then
      Done(current.value.(status := Claimed, claimedBy := Some(Lower(worker)),
                          claimedUntil := Some(now + leaseMs), version := expected + 1))
    else
      Conflict(current)
  }

  /** Terminal statuses and a requeue to pending give up the claim. */
  predicate ClearsClaim(status: Option<Status>) {
    status in {Some(Included), Some(Failed), Some(Rejected), Some(Pending)}
  }

  function Track(current: Option<Job>, p: Patch, expected: Option<int>, worker: Option<string>): Reply {
    if current.None? then NotFound
    else if expected.Some? && current.value.version != expected.value then Conflict(current)
    else if HeldByOther(current.value.claimedBy, worker) then Conflict(current)
    else
      var job := current.value;
      Done(Job(job.wallet, job.chainId, job.kind, p.status.GetOr(job.status),
               if ClearsClaim(p.status) then None else job.claimedBy,
               if ClearsClaim(p.status) then None else job.claimedUntil,
               job.version + 1, p.txHash.Or(job.txHash), p.error.Or(job.error)))
  }

  function Written(jobs: map<string, Job>, id: string, reply: Reply): map<string, Job> {
    if reply.Done? then jobs[id := reply.job] else jobs
  }

  class RecoveryJobTable {
    var jobs: map<string, Job>

    constructor ()
      ensures jobs == map[]
    {
      jobs := map[];
    }

    method ClaimWalletRecoveryJob(id: string, worker: string, expected: int, leaseMs: nat, now: int)
      returns (reply: Reply)
      modifies this
      ensures reply == Claim(Get(old(jobs), id), worker, expected, leaseMs, now)
      ensures jobs == Written(old(jobs), id, reply)
    {
      if id in jobs && jobs[id].version == expected && Claimable(jobs[id], Lower(worker), now) {
        var job := jobs[id].(claimedBy := Some(Lower(worker)), claimedUntil := Some(now + leaseMs));
        jobs := jobs[id := job.(status := Claimed, version := job.version + 1)];
        return Done(jobs[id]);
      }
      return Conflict(Get(jobs, id));
    }

    method TrackWalletRecoveryJob(id: string, p: Patch, expected: Option<int>, worker: Option<string>)
      returns (reply: Reply)
      modifies this
      ensures reply == Track(Get(old(jobs), id), p, expected, worker)
      ensures jobs == Written(old(jobs), id, reply)
    {
      if id !in jobs { return NotFound; }
      var job := jobs[id];
      if expected.Some? && job.version != expected.value { return Conflict(Some(job)); }
      if HeldByOther(job.claimedBy, worker) { return Conflict(Some(job)); }
      job := job.(status := p.status.GetOr(job.status), txHash := p.txHash.Or(job.txHash),
                  error := p.error.Or(job.error), version := job.version + 1);
      if ClearsClaim(p.status) {
        job := job.(claimedBy := None, claimedUntil := None);
      }
      jobs := jobs[id := job];
      return Done(job);
    }
  }

  // ----- Lease safety -----

  datatype Call =
    | ClaimCall(worker: string, version: int, leaseMs: nat, now: int)
    | TrackCall(sender: Option<string>, p: Patch, expected: Option<int>)

  function Answer(job: Job, call: Call): Reply {
    match call
    case ClaimCall(w, v, lease, now) => Claim(Some(job), w, v, lease, now)
    case TrackCall(w, p, e) => Track(Some(job), p, e, w)
  }

  function Next(job: Job, call: Call): Job {
    var a := Answer(job, call);
    if a.Done? then a.job else job
  }

  function Run(job: Job, calls: seq<Call>): Job {
    Lease.Run(Next, job, calls)
  }

  function Expects(call: Call): Option<int> {
    if call.ClaimCall? then Some(call.version) else call.expected
  }

  predicate Succeeds(job: Job, call: Call) {
    Answer(job, call).Done?
  }

  predicate Wins(job: Job, calls: seq<Call>, i: nat) {
    i < |calls| && Succeeds(Run(job, calls[..i]), calls[i])
  }

  /** Of all the holders of one version, at most one writes, and its write spends exactly that version. */
  lemma OneWinnerPerVersion(job: Job, calls: seq<Call>, i: nat, j: nat)
    requires i < j < |calls| && Wins(job, calls, i)
    requires Expects(calls[i]).Some? && Expects(calls[i]) == Expects(calls[j])
    ensures Run(job, calls[..i + 1]).version == Expects(calls[i]).value + 1
    ensures !Wins(job, calls, j)
  {
    Lease.SpentOnce(Next, (r: Job) => r.version, Succeeds, Expects, job, calls, i, j);
  }

  predicate Outsider(call: Call, holder: string, until: int) {
    match call
    case ClaimCall(w, _, _, now) => Lower(w) != holder && now <= until
    case TrackCall(w, _, _) => w.Some? && w.value != "" && Lower(w.value) != holder
  }

  /** A leased job stands still under any run of other workers that name themselves, until the lease expires. */
  lemma {:induction false} LeaseExcludesOthers(job: Job, holder: string, calls: seq<Call>)
    requires job.claimedBy == Some(holder) && holder != "" && job.claimedUntil.Some?
    requires forall c :: c in calls ==> Outsider(c, holder, job.claimedUntil.value)
    ensures Run(job, calls) == job
  {
    if |calls| > 0 {
      LeaseExcludesOthers(job, holder, calls[..|calls| - 1]);
      assert Outsider(calls[|calls| - 1], holder, job.claimedUntil.value);
    }
  }

  /** The worker id is what excludes: at the right version, a track is refused exactly when it names another worker. */
  lemma AnonymousTrackPassesTheLease(job: Job, p: Patch, sender: Option<string>, holder: string)
    requires job.claimedBy == Some(holder) && holder != ""
    ensures Track(Some(job), p, Some(job.version), sender).Done? <==>
            sender.None? || sender.value == "" || Lower(sender.value) == holder
  {
  }

  /**
   A claim grants a lease: for `leaseMs` from its own time no run of other named workers takes it away, and another
   worker that knows the version takes it over exactly after that.
   */
  lemma ClaimGrantsLease(current: Option<Job>, worker: string, expected: int, leaseMs: nat, now: int,
                         calls: seq<Call>, other: string, otherLeaseMs: nat, t: int)
    requires Claim(current, worker, expected, leaseMs, now).Done? && worker != ""
    requires forall c :: c in calls ==> Outsider(c, Lower(worker), now + leaseMs)
    requires Lower(other) != Lower(worker)
    ensures var job := Run(Claim(current, worker, expected, leaseMs, now).job, calls);
            && (job.status, job.claimedBy, job.version) == (Claimed, Some(Lower(worker)), expected + 1)
            && (Claim(Some(job), other, job.version, otherLeaseMs, t).Done? <==> t > now + leaseMs)
  {
    LeaseExcludesOthers(Claim(current, worker, expected, leaseMs, now).job, Lower(worker), calls);
  }

  // ----- What the columns hold -----

  function SaysStatus(call: Call): Option<Status> {
    if call.ClaimCall? then Some(Claimed) else call.p.status
  }

  /** A claim names its worker and the end of its lease; a terminal report and a return to pending drop both. */
  function SaysClaim(call: Call): Option<Option<(string, int)>> {
    match call
    case ClaimCall(w, _, lease, now) => Some(Some((Lower(w), now + lease)))
    case TrackCall(_, p, _) =>
      if p.status in {Some(Included), Some(Failed), Some(Rejected), Some(Pending)} then Some(None) else None
  }

  function SaysTxHash(call: Call): Option<Option<string>> {
    if call.TrackCall? && call.p.txHash.Some? then Some(call.p.txHash) else None
  }

  function SaysError(call: Call): Option<Option<string>> {
    if call.TrackCall? && call.p.error.Some? then Some(call.p.error) else None
  }

  function ClaimOf(job: Job): Option<(string, int)> {
    if job.claimedBy.Some? && job.claimedUntil.Some? then Some((job.claimedBy.value, job.claimedUntil.value)) else None
  }

  function LastSaid<V>(job: Job, calls: seq<Call>, says: Call -> Option<V>, before: V): V {
    Lease.LastSaid(Next, Succeeds, says, job, calls, before)
  }

  /** After every run each column holds what the last successful call that says something about it said. */
  lemma ColumnsAreLastSaid(job: Job, calls: seq<Call>)
    ensures var after := Run(job, calls);
            && (after.status, ClaimOf(after), after.txHash, after.error) ==
               (LastSaid(job, calls, SaysStatus, job.status), LastSaid(job, calls, SaysClaim, ClaimOf(job)),
                LastSaid(job, calls, SaysTxHash, job.txHash), LastSaid(job, calls, SaysError, job.error))
            && (after.wallet, after.chainId, after.kind) == (job.wallet, job.chainId, job.kind)
  {
    ColumnIsLastSaid(Next, Succeeds, SaysStatus, (r: Job) => r.status, job, calls);
    ColumnIsLastSaid(Next, Succeeds, SaysClaim, ClaimOf, job, calls);
    ColumnIsLastSaid(Next, Succeeds, SaysTxHash, (r: Job) => r.txHash, job, calls);
    ColumnIsLastSaid(Next, Succeeds, SaysError, (r: Job) => r.error, job, calls);
    WhatForStays(job, calls);
  }

  lemma {:induction false} WhatForStays(job: Job, calls: seq<Call>)
    ensures var after := Run(job, calls);
            (after.wallet, after.chainId, after.kind) == (job.wallet, job.chainId, job.kind)
  {
    if |calls| > 0 { WhatForStays(job, calls[..|calls| - 1]); }
  }
}
