/**
 The `wallet_user_ops` work queue: optimistic version, expiring lease, status.
 The functions say what one call does to one row; `UserOpTable` is the table itself.
 */
module UserOpQueue {
  import opened Base
  import opened Lease

  datatype Status = Pending | Claimed | Submitted | Included | Failed | Rejected

  datatype UserOp = UserOp(
    wallet: string, chainId: string, userOp: string,
    status: Status, claimedBy: Option<string>, claimedUntil: Option<int>, version: int,
    txHash: Option<string>, rejectReason: Option<string>, gasSpentWei: Option<string>)

  /** The optional columns of a track call. */
  datatype Patch = Patch(
    status: Option<Status>, txHash: Option<string>, rejectReason: Option<string>, gasSpentWei: Option<string>)

  /** A 409 answer carries the current row, if there is one. */
  datatype Reply = Done(row: UserOp) | Conflict(current: Option<UserOp>) | NotFound

  predicate Claimable(row: UserOp, bundler: string, now: int) {
    row.status in {Pending, Claimed} && FreeFor(row.claimedBy, row.claimedUntil, bundler, now)
  }

  function Claim(current: Option<UserOp>, bundler: string, expected: int, leaseMs: nat, now: int): Reply {
    var who := Lower(bundler);
    if current.Some? && current.value.version == expected && Claimable(current.value, who, now) then
      Done(current.value.(
        status := Claimed, claimedBy := Some(who), claimedUntil := Some(now + leaseMs), version := expected + 1))
    else
      Conflict(current)
  }

  predicate Terminal(status: Option<Status>) {
    status in {Some(Included), Some(Failed), Some(Rejected)}
  }

  function Patched(row: UserOp, p: Patch): UserOp {
    UserOp(row.wallet, row.chainId, row.userOp,
           p.status.GetOr(row.status),
           if Terminal(p.status) then None else row.claimedBy,
           if Terminal(p.status) then None else row.claimedUntil,
           row.version + 1,
           p.txHash.Or(row.txHash), p.rejectReason.Or(row.rejectReason), p.gasSpentWei.Or(row.gasSpentWei))
  }

  function Track(current: Option<UserOp>, p: Patch, expected: Option<int>, bundler: Option<string>): Reply {
    if current.None? then NotFound
    else if expected.Some? && current.value.version != expected.value then Conflict(current)
    else if HeldByOther(current.value.claimedBy, bundler) then Conflict(current)
    else Done(Patched(current.value, p))
  }

  /** Requeue answers null, here `Conflict(None)`, when the row is missing or not retryable. */
  function Requeue(current: Option<UserOp>, wallet: string, chainId: string, userOp: string): Reply {
    if current.Some? && current.value.status in {Rejected, Failed} then
      Done(UserOp(Lower(wallet), chainId, userOp, Pending, None, None, current.value.version + 1, None, None, None))
    else
      Conflict(None)
  }

  /** Creation keeps an existing row of the same hash. */
  function Create(current: Option<UserOp>, wallet: string, chainId: string, userOp: string): Reply {
    if current.Some? then Done(current.value)
    else Done(UserOp(Lower(wallet), chainId, userOp, Pending, None, None, 1, None, None, None))
  }

  /** The row as a reply leaves it. */
  function After(current: Option<UserOp>, reply: Reply): Option<UserOp> {
    if reply.Done? then Some(reply.row) else current
  }

  function Written(rows: map<string, UserOp>, hash: string, reply: Reply): map<string, UserOp> {
    if reply.Done? then rows[Lower(hash) := reply.row] else rows
  }

  class UserOpTable {
    var rows: map<string, UserOp>

    constructor ()
      ensures rows == map[]
    {
      rows := map[];
    }

    method CreateWalletUserOp(hash: string, wallet: string, chainId: string, userOp: string) returns (reply: Reply)
      modifies this
      ensures reply == Create(Get(old(rows), Lower(hash)), wallet, chainId, userOp)
      ensures rows == Written(old(rows), hash, reply)
    {
      var key := Lower(hash);
      if key !in rows {
        rows := rows[key := UserOp(Lower(wallet), chainId, userOp, Pending, None, None, 1, None, None, None)];
      }
      reply := Done(rows[key]);
      assert rows == Written(old(rows), hash, reply);
    }

    method ClaimWalletUserOp(hash: string, bundler: string, expected: int, leaseMs: nat, now: int)
      returns (reply: Reply)
      modifies this
      ensures reply == Claim(Get(old(rows), Lower(hash)), bundler, expected, leaseMs, now)
      ensures rows == Written(old(rows), hash, reply)
    {
      var key, who := Lower(hash), Lower(bundler);
      if key in rows && rows[key].version == expected && Claimable(rows[key], who, now) {
        var row := rows[key];
        row := row.(claimedBy := Some(who), claimedUntil := Some(now + leaseMs));
        row := row.(status := Claimed, version := row.version + 1);
        rows := rows[key := row];
        return Done(rows[key]);
      }
      return Conflict(Get(rows, key));
    }

    method TrackWalletUserOp(hash: string, p: Patch, expected: Option<int>, bundler: Option<string>)
      returns (reply: Reply)
      modifies this
      ensures reply == Track(Get(old(rows), Lower(hash)), p, expected, bundler)
      ensures rows == Written(old(rows), hash, reply)
    {
      var key := Lower(hash);
      if key !in rows { return NotFound; }
      var current := rows[key];
      if expected.Some? && current.version != expected.value { return Conflict(Some(current)); }
      if HeldByOther(current.claimedBy, bundler) { return Conflict(Some(current)); }
      var row := current.(
        status := p.status.GetOr(current.status), txHash := p.txHash.Or(current.txHash),
        rejectReason := p.rejectReason.Or(current.rejectReason),
        gasSpentWei := p.gasSpentWei.Or(current.gasSpentWei), version := current.version + 1);
      if Terminal(p.status) {
        row := row.(claimedBy := None, claimedUntil := None);
      }
      rows := rows[key := row];
      return Done(rows[key]);
    }

    method RequeueWalletUserOp(hash: string, wallet: string, chainId: string, userOp: string) returns (reply: Reply)
      modifies this
      ensures reply == Requeue(Get(old(rows), Lower(hash)), wallet, chainId, userOp)
      ensures rows == Written(old(rows), hash, reply)
    {
      var key := Lower(hash);
      if key !in rows || rows[key].status !in {Rejected, Failed} { return Conflict(None); }
      var row := rows[key].(
        wallet := Lower(wallet), chainId := chainId, userOp := userOp, status := Pending,
        claimedBy := None, claimedUntil := None, txHash := None, rejectReason := None, gasSpentWei := None);
      rows := rows[key := row.(version := row.version + 1)];
      return Done(rows[key]);
    }
  }

  // ----- Lease safety -----

  /** One call by one bundler, or a requeue by the wallet's owner, at some time. */
  datatype Call =
    | ClaimCall(bundler: string, version: int, leaseMs: nat, now: int)
    | TrackCall(sender: string, p: Patch, expected: Option<int>)
    | RequeueCall(wallet: string, chainId: string, userOp: string)

  function Answer(row: UserOp, call: Call): Reply {
    match call
    case ClaimCall(b, v, lease, now) => Claim(Some(row), b, v, lease, now)
    case TrackCall(b, p, e) => Track(Some(row), p, e, Some(b))
    case RequeueCall(w, c, u) => Requeue(Some(row), w, c, u)
  }

  function Next(row: UserOp, call: Call): UserOp {
    var a := Answer(row, call);
    if a.Done? then a.row else row
  }

  /** The row after a run of calls. */
  function Run(row: UserOp, calls: seq<Call>): UserOp {
    Lease.Run(Next, row, calls)
  }

  predicate Succeeds(row: UserOp, call: Call) {
    Answer(row, call).Done?
  }

  predicate Wins(row: UserOp, calls: seq<Call>, i: nat) {
    i < |calls| && Succeeds(Run(row, calls[..i]), calls[i])
  }

  function Expects(call: Call): Option<int> {
    match call
    case ClaimCall(_, v, _, _) => Some(v)
    case TrackCall(_, _, e) => e
    case RequeueCall(_, _, _) => None
  }

  lemma VersionGrows(row: UserOp, calls: seq<Call>, i: nat)
    requires i <= |calls|
    ensures Run(row, calls[..i]).version <= Run(row, calls).version
  {
    Lease.VersionGrows(Next, (r: UserOp) => r.version, row, calls, i);
  }

  /** A successful write raises the version by one, so each version is spent by at most one of all its holders. */
  lemma OneWinnerPerVersion(row: UserOp, calls: seq<Call>, i: nat, j: nat)
    requires i < j < |calls| && Wins(row, calls, i)
    requires Expects(calls[i]).Some? && Expects(calls[i]) == Expects(calls[j])
    ensures Run(row, calls[..i + 1]).version == Expects(calls[i]).value + 1
    ensures !Wins(row, calls, j)
  {
    Lease.SpentOnce(Next, (r: UserOp) => r.version, Succeeds, Expects, row, calls, i, j);
  }

  /** Calls that leave a leased row alone: claims by others before expiry, tracks by others, and requeues. */
  predicate Outsider(call: Call, holder: string, until: int) {
    match call
    case ClaimCall(b, _, _, now) => Lower(b) != holder && now <= until
    case TrackCall(b, _, _) => b != "" && Lower(b) != holder
    case RequeueCall(_, _, _) => true
  }

  /** A held row stands still under any run of calls by other bundlers for as long as the lease lives. */
  lemma {:induction false} LeaseExcludesOthers(row: UserOp, holder: string, calls: seq<Call>)
    requires row.claimedBy == Some(holder) && holder != "" && row.claimedUntil.Some?
    requires row.status in {Claimed, Submitted}
    requires forall c :: c in calls ==> Outsider(c, holder, row.claimedUntil.value)
    ensures Run(row, calls) == row
  {
    if |calls| > 0 {
      LeaseExcludesOthers(row, holder, calls[..|calls| - 1]);
      assert Outsider(calls[|calls| - 1], holder, row.claimedUntil.value);
    }
  }

  /** An expired claim, and only an expired one, can be taken over by another bundler that knows its version. */
  lemma TakeoverIffExpired(row: UserOp, other: string, leaseMs: nat, now: int)
    requires row.status == Claimed && row.claimedBy.Some? && Lower(other) != row.claimedBy.value
    ensures Claim(Some(row), other, row.version, leaseMs, now).Done? <==>
            row.claimedUntil.Some? && row.claimedUntil.value < now
    ensures forall v :: v != row.version ==> !Claim(Some(row), other, v, leaseMs, now).Done?
  {
  }

  /**
   A claim grants a lease: for `leaseMs` from its own time no run of others takes it away, and another bundler that
   knows the version takes it over exactly after that.
   */
  lemma ClaimGrantsLease(current: Option<UserOp>, bundler: string, expected: int, leaseMs: nat, now: int,
                         calls: seq<Call>, other: string, otherLeaseMs: nat, t: int)
    requires Claim(current, bundler, expected, leaseMs, now).Done? && bundler != ""
    requires forall c :: c in calls ==> Outsider(c, Lower(bundler), now + leaseMs)
    requires Lower(other) != Lower(bundler)
    ensures var row := Run(Claim(current, bundler, expected, leaseMs, now).row, calls);
            && (row.status, row.claimedBy, row.version) == (Claimed, Some(Lower(bundler)), expected + 1)
            && (Claim(Some(row), other, row.version, otherLeaseMs, t).Done? <==> t > now + leaseMs)
  {
    var row := Claim(current, bundler, expected, leaseMs, now).row;
    LeaseExcludesOthers(row, Lower(bundler), calls);
    TakeoverIffExpired(row, other, otherLeaseMs, t);
  }

  /**
   When a call at the current version is refused: a claim, off the queue or under another's lease that has time left; a
   report, only under the claim of another than its sender; a requeue, unless the row was rejected or has failed.
   */
  lemma RefusedIff(row: UserOp, who: string, leaseMs: nat, now: int, p: Patch, w: string, c: string, u: string)
    requires row.claimedBy.Some? <==> row.claimedUntil.Some?
    requires row.claimedBy != Some("")
    ensures Claim(Some(row), who, row.version, leaseMs, now).Conflict? <==>
              (row.status != Pending && row.status != Claimed) ||
              (ClaimOf(row).Some? && ClaimOf(row).value.0 != Lower(who) && now <= ClaimOf(row).value.1)
    ensures !Track(Some(row), p, Some(row.version), Some(who)).Done? <==>
              who != "" && ClaimOf(row).Some? && ClaimOf(row).value.0 != Lower(who)
    ensures Requeue(Some(row), w, c, u).Done? <==> row.status == Rejected || row.status == Failed
  {
  }

  // ----- What the columns hold -----

  function SaysStatus(call: Call): Option<Status> {
    match call
    case ClaimCall(_, _, _, _) => Some(Claimed)
    case TrackCall(_, p, _) => p.status
    case RequeueCall(_, _, _) => Some(Pending)
  }

  /** A claim names its bundler and the end of its lease; a terminal report and a requeue drop both. */
  function SaysClaim(call: Call): Option<Option<(string, int)>> {
    match call
    case ClaimCall(b, _, lease, now) => Some(Some((Lower(b), now + lease)))
    case TrackCall(_, p, _) => if p.status in {Some(Included), Some(Failed), Some(Rejected)} then Some(None) else None
    case RequeueCall(_, _, _) => Some(None)
  }

  /** A report says what it carries; a requeue wipes what reports said. */
  function Says(call: Call, carried: Patch -> Option<string>): Option<Option<string>> {
    match call
    case ClaimCall(_, _, _, _) => None
    case TrackCall(_, p, _) => if carried(p).Some? then Some(carried(p)) else None
    case RequeueCall(_, _, _) => Some(None)
  }

  function SaysPayload(call: Call): Option<(string, string, string)> {
    if call.RequeueCall? then Some((Lower(call.wallet), call.chainId, call.userOp)) else None
  }

  function ClaimOf(row: UserOp): Option<(string, int)> {
    if row.claimedBy.Some? && row.claimedUntil.Some? then Some((row.claimedBy.value, row.claimedUntil.value)) else None
  }

  function LastSaid<V>(row: UserOp, calls: seq<Call>, says: Call -> Option<V>, before: V): V {
    Lease.LastSaid(Next, Succeeds, says, row, calls, before)
  }

  lemma PatchedColumnsAreLastSaid(row: UserOp, calls: seq<Call>)
    ensures var after := Run(row, calls);
            (after.txHash, after.rejectReason, after.gasSpentWei) ==
            (LastSaid(row, calls, (c: Call) => Says(c, (p: Patch) => p.txHash), row.txHash),
             LastSaid(row, calls, (c: Call) => Says(c, (p: Patch) => p.rejectReason), row.rejectReason),
             LastSaid(row, calls, (c: Call) => Says(c, (p: Patch) => p.gasSpentWei), row.gasSpentWei))
  {
    ColumnIsLastSaid(Next, Succeeds, (c: Call) => Says(c, (p: Patch) => p.txHash), (r: UserOp) => r.txHash, row, calls);
    ColumnIsLastSaid(Next, Succeeds, (c: Call) => Says(c, (p: Patch) => p.rejectReason),
                     (r: UserOp) => r.rejectReason, row, calls);
    ColumnIsLastSaid(Next, Succeeds, (c: Call) => Says(c, (p: Patch) => p.gasSpentWei),
                     (r: UserOp) => r.gasSpentWei, row, calls);
  }

  /** After every run each column holds what the last successful call that says something about it said. */
  lemma ColumnsAreLastSaid(row: UserOp, calls: seq<Call>)
    ensures var after := Run(row, calls);
            && (after.status, ClaimOf(after)) ==
               (LastSaid(row, calls, SaysStatus, row.status), LastSaid(row, calls, SaysClaim, ClaimOf(row)))
            && (after.txHash, after.rejectReason, after.gasSpentWei) ==
               (LastSaid(row, calls, (c: Call) => Says(c, (p: Patch) => p.txHash), row.txHash),
                LastSaid(row, calls, (c: Call) => Says(c, (p: Patch) => p.rejectReason), row.rejectReason),
                LastSaid(row, calls, (c: Call) => Says(c, (p: Patch) => p.gasSpentWei), row.gasSpentWei))
            && (after.wallet, after.chainId, after.userOp) ==
               LastSaid(row, calls, SaysPayload, (row.wallet, row.chainId, row.userOp))
  {
    ColumnIsLastSaid(Next, Succeeds, SaysStatus, (r: UserOp) => r.status, row, calls);
    ColumnIsLastSaid(Next, Succeeds, SaysClaim, ClaimOf, row, calls);
    PatchedColumnsAreLastSaid(row, calls);
    ColumnIsLastSaid(Next, Succeeds, SaysPayload, (r: UserOp) => (r.wallet, r.chainId, r.userOp), row, calls);
  }

  /** From its creation on: what was enqueued, pending and unclaimed, until a call says otherwise. */
  lemma CreatedColumns(wallet: string, chainId: string, userOp: string, calls: seq<Call>)
    ensures Create(None, wallet, chainId, userOp).Done?
    ensures var row := Create(None, wallet, chainId, userOp).row;
            var after := Run(row, calls);
            && (row.version, after.status, ClaimOf(after)) ==
               (1, LastSaid(row, calls, SaysStatus, Pending), LastSaid(row, calls, SaysClaim, None))
            && after.txHash == LastSaid(row, calls, (c: Call) => Says(c, (p: Patch) => p.txHash), None)
            && (after.wallet, after.chainId, after.userOp) ==
               LastSaid(row, calls, SaysPayload, (Lower(wallet), chainId, userOp))
  {
    ColumnsAreLastSaid(Create(None, wallet, chainId, userOp).row, calls);
  }
}
