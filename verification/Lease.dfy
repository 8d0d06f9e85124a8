/** What the user-operation and recovery-job queues have in common: who may act on a claimed row, and its versions. */
module Lease {
  import opened Base

  predicate Expired(claimedUntil: Option<int>, now: int) {
    claimedUntil.Some? && claimedUntil.value < now
  }

  /** The claim columns let this worker claim the row: unclaimed, its own, or expired. */
  predicate FreeFor(claimedBy: Option<string>, claimedUntil: Option<int>, who: string, now: int) {
    claimedBy.None? || claimedBy == Some(who) || Expired(claimedUntil, now)
  }

  /** A sender that names itself is not the one that holds the claim. */
  predicate HeldByOther(claimedBy: Option<string>, sender: Option<string>) {
    sender.Some? && sender.value != "" && claimedBy.Some? && claimedBy.value != "" &&
    claimedBy.value != Lower(sender.value)
  }

  // ----- Versions -----

  /** The row after a run of calls. */
  function Run<R, C>(next: (R, C) -> R, row: R, calls: seq<C>): R {
    if |calls| == 0 then row else next(Run(next, row, calls[..|calls| - 1]), calls[|calls| - 1])
  }

  ghost predicate Monotone<R(!new), C(!new)>(next: (R, C) -> R, version: R -> int) {
    forall r, c :: version(r) <= version(next(r, c))
  }

  /** A call that names a version and is done was made at that version, and leaves the next. */
  ghost predicate Spends<R(!new), C(!new)>(
    next: (R, C) -> R, version: R -> int, done: (R, C) -> bool, expects: C -> Option<int>)
  {
    forall r, c :: done(r, c) && expects(c).Some? ==>
      version(r) == expects(c).value && version(next(r, c)) == expects(c).value + 1
  }

  lemma {:induction false} VersionGrows<R(!new), C(!new)>(
    next: (R, C) -> R, version: R -> int, row: R, calls: seq<C>, i: nat)
    requires Monotone(next, version) && i <= |calls|
    ensures version(Run(next, row, calls[..i])) <= version(Run(next, row, calls))
    decreases |calls| - i
  {
    if i < |calls| {
      assert calls[..i + 1][..i] == calls[..i];
      VersionGrows(next, version, row, calls, i + 1);
    } else {
      assert calls[..i] == calls;
    }
  }

  /** A done call spends its version, so that of all calls that name one version at most one is done. */
  lemma SpentOnce<R(!new), C(!new)>(next: (R, C) -> R, version: R -> int, done: (R, C) -> bool,
                                    expects: C -> Option<int>, row: R, calls: seq<C>, i: nat, j: nat)
    requires Monotone(next, version) && Spends(next, version, done, expects)
    requires i < j < |calls| && done(Run(next, row, calls[..i]), calls[i])
    requires expects(calls[i]).Some? && expects(calls[i]) == expects(calls[j])
    ensures version(Run(next, row, calls[..i + 1])) == expects(calls[i]).value + 1
    ensures !done(Run(next, row, calls[..j]), calls[j])
  {
    assert calls[..i + 1][..i] == calls[..i];
    assert calls[..j][..i + 1] == calls[..i + 1];
    VersionGrows(next, version, row, calls[..j], i + 1);
  }

  // ----- Columns -----

  /** What the last done call of a run that says something about a column said; `before` if none did. */
  function LastSaid<R, C, V>(
    next: (R, C) -> R, done: (R, C) -> bool, says: C -> Option<V>, row: R, calls: seq<C>, before: V): V
  {
    if |calls| == 0 then before
    else
      var n := |calls| - 1;
      if done(Run(next, row, calls[..n]), calls[n]) && says(calls[n]).Some? then says(calls[n]).value
      else LastSaid(next, done, says, row, calls[..n], before)
  }

  /** A done call leaves in the column what it says, and what was there if it says nothing. */
  ghost predicate Writes<R(!new), C(!new), V>(
    next: (R, C) -> R, done: (R, C) -> bool, says: C -> Option<V>, column: R -> V)
  {
    forall r, c :: column(next(r, c)) == if done(r, c) && says(c).Some? then says(c).value else column(r)
  }

  lemma {:induction false} ColumnIsLastSaid<R(!new), C(!new), V>(
    next: (R, C) -> R, done: (R, C) -> bool, says: C -> Option<V>, column: R -> V, row: R, calls: seq<C>)
    requires Writes(next, done, says, column)
    ensures column(Run(next, row, calls)) == LastSaid(next, done, says, row, calls, column(row))
  {
    if |calls| > 0 {
      ColumnIsLastSaid(next, done, says, column, row, calls[..|calls| - 1]);
    }
  }
}
