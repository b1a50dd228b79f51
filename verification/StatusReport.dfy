/** The "recent failure" reason of internal/database/status.go: decided from a limited list of failures, and exact. */
module StatusReport {
  import opened Common

  datatype Outcome = AttemptRunning | AttemptFailed | AttemptSkipped | AttemptApplied

  /** An attempt; a finished one has its completion time. */
  datatype Attempt = Attempt(id: int, outcome: Outcome, startedAt: Time, completedAt: Option<Time>)

  /** The newest attempt that confirmed the data. */
  datatype Check = Check(id: int, completedAt: Time)

  predicate AttemptAfterAccepted(timestamp: Time, id: int, check: Option<Check>) {
    check.None? || timestamp > check.value.completedAt
    || (timestamp == check.value.completedAt && id > check.value.id)
  }

  predicate IsFailure(attempt: Attempt) {
    attempt.outcome == AttemptFailed && attempt.completedAt.Some?
  }

  /** ORDER BY completed_at DESC, id DESC */
  predicate NotBefore(a: Attempt, b: Attempt)
    requires IsFailure(a) && IsFailure(b)
  {
    a.completedAt.value > b.completedAt.value || (a.completedAt.value == b.completedAt.value && a.id >= b.id)
  }

  /** The first `limit` failures of the table, newest first. */
  ghost predicate NewestFailures(attempts: set<Attempt>, limit: nat, failures: seq<Attempt>) {
    && (forall f <- failures :: f in attempts && IsFailure(f))
    && (forall i, j :: 0 <= i < j < |failures| ==> failures[i] != failures[j] && NotBefore(failures[i], failures[j]))
    && |failures| <= limit
    && (forall a <- attempts :: IsFailure(a) && a !in failures ==>
          |failures| == limit && forall f <- failures :: NotBefore(f, a))
  }

  /** Some failure of the table is newer than the accepted check. */
  ghost predicate FailedSince(attempts: set<Attempt>, check: Option<Check>) {
    exists a <- attempts :: IsFailure(a) && AttemptAfterAccepted(a.completedAt.value, a.id, check)
  }

  lemma NewerStaysAfter(a: Attempt, b: Attempt, check: Option<Check>)
    requires IsFailure(a) && IsFailure(b) && NotBefore(a, b) && AttemptAfterAccepted(b.completedAt.value, b.id, check)
    ensures AttemptAfterAccepted(a.completedAt.value, a.id, check)
  {
  }

  /** Looking at the newest failures alone decides it. */
  lemma LimitIsExact(attempts: set<Attempt>, limit: nat, failures: seq<Attempt>, check: Option<Check>)
    requires NewestFailures(attempts, limit, failures) && limit >= 1
    ensures FailedSince(attempts, check) <==>
              exists f <- failures :: AttemptAfterAccepted(f.completedAt.value, f.id, check)
  {
    if FailedSince(attempts, check) {
      var a :| a in attempts && IsFailure(a) && AttemptAfterAccepted(a.completedAt.value, a.id, check);
      if a !in failures {
        assert failures[0] in failures;
        NewerStaysAfter(failures[0], a, check);
      }
    }
  }

  /** An empty list decides nothing: a failure can be overlooked. */
  lemma EmptyListMisses(id: int, t: Time)
    ensures var failed := Attempt(id, AttemptFailed, t, Some(t));
      NewestFailures({failed}, 0, []) && FailedSince({failed}, None)
  {
    var failed := Attempt(id, AttemptFailed, t, Some(t));
    assert failed in {failed} && IsFailure(failed);
  }

  datatype Reason = RunOverdue | RecentFailure

  /** The reasons that the latest attempt and the list of failures give. With at least one failure listed, where
      there is one, "recent failure" is given exactly when some failure is newer than the accepted check. */
  method AddOperationalReasons(latest: Option<Attempt>, overdue: bool, failures: seq<Attempt>, check: Option<Check>,
                               ghost attempts: set<Attempt>, ghost limit: nat)
    returns (reasons: seq<Reason>)
    requires NewestFailures(attempts, limit, failures) && limit >= 1
    requires latest.None? <==> attempts == {}
    requires latest.Some? ==> latest.value in attempts
    ensures RecentFailure in reasons <==> FailedSince(attempts, check)
    ensures RecentFailure in reasons <==> exists a <- attempts ::
      && a.outcome == AttemptFailed && a.completedAt.Some?
      && (check.Some? ==>
            || a.completedAt.value > check.value.completedAt
            || (a.completedAt.value == check.value.completedAt && a.id > check.value.id))
    ensures RunOverdue in reasons <==>
      && latest.Some? && overdue
      && (check.Some? ==>
            || latest.value.startedAt > check.value.completedAt
            || (latest.value.startedAt == check.value.completedAt && latest.value.id > check.value.id))
  {
    LimitIsExact(attempts, limit, failures, check);
    reasons := [];
    if latest.None? { return; }
    var attempt := latest.value;
    if overdue && AttemptAfterAccepted(attempt.startedAt, attempt.id, check) { reasons := [RunOverdue]; }
    if attempt.outcome == AttemptFailed && attempt.completedAt.Some?
      && AttemptAfterAccepted(attempt.completedAt.value, attempt.id, check)
    {
      reasons := reasons + [RecentFailure];
      return;
    }
    for i := 0 to |failures|
      invariant forall f <- failures[..i] ::
        IsFailure(f) && !AttemptAfterAccepted(f.completedAt.value, f.id, check)
      invariant RecentFailure !in reasons
      invariant RunOverdue in reasons <==> overdue && AttemptAfterAccepted(attempt.startedAt, attempt.id, check)
    {
      var failure := failures[i];
      assert failure in failures && failures[..i + 1] == failures[..i] + [failure];
      if AttemptAfterAccepted(failure.completedAt.value, failure.id, check) {
        reasons := reasons + [RecentFailure];
        return;
      }
    }
    assert failures[..|failures|] == failures;
  }
}
