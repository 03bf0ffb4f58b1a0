/** The retry schedule: a discovered match is attempted at most six times by due-driven polling. */
module RetryBudget {
  import opened Wrappers
  import opened Facts
  import opened IngestProtocol
  import opened IngestFencing
  import opened IngestVersions

  /** The poller begins an attempt on a newly discovered match, and otherwise only when one is due. */
  predicate MayBegin(row: Row, now: int) {
    row == FRESH || Due(row, now)
  }

  /** The next retry a worker may report: none, or the scheduled one for its own attempt. */
  predicate OnSchedule(a: Attempt, nextRetryAt: Option<int>) {
    nextRetryAt.Some? ==> a.count >= 1 && nextRetryAt == NextRetryAt(a.at, a.count)
  }

  /** Writes come from any workers in any order; only the begins are driven by what is due. */
  ghost predicate Polled(row: Row, step: Step) {
    match step
    case Begin(at) => MayBegin(row, at)
    case Succeed(v) => (exists e :: FromEvidence(v, e))
    case Fail(a, next, _) => OnSchedule(a, next)
    case RejectScope(_, _, _) => true
    case Reconcile(_) => true
  }

  ghost predicate PolledRun(row: Row, steps: seq<Step>)
    decreases |steps|
  {
    steps != [] ==> Polled(row, steps[0]) && PolledRun(Do(row, steps[0]), steps[1..])
  }

  /** While a retry is planned the retry count is the number of attempts so far, and at most five. */
  ghost predicate OnBudget(row: Row) {
    && row.generation <= 6
    && (row.nextRetryAt.Some? ==> 1 <= row.generation == row.retryCount <= 5)
    && (row.retryCount == 0 || row.retryCount == row.generation)
  }

  /** A complete detail plans no retry, and any planned retry is on schedule. */
  predicate Plans(v: SuccessValues) {
    (v.detailComplete ==> v.nextRetryAt.None?) && OnSchedule(v.attempt, v.nextRetryAt)
  }

  lemma ReportedValuesPlan(v: SuccessValues, e: Evidence)
    requires FromEvidence(v, e)
    ensures Plans(v)
  {
    var p := Process(e);
    CompleteIffNothingMissing(e);
    assert p.detailComplete ==> !p.retryable;
  }

  /** However a success is taken, the retry fields of its own attempt become what it reports, or nothing changes. */
  lemma SuccessSetsRetry(row: Row, v: SuccessValues)
    ensures SuccessRow(row, v) == row
            || (Current(row, v.attempt) && SuccessRow(row, v).generation == row.generation
                && SuccessRow(row, v).retryCount == (if v.detailComplete then 0 else row.retryCount)
                && SuccessRow(row, v).nextRetryAt == v.nextRetryAt)
  {
    match SuccessOutcome(row, v)
    case Superseded =>
    case Raised =>
    case Unchanged =>
    case RetainedMoreComplete =>
    case SentToReview =>
    case Normalized =>
  }

  lemma SuccessKeepsBudget(row: Row, v: SuccessValues)
    requires OnBudget(row) && Plans(v)
    ensures OnBudget(SuccessRow(row, v))
    ensures SuccessRow(row, v).retryCount < row.retryCount ==>
              SuccessRow(row, v).retryCount == 0 && SuccessRow(row, v).nextRetryAt.None?
  {
    SuccessSetsRetry(row, v);
  }

  lemma PolledStepKeepsBudget(row: Row, step: Step)
    requires OnBudget(row) && Polled(row, step)
    ensures OnBudget(Do(row, step))
  {
    if step.Succeed? {
      var e :| FromEvidence(step.values, e);
      ReportedValuesPlan(step.values, e);
      SuccessKeepsBudget(row, step.values);
    }
  }

  lemma {:induction false} PolledRunKeepsBudget(row: Row, steps: seq<Step>)
    requires OnBudget(row) && PolledRun(row, steps)
    ensures OnBudget(Run(row, steps))
    decreases |steps|
  {
    if steps != [] {
      PolledStepKeepsBudget(row, steps[0]);
      PolledRunKeepsBudget(Do(row, steps[0]), steps[1..]);
    }
  }

  /** However its attempts end or die, a discovered match is attempted at most six times. */
  lemma AtMostSixAttempts(steps: seq<Step>)
    requires PolledRun(FRESH, steps)
    ensures Begins(steps) <= 6
  {
    PolledRunKeepsBudget(FRESH, steps);
    GenerationCountsBegins(FRESH, steps);
  }

  /** A due-driven attempt raises the retry count; a reset to zero leaves nothing due. */
  lemma ResetLeavesNothingDue(row: Row, step: Step)
    requires OnBudget(row) && Polled(row, step)
    ensures step.Begin? ==> Do(row, step).retryCount == row.retryCount + 1
    ensures Do(row, step).retryCount < row.retryCount ==>
              Do(row, step).retryCount == 0 && forall now :: !Due(Do(row, step), now)
  {
    if step.Succeed? {
      var e :| FromEvidence(step.values, e);
      ReportedValuesPlan(step.values, e);
      SuccessKeepsBudget(row, step.values);
    }
  }

  /**
   * A worker that dies after its begin leaves the match due at exactly the fallback time of its
   * retry count, or never again after the sixth attempt; late writes of older attempts change nothing.
   */
  lemma AbandonedAttemptFallsDue(row: Row, at: int, stray: seq<Step>, now: int)
    requires forall step | step in stray :: FencedBy(step).Some? && FencedBy(step).value <= row.generation
    ensures var left := Run(Do(row, Begin(at)), stray);
            left == Do(row, Begin(at))
            && (Due(left, now) <==> row.retryCount < 5 && at + RETRY_DELAYS[row.retryCount] <= now)
  {
    var begun := Do(row, Begin(at));
    SupersededAttemptsAreInvisible(begun, stray, row.generation + 1);
    AllOlder(stray, row.generation + 1);
  }

  lemma {:induction false} AllOlder(steps: seq<Step>, bound: nat)
    requires forall step | step in steps :: FencedBy(step).Some? && FencedBy(step).value < bound
    ensures WithoutOlder(steps, bound) == []
  {
    if steps != [] {
      assert steps[0] in steps;
      AllOlder(steps[1..], bound);
    }
  }

  /* ---------- six is reached: a match that keeps failing ---------- */

  /** Begin as soon as due and fail on schedule, again and again. */
  function KeepFailing(row: Row, at: int, times: nat): seq<Step>
    decreases times
  {
    if times == 0 then []
    else
      var fail := Failure(row, at);
      var after := Do(Do(row, Begin(at)), fail);
      [Begin(at), fail]
      + KeepFailing(after, if after.nextRetryAt.Some? then after.nextRetryAt.value else at, times - 1)
  }

  /** One begin and its scheduled failure. */
  function Failure(row: Row, at: int): Step {
    Fail(BeginAttempt(row, at), NextRetryAt(at, BeginAttempt(row, at).count), "failed")
  }

  lemma FailureIsPolled(row: Row, at: int)
    requires MayBegin(row, at) && row.retryCount < 6
    ensures var begun := Do(row, Begin(at)); var after := Do(begun, Failure(row, at));
            Polled(row, Begin(at)) && Polled(begun, Failure(row, at)) && after.retryCount == row.retryCount + 1
            && (row.retryCount < 5 ==> after.nextRetryAt.Some? && MayBegin(after, after.nextRetryAt.value))
  {
    assert Current(Do(row, Begin(at)), BeginAttempt(row, at));
  }

  lemma PolledTwoMore(row: Row, a: Step, b: Step, rest: seq<Step>)
    requires Polled(row, a) && Polled(Do(row, a), b) && PolledRun(Do(Do(row, a), b), rest)
    ensures PolledRun(row, [a, b] + rest)
    ensures Begins([a, b] + rest) == (if a.Begin? then 1 else 0) + (if b.Begin? then 1 else 0) + Begins(rest)
  {
    assert ([a, b] + rest)[1..] == [b] + rest && ([b] + rest)[1..] == rest;
    assert PolledRun(Do(row, a), [b] + rest);
    assert Begins([b] + rest) == (if b.Begin? then 1 else 0) + Begins(rest);
  }

  lemma {:induction false} KeepFailingIsPolled(row: Row, at: int, times: nat)
    requires MayBegin(row, at) && row.retryCount + times <= 6
    ensures PolledRun(row, KeepFailing(row, at, times)) && Begins(KeepFailing(row, at, times)) == times
    decreases times
  {
    if times > 0 {
      var fail := Failure(row, at);
      var after := Do(Do(row, Begin(at)), fail);
      var next := if after.nextRetryAt.Some? then after.nextRetryAt.value else at;
      FailureIsPolled(row, at);
      if times > 1 { KeepFailingIsPolled(after, next, times - 1); }
      PolledTwoMore(row, Begin(at), fail, KeepFailing(after, next, times - 1));
    }
  }

  lemma SixAttemptsAreReached()
    ensures exists steps :: PolledRun(FRESH, steps) && Begins(steps) == 6
  {
    KeepFailingIsPolled(FRESH, 0, 6);
  }

  /** The time from one attempt to the last of as many more, when each fails and is retried as soon as due. */
  function Waiting(first: nat, retries: nat): int
    requires first + retries <= 5
    decreases retries
  {
    if retries == 0 then 0 else RETRY_DELAYS[first] + Waiting(first + 1, retries - 1)
  }

  lemma {:induction false} KeepFailingWaits(row: Row, at: int, times: nat)
    requires times >= 1 && row.retryCount + times <= 6
    ensures |KeepFailing(row, at, times)| == 2 * times
    ensures KeepFailing(row, at, times)[2 * times - 2] == Begin(at + Waiting(row.retryCount, times - 1))
    decreases times
  {
    var fail := Failure(row, at);
    var after := Do(Do(row, Begin(at)), fail);
    assert Current(Do(row, Begin(at)), BeginAttempt(row, at));
    if times == 1 {
      assert KeepFailing(after, at, 0) == [];
    } else {
      var next := at + RETRY_DELAYS[row.retryCount];
      assert after.nextRetryAt == Some(next);
      KeepFailingWaits(after, next, times - 1);
      assert KeepFailing(row, at, times) == [Begin(at), fail] + KeepFailing(after, next, times - 1);
    }
  }

  /** A match that keeps failing is attempted for the sixth time 103 hours and a quarter after the first. */
  lemma SixthAttemptComesAfterFourDays(at: int)
    ensures |KeepFailing(FRESH, at, 6)| == 12
    ensures KeepFailing(FRESH, at, 6)[10] == Begin(at + (103 * 3600 + 900) * 1000000)
  {
    KeepFailingWaits(FRESH, at, 6);
    assert Waiting(4, 1) == 72 * HOUR + Waiting(5, 0);
    assert Waiting(3, 2) == 24 * HOUR + Waiting(4, 1);
    assert Waiting(2, 3) == 6 * HOUR + Waiting(3, 2);
    assert Waiting(1, 4) == HOUR + Waiting(2, 3);
  }

  /** Each retry waits longer than the one before, and the first a quarter of an hour. */
  lemma RetriesWaitLonger(at: int, count: nat)
    requires 1 <= count < 5
    ensures NextRetryAt(at, 1) == Some(at + 900 * 1000000)
    ensures NextRetryAt(at, count).Some? && NextRetryAt(at, count + 1).Some?
    ensures NextRetryAt(at, count).value < NextRetryAt(at, count + 1).value
  {
    assert count == 1 || count == 2 || count == 3 || count == 4;
  }
}
