/** Fencing: in every interleaving only the attempt with the latest generation can change a row. */
module IngestFencing {
  import opened Wrappers
  import opened Facts
  import opened IngestProtocol

  function Begins(steps: seq<Step>): nat {
    if steps == [] then 0 else (if steps[0].Begin? then 1 else 0) + Begins(steps[1..])
  }

  /** The attempts a run hands out, in order. */
  function Issued(row: Row, steps: seq<Step>): seq<Attempt>
    decreases |steps|
  {
    if steps == [] then []
    else (if steps[0].Begin? then [BeginAttempt(row, steps[0].at)] else []) + Issued(Do(row, steps[0]), steps[1..])
  }

  lemma DoGeneration(row: Row, step: Step)
    ensures Do(row, step).generation == row.generation + if step.Begin? then 1 else 0
  {
  }

  lemma {:induction false} GenerationCountsBegins(row: Row, steps: seq<Step>)
    ensures Run(row, steps).generation == row.generation + Begins(steps)
    decreases |steps|
  {
    if steps != [] {
      DoGeneration(row, steps[0]);
      GenerationCountsBegins(Do(row, steps[0]), steps[1..]);
    }
  }

  /** The k-th attempt of a run carries the k-th new generation, so generations are distinct and increase. */
  lemma {:induction false} IssuedGenerations(row: Row, steps: seq<Step>)
    ensures |Issued(row, steps)| == Begins(steps)
    ensures forall k | 0 <= k < |Issued(row, steps)| :: Issued(row, steps)[k].generation == Some(row.generation + 1 + k)
    decreases |steps|
  {
    if steps != [] {
      DoGeneration(row, steps[0]);
      var rest := Issued(Do(row, steps[0]), steps[1..]);
      IssuedGenerations(Do(row, steps[0]), steps[1..]);
      forall k | 0 <= k < |Issued(row, steps)|
        ensures Issued(row, steps)[k].generation == Some(row.generation + 1 + k)
      {
        if steps[0].Begin? {
          if k > 0 { assert Issued(row, steps)[k] == rest[k - 1]; }
        } else {
          assert Issued(row, steps) == rest;
        }
      }
    }
  }

  /** A fenced write changes the row only if it carries the row's own generation. */
  lemma OnlyTheLatestGenerationWrites(row: Row, step: Step)
    requires FencedBy(step).Some?
    ensures Do(row, step) != row ==> FencedBy(step) == Some(row.generation)
  {
  }

  /** The steps without every write whose generation is older than `bound`. */
  function WithoutOlder(steps: seq<Step>, bound: nat): seq<Step> {
    if steps == [] then []
    else (if FencedBy(steps[0]).Some? && FencedBy(steps[0]).value < bound then [] else [steps[0]])
         + WithoutOlder(steps[1..], bound)
  }

  /**
   * Once an attempt has been superseded, nothing it or any older attempt does, however often and
   * interleaved with whatever else, can be seen in the row ever again, even though retry counts
   * and attempt times repeat after a reset.
   */
  lemma {:induction false} SupersededAttemptsAreInvisible(row: Row, steps: seq<Step>, bound: nat)
    requires bound <= row.generation
    ensures Run(row, steps) == Run(row, WithoutOlder(steps, bound))
    decreases |steps|
  {
    if steps != [] {
      var next := Do(row, steps[0]);
      DoGeneration(row, steps[0]);
      SupersededAttemptsAreInvisible(next, steps[1..], bound);
      var rest := WithoutOlder(steps[1..], bound);
      if FencedBy(steps[0]).Some? && FencedBy(steps[0]).value < bound {
        OnlyTheLatestGenerationWrites(row, steps[0]);
        assert WithoutOlder(steps, bound) == rest;
      } else {
        assert WithoutOlder(steps, bound) == [steps[0]] + rest;
        assert ([steps[0]] + rest)[1..] == rest;
      }
    }
  }

  /** Two workers: once the second has begun, every interleaving ends as if the first had stopped. */
  lemma TwoWorkers(row: Row, at: int, later: int, between: seq<Step>, after: seq<Step>)
    requires Begins(between) == 0
    ensures var first := BeginAttempt(row, at);
            var start := Do(Run(Do(row, Begin(at)), between), Begin(later));
            Run(start, after) == Run(start, WithoutOlder(after, first.generation.value + 1))
  {
    var begun := Do(row, Begin(at));
    GenerationCountsBegins(begun, between);
    DoGeneration(Run(begun, between), Begin(later));
    SupersededAttemptsAreInvisible(Do(Run(begun, between), Begin(later)), after, row.generation + 2);
  }

  /* ---------- reports without a generation ---------- */

  /** The attempt handed out last. */
  function Latest(row: Row, steps: seq<Step>): Attempt
    requires Issued(row, steps) != []
  {
    Issued(row, steps)[|Issued(row, steps)| - 1]
  }

  /** The row is at the attempt, or at its time with the count reset. */
  predicate Holds(row: Row, a: Attempt) {
    row.lastAttemptAt == Some(a.at) && (row.retryCount == a.count || row.retryCount == 0)
  }

  lemma StepHolds(row: Row, step: Step, a: Attempt)
    requires Holds(row, a) && !step.Begin?
    ensures Holds(Do(row, step), a)
  {
  }

  lemma {:induction false} LatestIsHeld(row: Row, steps: seq<Step>, a: Attempt)
    requires Holds(row, a)
    ensures Holds(Run(row, steps), if Issued(row, steps) == [] then a else Latest(row, steps))
    decreases |steps|
  {
    if steps != [] {
      var next := Do(row, steps[0]);
      if steps[0].Begin? {
        LatestIsHeld(next, steps[1..], BeginAttempt(row, steps[0].at));
      } else {
        StepHolds(row, steps[0], a);
        assert Issued(row, steps) == Issued(next, steps[1..]);
        LatestIsHeld(next, steps[1..], a);
      }
    }
  }

  lemma {:induction false} LatestIsHeldAfterBegins(row: Row, steps: seq<Step>)
    requires Issued(row, steps) != []
    ensures Holds(Run(row, steps), Latest(row, steps))
    decreases |steps|
  {
    var next := Do(row, steps[0]);
    if steps[0].Begin? {
      LatestIsHeld(next, steps[1..], BeginAttempt(row, steps[0].at));
    } else {
      assert Issued(row, steps) == Issued(next, steps[1..]);
      LatestIsHeldAfterBegins(next, steps[1..]);
    }
  }

  /** The row ignores every report of the attempt: a success, a failure, a scope rejection. */
  ghost predicate IgnoresReports(row: Row, a: Attempt) {
    && (forall v: SuccessValues | v.attempt == a :: Do(row, Succeed(v)) == row)
    && (forall next, error :: Do(row, Fail(a, next, error)) == row)
    && (forall approved, reason :: Do(row, RejectScope(Some(a), approved, reason)) == row)
  }

  /**
   * After any run with a begin, a report without a generation is taken as current exactly when the
   * latest begin has its count and its time and no complete success has come since; else the row
   * ignores it.
   */
  lemma UnfencedIsCurrentIff(row: Row, steps: seq<Step>, late: Attempt)
    requires Issued(row, steps) != [] && late.generation.None? && late.count > 0
    ensures Current(Run(row, steps), late) <==>
              Latest(row, steps).count == late.count && Latest(row, steps).at == late.at
                  && Run(row, steps).retryCount != 0
    ensures !Current(Run(row, steps), late) ==> IgnoresReports(Run(row, steps), late)
  {
    LatestIsHeldAfterBegins(row, steps);
  }

  /**
   * So distinct begin times fence by themselves: an earlier attempt is ignored after any later begin at
   * another time.
   */
  lemma DistinctBeginTimesFence(row: Row, steps: seq<Step>, late: Attempt)
    requires Issued(row, steps) != [] && late.generation.None? && late.count > 0
    requires forall step | step in steps && step.Begin? :: step.at != late.at
    ensures IgnoresReports(Run(row, steps), late)
  {
    LatestIsABegin(row, steps);
    UnfencedIsCurrentIff(row, steps, late);
  }

  lemma {:induction false} LatestIsABegin(row: Row, steps: seq<Step>)
    requires Issued(row, steps) != []
    ensures exists step :: step in steps && step.Begin? && step.at == Latest(row, steps).at
    decreases |steps|
  {
    var next := Do(row, steps[0]);
    var rest := Issued(next, steps[1..]);
    if rest == [] {
      assert steps[0] in steps && Issued(row, steps) == [BeginAttempt(row, steps[0].at)];
    } else {
      LatestIsABegin(next, steps[1..]);
      assert Latest(row, steps) == Latest(next, steps[1..]);
      var step :| step in steps[1..] && step.Begin? && step.at == Latest(row, steps).at;
      assert step in steps;
    }
  }

  /**
   * Equal begin times do not: three begins at one moment, the second attempt completing in between,
   * bring the count of the first attempt round again. Its worker has not reported so far; its late
   * failure then changes the row, and would not with its generation.
   */
  lemma CountAndTimeAloneDoNotFence()
    ensures exists row: Row, steps: seq<Step> ::
              && Begins(steps) == 3 && (forall step | step in steps :: FencedBy(step) != Some(row.generation + 1))
              && Issued(row, steps) != []
              && var late := Issued(row, steps)[0];
                 && Do(Run(row, steps), Fail(late, None, "late")) == Run(row, steps)
                 && Do(Run(row, steps), Fail(late.(generation := None), None, "late")) != Run(row, steps)
  {
    var complete := SuccessValues(Attempt(2, Some(2), 0), "hash", "v1", Some(ExtractReadiness(
      Evidence(true, true, true, true, true, true, false, true, true, true))), {}, false, true, true, false, None,
          None);
    var done := Succeed(complete);
    var steps := [Begin(0), Begin(0), done, Begin(0)];
    var r1 := Do(FRESH, Begin(0));
    var r2 := Do(r1, Begin(0));
    var r3 := Do(r2, done);
    var r4 := Do(r3, Begin(0));
    assert r3.retryCount == 0 && r3.generation == 2;
    assert r4.retryCount == 1 && r4.generation == 3 && r4.lastAttemptAt == Some(0) && r4.ingestState == DetailPending;
    RunFour(FRESH, Begin(0), Begin(0), done, Begin(0));
    var late := Attempt(1, Some(1), 0);
    LateFailureCounts(r4, late);
    assert Issued(FRESH, steps)[0] == late && Run(FRESH, steps) == r4 && Begins(steps) == 3;
    assert forall step | step in steps :: step == Begin(0) || step == done;
  }

  lemma LateFailureCounts(row: Row, late: Attempt)
    requires row.ingestState == DetailPending && Current(row, late.(generation := None)) && !Current(row, late)
    ensures Do(row, Fail(late, None, "late")) == row
    ensures Do(row, Fail(late.(generation := None), None, "late")) != row
  {
  }

  lemma RunFour(row: Row, a: Step, b: Step, c: Step, d: Step)
    requires a.Begin?
    ensures Run(row, [a, b, c, d]) == Do(Do(Do(Do(row, a), b), c), d)
    ensures Begins([a, b, c, d])
            == 1 + (if b.Begin? then 1 else 0) + (if c.Begin? then 1 else 0) + if d.Begin? then 1 else 0
    ensures |Issued(row, [a, b, c, d])| > 0 && Issued(row, [a, b, c, d])[0] == BeginAttempt(row, a.at)
  {
    assert [a, b, c, d][1..] == [b, c, d] && [b, c, d][1..] == [c, d] && [c, d][1..] == [d] && [d][1..] == [];
    var r1 := Do(row, a);
    var r2 := Do(r1, b);
    var r3 := Do(r2, c);
    assert Run(r3, [d]) == Run(Do(r3, d), []) && Run(r2, [c, d]) == Run(r3, [d]);
    assert Run(r1, [b, c, d]) == Run(r2, [c, d]) && Run(row, [a, b, c, d]) == Run(r1, [b, c, d]);
    assert Begins([]) == 0 && Begins([d]) == (if d.Begin? then 1 else 0) + Begins([]);
    assert Begins([c, d]) == (if c.Begin? then 1 else 0) + Begins([d]);
    assert Begins([b, c, d]) == (if b.Begin? then 1 else 0) + Begins([c, d]);
  }

  /** A scope rejection followed by the failure report of the same attempt leaves the match in review, not due. */
  lemma RejectionOutlivesItsFailureReport(row: Row, a: Attempt, reason: string, error: string)
    requires Current(row, a)
    ensures var last := Run(row, [RejectScope(Some(a), true, reason), Fail(a, None, error)]);
            last.ingestState == InReview && last.nextRetryAt == None && !last.stageInScope
            && forall now :: !Due(last, now)
  {
    var reject, fail := RejectScope(Some(a), true, reason), Fail(a, None, error);
    assert [reject, fail][1..] == [fail] && [fail][1..] == [];
    assert Run(row, [reject, fail]) == Run(Do(row, reject), [fail]);
    assert Run(Do(row, reject), [fail]) == Run(Do(Do(row, reject), fail), []);
  }
}
