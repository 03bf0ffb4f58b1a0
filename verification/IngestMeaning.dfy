/** What the status row says after a reported success: whether the stored version is complete, and which it is. */
module IngestMeaning {
  import opened Wrappers
  import opened Facts
  import opened IngestProtocol
  import opened IngestVersions

  /** The report is of the row's own attempt and is not refused for a missing artifact. */
  predicate Taken(row: Row, v: SuccessValues) {
    && row.retryCount == v.attempt.count && row.lastAttemptAt == Some(v.attempt.at)
    && (v.attempt.generation.Some? ==> v.attempt.generation == Some(row.generation))
    && v.artifactPersisted
  }

  /** A report calls its content unchanged only when some version was stored before. */
  predicate KnowsAVersion(row: Row, v: SuccessValues) {
    v.artifactUnchanged ==> row.contentHash.Some?
  }

  lemma TakenReportsStore(row: Row, v: SuccessValues)
    requires Coherent(row) && Reported(Succeed(v)) && Taken(row, v) && KnowsAVersion(row, v)
    ensures var after := SuccessRow(row, v); after.contentHash.Some? && exists e :: Stores(after, e)
  {
    var e :| FromEvidence(v, e);
    if SuccessOutcome(row, v) == Normalized {
      NormalizationStores(row, v, e);
    } else {
      OtherOutcomesKeepAssessment(row, v);
      var e0 :| Stores(row, e0);
      assert Stores(SuccessRow(row, v), e0);
    }
  }

  lemma TakenIsWritten(row: Row, v: SuccessValues)
    requires Taken(row, v) && Reported(Succeed(v))
    ensures SuccessOutcome(row, v) != Superseded && SuccessOutcome(row, v) != Raised
  {
    var e :| FromEvidence(v, e);
    assert v.artifactUnchanged || v.facts.Some?;
  }

  /** Whatever is reported, what is stored then decides how the match goes on. */
  lemma SettledByDetail(row: Row, v: SuccessValues)
    requires SuccessOutcome(row, v) != Superseded && SuccessOutcome(row, v) != Raised
    ensures var after := SuccessRow(row, v);
            && (after.ingestState == Detailed <==> after.detailed == Ready || after.detailed == Unscorable)
            && (after.ingestState == InReview <==> after.detailed == ReviewRequired)
            && (after.ingestState == ToRetry <==> after.detailed == Pending || after.detailed == Retryable)
  {
    match SuccessOutcome(row, v)
    case Unchanged =>
    case RetainedMoreComplete =>
    case SentToReview =>
    case Normalized =>
  }

  /** A changed report without facts never replaces a stored version and is never held for review. */
  lemma WithoutFactsNothingIsReplaced(row: Row, v: SuccessValues)
    requires Current(row, v.attempt) && !v.artifactUnchanged && v.facts.None? && row.contentHash.Some?
    ensures SuccessOutcome(row, v) == RetainedMoreComplete && SameAssessment(SuccessRow(row, v), row)
  {
  }

  lemma SettledByMissing(row: Row, v: SuccessValues, e: Evidence)
    requires SuccessOutcome(row, v) != Superseded && SuccessOutcome(row, v) != Raised && Stores(SuccessRow(row, v), e)
    ensures var after := SuccessRow(row, v);
            && (after.ingestState == Detailed <==> after.missing == {})
            && (after.ingestState == ToRetry <==> after.missing != {})
  {
    SettledByDetail(row, v);
    CompleteIffNothingMissing(e);
  }

  lemma TakenReportsSettle(row: Row, v: SuccessValues)
    requires Coherent(row) && Reported(Succeed(v)) && Taken(row, v) && KnowsAVersion(row, v)
    ensures var after := SuccessRow(row, v);
            && after.contentHash.Some? && (after.ingestState == Detailed <==> after.missing == {})
            && (after.ingestState == ToRetry <==> after.missing != {})
  {
    TakenIsWritten(row, v);
    TakenReportsStore(row, v);
    var e :| Stores(SuccessRow(row, v), e);
    SettledByMissing(row, v, e);
  }

  /**
   * On every run from a fresh match: a report that is taken, whether its version is unchanged, less
   * complete, held for review or stored, leaves the match detailed exactly when the version then stored
   * misses nothing, and to be retried exactly when it misses something.
   */
  lemma TakenReportsSettleTheMatch(steps: seq<Step>, v: SuccessValues)
    requires AllReported(steps) && Reported(Succeed(v))
    requires Taken(Run(FRESH, steps), v) && KnowsAVersion(Run(FRESH, steps), v)
    ensures var after := Do(Run(FRESH, steps), Succeed(v));
            && after.contentHash.Some?
            && (after.ingestState == Detailed <==> after.missing == {})
            && (after.ingestState == ToRetry <==> after.missing != {})
  {
    AcceptedVersionsOnlyImprove(FRESH, steps);
    TakenReportsSettle(Run(FRESH, steps), v);
  }

  /* ---------- which version is kept ---------- */

  predicate IsOneOf(facts: Readiness, status: ComponentStatus) {
    status in {facts.normalization.status, facts.playerScoring.status, facts.draftModel.status, facts.teamState.status,
               facts.objectiveAnalysis.status, facts.postmatchAttribution.status}
  }

  /** The detail of a report is ready when none of its six components is waiting for a retry or a review. */
  predicate ReadyDetail(facts: Readiness) {
    !IsOneOf(facts, Retryable) && !IsOneOf(facts, ReviewRequired)
  }

  /** No stored score is above the reported one. */
  predicate NoWorse(row: Row, facts: Readiness) {
    && Score(row.detailed) <= (if ReadyDetail(facts) then Score(Ready) else Score(Retryable))
    && Score(row.player) <= Score(facts.playerScoring.status) && Score(row.state) <= Score(facts.teamState.status)
    && Score(row.draft) <= Score(facts.draftModel.status)
  }

  predicate NoBetter(row: Row, facts: Readiness) {
    && Score(row.detailed) >= (if ReadyDetail(facts) then Score(Ready) else Score(Retryable))
    && Score(row.player) >= Score(facts.playerScoring.status) && Score(row.state) >= Score(facts.teamState.status)
    && Score(row.draft) >= Score(facts.draftModel.status)
  }

  lemma ScoredDetailIsReady(facts: Readiness)
    ensures ScoredDetail(facts) == if ReadyDetail(facts) then Ready else Retryable
  {
  }

  lemma DecidedByFour(was: seq<nat>, now: seq<nat>, missingWas: set<Reason>, missingNow: set<Reason>, upgrade: bool)
    requires |was| == |now| == 4
    ensures var (accept, correction) := Decide(was, now, missingWas, missingNow, upgrade);
            var noWorse := was[0] <= now[0] && was[1] <= now[1] && was[2] <= now[2] && was[3] <= now[3];
            var noBetter := was[0] >= now[0] && was[1] >= now[1] && was[2] >= now[2] && was[3] >= now[3];
            && (accept <==> noWorse && missingNow <= missingWas && (!noBetter || missingNow < missingWas || upgrade))
            && (correction <==> !accept && noWorse && noBetter && missingNow == missingWas)
  {
    assert (forall i | 0 <= i < 4 :: now[i] >= was[i]) <==>
           was[0] <= now[0] && was[1] <= now[1] && was[2] <= now[2] && was[3] <= now[3];
    assert (exists i | 0 <= i < 4 :: now[i] > was[i]) <==>
           was[0] < now[0] || was[1] < now[1] || was[2] < now[2] || was[3] < now[3];
    assert now == was <==> now[0] == was[0] && now[1] == was[1] && now[2] == was[2] && now[3] == was[3];
  }

  /**
   * Whatever is stored, a changed report replaces it exactly when none of the four scores drops, nothing
   * more is missing, and something improves or the processor is another one; it is a correction exactly
   * when it is not accepted and equal in all of these.
   */
  lemma ReplacedIffNoWorse(row: Row, v: SuccessValues)
    requires !v.artifactUnchanged && row.contentHash.Some? && v.facts.Some?
    ensures var noWorse, noBetter := NoWorse(row, v.facts.value), NoBetter(row, v.facts.value);
            && (AcceptVersion(row, v).0 <==>
                  noWorse && v.missing <= row.missing
                  && (!noBetter || v.missing < row.missing || row.processorVersion != Some(v.processorVersion)))
            && (AcceptVersion(row, v).1 <==>
                  !AcceptVersion(row, v).0 && noWorse && noBetter && v.missing == row.missing)
  {
    var facts := v.facts.value;
    ScoredDetailIsReady(facts);
    AcceptanceDecides(row, v);
    DecidedByFour(Scores(row.detailed, row.player, row.state, row.draft), ReportedScores(facts), row.missing, v.missing,
                  row.processorVersion != Some(v.processorVersion));
  }

  /* ---------- a stored version ---------- */

  predicate Complete(ready: bool, status: ComponentStatus) {
    status == if ready then Ready else Retryable
  }

  /** The row holds this version: what the evidence lacks, and how far each component of it can be used. */
  ghost predicate Holds(row: Row, v: SuccessValues, e: Evidence) {
    && row.contentHash == Some(v.contentHash) && row.processorVersion == Some(v.processorVersion)
    && row.lastError.None? && (forall reason :: reason in row.missing <==> Failed(e, reason))
    && Complete(e.sourceParsed && e.basicResult, row.basicResult)
    && Complete(e.sourceParsed && e.basicResult && e.tenPlayers && e.playerFieldsPresent, row.player)
    && Complete(e.sourceParsed && e.basicResult && e.tenPicks, row.draft)
    && (row.state == Ready <==> e.sourceParsed && e.basicResult && e.goldComplete)
    && (row.state == Unscorable <==> e.sourceParsed && e.basicResult && !e.goldComplete)
  }

  /**
   * A version that is stored is the reported one. It is retried at the delay of its attempt unless
   * nothing is missing, and then the count of attempts starts over.
   */
  lemma StoredVersionIsTheReport(row: Row, v: SuccessValues, e: Evidence)
    requires FromEvidence(v, e) && SuccessOutcome(row, v) == Normalized
    ensures var after := SuccessRow(row, v);
            && Holds(after, v, e) && after.rawVersion == row.rawVersion + 1
            && (after.nextRetryAt.Some? <==> after.missing != {} && v.attempt.count <= 5)
            && (after.retryCount == if after.missing == {} then 0 else row.retryCount)
            && (after.firstUsableAt == if row.firstUsableAt.Some? then row.firstUsableAt else v.firstUsableAt)
  {
    assert SuccessRow(row, v) == NormalizedRow(row, v, ExtractReadiness(e));
    StoredColumns(row, v, e);
    CompleteIffNothingMissing(e);
  }

  lemma StoredColumns(row: Row, v: SuccessValues, e: Evidence)
    requires v.missing == Process(e).missing
    ensures Holds(NormalizedRow(row, v, ExtractReadiness(e)), v, e)
  {
    forall reason { MissingIffFailed(e, reason); }
    StatusesOf(e);
  }

  /** A stored version that is neither complete nor to be retried goes to review. */
  lemma NeitherCompleteNorRetriedIsReviewed(row: Row, v: SuccessValues)
    requires SuccessOutcome(row, v) == Normalized && !v.detailComplete && !v.retryable
    ensures SuccessRow(row, v).detailed == ReviewRequired && SuccessRow(row, v).ingestState == InReview
  {
  }

  /** The version number counts the normalizations of the match, and the first usable time is never replaced. */
  lemma {:induction false} VersionsAreCounted(row: Row, steps: seq<Step>)
    ensures Run(row, steps).rawVersion == row.rawVersion + Normalizations(row, steps)
    ensures row.firstUsableAt.Some? ==> Run(row, steps).firstUsableAt == row.firstUsableAt
    decreases |steps|
  {
    if steps != [] {
      VersionStep(row, steps[0]);
      VersionsAreCounted(Do(row, steps[0]), steps[1..]);
    }
  }

  lemma VersionStep(row: Row, step: Step)
    ensures Do(row, step).rawVersion == row.rawVersion + if Normalizes(row, step) then 1 else 0
    ensures row.firstUsableAt.Some? ==> Do(row, step).firstUsableAt == row.firstUsableAt
  {
    match step
    case Begin(_) =>
    case Succeed(v) =>
    case Fail(_, _, _) =>
    case RejectScope(_, _, _) =>
    case Reconcile(_) =>
  }

  /** What can first be used is dated by the first report of a parsed source with its basic result. */
  lemma FirstUsableIsDated(row: Row, v: SuccessValues, e: Evidence)
    requires FromEvidence(v, e) && SuccessOutcome(row, v) == Normalized && row.firstUsableAt.None?
    requires v.firstUsableAt.Some? <==> Process(e).firstUsable
    ensures SuccessRow(row, v).firstUsableAt.Some? <==> e.sourceParsed && e.basicResult
  {
    StatusesOf(e);
  }
}
