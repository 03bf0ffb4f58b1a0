/** Accepted versions only improve, and a match is normalized only a bounded number of times. */
module IngestVersions {
  import opened Wrappers
  import opened Facts
  import opened IngestProtocol

  /** The values are those the ingestor reports for a payload with the given evidence. */
  ghost predicate FromEvidence(v: SuccessValues, e: Evidence) {
    && v.facts == (if v.artifactUnchanged then None else Some(ExtractReadiness(e)))
    && v.missing == Process(e).missing
    && v.detailComplete == Process(e).detailComplete
    && v.retryable == Process(e).retryable
    && v.attempt.count >= 1
    && v.nextRetryAt == if v.retryable then NextRetryAt(v.attempt.at, v.attempt.count) else None
  }

  ghost predicate Reported(step: Step) {
    step.Succeed? ==> exists e :: FromEvidence(step.values, e)
  }

  ghost predicate AllReported(steps: seq<Step>) {
    forall step | step in steps :: Reported(step)
  }

  /** The row stores the assessment of the evidence. */
  ghost predicate Stores(row: Row, e: Evidence) {
    && row.detailed == (if Process(e).detailComplete then Ready else Retryable)
    && row.player == ExtractReadiness(e).playerScoring.status
    && row.state == ExtractReadiness(e).teamState.status
    && row.draft == ExtractReadiness(e).draftModel.status
    && row.missing == Process(e).missing
  }

  /** Once a version has been accepted, the row stores the assessment of some evidence. */
  ghost predicate Coherent(row: Row) {
    row.contentHash.Some? ==> exists e :: Stores(row, e)
  }

  /**
   * Comparing four scores and the missing sets comes down to comparing the missing sets: a new
   * version is accepted exactly when strictly less is missing, or the same and the processor is
   * another one; it is held for review exactly when nothing differs but the content.
   */
  lemma AcceptanceComparesMissingSets(row: Row, e0: Evidence, v: SuccessValues, e: Evidence)
    requires row.contentHash.Some? && Stores(row, e0) && FromEvidence(v, e) && !v.artifactUnchanged
    ensures AcceptVersion(row, v).0 <==>
              v.missing < row.missing
              || (v.missing == row.missing && row.processorVersion != Some(v.processorVersion))
    ensures AcceptVersion(row, v).1 <==> v.missing == row.missing && row.processorVersion == Some(v.processorVersion)
  {
    var was := Scores(row.detailed, row.player, row.state, row.draft);
    ScoresFollowMissing(row, e0, e);
    DecideByMissing(was, ReportedScores(v.facts.value), row.missing, v.missing,
                    row.processorVersion != Some(v.processorVersion));
    AcceptanceDecides(row, v);
  }

  /** The scores that a report is compared by. */
  function ReportedScores(facts: Readiness): seq<nat> {
    Scores(ScoredDetail(facts), facts.playerScoring.status, facts.teamState.status, facts.draftModel.status)
  }

  lemma AcceptanceDecides(row: Row, v: SuccessValues)
    requires row.contentHash.Some? && v.facts.Some? && !v.artifactUnchanged
    ensures AcceptVersion(row, v)
            == Decide(Scores(row.detailed, row.player, row.state, row.draft), ReportedScores(v.facts.value),
                      row.missing, v.missing, row.processorVersion != Some(v.processorVersion))
  {
  }

  lemma DecideByMissing(was: seq<nat>, now: seq<nat>, missingWas: set<Reason>, missingNow: set<Reason>, upgrade: bool)
    requires |was| == |now|
    requires missingNow <= missingWas ==> forall i | 0 <= i < |was| :: now[i] >= was[i]
    requires missingNow == missingWas ==> now == was
    ensures Decide(was, now, missingWas, missingNow, upgrade)
         == (missingNow < missingWas || (missingNow == missingWas && upgrade), missingNow == missingWas && !upgrade)
  {
  }

  /** The scored detail state is the one that will be stored, and all four scores follow the missing set. */
  lemma ScoresFollowMissing(row: Row, e0: Evidence, e: Evidence)
    requires Stores(row, e0)
    ensures var facts := ExtractReadiness(e);
            var was := Scores(row.detailed, row.player, row.state, row.draft);
            var now := Scores(ScoredDetail(facts), facts.playerScoring.status, facts.teamState.status,
                              facts.draftModel.status);
            && (Process(e).missing <= row.missing ==> forall i | 0 <= i < 4 :: now[i] >= was[i])
            && (Process(e).missing == row.missing ==> now == was)
  {
    ScoredDetailIsStoredDetail(e);
    CompletionFollowsMissing(e0, e);
    if Process(e).missing <= Process(e0).missing { LessMissingIsMoreReady(e0, e); }
    if Process(e).missing == Process(e0).missing { MissingDeterminesStatuses(e0, e); }
    CompareScores(row, ExtractReadiness(e), ExtractReadiness(e0), Process(e), Process(e0));
  }

  lemma CompletionFollowsMissing(e0: Evidence, e: Evidence)
    ensures Process(e).missing <= Process(e0).missing && Process(e0).detailComplete ==> Process(e).detailComplete
    ensures Process(e).missing == Process(e0).missing ==> Process(e0).detailComplete == Process(e).detailComplete
  {
    CompleteIffNothingMissing(e0);
    CompleteIffNothingMissing(e);
  }

  lemma CompareScores(row: Row, r: Readiness, r0: Readiness, p: Processing, p0: Processing)
    requires row.detailed == (if p0.detailComplete then Ready else Retryable) && row.missing == p0.missing
    requires row.player == r0.playerScoring.status && row.state == r0.teamState.status
             && row.draft == r0.draftModel.status
    requires ScoredDetail(r) == if p.detailComplete then Ready else Retryable
    requires p.missing <= p0.missing && p0.detailComplete ==> p.detailComplete
    requires p.missing <= p0.missing ==>
               Score(r0.playerScoring.status) <= Score(r.playerScoring.status)
               && Score(r0.teamState.status) <= Score(r.teamState.status)
               && Score(r0.draftModel.status) <= Score(r.draftModel.status)
    requires p.missing == p0.missing ==>
               p0.detailComplete == p.detailComplete && r0.playerScoring.status == r.playerScoring.status
               && r0.teamState.status == r.teamState.status && r0.draftModel.status == r.draftModel.status
    ensures var was := Scores(row.detailed, row.player, row.state, row.draft);
            var now := Scores(ScoredDetail(r), r.playerScoring.status, r.teamState.status, r.draftModel.status);
            && (p.missing <= row.missing ==> forall i | 0 <= i < 4 :: now[i] >= was[i])
            && (p.missing == row.missing ==> now == was)
  {
  }

  /** The detail state that is scored for a version is the one that is stored for it. */
  lemma ScoredDetailIsStoredDetail(e: Evidence)
    ensures ScoredDetail(ExtractReadiness(e)) == if Process(e).detailComplete then Ready else Retryable
  {
    CompleteIffNothingMissing(e);
    UnscorableStateIsRetried(e);
  }

  /** The components of the stored assessment that acceptance compares. */
  ghost predicate AtLeastAsGood(later: Row, earlier: Row) {
    && later.contentHash.Some?
    && Score(earlier.detailed) <= Score(later.detailed) && Score(earlier.player) <= Score(later.player)
    && Score(earlier.state) <= Score(later.state) && Score(earlier.draft) <= Score(later.draft)
    && later.missing <= earlier.missing
  }

  predicate SameAssessment(a: Row, b: Row) {
    && a.detailed == b.detailed && a.player == b.player && a.state == b.state && a.draft == b.draft
    && a.missing == b.missing && a.contentHash == b.contentHash && a.processorVersion == b.processorVersion
  }

  predicate Normalizes(row: Row, step: Step) {
    step.Succeed? && SuccessOutcome(row, step.values) == Normalized
  }

  lemma OnlyNormalizationChangesAssessment(row: Row, step: Step)
    requires !Normalizes(row, step)
    ensures SameAssessment(Do(row, step), row)
  {
    match step
    case Begin(_) =>
    case Succeed(v) => OtherOutcomesKeepAssessment(row, v);
    case Fail(_, _, _) =>
    case RejectScope(_, _, _) =>
    case Reconcile(_) =>
  }

  lemma OtherOutcomesKeepAssessment(row: Row, v: SuccessValues)
    requires SuccessOutcome(row, v) != Normalized
    ensures SameAssessment(SuccessRow(row, v), row)
  {
    match SuccessOutcome(row, v)
    case Superseded =>
    case Unchanged =>
    case RetainedMoreComplete =>
    case SentToReview =>
    case Raised =>
  }

  lemma NormalizationStores(row: Row, v: SuccessValues, e: Evidence)
    requires FromEvidence(v, e) && SuccessOutcome(row, v) == Normalized
    ensures Stores(SuccessRow(row, v), e) && SuccessRow(row, v).contentHash.Some?
    ensures SuccessRow(row, v).processorVersion == Some(v.processorVersion) && !v.artifactUnchanged
  {
    CompleteIffNothingMissing(e);
  }

  lemma LessMissingIsAsGood(row: Row, e0: Evidence, later: Row, e: Evidence)
    requires Stores(row, e0) && Stores(later, e) && later.contentHash.Some? && later.missing <= row.missing
    ensures AtLeastAsGood(later, row)
  {
    LessMissingIsMoreReady(e0, e);
    CompletionFollowsMissing(e0, e);
  }

  lemma StepImproves(row: Row, step: Step)
    requires Coherent(row) && Reported(step)
    ensures Coherent(Do(row, step))
    ensures row.contentHash.Some? ==> AtLeastAsGood(Do(row, step), row)
  {
    if Normalizes(row, step) {
      var e :| FromEvidence(step.values, e);
      NormalizationStores(row, step.values, e);
      if row.contentHash.Some? {
        var e0 :| Stores(row, e0);
        AcceptanceComparesMissingSets(row, e0, step.values, e);
        LessMissingIsAsGood(row, e0, SuccessRow(row, step.values), e);
      }
    } else {
      OnlyNormalizationChangesAssessment(row, step);
      if row.contentHash.Some? {
        var e0 :| Stores(row, e0);
        assert Stores(Do(row, step), e0);
      }
    }
  }

  /** Over every run, no stored score ever drops and the missing set never grows. */
  lemma {:induction false} AcceptedVersionsOnlyImprove(row: Row, steps: seq<Step>)
    requires Coherent(row) && AllReported(steps)
    ensures Coherent(Run(row, steps))
    ensures row.contentHash.Some? ==> AtLeastAsGood(Run(row, steps), row)
    decreases |steps|
  {
    if steps != [] {
      assert steps[0] in steps;
      StepImproves(row, steps[0]);
      AcceptedVersionsOnlyImprove(Do(row, steps[0]), steps[1..]);
    }
  }

  /* ---------- how often a match is normalized ---------- */

  function Normalizations(row: Row, steps: seq<Step>): nat
    decreases |steps|
  {
    if steps == [] then 0
    else (if Normalizes(row, steps[0]) then 1 else 0) + Normalizations(Do(row, steps[0]), steps[1..])
  }

  /** Normalizations that replaced a version of another processor. */
  function Upgrades(row: Row, steps: seq<Step>): nat
    decreases |steps|
  {
    if steps == [] then 0
    else (if Normalizes(row, steps[0]) && row.contentHash.Some?
             && row.processorVersion != Some(steps[0].values.processorVersion) then 1 else 0)
         + Upgrades(Do(row, steps[0]), steps[1..])
  }

  function EveryReason(): set<Reason> {
    {SourceUnparsed, BasicResultIncomplete, TenPlayersIncomplete, PlayerComponentsIncomplete, TenPicksIncomplete,
     GoldTimelineIncomplete, ObjectivesIncomplete, TeamfightsMissing, BuybackLogsMissing}
  }

  lemma SubsetIsNoLarger(small: set<Reason>, large: set<Reason>)
    requires small <= large
    ensures |small| <= |large| && (small != large ==> |small| < |large|)
  {
    var rest := large - small;
    assert large == small + rest;
    assert |large| == |small| + |rest|;
    if small != large { assert rest != {}; }
  }

  lemma AtMostNineMissing(missing: set<Reason>)
    ensures |missing| <= 9
  {
    forall reason: Reason ensures reason in EveryReason() {
      match reason {
        case SourceUnparsed => case BasicResultIncomplete => case TenPlayersIncomplete =>
        case PlayerComponentsIncomplete => case TenPicksIncomplete => case GoldTimelineIncomplete =>
        case ObjectivesIncomplete => case TeamfightsMissing => case BuybackLogsMissing =>
      }
    }
    SubsetIsNoLarger(missing, EveryReason());
  }

  /** How many more normalizations a row admits with one processor. */
  ghost function Budget(row: Row): nat {
    if row.contentHash.None? then 10 else |row.missing|
  }

  /** A normalization uses up budget unless it brings another processor. */
  lemma NormalizationUsesBudget(row: Row, v: SuccessValues)
    requires Coherent(row) && Reported(Succeed(v)) && SuccessOutcome(row, v) == Normalized
    ensures Budget(SuccessRow(row, v)) <= Budget(row)
    ensures row.contentHash.None? || row.processorVersion == Some(v.processorVersion) ==>
              Budget(SuccessRow(row, v)) < Budget(row)
  {
    var e :| FromEvidence(v, e);
    NormalizationStores(row, v, e);
    AtMostNineMissing(v.missing);
    if row.contentHash.Some? {
      var e0 :| Stores(row, e0);
      AcceptanceComparesMissingSets(row, e0, v, e);
      SubsetIsNoLarger(v.missing, row.missing);
    }
  }

  lemma {:induction false} NormalizationsAreBounded(row: Row, steps: seq<Step>)
    requires Coherent(row) && AllReported(steps)
    ensures Normalizations(row, steps) <= Budget(row) + Upgrades(row, steps)
    decreases |steps|
  {
    if steps != [] {
      assert steps[0] in steps;
      StepImproves(row, steps[0]);
      NormalizationsAreBounded(Do(row, steps[0]), steps[1..]);
      if Normalizes(row, steps[0]) {
        NormalizationUsesBudget(row, steps[0].values);
      } else {
        OnlyNormalizationChangesAssessment(row, steps[0]);
      }
    }
  }

  ghost predicate OneProcessor(steps: seq<Step>, version: string) {
    forall step | step in steps && step.Succeed? :: step.values.processorVersion == version
  }

  lemma {:induction false} OneProcessorNeverUpgrades(row: Row, steps: seq<Step>, version: string)
    requires OneProcessor(steps, version) && (row.contentHash.Some? ==> row.processorVersion == Some(version))
    ensures Upgrades(row, steps) == 0
    decreases |steps|
  {
    if steps != [] {
      assert steps[0] in steps;
      if !Normalizes(row, steps[0]) { OnlyNormalizationChangesAssessment(row, steps[0]); }
      OneProcessorNeverUpgrades(Do(row, steps[0]), steps[1..], version);
    }
  }

  /** With one processor a discovered match is normalized at most ten times, however long it runs. */
  lemma AtMostTenNormalizations(steps: seq<Step>, version: string)
    requires AllReported(steps) && OneProcessor(steps, version)
    ensures Normalizations(FRESH, steps) <= 10
  {
    NormalizationsAreBounded(FRESH, steps);
    OneProcessorNeverUpgrades(FRESH, steps, version);
  }

  /* ---------- ten is reached: one finding more at a time ---------- */

  /**
   * The artifact is reported unchanged exactly when its hash and the processor are those of the row.
   * The ingestor reads the row before it begins; nothing but its own attempt can normalize since.
   */
  predicate Compared(row: Row, step: Step) {
    step.Succeed? ==>
      (step.values.artifactUnchanged <==>
        row.contentHash == Some(step.values.contentHash) && row.processorVersion == Some(step.values.processorVersion))
  }

  predicate ComparedRun(row: Row, steps: seq<Step>)
    decreases |steps|
  {
    steps != [] ==> Compared(row, steps[0]) && ComparedRun(Do(row, steps[0]), steps[1..])
  }

  function Stage(k: nat): Evidence {
    Evidence(k >= 1, k >= 2, k >= 3, k >= 4, k >= 5, k >= 6, false, k >= 7, k >= 8, k >= 9)
  }

  lemma StagesMissLess(k: nat)
    requires k < 9
    ensures Process(Stage(k + 1)).missing < Process(Stage(k)).missing
  {
    forall reason: Reason | reason in Process(Stage(k + 1)).missing ensures reason in Process(Stage(k)).missing {
      MissingIffFailed(Stage(k), reason);
      MissingIffFailed(Stage(k + 1), reason);
    }
    var fixed :=
      if k == 0 then SourceUnparsed else if k == 1 then BasicResultIncomplete else if k == 2 then TenPlayersIncomplete
      else if k == 3 then PlayerComponentsIncomplete else if k == 4 then TenPicksIncomplete
      else if k == 5 then GoldTimelineIncomplete else if k == 6 then ObjectivesIncomplete
      else if k == 7 then TeamfightsMissing else BuybackLogsMissing;
    MissingIffFailed(Stage(k), fixed);
    MissingIffFailed(Stage(k + 1), fixed);
  }

  /** The content of each stage is another one, and so is its hash. */
  function StageHash(k: nat): string {
    seq(k, i => 'c')
  }

  lemma StageHashesDiffer(k: nat, l: nat)
    requires k != l
    ensures StageHash(k) != StageHash(l)
  {
    assert |StageHash(k)| == k && |StageHash(l)| == l;
  }

  function Reports(row: Row, k: nat): SuccessValues {
    var a, p := BeginAttempt(row, k), Process(Stage(k));
    SuccessValues(a, StageHash(k), "v1", Some(p.readiness), p.missing, false, true, p.detailComplete, p.retryable,
                  if p.retryable then NextRetryAt(k, a.count) else None, None)
  }

  /** Attempt after attempt, each finding one thing more. */
  function Climb(row: Row, k: nat): seq<Step>
    decreases 10 - k
  {
    if k >= 10 then []
    else [Begin(k), Succeed(Reports(row, k))] + Climb(SuccessRow(BeginRow(row, k), Reports(row, k)), k + 1)
  }

  /** The row of a climb: fresh, or holding the stage before. */
  ghost predicate Climbing(row: Row, k: nat) {
    if k == 0 then row.contentHash.None?
    else row.contentHash == Some(StageHash(k - 1)) && row.processorVersion == Some("v1") && Stores(row, Stage(k - 1))
  }

  lemma StageIsAccepted(begun: Row, k: nat, v: SuccessValues)
    requires 0 < k < 10 && Climbing(begun, k) && FromEvidence(v, Stage(k)) && !v.artifactUnchanged
    ensures AcceptVersion(begun, v).0
  {
    StagesMissLess(k - 1);
    AcceptanceComparesMissingSets(begun, Stage(k - 1), v, Stage(k));
  }

  lemma StageIsNormalized(row: Row, k: nat)
    requires k < 10 && Climbing(row, k)
    ensures Normalizes(BeginRow(row, k), Succeed(Reports(row, k))) && FromEvidence(Reports(row, k), Stage(k))
    ensures Compared(BeginRow(row, k), Succeed(Reports(row, k)))
    ensures Climbing(SuccessRow(BeginRow(row, k), Reports(row, k)), k + 1)
  {
    var begun, v := BeginRow(row, k), Reports(row, k);
    if k > 0 {
      StageIsAccepted(begun, k, v);
      StageHashesDiffer(k - 1, k);
    }
    AcceptedIsNormalized(begun, v);
    NormalizationStores(begun, v, Stage(k));
  }

  lemma AcceptedIsNormalized(row: Row, v: SuccessValues)
    requires Current(row, v.attempt) && !v.artifactUnchanged && v.facts.Some? && v.artifactPersisted
    requires row.contentHash.None? || AcceptVersion(row, v).0
    ensures SuccessOutcome(row, v) == Normalized && SuccessRow(row, v) == NormalizedRow(row, v, v.facts.value)
  {
  }

  lemma {:induction false} ClimbNormalizes(row: Row, k: nat)
    requires k <= 10 && Climbing(row, k)
    ensures AllReported(Climb(row, k)) && OneProcessor(Climb(row, k), "v1") && ComparedRun(row, Climb(row, k))
    ensures Normalizations(row, Climb(row, k)) == 10 - k
    decreases 10 - k
  {
    if k < 10 {
      StageIsNormalized(row, k);
      var begun, v := BeginRow(row, k), Reports(row, k);
      var rest := Climb(SuccessRow(begun, v), k + 1);
      ClimbNormalizes(SuccessRow(begun, v), k + 1);
      NormalizedTwoMore(row, Begin(k), Succeed(v), rest);
      ReportedTwoMore(Begin(k), v, Stage(k), rest);
    }
  }

  lemma NormalizedTwoMore(row: Row, a: Step, b: Step, rest: seq<Step>)
    ensures Normalizations(row, [a, b] + rest)
            == (if Normalizes(row, a) then 1 else 0) + (if Normalizes(Do(row, a), b) then 1 else 0)
               + Normalizations(Do(Do(row, a), b), rest)
    ensures ComparedRun(row, [a, b] + rest)
            == (Compared(row, a) && Compared(Do(row, a), b) && ComparedRun(Do(Do(row, a), b), rest))
  {
    assert ([a, b] + rest)[1..] == [b] + rest && ([b] + rest)[1..] == rest;
    assert Normalizations(Do(row, a), [b] + rest)
           == (if Normalizes(Do(row, a), b) then 1 else 0) + Normalizations(Do(Do(row, a), b), rest);
    assert ComparedRun(Do(row, a), [b] + rest) == (Compared(Do(row, a), b) && ComparedRun(Do(Do(row, a), b), rest));
  }

  lemma ReportedTwoMore(a: Step, v: SuccessValues, e: Evidence, rest: seq<Step>)
    requires a.Begin? && FromEvidence(v, e) && AllReported(rest) && OneProcessor(rest, v.processorVersion)
    ensures AllReported([a, Succeed(v)] + rest) && OneProcessor([a, Succeed(v)] + rest, v.processorVersion)
  {
    assert Reported(a) && Reported(Succeed(v));
    assert forall step :: step in [a, Succeed(v)] + rest <==> step == a || step == Succeed(v) || step in rest;
  }

  /** The bound is reached by a run in which each payload is new and is reported as what it is. */
  lemma TenNormalizationsAreReached()
    ensures exists steps ::
              AllReported(steps) && ComparedRun(FRESH, steps) && OneProcessor(steps, "v1")
                  && Normalizations(FRESH, steps) == 10
  {
    ClimbNormalizes(FRESH, 0);
  }
}
