/**
 * Readiness of one completed match: which components the source evidence supports, which reasons
 * are missing, and the decision the ingest scheduler draws from them.
 */
module Facts {
  datatype ComponentStatus = Pending | Ready | Retryable | Unscorable | ReviewRequired

  datatype Reason =
    | SourceUnparsed
    | BasicResultIncomplete
    | TenPlayersIncomplete
    | PlayerComponentsIncomplete
    | TenPicksIncomplete
    | GoldTimelineIncomplete
    | ObjectivesIncomplete
    | TeamfightsMissing
    | BuybackLogsMissing

  /** The findings about the payload from which readiness is assessed. */
  datatype Evidence = Evidence(
    sourceParsed: bool,
    basicResult: bool,
    tenPlayers: bool,
    playerFieldsPresent: bool,
    tenPicks: bool,
    goldComplete: bool,
    stateWindowTooShort: bool,
    objectivesComplete: bool,
    teamfightsPresent: bool,
    buybackLogsPresent: bool)

  datatype Assessment = Assessment(status: ComponentStatus, reasons: set<Reason>)

  datatype Readiness = Readiness(
    normalization: Assessment,
    playerScoring: Assessment,
    draftModel: Assessment,
    teamState: Assessment,
    objectiveAnalysis: Assessment,
    postmatchAttribution: Assessment)
  {
    /** Some component has the status. */
    predicate Has(status: ComponentStatus) {
      || normalization.status == status || playerScoring.status == status || draftModel.status == status
      || teamState.status == status || objectiveAnalysis.status == status || postmatchAttribution.status == status
    }

    function AllReasons(): set<Reason> {
      normalization.reasons + playerScoring.reasons + draftModel.reasons + teamState.reasons
      + objectiveAnalysis.reasons + postmatchAttribution.reasons
    }
  }

  function Unless(holds: bool, reason: Reason): (s: set<Reason>)
  {
    if holds then {} else {reason}
  }

  /** Ready without reasons; otherwise retryable, or unscorable where retrying cannot help. */
  function Assess(reasons: set<Reason>, unscorable: bool): Assessment {
    Assessment(if reasons == {} then Ready else if unscorable then Unscorable else Retryable, reasons)
  }

  function BasisReasons(e: Evidence): set<Reason> {
    Unless(e.sourceParsed, SourceUnparsed) + Unless(e.basicResult, BasicResultIncomplete)
  }

  function PlayerReasons(e: Evidence): set<Reason> {
    BasisReasons(e) + Unless(e.tenPlayers, TenPlayersIncomplete)
    + Unless(e.tenPlayers && e.playerFieldsPresent, PlayerComponentsIncomplete)
  }

  function DraftReasons(e: Evidence): set<Reason> {
    BasisReasons(e) + Unless(e.tenPicks, TenPicksIncomplete)
  }

  function StateReasons(e: Evidence): set<Reason> {
    BasisReasons(e) + Unless(e.goldComplete, GoldTimelineIncomplete)
  }

  function ObjectiveReasons(e: Evidence): set<Reason> {
    BasisReasons(e) + Unless(e.objectivesComplete, ObjectivesIncomplete)
  }

  function PostmatchReasons(e: Evidence): set<Reason> {
    PlayerReasons(e) + DraftReasons(e) + StateReasons(e) + ObjectiveReasons(e)
    + Unless(e.teamfightsPresent, TeamfightsMissing)
    + Unless(e.tenPlayers && e.buybackLogsPresent, BuybackLogsMissing)
  }

  function ExtractReadiness(e: Evidence): Readiness {
    Readiness(
      Assess(BasisReasons(e), false),
      Assess(PlayerReasons(e), false),
      Assess(DraftReasons(e), false),
      Assess(StateReasons(e), (e.stateWindowTooShort || !e.goldComplete) && e.sourceParsed && e.basicResult),
      Assess(ObjectiveReasons(e), false),
      Assess(PostmatchReasons(e), false))
  }

  /** The scheduler's reading of the facts; `missing` is the set of reasons over all components. */
  datatype Processing = Processing(
    readiness: Readiness,
    detailComplete: bool,
    retryable: bool,
    missing: set<Reason>,
    firstUsable: bool)

  function Process(e: Evidence): Processing {
    var r := ExtractReadiness(e);
    var retryable := r.Has(Retryable) || r.teamState.status == Unscorable;
    Processing(r, !retryable && !r.Has(ReviewRequired), retryable, r.AllReasons(), r.normalization.status == Ready)
  }

  /** The finding each reason stands for. */
  predicate Failed(e: Evidence, reason: Reason) {
    match reason
    case SourceUnparsed => !e.sourceParsed
    case BasicResultIncomplete => !e.basicResult
    case TenPlayersIncomplete => !e.tenPlayers
    case PlayerComponentsIncomplete => !(e.tenPlayers && e.playerFieldsPresent)
    case TenPicksIncomplete => !e.tenPicks
    case GoldTimelineIncomplete => !e.goldComplete
    case ObjectivesIncomplete => !e.objectivesComplete
    case TeamfightsMissing => !e.teamfightsPresent
    case BuybackLogsMissing => !(e.tenPlayers && e.buybackLogsPresent)
  }

  lemma BasisMembers(e: Evidence, reason: Reason)
    ensures reason in BasisReasons(e) <==>
              (reason == SourceUnparsed && !e.sourceParsed) || (reason == BasicResultIncomplete && !e.basicResult)
  {
  }

  lemma ComponentMembers(e: Evidence, reason: Reason)
    ensures reason in PlayerReasons(e) <==>
              reason in BasisReasons(e) || (reason == TenPlayersIncomplete && !e.tenPlayers)
              || (reason == PlayerComponentsIncomplete && !(e.tenPlayers && e.playerFieldsPresent))
    ensures reason in DraftReasons(e) <==> reason in BasisReasons(e) || (reason == TenPicksIncomplete && !e.tenPicks)
    ensures reason in StateReasons(e)
            <==> reason in BasisReasons(e) || (reason == GoldTimelineIncomplete && !e.goldComplete)
    ensures reason in ObjectiveReasons(e) <==>
              reason in BasisReasons(e) || (reason == ObjectivesIncomplete && !e.objectivesComplete)
  {
  }

  lemma PostmatchMembers(e: Evidence, reason: Reason)
    ensures reason in PostmatchReasons(e) <==>
              reason in PlayerReasons(e) || reason in DraftReasons(e) || reason in StateReasons(e)
              || reason in ObjectiveReasons(e) || (reason == TeamfightsMissing && !e.teamfightsPresent)
              || (reason == BuybackLogsMissing && !(e.tenPlayers && e.buybackLogsPresent))
  {
  }

  /** The missing set names exactly the failed findings. */
  lemma MissingIffFailed(e: Evidence, reason: Reason)
    ensures reason in Process(e).missing <==> Failed(e, reason)
  {
    BasisMembers(e, reason);
    ComponentMembers(e, reason);
    PostmatchMembers(e, reason);
    assert reason in Process(e).missing <==>
           reason in BasisReasons(e) || reason in PlayerReasons(e) || reason in DraftReasons(e)
           || reason in StateReasons(e) || reason in ObjectiveReasons(e) || reason in PostmatchReasons(e);
    match reason { case _ => }
  }

  ghost predicate AllFound(e: Evidence) {
    forall reason :: !Failed(e, reason)
  }

  predicate Basis(e: Evidence) {
    e.sourceParsed && e.basicResult
  }

  /** Which reason sets are empty. */
  lemma NoReasonsIff(e: Evidence)
    ensures BasisReasons(e) == {} <==> Basis(e)
    ensures PlayerReasons(e) == {} <==> Basis(e) && e.tenPlayers && e.playerFieldsPresent
    ensures DraftReasons(e) == {} <==> Basis(e) && e.tenPicks
    ensures StateReasons(e) == {} <==> Basis(e) && e.goldComplete
    ensures ObjectiveReasons(e) == {} <==> Basis(e) && e.objectivesComplete
  {
    assert !Basis(e) ==> SourceUnparsed in BasisReasons(e) || BasicResultIncomplete in BasisReasons(e);
    assert !e.tenPlayers ==> TenPlayersIncomplete in PlayerReasons(e);
    assert !e.playerFieldsPresent ==> PlayerComponentsIncomplete in PlayerReasons(e);
    assert !e.tenPicks ==> TenPicksIncomplete in DraftReasons(e);
    assert !e.goldComplete ==> GoldTimelineIncomplete in StateReasons(e);
    assert !e.objectivesComplete ==> ObjectivesIncomplete in ObjectiveReasons(e);
  }

  lemma NothingMissingIff(e: Evidence)
    ensures PostmatchReasons(e) == {} <==> AllFound(e)
    ensures Process(e).missing == {} <==> AllFound(e)
  {
    forall reason { MissingIffFailed(e, reason); }
    if !AllFound(e) {
      var reason :| Failed(e, reason);
      MissingInPostmatch(e, reason);
    } else {
      forall reason { MissingInPostmatch(e, reason); }
    }
  }

  lemma MissingInPostmatch(e: Evidence, reason: Reason)
    ensures reason in PostmatchReasons(e) <==> Failed(e, reason)
  {
    BasisMembers(e, reason);
    ComponentMembers(e, reason);
    PostmatchMembers(e, reason);
    match reason { case _ => }
  }

  function StatusIf(ready: bool): ComponentStatus {
    if ready then Ready else Retryable
  }

  /** Every status in terms of the findings; in particular nothing is ever sent to review. */
  lemma StatusesOf(e: Evidence)
    ensures var r := ExtractReadiness(e);
            && r.normalization.status == StatusIf(Basis(e))
            && r.playerScoring.status == StatusIf(Basis(e) && e.tenPlayers && e.playerFieldsPresent)
            && r.draftModel.status == StatusIf(Basis(e) && e.tenPicks)
            && r.teamState.status == (if Basis(e) && !e.goldComplete then Unscorable else StatusIf(Basis(e)))
            && r.objectiveAnalysis.status == StatusIf(Basis(e) && e.objectivesComplete)
            && r.postmatchAttribution.status == StatusIf(AllFound(e))
  {
    NoReasonsIff(e);
    NothingMissingIff(e);
  }

  /** A match is complete exactly when nothing is missing, and otherwise it is always retried. */
  lemma CompleteIffNothingMissing(e: Evidence)
    ensures Process(e).detailComplete <==> Process(e).missing == {}
    ensures Process(e).retryable <==> Process(e).missing != {}
    ensures !ExtractReadiness(e).Has(ReviewRequired)
  {
    StatusesOf(e);
    NothingMissingIff(e);
    assert !AllFound(e) ==> ExtractReadiness(e).Has(Retryable);
    if AllFound(e) {
      assert !Failed(e, SourceUnparsed) && !Failed(e, BasicResultIncomplete) && !Failed(e, PlayerComponentsIncomplete)
             && !Failed(e, TenPicksIncomplete) && !Failed(e, GoldTimelineIncomplete)
                && !Failed(e, ObjectivesIncomplete);
    }
  }

  /**
   * An unscorable team state leaves the post-match attribution retryable, so the detail state that
   * is scored for a new version and the one that is stored for it agree.
   */
  lemma UnscorableStateIsRetried(e: Evidence)
    ensures ExtractReadiness(e).teamState.status == Unscorable ==>
              ExtractReadiness(e).postmatchAttribution.status == Retryable
    ensures Process(e).retryable <==> ExtractReadiness(e).Has(Retryable)
  {
    StatusesOf(e);
    assert Failed(e, GoldTimelineIncomplete) <==> !e.goldComplete;
    CompleteIffNothingMissing(e);
    NothingMissingIff(e);
  }

  /* ---------- readiness is a function of what is missing ---------- */

  function Score(status: ComponentStatus): nat {
    match status
    case Pending => 0
    case Retryable => 0
    case ReviewRequired => 1
    case Unscorable => 2
    case Ready => 2
  }

  /** Only the order of the scores matters: waiting, in review, usable. */
  lemma ScoresRankStatuses()
    ensures Score(Pending) == Score(Retryable) < Score(ReviewRequired) < Score(Unscorable) == Score(Ready)
  {
  }

  lemma FailuresFollowMissing(e: Evidence, e': Evidence, reason: Reason)
    requires Process(e').missing <= Process(e).missing
    ensures Failed(e', reason) ==> Failed(e, reason)
  {
    MissingIffFailed(e, reason);
    MissingIffFailed(e', reason);
  }

  /** With less missing, every finding that held still holds. */
  lemma FindingsFollowMissing(e: Evidence, e': Evidence)
    requires Process(e').missing <= Process(e).missing
    ensures Basis(e) ==> Basis(e')
    ensures e.tenPlayers && e.playerFieldsPresent ==> e'.tenPlayers && e'.playerFieldsPresent
    ensures e.tenPicks ==> e'.tenPicks
    ensures e.goldComplete ==> e'.goldComplete
  {
    FailuresFollowMissing(e, e', SourceUnparsed);
    FailuresFollowMissing(e, e', BasicResultIncomplete);
    FailuresFollowMissing(e, e', PlayerComponentsIncomplete);
    FailuresFollowMissing(e, e', TenPicksIncomplete);
    FailuresFollowMissing(e, e', GoldTimelineIncomplete);
  }

  /** Less missing never means a lower score. */
  lemma LessMissingIsMoreReady(e: Evidence, e': Evidence)
    requires Process(e').missing <= Process(e).missing
    ensures var r, r' := ExtractReadiness(e), ExtractReadiness(e');
            && Score(r.playerScoring.status) <= Score(r'.playerScoring.status)
            && Score(r.teamState.status) <= Score(r'.teamState.status)
            && Score(r.draftModel.status) <= Score(r'.draftModel.status)
  {
    StatusesOf(e);
    StatusesOf(e');
    FindingsFollowMissing(e, e');
  }

  /** The same missing set means the same stored statuses. */
  lemma MissingDeterminesStatuses(e: Evidence, e': Evidence)
    requires Process(e').missing == Process(e).missing
    ensures var r, r' := ExtractReadiness(e), ExtractReadiness(e');
            && r.playerScoring.status == r'.playerScoring.status && r.teamState.status == r'.teamState.status
            && r.draftModel.status == r'.draftModel.status
  {
    StatusesOf(e);
    StatusesOf(e');
    FindingsFollowMissing(e, e');
    FindingsFollowMissing(e', e);
  }
}
