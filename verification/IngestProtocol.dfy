/**
 * The ingest attempt protocol. Each match has one status row which many workers change through
 * begin / success / failure / scope-reject steps. Every step is one transaction; a worker proves
 * that its attempt is still the current one by the fencing generation it was handed at begin.
 */
module IngestProtocol {
  import opened Wrappers
  import opened Ordering
  import opened Facts

  const MINUTE := 60000000
  const HOUR := 60 * MINUTE
  const RETRY_DELAYS: seq<int> := [15 * MINUTE, HOUR, 6 * HOUR, 24 * HOUR, 72 * HOUR]

  /** When to try again after the given one-based failure count; nothing after the last delay. */
  function NextRetryAt(attemptedAt: int, failureCount: nat): Option<int>
    requires failureCount >= 1
  {
    if failureCount > |RETRY_DELAYS| then None else Some(attemptedAt + RETRY_DELAYS[failureCount - 1])
  }

  datatype IngestState = Discovered | DetailPending | Detailed | ToRetry | AttemptFailed | InReview

  datatype Reconciliation = NotRequired | ReconciliationPending | Reconciled | ReconciliationReview

  datatype Row = Row(
    retryCount: nat,
    generation: nat,
    nextRetryAt: Option<int>,
    lastAttemptAt: Option<int>,
    lastError: Option<string>,
    ingestState: IngestState,
    stageInScope: bool,
    reconciliation: Reconciliation,
    basicResult: ComponentStatus,
    detailed: ComponentStatus,
    player: ComponentStatus,
    state: ComponentStatus,
    draft: ComponentStatus,
    missing: set<Reason>,
    contentHash: Option<string>,
    processorVersion: Option<string>,
    rawVersion: nat,
    firstUsableAt: Option<int>)

  /** A discovered match that nobody has attempted. */
  const FRESH := Row(0, 0, None, None, None, Discovered, true, NotRequired,
                     Pending, Pending, Pending, Pending, Pending, {}, None, None, 0, None)

  /** A retry ordinal with its fencing generation; the store's interface allows the latter to be left out. */
  datatype Attempt = Attempt(count: nat, generation: Option<nat>, at: int)

  predicate Current(row: Row, a: Attempt) {
    && row.retryCount == a.count
    && row.lastAttemptAt == Some(a.at)
    && (a.generation.Some? ==> row.generation == a.generation.value)
  }

  datatype SuccessValues = SuccessValues(
    attempt: Attempt,
    contentHash: string,
    processorVersion: string,
    facts: Option<Readiness>,
    missing: set<Reason>,
    artifactUnchanged: bool,
    artifactPersisted: bool,
    detailComplete: bool,
    retryable: bool,
    nextRetryAt: Option<int>,
    firstUsableAt: Option<int>)

  datatype Outcome = Superseded | Unchanged | RetainedMoreComplete | SentToReview | Normalized | Raised

  /* ---------- what each transaction does to the row ---------- */

  function BeginAttempt(row: Row, at: int): Attempt {
    Attempt(row.retryCount + 1, Some(row.generation + 1), at)
  }

  function BeginRow(row: Row, at: int): Row {
    row.(retryCount := row.retryCount + 1, generation := row.generation + 1, lastAttemptAt := Some(at),
         nextRetryAt := NextRetryAt(at, row.retryCount + 1), ingestState := DetailPending)
  }

  function Scores(detailed: ComponentStatus, player: ComponentStatus, state: ComponentStatus, draft: ComponentStatus)
    : seq<nat>
  {
    [Score(detailed), Score(player), Score(state), Score(draft)]
  }

  function ScoredDetail(facts: Readiness): ComponentStatus {
    if facts.Has(Retryable) || facts.Has(ReviewRequired) then Retryable else Ready
  }

  /** The decision from the two score vectors, the two missing sets and whether the processor is another one. */
  function Decide(was: seq<nat>, now: seq<nat>, missingWas: set<Reason>, missingNow: set<Reason>, upgrade: bool)
    : (bool, bool)
    requires |was| == |now|
  {
    var noDegradation := forall i | 0 <= i < |was| :: now[i] >= was[i];
    var improved := exists i | 0 <= i < |was| :: now[i] > was[i];
    if noDegradation && missingNow <= missingWas && (improved || missingNow < missingWas || upgrade) then (true, false)
    else (false, now == was && missingNow == missingWas)
  }

  /** Whether to accept the incoming version, and whether it looks like a correction to review. */
  function AcceptVersion(row: Row, v: SuccessValues): (bool, bool) {
    if v.artifactUnchanged then (false, false)
    else if row.contentHash.None? then (true, false)
    else if v.facts.None? then (false, false)
    else
      var facts := v.facts.value;
      Decide(Scores(row.detailed, row.player, row.state, row.draft),
             Scores(ScoredDetail(facts), facts.playerScoring.status, facts.teamState.status, facts.draftModel.status),
             row.missing, v.missing, row.processorVersion != Some(v.processorVersion))
  }

  function SettledState(detailed: ComponentStatus): IngestState {
    match detailed
    case Ready => Detailed
    case Unscorable => Detailed
    case ReviewRequired => InReview
    case Pending => ToRetry
    case Retryable => ToRetry
  }

  function StoredDetail(v: SuccessValues): ComponentStatus {
    if v.detailComplete then Ready else if v.retryable then Retryable else ReviewRequired
  }

  function Settled(row: Row, v: SuccessValues): Row {
    row.(ingestState := SettledState(row.detailed),
         retryCount := if v.detailComplete then 0 else row.retryCount,
         nextRetryAt := v.nextRetryAt, lastAttemptAt := Some(v.attempt.at))
  }

  function NormalizedRow(row: Row, v: SuccessValues, facts: Readiness): Row {
    row.(ingestState := SettledState(StoredDetail(v)),
         retryCount := if v.detailComplete then 0 else row.retryCount,
         nextRetryAt := v.nextRetryAt, lastAttemptAt := Some(v.attempt.at), lastError := None,
         basicResult := facts.normalization.status, detailed := StoredDetail(v),
         player := facts.playerScoring.status, state := facts.teamState.status, draft := facts.draftModel.status,
         missing := v.missing, contentHash := Some(v.contentHash), processorVersion := Some(v.processorVersion),
         rawVersion := row.rawVersion + 1,
         firstUsableAt := if row.firstUsableAt.Some? then row.firstUsableAt else v.firstUsableAt)
  }

  function SuccessOutcome(row: Row, v: SuccessValues): Outcome {
    var (accept, correction) := AcceptVersion(row, v);
    if !Current(row, v.attempt) then Superseded
    else if v.artifactUnchanged then Unchanged
    else if !accept then if correction then SentToReview else RetainedMoreComplete
    else if v.facts.None? || !v.artifactPersisted then Raised
    else Normalized
  }

  function SuccessRow(row: Row, v: SuccessValues): Row {
    match SuccessOutcome(row, v)
    case Superseded => row
    case Raised => row
    case Unchanged => Settled(row, v).(lastError := None)
    case RetainedMoreComplete => Settled(row, v).(lastError := Some("less_complete_raw_version"))
    case SentToReview =>
      Settled(row, v).(lastError := Some("content_correction_pending"), reconciliation := ReconciliationReview)
    case Normalized => NormalizedRow(row, v, v.facts.value)
  }

  function FailureRow(row: Row, a: Attempt, nextRetryAt: Option<int>, error: string): Row {
    if !Current(row, a) then row
    else row.(ingestState := if row.ingestState == InReview then InReview
                             else if nextRetryAt.Some? then ToRetry else AttemptFailed,
              nextRetryAt := nextRetryAt, lastAttemptAt := Some(a.at), lastError := Some(error))
  }

  function RejectRow(row: Row, a: Option<Attempt>, eventApproved: bool, reason: string): Row {
    if (a.Some? && !Current(row, a.value)) || !eventApproved then row
    else row.(stageInScope := false, ingestState := InReview, reconciliation := ReconciliationReview,
              nextRetryAt := None, lastError := Some(reason))
  }

  /* ---------- the store ---------- */

  /** The discovered matches: the status row of each, and the event it was discovered for. */
  class IngestStore {
    var rows: map<int, Row>
    var eventOf: map<int, string>

    ghost predicate Valid()
      reads this
    {
      eventOf.Keys == rows.Keys
    }

    constructor ()
      ensures Valid() && rows == map[]
    {
      rows := map[];
      eventOf := map[];
    }

    /**
     * Records a match that the event's scope admits. The answer is whether it is new; nothing when it
     * belongs to another event, which is refused.
     */
    method RecordDiscoveredMatch(matchId: int, eventId: string, formal: bool) returns (created: Option<bool>)
      requires Valid()
      modifies this
      ensures Valid()
      ensures created.None? <==> formal && matchId in old(rows) && old(eventOf)[matchId] != eventId
      ensures created == Some(true) <==> formal && matchId !in old(rows)
      ensures rows == if created == Some(true) then old(rows)[matchId := FRESH] else old(rows)
      ensures eventOf == if created == Some(true) then old(eventOf)[matchId := eventId] else old(eventOf)
    {
      if !formal { return Some(false); }
      if matchId in rows && eventOf[matchId] != eventId { return None; }
      var inserted := matchId !in rows;
      if inserted {
        rows := rows[matchId := FRESH];
        eventOf := eventOf[matchId := eventId];
      }
      created := Some(inserted);
    }

    /** The attempt handed out, or nothing for a match that was never discovered. */
    method BeginIngestAttempt(matchId: int, at: int) returns (attempt: Option<Attempt>)
      modifies this`rows
      ensures attempt.Some? <==> matchId in old(rows)
      ensures attempt.Some? ==> attempt.value == BeginAttempt(old(rows)[matchId], at)
                                && rows == old(rows)[matchId := BeginRow(old(rows)[matchId], at)]
                                && Current(rows[matchId], attempt.value)
      ensures attempt.None? ==> rows == old(rows)
    {
      if matchId !in rows { return None; }
      var row := rows[matchId];
      var count := row.retryCount + 1;
      var generation := row.generation + 1;
      var fallback := NextRetryAt(at, count);
      rows := rows[matchId := row.(retryCount := count, generation := generation, lastAttemptAt := Some(at),
                                   nextRetryAt := fallback, ingestState := DetailPending)];
      attempt := Some(Attempt(count, Some(generation), at));
    }

    method RecordIngestSuccess(matchId: int, v: SuccessValues) returns (outcome: Option<Outcome>)
      modifies this`rows
      ensures outcome.Some? <==> matchId in old(rows)
      ensures outcome.Some? ==> outcome.value == SuccessOutcome(old(rows)[matchId], v)
                                && rows == old(rows)[matchId := SuccessRow(old(rows)[matchId], v)]
      ensures outcome.None? ==> rows == old(rows)
    {
      if matchId !in rows { return None; }
      var row := rows[matchId];
      if row.retryCount != v.attempt.count || row.lastAttemptAt != Some(v.attempt.at)
         || (v.attempt.generation.Some? && row.generation != v.attempt.generation.value)
      {
        assert rows == rows[matchId := row];
        return Some(Superseded);
      }
      var settled := row.(ingestState := SettledState(row.detailed), nextRetryAt := v.nextRetryAt,
                          lastAttemptAt := Some(v.attempt.at));
      if v.detailComplete { settled := settled.(retryCount := 0); }
      if v.artifactUnchanged {
        rows := rows[matchId := settled.(lastError := None)];
        return Some(Unchanged);
      }
      var (accept, correction) := AcceptVersion(row, v);
      if !accept {
        if correction {
          rows := rows[matchId := settled.(lastError := Some("content_correction_pending"),
                                           reconciliation := ReconciliationReview)];
          return Some(SentToReview);
        }
        rows := rows[matchId := settled.(lastError := Some("less_complete_raw_version"))];
        return Some(RetainedMoreComplete);
      }
      if v.facts.None? || !v.artifactPersisted {
        assert rows == rows[matchId := row];
        return Some(Raised);
      }
      rows := rows[matchId := NormalizedRow(row, v, v.facts.value)];
      outcome := Some(Normalized);
    }

    method RecordIngestFailure(matchId: int, a: Attempt, nextRetryAt: Option<int>, error: string)
      modifies this`rows
      ensures rows == if matchId in old(rows)
                      then old(rows)[matchId := FailureRow(old(rows)[matchId], a, nextRetryAt, error)] else old(rows)
    {
      if matchId in rows && Current(rows[matchId], a) {
        var row := rows[matchId];
        var state := if nextRetryAt.Some? then ToRetry else AttemptFailed;
        if row.ingestState == InReview { state := InReview; }
        rows := rows[matchId := row.(ingestState := state, nextRetryAt := nextRetryAt,
                                     lastAttemptAt := Some(a.at), lastError := Some(error))];
      } else {
        assert matchId in rows ==> rows == rows[matchId := rows[matchId]];
      }
    }

    method RecordScopeRejection(matchId: int, a: Option<Attempt>, eventApproved: bool, reason: string)
      modifies this`rows
      ensures rows == if matchId in old(rows)
                      then old(rows)[matchId := RejectRow(old(rows)[matchId], a, eventApproved, reason)] else old(rows)
    {
      if matchId !in rows { return; }
      var row := rows[matchId];
      assert rows == rows[matchId := row];
      if a.Some? && !Current(row, a.value) { return; }
      if !eventApproved { return; }
      rows := rows[matchId := row.(stageInScope := false, ingestState := InReview,
                                   reconciliation := ReconciliationReview, nextRetryAt := None,
                                   lastError := Some(reason))];
    }

    /** The matches whose next retry has come, in the order of their ids. */
    method ListDueMatchIds(now: int) returns (due: seq<int>)
      ensures forall i, j | 0 <= i < j < |due| :: due[i] < due[j]
      ensures forall id :: id in due <==> id in rows && Due(rows[id], now)
    {
      due := [];
      var pending := rows.Keys;
      while pending != {}
        invariant pending <= rows.Keys
        invariant forall i, j | 0 <= i < j < |due| :: due[i] < due[j]
        invariant forall id, next | id in due && next in pending :: id < next
        invariant forall id :: id in due <==> id in rows && id !in pending && Due(rows[id], now)
      {
        LeastMember(pending);
        var id :| id in pending && forall other | other in pending :: id <= other;
        pending := pending - {id};
        if Due(rows[id], now) {
          assert forall i | 0 <= i < |due| :: due[i] in due;
          due := due + [id];
        }
      }
    }
  }

  lemma {:induction false} LeastMember(ids: set<int>)
    requires ids != {}
    ensures exists id :: id in ids && forall other | other in ids :: id <= other
    decreases |ids|
  {
    SomeNumber(ids);
    var id :| id in ids;
    var rest := ids - {id};
    if rest == {} {
      assert ids == {id};
    } else {
      LeastMember(rest);
      var least :| least in rest && forall other | other in rest :: least <= other;
      var both := if id < least then id else least;
      assert both in ids && forall other | other in ids :: both <= other by {
        assert ids == rest + {id};
      }
    }
  }

  predicate Due(row: Row, now: int) {
    row.nextRetryAt.Some? && row.nextRetryAt.value <= now
  }

  /* ---------- runs: any interleaving of any number of workers on one match ---------- */

  datatype Step =
    | Begin(at: int)
    | Succeed(values: SuccessValues)
    | Fail(attempt: Attempt, nextRetryAt: Option<int>, error: string)
    | RejectScope(rejecting: Option<Attempt>, eventApproved: bool, reason: string)
    | Reconcile(status: Reconciliation)

  function Do(row: Row, step: Step): Row {
    match step
    case Begin(at) => BeginRow(row, at)
    case Succeed(v) => SuccessRow(row, v)
    case Fail(a, next, error) => FailureRow(row, a, next, error)
    case RejectScope(a, approved, reason) => RejectRow(row, a, approved, reason)
    case Reconcile(status) => row.(reconciliation := status)
  }

  function Run(row: Row, steps: seq<Step>): Row
    decreases |steps|
  {
    if steps == [] then row else Run(Do(row, steps[0]), steps[1..])
  }

  /** The generation a write step carries; begin and reconcile steps, and unfenced writes, carry none. */
  function FencedBy(step: Step): Option<nat> {
    match step
    case Succeed(v) => v.attempt.generation
    case Fail(a, _, _) => a.generation
    case RejectScope(a, _, _) => if a.Some? then a.value.generation else None
    case _ => None
  }
}
