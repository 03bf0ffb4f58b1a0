/**
 * Authoritative results: canonical order, and the guard that refuses a list of results in which
 * one team would have played two maps at once. The guard is exact, and it is all the replay needs.
 */
module Chronology {
  import opened Wrappers
  import opened Ordering
  import opened TeamRating

  datatype ReplayError =
    | TargetMapInResults
    | FollowsCutoff
    | AlreadyRepresented
    | ConflictingAuthority
    | OverlappingChronology
    | RatingFailed(error: RatingError)
    | SeedTimingNotCausal
    | SeedReplayDisagrees

  datatype AuthorityFields = Authority(row: RatingMapInput, sourceArtifactHash: string, observedAt: int) {
    predicate Valid() {
      row.usableAt.Some? && row.usableAt.value <= observedAt
    }
  }

  type AuthoritativeResult = a: AuthorityFields | a.Valid()
    witness Authority(MapInput(1, None, "event", 0, 1, Some(1), 1, 2, {}, {}, true), "", 1)

  /** Order by (usable, started, match id). */
  predicate ResultBefore(a: AuthoritativeResult, b: AuthoritativeResult) {
    a.row.usableAt.value < b.row.usableAt.value
    || (a.row.usableAt == b.row.usableAt
        && (a.row.startedAt < b.row.startedAt
            || (a.row.startedAt == b.row.startedAt && a.row.matchId < b.row.matchId)))
  }

  /** Order by (started, completed, match id). */
  predicate ReplayBefore(a: AuthoritativeResult, b: AuthoritativeResult) {
    a.row.startedAt < b.row.startedAt
    || (a.row.startedAt == b.row.startedAt
        && (a.row.completedAt < b.row.completedAt
            || (a.row.completedAt == b.row.completedAt && a.row.matchId < b.row.matchId)))
  }

  /** Every match has one authority among the values. */
  ghost predicate Consistent(values: set<AuthoritativeResult>) {
    forall x, y | x in values && y in values && x.row.matchId == y.row.matchId :: x == y
  }

  lemma OrdersAreTotal(values: set<AuthoritativeResult>)
    requires Consistent(values)
    ensures StrictTotalOn(ResultBefore, values) && StrictTotalOn(ReplayBefore, values)
  {
  }

  function Rows(values: seq<AuthoritativeResult>): (rows: seq<RatingMapInput>) {
    seq(|values|, i requires 0 <= i < |values| => values[i].row)
  }

  /* ---------- admission of results ---------- */

  function OwnFault(value: AuthoritativeResult, after: Option<int>, cutoff: int,
                    target: Option<int>): Option<ReplayError> {
    if target == Some(value.row.matchId) then Some(TargetMapInResults)
    else if value.row.usableAt.value > cutoff then Some(FollowsCutoff)
    else if after.Some? && value.row.usableAt.value <= after.value then Some(AlreadyRepresented)
    else None
  }

  /**
   * A value is admitted exactly when it is not the target map, is usable by the cutoff, and was not yet
   * usable at the start; a value of the target map is refused for that, whatever its time.
   */
  lemma AdmittedIffInTime(value: AuthoritativeResult, after: Option<int>, cutoff: int, target: Option<int>)
    ensures var usableAt, isTarget := value.row.usableAt.value, target.Some? && target.value == value.row.matchId;
            var fault := OwnFault(value, after, cutoff, target);
            && (fault.None? <==> !isTarget && usableAt <= cutoff && (after.Some? ==> after.value < usableAt))
            && (fault == Some(TargetMapInResults) <==> isTarget)
            && (fault == Some(FollowsCutoff) <==> !isTarget && cutoff < usableAt)
            && (fault == Some(AlreadyRepresented) <==>
                  !isTarget && usableAt <= cutoff && after.Some? && usableAt <= after.value)
  {
  }

  /** What a value is refused for by itself. */
  type OwnCheck = AuthoritativeResult -> Option<ReplayError>

  /** The values agree with each other and nothing is wrong with any of them. */
  ghost predicate Accepted(values: set<AuthoritativeResult>, check: OwnCheck) {
    Consistent(values) && forall v | v in values :: check(v) == None
  }

  /** The fault is that of the first value that has one of its own or conflicts with an earlier one. */
  ghost predicate FirstFaultAt(values: seq<AuthoritativeResult>, i: nat, check: OwnCheck, error: ReplayError)
    requires i < |values|
  {
    && Accepted(Elems(values[..i]), check)
    && check(values[i]) == (if error == ConflictingAuthority then None else Some(error))
    && (error == ConflictingAuthority ==> !Consistent(Elems(values[..i + 1])))
  }

  function Admission(after: Option<int>, cutoff: int, target: Option<int>): OwnCheck {
    (v: AuthoritativeResult) => OwnFault(v, after, cutoff, target)
  }

  ghost predicate Admissible(values: set<AuthoritativeResult>, after: Option<int>, cutoff: int, target: Option<int>) {
    Consistent(values) && forall v | v in values :: OwnFault(v, after, cutoff, target) == None
  }

  /** One value per match id, and exactly these values. */
  ghost predicate Indexed(byMatch: map<int, AuthoritativeResult>, values: set<AuthoritativeResult>) {
    && (forall id | id in byMatch :: byMatch[id].row.matchId == id)
    && (forall v :: v in values <==> v.row.matchId in byMatch && byMatch[v.row.matchId] == v)
  }

  lemma IndexOneMore(byMatch: map<int, AuthoritativeResult>, values: set<AuthoritativeResult>,
                     value: AuthoritativeResult)
    requires Indexed(byMatch, values)
    ensures Consistent(values)
    ensures if value.row.matchId in byMatch && byMatch[value.row.matchId] != value then !Consistent(values + {value})
            else Indexed(byMatch[value.row.matchId := value], values + {value})
    ensures value.row.matchId in byMatch && byMatch[value.row.matchId] == value ==> value in values
  {
    if value.row.matchId in byMatch && byMatch[value.row.matchId] != value {
      var existing := byMatch[value.row.matchId];
      assert existing in values + {value} && value in values + {value};
    }
  }

  lemma ElemsOneMore(values: seq<AuthoritativeResult>, i: nat)
    requires i < |values|
    ensures Elems(values[..i + 1]) == Elems(values[..i]) + {values[i]}
    ensures Consistent(Elems(values)) ==> Consistent(Elems(values[..i + 1]))
  {
    assert values[..i + 1] == values[..i] + [values[i]];
    assert Elems(values[..i + 1]) <= Elems(values);
  }

  lemma FaultRefuses(values: seq<AuthoritativeResult>, i: nat, check: OwnCheck, error: ReplayError)
    requires i < |values| && FirstFaultAt(values, i, check, error)
    ensures !Accepted(Elems(values), check)
  {
    ElemsOneMore(values, i);
    assert values[i] in Elems(values);
  }

  lemma AcceptedOneMore(values: seq<AuthoritativeResult>, i: nat, check: OwnCheck)
    requires i < |values| && Accepted(Elems(values[..i]), check) && check(values[i]) == None
    requires Consistent(Elems(values[..i + 1]))
    ensures Accepted(Elems(values[..i + 1]), check)
  {
    ElemsOneMore(values, i);
  }

  method Deduplicated(values: seq<AuthoritativeResult>, check: OwnCheck)
    returns (r: Result<seq<AuthoritativeResult>, ReplayError>)
    requires forall v :: check(v) != Some(ConflictingAuthority)
    ensures r.Ok? <==> Accepted(Elems(values), check)
    ensures r.Ok? ==> Elems(r.value) == Elems(values)
    ensures r.Err? ==> exists i :: 0 <= i < |values| && FirstFaultAt(values, i, check, r.error)
  {
    var byMatch: map<int, AuthoritativeResult> := map[];
    var distinct: seq<AuthoritativeResult> := [];
    for i := 0 to |values|
      invariant Elems(distinct) == Elems(values[..i]) && Indexed(byMatch, Elems(values[..i]))
      invariant Accepted(Elems(values[..i]), check)
    {
      var value := values[i];
      ElemsOneMore(values, i);
      IndexOneMore(byMatch, Elems(values[..i]), value);
      var fault := check(value);
      if fault.None? && value.row.matchId in byMatch && byMatch[value.row.matchId] != value {
        fault := Some(ConflictingAuthority);
      }
      if fault.Some? {
        FaultRefuses(values, i, check, fault.value);
        assert FirstFaultAt(values, i, check, fault.value);
        return Err(fault.value);
      }
      if value.row.matchId !in byMatch { distinct := distinct + [value]; }
      byMatch := byMatch[value.row.matchId := value];
      IndexIsConsistent(byMatch, Elems(values[..i + 1]));
      AcceptedOneMore(values, i, check);
    }
    assert values[..|values|] == values;
    r := Ok(distinct);
  }

  lemma IndexIsConsistent(byMatch: map<int, AuthoritativeResult>, values: set<AuthoritativeResult>)
    requires Indexed(byMatch, values)
    ensures Consistent(values)
  {
  }

  /** The admitted results, each once, ordered by when they became usable. */
  method CanonicalAuthoritativeResults(values: seq<AuthoritativeResult>, after: Option<int>, cutoff: int,
                                       target: Option<int>)
    returns (r: Result<seq<AuthoritativeResult>, ReplayError>)
    ensures r.Ok? <==> Admissible(Elems(values), after, cutoff, target)
    ensures r.Ok? ==> r.value == Sort(ResultBefore, values)
    ensures r.Err? ==>
              exists i :: 0 <= i < |values| && FirstFaultAt(values, i, Admission(after, cutoff, target), r.error)
  {
    r := Deduplicated(values, Admission(after, cutoff, target));
    if r.Ok? {
      OrdersAreTotal(Elems(values));
      SortDependsOnElems(ResultBefore, r.value, values);
      r := Ok(Sort(ResultBefore, r.value));
    }
  }

  /* ---------- the chronology guard ---------- */

  ghost predicate Overlap(a: AuthoritativeResult, b: AuthoritativeResult) {
    a.row.startedAt < b.row.completedAt && b.row.startedAt < a.row.completedAt
  }

  /** No team plays two different maps at once. */
  ghost predicate NoTeamOverlap(values: set<AuthoritativeResult>) {
    forall a, b | a in values && b in values && a != b && a.row.SharesTeam(b.row) :: !Overlap(a, b)
  }

  /** Each map starts no earlier than every listed map before it of either team has completed. */
  ghost predicate Chronological(ordered: seq<AuthoritativeResult>) {
    forall i, j | 0 <= i < j < |ordered| && ordered[i].row.SharesTeam(ordered[j].row) ::
      ordered[i].row.completedAt <= ordered[j].row.startedAt
  }

  /** In replay order, the pairwise condition says exactly that no team's maps overlap. */
  lemma ChronologicalIffNoOverlap(values: set<AuthoritativeResult>, ordered: seq<AuthoritativeResult>)
    requires Consistent(values) && IsListing(ReplayBefore, values, ordered)
    ensures Chronological(ordered) <==> NoTeamOverlap(values)
  {
    if Chronological(ordered) {
      forall a, b | a in values && b in values && a != b && a.row.SharesTeam(b.row) ensures !Overlap(a, b) {
        ListedOneAfterTheOther(ordered, a, b);
      }
    }
    if NoTeamOverlap(values) {
      forall i, j | 0 <= i < j < |ordered| && ordered[i].row.SharesTeam(ordered[j].row)
        ensures ordered[i].row.completedAt <= ordered[j].row.startedAt
      {
        assert ReplayBefore(ordered[i], ordered[j]);
        assert ordered[i] in values && ordered[j] in values;
      }
    }
  }

  lemma ListedOneAfterTheOther(ordered: seq<AuthoritativeResult>, a: AuthoritativeResult, b: AuthoritativeResult)
    requires Chronological(ordered) && a in ordered && b in ordered && a != b && a.row.SharesTeam(b.row)
    ensures !Overlap(a, b)
  {
    var i :| 0 <= i < |ordered| && ordered[i] == a;
    var j :| 0 <= j < |ordered| && ordered[j] == b;
    assert i < j || j < i;
  }

  /** When the last listed map of a team completed. */
  ghost function LastCompleted(ordered: seq<AuthoritativeResult>, team: int): Option<int> {
    if ordered == [] then None
    else if ordered[|ordered| - 1].row.Involves(team) then Some(ordered[|ordered| - 1].row.completedAt)
    else LastCompleted(ordered[..|ordered| - 1], team)
  }

  /** In a chronological list the last completion of a team is the latest one. */
  lemma {:induction false} LastCompletedIsLatest(ordered: seq<AuthoritativeResult>, team: int)
    requires Chronological(ordered)
    ensures LastCompleted(ordered, team).Some? <==> exists k :: 0 <= k < |ordered| && ordered[k].row.Involves(team)
    ensures LastCompleted(ordered, team).Some? ==>
              exists k :: 0 <= k < |ordered| && ordered[k].row.Involves(team)
                          && ordered[k].row.completedAt == LastCompleted(ordered, team).value
    ensures forall k | 0 <= k < |ordered| && ordered[k].row.Involves(team) ::
              ordered[k].row.completedAt <= LastCompleted(ordered, team).value
  {
    if ordered != [] {
      var init := ordered[..|ordered| - 1];
      LastCompletedIsLatest(init, team);
      if !ordered[|ordered| - 1].row.Involves(team) && LastCompleted(ordered, team).Some? {
        var k :| 0 <= k < |init| && init[k].row.Involves(team)
                 && init[k].row.completedAt == LastCompleted(ordered, team).value;
        assert ordered[k] == init[k];
      }
      forall k | 0 <= k < |ordered| && ordered[k].row.Involves(team)
        ensures LastCompleted(ordered, team).Some?
        ensures ordered[k].row.completedAt <= LastCompleted(ordered, team).value
      {
        if k < |init| { assert init[k] == ordered[k]; }
      }
    }
  }

  ghost predicate StartsAfterLast(ordered: seq<AuthoritativeResult>, next: AuthoritativeResult, team: int) {
    LastCompleted(ordered, team).Some? ==> LastCompleted(ordered, team).value <= next.row.startedAt
  }

  /** Comparing with each team's last completed map is as good as comparing with all of them. */
  lemma GuardStepIsExact(ordered: seq<AuthoritativeResult>, next: AuthoritativeResult)
    requires Chronological(ordered)
    ensures Chronological(ordered + [next]) <==>
            StartsAfterLast(ordered, next, next.row.radiantTeam) && StartsAfterLast(ordered, next, next.row.direTeam)
  {
    LastCompletedIsLatest(ordered, next.row.radiantTeam);
    LastCompletedIsLatest(ordered, next.row.direTeam);
    var all := ordered + [next];
    if Chronological(all) {
      forall k | 0 <= k < |ordered| && ordered[k].row.SharesTeam(next.row)
        ensures ordered[k].row.completedAt <= next.row.startedAt
      {
        assert all[k] == ordered[k] && all[|ordered|] == next;
      }
    }
    if StartsAfterLast(ordered, next, next.row.radiantTeam) && StartsAfterLast(ordered, next, next.row.direTeam) {
      forall i, j | 0 <= i < j < |all| && all[i].row.SharesTeam(all[j].row)
        ensures all[i].row.completedAt <= all[j].row.startedAt
      {
        assert all[i] == ordered[i];
        if j < |ordered| { assert all[j] == ordered[j]; }
      }
    }
  }

  /** The map holds each team's last completion. */
  ghost predicate Remembers(lastCompleted: map<int, int>, ordered: seq<AuthoritativeResult>) {
    forall team :: LastCompleted(ordered, team) == if team in lastCompleted then Some(lastCompleted[team]) else None
  }

  predicate StartsTooEarly(lastCompleted: map<int, int>, row: RatingMapInput) {
    (row.radiantTeam in lastCompleted && row.startedAt < lastCompleted[row.radiantTeam])
    || (row.direTeam in lastCompleted && row.startedAt < lastCompleted[row.direTeam])
  }

  lemma GuardStep(lastCompleted: map<int, int>, ordered: seq<AuthoritativeResult>, next: AuthoritativeResult)
    requires Chronological(ordered) && Remembers(lastCompleted, ordered)
    ensures Chronological(ordered + [next]) <==> !StartsTooEarly(lastCompleted, next.row)
    ensures var row := next.row;
            Remembers(lastCompleted[row.radiantTeam := row.completedAt][row.direTeam := row.completedAt],
                      ordered + [next])
  {
    GuardStepIsExact(ordered, next);
    LastCompletedStep(ordered, next);
  }

  /** The guard's single pass, remembering one completion time per team. */
  method ChronologyGuard(ordered: seq<AuthoritativeResult>) returns (accepted: bool)
    ensures accepted <==> Chronological(ordered)
  {
    var lastCompleted: map<int, int> := map[];
    for i := 0 to |ordered|
      invariant Chronological(ordered[..i]) && Remembers(lastCompleted, ordered[..i])
    {
      var next := ordered[i];
      assert ordered[..i + 1] == ordered[..i] + [next];
      GuardStep(lastCompleted, ordered[..i], next);
      if StartsTooEarly(lastCompleted, next.row) {
        PrefixChronological(ordered, i + 1);
        return false;
      }
      lastCompleted := lastCompleted[next.row.radiantTeam := next.row.completedAt]
                                    [next.row.direTeam := next.row.completedAt];
    }
    assert ordered[..|ordered|] == ordered;
    accepted := true;
  }

  lemma LastCompletedStep(ordered: seq<AuthoritativeResult>, next: AuthoritativeResult)
    ensures forall team :: LastCompleted(ordered + [next], team)
                           == if next.row.Involves(team) then Some(next.row.completedAt)
                              else LastCompleted(ordered, team)
  {
    assert (ordered + [next])[..|ordered|] == ordered;
  }

  method CanonicalReplayResults(values: seq<AuthoritativeResult>)
    returns (r: Result<seq<AuthoritativeResult>, ReplayError>)
    ensures r.Ok? <==> Consistent(Elems(values)) && NoTeamOverlap(Elems(values))
    ensures r.Ok? ==> r.value == Sort(ReplayBefore, values) && Chronological(r.value)
    ensures r.Err? ==> r.error == if Consistent(Elems(values)) then OverlappingChronology else ConflictingAuthority
  {
    r := Deduplicated(values, (v: AuthoritativeResult) => None);
    if r.Ok? {
      OrdersAreTotal(Elems(values));
      SortDependsOnElems(ReplayBefore, r.value, values);
      SortLists(ReplayBefore, values);
      var ordered := Sort(ReplayBefore, r.value);
      ChronologicalIffNoOverlap(Elems(values), ordered);
      var accepted := ChronologyGuard(ordered);
      r := if accepted then Ok(ordered) else Err(OverlappingChronology);
    }
  }

  lemma PrefixChronological(ordered: seq<AuthoritativeResult>, n: nat)
    requires n <= |ordered|
    ensures Chronological(ordered) ==> Chronological(ordered[..n])
  {
  }
}
