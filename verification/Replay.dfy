/**
 * Replaying authoritative results. The replay succeeds exactly on the lists the chronology guard
 * accepts, because each team's last observation is always its last completion.
 */
module Replay {
  import opened Wrappers
  import opened Ordering
  import opened TeamRating
  import opened ReplayOrder
  import opened Chronology

  ghost function LastObserved(states: States, team: int): Option<int> {
    if team in states then states[team].lastObservedAt else None
  }

  ghost predicate WellKeyed(states: States) {
    forall team | team in states :: states[team].teamId == team
  }

  lemma RowsAppend(ordered: seq<AuthoritativeResult>, next: AuthoritativeResult)
    ensures Rows(ordered + [next]) == Rows(ordered) + [next.row]
  {
  }

  lemma FoldOneMore(m: Model, ordered: seq<AuthoritativeResult>, next: AuthoritativeResult)
    ensures Fold(m, map[], Rows(ordered + [next])) == Then(m, Fold(m, map[], Rows(ordered)), next.row)
  {
    RowsAppend(ordered, next);
    FoldAppend(m, map[], Rows(ordered), [next.row]);
    var mid := Fold(m, map[], Rows(ordered));
    if mid.Ok? {
      assert [next.row][1..] == [];
      var last := Apply(m, mid.value, next.row);
      assert Fold(m, mid.value, [next.row]) == last by {
        if last.Ok? { assert Fold(m, last.value, [next.row][1..]) == last; }
      }
    }
  }

  lemma ApplyOutcome(m: Model, states: States, row: RatingMapInput)
    requires WellKeyed(states)
    ensures Apply(m, states, row).Ok? <==>
            (LastObserved(states, row.radiantTeam).Some?
             ==> LastObserved(states, row.radiantTeam).value <= row.startedAt)
            && (LastObserved(states, row.direTeam).Some? ==> LastObserved(states, row.direTeam).value <= row.startedAt)
    ensures Apply(m, states, row).Ok? ==>
              WellKeyed(Apply(m, states, row).value)
              && forall team :: LastObserved(Apply(m, states, row).value, team)
                                == if row.Involves(team) then Some(row.completedAt) else LastObserved(states, team)
  {
  }

  /** The guard refuses exactly the lists on which the replay itself would fail. */
  lemma {:induction false} ReplaySucceedsIffChronological(m: Model, ordered: seq<AuthoritativeResult>)
    ensures Fold(m, map[], Rows(ordered)).Ok? <==> Chronological(ordered)
    ensures Chronological(ordered) ==>
              var states := Fold(m, map[], Rows(ordered)).value;
              WellKeyed(states) && forall team :: LastObserved(states, team) == LastCompleted(ordered, team)
  {
    if ordered != [] {
      var init, next := ordered[..|ordered| - 1], ordered[|ordered| - 1];
      assert ordered == init + [next];
      ReplaySucceedsIffChronological(m, init);
      FoldOneMore(m, init, next);
      PrefixChronological(ordered, |init|);
      if Chronological(init) {
        GuardStepIsExact(init, next);
        ApplyOutcome(m, Fold(m, map[], Rows(init)).value, next.row);
        LastCompletedStep(init, next);
      }
    }
  }

  /** After an accepted replay every team can be rated at any moment by which all results were usable. */
  lemma RatingNeverPrecedesObservation(m: Model, ordered: seq<AuthoritativeResult>, team: int, roster: Roster,
                                       asOf: int)
    requires Chronological(ordered)
    requires forall v | v in ordered :: v.row.usableAt.value <= asOf
    ensures Fold(m, map[], Rows(ordered)).Ok?
    ensures EffectiveRating(m, StateOf(m, Fold(m, map[], Rows(ordered)).value, team), roster, asOf).Ok?
  {
    ReplaySucceedsIffChronological(m, ordered);
    LastCompletedIsLatest(ordered, team);
    var states := Fold(m, map[], Rows(ordered)).value;
    if team in states && states[team].lastObservedAt.Some? {
      assert LastObserved(states, team) == LastCompleted(ordered, team);
      var k :| 0 <= k < |ordered| && ordered[k].row.Involves(team)
               && ordered[k].row.completedAt == LastCompleted(ordered, team).value;
      assert ordered[k] in ordered;
    }
  }

  datatype Replayed = Replayed(order: seq<AuthoritativeResult>, states: seq<TeamRatingState>)

  /** `out` is the replay of the results `values`: their canonical order and the states it leads to. */
  ghost predicate IsReplayOf(m: Model, values: seq<AuthoritativeResult>, out: Replayed) {
    out.order == Sort(ReplayBefore, values) && Chronological(out.order) && ReplaysTo(m, out.order, out.states)
  }

  ghost predicate Replayable(values: set<AuthoritativeResult>, cutoff: int) {
    && Consistent(values) && NoTeamOverlap(values)
    && forall v | v in values :: v.row.usableAt.value <= cutoff
  }

  /** The states are those that the results replay to in this order. */
  ghost predicate ReplaysTo(m: Model, ordered: seq<AuthoritativeResult>, states: seq<TeamRatingState>) {
    Fold(m, map[], Rows(ordered)).Ok? && Represents(states, Fold(m, map[], Rows(ordered)).value)
  }

  method ReplayInOrder(m: Model, ordered: seq<AuthoritativeResult>, cutoff: int)
    returns (r: Result<seq<TeamRatingState>, ReplayError>)
    requires Chronological(ordered)
    ensures if forall v | v in ordered :: v.row.usableAt.value <= cutoff
            then r.Ok? && ReplaysTo(m, ordered, r.value)
            else r == Err(FollowsCutoff)
  {
    var states: seq<TeamRatingState> := [];
    NothingReplaysToNothing(m);
    for i := 0 to |ordered|
      invariant forall v | v in ordered[..i] :: v.row.usableAt.value <= cutoff
      invariant ReplaysTo(m, ordered[..i], states)
    {
      var result := ordered[i];
      assert result in ordered;
      if result.row.usableAt.value > cutoff { return Err(FollowsCutoff); }
      states := OneMore(m, ordered[..i], result, states, cutoff) by {
        assert ordered[..i + 1] == ordered[..i] + [result];
        PrefixChronological(ordered, i + 1);
      }
      assert ordered[..i + 1] == ordered[..i] + [result];
    }
    assert ordered[..|ordered|] == ordered;
    r := Ok(states);
  }

  lemma NothingReplaysToNothing(m: Model)
    ensures ReplaysTo(m, [], [])
  {
    assert Rows([]) == [];
  }

  /** One turn of the replay loop: the guard has ruled out every failure. */
  method OneMore(m: Model, ghost done: seq<AuthoritativeResult>, next: AuthoritativeResult,
                 states: seq<TeamRatingState>, cutoff: int) returns (t: seq<TeamRatingState>)
    requires Chronological(done + [next]) && next.row.usableAt.value <= cutoff
    requires ReplaysTo(m, done, states)
    ensures ReplaysTo(m, done + [next], t)
  {
    NextIsApplied(m, done, next, states);
    var updated := UpdateTeamRatings(m, states, next.row, cutoff);
    t := updated.value;
  }

  lemma NextIsApplied(m: Model, done: seq<AuthoritativeResult>, next: AuthoritativeResult, states: seq<TeamRatingState>)
    requires Chronological(done + [next]) && ReplaysTo(m, done, states)
    ensures NoConflict(states) && Apply(m, Index(states), next.row).Ok?
    ensures Fold(m, map[], Rows(done + [next])) == Apply(m, Index(states), next.row)
  {
    assert (done + [next])[..|done|] == done;
    PrefixChronological(done + [next], |done|);
    ReplaySucceedsIffChronological(m, done);
    ReplaySucceedsIffChronological(m, done + [next]);
    FoldOneMore(m, done, next);
    RepresentsIndex(states, Fold(m, map[], Rows(done)).value);
  }

  method ReplayTeamRatingResults(m: Model, values: seq<AuthoritativeResult>, cutoff: int)
    returns (r: Result<Replayed, ReplayError>)
    ensures r.Ok? <==> Replayable(Elems(values), cutoff)
    ensures r.Ok? ==> IsReplayOf(m, values, r.value)
    ensures r.Err? ==> r.error == if !Consistent(Elems(values)) then ConflictingAuthority
                                  else if !NoTeamOverlap(Elems(values)) then OverlappingChronology
                                  else FollowsCutoff
  {
    var canonical := CanonicalReplayResults(values);
    if canonical.Err? { return Err(canonical.error); }
    OrdersAreTotal(Elems(values));
    SortLists(ReplayBefore, values);
    assert forall v :: v in Elems(values) <==> v in canonical.value;
    var states := ReplayInOrder(m, canonical.value, cutoff);
    r := if states.Err? then Err(states.error) else Ok(Replayed(canonical.value, states.value));
  }

  /** The replay depends only on which results there are. */
  lemma ReplayDependsOnResultsOnly(m: Model, values: seq<AuthoritativeResult>, out: Replayed,
                                   others: seq<AuthoritativeResult>, out': Replayed)
    requires Consistent(Elems(values)) && Elems(values) == Elems(others)
    requires IsReplayOf(m, values, out) && IsReplayOf(m, others, out')
    ensures out == out'
  {
    OrdersAreTotal(Elems(values));
    SortDependsOnElems(ReplayBefore, values, others);
    RepresentsUnique(out.states, out'.states, Fold(m, map[], Rows(out.order)).value);
  }

  lemma RepresentsUnique(s: seq<TeamRatingState>, t: seq<TeamRatingState>, states: States)
    requires Represents(s, states) && Represents(t, states)
    ensures s == t
  {
    var elems := Elems(s);
    forall x ensures x in elems <==> x in t {
      if x in s { assert states[x.teamId] in t; }
      if x in t { assert states[x.teamId] in s; }
    }
    forall x, y | x in elems && y in elems && x != y ensures TeamBefore(x, y) || TeamBefore(y, x) {
      assert states[x.teamId] == x && states[y.teamId] == y;
    }
    ListingUnique(TeamBefore, elems, s, t);
  }
}
