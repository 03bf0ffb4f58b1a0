/**
 * Team Rating: validated inputs, the effective rating of a team at a moment, one Elo update,
 * and the replay of a list of maps. Times are whole microseconds; ratings are reals.
 */
module TeamRating {
  import opened Wrappers
  import opened Ordering

  datatype RatingError = ConflictingStates | CutoffPrecedesLastObserved | ConflictingRows

  /** The library functions the rating formula calls. Only their laws below are used. */
  datatype RealMath = RealMath(
    sigmoid: real -> real,
    halfLifeDecay: (real, real) -> real,
    power: (real, real) -> real,
    ln10: real)
  {
    ghost predicate Lawful() {
      && (forall x :: 0.0 <= sigmoid(x) <= 1.0)
      && (forall x :: sigmoid(-x) == 1.0 - sigmoid(x))
      && (forall days, halfLife | days >= 0.0 && halfLife > 0.0 :: 0.0 <= halfLifeDecay(days, halfLife) <= 1.0)
      && (forall base, exponent | 0.0 <= base <= 1.0 && exponent > 0.0 :: 0.0 <= power(base, exponent) <= 1.0)
    }
  }

  datatype ConfigFields = Config(
    initialRating: real,
    scale: real,
    kFactor: real,
    halfLifeDays: Option<real>,
    carryPower: real,
    radiantSideLogit: real)
  {
    predicate Valid() {
      scale > 0.0 && kFactor > 0.0 && carryPower > 0.0 && (halfLifeDays.Some? ==> halfLifeDays.value > 0.0)
    }
  }

  type TeamRatingConfig = c: ConfigFields | c.Valid() witness Config(1500.0, 400.0, 32.0, None, 1.0, 0.0)

  datatype Model = Model(math: RealMath, config: TeamRatingConfig)

  /** A canonical roster: the sorted distinct players, so a set, either unknown or complete. */
  type Roster = r: set<int> | |r| == 0 || |r| == 5 witness {}

  datatype MapFields = MapInput(
    matchId: int,
    seriesId: Option<int>,
    eventId: string,
    startedAt: int,
    completedAt: int,
    usableAt: Option<int>,
    radiantTeam: int,
    direTeam: int,
    radiantRoster: Roster,
    direRoster: Roster,
    radiantWin: bool)
  {
    predicate Valid() {
      && matchId > 0 && radiantTeam > 0 && direTeam > 0
      && radiantTeam != direTeam
      && startedAt < completedAt
      && (usableAt.Some? ==> completedAt <= usableAt.value)
    }

    predicate Involves(team: int) {
      team == radiantTeam || team == direTeam
    }

    predicate SharesTeam(other: MapFields) {
      Involves(other.radiantTeam) || Involves(other.direTeam)
    }
  }

  type RatingMapInput = r: MapFields | r.Valid()
    witness MapInput(1, None, "event", 0, 1, None, 1, 2, {}, {}, true)

  datatype TeamRatingState = TeamState(
    teamId: int,
    rating: real,
    mapsSeen: nat,
    roster: Roster,
    lastObservedAt: Option<int>)

  type States = map<int, TeamRatingState>

  function StateOf(m: Model, states: States, team: int): TeamRatingState {
    if team in states then states[team] else TeamState(team, m.config.initialRating, 0, {}, None)
  }

  /* ---------- the rating of a team at a moment ---------- */

  lemma IntersectionIsSmaller(a: set<int>, b: set<int>)
    ensures |a * b| <= |a|
  {
    assert a == (a * b) + (a - b);
  }

  function RosterContinuity(previous: Roster, current: Roster): (r: Option<real>)
    ensures r.Some? <==> previous != {} && current != {}
    ensures r.Some? ==> 0.0 <= r.value <= 1.0
  {
    if previous == {} || current == {} then None
    else
      IntersectionIsSmaller(previous, current);
      Some(|previous * current| as real / 5.0)
  }

  /** Days of 86,400 seconds of a million microseconds. */
  function Days(micros: int): real {
    micros as real / 1000000.0 / 86400.0
  }

  function Decayed(m: Model, rating: real, idleMicros: int): real {
    if m.config.halfLifeDays.None? then rating
    else
      m.config.initialRating
      + m.math.halfLifeDecay(Days(idleMicros), m.config.halfLifeDays.value) * (rating - m.config.initialRating)
  }

  function Carried(m: Model, rating: real, continuity: Option<real>): real {
    if continuity.None? then rating
    else
      m.config.initialRating
      + m.math.power(continuity.value, m.config.carryPower) * (rating - m.config.initialRating)
  }

  function EffectiveRating(m: Model, state: TeamRatingState, roster: Roster, asOf: int): Result<real, RatingError> {
    if state.lastObservedAt.Some? && asOf < state.lastObservedAt.value then
      Err(CutoffPrecedesLastObserved)
    else
      var decayed := if state.lastObservedAt.None? then state.rating
                     else Decayed(m, state.rating, asOf - state.lastObservedAt.value);
      Ok(Carried(m, decayed, RosterContinuity(state.roster, roster)))
  }

  function Logit(m: Model, radiant: real, dire: real): real {
    m.math.ln10 / m.config.scale * (radiant - dire) + m.config.radiantSideLogit
  }

  function Probability(m: Model, radiant: real, dire: real): real {
    m.math.sigmoid(Logit(m, radiant, dire))
  }

  /* ---------- one update ---------- */

  /** The outcome minus its predicted probability, seen from the radiant side. */
  function Surprise(m: Model, row: RatingMapInput, radiant: real, dire: real): real {
    (if row.radiantWin then 1.0 else 0.0) - Probability(m, radiant, dire)
  }

  function Move(m: Model, row: RatingMapInput, radiant: real, dire: real): real {
    m.config.kFactor * Surprise(m, row, radiant, dire)
  }

  /** Rate both teams as of the start of the map, then move them by the same amount apart. */
  function Rated(m: Model, radiant: TeamRatingState, dire: TeamRatingState, row: RatingMapInput)
    : Result<(TeamRatingState, TeamRatingState), RatingError>
  {
    var r := EffectiveRating(m, radiant, row.radiantRoster, row.startedAt);
    var d := EffectiveRating(m, dire, row.direRoster, row.startedAt);
    if r.Err? then Err(r.error)
    else if d.Err? then Err(d.error)
    else
      var move := Move(m, row, r.value, d.value);
      Ok((TeamState(row.radiantTeam, r.value + move, radiant.mapsSeen + 1, row.radiantRoster, Some(row.completedAt)),
          TeamState(row.direTeam, d.value - move, dire.mapsSeen + 1, row.direRoster, Some(row.completedAt))))
  }

  function Apply(m: Model, states: States, row: RatingMapInput): Result<States, RatingError> {
    var rated := Rated(m, StateOf(m, states, row.radiantTeam), StateOf(m, states, row.direTeam), row);
    if rated.Err? then Err(rated.error)
    else Ok(states[row.radiantTeam := rated.value.0][row.direTeam := rated.value.1])
  }

  /** A row whose result is not usable by the cutoff changes nothing. */
  function Update(m: Model, states: States, row: RatingMapInput, cutoff: int): Result<States, RatingError> {
    if row.usableAt.None? || row.usableAt.value > cutoff then Ok(states) else Apply(m, states, row)
  }

  /** Apply the rows from left to right, stopping at the first failure. */
  function Fold(m: Model, states: States, rows: seq<RatingMapInput>): Result<States, RatingError>
    decreases |rows|
  {
    if rows == [] then Ok(states)
    else
      var next := Apply(m, states, rows[0]);
      if next.Err? then next else Fold(m, next.value, rows[1..])
  }

  lemma {:induction false} FoldAppend(m: Model, states: States, first: seq<RatingMapInput>, second: seq<RatingMapInput>)
    ensures Fold(m, states, first + second)
         == var mid := Fold(m, states, first); if mid.Err? then mid else Fold(m, mid.value, second)
    decreases |first|
  {
    if first == [] {
      assert first + second == second;
    } else {
      assert (first + second)[1..] == first[1..] + second;
      var next := Apply(m, states, first[0]);
      if next.Ok? { FoldAppend(m, next.value, first[1..], second); }
    }
  }

  /* ---------- the states as a tuple sorted by team ---------- */

  predicate TeamBefore(a: TeamRatingState, b: TeamRatingState) {
    a.teamId < b.teamId
  }

  /** The tuple `t` lists the states of `states`, sorted by team. */
  ghost predicate Represents(t: seq<TeamRatingState>, states: States) {
    && SortedBy(TeamBefore, t)
    && (forall s | s in t :: s.teamId in states && states[s.teamId] == s)
    && (forall team | team in states :: states[team] in t)
  }

  ghost predicate NoConflict(values: seq<TeamRatingState>) {
    forall i, j | 0 <= i < j < |values| && values[i].teamId == values[j].teamId :: values[i] == values[j]
  }

  /** The states by team; a later entry would replace an earlier one. */
  ghost function Index(values: seq<TeamRatingState>): States {
    if values == [] then map[]
    else Index(values[..|values| - 1])[values[|values| - 1].teamId := values[|values| - 1]]
  }

  lemma {:induction false} IndexHolds(values: seq<TeamRatingState>)
    requires NoConflict(values)
    ensures forall s | s in values :: s.teamId in Index(values) && Index(values)[s.teamId] == s
    ensures forall team | team in Index(values) :: Index(values)[team] in values && Index(values)[team].teamId == team
  {
    if values != [] {
      var last, init := values[|values| - 1], values[..|values| - 1];
      assert values == init + [last];
      IndexHolds(init);
      forall s | s in values ensures s.teamId in Index(values) && Index(values)[s.teamId] == s {
        if s != last {
          assert s in init;
          var k :| 0 <= k < |init| && init[k] == s;
          assert values[k] == s;
        }
      }
    }
  }

  /** A sorted tuple indexes to the map it represents, so replaying from it loses nothing. */
  lemma RepresentsIndex(t: seq<TeamRatingState>, states: States)
    requires Represents(t, states) && forall team | team in states :: states[team].teamId == team
    ensures NoConflict(t) && Index(t) == states
  {
    IndexHolds(t);
    forall team | team in states ensures team in Index(t) && Index(t)[team] == states[team] {
      assert states[team] in t;
    }
    forall team | team in Index(t) ensures team in states {
      assert Index(t)[team] in t;
    }
  }

  /** The states ordered by team. */
  method SortedStates(states: States) returns (t: seq<TeamRatingState>)
    requires forall team | team in states :: states[team].teamId == team
    ensures Represents(t, states)
  {
    var teams := states.Keys;
    var listed: seq<TeamRatingState> := [];
    while teams != {}
      invariant teams <= states.Keys
      invariant forall s | s in listed :: s.teamId in states && states[s.teamId] == s
      invariant forall team | team in states && team !in teams :: states[team] in listed
      decreases |teams|
    {
      SomeNumber(teams);
      var team :| team in teams;
      listed := listed + [states[team]];
      teams := teams - {team};
    }
    SortLists(TeamBefore, listed);
    t := Sort(TeamBefore, listed);
  }

  /** A state conflicts with the ones before it exactly when the index holds another state of its team. */
  lemma StateConflicts(values: seq<TeamRatingState>, i: nat)
    requires i < |values| && NoConflict(values[..i])
    ensures var index, state := Index(values[..i]), values[i];
            if state.teamId in index && index[state.teamId] != state then !NoConflict(values)
                else NoConflict(values[..i + 1])
  {
    IndexHolds(values[..i]);
    var index, state := Index(values[..i]), values[i];
    if state.teamId in index && index[state.teamId] != state {
      var k :| 0 <= k < i && values[..i][k] == index[state.teamId];
      assert values[k].teamId == values[i].teamId && values[k] != values[i];
    } else {
      forall k | 0 <= k < i && values[k].teamId == state.teamId ensures values[k] == state {
        assert values[k] in values[..i];
      }
    }
  }

  method CanonicalRatingStates(values: seq<TeamRatingState>) returns (r: Result<States, RatingError>)
    ensures r.Ok? <==> NoConflict(values)
    ensures r.Ok? ==> r.value == Index(values) && forall team | team in r.value :: r.value[team].teamId == team
  {
    var byTeam: States := map[];
    for i := 0 to |values|
      invariant NoConflict(values[..i]) && byTeam == Index(values[..i])
      invariant forall team | team in byTeam :: byTeam[team].teamId == team
    {
      var state := values[i];
      StateConflicts(values, i);
      if state.teamId in byTeam && byTeam[state.teamId] != state { return Err(ConflictingStates); }
      byTeam := byTeam[state.teamId := state];
      assert values[..i + 1][..i] == values[..i];
    }
    assert values[..|values|] == values;
    r := Ok(byTeam);
  }

  method UpdateTeamRatings(m: Model, states: seq<TeamRatingState>, row: RatingMapInput, cutoff: int)
    returns (r: Result<seq<TeamRatingState>, RatingError>)
    ensures !NoConflict(states) ==> r == Err(ConflictingStates)
    ensures NoConflict(states) ==>
              var updated := Update(m, Index(states), row, cutoff);
              if updated.Err? then r == Err(updated.error) else r.Ok? && Represents(r.value, updated.value)
  {
    var index := CanonicalRatingStates(states);
    if index.Err? { return Err(ConflictingStates); }
    var updated := Update(m, index.value, row, cutoff);
    if updated.Err? { return Err(updated.error); }
    var t := SortedStates(updated.value);
    r := Ok(t);
  }
}
