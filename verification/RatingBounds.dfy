/** Arithmetic of whole replays: how far ratings can move, and what every replay conserves. */
module RatingBounds {
  import opened Wrappers
  import opened Ordering
  import opened TeamRating

  lemma SomeRatedTeam(states: States)
    ensures states == map[] || exists team :: team in states.Keys
  {
    SomeNumber(states.Keys);
    if states.Keys == {} { assert states == map[]; }
  }

  /** The sum of a weight over all teams. */
  ghost function Total(states: States, weight: TeamRatingState -> real): real
    decreases |states|
  {
    if states == map[] then 0.0
    else
      SomeRatedTeam(states);
      var team :| team in states.Keys;
      weight(states[team]) + Total(states - {team}, weight)
  }

  /** The sum may take out any team first. */
  lemma {:induction false} TotalTakesOut(states: States, team: int, weight: TeamRatingState -> real)
    requires team in states
    ensures Total(states, weight) == weight(states[team]) + Total(states - {team}, weight)
    decreases |states|
  {
    SomeRatedTeam(states);
    var first :| first in states.Keys
        && Total(states, weight) == weight(states[first]) + Total(states - {first}, weight);
    if first != team {
      TotalTakesOut(states - {first}, team, weight);
      TotalTakesOut(states - {team}, first, weight);
      assert states - {first} - {team} == states - {team} - {first};
    }
  }

  lemma TotalUpdate(states: States, team: int, state: TeamRatingState, weight: TeamRatingState -> real)
    ensures Total(states[team := state], weight)
         == Total(states, weight) + weight(state) - (if team in states then weight(states[team]) else 0.0)
  {
    var updated := states[team := state];
    TotalTakesOut(updated, team, weight);
    assert updated - {team} == states - {team};
    if team in states { TotalTakesOut(states, team, weight); } else { assert states - {team} == states; }
  }

  function Seen(state: TeamRatingState): real {
    state.mapsSeen as real
  }

  function Deviation(m: Model): TeamRatingState -> real {
    (state: TeamRatingState) => state.rating - m.config.initialRating
  }

  lemma ApplyTotal(m: Model, states: States, row: RatingMapInput, weight: TeamRatingState -> real)
    requires Apply(m, states, row).Ok?
    ensures var next := Apply(m, states, row).value;
            row.radiantTeam in next && row.direTeam in next
            && Total(next, weight) == Total(states, weight)
                 + weight(next[row.radiantTeam]) - (if row.radiantTeam in states then weight(states[row.radiantTeam])
                                                    else 0.0)
                 + weight(next[row.direTeam]) - (if row.direTeam in states then weight(states[row.direTeam]) else 0.0)
  {
    var next := Apply(m, states, row).value;
    TotalUpdate(states, row.radiantTeam, next[row.radiantTeam], weight);
    TotalUpdate(states[row.radiantTeam := next[row.radiantTeam]], row.direTeam, next[row.direTeam], weight);
  }

  /** Each result is seen by exactly two teams. */
  lemma {:induction false} MapsSeenAreTwicePerResult(m: Model, states: States, rows: seq<RatingMapInput>)
    requires Fold(m, states, rows).Ok?
    ensures Total(Fold(m, states, rows).value, Seen) == Total(states, Seen) + 2.0 * |rows| as real
    decreases |rows|
  {
    if rows != [] {
      ApplyTotal(m, states, rows[0], Seen);
      MapsSeenAreTwicePerResult(m, Apply(m, states, rows[0]).value, rows[1..]);
    }
  }

  /* ---------- conservation ---------- */

  ghost predicate NoRosters(states: States) {
    forall team | team in states :: states[team].roster == {}
  }

  /** Without decay and without rosters a result moves rating from one team to the other, so nothing is created. */
  lemma {:induction false} DeviationsAreConserved(m: Model, states: States, rows: seq<RatingMapInput>)
    requires m.config.halfLifeDays.None? && NoRosters(states)
    requires forall row | row in rows :: row.radiantRoster == {} && row.direRoster == {}
    requires Fold(m, states, rows).Ok?
    ensures Total(Fold(m, states, rows).value, Deviation(m)) == Total(states, Deviation(m))
    decreases |rows|
  {
    if rows != [] {
      assert rows[0].radiantRoster == {} && rows[0].direRoster == {};
      ApplyTotal(m, states, rows[0], Deviation(m));
      DeviationsAreConserved(m, Apply(m, states, rows[0]).value, rows[1..]);
    }
  }

  /** So from no states at all, the maps seen are two for each result, and the deviations add up to nothing. */
  lemma FromNoStates(m: Model, rows: seq<RatingMapInput>)
    requires Fold(m, map[], rows).Ok?
    ensures Total(Fold(m, map[], rows).value, Seen) == 2.0 * |rows| as real
    ensures m.config.halfLifeDays.None? && (forall row | row in rows :: row.radiantRoster == {} && row.direRoster == {})
            ==> Total(Fold(m, map[], rows).value, Deviation(m)) == 0.0
  {
    MapsSeenAreTwicePerResult(m, map[], rows);
    if m.config.halfLifeDays.None? && (forall row | row in rows :: row.radiantRoster == {} && row.direRoster == {}) {
      DeviationsAreConserved(m, map[], rows);
    }
  }

  /* ---------- the bound ---------- */

  ghost predicate Within(m: Model, states: States) {
    forall team | team in states :: Bounded(m, states[team].rating, states[team].mapsSeen)
  }

  function Limit(m: Model, maps: nat): real {
    m.config.kFactor * maps as real
  }

  ghost predicate Bounded(m: Model, rating: real, maps: nat) {
    -Limit(m, maps) <= rating - m.config.initialRating <= Limit(m, maps)
  }

  lemma NonNegativeProduct(x: real, y: real)
    requires x >= 0.0 && y >= 0.0
    ensures x * y >= 0.0
  {
  }

  /** Scaling by at most one in size stays within the same limit. */
  lemma ScaledWithin(factor: real, value: real, limit: real)
    requires -1.0 <= factor <= 1.0 && -limit <= value <= limit
    ensures -limit <= factor * value <= limit
  {
    var size := if factor >= 0.0 then factor else -factor;
    NonNegativeProduct(size, limit - value);
    NonNegativeProduct(size, limit + value);
    NonNegativeProduct(1.0 - size, limit);
    assert size * (limit - value) == size * limit - size * value;
    assert size * (limit + value) == size * limit + size * value;
    assert (1.0 - size) * limit == limit - size * limit;
    assert factor * value == if factor >= 0.0 then size * value else -(size * value);
  }

  /** A factor between zero and one moves a rating towards the initial rating. */
  lemma ShrinkingKeepsBound(m: Model, rating: real, factor: real, maps: nat)
    requires 0.0 <= factor <= 1.0 && Bounded(m, rating, maps)
    ensures Bounded(m, m.config.initialRating + factor * (rating - m.config.initialRating), maps)
  {
    ScaledWithin(factor, rating - m.config.initialRating, Limit(m, maps));
  }

  lemma EffectiveRatingKeepsBound(m: Model, state: TeamRatingState, roster: Roster, asOf: int)
    requires m.math.Lawful() && Bounded(m, state.rating, state.mapsSeen)
    requires EffectiveRating(m, state, roster, asOf).Ok?
    ensures Bounded(m, EffectiveRating(m, state, roster, asOf).value, state.mapsSeen)
  {
    var decayed := state.rating;
    if state.lastObservedAt.Some? {
      var idle := asOf - state.lastObservedAt.value;
      decayed := Decayed(m, state.rating, idle);
      DecayKeepsBound(m, state.rating, idle, state.mapsSeen);
    }
    CarryKeepsBound(m, decayed, RosterContinuity(state.roster, roster), state.mapsSeen);
  }

  lemma DecayKeepsBound(m: Model, rating: real, idle: int, maps: nat)
    requires m.math.Lawful() && Bounded(m, rating, maps) && idle >= 0
    ensures Bounded(m, Decayed(m, rating, idle), maps)
  {
    if m.config.halfLifeDays.Some? {
      ShrinkingKeepsBound(m, rating, m.math.halfLifeDecay(Days(idle), m.config.halfLifeDays.value), maps);
    }
  }

  lemma CarryKeepsBound(m: Model, rating: real, continuity: Option<real>, maps: nat)
    requires m.math.Lawful() && Bounded(m, rating, maps) && (continuity.Some? ==> 0.0 <= continuity.value <= 1.0)
    ensures Bounded(m, Carried(m, rating, continuity), maps)
  {
    if continuity.Some? {
      ShrinkingKeepsBound(m, rating, m.math.power(continuity.value, m.config.carryPower), maps);
    }
  }

  lemma LimitStep(m: Model, maps: nat)
    ensures Limit(m, maps + 1) == Limit(m, maps) + m.config.kFactor
  {
    var k, n := m.config.kFactor, maps as real;
    assert (maps + 1) as real == n + 1.0;
    assert k * (n + 1.0) == k * n + k;
  }

  lemma MoveIsSmall(m: Model, row: RatingMapInput, radiant: real, dire: real)
    requires m.math.Lawful()
    ensures -m.config.kFactor <= Move(m, row, radiant, dire) <= m.config.kFactor
  {
    var k, surprise := m.config.kFactor, Surprise(m, row, radiant, dire);
    assert 0.0 <= Probability(m, radiant, dire) <= 1.0;
    NonNegativeProduct(k, 1.0 - surprise);
    NonNegativeProduct(k, 1.0 + surprise);
    assert k * (1.0 - surprise) == k - k * surprise;
    assert k * (1.0 + surprise) == k + k * surprise;
  }

  lemma OneMoveKeepsBound(m: Model, rating: real, move: real, maps: nat)
    requires Bounded(m, rating, maps) && -m.config.kFactor <= move <= m.config.kFactor
    ensures Bounded(m, rating + move, maps + 1) && Bounded(m, rating - move, maps + 1)
  {
    LimitStep(m, maps);
  }

  lemma RatedKeepsBound(m: Model, r: TeamRatingState, d: TeamRatingState, row: RatingMapInput)
    requires m.math.Lawful() && Rated(m, r, d, row).Ok?
    requires Bounded(m, r.rating, r.mapsSeen) && Bounded(m, d.rating, d.mapsSeen)
    ensures var (radiant, dire) := Rated(m, r, d, row).value;
            Bounded(m, radiant.rating, radiant.mapsSeen) && Bounded(m, dire.rating, dire.mapsSeen)
  {
    EffectiveRatingKeepsBound(m, r, row.radiantRoster, row.startedAt);
    EffectiveRatingKeepsBound(m, d, row.direRoster, row.startedAt);
    var radiant := EffectiveRating(m, r, row.radiantRoster, row.startedAt).value;
    var dire := EffectiveRating(m, d, row.direRoster, row.startedAt).value;
    MoveIsSmall(m, row, radiant, dire);
    OneMoveKeepsBound(m, radiant, Move(m, row, radiant, dire), r.mapsSeen);
    OneMoveKeepsBound(m, dire, Move(m, row, radiant, dire), d.mapsSeen);
  }

  lemma UpdateKeepsBound(m: Model, states: States, row: RatingMapInput)
    requires m.math.Lawful() && Within(m, states) && Apply(m, states, row).Ok?
    ensures Within(m, Apply(m, states, row).value)
  {
    var r, d := StateOf(m, states, row.radiantTeam), StateOf(m, states, row.direTeam);
    assert Bounded(m, r.rating, r.mapsSeen) && Bounded(m, d.rating, d.mapsSeen);
    RatedKeepsBound(m, r, d, row);
  }

  /** In every state a replay reaches, a team is within k per map it has played of the initial rating. */
  lemma {:induction false} RatingsStayWithinK(m: Model, states: States, rows: seq<RatingMapInput>)
    requires m.math.Lawful() && Within(m, states) && Fold(m, states, rows).Ok?
    ensures Within(m, Fold(m, states, rows).value)
    decreases |rows|
  {
    if rows != [] {
      UpdateKeepsBound(m, states, rows[0]);
      RatingsStayWithinK(m, Apply(m, states, rows[0]).value, rows[1..]);
    }
  }
}
