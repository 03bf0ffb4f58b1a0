/**
 * What ratings mean, said without the update's own formula: who gains from a result and how much, what
 * idle time and new players do to a rating, what a lead is worth, and what a replay leaves of a team.
 */
module RatingMeaning {
  import opened Wrappers
  import opened Ordering
  import opened TeamRating
  import opened ReplayOrder
  import opened Replay

  /** Further laws of the library functions: the logistic function, and decay by half in each half-life. */
  ghost predicate Logistic(math: RealMath) {
    && math.ln10 > 0.0 && math.sigmoid(math.ln10) == 10.0 / 11.0
    && (forall x :: 0.0 < math.sigmoid(x) < 1.0) && (forall x :: math.sigmoid(-x) == 1.0 - math.sigmoid(x))
    && (forall x, y | x < y :: math.sigmoid(x) < math.sigmoid(y))
  }

  /** Decay over two spans is decay over one and then the other. */
  ghost predicate Multiplies(math: RealMath, a: real, b: real, h: real) {
    math.halfLifeDecay(a + b, h) == math.halfLifeDecay(a, h) * math.halfLifeDecay(b, h)
  }

  ghost predicate HalvesAndCarries(math: RealMath) {
    && (forall h | h > 0.0 :: math.halfLifeDecay(h, h) == 0.5)
    && (forall a, b, h {:trigger Multiplies(math, a, b, h)} | a >= 0.0 && b >= 0.0 && h > 0.0 ::
          Multiplies(math, a, b, h))
    && (forall exponent | exponent > 0.0 :: math.power(0.0, exponent) == 0.0 && math.power(1.0, exponent) == 1.0)
  }

  /* ---------- one result ---------- */

  /** The two teams of a map as they are rated when it starts. */
  ghost predicate RatedAtStart(m: Model, states: States, row: RatingMapInput, radiant: real, dire: real) {
    && EffectiveRating(m, StateOf(m, states, row.radiantTeam), row.radiantRoster, row.startedAt) == Ok(radiant)
    && EffectiveRating(m, StateOf(m, states, row.direTeam), row.direRoster, row.startedAt) == Ok(dire)
  }

  /** The state of a team after one more map, completed with these players at this rating. */
  ghost predicate PlayedOneMore(before: TeamRatingState, after: TeamRatingState, rating: real, roster: Roster,
                                completedAt: int)
  {
    && after.rating == rating && after.mapsSeen == before.mapsSeen + 1
    && after.roster == roster && after.lastObservedAt == Some(completedAt)
  }

  ghost function Teams(t: seq<TeamRatingState>): set<int> {
    set s | s in t :: s.teamId
  }

  lemma OppositeProducts(k: real, chance: real)
    ensures k * (0.0 - chance) == -(k * chance) && k * (1.0 - chance) == k - k * chance
  {
  }

  /**
   * A result that counts gives its winner k times the probability that was left to the loser, and takes
   * as much from the loser; both have then played one more map with the players they fielded.
   */
  lemma WinnerGainsWhatTheLoserLoses(m: Model, states: States, row: RatingMapInput, radiant: real, dire: real,
                                     cutoff: int, t: seq<TeamRatingState>)
    requires RatedAtStart(m, states, row, radiant, dire) && row.usableAt.Some? && row.usableAt.value <= cutoff
    requires Update(m, states, row, cutoff).Ok? && Represents(t, Update(m, states, row, cutoff).value)
    ensures row.radiantTeam in Teams(t) && row.direTeam in Teams(t)
    ensures var chance, k := Probability(m, radiant, dire), m.config.kFactor;
            var gain := if row.radiantWin then k * (1.0 - chance) else -(k * chance);
            && (forall s | s in t && s.teamId == row.radiantTeam ::
                  PlayedOneMore(StateOf(m, states, s.teamId), s, radiant + gain, row.radiantRoster, row.completedAt))
            && (forall s | s in t && s.teamId == row.direTeam ::
                  PlayedOneMore(StateOf(m, states, s.teamId), s, dire - gain, row.direRoster, row.completedAt))
  {
    RatedTeams(m, states, row, radiant, dire);
    OppositeProducts(m.config.kFactor, Probability(m, radiant, dire));
    BothAreListed(states, row, Update(m, states, row, cutoff).value, t);
  }

  lemma RatedTeams(m: Model, states: States, row: RatingMapInput, radiant: real, dire: real)
    requires RatedAtStart(m, states, row, radiant, dire) && Apply(m, states, row).Ok?
    ensures var after, move := Apply(m, states, row).value, Move(m, row, radiant, dire);
            && row.radiantTeam in after && after[row.radiantTeam].teamId == row.radiantTeam
            && PlayedOneMore(StateOf(m, states, row.radiantTeam), after[row.radiantTeam], radiant + move,
                             row.radiantRoster, row.completedAt)
            && row.direTeam in after && after[row.direTeam].teamId == row.direTeam
            && PlayedOneMore(StateOf(m, states, row.direTeam), after[row.direTeam], dire - move,
                             row.direRoster, row.completedAt)
  {
  }

  lemma BothAreListed(states: States, row: RatingMapInput, after: States, t: seq<TeamRatingState>)
    requires Represents(t, after) && row.radiantTeam in after && row.direTeam in after
    requires after[row.radiantTeam].teamId == row.radiantTeam && after[row.direTeam].teamId == row.direTeam
    ensures row.radiantTeam in Teams(t) && row.direTeam in Teams(t)
    ensures forall s | s in t && s.teamId == row.radiantTeam :: s == after[row.radiantTeam]
    ensures forall s | s in t && s.teamId == row.direTeam :: s == after[row.direTeam]
  {
    assert after[row.radiantTeam] in t && after[row.direTeam] in t;
  }

  /** The winner ends strictly above the rating it started the map with, and the loser strictly below. */
  lemma WinnersRise(m: Model, states: States, row: RatingMapInput, radiant: real, dire: real, cutoff: int,
                    t: seq<TeamRatingState>)
    requires RatedAtStart(m, states, row, radiant, dire) && forall x :: 0.0 < m.math.sigmoid(x) < 1.0
    requires row.usableAt.Some? && row.usableAt.value <= cutoff
    requires Update(m, states, row, cutoff).Ok? && Represents(t, Update(m, states, row, cutoff).value)
    ensures forall s | s in t && s.teamId == row.radiantTeam ::
              if row.radiantWin then s.rating > radiant else s.rating < radiant
    ensures forall s | s in t && s.teamId == row.direTeam ::
              if row.radiantWin then s.rating < dire else s.rating > dire
  {
    WinnerGainsWhatTheLoserLoses(m, states, row, radiant, dire, cutoff, t);
    var chance, k := Probability(m, radiant, dire), m.config.kFactor;
    assert 0.0 < chance < 1.0;
    assert k * (1.0 - chance) > 0.0 && k * chance > 0.0;
  }

  /** All other teams stay as they are; a result that is not usable by the cutoff changes no team. */
  lemma OthersStayAsTheyAre(m: Model, states: States, row: RatingMapInput, cutoff: int, t: seq<TeamRatingState>)
    requires WellKeyed(states) && Update(m, states, row, cutoff).Ok?
    requires Represents(t, Update(m, states, row, cutoff).value)
    ensures forall s: TeamRatingState | s.teamId != row.radiantTeam && s.teamId != row.direTeam ::
              s in t <==> s.teamId in states && states[s.teamId] == s
    ensures row.usableAt.None? || row.usableAt.value > cutoff ==> Represents(t, states)
  {
    var after := Update(m, states, row, cutoff).value;
    forall s: TeamRatingState | s.teamId != row.radiantTeam && s.teamId != row.direTeam
      ensures s in t <==> s.teamId in states && states[s.teamId] == s
    {
      if s.teamId in states { assert after[s.teamId] in t; }
    }
  }

  /* ---------- a rating at a moment ---------- */

  function HalfLifeMicros(m: Model): real
    requires m.config.halfLifeDays.Some?
  {
    m.config.halfLifeDays.value * 24.0 * 3600.0 * 1000000.0
  }

  /** The deviation of a rating from the initial one. */
  function Above(m: Model, rating: real): real {
    rating - m.config.initialRating
  }

  lemma DaysAddUp(a: int, b: int)
    requires a >= 0 && b >= 0
    ensures Days(a + b) == Days(a) + Days(b) && Days(a) >= 0.0 && Days(b) >= 0.0
  {
  }

  lemma DecayFactorsMultiply(math: RealMath, x: real, y: real, sum: real, h: real)
    requires HalvesAndCarries(math) && x >= 0.0 && y >= 0.0 && h > 0.0 && sum == x + y
    ensures math.halfLifeDecay(sum, h) == math.halfLifeDecay(x, h) * math.halfLifeDecay(y, h)
  {
    assert Multiplies(math, x, y, h);
  }

  lemma DecayedIs(m: Model, rating: real, micros: int, factor: real)
    requires m.config.halfLifeDays.Some? && factor == m.math.halfLifeDecay(Days(micros), m.config.halfLifeDays.value)
    ensures Decayed(m, rating, micros) == m.config.initialRating + factor * (rating - m.config.initialRating)
  {
  }

  /** Scaling a deviation twice is scaling it once by the product. */
  lemma ScaledTwice(initial: real, x: real, y: real, rating: real, once: real, twice: real, product: real, direct: real)
    requires once == initial + x * (rating - initial) && twice == initial + y * (once - initial)
    requires product == x * y && direct == initial + product * (rating - initial)
    ensures twice == direct
  {
    var d := rating - initial;
    assert y * (x * d) == (x * y) * d;
  }

  lemma DecaysAddUp(m: Model, rating: real, a: int, b: int)
    requires HalvesAndCarries(m.math) && a >= 0 && b >= 0
    ensures Decayed(m, rating, a + b) == Decayed(m, Decayed(m, rating, a), b)
  {
    if m.config.halfLifeDays.Some? {
      var h := m.config.halfLifeDays.value;
      var x, y := m.math.halfLifeDecay(Days(a), h), m.math.halfLifeDecay(Days(b), h);
      var z, once := m.math.halfLifeDecay(Days(a + b), h), Decayed(m, rating, a);
      assert z == x * y by {
        DaysAddUp(a, b);
        DecayFactorsMultiply(m.math, Days(a), Days(b), Days(a + b), h);
      }
      DecayedIs(m, rating, a, x);
      DecayedIs(m, once, b, y);
      DecayedIs(m, rating, a + b, z);
      ScaledTwice(m.config.initialRating, x, y, rating, once, Decayed(m, once, b), z, Decayed(m, rating, a + b));
    }
  }

  /** After one half-life without a map, half of a team's deviation is left. */
  lemma HalfLifeHalves(m: Model, state: TeamRatingState, asOf: int)
    requires HalvesAndCarries(m.math) && m.config.halfLifeDays.Some? && state.lastObservedAt.Some?
    requires (asOf - state.lastObservedAt.value) as real == HalfLifeMicros(m)
    ensures EffectiveRating(m, state, state.roster, asOf).Ok?
    ensures Above(m, EffectiveRating(m, state, state.roster, asOf).value) == Above(m, state.rating) / 2.0
  {
    var idle := asOf - state.lastObservedAt.value;
    SameRosterKeeps(m, Decayed(m, state.rating, idle), state.roster);
    assert Days(idle) == m.config.halfLifeDays.value;
  }

  lemma SameRosterKeeps(m: Model, rating: real, roster: Roster)
    requires HalvesAndCarries(m.math)
    ensures Carried(m, rating, RosterContinuity(roster, roster)) == rating
  {
    if roster != {} {
      assert roster * roster == roster;
      assert RosterContinuity(roster, roster) == Some(1.0);
      assert m.math.power(1.0, m.config.carryPower) == 1.0;
    }
  }

  /**
   * Idle time adds up: rating a team at a moment in between, and going on from there with the same
   * players, gives the same rating later.
   */
  lemma RatingInBetweenChangesNothing(m: Model, state: TeamRatingState, roster: Roster, between: int, asOf: int)
    requires HalvesAndCarries(m.math) && state.lastObservedAt.Some?
    requires state.lastObservedAt.value <= between <= asOf
    ensures EffectiveRating(m, state, state.roster, between).Ok?
    ensures var rated := EffectiveRating(m, state, state.roster, between).value;
            EffectiveRating(m, state.(rating := rated, lastObservedAt := Some(between)), roster, asOf)
            == EffectiveRating(m, state, roster, asOf)
  {
    var a, b := between - state.lastObservedAt.value, asOf - between;
    RatedIs(m, state, state.roster, between, a);
    SameRosterKeeps(m, Decayed(m, state.rating, a), state.roster);
    var rated := EffectiveRating(m, state, state.roster, between).value;
    RatedIs(m, state.(rating := rated, lastObservedAt := Some(between)), roster, asOf, b);
    RatedIs(m, state, roster, asOf, a + b);
    DecaysAddUp(m, state.rating, a, b);
  }

  lemma RatedIs(m: Model, state: TeamRatingState, roster: Roster, asOf: int, idle: int)
    requires state.lastObservedAt.Some? && idle == asOf - state.lastObservedAt.value && idle >= 0
    ensures EffectiveRating(m, state, roster, asOf)
            == Ok(Carried(m, Decayed(m, state.rating, idle), RosterContinuity(state.roster, roster)))
  {
  }

  /** A team that fields nobody it had before starts over; with the same or unknown players it keeps its rating. */
  lemma RostersCarryRatings(m: Model, state: TeamRatingState, roster: Roster, asOf: int)
    requires HalvesAndCarries(m.math) && EffectiveRating(m, state, roster, asOf).Ok?
    ensures state.roster != {} && roster != {} && state.roster !! roster ==>
              EffectiveRating(m, state, roster, asOf).value == m.config.initialRating
    ensures state.roster == roster || state.roster == {} || roster == {} ==>
              EffectiveRating(m, state, roster, asOf) == EffectiveRating(m, state.(roster := {}), {}, asOf)
  {
    var decayed := if state.lastObservedAt.None? then state.rating
                   else Decayed(m, state.rating, asOf - state.lastObservedAt.value);
    if state.roster == roster { SameRosterKeeps(m, decayed, roster); }
    if state.roster != {} && roster != {} && state.roster !! roster {
      assert state.roster * roster == {};
      assert RosterContinuity(state.roster, roster) == Some(0.0);
    }
  }

  /** A team without a state starts at the initial rating, whoever plays and whenever. */
  lemma NewTeamsStartAtTheInitialRating(m: Model, states: States, team: int, roster: Roster, asOf: int)
    requires team !in states
    ensures EffectiveRating(m, StateOf(m, states, team), roster, asOf) == Ok(m.config.initialRating)
    ensures StateOf(m, states, team).mapsSeen == 0
  {
  }

  /** Each player who is replaced by a new one takes a fifth of the carry with them. */
  lemma EveryPlayerCarriesAFifth(previous: Roster, current: Roster, gone: int, joined: int)
    requires previous != {} && gone in current && gone in previous && joined !in current && joined !in previous
    ensures |current - {gone} + {joined}| == 5
    ensures RosterContinuity(previous, current).Some?
    ensures RosterContinuity(previous, current - {gone} + {joined})
            == Some(RosterContinuity(previous, current).value - 0.2)
  {
    var changed := current - {gone} + {joined};
    assert |changed| == 5;
    assert previous * changed == previous * current - {gone};
  }

  /* ---------- what a lead is worth ---------- */

  /** A side wins more often the higher it is rated, and less often the higher the other is. */
  lemma HigherRatedWinMoreOften(m: Model, radiant: real, dire: real, higher: real)
    requires Logistic(m.math) && radiant < higher
    ensures Probability(m, radiant, dire) < Probability(m, higher, dire)
    ensures Probability(m, dire, higher) < Probability(m, dire, radiant)
  {
    var factor := m.math.ln10 / m.config.scale;
    assert factor > 0.0;
    Scales(factor, radiant - dire, higher - dire);
    Scales(factor, dire - higher, dire - radiant);
    assert Logit(m, radiant, dire) < Logit(m, higher, dire) && Logit(m, dire, higher) < Logit(m, dire, radiant);
  }

  lemma Scales(factor: real, x: real, y: real)
    requires factor > 0.0 && x < y
    ensures factor * x < factor * y
  {
    assert factor * (y - x) > 0.0;
  }

  /** Without a side advantage equal teams are even, and a lead of one scale is worth ten to one. */
  lemma LeadOfOneScaleIsTenToOne(m: Model, rating: real)
    requires Logistic(m.math) && m.config.radiantSideLogit == 0.0
    ensures Probability(m, rating, rating) == 0.5
    ensures Probability(m, rating + m.config.scale, rating) == 10.0 / 11.0
    ensures Probability(m, rating, rating + m.config.scale) == 1.0 / 11.0
  {
    var factor := m.math.ln10 / m.config.scale;
    assert factor * (rating - rating) == 0.0 && m.math.sigmoid(-0.0) == 1.0 - m.math.sigmoid(0.0);
    assert factor * m.config.scale == m.math.ln10;
    assert (rating + m.config.scale) - rating == m.config.scale;
    assert rating - (rating + m.config.scale) == -m.config.scale;
    assert factor * (-m.config.scale) == -m.math.ln10;
    assert m.math.sigmoid(-m.math.ln10) == 1.0 - m.math.sigmoid(m.math.ln10);
  }

  lemma LeadIsSide(ln10: real, scale: real, lead: real, side: real)
    requires scale > 0.0 && lead * ln10 == side * scale
    ensures ln10 / scale * lead == side
  {
    assert (ln10 / scale) * scale == ln10;
    assert ((ln10 / scale) * lead) * scale == lead * ((ln10 / scale) * scale);
    assert ((ln10 / scale) * lead - side) * scale == 0.0;
  }

  lemma LogitOfALead(m: Model, even: Model, radiant: real, dire: real, lead: real)
    requires even.math == m.math && even.config.scale == m.config.scale && even.config.radiantSideLogit == 0.0
    requires m.math.ln10 / m.config.scale * lead == m.config.radiantSideLogit
    ensures Logit(even, radiant + lead, dire) == Logit(m, radiant, dire)
  {
    var factor := m.math.ln10 / m.config.scale;
    assert (radiant + lead) - dire == (radiant - dire) + lead;
    assert factor * ((radiant - dire) + lead) == factor * (radiant - dire) + factor * lead;
  }

  /** The side advantage is a lead of the radiant team: the one whose log odds it is. */
  lemma SideAdvantageIsALead(m: Model, radiant: real, dire: real, lead: real)
    requires lead * m.math.ln10 == m.config.radiantSideLogit * m.config.scale
    ensures Probability(m, radiant, dire)
            == Probability(Model(m.math, m.config.(radiantSideLogit := 0.0)), radiant + lead, dire)
  {
    LeadIsSide(m.math.ln10, m.config.scale, lead, m.config.radiantSideLogit);
    LogitOfALead(m, Model(m.math, m.config.(radiantSideLogit := 0.0)), radiant, dire, lead);
  }

  /* ---------- what a replay leaves of a team ---------- */

  /** What the states say of a team is its number of maps, and the players and completion of its last one. */
  ghost predicate SaysOf(states: States, team: int, maps: seq<RatingMapInput>) {
    && (team in states <==> maps != [])
    && (maps != [] ==>
          var last := maps[|maps| - 1];
          && states[team].teamId == team && states[team].mapsSeen == |maps|
          && states[team].lastObservedAt == Some(last.completedAt)
          && states[team].roster == if team == last.radiantTeam then last.radiantRoster else last.direRoster)
  }

  /** After every replay the states tell of each team its own maps, and of no other team. */
  lemma {:induction false} StatesTellOfEachTeam(m: Model, rows: seq<RatingMapInput>, team: int)
    requires Fold(m, map[], rows).Ok?
    ensures SaysOf(Fold(m, map[], rows).value, team, Projection(rows, team))
  {
    if rows != [] {
      var init, last := rows[..|rows| - 1], rows[|rows| - 1];
      assert rows == init + [last];
      FoldAppend(m, map[], init, [last]);
      var before := Fold(m, map[], init);
      assert before.Ok?;
      assert [last][1..] == [];
      assert Fold(m, map[], rows) == Apply(m, before.value, last) by {
        var after := Apply(m, before.value, last);
        if after.Ok? { assert Fold(m, after.value, [last][1..]) == after; }
      }
      ProjectionAppend(init, [last], team);
      assert Projection([last], team) == if last.Involves(team) then [last] else [];
      StatesTellOfEachTeam(m, init, team);
    }
  }
}
