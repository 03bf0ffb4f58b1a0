/**
 * The replayed states depend only on the order of each team's own maps: maps without a common
 * team commute, so every linear order that respects the teams gives the same states or the
 * same failure.
 */
module ReplayOrder {
  import opened Wrappers
  import opened Ordering
  import opened TeamRating

  /** The maps of one team, in the order of `rows`. */
  ghost function Projection(rows: seq<RatingMapInput>, team: int): seq<RatingMapInput> {
    if rows == [] then []
    else (if rows[0].Involves(team) then [rows[0]] else []) + Projection(rows[1..], team)
  }

  ghost predicate SameForEveryTeam(rows: seq<RatingMapInput>, other: seq<RatingMapInput>) {
    forall team :: Projection(rows, team) == Projection(other, team)
  }

  lemma {:induction false} ProjectionAppend(first: seq<RatingMapInput>, second: seq<RatingMapInput>, team: int)
    ensures Projection(first + second, team) == Projection(first, team) + Projection(second, team)
  {
    if first == [] {
      assert first + second == second;
    } else {
      assert (first + second)[1..] == first[1..] + second;
      ProjectionAppend(first[1..], second, team);
    }
  }

  lemma {:induction false} ProjectionMembers(rows: seq<RatingMapInput>, team: int)
    ensures forall row :: row in Projection(rows, team) <==> row in rows && row.Involves(team)
  {
    if rows != [] { ProjectionMembers(rows[1..], team); }
  }

  function Then(m: Model, states: Result<States, RatingError>, row: RatingMapInput): Result<States, RatingError> {
    if states.Err? then states else Apply(m, states.value, row)
  }

  /** Two maps without a common team can be applied in either order. */
  lemma DisjointMapsCommute(m: Model, states: States, x: RatingMapInput, y: RatingMapInput)
    requires !x.SharesTeam(y)
    ensures Then(m, Apply(m, states, x), y) == Then(m, Apply(m, states, y), x)
  {
    var rx := Rated(m, StateOf(m, states, x.radiantTeam), StateOf(m, states, x.direTeam), x);
    var ry := Rated(m, StateOf(m, states, y.radiantTeam), StateOf(m, states, y.direTeam), y);
    if rx.Ok? && ry.Ok? {
      assert states[x.radiantTeam := rx.value.0][x.direTeam := rx.value.1]
                   [y.radiantTeam := ry.value.0][y.direTeam := ry.value.1]
          == states[y.radiantTeam := ry.value.0][y.direTeam := ry.value.1]
                   [x.radiantTeam := rx.value.0][x.direTeam := rx.value.1];
    }
  }

  lemma {:induction false} MoveToFront(m: Model, states: States, before: seq<RatingMapInput>, x: RatingMapInput,
                                      after: seq<RatingMapInput>)
    requires forall y | y in before :: !x.SharesTeam(y)
    ensures Fold(m, states, before + [x] + after) == Fold(m, states, [x] + (before + after))
    decreases |before|
  {
    if before == [] {
      assert before + [x] + after == [x] + (before + after);
    } else {
      var y, rest := before[0], before[1..];
      assert (before + [x] + after)[1..] == rest + [x] + after;
      var sx, sy := Apply(m, states, x), Apply(m, states, y);
      DisjointMapsCommute(m, states, x, y);
      assert ([x] + (before + after))[1..] == before + after && (before + after)[1..] == rest + after;
      if sy.Ok? {
        MoveToFront(m, sy.value, rest, x, after);
        assert ([x] + (rest + after))[1..] == rest + after;
      }
    }
  }

  /** The first map of `rows` also comes first, up to unrelated maps, in any order that agrees team by team. */
  lemma {:induction false} FindHead(x: RatingMapInput, other: seq<RatingMapInput>) returns (k: nat)
    requires Projection(other, x.radiantTeam) != [] && Projection(other, x.radiantTeam)[0] == x
    requires Projection(other, x.direTeam) != [] && Projection(other, x.direTeam)[0] == x
    ensures k < |other| && other[k] == x && forall y | y in other[..k] :: !x.SharesTeam(y)
  {
    if other[0].Involves(x.radiantTeam) || other[0].Involves(x.direTeam) {
      k := 0;
    } else {
      var k' := FindHead(x, other[1..]);
      k := k' + 1;
      assert other[..k] == [other[0]] + other[1..][..k'];
    }
  }

  lemma SomeTeamPlays(rows: seq<RatingMapInput>)
    requires rows != []
    ensures exists team :: Projection(rows, team) != []
  {
    assert Projection(rows, rows[0].radiantTeam) != [];
  }

  /** Any two orders that agree on each team's own maps replay to the same states, or fail alike. */
  lemma {:induction false} ReplayDependsOnTeamOrdersOnly(m: Model, states: States, rows: seq<RatingMapInput>,
                                                        other: seq<RatingMapInput>)
    requires SameForEveryTeam(rows, other)
    ensures Fold(m, states, rows) == Fold(m, states, other)
    decreases |rows|
  {
    if rows == [] {
      if other != [] { SomeTeamPlays(other); }
    } else {
      var x := rows[0];
      assert Projection(rows, x.radiantTeam) == Projection(other, x.radiantTeam);
      assert Projection(rows, x.direTeam) == Projection(other, x.direTeam);
      var k := FindHead(x, other);
      var before, after := other[..k], other[k + 1..];
      assert other == before + [x] + after;
      MoveToFront(m, states, before, x, after);
      TailsAgree(rows, x, before, after);
      assert ([x] + (before + after))[1..] == before + after;
      var next := Apply(m, states, x);
      if next.Ok? { ReplayDependsOnTeamOrdersOnly(m, next.value, rows[1..], before + after); }
    }
  }

  lemma TailsAgree(rows: seq<RatingMapInput>, x: RatingMapInput, before: seq<RatingMapInput>,
                   after: seq<RatingMapInput>)
    requires rows != [] && rows[0] == x && SameForEveryTeam(rows, before + [x] + after)
    requires forall y | y in before :: !x.SharesTeam(y)
    ensures SameForEveryTeam(rows[1..], before + after)
  {
    forall team ensures Projection(rows[1..], team) == Projection(before + after, team) {
      assert Projection(rows, team) == Projection(before + [x] + after, team);
      TailAgrees(rows, x, before, after, team);
    }
  }

  lemma TailAgrees(rows: seq<RatingMapInput>, x: RatingMapInput, before: seq<RatingMapInput>,
                   after: seq<RatingMapInput>, team: int)
    requires rows != [] && rows[0] == x && Projection(rows, team) == Projection(before + [x] + after, team)
    requires forall y | y in before :: !x.SharesTeam(y)
    ensures Projection(rows[1..], team) == Projection(before + after, team)
  {
    var own := if x.Involves(team) then [x] else [];
    ProjectionAppend(before + [x], after, team);
    ProjectionAppend(before, [x], team);
    ProjectionAppend(before, after, team);
    ProjectionOfOne(x, team);
    var p, b, a := Projection(rows[1..], team), Projection(before, team), Projection(after, team);
    if x.Involves(team) {
      NoneInvolved(before, team);
      assert [x] + p == [x] + a;
      assert p == ([x] + p)[1..] && a == ([x] + a)[1..];
    } else {
      assert [] + p == p && b + [] == b;
    }
  }

  lemma ProjectionOfOne(x: RatingMapInput, team: int)
    ensures Projection([x], team) == if x.Involves(team) then [x] else []
  {
    assert [x][1..] == [];
    assert Projection([x][1..], team) == [];
  }

  lemma {:induction false} NoneInvolved(rows: seq<RatingMapInput>, team: int)
    requires forall y | y in rows :: !y.Involves(team)
    ensures Projection(rows, team) == []
  {
    if rows != [] { NoneInvolved(rows[1..], team); }
  }

  /* ---------- orders by start time ---------- */

  predicate StartsBefore(a: RatingMapInput, b: RatingMapInput) {
    a.startedAt < b.startedAt
  }

  /** Each team's own maps appear in order of their start, with no two starting together. */
  ghost predicate ChronologicalPerTeam(rows: seq<RatingMapInput>) {
    forall i, j | 0 <= i < j < |rows| && rows[i].SharesTeam(rows[j]) :: rows[i].startedAt < rows[j].startedAt
  }

  lemma {:induction false} ProjectionSorted(rows: seq<RatingMapInput>, team: int)
    requires ChronologicalPerTeam(rows)
    ensures SortedBy(StartsBefore, Projection(rows, team))
  {
    if rows != [] {
      ProjectionSorted(rows[1..], team);
      ProjectionMembers(rows[1..], team);
      var tail := Projection(rows[1..], team);
      forall y | y in tail && rows[0].Involves(team) ensures StartsBefore(rows[0], y) {
        var k :| 0 <= k < |rows[1..]| && rows[1..][k] == y;
        assert rows[k + 1] == y;
      }
    }
  }

  /** Whatever breaks ties between unrelated maps, the states are the same. */
  lemma TieBreaksCannotChangeRatings(m: Model, states: States, rows: seq<RatingMapInput>, other: seq<RatingMapInput>)
    requires Elems(rows) == Elems(other)
    requires ChronologicalPerTeam(rows) && ChronologicalPerTeam(other)
    ensures Fold(m, states, rows) == Fold(m, states, other)
  {
    forall team ensures Projection(rows, team) == Projection(other, team) {
      ProjectionSorted(rows, team);
      ProjectionSorted(other, team);
      ProjectionMembers(rows, team);
      ProjectionMembers(other, team);
      var own := Elems(Projection(rows, team));
      forall y ensures y in own <==> y in Projection(other, team) {
        assert y in rows <==> y in Elems(rows);
        assert y in other <==> y in Elems(other);
      }
      ProjectionListing(rows, team);
      ListingUnique(StartsBefore, own, Projection(rows, team), Projection(other, team));
    }
    ReplayDependsOnTeamOrdersOnly(m, states, rows, other);
  }

  lemma ProjectionListing(rows: seq<RatingMapInput>, team: int)
    requires SortedBy(StartsBefore, Projection(rows, team))
    ensures StrictTotalOn(StartsBefore, Elems(Projection(rows, team)))
    ensures IsListing(StartsBefore, Elems(Projection(rows, team)), Projection(rows, team))
  {
    var own := Projection(rows, team);
    forall x, y | x in Elems(own) && y in Elems(own) && x != y ensures StartsBefore(x, y) || StartsBefore(y, x) {
      var i :| 0 <= i < |own| && own[i] == x;
      var j :| 0 <= j < |own| && own[j] == y;
      assert i < j ==> StartsBefore(own[i], own[j]);
      assert j < i ==> StartsBefore(own[j], own[i]);
    }
  }

  /* ---------- exchanging the two sides ---------- */

  function SwapSides(row: RatingMapInput): RatingMapInput {
    row.(radiantTeam := row.direTeam, direTeam := row.radiantTeam,
         radiantRoster := row.direRoster, direRoster := row.radiantRoster,
         radiantWin := !row.radiantWin)
  }

  function SwapAll(rows: seq<RatingMapInput>): (swapped: seq<RatingMapInput>) {
    seq(|rows|, i requires 0 <= i < |rows| => SwapSides(rows[i]))
  }

  /** The model with the side advantage turned round. */
  function Mirror(m: Model): Model {
    Model(m.math, m.config.(radiantSideLogit := -m.config.radiantSideLogit))
  }

  lemma SwappedLogit(m: Model, radiant: real, dire: real)
    ensures Logit(Mirror(m), dire, radiant) == -Logit(m, radiant, dire)
  {
    var factor := m.math.ln10 / m.config.scale;
    assert factor * (dire - radiant) == -(factor * (radiant - dire));
  }

  lemma SideSwapSymmetry(m: Model, radiant: real, dire: real)
    requires m.math.Lawful()
    ensures Probability(Mirror(m), dire, radiant) == 1.0 - Probability(m, radiant, dire)
  {
    SwappedLogit(m, radiant, dire);
    assert m.math.sigmoid(-Logit(m, radiant, dire)) == 1.0 - m.math.sigmoid(Logit(m, radiant, dire));
  }

  lemma MirrorKeepsEffectiveRating(m: Model, state: TeamRatingState, roster: Roster, asOf: int)
    ensures EffectiveRating(Mirror(m), state, roster, asOf) == EffectiveRating(m, state, roster, asOf)
  {
    var c := RosterContinuity(state.roster, roster);
    forall rating ensures Carried(Mirror(m), rating, c) == Carried(m, rating, c) {}
    forall idle ensures Decayed(Mirror(m), state.rating, idle) == Decayed(m, state.rating, idle) {}
  }

  lemma SwappedMoveIsOpposite(m: Model, row: RatingMapInput, radiant: real, dire: real)
    requires m.math.Lawful()
    ensures Move(Mirror(m), SwapSides(row), dire, radiant) == -Move(m, row, radiant, dire)
  {
    SideSwapSymmetry(m, radiant, dire);
    var surprise := Surprise(m, row, radiant, dire);
    assert Surprise(Mirror(m), SwapSides(row), dire, radiant) == -surprise;
    assert m.config.kFactor * (-surprise) == -(m.config.kFactor * surprise);
  }

  lemma RatedSwaps(m: Model, r: TeamRatingState, d: TeamRatingState, row: RatingMapInput)
    requires m.math.Lawful()
    ensures var rated, swapped := Rated(m, r, d, row), Rated(Mirror(m), d, r, SwapSides(row));
            && (rated.Ok? <==> swapped.Ok?)
            && (rated.Ok? ==> swapped.value == (rated.value.1, rated.value.0))
            && (rated.Err? ==> swapped.error == rated.error)
  {
    MirrorKeepsEffectiveRating(m, r, row.radiantRoster, row.startedAt);
    MirrorKeepsEffectiveRating(m, d, row.direRoster, row.startedAt);
    var radiant := EffectiveRating(m, r, row.radiantRoster, row.startedAt);
    var dire := EffectiveRating(m, d, row.direRoster, row.startedAt);
    if radiant.Ok? && dire.Ok? { SwappedMoveIsOpposite(m, row, radiant.value, dire.value); }
  }

  lemma SwappedUpdateAgrees(m: Model, states: States, row: RatingMapInput)
    requires m.math.Lawful()
    ensures Apply(Mirror(m), states, SwapSides(row)) == Apply(m, states, row)
  {
    var r, d := StateOf(m, states, row.radiantTeam), StateOf(m, states, row.direTeam);
    RatedSwaps(m, r, d, row);
    var rated := Rated(m, r, d, row);
    if rated.Ok? {
      assert states[row.direTeam := rated.value.1][row.radiantTeam := rated.value.0]
          == states[row.radiantTeam := rated.value.0][row.direTeam := rated.value.1];
    }
  }

  /** Listing every map with its sides exchanged, and the side advantage negated, replays to the same states. */
  lemma {:induction false} ReplayIsSideSymmetric(m: Model, states: States, rows: seq<RatingMapInput>)
    requires m.math.Lawful()
    ensures Fold(Mirror(m), states, SwapAll(rows)) == Fold(m, states, rows)
    decreases |rows|
  {
    if rows != [] {
      SwappedUpdateAgrees(m, states, rows[0]);
      assert SwapAll(rows)[1..] == SwapAll(rows[1..]);
      var next := Apply(m, states, rows[0]);
      if next.Ok? { ReplayIsSideSymmetric(m, next.value, rows[1..]); }
    }
  }
}
