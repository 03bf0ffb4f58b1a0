/** Exchanging the two teams of a response exchanges them in the result and changes nothing else. */
module RaybetSymmetry {
  import opened Wrappers
  import opened RaybetFinal
  import opened RaybetParse

  function SwapIds(t: Teams): Teams {
    Teams(t.two, t.one)
  }

  function SwapSide(s: Option<Side>): Option<Side> {
    if s.Some? then Some(Other(s.value)) else None
  }

  function SwapFinal(r: MapFinal): MapFinal {
    r.(winner := SwapSide(r.winner), scoreWinner := SwapSide(r.scoreWinner), marketWinner := SwapSide(r.marketWinner))
  }

  function SwapPosition(team: Team): Team {
    team.(pos := if team.pos == Some(1) then Some(2) else if team.pos == Some(2) then Some(1) else team.pos)
  }

  function SwapAll(items: seq<Option<Team>>): seq<Option<Team>> {
    seq(|items|, i requires 0 <= i < |items| => if items[i].Some? then Some(SwapPosition(items[i].value)) else None)
  }

  function SwapTeams(p: Payload): Payload {
    p.(teams := if p.teams.Some? then Some(SwapAll(p.teams.value)) else None)
  }

  function SwapExpected(e: Expectation): Expectation {
    e.(teams := SwapPair(e.teams))
  }

  /* ---------- markets ---------- */

  lemma SwapGroup(t: Teams, m: multiset<OddsRow>, g: string)
    requires t.one != t.two
    ensures Malformed(SwapIds(t), m, g) <==> Malformed(t, m, g)
    ensures forall one, two :: SettledGroup(SwapIds(t), m, g, two, one) <==> SettledGroup(t, m, g, one, two)
  {
    assert forall row :: SideOf(SwapIds(t), row) == SwapSide(SideOf(t, row));
    SwapDoubled(t, m, g, TeamOne);
    SwapDoubled(t, m, g, TeamTwo);
    assert forall s, row :: Represents(SwapIds(t), m, g, s, row) <==> Represents(t, m, g, Other(s), row);
  }

  lemma SwapDoubled(t: Teams, m: multiset<OddsRow>, g: string, s: Side)
    requires t.one != t.two
    ensures Doubled(SwapIds(t), m, g, s) <==> Doubled(t, m, g, Other(s))
  {
    assert forall row :: SideOf(SwapIds(t), row) == Some(s) <==> SideOf(t, row) == Some(Other(s));
  }

  lemma SwapVerdicts(t: Teams, m: multiset<OddsRow>, g: string)
    requires t.one != t.two
    ensures InvalidGroup(SwapIds(t), m, g) <==> InvalidGroup(t, m, g)
    ensures forall s :: GroupWinner(SwapIds(t), m, g, s) <==> GroupWinner(t, m, g, Other(s))
    ensures forall id, won :: GroupSays(SwapIds(t), m, g, id, won) <==> GroupSays(t, m, g, id, won)
  {
    SwapGroup(t, m, g);
    assert forall s, one, two :: RowOf(s, two, one) == RowOf(Other(s), one, two);
    assert SwapIds(SwapIds(t)) == t;
    forall id, won ensures GroupSays(SwapIds(t), m, g, id, won) <==> GroupSays(t, m, g, id, won) {
      SaysEitherWay(t, m, g, id, won);
      SwapGroup(SwapIds(t), m, g);
      SaysEitherWay(SwapIds(t), m, g, id, won);
    }
    forall s ensures GroupWinner(SwapIds(t), m, g, s) <==> GroupWinner(t, m, g, Other(s)) {
      if GroupWinner(t, m, g, Other(s)) {
        var one, two :| SettledGroup(t, m, g, one, two) && RowOf(Other(s), one, two).win == One
            && RowOf(s, one, two).win == Zero;
        assert SettledGroup(SwapIds(t), m, g, two, one);
      }
      if GroupWinner(SwapIds(t), m, g, s) {
        var two, one :| SettledGroup(SwapIds(t), m, g, two, one) && RowOf(s, two, one).win == One
                        && RowOf(Other(s), two, one).win == Zero;
        assert SettledGroup(t, m, g, one, two);
      }
    }
  }

  lemma SaysEitherWay(t: Teams, m: multiset<OddsRow>, g: string, id: string, won: bool)
    requires t.one != t.two
    ensures GroupSays(t, m, g, id, won) ==> GroupSays(SwapIds(t), m, g, id, won)
  {
    SwapGroup(t, m, g);
    if GroupSays(t, m, g, id, won) {
      var one, two, s :| SettledGroup(t, m, g, one, two) && one.win != two.win
                         && RowOf(s, one, two).oddsId == id && (RowOf(s, one, two).win == One <==> won);
      assert SettledGroup(SwapIds(t), m, g, two, one);
      assert RowOf(Other(s), two, one) == RowOf(s, one, two);
    }
  }

  /** Whatever the markets say carries over to the exchanged teams. */
  lemma WinnerCarriesOver(t: Teams, u: Teams, m: multiset<OddsRow>, s: Side)
    requires t.one != t.two && u == SwapIds(t) && MarketWinner(t, m, s)
    ensures MarketWinner(u, m, Other(s))
  {
    var g :| g != "" && GroupWinner(t, m, g, s);
    SwapVerdicts(t, m, g);
    assert GroupWinner(u, m, g, Other(s)) <==> GroupWinner(t, m, g, Other(Other(s)));
  }

  lemma SayingCarriesOver(t: Teams, u: Teams, m: multiset<OddsRow>, id: string, won: bool)
    requires t.one != t.two && u == SwapIds(t) && Says(t, m, id, won)
    ensures Says(u, m, id, won)
  {
    var g :| g != "" && GroupSays(t, m, g, id, won);
    SwapVerdicts(t, m, g);
  }

  lemma InvalidityCarriesOver(t: Teams, u: Teams, m: multiset<OddsRow>)
    requires t.one != t.two && u == SwapIds(t) && MarketsInvalid(t, m)
    ensures MarketsInvalid(u, m)
  {
    if exists g :: g != "" && InvalidGroup(t, m, g) {
      var g :| g != "" && InvalidGroup(t, m, g);
      SwapVerdicts(t, m, g);
    } else {
      var id :| Says(t, m, id, true) && Says(t, m, id, false);
      SayingCarriesOver(t, u, m, id, true);
      SayingCarriesOver(t, u, m, id, false);
    }
  }

  lemma SwapWinner(t: Teams, u: Teams, m: multiset<OddsRow>, s: Side)
    requires t.one != t.two && u == SwapIds(t)
    ensures MarketWinner(u, m, s) <==> MarketWinner(t, m, Other(s))
  {
    if MarketWinner(t, m, Other(s)) { WinnerCarriesOver(t, u, m, Other(s)); }
    if MarketWinner(u, m, s) { WinnerCarriesOver(u, t, m, s); }
  }

  lemma SwapOutcomes(t: Teams, u: Teams, m: multiset<OddsRow>, outcomes: seq<(string, bool)>)
    requires t.one != t.two && u == SwapIds(t) && ListsOutcomes(t, m, outcomes)
    ensures ListsOutcomes(u, m, outcomes)
  {
    forall id, won ensures (id, won) in outcomes <==> Says(u, m, id, won) {
      if Says(t, m, id, won) { SayingCarriesOver(t, u, m, id, won); }
      if Says(u, m, id, won) { SayingCarriesOver(u, t, m, id, won); }
    }
  }

  lemma SwapMarketFinal(t: Teams, m: multiset<OddsRow>, score: Option<Side>, r: MapFinal)
    requires t.one != t.two && IsMarketFinal(t, m, score, r)
    ensures IsMarketFinal(SwapIds(t), m, SwapSide(score), SwapFinal(r))
  {
    var u := SwapIds(t);
    if MarketsInvalid(t, m) { InvalidityCarriesOver(t, u, m); }
    if MarketsInvalid(u, m) { InvalidityCarriesOver(u, t, m); }
    SwapWinner(t, u, m, TeamOne);
    SwapWinner(t, u, m, TeamTwo);
    if ListsOutcomes(t, m, r.outcomes) { SwapOutcomes(t, u, m, r.outcomes); }
  }

  /* ---------- the whole response ---------- */

  lemma SwapFinalOf(a: Team, b: Team, rows: multiset<OddsRow>, mapNumber: int, expected: Option<(int, int)>,
                    r: MapFinal)
    requires IsFinalOf(a, b, rows, mapNumber, expected, r)
    ensures IsFinalOf(SwapPosition(b), SwapPosition(a), rows, mapNumber, SwapPair(expected), SwapFinal(r))
  {
    if Identified(a, b) {
      var reading := ReadScore(ScoreFor(a, mapNumber), ScoreFor(b, mapNumber));
      var swapped := ReadScore(ScoreFor(b, mapNumber), ScoreFor(a, mapNumber));
      assert swapped == if reading.BadScore? then BadScore else Score(SwapSide(reading.winner));
      if (expected.Some? ==> expected.value == (a.teamId.value, b.teamId.value)) && reading.Score? {
        SwapMarketFinal(Teams(a.teamId.value, b.teamId.value), rows, reading.winner, r);
      }
    }
  }

  lemma {:induction false} SwapPresent(items: seq<Option<Team>>)
    ensures |Present(SwapAll(items))| == |Present(items)|
    ensures forall i | 0 <= i < |Present(items)| :: Present(SwapAll(items))[i] == SwapPosition(Present(items)[i])
  {
    if items != [] {
      SwapPresent(items[..|items| - 1]);
      assert SwapAll(items)[..|items| - 1] == SwapAll(items[..|items| - 1]);
    }
  }

  function SwapEvidence(e: Evidence, swapped: multiset<Team>): Evidence {
    e.(fault := if e.fault.Some? then Some(SwapFinal(e.fault.value)) else None, teams := swapped)
  }

  /** The second team list is the first with its positions exchanged. */
  ghost predicate PositionsSwapped(teams: multiset<Team>, swapped: multiset<Team>) {
    && (HasPositions(swapped) <==> HasPositions(teams))
    && (forall a, b :: InPositions(teams, a, b) ==> InPositions(swapped, SwapPosition(b), SwapPosition(a)))
  }

  lemma SwapPositions(items: seq<Option<Team>>)
    ensures PositionsSwapped(multiset(Present(items)), multiset(Present(SwapAll(items))))
  {
    var teams, swapped := Present(items), Present(SwapAll(items));
    SwapPresent(items);
    OnlyTwoHavePositions(teams);
    OnlyTwoHavePositions(swapped);
    if |teams| == 2 {
      PairMultiset(teams);
      PairMultiset(swapped);
      PositionsOfTwo(teams[0], teams[1]);
      PositionsOfTwo(swapped[0], swapped[1]);
      forall a, b | InPositions(multiset(teams), a, b)
        ensures InPositions(multiset(swapped), SwapPosition(b), SwapPosition(a))
      {
        if teams[0].pos == Some(1) {
          PositionsAreUnique(multiset(teams), a, b, teams[0], teams[1]);
        } else {
          PositionsAreUnique(multiset(teams), a, b, teams[1], teams[0]);
        }
      }
    }
  }

  function SwapPair(expected: Option<(int, int)>): Option<(int, int)> {
    if expected.Some? then Some((expected.value.1, expected.value.0)) else None
  }

  lemma SwapFinalOfPair(e: Evidence, swapped: multiset<Team>, mapNumber: int, expected: Option<(int, int)>, r: MapFinal)
    requires PositionsSwapped(e.teams, swapped) && IsFinalOfPair(e, mapNumber, expected, r)
    ensures IsFinalOfPair(SwapEvidence(e, swapped), mapNumber, SwapPair(expected), SwapFinal(r))
  {
    var a, b :| InPositions(e.teams, a, b) && IsFinalOf(a, b, e.rows, mapNumber, expected, r);
    SwapFinalOf(a, b, e.rows, mapNumber, expected, r);
    assert InPositions(swapped, SwapPosition(b), SwapPosition(a));
  }

  lemma EvidenceIsSymmetric(e: Evidence, swapped: multiset<Team>, mapNumber: int, expected: Option<(int, int)>,
                            r: MapFinal)
    requires PositionsSwapped(e.teams, swapped) && IsFinalOfEvidence(e, mapNumber, expected, r)
    ensures IsFinalOfEvidence(SwapEvidence(e, swapped), mapNumber, SwapPair(expected), SwapFinal(r))
  {
    if e.fault.None? {
      if HasPositions(e.teams) { SwapFinalOfPair(e, swapped, mapNumber, expected, r); }
    }
  }

  lemma SwapsTheEvidence(p: Payload, mapNumber: int, expected: Expectation)
    ensures PositionsSwapped(EvidenceOf(p, mapNumber, expected).teams,
                             EvidenceOf(SwapTeams(p), mapNumber, SwapExpected(expected)).teams)
    ensures EvidenceOf(SwapTeams(p), mapNumber, SwapExpected(expected))
            == SwapEvidence(EvidenceOf(p, mapNumber, expected),
                            EvidenceOf(SwapTeams(p), mapNumber, SwapExpected(expected)).teams)
  {
    SwapPositions(if p.teams.Some? then p.teams.value else []);
    assert SwapAll([]) == [] && Present<Team>([]) == [];
  }

  /** Exchange the positions of the teams, and the expected ids: the result is the same with its sides exchanged. */
  lemma ParsingIsSymmetric(p: Payload, mapNumber: int, expected: Expectation, r: MapFinal)
    requires IsFinal(p, mapNumber, expected, r)
    ensures IsFinal(SwapTeams(p), mapNumber, SwapExpected(expected), SwapFinal(r))
  {
    SwapsTheEvidence(p, mapNumber, expected);
    var swapped := EvidenceOf(SwapTeams(p), mapNumber, SwapExpected(expected)).teams;
    EvidenceIsSymmetric(EvidenceOf(p, mapNumber, expected), swapped, mapNumber, expected.teams, r);
  }

  /* ---------- agreement ---------- */

  /**
   * All settled groups name the winner of the result, no selection is recorded both ways, and the score
   * names it or nobody.
   */
  ghost predicate Agree(t: Teams, m: multiset<OddsRow>, r: MapFinal)
    requires r.winner.Some?
  {
    && r.marketWinner == r.winner && (r.scoreWinner.Some? ==> r.scoreWinner == r.winner)
    && (forall g, one, two | g != "" && SettledGroup(t, m, g, one, two) ::
          RowOf(r.winner.value, one, two).win == One && RowOf(Other(r.winner.value), one, two).win == Zero)
    && (forall id :: !((id, true) in r.outcomes && (id, false) in r.outcomes))
  }

  lemma MarketsHaveOneWinner(t: Teams, m: multiset<OddsRow>, score: Option<Side>, r: MapFinal)
    requires IsMarketFinal(t, m, score, r)
    ensures r.status == Confirmed <==> r.winner.Some?
    ensures r.winner.Some? ==> Agree(t, m, r) && r.scoreWinner == score
  {
    if r.winner.Some? {
      forall g, one, two | g != "" && SettledGroup(t, m, g, one, two)
        ensures RowOf(r.winner.value, one, two).win == One && RowOf(Other(r.winner.value), one, two).win == Zero
      {
        assert !InvalidGroup(t, m, g);
        var s := if one.win == One then TeamOne else TeamTwo;
        assert GroupWinner(t, m, g, s);
        assert MarketWinner(t, m, s);
      }
    }
  }

  /**
   * The response is of two identified teams at their positions, their score can be read, and all its
   * evidence agrees.
   */
  ghost predicate AgreesOn(e: Evidence, mapNumber: int, r: MapFinal)
    requires r.winner.Some?
  {
    exists a, b :: InPositions(e.teams, a, b) && Identified(a, b)
                   && ReadScore(ScoreFor(a, mapNumber), ScoreFor(b, mapNumber)) == Score(r.scoreWinner)
                   && Agree(Teams(a.teamId.value, b.teamId.value), e.rows, r)
  }

  /**
   * The result of a whole response names a winner exactly when it is confirmed. All evidence of the
   * response then agrees: every settled group names this winner, and the score names it or nobody.
   */
  lemma ConfirmedHasOneWinner(p: Payload, mapNumber: int, expected: Expectation, r: MapFinal)
    requires IsFinal(p, mapNumber, expected, r)
    ensures r.status == Confirmed <==> r.winner.Some?
    ensures r.winner.Some? ==> AgreesOn(EvidenceOf(p, mapNumber, expected), mapNumber, r)
  {
    var e := EvidenceOf(p, mapNumber, expected);
    if e.fault.None? {
      if HasPositions(e.teams) { PairHasOneWinner(e, mapNumber, expected.teams, r); }
    }
  }

  lemma PairHasOneWinner(e: Evidence, mapNumber: int, expected: Option<(int, int)>, r: MapFinal)
    requires IsFinalOfPair(e, mapNumber, expected, r)
    ensures r.status == Confirmed <==> r.winner.Some?
    ensures r.winner.Some? ==> AgreesOn(e, mapNumber, r)
  {
    var a, b :| InPositions(e.teams, a, b) && IsFinalOf(a, b, e.rows, mapNumber, expected, r);
    IdentifiedHasOneWinner(a, b, e.rows, mapNumber, expected, r);
  }

  lemma IdentifiedHasOneWinner(a: Team, b: Team, rows: multiset<OddsRow>, mapNumber: int,
                               expected: Option<(int, int)>, r: MapFinal)
    requires IsFinalOf(a, b, rows, mapNumber, expected, r)
    ensures r.status == Confirmed <==> r.winner.Some?
    ensures r.winner.Some? ==>
              Identified(a, b) && ReadScore(ScoreFor(a, mapNumber), ScoreFor(b, mapNumber)) == Score(r.scoreWinner)
              && Agree(Teams(a.teamId.value, b.teamId.value), rows, r)
  {
    if Identified(a, b) {
      var reading := ReadScore(ScoreFor(a, mapNumber), ScoreFor(b, mapNumber));
      if (expected.Some? ==> expected.value == (a.teamId.value, b.teamId.value)) && reading.Score? {
        MarketsHaveOneWinner(Teams(a.teamId.value, b.teamId.value), rows, reading.winner, r);
      }
    }
  }
}
