/**
 * What the result of a map says about the response itself: the scores of its team entries, the flags of
 * its odds rows, and what it was refused for. Sides are the positions of the entries in the response.
 */
module RaybetMeaning {
  import opened Wrappers
  import opened RaybetFinal
  import opened RaybetParse
  import opened RaybetSymmetry

  /**
   * The response is of the expected match and game, and lists exactly these two entries, at positions one
   * and two, with different team ids that are the expected ones.
   */
  ghost predicate Identifies(p: Payload, expected: Expectation, a: Team, b: Team) {
    && p.matchId != "" && (forall c | c in p.matchId :: c in "0123456789")
    && (expected.matchId.None? || expected.matchId.value == p.matchId) && p.gameId == Some(151)
    && p.teams.Some? && multiset(Present(p.teams.value)) == multiset{a, b} && a.pos == Some(1) && b.pos == Some(2)
    && a.teamId.Some? && b.teamId.Some? && a.teamId.value > 0 && b.teamId.value > 0 && a.teamId != b.teamId
    && (expected.teams.None? || expected.teams.value == (a.teamId.value, b.teamId.value))
  }

  /** The scores of two entries name the first as the winner of the map. */
  predicate Scored(winner: Team, loser: Team, mapNumber: int) {
    && mapNumber in winner.scores && winner.scores[mapNumber] == One
    && mapNumber in loser.scores && loser.scores[mapNumber] == Zero
  }

  /** Neither entry has a score for the map, or both have zero: the map is not over. */
  predicate NotScored(a: Team, b: Team, mapNumber: int) {
    || (mapNumber !in a.scores && mapNumber !in b.scores)
    || (mapNumber in a.scores && a.scores[mapNumber] == Zero && mapNumber in b.scores && b.scores[mapNumber] == Zero)
  }

  /** Two settled rows of one winner market of the map, in which the first team won and the second lost. */
  ghost predicate PaidOut(p: Payload, mapNumber: int, won: OddsRow, lost: OddsRow) {
    && Some(won) in p.odds && Some(lost) in p.odds && won.winnerMarket && lost.winnerMarket
    && won.stage == mapNumber && lost.stage == mapNumber && won.groupId == lost.groupId != ""
    && won.settled && lost.settled && won.win == One && lost.win == Zero
  }

  /** The first team won such rows against the second. */
  ghost predicate WonOnMarket(p: Payload, mapNumber: int, winner: Option<int>, loser: Option<int>) {
    exists won, lost :: PaidOut(p, mapNumber, won, lost) && Some(won.teamId) == winner && Some(lost.teamId) == loser
  }

  /* ---------- the rows and entries that a parse reads ---------- */

  lemma {:induction false} PresentMembers<T>(items: seq<Option<T>>)
    ensures forall x :: x in Present(items) <==> Some(x) in items
  {
    PresentCounts(items);
    forall x ensures x in Present(items) <==> Some(x) in items {
      assert multiset(Present(items))[x] == multiset(items)[Some(x)];
      assert x in multiset(Present(items)) <==> Some(x) in multiset(items);
    }
  }

  lemma RowsRead(p: Payload, mapNumber: int, row: OddsRow)
    ensures row in multiset(RelevantRows(Present(p.odds), mapNumber))
            <==> Some(row) in p.odds && row.winnerMarket && row.stage == mapNumber
  {
    PresentMembers(p.odds);
    RelevantCounts(Present(p.odds), mapNumber);
    assert row in Present(p.odds) <==> row in multiset(Present(p.odds));
  }

  lemma DigitsAreDigits(s: string)
    ensures IsDigits(s) <==> s != "" && forall c | c in s :: c in "0123456789"
  {
    forall c: char ensures c in "0123456789" <==> '0' <= c <= '9' {
      var digits := "0123456789";
      if '0' <= c <= '9' { assert digits[c as int - '0' as int] == c; }
    }
    if forall c | c in s :: c in "0123456789" {
      forall i | 0 <= i < |s| ensures '0' <= s[i] <= '9' { assert s[i] in s; }
    }
  }

  lemma IdentifiedPair(p: Payload, expected: Expectation, a: Team, b: Team)
    ensures Identifies(p, expected, a, b) <==>
              HeaderFault(p, expected).None? && InPositions(multiset(Present(p.teams.value)), a, b) && Identified(a, b)
              && (expected.teams.Some? ==> expected.teams.value == (a.teamId.value, b.teamId.value))
  {
    DigitsAreDigits(p.matchId);
  }

  /** An identified response is judged by its two entries and the rows of the map's winner markets. */
  lemma IdentifiedIsJudged(p: Payload, mapNumber: int, expected: Expectation, r: MapFinal, a: Team, b: Team)
    requires IsFinal(p, mapNumber, expected, r) && Identifies(p, expected, a, b)
    ensures Judged(a, b, EvidenceOf(p, mapNumber, expected).rows, mapNumber, r)
  {
    IdentifiedPair(p, expected, a, b);
    var e := EvidenceOf(p, mapNumber, expected);
    assert HasPositions(e.teams);
    var a', b' :| InPositions(e.teams, a', b') && IsFinalOf(a', b', e.rows, mapNumber, expected.teams, r);
    PositionsAreUnique(e.teams, a, b, a', b');
  }

  /** A result that names no side and confirms nothing. */
  predicate NamesNobody(r: MapFinal) {
    r.status != Confirmed && r.scoreWinner.None? && r.marketWinner.None? && r.winner.None? && r.outcomes == []
  }

  lemma UnidentifiedPair(a: Team, b: Team, rows: multiset<OddsRow>, mapNumber: int, expected: Option<(int, int)>,
                         r: MapFinal)
    requires IsFinalOf(a, b, rows, mapNumber, expected, r)
    requires !Identified(a, b) || (expected.Some? && expected.value != (a.teamId.value, b.teamId.value))
    ensures NamesNobody(r)
  {
  }

  lemma UnidentifiedEvidence(e: Evidence, mapNumber: int, expected: Option<(int, int)>, r: MapFinal)
    requires IsFinalOfPair(e, mapNumber, expected, r)
    requires forall a, b | InPositions(e.teams, a, b) ::
               !Identified(a, b) || (expected.Some? && expected.value != (a.teamId.value, b.teamId.value))
    ensures NamesNobody(r)
  {
    var a, b :| InPositions(e.teams, a, b) && IsFinalOf(a, b, e.rows, mapNumber, expected, r);
    UnidentifiedPair(a, b, e.rows, mapNumber, expected, r);
  }

  lemma FaultsNameNobody(p: Payload, expected: Expectation)
    ensures HeaderFault(p, expected).Some? ==> NamesNobody(HeaderFault(p, expected).value)
  {
  }

  /** Any other response names no side at all. */
  lemma OthersNameNobody(p: Payload, mapNumber: int, expected: Expectation, r: MapFinal)
    requires IsFinal(p, mapNumber, expected, r) && forall a, b :: !Identifies(p, expected, a, b)
    ensures NamesNobody(r)
  {
    var e := EvidenceOf(p, mapNumber, expected);
    FaultsNameNobody(p, expected);
    if e.fault.None? {
      NobodyIsIdentified(p, expected);
      if HasPositions(e.teams) { UnidentifiedEvidence(e, mapNumber, expected.teams, r); }
    }
  }

  lemma NobodyIsIdentified(p: Payload, expected: Expectation)
    requires HeaderFault(p, expected).None? && forall a, b :: !Identifies(p, expected, a, b)
    ensures forall a, b | InPositions(multiset(Present(p.teams.value)), a, b) ::
              !Identified(a, b)
              || (expected.teams.Some? && expected.teams.value != (a.teamId.value, b.teamId.value))
  {
    forall a, b | InPositions(multiset(Present(p.teams.value)), a, b)
      ensures !Identified(a, b)
              || (expected.teams.Some? && expected.teams.value != (a.teamId.value, b.teamId.value))
    {
      IdentifiedPair(p, expected, a, b);
      assert !Identifies(p, expected, a, b);
    }
  }

  /** The judgement of identified entries: first their scores, then the markets. */
  ghost predicate Judged(a: Team, b: Team, rows: multiset<OddsRow>, mapNumber: int, r: MapFinal) {
    && a.teamId.Some? && b.teamId.Some?
    && match ReadScore(ScoreFor(a, mapNumber), ScoreFor(b, mapNumber))
       case BadScore => r == Stopped(Conflict, MapScoreInvalid, None)
       case Score(winner) => IsMarketFinal(Teams(a.teamId.value, b.teamId.value), rows, winner, r)
  }

  /* ---------- scores ---------- */

  lemma ScoresRead(a: Team, b: Team, mapNumber: int)
    ensures var reading := ReadScore(ScoreFor(a, mapNumber), ScoreFor(b, mapNumber));
            && (reading == Score(Some(TeamOne)) <==> Scored(a, b, mapNumber))
            && (reading == Score(Some(TeamTwo)) <==> Scored(b, a, mapNumber))
            && (reading == Score(None) <==> NotScored(a, b, mapNumber))
  {
  }

  /* ---------- markets ---------- */

  lemma SettledIsPaidOut(p: Payload, mapNumber: int, m: multiset<OddsRow>, t: Teams, g: string, one: OddsRow,
                         two: OddsRow)
    requires m == multiset(RelevantRows(Present(p.odds), mapNumber)) && t.one != t.two
    requires g != "" && SettledGroup(t, m, g, one, two) && one.win == One && two.win == Zero
    ensures PaidOut(p, mapNumber, one, two) && one.teamId == t.one && two.teamId == t.two
  {
    RowsRead(p, mapNumber, one);
    RowsRead(p, mapNumber, two);
  }

  lemma WinnerIsPaidOut(p: Payload, mapNumber: int, m: multiset<OddsRow>, t: Teams)
    requires m == multiset(RelevantRows(Present(p.odds), mapNumber)) && MarketWinner(t, m, TeamOne) && t.one != t.two
    ensures WonOnMarket(p, mapNumber, Some(t.one), Some(t.two))
  {
    var g :| g != "" && GroupWinner(t, m, g, TeamOne);
    var one, two :| SettledGroup(t, m, g, one, two) && RowOf(TeamOne, one, two).win == One
                    && RowOf(Other(TeamOne), one, two).win == Zero;
    SettledIsPaidOut(p, mapNumber, m, t, g, one, two);
  }

  lemma PaidOutIsSettled(p: Payload, mapNumber: int, m: multiset<OddsRow>, t: Teams, won: OddsRow, lost: OddsRow)
    requires m == multiset(RelevantRows(Present(p.odds), mapNumber)) && PaidOut(p, mapNumber, won, lost)
    requires !InvalidGroup(t, m, won.groupId) && t.one != t.two
    ensures won.teamId == t.one && lost.teamId == t.two ==> SettledGroup(t, m, won.groupId, won, lost)
    ensures won.teamId == t.two && lost.teamId == t.one ==> SettledGroup(t, m, won.groupId, lost, won)
  {
    RowsRead(p, mapNumber, won);
    RowsRead(p, mapNumber, lost);
  }

  lemma PaidOutWins(p: Payload, mapNumber: int, m: multiset<OddsRow>, t: Teams, won: OddsRow, lost: OddsRow)
    requires m == multiset(RelevantRows(Present(p.odds), mapNumber)) && PaidOut(p, mapNumber, won, lost)
    requires won.teamId == t.one && lost.teamId == t.two && t.one != t.two && !InvalidGroup(t, m, won.groupId)
    ensures MarketWinner(t, m, TeamOne)
  {
    PaidOutIsSettled(p, mapNumber, m, t, won, lost);
    assert RowOf(TeamOne, won, lost) == won && RowOf(Other(TeamOne), won, lost) == lost;
    assert GroupWinner(t, m, won.groupId, TeamOne);
  }

  /** In valid markets a side has won exactly when two settled rows of one group say so. */
  lemma WinnersArePaidOut(p: Payload, mapNumber: int, m: multiset<OddsRow>, a: int, b: int)
    requires m == multiset(RelevantRows(Present(p.odds), mapNumber)) && a != b
    ensures MarketWinner(Teams(a, b), m, TeamOne) ==> WonOnMarket(p, mapNumber, Some(a), Some(b))
    ensures !MarketsInvalid(Teams(a, b), m) && WonOnMarket(p, mapNumber, Some(a), Some(b)) ==>
              MarketWinner(Teams(a, b), m, TeamOne)
  {
    var t := Teams(a, b);
    if MarketWinner(t, m, TeamOne) { WinnerIsPaidOut(p, mapNumber, m, t); }
    if !MarketsInvalid(t, m) && WonOnMarket(p, mapNumber, Some(a), Some(b)) {
      var won, lost :| PaidOut(p, mapNumber, won, lost) && Some(won.teamId) == Some(a) && Some(lost.teamId) == Some(b);
      assert !InvalidGroup(t, m, won.groupId);
      PaidOutWins(p, mapNumber, m, t, won, lost);
    }
  }

  lemma BothSidesArePaidOut(p: Payload, mapNumber: int, m: multiset<OddsRow>, a: int, b: int)
    requires m == multiset(RelevantRows(Present(p.odds), mapNumber)) && a != b
    ensures MarketWinner(Teams(a, b), m, TeamOne) ==> WonOnMarket(p, mapNumber, Some(a), Some(b))
    ensures MarketWinner(Teams(a, b), m, TeamTwo) ==> WonOnMarket(p, mapNumber, Some(b), Some(a))
    ensures !MarketsInvalid(Teams(a, b), m) ==>
              (WonOnMarket(p, mapNumber, Some(a), Some(b)) ==> MarketWinner(Teams(a, b), m, TeamOne))
              && (WonOnMarket(p, mapNumber, Some(b), Some(a)) ==> MarketWinner(Teams(a, b), m, TeamTwo))
  {
    var t, u := Teams(a, b), Teams(b, a);
    WinnersArePaidOut(p, mapNumber, m, a, b);
    WinnersArePaidOut(p, mapNumber, m, b, a);
    SwapWinner(t, u, m, TeamOne);
    if MarketsInvalid(u, m) { InvalidityCarriesOver(u, t, m); }
  }

  /* ---------- the result as a function of six facts ---------- */

  /** What the scores and the valid markets of an identified response say. */
  datatype Facts = Facts(scoredOne: bool, scoredTwo: bool, notScored: bool, valid: bool, paidOne: bool, paidTwo: bool)

  ghost function FactsOf(p: Payload, mapNumber: int, expected: Expectation, a: Team, b: Team): Facts
    requires a.teamId.Some? && b.teamId.Some?
  {
    Facts(Scored(a, b, mapNumber), Scored(b, a, mapNumber), NotScored(a, b, mapNumber),
          !MarketsInvalid(Teams(a.teamId.value, b.teamId.value), EvidenceOf(p, mapNumber, expected).rows),
          WonOnMarket(p, mapNumber, a.teamId, b.teamId), WonOnMarket(p, mapNumber, b.teamId, a.teamId))
  }

  /** The result that follows from the facts: refused, pending, or confirmed for a side. */
  predicate Follows(x: Facts, r: MapFinal) {
    var readable := x.valid && (x.scoredOne || x.scoredTwo || x.notScored);
    && (r.scoreWinner == Some(TeamOne) <==> x.scoredOne) && (r.scoreWinner == Some(TeamTwo) <==> x.scoredTwo)
    && (r.winner == Some(TeamOne) <==> readable && x.paidOne && !x.paidTwo && !x.scoredTwo)
    && (r.winner == Some(TeamTwo) <==> readable && x.paidTwo && !x.paidOne && !x.scoredOne)
    && (r.marketWinner == Some(TeamOne) <==> readable && x.paidOne && !x.paidTwo)
    && (r.marketWinner == Some(TeamTwo) <==> readable && x.paidTwo && !x.paidOne)
    && (r.status == Confirmed <==> r.winner.Some?)
    && (r.status == Pending <==> readable && !x.paidOne && !x.paidTwo)
    && (r.status == Pending ==> r.reason == WinnerMarketNotSettled)
  }

  lemma ReadScoresFollow(t: Teams, m: multiset<OddsRow>, score: Option<Side>, r: MapFinal, x: Facts)
    requires IsMarketFinal(t, m, score, r) && x.valid == !MarketsInvalid(t, m)
    requires x.valid ==> x.paidOne == MarketWinner(t, m, TeamOne) && x.paidTwo == MarketWinner(t, m, TeamTwo)
    requires x.scoredOne == (score == Some(TeamOne)) && x.scoredTwo == (score == Some(TeamTwo))
             && x.notScored == (score == None)
    ensures Follows(x, r)
  {
    assert score == None || score == Some(TeamOne) || score == Some(TeamTwo) by {
      if score.Some? { match score.value { case TeamOne => case TeamTwo => } }
    }
    if MarketsInvalid(t, m) {
      assert r == Stopped(Conflict, WinnerMarketInvalid, score);
    } else if x.paidOne == x.paidTwo {
      assert r == if x.paidOne then Stopped(Conflict, WinnerMarketConflict, score)
                  else Stopped(Pending, WinnerMarketNotSettled, score);
    } else {
      assert r.marketWinner == Some(if x.paidOne then TeamOne else TeamTwo);
    }
  }

  /** The result of an identified response follows from what its scores and markets say, and from nothing else. */
  lemma ResultFollowsFromFacts(p: Payload, mapNumber: int, expected: Expectation, r: MapFinal, a: Team, b: Team)
    requires IsFinal(p, mapNumber, expected, r) && Identifies(p, expected, a, b)
    ensures Follows(FactsOf(p, mapNumber, expected, a, b), r)
  {
    IdentifiedIsJudged(p, mapNumber, expected, r, a, b);
    JudgedFollows(p, mapNumber, expected, r, a, b);
  }

  lemma JudgedFollows(p: Payload, mapNumber: int, expected: Expectation, r: MapFinal, a: Team, b: Team)
    requires Judged(a, b, EvidenceOf(p, mapNumber, expected).rows, mapNumber, r) && a.teamId != b.teamId
    ensures Follows(FactsOf(p, mapNumber, expected, a, b), r)
  {
    ScoresRead(a, b, mapNumber);
    var rows, t := EvidenceOf(p, mapNumber, expected).rows, Teams(a.teamId.value, b.teamId.value);
    var reading := ReadScore(ScoreFor(a, mapNumber), ScoreFor(b, mapNumber));
    if reading.Score? {
      BothSidesArePaidOut(p, mapNumber, rows, t.one, t.two);
      ReadScoresFollow(t, rows, reading.winner, r, FactsOf(p, mapNumber, expected, a, b));
    }
  }

  /**
   * The score winner of an identified response is exactly the side whose entry has a one for the map
   * while the other has a zero.
   */
  lemma ScoreNamesTheWinner(p: Payload, mapNumber: int, expected: Expectation, r: MapFinal, a: Team, b: Team)
    requires IsFinal(p, mapNumber, expected, r) && Identifies(p, expected, a, b)
    ensures r.scoreWinner == Some(TeamOne) <==> Scored(a, b, mapNumber)
    ensures r.scoreWinner == Some(TeamTwo) <==> Scored(b, a, mapNumber)
  {
    ResultFollowsFromFacts(p, mapNumber, expected, r, a, b);
  }

  /**
   * The map is confirmed for a side exactly when its team, and not the other, won two settled rows of one
   * group, the scores do not name the other team, and neither markets nor scores are invalid.
   */
  lemma MarketNamesTheWinner(p: Payload, mapNumber: int, expected: Expectation, r: MapFinal, a: Team, b: Team)
    requires IsFinal(p, mapNumber, expected, r) && Identifies(p, expected, a, b)
    ensures var valid := FactsOf(p, mapNumber, expected, a, b).valid;
            var one, two := WonOnMarket(p, mapNumber, a.teamId, b.teamId),
                            WonOnMarket(p, mapNumber, b.teamId, a.teamId);
            && (r.winner == Some(TeamOne) <==>
                  valid && one && !two && (Scored(a, b, mapNumber) || NotScored(a, b, mapNumber)))
            && (r.winner == Some(TeamTwo) <==>
                  valid && two && !one && (Scored(b, a, mapNumber) || NotScored(a, b, mapNumber)))
  {
    ResultFollowsFromFacts(p, mapNumber, expected, r, a, b);
  }

  /** The settled row of a winner market of the map that a team won or lost. */
  ghost predicate SettledRow(p: Payload, mapNumber: int, a: Team, b: Team, row: OddsRow, won: bool) {
    && Some(row) in p.odds && row.winnerMarket && row.stage == mapNumber && row.groupId != "" && row.settled
    && (Some(row.teamId) == a.teamId || Some(row.teamId) == b.teamId) && row.win == if won then One else Zero
  }

  lemma OutcomesAreListed(t: Teams, m: multiset<OddsRow>, score: Option<Side>, r: MapFinal)
    requires IsMarketFinal(t, m, score, r)
    ensures r.outcomes != [] || r.marketWinner.Some? ==> !MarketsInvalid(t, m) && ListsOutcomes(t, m, r.outcomes)
  {
  }

  lemma GroupRowsAreSettled(p: Payload, mapNumber: int, a: Team, b: Team, t: Teams, m: multiset<OddsRow>, g: string,
                            one: OddsRow, two: OddsRow)
    requires m == multiset(RelevantRows(Present(p.odds), mapNumber)) && g != "" && SettledGroup(t, m, g, one, two)
    requires a.teamId == Some(t.one) && b.teamId == Some(t.two)
    ensures SettledRow(p, mapNumber, a, b, one, one.win == One) && SettledRow(p, mapNumber, a, b, two, two.win == One)
  {
    RowsRead(p, mapNumber, one);
    RowsRead(p, mapNumber, two);
  }

  lemma GroupSaysWhatIsSettled(p: Payload, mapNumber: int, a: Team, b: Team, t: Teams, m: multiset<OddsRow>, g: string,
                               id: string, won: bool)
    requires m == multiset(RelevantRows(Present(p.odds), mapNumber)) && g != "" && GroupSays(t, m, g, id, won)
    requires a.teamId == Some(t.one) && b.teamId == Some(t.two)
    ensures exists row :: SettledRow(p, mapNumber, a, b, row, won) && row.oddsId == id
  {
    var one, two, s :| SettledGroup(t, m, g, one, two) && one.win != two.win
                       && RowOf(s, one, two).oddsId == id && (RowOf(s, one, two).win == One <==> won);
    GroupRowsAreSettled(p, mapNumber, a, b, t, m, g, one, two);
    var row := RowOf(s, one, two);
    assert SettledRow(p, mapNumber, a, b, row, row.win == One);
  }

  /** A recorded selection is a settled row of one of the two teams, won or lost as recorded. */
  lemma SelectionsAreSettledRows(p: Payload, mapNumber: int, expected: Expectation, r: MapFinal, a: Team, b: Team,
                                 id: string, won: bool)
    requires IsFinal(p, mapNumber, expected, r) && Identifies(p, expected, a, b) && (id, won) in r.outcomes
    ensures exists row :: SettledRow(p, mapNumber, a, b, row, won) && row.oddsId == id
  {
    IdentifiedIsJudged(p, mapNumber, expected, r, a, b);
    var t, m := Teams(a.teamId.value, b.teamId.value), EvidenceOf(p, mapNumber, expected).rows;
    OutcomesAreListed(t, m, ReadScore(ScoreFor(a, mapNumber), ScoreFor(b, mapNumber)).winner, r);
    assert Says(t, m, id, won);
    var g :| g != "" && GroupSays(t, m, g, id, won);
    GroupSaysWhatIsSettled(p, mapNumber, a, b, t, m, g, id, won);
  }

  lemma PaidOutIsSaid(p: Payload, mapNumber: int, t: Teams, m: multiset<OddsRow>, won: OddsRow, lost: OddsRow)
    requires m == multiset(RelevantRows(Present(p.odds), mapNumber)) && !MarketsInvalid(t, m) && t.one != t.two
    requires PaidOut(p, mapNumber, won, lost) && {won.teamId, lost.teamId} == {t.one, t.two}
    ensures Says(t, m, won.oddsId, true) && Says(t, m, lost.oddsId, false)
  {
    var g := won.groupId;
    assert !InvalidGroup(t, m, g);
    PaidOutIsSettled(p, mapNumber, m, t, won, lost);
    var one, two := if won.teamId == t.one then won else lost, if won.teamId == t.one then lost else won;
    assert t.one in {won.teamId, lost.teamId} && t.two in {won.teamId, lost.teamId};
    assert SettledGroup(t, m, g, one, two);
    assert RowOf(TeamOne, one, two) == one && RowOf(TeamTwo, one, two) == two;
    assert GroupSays(t, m, g, won.oddsId, true) && GroupSays(t, m, g, lost.oddsId, false);
  }

  /** When the markets have a winner, all rows that were paid out are recorded as selections. */
  lemma PaidOutRowsAreRecorded(p: Payload, mapNumber: int, expected: Expectation, r: MapFinal, a: Team, b: Team,
                               won: OddsRow, lost: OddsRow)
    requires IsFinal(p, mapNumber, expected, r) && Identifies(p, expected, a, b) && r.marketWinner.Some?
    requires PaidOut(p, mapNumber, won, lost) && {won.teamId, lost.teamId} == {a.teamId.value, b.teamId.value}
    ensures (won.oddsId, true) in r.outcomes && (lost.oddsId, false) in r.outcomes
  {
    IdentifiedIsJudged(p, mapNumber, expected, r, a, b);
    var t, m := Teams(a.teamId.value, b.teamId.value), EvidenceOf(p, mapNumber, expected).rows;
    OutcomesAreListed(t, m, ReadScore(ScoreFor(a, mapNumber), ScoreFor(b, mapNumber)).winner, r);
    PaidOutIsSaid(p, mapNumber, t, m, won, lost);
  }

  /* ---------- what a response is refused for ---------- */

  /** A response of another match or game is refused for that, and one without a team list is only pending. */
  lemma WrongHeadersAreRefused(p: Payload, mapNumber: int, expected: Expectation, r: MapFinal)
    requires IsFinal(p, mapNumber, expected, r)
    ensures var expectedMatch := p.matchId != "" && (forall c | c in p.matchId :: c in "0123456789")
                                 && (expected.matchId.None? || expected.matchId.value == p.matchId);
            && (!expectedMatch ==> r.status == Conflict && r.reason == MatchIdentityInvalid)
            && (expectedMatch && p.gameId != Some(151) ==> r.status == Conflict && r.reason == GameIdentityInvalid)
            && (expectedMatch && p.gameId == Some(151) && p.teams.None? ==>
                  r.status == Pending && r.reason == TeamIdentityMissing)
  {
    DigitsAreDigits(p.matchId);
  }
}
