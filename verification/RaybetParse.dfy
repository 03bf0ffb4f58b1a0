/** Parsing a whole response for one map: identity, score, then markets; and what cannot matter to it. */
module RaybetParse {
  import opened Wrappers
  import opened Ordering
  import opened TextOrder
  import opened RaybetFinal

  predicate IsDigits(s: string) {
    s != "" && forall i | 0 <= i < |s| :: '0' <= s[i] <= '9'
  }

  /** The members of a list that are objects. */
  function Present<T>(items: seq<Option<T>>): seq<T> {
    if items == [] then []
    else Present(items[..|items| - 1]) + if items[|items| - 1].Some? then [items[|items| - 1].value] else []
  }

  predicate Relevant(row: OddsRow, mapNumber: int) {
    row.winnerMarket && row.stage == mapNumber
  }

  function RelevantRows(rows: seq<OddsRow>, mapNumber: int): seq<OddsRow> {
    if rows == [] then []
    else RelevantRows(rows[..|rows| - 1], mapNumber)
         + if Relevant(rows[|rows| - 1], mapNumber) then [rows[|rows| - 1]] else []
  }

  datatype ScoreReading = BadScore | Score(winner: Option<Side>)

  /** What two present or absent score flags say: any other value, one alone, or two ones are invalid. */
  function ReadScore(one: Option<Flag>, two: Option<Flag>): ScoreReading {
    match (one, two)
    case (None, None) => Score(None)
    case (Some(One), Some(Zero)) => Score(Some(TeamOne))
    case (Some(Zero), Some(One)) => Score(Some(TeamTwo))
    case (Some(Zero), Some(Zero)) => Score(None)
    case _ => BadScore
  }

  function ScoreFor(team: Team, mapNumber: int): Option<Flag> {
    if mapNumber in team.scores then Some(team.scores[mapNumber]) else None
  }

  datatype Expectation = Expectation(matchId: Option<string>, teams: Option<(int, int)>)

  /** The two entries by position, when there are exactly these two. */
  ghost predicate InPositions(teams: multiset<Team>, a: Team, b: Team) {
    teams == multiset{a, b} && a.pos == Some(1) && b.pos == Some(2)
  }

  predicate Identified(a: Team, b: Team) {
    a.teamId.Some? && b.teamId.Some? && 0 < a.teamId.value && 0 < b.teamId.value && a.teamId != b.teamId
  }

  /** The result once the two entries are known. */
  ghost predicate IsFinalOf(a: Team, b: Team, rows: multiset<OddsRow>, mapNumber: int, expected: Option<(int, int)>,
                            r: MapFinal)
  {
    if !Identified(a, b) then r == Stopped(Conflict, TeamIdentityInvalid, None)
    else if expected.Some? && expected.value != (a.teamId.value, b.teamId.value) then
      r == Stopped(Conflict, TeamIdentityConflict, None)
    else
      match ReadScore(ScoreFor(a, mapNumber), ScoreFor(b, mapNumber))
      case BadScore => r == Stopped(Conflict, MapScoreInvalid, None)
      case Score(winner) => IsMarketFinal(Teams(a.teamId.value, b.teamId.value), rows, winner, r)
  }

  /** What stops a response before its teams are read. */
  function HeaderFault(p: Payload, expected: Expectation): Option<MapFinal> {
    if !IsDigits(p.matchId) || (expected.matchId.Some? && p.matchId != expected.matchId.value) then
      Some(Stopped(Conflict, MatchIdentityInvalid, None))
    else if p.gameId != Some(DOTA2_GAME_ID) then Some(Stopped(Conflict, GameIdentityInvalid, None))
    else if p.teams.None? then Some(Stopped(Pending, TeamIdentityMissing, None))
    else None
  }

  ghost predicate HasPositions(teams: multiset<Team>) {
    exists a, b :: InPositions(teams, a, b)
  }

  /** All that a parse reads: what stops it at once, or else the team entries and the map's winner rows, unordered. */
  datatype Evidence = Evidence(fault: Option<MapFinal>, teams: multiset<Team>, rows: multiset<OddsRow>)

  function EvidenceOf(p: Payload, mapNumber: int, expected: Expectation): Evidence {
    Evidence(HeaderFault(p, expected), multiset(if p.teams.Some? then Present(p.teams.value) else []),
            multiset(RelevantRows(Present(p.odds), mapNumber)))
  }

  ghost predicate IsFinalOfPair(e: Evidence, mapNumber: int, expected: Option<(int, int)>, r: MapFinal) {
    exists a, b :: InPositions(e.teams, a, b) && IsFinalOf(a, b, e.rows, mapNumber, expected, r)
  }

  ghost predicate IsFinalOfEvidence(e: Evidence, mapNumber: int, expected: Option<(int, int)>, r: MapFinal) {
    if e.fault.Some? then r == e.fault.value
    else if HasPositions(e.teams) then IsFinalOfPair(e, mapNumber, expected, r)
    else r == Stopped(Conflict, TeamIdentityInvalid, None)
  }

  /** The result of a response. */
  ghost predicate IsFinal(p: Payload, mapNumber: int, expected: Expectation, r: MapFinal) {
    IsFinalOfEvidence(EvidenceOf(p, mapNumber, expected), mapNumber, expected.teams, r)
  }

  method ParseIdentifiedMap(a: Team, b: Team, rows: seq<OddsRow>, mapNumber: int, expected: Option<(int, int)>)
    returns (r: MapFinal)
    ensures IsFinalOf(a, b, multiset(rows), mapNumber, expected, r)
  {
    if !Identified(a, b) { return Stopped(Conflict, TeamIdentityInvalid, None); }
    if expected.Some? && expected.value != (a.teamId.value, b.teamId.value) {
      return Stopped(Conflict, TeamIdentityConflict, None);
    }
    var score := ReadScore(ScoreFor(a, mapNumber), ScoreFor(b, mapNumber));
    if score.BadScore? { return Stopped(Conflict, MapScoreInvalid, None); }
    r := ParseMarkets(Teams(a.teamId.value, b.teamId.value), rows, score.winner);
  }

  /** The two entries in order of position, if there are exactly the positions one and two. */
  method SortedPair(teams: seq<Team>) returns (pair: Option<(Team, Team)>)
    ensures pair.Some? ==> InPositions(multiset(teams), pair.value.0, pair.value.1)
    ensures pair.None? ==> !HasPositions(multiset(teams))
  {
    if |teams| != 2 {
      OnlyTwoHavePositions(teams);
      return None;
    }
    var a, b := teams[0], teams[1];
    PairMultiset(teams);
    PositionsOfTwo(a, b);
    if a.pos.None? || b.pos.None? { return None; }
    if b.pos.value < a.pos.value { a, b := b, a; }
    pair := if a.pos == Some(1) && b.pos == Some(2) then Some((a, b)) else None;
  }

  /** The final result of one map; none for a map number that is not positive, which the source refuses. */
  method ParseRaybetMapFinal(p: Payload, mapNumber: int, expected: Expectation) returns (r: Option<MapFinal>)
    ensures r.Some? <==> mapNumber > 0
    ensures r.Some? ==> IsFinal(p, mapNumber, expected, r.value)
  {
    if mapNumber <= 0 { return None; }
    var fault := HeaderFault(p, expected);
    if fault.Some? { return fault; }
    var teams := [];
    for i := 0 to |p.teams.value|
      invariant teams == Present(p.teams.value[..i])
    {
      assert p.teams.value[..i + 1][..i] == p.teams.value[..i];
      if p.teams.value[i].Some? { teams := teams + [p.teams.value[i].value]; }
    }
    assert p.teams.value[..|p.teams.value|] == p.teams.value;
    var pair := SortedPair(teams);
    if pair.None? { return Some(Stopped(Conflict, TeamIdentityInvalid, None)); }
    var rows := RelevantOdds(p.odds, mapNumber);
    var final := ParseIdentifiedMap(pair.value.0, pair.value.1, rows, mapNumber, expected.teams);
    assert IsFinalOfPair(EvidenceOf(p, mapNumber, expected), mapNumber, expected.teams, final);
    r := Some(final);
  }

  method RelevantOdds(odds: seq<Option<OddsRow>>, mapNumber: int) returns (rows: seq<OddsRow>)
    ensures rows == RelevantRows(Present(odds), mapNumber)
  {
    rows := [];
    for i := 0 to |odds|
      invariant rows == RelevantRows(Present(odds[..i]), mapNumber)
    {
      assert odds[..i + 1][..i] == odds[..i];
      if odds[i].Some? {
        RelevantOneMore(Present(odds[..i]), odds[i].value, mapNumber);
        if Relevant(odds[i].value, mapNumber) { rows := rows + [odds[i].value]; }
      } else {
        assert Present(odds[..i + 1]) == Present(odds[..i]);
      }
    }
    assert odds[..|odds|] == odds;
  }

  lemma RelevantOneMore(rows: seq<OddsRow>, row: OddsRow, mapNumber: int)
    ensures RelevantRows(rows + [row], mapNumber)
            == RelevantRows(rows, mapNumber) + if Relevant(row, mapNumber) then [row] else []
  {
    assert rows + [row] != [] && (rows + [row])[..|rows + [row]| - 1] == rows;
  }

  lemma PairMultiset(teams: seq<Team>)
    requires |teams| == 2
    ensures multiset(teams) == multiset{teams[0], teams[1]}
  {
    assert teams == [teams[0], teams[1]];
  }

  lemma OnlyTwoHavePositions(teams: seq<Team>)
    ensures HasPositions(multiset(teams)) ==> |teams| == 2
  {
    if HasPositions(multiset(teams)) {
      var a, b :| InPositions(multiset(teams), a, b);
      assert |multiset(teams)| == |teams| && |multiset{a, b}| == 2;
    }
  }

  lemma PositionsOfTwo(x: Team, y: Team)
    ensures HasPositions(multiset{x, y}) <==>
              (x.pos == Some(1) && y.pos == Some(2)) || (x.pos == Some(2) && y.pos == Some(1))
    ensures x.pos == Some(1) && y.pos == Some(2) ==> InPositions(multiset{x, y}, x, y)
    ensures y.pos == Some(1) && x.pos == Some(2) ==> InPositions(multiset{x, y}, y, x)
  {
    assert multiset{x, y} == multiset{y, x};
    assert x.pos == Some(1) && y.pos == Some(2) ==> InPositions(multiset{x, y}, x, y);
    assert y.pos == Some(1) && x.pos == Some(2) ==> InPositions(multiset{x, y}, y, x);
    if HasPositions(multiset{x, y}) {
      var a, b :| InPositions(multiset{x, y}, a, b);
      assert a in multiset{x, y} && b in multiset{x, y} && x in multiset{a, b} && y in multiset{a, b};
    }
  }

  lemma PositionsAreUnique(teams: multiset<Team>, a: Team, b: Team, a': Team, b': Team)
    requires InPositions(teams, a, b) && InPositions(teams, a', b')
    ensures a == a' && b == b'
  {
    assert a' in multiset{a, b} && b' in multiset{a, b};
  }

  /* ---------- order of the lists ---------- */

  lemma {:induction false} PresentCounts<T>(items: seq<Option<T>>)
    ensures forall x :: multiset(Present(items))[x] == multiset(items)[Some(x)]
  {
    if items != [] {
      var init, last := items[..|items| - 1], items[|items| - 1];
      assert items == init + [last];
      PresentCounts(init);
    }
  }

  lemma {:induction false} RelevantCounts(rows: seq<OddsRow>, mapNumber: int)
    ensures forall row :: multiset(RelevantRows(rows, mapNumber))[row]
                          == if Relevant(row, mapNumber) then multiset(rows)[row] else 0
  {
    if rows != [] {
      var init, last := rows[..|rows| - 1], rows[|rows| - 1];
      assert rows == init + [last];
      RelevantCounts(init, mapNumber);
    }
  }

  lemma ListedOnce(t: Teams, m: multiset<OddsRow>, a: seq<(string, bool)>, b: seq<(string, bool)>)
    requires ListsOutcomes(t, m, a) && ListsOutcomes(t, m, b)
    ensures a == b
  {
    forall x ensures x in a <==> x in b {
      assert (x.0, x.1) in a <==> Says(t, m, x.0, x.1);
      assert (x.0, x.1) in b <==> Says(t, m, x.0, x.1);
    }
    forall x, y | x in a && y in a && x.0 == y.0 ensures x == y {
      var i :| 0 <= i < |a| && a[i] == x;
      var j :| 0 <= j < |a| && a[j] == y;
      TextIrreflexive(x.0);
    }
    ItemsAreOrdered(a);
    ListingUnique(ItemBefore, Elems(a), a, b);
  }

  lemma MarketFinalIsDetermined(t: Teams, m: multiset<OddsRow>, score: Option<Side>, r: MapFinal, r': MapFinal)
    requires IsMarketFinal(t, m, score, r) && IsMarketFinal(t, m, score, r')
    ensures r == r'
  {
    if !MarketsInvalid(t, m) && (MarketWinner(t, m, TeamOne) <==> !MarketWinner(t, m, TeamTwo)) {
      ListedOnce(t, m, r.outcomes, r'.outcomes);
    }
  }

  lemma FinalOfIsDetermined(a: Team, b: Team, rows: multiset<OddsRow>, mapNumber: int, expected: Option<(int, int)>,
                            r: MapFinal, r': MapFinal)
    requires IsFinalOf(a, b, rows, mapNumber, expected, r) && IsFinalOf(a, b, rows, mapNumber, expected, r')
    ensures r == r'
  {
    var reading := ReadScore(ScoreFor(a, mapNumber), ScoreFor(b, mapNumber));
    if Identified(a, b) && (expected.Some? ==> expected.value == (a.teamId.value, b.teamId.value)) && reading.Score? {
      MarketFinalIsDetermined(Teams(a.teamId.value, b.teamId.value), rows, reading.winner, r, r');
    }
  }

  lemma PairIsDetermined(e: Evidence, mapNumber: int, expected: Option<(int, int)>, r: MapFinal, r': MapFinal)
    requires IsFinalOfPair(e, mapNumber, expected, r) && IsFinalOfPair(e, mapNumber, expected, r')
    ensures r == r'
  {
    var a, b :| InPositions(e.teams, a, b) && IsFinalOf(a, b, e.rows, mapNumber, expected, r);
    var a', b' :| InPositions(e.teams, a', b') && IsFinalOf(a', b', e.rows, mapNumber, expected, r');
    PositionsAreUnique(e.teams, a, b, a', b');
    FinalOfIsDetermined(a, b, e.rows, mapNumber, expected, r, r');
  }

  lemma EvidenceIsDetermined(e: Evidence, mapNumber: int, expected: Option<(int, int)>, r: MapFinal, r': MapFinal)
    requires IsFinalOfEvidence(e, mapNumber, expected, r) && IsFinalOfEvidence(e, mapNumber, expected, r')
    ensures r == r'
  {
    if e.fault.None? {
      if HasPositions(e.teams) { PairIsDetermined(e, mapNumber, expected, r, r'); }
    }
  }

  /** A response has one result. */
  lemma FinalIsDetermined(p: Payload, mapNumber: int, expected: Expectation, r: MapFinal, r': MapFinal)
    requires IsFinal(p, mapNumber, expected, r) && IsFinal(p, mapNumber, expected, r')
    ensures r == r'
  {
    EvidenceIsDetermined(EvidenceOf(p, mapNumber, expected), mapNumber, expected.teams, r, r');
  }

  /** Reordering the team list or the odds list changes nothing at all in the result. */
  lemma OrderOfListsIsIrrelevant(p: Payload, p': Payload, mapNumber: int, expected: Expectation, r: MapFinal,
                                 r': MapFinal)
    requires p'.matchId == p.matchId && p'.gameId == p.gameId && multiset(p'.odds) == multiset(p.odds)
    requires p.teams.Some? <==> p'.teams.Some?
    requires p.teams.Some? ==> multiset(p'.teams.value) == multiset(p.teams.value)
    requires IsFinal(p, mapNumber, expected, r) && IsFinal(p', mapNumber, expected, r')
    ensures r == r'
  {
    SameEvidence(p, p', mapNumber, expected);
    EvidenceIsDetermined(EvidenceOf(p, mapNumber, expected), mapNumber, expected.teams, r, r');
  }

  lemma SameEvidence(p: Payload, p': Payload, mapNumber: int, expected: Expectation)
    requires p'.matchId == p.matchId && p'.gameId == p.gameId && multiset(p'.odds) == multiset(p.odds)
    requires p.teams.Some? <==> p'.teams.Some?
    requires p.teams.Some? ==> multiset(p'.teams.value) == multiset(p.teams.value)
    ensures EvidenceOf(p', mapNumber, expected) == EvidenceOf(p, mapNumber, expected)
  {
    SameRows(p.odds, p'.odds, mapNumber);
    if p.teams.Some? { SameTeams(p.teams.value, p'.teams.value); }
  }

  lemma SameTeams(items: seq<Option<Team>>, others: seq<Option<Team>>)
    requires multiset(items) == multiset(others)
    ensures multiset(Present(items)) == multiset(Present(others))
  {
    PresentCounts(items);
    PresentCounts(others);
    forall x: Team ensures multiset(Present(items))[x] == multiset(Present(others))[x] {
      assert multiset(items)[Some(x)] == multiset(others)[Some(x)];
    }
  }

  lemma SameRows(odds: seq<Option<OddsRow>>, others: seq<Option<OddsRow>>, mapNumber: int)
    requires multiset(odds) == multiset(others)
    ensures multiset(RelevantRows(Present(odds), mapNumber)) == multiset(RelevantRows(Present(others), mapNumber))
  {
    PresentCounts(odds);
    PresentCounts(others);
    RelevantCounts(Present(odds), mapNumber);
    RelevantCounts(Present(others), mapNumber);
    forall row: OddsRow
      ensures multiset(RelevantRows(Present(odds), mapNumber))[row]
              == multiset(RelevantRows(Present(others), mapNumber))[row]
    {
      assert multiset(odds)[Some(row)] == multiset(others)[Some(row)];
    }
  }
}
